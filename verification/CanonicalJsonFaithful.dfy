/**
 The fingerprint text is faithful: it determines the meaning of a value, and, unless two keys
 of one object share a place in the collation order, it depends on nothing else.
 */
module CanonicalJsonFaithful {
  import opened StableSort
  import opened CanonicalJson
  import opened CanonicalJsonInjective

  // ---------------------------------------------------------------- members, one by one

  lemma {:induction false} AllPointwise(items: seq<Json>, collate: Text -> real)
    ensures |CanonAll(items, collate)| == |items| == |MeaningOfAll(items)|
    ensures forall i :: 0 <= i < |items| ==> CanonAll(items, collate)[i] == Canon(items[i], collate)
    ensures forall i :: 0 <= i < |items| ==> MeaningOfAll(items)[i] == MeaningOf(items[i])
  {
    if items != [] {
      AllPointwise(items[1..], collate);
      assert forall i :: 1 <= i < |items| ==> items[i] == items[1..][i - 1];
    }
  }

  ghost predicate Kept(members: seq<Member>, i: int) {
    0 <= i < |members| && !members[i].value.Undefined?
  }

  function CanonMember(m: Member, collate: Text -> real): Member {
    Member(m.key, Canon(m.value, collate))
  }

  /** The canonical members are the kept members, each in canonical form. */
  lemma {:induction false} CanonMembersAre(members: seq<Member>, collate: Text -> real)
    ensures forall i :: Kept(members, i) ==> CanonMember(members[i], collate) in CanonMembers(members, collate)
    ensures forall x <- CanonMembers(members, collate) ::
              exists i :: Kept(members, i) && x == CanonMember(members[i], collate)
  {
    if members != [] {
      var rest := members[1..];
      CanonMembersAre(rest, collate);
      var cs := CanonMembers(members, collate);
      forall i | Kept(members, i) ensures CanonMember(members[i], collate) in cs {
        if i > 0 { assert Kept(rest, i - 1) && members[i] == rest[i - 1]; }
      }
      forall x | x in cs ensures exists i :: Kept(members, i) && x == CanonMember(members[i], collate) {
        if x in CanonMembers(rest, collate) {
          var j :| Kept(rest, j) && x == CanonMember(rest[j], collate);
          assert Kept(members, j + 1) && members[j + 1] == rest[j];
        } else {
          assert Kept(members, 0) && x == CanonMember(members[0], collate);
        }
      }
    }
  }

  /** The meaning of an object maps the key of each kept member to the meaning of its value. */
  lemma {:induction false} MeaningOfMembersIs(members: seq<Member>)
    requires DistinctKeys(members)
    ensures forall i :: Kept(members, i) ==>
              && members[i].key in MeaningOfMembers(members)
              && MeaningOfMembers(members)[members[i].key] == MeaningOf(members[i].value)
    ensures forall k <- MeaningOfMembers(members) :: exists i :: Kept(members, i) && members[i].key == k
  {
    if members != [] {
      var rest := members[1..];
      MeaningOfMembersIs(rest);
      var m := MeaningOfMembers(members);
      forall i | Kept(members, i)
        ensures members[i].key in m && m[members[i].key] == MeaningOf(members[i].value)
      {
        if i > 0 { assert Kept(rest, i - 1) && members[i] == rest[i - 1]; }
      }
      forall k | k in m ensures exists i :: Kept(members, i) && members[i].key == k {
        if k in MeaningOfMembers(rest) {
          var j :| Kept(rest, j) && rest[j].key == k;
          assert Kept(members, j + 1) && members[j + 1] == rest[j];
        } else {
          assert Kept(members, 0) && members[0].key == k;
        }
      }
    }
  }

  // ---------------------------------------------------------------- canonical forms

  lemma ByKeyIsTotal(collate: Text -> real)
    ensures TotalPreorder(ByKey(collate))
  {
  }

  lemma {:induction false} CanonIsNormal(v: Json, collate: Text -> real)
    requires WellFormed(v)
    ensures Normal(Canon(v, collate))
  {
    match v
    case Arr(items) =>
      AllPointwise(items, collate);
      forall i | 0 <= i < |items| ensures Normal(CanonAll(items, collate)[i]) {
        CanonIsNormal(items[i], collate);
      }
    case Obj(members) =>
      var sorted := Sort(ByKey(collate), CanonMembers(members, collate));
      CanonMembersAre(members, collate);
      forall j | 0 <= j < |sorted| ensures Normal(sorted[j].value) {
        SortMembers(ByKey(collate), CanonMembers(members, collate), sorted[j]);
        var i :| Kept(members, i) && sorted[j] == CanonMember(members[i], collate);
        CanonIsNormal(members[i].value, collate);
      }
    case _ =>
  }

  /** Distinct keys stay distinct when members are left out. */
  lemma {:induction false} CanonKeysDistinct(members: seq<Member>, collate: Text -> real)
    requires DistinctKeys(members)
    ensures DistinctKeys(CanonMembers(members, collate))
  {
    if members != [] {
      var rest := CanonMembers(members[1..], collate);
      CanonKeysDistinct(members[1..], collate);
      CanonMembersAre(members[1..], collate);
      assert forall x <- rest :: x.key != members[0].key;
    }
  }

  /** Two canonical members are never tied unless the members they come from are. */
  lemma {:induction false} CanonMembersNoTie(members: seq<Member>, collate: Text -> real)
    requires forall i, j :: 0 <= i < j < |members| ==> !Tied(members[i], members[j], collate)
    ensures NoTie(ByKey(collate), CanonMembers(members, collate))
  {
    if members != [] {
      var rest := members[1..];
      CanonMembersNoTie(rest, collate);
      CanonMembersAre(rest, collate);
      if !members[0].value.Undefined? {
        forall x | x in CanonMembers(rest, collate) ensures collate(members[0].key) != collate(x.key) {
          var j :| Kept(rest, j) && x == CanonMember(rest[j], collate);
          assert !Tied(members[0], members[j + 1], collate);
        }
      } else {
        assert CanonMembers(members, collate) == CanonMembers(rest, collate);
      }
    }
  }

  // ---------------------------------------------------------------- the text determines the meaning

  /** Equal canonical forms come from values of equal meaning. */
  lemma {:induction false} CanonDeterminesMeaning(v: Json, w: Json, collate: Text -> real)
    requires WellFormed(v) && WellFormed(w) && Canon(v, collate) == Canon(w, collate)
    ensures MeaningOf(v) == MeaningOf(w)
  {
    match v
    case Arr(items) =>
      AllPointwise(items, collate);
      AllPointwise(w.items, collate);
      forall i | 0 <= i < |items| ensures MeaningOfAll(items)[i] == MeaningOfAll(w.items)[i] {
        CanonDeterminesMeaning(items[i], w.items[i], collate);
      }
    case Obj(members) =>
      MembersDetermineMeaning(members, w.members, collate);
    case _ =>
  }

  /** A kept member of one object is, in canonical form, a member of the other. */
  lemma SameCanonMember(ms: seq<Member>, ns: seq<Member>, i: int, collate: Text -> real) returns (j: int)
    requires Sort(ByKey(collate), CanonMembers(ms, collate)) == Sort(ByKey(collate), CanonMembers(ns, collate))
    requires Kept(ms, i)
    ensures Kept(ns, j) && CanonMember(ms[i], collate) == CanonMember(ns[j], collate)
  {
    var x := CanonMember(ms[i], collate);
    CanonMembersAre(ms, collate);
    CanonMembersAre(ns, collate);
    SortMembers(ByKey(collate), CanonMembers(ms, collate), x);
    SortMembers(ByKey(collate), CanonMembers(ns, collate), x);
    j :| Kept(ns, j) && x == CanonMember(ns[j], collate);
  }

  lemma {:induction false} MembersDetermineMeaning(ms: seq<Member>, ns: seq<Member>, collate: Text -> real)
    requires WellFormed(Obj(ms)) && WellFormed(Obj(ns))
    requires Sort(ByKey(collate), CanonMembers(ms, collate)) == Sort(ByKey(collate), CanonMembers(ns, collate))
    ensures MeaningOfMembers(ms) == MeaningOfMembers(ns)
    decreases ms
  {
    MeaningOfMembersIs(ms);
    MeaningOfMembersIs(ns);
    var a, b := MeaningOfMembers(ms), MeaningOfMembers(ns);
    forall k | k in a ensures k in b && a[k] == b[k] {
      var i :| Kept(ms, i) && ms[i].key == k;
      var j := SameCanonMember(ms, ns, i, collate);
      CanonDeterminesMeaning(ms[i].value, ns[j].value, collate);
    }
    forall k | k in b ensures k in a {
      var j :| Kept(ns, j) && ns[j].key == k;
      var i := SameCanonMember(ns, ms, j, collate);
    }
  }

  // ---------------------------------------------------------------- the meaning determines the text

  /** Without ties, the canonical form depends on the meaning only. */
  lemma {:induction false} MeaningDeterminesCanon(v: Json, w: Json, collate: Text -> real)
    requires WellFormed(v) && WellFormed(w) && NoTies(v, collate) && MeaningOf(v) == MeaningOf(w)
    ensures Canon(v, collate) == Canon(w, collate)
  {
    match v
    case Arr(items) =>
      AllPointwise(items, collate);
      AllPointwise(w.items, collate);
      forall i | 0 <= i < |items| ensures CanonAll(items, collate)[i] == CanonAll(w.items, collate)[i] {
        assert MeaningOfAll(items)[i] == MeaningOfAll(w.items)[i];
        MeaningDeterminesCanon(items[i], w.items[i], collate);
      }
    case Obj(members) =>
      MeaningDeterminesMembers(members, w.members, collate);
    case _ =>
  }

  /** A kept member of one object has a counterpart in any object of the same meaning. */
  lemma Counterpart(ms: seq<Member>, ns: seq<Member>, i: int) returns (j: int)
    requires DistinctKeys(ms) && DistinctKeys(ns) && MeaningOfMembers(ms) == MeaningOfMembers(ns)
    requires Kept(ms, i)
    ensures Kept(ns, j) && ns[j].key == ms[i].key && MeaningOf(ns[j].value) == MeaningOf(ms[i].value)
  {
    MeaningOfMembersIs(ms);
    MeaningOfMembersIs(ns);
    j :| Kept(ns, j) && ns[j].key == ms[i].key;
  }

  lemma {:induction false} MeaningDeterminesMembers(ms: seq<Member>, ns: seq<Member>, collate: Text -> real)
    requires WellFormed(Obj(ms)) && WellFormed(Obj(ns)) && NoTies(Obj(ms), collate)
    requires MeaningOfMembers(ms) == MeaningOfMembers(ns)
    ensures Sort(ByKey(collate), CanonMembers(ms, collate)) == Sort(ByKey(collate), CanonMembers(ns, collate))
    decreases ms
  {
    var le := ByKey(collate);
    var a, b := CanonMembers(ms, collate), CanonMembers(ns, collate);
    CanonMembersAre(ms, collate);
    CanonMembersAre(ns, collate);
    forall x | x in a ensures x in b {
      var i :| Kept(ms, i) && x == CanonMember(ms[i], collate);
      var j := Counterpart(ms, ns, i);
      MeaningDeterminesCanon(ms[i].value, ns[j].value, collate);
      assert CanonMember(ns[j], collate) in b;
    }
    forall x | x in b ensures x in a {
      var j :| Kept(ns, j) && x == CanonMember(ns[j], collate);
      var i := Counterpart(ns, ms, j);
      MeaningDeterminesCanon(ms[i].value, ns[j].value, collate);
      assert CanonMember(ms[i], collate) in a;
    }
    NoTiesCarryOver(ms, ns, collate);
    CanonMembersNoTie(ms, collate);
    CanonMembersNoTie(ns, collate);
    ByKeyIsTotal(collate);
    SortStrict(le, a);
    SortStrict(le, b);
    forall x | x in Sort(le, a) ensures x in Sort(le, b) {
      SortMembers(le, a, x);
      SortMembers(le, b, x);
    }
    forall x | x in Sort(le, b) ensures x in Sort(le, a) {
      SortMembers(le, a, x);
      SortMembers(le, b, x);
    }
    StrictOrderIsUnique(le, Sort(le, a), Sort(le, b));
  }

  lemma NoTiesCarryOver(ms: seq<Member>, ns: seq<Member>, collate: Text -> real)
    requires DistinctKeys(ms) && DistinctKeys(ns) && MeaningOfMembers(ms) == MeaningOfMembers(ns)
    requires forall i, j :: 0 <= i < j < |ms| ==> !Tied(ms[i], ms[j], collate)
    ensures forall i, j :: 0 <= i < j < |ns| ==> !Tied(ns[i], ns[j], collate)
  {
    forall i, j | 0 <= i < j < |ns| ensures !Tied(ns[i], ns[j], collate) {
      if Kept(ns, i) && Kept(ns, j) {
        var i' := Counterpart(ns, ms, i);
        var j' := Counterpart(ns, ms, j);
        assert i' != j';
        assert !Tied(ms[if i' < j' then i' else j'], ms[if i' < j' then j' else i'], collate);
      }
    }
  }

  /** The text that is fingerprinted determines the value up to the order of members. Without
      ties it is determined by it: two values print alike exactly when they mean the same. */
  lemma PrintIsFaithful(v: Json, w: Json, collate: Text -> real)
    requires WellFormed(v) && WellFormed(w)
    ensures Print(v, collate) == Print(w, collate) ==> MeaningOf(v) == MeaningOf(w)
    ensures NoTies(v, collate) ==> (Print(v, collate) == Print(w, collate) <==> MeaningOf(v) == MeaningOf(w))
  {
    PrintIsRender(v, collate);
    PrintIsRender(w, collate);
    if Print(v, collate) == Print(w, collate) {
      CanonIsNormal(v, collate);
      CanonIsNormal(w, collate);
      RenderIsInjective(Canon(v, collate), Canon(w, collate));
      CanonDeterminesMeaning(v, w, collate);
    }
    if NoTies(v, collate) && MeaningOf(v) == MeaningOf(w) {
      MeaningDeterminesCanon(v, w, collate);
    }
  }

  // ---------------------------------------------------------------- ties

  /** The members with the one at `j` moved to the front. */
  function Promoted(ms: seq<Member>, j: nat): seq<Member>
    requires j < |ms|
  {
    [ms[j]] + (ms[..j] + ms[j + 1..])
  }

  lemma PromotedSameMembers(ms: seq<Member>, j: nat)
    requires j < |ms| && DistinctKeys(ms)
    ensures var ns := Promoted(ms, j);
            && DistinctKeys(ns)
            && (forall i :: 0 <= i < |ms| ==> ms[i] in ns)
            && (forall i :: 0 <= i < |ns| ==> ns[i] in ms)
  {
    var ns := Promoted(ms, j);
    assert forall i :: 0 <= i < |ns| ==> ns[i] == ms[if i == 0 then j else if i <= j then i - 1 else i];
    forall i | 0 <= i < |ms| ensures ms[i] in ns {
      assert ns[if i == j then 0 else if i < j then i + 1 else i] == ms[i];
    }
  }

  lemma SameMembersSameMeaning(ms: seq<Member>, ns: seq<Member>)
    requires DistinctKeys(ms) && DistinctKeys(ns)
    requires forall i :: 0 <= i < |ms| ==> ms[i] in ns
    requires forall i :: 0 <= i < |ns| ==> ns[i] in ms
    ensures MeaningOfMembers(ms) == MeaningOfMembers(ns)
  {
    MeaningOfMembersIs(ms);
    MeaningOfMembersIs(ns);
    var a, b := MeaningOfMembers(ms), MeaningOfMembers(ns);
    forall k | k in a ensures k in b && a[k] == b[k] {
      var i :| Kept(ms, i) && ms[i].key == k;
      var j :| 0 <= j < |ns| && ns[j] == ms[i];
      assert Kept(ns, j);
    }
    forall k | k in b ensures k in a {
      var j :| Kept(ns, j) && ns[j].key == k;
      var i :| 0 <= i < |ms| && ms[i] == ns[j];
      assert Kept(ms, i);
    }
  }

  lemma {:induction false} CanonMembersConcat(ms: seq<Member>, ns: seq<Member>, collate: Text -> real)
    ensures CanonMembers(ms + ns, collate) == CanonMembers(ms, collate) + CanonMembers(ns, collate)
  {
    if ms == [] {
      assert ms + ns == ns;
    } else {
      assert (ms + ns)[1..] == ms[1..] + ns;
      CanonMembersConcat(ms[1..], ns, collate);
    }
  }

  lemma {:induction false} TiesConcat(le: (Member, Member) -> bool, to: Member, a: seq<Member>, b: seq<Member>)
    ensures Ties(le, to, a + b) == Ties(le, to, a) + Ties(le, to, b)
  {
    if a == [] {
      assert a + b == b;
    } else {
      assert (a + b)[1..] == a[1..] + b;
      TiesConcat(le, to, a[1..], b);
    }
  }

  lemma {:induction false} TiesFound(le: (Member, Member) -> bool, to: Member, s: seq<Member>, x: Member)
    requires x in s && le(x, to) && le(to, x)
    ensures Ties(le, to, s) != [] && Ties(le, to, s)[0] in s
  {
    if !(le(s[0], to) && le(to, s[0])) {
      TiesFound(le, to, s[1..], x);
    }
  }

  /** Among the canonical members tied with the one at `j`, an earlier one comes first. */
  lemma EarlierTieIsFirst(ms: seq<Member>, i: nat, j: nat, collate: Text -> real)
    requires i < j < |ms| && DistinctKeys(ms) && Tied(ms[i], ms[j], collate)
    ensures var ties := Ties(ByKey(collate), CanonMember(ms[j], collate), CanonMembers(ms, collate));
            ties != [] && ties[0].key != ms[j].key
  {
    var le := ByKey(collate);
    var to := CanonMember(ms[j], collate);
    var early := ms[..j];
    assert ms == early + ms[j..];
    CanonMembersConcat(early, ms[j..], collate);
    TiesConcat(le, to, CanonMembers(early, collate), CanonMembers(ms[j..], collate));
    CanonMembersAre(early, collate);
    assert Kept(early, i) && CanonMember(early[i], collate) in CanonMembers(early, collate);
    TiesFound(le, to, CanonMembers(early, collate), CanonMember(early[i], collate));
    var first := Ties(le, to, CanonMembers(early, collate))[0];
    var k :| Kept(early, k) && first == CanonMember(early[k], collate);
    assert first.key == ms[k].key;
  }

  lemma PromotedTieIsFirst(ms: seq<Member>, j: nat, collate: Text -> real)
    requires j < |ms| && !ms[j].value.Undefined?
    ensures var to := CanonMember(ms[j], collate);
            var ties := Ties(ByKey(collate), to, CanonMembers(Promoted(ms, j), collate));
            ties != [] && ties[0] == to
  {
    var to := CanonMember(ms[j], collate);
    var others := ms[..j] + ms[j + 1..];
    CanonMembersConcat([ms[j]], others, collate);
    assert ([ms[j]])[1..] == [] && ([to])[1..] == [];
    assert CanonMembers([ms[j]], collate) == [to];
    TiesConcat(ByKey(collate), to, [to], CanonMembers(others, collate));
  }

  /** Moving a tied member to the front changes the sorted order. */
  lemma PromotionChangesCanon(ms: seq<Member>, i: nat, j: nat, collate: Text -> real)
    requires i < j < |ms| && DistinctKeys(ms) && Tied(ms[i], ms[j], collate)
    ensures Sort(ByKey(collate), CanonMembers(Promoted(ms, j), collate))
            != Sort(ByKey(collate), CanonMembers(ms, collate))
  {
    var le := ByKey(collate);
    var to := CanonMember(ms[j], collate);
    ByKeyIsTotal(collate);
    SortIsStable(le, to, CanonMembers(ms, collate));
    SortIsStable(le, to, CanonMembers(Promoted(ms, j), collate));
    EarlierTieIsFirst(ms, i, j, collate);
    PromotedTieIsFirst(ms, j, collate);
  }

  lemma PromotedTwin(ms: seq<Member>, i: nat, j: nat, collate: Text -> real)
    requires WellFormed(Obj(ms)) && i < j < |ms| && Tied(ms[i], ms[j], collate)
    ensures var w := Obj(Promoted(ms, j));
            && WellFormed(w) && MeaningOf(w) == MeaningOf(Obj(ms))
            && Canon(w, collate) != Canon(Obj(ms), collate)
  {
    var ns := Promoted(ms, j);
    PromotedSameMembers(ms, j);
    forall k | 0 <= k < |ns| ensures WellFormed(ns[k].value) {
      var l :| 0 <= l < |ms| && ms[l] == ns[k];
    }
    SameMembersSameMeaning(ms, ns);
    PromotionChangesCanon(ms, i, j, collate);
  }

  lemma ReplacedItemTwin(items: seq<Json>, i: nat, twin: Json, collate: Text -> real)
    requires WellFormed(Arr(items)) && i < |items|
    requires WellFormed(twin) && MeaningOf(twin) == MeaningOf(items[i])
    requires Canon(twin, collate) != Canon(items[i], collate)
    ensures var w := Arr(items[i := twin]);
            && WellFormed(w) && MeaningOf(w) == MeaningOf(Arr(items))
            && Canon(w, collate) != Canon(Arr(items), collate)
  {
    var items' := items[i := twin];
    AllPointwise(items, collate);
    AllPointwise(items', collate);
    assert forall k :: 0 <= k < |items| && k != i ==> items'[k] == items[k];
    assert MeaningOfAll(items') == MeaningOfAll(items);
    assert CanonAll(items', collate)[i] != CanonAll(items, collate)[i];
  }

  lemma {:induction false} ReplacedMemberMeaning(ms: seq<Member>, i: nat, twin: Json)
    requires DistinctKeys(ms) && i < |ms| && !ms[i].value.Undefined? && !twin.Undefined?
    requires MeaningOf(twin) == MeaningOf(ms[i].value)
    ensures var ns := ms[i := Member(ms[i].key, twin)];
            DistinctKeys(ns) && MeaningOfMembers(ns) == MeaningOfMembers(ms)
  {
    var ns := ms[i := Member(ms[i].key, twin)];
    assert forall k :: 0 <= k < |ms| ==> ns[k].key == ms[k].key;
    if i == 0 {
      assert ns[1..] == ms[1..];
    } else {
      ReplacedMemberMeaning(ms[1..], i - 1, twin);
      assert ns[1..] == ms[1..][i - 1 := Member(ms[i].key, twin)];
    }
  }

  lemma ReplacedMemberCanon(ms: seq<Member>, i: nat, twin: Json, collate: Text -> real)
    requires DistinctKeys(ms) && i < |ms| && !twin.Undefined?
    requires Canon(twin, collate) != Canon(ms[i].value, collate)
    ensures Sort(ByKey(collate), CanonMembers(ms[i := Member(ms[i].key, twin)], collate))
            != Sort(ByKey(collate), CanonMembers(ms, collate))
  {
    var ns := ms[i := Member(ms[i].key, twin)];
    var x := CanonMember(ns[i], collate);
    CanonMembersAre(ms, collate);
    CanonMembersAre(ns, collate);
    assert Kept(ns, i);
    SortMembers(ByKey(collate), CanonMembers(ns, collate), x);
    SortMembers(ByKey(collate), CanonMembers(ms, collate), x);
  }

  /** A value with a tie somewhere has a twin: same meaning, other canonical form. */
  lemma {:induction false} TieHasTwin(v: Json, collate: Text -> real) returns (w: Json)
    requires WellFormed(v) && !NoTies(v, collate)
    ensures WellFormed(w) && MeaningOf(w) == MeaningOf(v) && Canon(w, collate) != Canon(v, collate)
    decreases v
  {
    match v {
      case Arr(items) =>
        var i :| 0 <= i < |items| && !NoTies(items[i], collate);
        var twin := TieHasTwin(items[i], collate);
        w := Arr(items[i := twin]);
        ReplacedItemTwin(items, i, twin, collate);
      case Obj(members) =>
        if i, j :| 0 <= i < j < |members| && Tied(members[i], members[j], collate) {
          w := Obj(Promoted(members, j));
          PromotedTwin(members, i, j, collate);
        } else {
          var i :| 0 <= i < |members| && !NoTies(members[i].value, collate);
          var twin := TieHasTwin(members[i].value, collate);
          w := Obj(members[i := Member(members[i].key, twin)]);
          ReplacedMemberMeaning(members, i, twin);
          ReplacedMemberCanon(members, i, twin, collate);
        }
    }
  }

  /** The two are printed differently. */
  lemma TiePrintsTwoWays(v: Json, collate: Text -> real) returns (w: Json)
    requires WellFormed(v) && !NoTies(v, collate)
    ensures WellFormed(w) && MeaningOf(w) == MeaningOf(v) && Print(w, collate) != Print(v, collate)
  {
    w := TieHasTwin(v, collate);
    PrintIsRender(v, collate);
    PrintIsRender(w, collate);
    CanonIsNormal(v, collate);
    CanonIsNormal(w, collate);
    if Print(w, collate) == Print(v, collate) {
      RenderIsInjective(Canon(w, collate), Canon(v, collate));
    }
  }

  /** The printed text is independent of the order of members exactly when no object in the
      value has two members whose keys share a place in the collation order. */
  lemma OrderIndependentIff(v: Json, collate: Text -> real)
    requires WellFormed(v)
    ensures NoTies(v, collate) <==>
              forall w :: WellFormed(w) && MeaningOf(w) == MeaningOf(v) ==> Print(w, collate) == Print(v, collate)
  {
    if NoTies(v, collate) {
      forall w | WellFormed(w) && MeaningOf(w) == MeaningOf(v) ensures Print(w, collate) == Print(v, collate) {
        PrintIsFaithful(v, w, collate);
      }
    } else {
      var w := TiePrintsTwoWays(v, collate);
    }
  }
}
