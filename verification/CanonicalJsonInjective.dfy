/** The printed text determines the value: printing sorted values is injective. */
module CanonicalJsonInjective {
  import opened StableSort
  import opened CanonicalJson
  import opened CanonicalJsonStrings

  // ---------------------------------------------------------------- sort first, print later

  /** The value with members sorted, undefined members left out and other undefineds null. */
  function Canon(v: Json, collate: Text -> real): Json
    decreases v, 1
  {
    match v
    case Undefined => Null
    case Arr(items) => Arr(CanonAll(items, collate))
    case Obj(members) => Obj(Sort(ByKey(collate), CanonMembers(members, collate)))
    case _ => v
  }

  function CanonAll(items: seq<Json>, collate: Text -> real): seq<Json>
    decreases items, 0
  {
    if items == [] then [] else [Canon(items[0], collate)] + CanonAll(items[1..], collate)
  }

  function CanonMembers(members: seq<Member>, collate: Text -> real): seq<Member>
    decreases members, 0
  {
    if members == [] then []
    else
      (if members[0].value.Undefined? then []
       else [Member(members[0].key, Canon(members[0].value, collate))])
      + CanonMembers(members[1..], collate)
  }

  /** A printer that keeps the order it is given. */
  function Render(c: Json): Text
    decreases c, 1
  {
    match c
    case Arr(items) => [LBRACKET] + Join(RenderAll(items)) + [RBRACKET]
    case Obj(members) => [LBRACE] + Join(PairTexts(RenderMembers(members))) + [RBRACE]
    case Undefined => NULL
    case Null => NULL
    case Bool(b) => if b then TRUE else FALSE
    case Number(token) => token
    case Str(s) => Quote(s)
  }

  function RenderAll(items: seq<Json>): seq<Text>
    decreases items, 0
  {
    if items == [] then [] else [Render(items[0])] + RenderAll(items[1..])
  }

  function RenderMembers(members: seq<Member>): seq<Printed>
    decreases members, 0
  {
    if members == [] then []
    else [Printed(members[0].key, Render(members[0].value))] + RenderMembers(members[1..])
  }

  lemma {:induction false} InsertThenRender(collate: Text -> real, m: Member, s: seq<Member>)
    ensures Insert(ByPrintedKey(collate), Printed(m.key, Render(m.value)), RenderMembers(s))
            == RenderMembers(Insert(ByKey(collate), m, s))
  {
    if s != [] {
      InsertThenRender(collate, m, s[1..]);
      assert RenderMembers(s)[1..] == RenderMembers(s[1..]);
      assert ([m] + s)[1..] == s;
    }
  }

  lemma {:induction false} SortThenRender(collate: Text -> real, s: seq<Member>)
    ensures Sort(ByPrintedKey(collate), RenderMembers(s)) == RenderMembers(Sort(ByKey(collate), s))
  {
    if s != [] {
      SortThenRender(collate, s[1..]);
      assert RenderMembers(s)[1..] == RenderMembers(s[1..]);
      InsertThenRender(collate, s[0], Sort(ByKey(collate), s[1..]));
    }
  }

  /** Printing is rendering the canonical form. */
  lemma {:induction false} PrintIsRender(v: Json, collate: Text -> real)
    ensures Print(v, collate) == Render(Canon(v, collate))
    decreases v, 1
  {
    match v
    case Arr(items) => PrintAllIsRender(items, collate);
    case Obj(members) =>
      PrintMembersIsRender(members, collate);
      SortThenRender(collate, CanonMembers(members, collate));
    case _ =>
  }

  lemma {:induction false} PrintAllIsRender(items: seq<Json>, collate: Text -> real)
    ensures PrintAll(items, collate) == RenderAll(CanonAll(items, collate))
    decreases items, 0
  {
    if items != [] {
      PrintIsRender(items[0], collate);
      PrintAllIsRender(items[1..], collate);
      assert CanonAll(items, collate)[1..] == CanonAll(items[1..], collate);
    }
  }

  lemma {:induction false} PrintMembersIsRender(members: seq<Member>, collate: Text -> real)
    ensures PrintMembers(members, collate) == RenderMembers(CanonMembers(members, collate))
    decreases members, 0
  {
    if members != [] {
      PrintMembersIsRender(members[1..], collate);
      if members[0].value.Undefined? {
        assert PrintMembers(members, collate) == PrintMembers(members[1..], collate);
        assert CanonMembers(members, collate) == CanonMembers(members[1..], collate);
      } else {
        PrintIsRender(members[0].value, collate);
        assert CanonMembers(members, collate)[1..] == CanonMembers(members[1..], collate);
      }
    }
  }

  // ---------------------------------------------------------------- unique readability

  /** What a rendered value consists of: no undefined value, printable numbers. */
  ghost predicate Normal(c: Json) {
    match c
    case Undefined => false
    case Number(token) => IsNumberToken(token)
    case Arr(items) => forall i :: 0 <= i < |items| ==> Normal(items[i])
    case Obj(members) => forall i :: 0 <= i < |members| ==> Normal(members[i].value)
    case _ => true
  }

  ghost predicate AllNormal(items: seq<Json>) {
    forall i :: 0 <= i < |items| ==> Normal(items[i])
  }

  ghost predicate MembersNormal(members: seq<Member>) {
    forall i :: 0 <= i < |members| ==> Normal(members[i].value)
  }

  /** The text of a value followed by `x`. */
  function Before(c: Json, x: Text): Text
    decreases c, 1
  {
    match c
    case Arr(items) => [LBRACKET] + ItemsBefore(items, [RBRACKET] + x)
    case Obj(members) => [LBRACE] + MembersBefore(members, [RBRACE] + x)
    case _ => Render(c) + x
  }

  function ItemsBefore(items: seq<Json>, x: Text): Text
    decreases items, 0
  {
    if items == [] then x
    else Before(items[0], if |items| == 1 then x else [COMMA] + ItemsBefore(items[1..], x))
  }

  function MembersBefore(members: seq<Member>, x: Text): Text
    decreases members, 0
  {
    if members == [] then x
    else
      Quote(members[0].key)
      + ([COLON] + Before(members[0].value,
                          if |members| == 1 then x else [COMMA] + MembersBefore(members[1..], x)))
  }

  lemma {:induction false} RenderBefore(c: Json, x: Text)
    ensures Render(c) + x == Before(c, x)
    decreases c, 1
  {
    match c
    case Arr(items) =>
      JoinBefore(items, [RBRACKET] + x);
      var inner := Join(RenderAll(items));
      assert Render(c) + x == [LBRACKET] + (inner + ([RBRACKET] + x));
    case Obj(members) =>
      JoinMembersBefore(members, [RBRACE] + x);
      var inner := Join(PairTexts(RenderMembers(members)));
      assert Render(c) + x == [LBRACE] + (inner + ([RBRACE] + x));
    case _ =>
  }

  lemma {:induction false} JoinBefore(items: seq<Json>, x: Text)
    ensures Join(RenderAll(items)) + x == ItemsBefore(items, x)
    decreases items, 0
  {
    if items == [] {
      assert Join([]) + x == x;
    } else if |items| == 1 {
      RenderBefore(items[0], x);
      assert items[1..] == [];
      assert RenderAll(items) == [Render(items[0])];
    } else {
      var rest := Join(RenderAll(items[1..]));
      JoinBefore(items[1..], x);
      RenderBefore(items[0], [COMMA] + ItemsBefore(items[1..], x));
      assert RenderAll(items)[1..] == RenderAll(items[1..]);
      assert Join(RenderAll(items)) == Render(items[0]) + [COMMA] + rest;
      assert Join(RenderAll(items)) + x == Render(items[0]) + ([COMMA] + (rest + x));
    }
  }

  lemma JoinFirst(first: Text, rest: seq<Text>, x: Text)
    ensures Join([first] + rest) + x == first + if rest == [] then x else [COMMA] + (Join(rest) + x)
  {
    assert ([first] + rest)[1..] == rest;
    if rest != [] {
      assert Join([first] + rest) == first + [COMMA] + Join(rest);
    }
  }

  lemma PairBefore(m: Member, x: Text)
    ensures Quote(m.key) + [COLON] + Render(m.value) + x == Quote(m.key) + ([COLON] + (Render(m.value) + x))
  {
  }

  lemma {:induction false} JoinMembersBefore(members: seq<Member>, x: Text)
    ensures Join(PairTexts(RenderMembers(members))) + x == MembersBefore(members, x)
    decreases members, 0
  {
    if members == [] {
      assert Join([]) + x == x;
    } else {
      var m := members[0];
      var text := Quote(m.key) + [COLON] + Render(m.value);
      var rest := PairTexts(RenderMembers(members[1..]));
      var y := if |members| == 1 then x else [COMMA] + MembersBefore(members[1..], x);
      assert RenderMembers(members)[1..] == RenderMembers(members[1..]);
      assert PairTexts(RenderMembers(members)) == [text] + rest;
      JoinMembersBefore(members[1..], x);
      JoinFirst(text, rest, x);
      assert rest == [] <==> |members| == 1;
      PairBefore(m, y);
      RenderBefore(m.value, y);
    }
  }

  /** Text that can follow a value: nothing, a comma or a closing bracket. */
  predicate Stops(x: Text) {
    x == [] || x[0] == COMMA || x[0] == RBRACKET || x[0] == RBRACE
  }

  /** The first unit of the text of a value tells its kind. */
  function Head(c: Json): Unit
    requires c.Number? ==> c.token != []
  {
    match c
    case Undefined => 0x6E
    case Null => 0x6E
    case Bool(b) => if b then 0x74 else 0x66
    case Number(token) => token[0]
    case Str(_) => QUOTE
    case Arr(_) => LBRACKET
    case Obj(_) => LBRACE
  }

  lemma HeadOf(c: Json, x: Text)
    requires Normal(c)
    ensures Before(c, x) != [] && Before(c, x)[0] == Head(c)
  {
  }

  lemma TokensEnd(s: Text, t: Text, x: Text, y: Text)
    requires IsNumberToken(s) && IsNumberToken(t) && Stops(x) && Stops(y) && s + x == t + y
    ensures |s| <= |t|
  {
    assert forall i :: 0 <= i < |s| ==> (s + x)[i] == s[i] && IsNumberUnit(s[i]);
    assert y != [] ==> (t + y)[|t|] == y[0] && !IsNumberUnit(y[0]);
  }

  lemma TokenIsUnique(s: Text, t: Text, x: Text, y: Text)
    requires IsNumberToken(s) && IsNumberToken(t) && Stops(x) && Stops(y) && s + x == t + y
    ensures s == t && x == y
  {
    TokensEnd(s, t, x, y);
    TokensEnd(t, s, y, x);
    assert s == (s + x)[..|s|] && t == (t + y)[..|t|];
    assert x == (s + x)[|s|..] && y == (t + y)[|t|..];
  }

  lemma WordIsUnique(w: Text, x: Text, y: Text)
    requires w + x == w + y
    ensures x == y
  {
    assert x == (w + x)[|w|..] && y == (w + y)[|w|..];
  }

  /** Two values followed by text that stops them are told apart, and so is what follows. */
  lemma {:induction false} BeforeIsUnique(c: Json, d: Json, x: Text, y: Text)
    requires Normal(c) && Normal(d) && Stops(x) && Stops(y) && Before(c, x) == Before(d, y)
    ensures c == d && x == y
    decreases c, 1
  {
    HeadOf(c, x);
    HeadOf(d, y);
    match c
    case Null => WordIsUnique(NULL, x, y);
    case Bool(b) => WordIsUnique(if b then TRUE else FALSE, x, y);
    case Number(token) => TokenIsUnique(token, d.token, x, y);
    case Str(s) => QuoteIsUnique(s, d.s, x, y);
    case Arr(items) =>
      WordIsUnique([LBRACKET], ItemsBefore(items, [RBRACKET] + x), ItemsBefore(d.items, [RBRACKET] + y));
      ItemsAreUnique(items, d.items, x, y);
    case Obj(members) =>
      WordIsUnique([LBRACE], MembersBefore(members, [RBRACE] + x), MembersBefore(d.members, [RBRACE] + y));
      MembersAreUnique(members, d.members, x, y);
  }

  lemma {:induction false} ItemsAreUnique(cs: seq<Json>, ds: seq<Json>, x: Text, y: Text)
    requires AllNormal(cs) && AllNormal(ds)
    requires ItemsBefore(cs, [RBRACKET] + x) == ItemsBefore(ds, [RBRACKET] + y)
    ensures cs == ds && x == y
    decreases cs, 0
  {
    var x', y' := [RBRACKET] + x, [RBRACKET] + y;
    if cs == [] || ds == [] {
      if cs != [] { HeadOf(cs[0], if |cs| == 1 then x' else [COMMA] + ItemsBefore(cs[1..], x')); }
      if ds != [] { HeadOf(ds[0], if |ds| == 1 then y' else [COMMA] + ItemsBefore(ds[1..], y')); }
      WordIsUnique([RBRACKET], x, y);
    } else {
      var u := if |cs| == 1 then x' else [COMMA] + ItemsBefore(cs[1..], x');
      var w := if |ds| == 1 then y' else [COMMA] + ItemsBefore(ds[1..], y');
      BeforeIsUnique(cs[0], ds[0], u, w);
      assert u[0] == w[0];
      if |cs| == 1 {
        WordIsUnique([RBRACKET], x, y);
      } else {
        WordIsUnique([COMMA], ItemsBefore(cs[1..], x'), ItemsBefore(ds[1..], y'));
        ItemsAreUnique(cs[1..], ds[1..], x, y);
        assert cs == [cs[0]] + cs[1..] && ds == [ds[0]] + ds[1..];
      }
    }
  }

  lemma {:induction false} MembersAreUnique(ms: seq<Member>, ns: seq<Member>, x: Text, y: Text)
    requires MembersNormal(ms) && MembersNormal(ns)
    requires MembersBefore(ms, [RBRACE] + x) == MembersBefore(ns, [RBRACE] + y)
    ensures ms == ns && x == y
    decreases ms, 0
  {
    var x', y' := [RBRACE] + x, [RBRACE] + y;
    if ms == [] || ns == [] {
      assert MembersBefore(ms, x')[0] == if ms == [] then RBRACE else QUOTE;
      assert MembersBefore(ns, y')[0] == if ns == [] then RBRACE else QUOTE;
      WordIsUnique([RBRACE], x, y);
    } else {
      var u := if |ms| == 1 then x' else [COMMA] + MembersBefore(ms[1..], x');
      var w := if |ns| == 1 then y' else [COMMA] + MembersBefore(ns[1..], y');
      QuoteIsUnique(ms[0].key, ns[0].key, [COLON] + Before(ms[0].value, u), [COLON] + Before(ns[0].value, w));
      WordIsUnique([COLON], Before(ms[0].value, u), Before(ns[0].value, w));
      BeforeIsUnique(ms[0].value, ns[0].value, u, w);
      assert u[0] == w[0];
      if |ms| == 1 {
        WordIsUnique([RBRACE], x, y);
      } else {
        WordIsUnique([COMMA], MembersBefore(ms[1..], x'), MembersBefore(ns[1..], y'));
        MembersAreUnique(ms[1..], ns[1..], x, y);
        assert ms == [ms[0]] + ms[1..] && ns == [ns[0]] + ns[1..];
      }
    }
  }

  /** Different canonical forms have different texts. */
  lemma RenderIsInjective(c: Json, d: Json)
    requires Normal(c) && Normal(d) && Render(c) == Render(d)
    ensures c == d
  {
    RenderBefore(c, []);
    RenderBefore(d, []);
    BeforeIsUnique(c, d, [], []);
  }
}
