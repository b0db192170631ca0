/** The stable sort of the language runtime, for any total preorder. */
module StableSort {

  ghost predicate TotalPreorder<T(!new)>(le: (T, T) -> bool) {
    && (forall a, b :: le(a, b) || le(b, a))
    && (forall a, b, c :: le(a, b) && le(b, c) ==> le(a, c))
  }

  /** Put `x` in front of the first element it may precede. */
  function Insert<T>(le: (T, T) -> bool, x: T, s: seq<T>): seq<T> {
    if s == [] || le(x, s[0]) then [x] + s
    else [s[0]] + Insert(le, x, s[1..])
  }

  function Sort<T>(le: (T, T) -> bool, xs: seq<T>): seq<T> {
    if xs == [] then [] else Insert(le, xs[0], Sort(le, xs[1..]))
  }

  ghost predicate Sorted<T>(le: (T, T) -> bool, s: seq<T>) {
    forall i, j :: 0 <= i < j < |s| ==> le(s[i], s[j])
  }

  ghost predicate StrictlySorted<T>(le: (T, T) -> bool, s: seq<T>) {
    forall i, j :: 0 <= i < j < |s| ==> le(s[i], s[j]) && !le(s[j], s[i])
  }

  // ---------------------------------------------------------------- contents

  lemma {:induction false} InsertContents<T>(le: (T, T) -> bool, x: T, s: seq<T>)
    ensures multiset(Insert(le, x, s)) == multiset(s) + multiset{x}
    ensures |Insert(le, x, s)| == |s| + 1
  {
    if !(s == [] || le(x, s[0])) {
      InsertContents(le, x, s[1..]);
      assert s == [s[0]] + s[1..];
    }
  }

  lemma {:induction false} SortContents<T>(le: (T, T) -> bool, xs: seq<T>)
    ensures multiset(Sort(le, xs)) == multiset(xs)
    ensures |Sort(le, xs)| == |xs|
  {
    if xs != [] {
      SortContents(le, xs[1..]);
      InsertContents(le, xs[0], Sort(le, xs[1..]));
      assert xs == [xs[0]] + xs[1..];
    }
  }

  lemma SortMembers<T>(le: (T, T) -> bool, xs: seq<T>, x: T)
    ensures x in Sort(le, xs) <==> x in xs
  {
    SortContents(le, xs);
    assert x in Sort(le, xs) <==> x in multiset(Sort(le, xs));
    assert x in xs <==> x in multiset(xs);
  }

  lemma InsertMembers<T>(le: (T, T) -> bool, x: T, s: seq<T>, y: T)
    requires y in Insert(le, x, s) && y != x
    ensures exists j :: 0 <= j < |s| && s[j] == y
  {
    InsertContents(le, x, s);
    assert y in multiset(Insert(le, x, s));
    assert y in multiset(s);
  }

  // ---------------------------------------------------------------- order

  lemma {:induction false} InsertSorted<T(!new)>(le: (T, T) -> bool, x: T, s: seq<T>)
    requires TotalPreorder(le) && Sorted(le, s)
    ensures Sorted(le, Insert(le, x, s))
  {
    if s == [] {
    } else if le(x, s[0]) {
      assert forall j :: 0 <= j < |s| ==> le(x, s[j]);
    } else {
      InsertSorted(le, x, s[1..]);
      var r := Insert(le, x, s[1..]);
      forall y | y in r ensures le(s[0], y) {
        if y != x {
          InsertMembers(le, x, s[1..], y);
          var j :| 0 <= j < |s[1..]| && s[1..][j] == y;
        }
      }
    }
  }

  lemma {:induction false} SortSorts<T(!new)>(le: (T, T) -> bool, xs: seq<T>)
    requires TotalPreorder(le)
    ensures Sorted(le, Sort(le, xs))
  {
    if xs != [] {
      SortSorts(le, xs[1..]);
      InsertSorted(le, xs[0], Sort(le, xs[1..]));
    }
  }

  /** No two elements compare equal. */
  ghost predicate NoTie<T>(le: (T, T) -> bool, xs: seq<T>) {
    forall i, j :: 0 <= i < j < |xs| ==> !(le(xs[i], xs[j]) && le(xs[j], xs[i]))
  }

  lemma {:induction false} InsertStrict<T(!new)>(le: (T, T) -> bool, x: T, s: seq<T>)
    requires TotalPreorder(le) && StrictlySorted(le, s)
    requires forall y <- s :: !(le(x, y) && le(y, x))
    ensures StrictlySorted(le, Insert(le, x, s))
  {
    if s == [] {
    } else if le(x, s[0]) {
      assert forall j :: 0 <= j < |s| ==> le(x, s[j]) && s[j] in s;
    } else {
      InsertStrict(le, x, s[1..]);
      var r := Insert(le, x, s[1..]);
      forall y | y in r ensures le(s[0], y) && !le(y, s[0]) {
        if y != x {
          InsertMembers(le, x, s[1..], y);
          var j :| 0 <= j < |s[1..]| && s[1..][j] == y;
        }
      }
    }
  }

  lemma {:induction false} SortStrict<T(!new)>(le: (T, T) -> bool, xs: seq<T>)
    requires TotalPreorder(le) && NoTie(le, xs)
    ensures StrictlySorted(le, Sort(le, xs))
  {
    if xs != [] {
      SortStrict(le, xs[1..]);
      forall y | y in Sort(le, xs[1..]) ensures !(le(xs[0], y) && le(y, xs[0])) {
        SortMembers(le, xs[1..], y);
        var j :| 0 <= j < |xs[1..]| && xs[1..][j] == y;
        assert xs[j + 1] == y;
      }
      InsertStrict(le, xs[0], Sort(le, xs[1..]));
    }
  }

  // ---------------------------------------------------------------- stability

  /** The elements that compare equal to `to`, in order. */
  function Ties<T>(le: (T, T) -> bool, to: T, s: seq<T>): seq<T> {
    if s == [] then []
    else (if le(s[0], to) && le(to, s[0]) then [s[0]] else []) + Ties(le, to, s[1..])
  }

  lemma {:induction false} InsertTies<T(!new)>(le: (T, T) -> bool, to: T, x: T, s: seq<T>)
    requires TotalPreorder(le)
    ensures Ties(le, to, Insert(le, x, s)) == Ties(le, to, [x]) + Ties(le, to, s)
  {
    var r := Insert(le, x, s);
    if s == [] || le(x, s[0]) {
      assert r[1..] == s && ([x])[1..] == [];
    } else {
      InsertTies(le, to, x, s[1..]);
      assert r[1..] == Insert(le, x, s[1..]);
      assert ([x])[1..] == [];
    }
  }

  lemma TiesSplit<T>(le: (T, T) -> bool, to: T, xs: seq<T>)
    requires xs != []
    ensures Ties(le, to, xs) == Ties(le, to, [xs[0]]) + Ties(le, to, xs[1..])
  {
    assert ([xs[0]])[1..] == [];
  }

  /** Elements that compare equal keep their order. */
  lemma {:induction false} SortIsStable<T(!new)>(le: (T, T) -> bool, to: T, xs: seq<T>)
    requires TotalPreorder(le)
    ensures Ties(le, to, Sort(le, xs)) == Ties(le, to, xs)
  {
    if xs != [] {
      SortIsStable(le, to, xs[1..]);
      InsertTies(le, to, xs[0], Sort(le, xs[1..]));
      TiesSplit(le, to, xs);
    }
  }

  /** `a` occurs somewhere before `b`. */
  ghost predicate Before<T>(s: seq<T>, a: T, b: T) {
    exists p, q :: 0 <= p < q < |s| && s[p] == a && s[q] == b
  }

  lemma BeforeCons<T>(x: T, s: seq<T>, a: T, b: T)
    requires Before(s, a, b) || (x == a && b in s)
    ensures Before([x] + s, a, b)
  {
    if Before(s, a, b) {
      var p, q :| 0 <= p < q < |s| && s[p] == a && s[q] == b;
      assert ([x] + s)[p + 1] == a && ([x] + s)[q + 1] == b;
    } else {
      var q :| 0 <= q < |s| && s[q] == b;
      assert ([x] + s)[0] == a && ([x] + s)[q + 1] == b;
    }
  }

  lemma {:induction false} InsertBefore<T>(le: (T, T) -> bool, x: T, s: seq<T>, y: T)
    requires y in s && le(x, y)
    ensures Before(Insert(le, x, s), x, y)
  {
    if le(x, s[0]) {
      BeforeCons(x, s, x, y);
    } else {
      assert y in s[1..];
      InsertBefore(le, x, s[1..], y);
      BeforeCons(s[0], Insert(le, x, s[1..]), x, y);
    }
  }

  lemma {:induction false} InsertKeepsBefore<T>(le: (T, T) -> bool, x: T, s: seq<T>, a: T, b: T)
    requires Before(s, a, b)
    ensures Before(Insert(le, x, s), a, b)
  {
    var p, q :| 0 <= p < q < |s| && s[p] == a && s[q] == b;
    if le(x, s[0]) {
      BeforeCons(x, s, a, b);
    } else if p == 0 {
      assert s[1..][q - 1] == b;
      InsertContents(le, x, s[1..]);
      assert b in multiset(Insert(le, x, s[1..]));
      BeforeCons(s[0], Insert(le, x, s[1..]), a, b);
    } else {
      assert s[1..][p - 1] == a && s[1..][q - 1] == b;
      InsertKeepsBefore(le, x, s[1..], a, b);
      BeforeCons(s[0], Insert(le, x, s[1..]), a, b);
    }
  }

  /** Two elements that are in order already stay in order. */
  lemma {:induction false} SortKeepsBefore<T>(le: (T, T) -> bool, xs: seq<T>, i: nat, j: nat)
    requires i < j < |xs| && le(xs[i], xs[j])
    ensures Before(Sort(le, xs), xs[i], xs[j])
  {
    if i == 0 {
      assert xs[1..][j - 1] == xs[j];
      SortMembers(le, xs[1..], xs[j]);
      InsertBefore(le, xs[0], Sort(le, xs[1..]), xs[j]);
    } else {
      SortKeepsBefore(le, xs[1..], i - 1, j - 1);
      InsertKeepsBefore(le, xs[0], Sort(le, xs[1..]), xs[i], xs[j]);
    }
  }

  // ---------------------------------------------------------------- filtering

  function Filter<T>(keep: T -> bool, s: seq<T>): seq<T> {
    if s == [] then [] else (if keep(s[0]) then [s[0]] else []) + Filter(keep, s[1..])
  }

  lemma {:induction false} FilterMembers<T>(keep: T -> bool, s: seq<T>)
    ensures forall x :: x in Filter(keep, s) <==> x in s && keep(x)
  {
    if s != [] {
      FilterMembers(keep, s[1..]);
      assert s == [s[0]] + s[1..];
    }
  }

  lemma {:induction false} InsertFilter<T(!new)>(le: (T, T) -> bool, keep: T -> bool, x: T, s: seq<T>)
    requires TotalPreorder(le) && Sorted(le, s)
    ensures Filter(keep, Insert(le, x, s)) == if keep(x) then Insert(le, x, Filter(keep, s)) else Filter(keep, s)
  {
    if s == [] || le(x, s[0]) {
      assert Insert(le, x, s)[1..] == s;
      FilterMembers(keep, s);
      var kept := Filter(keep, s);
      if kept != [] {
        assert kept[0] in s;
        assert le(x, kept[0]);
      }
    } else {
      InsertFilter(le, keep, x, s[1..]);
      assert Insert(le, x, s)[1..] == Insert(le, x, s[1..]);
      if keep(s[0]) {
        assert Filter(keep, s)[1..] == Filter(keep, s[1..]);
      } else {
        assert Filter(keep, s) == Filter(keep, s[1..]);
        assert Filter(keep, Insert(le, x, s)) == Filter(keep, Insert(le, x, s[1..]));
      }
    }
  }

  /** Sorting what is left is what is left after sorting. */
  lemma {:induction false} SortFilter<T(!new)>(le: (T, T) -> bool, keep: T -> bool, xs: seq<T>)
    requires TotalPreorder(le)
    ensures Sort(le, Filter(keep, xs)) == Filter(keep, Sort(le, xs))
  {
    if xs != [] {
      SortFilter(le, keep, xs[1..]);
      SortSorts(le, xs[1..]);
      InsertFilter(le, keep, xs[0], Sort(le, xs[1..]));
      if keep(xs[0]) {
        assert Filter(keep, xs)[1..] == Filter(keep, xs[1..]);
      } else {
        assert Filter(keep, xs) == Filter(keep, xs[1..]);
      }
    }
  }

  // ---------------------------------------------------------------- uniqueness

  /** Two strictly sorted sequences with the same elements are the same sequence. */
  lemma {:induction false} StrictOrderIsUnique<T>(le: (T, T) -> bool, a: seq<T>, b: seq<T>)
    requires StrictlySorted(le, a) && StrictlySorted(le, b)
    requires forall x <- a :: x in b
    requires forall x <- b :: x in a
    ensures a == b
  {
    assert b == [] || b[0] in b;
    if a != [] {
      assert a[0] in b;
      assert b[0] in a;
      assert a[0] == b[0];
      forall x | x in a[1..] ensures x in b[1..] {
        var i :| 0 <= i < |a[1..]| && a[1..][i] == x;
        assert a[i + 1] == x && x in b;
      }
      forall x | x in b[1..] ensures x in a[1..] {
        var i :| 0 <= i < |b[1..]| && b[1..][i] == x;
        assert b[i + 1] == x && x in a;
      }
      StrictOrderIsUnique(le, a[1..], b[1..]);
      assert a == [a[0]] + a[1..] && b == [b[0]] + b[1..];
    }
  }
}
