/** The search for a provider id that no installed addon has yet. */
module FreshId {

  const ADDON := "addon:"

  function Digit(d: nat): char
    requires d < 10
  {
    '0' + d as char
  }

  /** The decimal text of a number. */
  function Decimal(n: nat): string {
    if n < 10 then [Digit(n)] else Decimal(n / 10) + [Digit(n % 10)]
  }

  /** The number a decimal text stands for. */
  function Value(s: string): int {
    if s == [] then 0 else Value(s[..|s| - 1]) * 10 + (s[|s| - 1] as int - '0' as int)
  }

  lemma {:induction false} DecimalReadsBack(n: nat)
    ensures Value(Decimal(n)) == n
  {
    if n >= 10 {
      DecimalReadsBack(n / 10);
      assert Decimal(n)[..|Decimal(n)| - 1] == Decimal(n / 10);
    } else {
      assert Decimal(n)[..0] == [];
    }
  }

  /** The candidates in the order they are tried: the plain id, then with `-2`, `-3`, … */
  function Candidate(base: string, n: nat): string
    requires n >= 1
  {
    if n == 1 then ADDON + base else ADDON + base + "-" + Decimal(n)
  }

  lemma CandidatesDiffer(base: string, m: nat, n: nat)
    requires 1 <= m < n
    ensures Candidate(base, m) != Candidate(base, n)
  {
    DecimalReadsBack(m);
    DecimalReadsBack(n);
    var prefix := ADDON + base + "-";
    if m == 1 {
      assert |Candidate(base, m)| < |Candidate(base, n)|;
    } else {
      assert Candidate(base, m)[|prefix|..] == Decimal(m);
      assert Candidate(base, n)[|prefix|..] == Decimal(n);
    }
  }

  /** The candidates with a number up to `n`. */
  ghost function Tried(base: string, n: nat): (tried: set<string>)
    ensures |tried| == n
    ensures forall id :: id in tried <==> exists m :: 1 <= m <= n && Candidate(base, m) == id
  {
    if n == 0 then {}
    else
      assert forall m :: 1 <= m < n ==> Candidate(base, m) != Candidate(base, n) by {
        forall m | 1 <= m < n ensures Candidate(base, m) != Candidate(base, n) { CandidatesDiffer(base, m, n); }
      }
      Tried(base, n - 1) + {Candidate(base, n)}
  }

  lemma {:induction false} SubsetIsSmaller<T>(a: set<T>, b: set<T>)
    requires a <= b
    ensures |a| <= |b|
    decreases |a|
  {
    if a != {} {
      var x :| x in a;
      SubsetIsSmaller(a - {x}, b - {x});
    }
  }

  lemma {:induction false} SetOfSeq<T>(s: seq<T>)
    ensures |set x | x in s| <= |s|
  {
    if s != [] {
      SetOfSeq(s[1..]);
      assert (set x | x in s) == {s[0]} + set x | x in s[1..];
    }
  }

  /** The id the search finds, as a function: the first candidate from `n` on that is free. */
  function FirstFree(base: string, taken: seq<string>, n: nat, tries: nat): string
    requires n >= 1
    decreases tries
  {
    if Candidate(base, n) !in taken || tries == 0 then Candidate(base, n)
    else FirstFree(base, taken, n + 1, tries - 1)
  }

  lemma {:induction false} FirstFreeIsCandidate(base: string, taken: seq<string>, n: nat, tries: nat, k: nat)
    requires 1 <= n <= k <= n + tries && Candidate(base, k) !in taken
    requires forall m :: n <= m < k ==> Candidate(base, m) in taken
    ensures FirstFree(base, taken, n, tries) == Candidate(base, k)
    decreases tries
  {
    if n < k {
      FirstFreeIsCandidate(base, taken, n + 1, tries - 1, k);
    }
  }

  /** The id given to a new addon. */
  function Fresh(base: string, taken: seq<string>): string {
    FirstFree(base, taken, 1, |taken|)
  }

  lemma {:induction false} SomeCandidateIsFree(base: string, taken: seq<string>, n: nat) returns (k: nat)
    requires 1 <= n <= |taken| + 1
    requires forall m :: 1 <= m < n ==> Candidate(base, m) in taken
    ensures n <= k <= |taken| + 1 && Candidate(base, k) !in taken
    ensures forall m :: 1 <= m < k ==> Candidate(base, m) in taken
    decreases |taken| + 1 - n
  {
    if Candidate(base, n) !in taken {
      k := n;
    } else if n == |taken| + 1 {
      SetOfSeq(taken);
      assert Tried(base, n) <= set x | x in taken;
      SubsetIsSmaller(Tried(base, n), set x | x in taken);
      k := n;
    } else {
      k := SomeCandidateIsFree(base, taken, n + 1);
    }
  }

  /** The id is new, carries the prefix, and is the plain one if that is free. */
  lemma FreshIsFree(base: string, taken: seq<string>)
    ensures Fresh(base, taken) !in taken
    ensures ADDON <= Fresh(base, taken)
    ensures ADDON + base !in taken ==> Fresh(base, taken) == ADDON + base
  {
    var k := SomeCandidateIsFree(base, taken, 1);
    FirstFreeIsCandidate(base, taken, 1, |taken|, k);
  }

  /** The id is the plain one, or the one with the first number from two on that makes it free. */
  lemma {:induction false} FreshIsFirst(base: string, taken: seq<string>) returns (n: nat)
    ensures n >= 1 && Fresh(base, taken) == "addon:" + base + if n == 1 then "" else "-" + Decimal(n)
    ensures n > 1 ==> "addon:" + base in taken && forall m :: 2 <= m < n ==> "addon:" + base + "-" + Decimal(m) in taken
  {
    n := SomeCandidateIsFree(base, taken, 1);
    FirstFreeIsCandidate(base, taken, 1, |taken|, n);
    assert "addon:" + base + "" == "addon:" + base;
    assert n > 1 ==> Candidate(base, 1) in taken;
    forall m | 2 <= m < n ensures "addon:" + base + "-" + Decimal(m) in taken { assert Candidate(base, m) in taken; }
  }

  /** Decimal texts have no leading zeros. */
  lemma {:induction false} DecimalIsShort(n: nat)
    ensures Decimal(n) != [] && (n > 0 ==> Decimal(n)[0] != '0') && Decimal(0) == "0"
    ensures forall c <- Decimal(n) :: '0' <= c <= '9'
  {
    if n >= 10 { DecimalIsShort(n / 10); }
  }

  /** Try candidates until one is free. The search ends, with the id named above. */
  method UniqueProviderId(base: string, taken: seq<string>) returns (id: string)
    ensures id == Fresh(base, taken)
  {
    ghost var free := SomeCandidateIsFree(base, taken, 1);
    id := ADDON + base;
    var n := 2;
    while id in taken
      invariant 2 <= n <= free + 1 && id == Candidate(base, n - 1)
      decreases free + 1 - n
    {
      id := ADDON + base + "-" + Decimal(n);
      n := n + 1;
    }
    FirstFreeIsCandidate(base, taken, 1, |taken|, free);
  }
}
