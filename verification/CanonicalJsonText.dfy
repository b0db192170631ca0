/** What the printer writes, in characters (RFC 8259). */
module CanonicalJsonText {
  import opened StableSort
  import opened CanonicalJson

  /** The code units of a text in the basic plane. */
  function Units(s: string): Text {
    seq<Unit>(|s|, i requires 0 <= i < |s| => UnitOf(s[i]))
  }

  function UnitOf(c: char): Unit {
    if c as int < 0x10000 then c as int else 0xFFFD
  }

  lemma Marks()
    ensures Units("[") == [LBRACKET] && Units("]") == [RBRACKET] && Units("{") == [LBRACE] && Units("}") == [RBRACE]
    ensures Units(",") == [COMMA] && Units(":") == [COLON] && Units("\"") == [QUOTE] && Units("\\u") == [BACKSLASH, 0x75]
  {
  }

  /** Null and what is undefined are written as null, the truth values by their names, a number by
      its own text. */
  lemma TextsOfLeaves(collate: Text -> real, token: Text)
    ensures Print(Null, collate) == Print(Undefined, collate) == Units("null")
    ensures Print(Bool(true), collate) == Units("true") && Print(Bool(false), collate) == Units("false")
    ensures Print(Number(token), collate) == token
  {
  }

  /** An array is its items in order, with commas between them, in brackets. */
  lemma TextOfArray(items: seq<Json>, item: Json, collate: Text -> real)
    ensures Print(Arr([]), collate) == Units("[]")
    ensures Print(Arr([item]), collate) == Units("[") + Print(item, collate) + Units("]")
    ensures items != [] ==>
              Print(Arr([item] + items), collate) == Units("[") + Print(item, collate) + Units(",") + Print(Arr(items), collate)[1..]
  {
    assert [item][1..] == [] && PrintAll([item], collate) == [Print(item, collate)];
    assert ([item] + items)[1..] == items;
    var parts := PrintAll(items, collate);
    if items != [] {
      var all := PrintAll([item] + items, collate);
      assert all[0] == Print(item, collate) && all[1..] == parts && parts != [];
      assert Print(Arr(items), collate) == [LBRACKET] + Join(parts) + [RBRACKET];
      assert Print(Arr(items), collate)[1..] == Join(parts) + [RBRACKET];
      assert Join(all) == all[0] + [COMMA] + Join(parts);
    }
  }

  lemma PairIs(m: Member, collate: Text -> real)
    ensures var x := Printed(m.key, Print(m.value, collate));
            Pair(m, collate) == Quote(x.key) + [COLON] + x.text && PairTexts([x]) == [Pair(m, collate)]
  {
    Marks();
    var x := Printed(m.key, Print(m.value, collate));
    assert [x][1..] == [];
  }

  lemma SortTwo(x: Printed, y: Printed, collate: Text -> real)
    requires collate(x.key) < collate(y.key)
    ensures var le := ByPrintedKey(collate); Sort(le, [x]) == [x] && Sort(le, [x, y]) == Sort(le, [y, x]) == [x, y]
  {
    var le := ByPrintedKey(collate);
    assert [x][1..] == [] && [y][1..] == [] && [x, y][1..] == [y] && [y, x][1..] == [x];
    assert Sort(le, [x]) == Insert(le, x, []) == [x] + [];
    assert Sort(le, [y]) == Insert(le, y, []) == [y] + [];
    assert Insert(le, y, [x]) == [x] + Insert(le, y, []);
    assert Insert(le, x, [y]) == [x] + [y];
  }

  lemma PrintsTwo(a: Member, b: Member, collate: Text -> real)
    requires !a.value.Undefined? && !b.value.Undefined?
    ensures var x, y := Printed(a.key, Print(a.value, collate)), Printed(b.key, Print(b.value, collate));
            PrintMembers([a], collate) == [x] && PrintMembers([a, b], collate) == [x, y]
  {
    assert [a][1..] == [] && [b][1..] == [] && [a, b][1..] == [b];
    assert PrintMembers([b], collate) == [Printed(b.key, Print(b.value, collate))] + [];
  }

  /** An object is its members in braces, each a quoted key, a colon and the value, with commas
      between them: of two members the one whose key comes first in the collation order comes first. */
  lemma TextOfObject(a: Member, b: Member, collate: Text -> real)
    requires !a.value.Undefined? && !b.value.Undefined? && collate(a.key) < collate(b.key)
    ensures Print(Obj([]), collate) == Units("{}")
    ensures Print(Obj([a]), collate) == Units("{") + Pair(a, collate) + Units("}")
    ensures Print(Obj([a, b]), collate) == Print(Obj([b, a]), collate)
            == Units("{") + (Pair(a, collate) + Units(",") + Pair(b, collate)) + Units("}")
  {
    Marks();
    var x, y := Printed(a.key, Print(a.value, collate)), Printed(b.key, Print(b.value, collate));
    PrintsTwo(a, b, collate);
    PrintsTwo(b, a, collate);
    SortTwo(x, y, collate);
    PairIs(a, collate);
    PairIs(b, collate);
    assert [x, y][1..] == [y];
    var texts := PairTexts([x, y]);
    assert texts == [Pair(a, collate)] + [Pair(b, collate)];
    assert texts[1..] == [Pair(b, collate)];
    assert Join(texts) == Pair(a, collate) + [COMMA] + Pair(b, collate);
    assert Units("{}") == [LBRACE] + [] + [RBRACE];
  }

  function Pair(m: Member, collate: Text -> real): Text {
    Print(Str(m.key), collate) + Units(":") + Print(m.value, collate)
  }

  /** A member whose value is undefined leaves no trace. */
  lemma {:induction false} UndefinedLeavesNoTrace(before: seq<Member>, key: Text, after: seq<Member>, collate: Text -> real)
    ensures Print(Obj(before + [Member(key, Undefined)] + after), collate) == Print(Obj(before + after), collate)
  {
    Skips(before, key, after, collate);
  }

  lemma {:induction false} Skips(before: seq<Member>, key: Text, after: seq<Member>, collate: Text -> real)
    ensures PrintMembers(before + [Member(key, Undefined)] + after, collate) == PrintMembers(before + after, collate)
  {
    if before == [] {
      assert (before + [Member(key, Undefined)] + after)[1..] == after == before + after;
    } else {
      assert (before + [Member(key, Undefined)] + after)[1..] == before[1..] + [Member(key, Undefined)] + after;
      assert (before + after)[1..] == before[1..] + after;
      Skips(before[1..], key, after, collate);
    }
  }

  /** What a single code unit becomes in a string: the two-character escapes of section 7, the
      six-character ones in lower case for the other controls and for lone surrogates, itself
      otherwise. */
  lemma TextOfUnit(u: Unit, collate: Text -> real)
    ensures Print(Str([]), collate) == Units("\"\"")
    ensures Print(Str([u]), collate) == Units("\"") + Escaped(u) + Units("\"")
  {
    Marks();
    EscapedIs(u);
    assert [u][1..] == [];
    assert Escape([u]) == EscapeUnit(u) + Escape([]) == EscapeUnit(u);
    assert Units("\"\"") == [QUOTE] + [] + [QUOTE];
  }

  function Escaped(u: Unit): Text {
    if u == '\"' as int then Units("\\\"")
    else if u == '\\' as int then Units("\\\\")
    else if u == 8 then Units("\\b")
    else if u == '\t' as int then Units("\\t")
    else if u == '\n' as int then Units("\\n")
    else if u == 12 then Units("\\f")
    else if u == '\r' as int then Units("\\r")
    else if u < 0x20 || 0xD800 <= u <= 0xDFFF then
      Units("\\u") + [Hex(u / 4096), Hex(u / 256 % 16), Hex(u / 16 % 16), Hex(u % 16)]
    else [u]
  }

  function Hex(d: nat): Unit
    requires d < 16
  {
    Units("0123456789abcdef")[d]
  }

  lemma Digits(d: nat)
    requires d < 16
    ensures Hex(d) == HexDigit(d)
  {
  }

  lemma EscapedIs(u: Unit)
    ensures Escaped(u) == EscapeUnit(u)
  {
    Marks();
    if u < 0x20 || 0xD800 <= u <= 0xDFFF {
      Digits(u / 4096);
      Digits(u / 256 % 16);
      Digits(u / 16 % 16);
      Digits(u % 16);
    }
  }

  lemma StringTail(s: Text, collate: Text -> real)
    ensures Print(Str(s), collate)[1..] == Escape(s) + [QUOTE]
  {
    assert Quote(s) == [QUOTE] + (Escape(s) + [QUOTE]);
  }

  /** A high surrogate followed by a low one stays as it is, and strings are escaped from left to
      right. */
  lemma TextOfString(u: Unit, v: Unit, rest: Text, collate: Text -> real)
    ensures var pair := 0xD800 <= u <= 0xDBFF && 0xDC00 <= v <= 0xDFFF;
            Print(Str([u, v] + rest), collate)
            == Units("\"") + ((if pair then [u, v] else Escaped(u))
                              + Print(Str(if pair then rest else [v] + rest), collate)[1..])
  {
    Marks();
    EscapedIs(u);
    var s := [u, v] + rest;
    assert s[2..] == rest && s[1..] == [v] + rest;
    StringTail(rest, collate);
    StringTail([v] + rest, collate);
    StringTail(s, collate);
    assert Quote(s)[0] == QUOTE;
    assert Quote(s) == [QUOTE] + Quote(s)[1..];
  }

  // ---------------------------------------------------------------- numbers

  type Decimal = d: int | 0 <= d < 10

  datatype Exponent = Exponent(negative: bool, digits: seq<Decimal>)

  /** A number in the form in which the runtime writes it (section 6.1.6.1.20 of ECMA-262): a sign if
      it is negative, digits, a fraction if there is one, and an exponent with its sign if it is
      very large or very small. */
  datatype Numeral = Numeral(negative: bool, whole: seq<Decimal>, fraction: seq<Decimal>, exponent: seq<Exponent>)

  function Figures(ds: seq<Decimal>): Text {
    seq<Unit>(|ds|, i requires 0 <= i < |ds| => ds[i] as int + 0x30)
  }

  function ExponentText(e: Exponent): Text {
    Units("e") + Units(if e.negative then "-" else "+") + Figures(e.digits)
  }

  function NumeralText(n: Numeral): Text
    requires |n.exponent| <= 1
  {
    (if n.negative then Units("-") else [])
    + Figures(n.whole)
    + (if n.fraction != [] then Units(".") + Figures(n.fraction) else [])
    + (if n.exponent != [] then ExponentText(n.exponent[0]) else [])
  }

  lemma {:induction false} FiguresAreNumberUnits(ds: seq<Decimal>)
    ensures forall u <- Figures(ds) :: IsNumberUnit(u) && 0x30 <= u <= 0x39
  {
  }

  /** Whatever number the runtime writes is one that the printer's theorems are about. */
  lemma {:induction false} NumeralsAreTokens(n: Numeral)
    requires n.whole != [] && |n.exponent| <= 1
    ensures IsNumberToken(NumeralText(n)) && WellFormed(Number(NumeralText(n)))
  {
    FiguresAreNumberUnits(n.whole);
    FiguresAreNumberUnits(n.fraction);
    assert Figures(n.whole)[0] in Figures(n.whole);
    if n.exponent != [] {
      FiguresAreNumberUnits(n.exponent[0].digits);
      assert forall u <- ExponentText(n.exponent[0]) :: IsNumberUnit(u);
    }
  }
}
