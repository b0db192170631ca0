/** Printed strings can be read back (section 7 of RFC 8259), also with text after them. */
module CanonicalJsonStrings {
  import opened CanonicalJson

  datatype Reading = Malformed | Read(s: Text, rest: Text) {
    function Prepend(u: Unit): Reading {
      match this
      case Malformed => Malformed
      case Read(s, rest) => Read([u] + s, rest)
    }
  }

  function HexValue(u: Unit): (d: int)
    ensures -1 <= d < 16
  {
    if 0x30 <= u <= 0x39 then u - 0x30 else if 0x61 <= u <= 0x66 then u - 0x61 + 10 else -1
  }

  /** The unit that a two-character escape stands for. */
  function Unescaped(u: Unit): int {
    if u == QUOTE || u == BACKSLASH then u
    else if u == 0x62 then 0x08
    else if u == 0x74 then 0x09
    else if u == 0x6E then 0x0A
    else if u == 0x66 then 0x0C
    else if u == 0x72 then 0x0D
    else -1
  }

  /** Read a string whose opening quotation mark has been consumed. */
  function ReadString(t: Text): Reading {
    if t == [] then Malformed
    else if t[0] == QUOTE then Read([], t[1..])
    else if t[0] != BACKSLASH then ReadString(t[1..]).Prepend(t[0])
    else if |t| >= 6 && t[1] == 0x75 then
      var d3, d2, d1, d0 := HexValue(t[2]), HexValue(t[3]), HexValue(t[4]), HexValue(t[5]);
      if d3 < 0 || d2 < 0 || d1 < 0 || d0 < 0 then Malformed
      else ReadString(t[6..]).Prepend(((d3 * 16 + d2) * 16 + d1) * 16 + d0)
    else if |t| >= 2 && Unescaped(t[1]) >= 0 then ReadString(t[2..]).Prepend(Unescaped(t[1]))
    else Malformed
  }

  lemma HexDigits(u: Unit)
    ensures 0 <= u / 4096 < 16
    ensures (((u / 4096) * 16 + u / 256 % 16) * 16 + u / 16 % 16) * 16 + u % 16 == u
  {
    assert u / 256 / 16 == u / 4096;
    assert u / 16 / 16 == u / 256;
  }

  lemma ReadHexEscape(u: Unit, t: Text)
    ensures ReadString(HexEscape(u) + t) == ReadString(t).Prepend(u)
  {
    HexDigits(u);
    var e := HexEscape(u) + t;
    assert e[6..] == t;
    assert e[2] == HexDigit(u / 4096) && e[3] == HexDigit(u / 256 % 16);
    assert e[4] == HexDigit(u / 16 % 16) && e[5] == HexDigit(u % 16);
  }

  lemma ReadEscapedUnit(u: Unit, t: Text)
    ensures ReadString(EscapeUnit(u) + t) == ReadString(t).Prepend(u)
  {
    var e := EscapeUnit(u) + t;
    if |EscapeUnit(u)| == 1 {
      assert e[1..] == t;
    } else if |EscapeUnit(u)| == 2 {
      assert e[2..] == t;
    } else {
      ReadHexEscape(u, t);
    }
  }

  /** The characters of a printed string after its opening quotation mark, then `t`. */
  function Body(s: Text, t: Text): Text {
    Escape(s) + ([QUOTE] + t)
  }

  lemma BodySplits(s: Text, t: Text)
    ensures s == [] ==> Body(s, t) == [QUOTE] + t
    ensures s != [] && IsHigh(s[0]) && |s| > 1 && IsLow(s[1]) ==> Body(s, t) == [s[0], s[1]] + Body(s[2..], t)
    ensures s != [] && !(IsHigh(s[0]) && |s| > 1 && IsLow(s[1])) ==> Body(s, t) == EscapeUnit(s[0]) + Body(s[1..], t)
  {
  }

  /** Reading gives back exactly the string that was printed, and stops where it ended. */
  lemma {:induction false} ReadEscaped(s: Text, t: Text)
    ensures ReadString(Body(s, t)) == Read(s, t)
  {
    BodySplits(s, t);
    if s == [] {
      assert ([QUOTE] + t)[1..] == t;
    } else if IsHigh(s[0]) && |s| > 1 && IsLow(s[1]) {
      ReadEscaped(s[2..], t);
    } else {
      ReadEscaped(s[1..], t);
      ReadEscapedUnit(s[0], Body(s[1..], t));
      assert s == [s[0]] + s[1..];
    }
  }

  /** Two printed strings followed by anything are told apart. */
  lemma QuoteIsUnique(a: Text, b: Text, x: Text, y: Text)
    requires Quote(a) + x == Quote(b) + y
    ensures a == b && x == y
  {
    assert (Quote(a) + x)[1..] == Body(a, x);
    assert (Quote(b) + y)[1..] == Body(b, y);
    ReadEscaped(a, x);
    ReadEscaped(b, y);
  }
}
