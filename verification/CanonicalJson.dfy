/**
 The canonical manifest printer: a recursive printer that sorts the members of every object,
 so that a fingerprint does not depend on the order in which they were written.

 Strings are sequences of UTF-16 code units. A number is represented by the text the runtime
 prints for it. `collate` gives each key its place in the collation order of the runtime:
 keys that it cannot tell apart have the same place.
 */
module CanonicalJson {
  import opened StableSort

  type Unit = x: int | 0 <= x < 0x10000
  type Text = seq<Unit>

  datatype Json =
    | Undefined
    | Null
    | Bool(b: bool)
    | Number(token: Text)
    | Str(s: Text)
    | Arr(items: seq<Json>)
    | Obj(members: seq<Member>)

  /** A member of an object, in the order in which the runtime enumerates them. */
  datatype Member = Member(key: Text, value: Json)

  /** A member after printing its value. */
  datatype Printed = Printed(key: Text, text: Text)

  const QUOTE: Unit := 0x22
  const COMMA: Unit := 0x2C
  const COLON: Unit := 0x3A
  const LBRACKET: Unit := 0x5B
  const BACKSLASH: Unit := 0x5C
  const RBRACKET: Unit := 0x5D
  const LBRACE: Unit := 0x7B
  const RBRACE: Unit := 0x7D

  const NULL: Text := [0x6E, 0x75, 0x6C, 0x6C]
  const TRUE: Text := [0x74, 0x72, 0x75, 0x65]
  const FALSE: Text := [0x66, 0x61, 0x6C, 0x73, 0x65]

  // ---------------------------------------------------------------- strings

  predicate IsHigh(u: Unit) { 0xD800 <= u <= 0xDBFF }
  predicate IsLow(u: Unit) { 0xDC00 <= u <= 0xDFFF }

  /** A lower-case hexadecimal digit. */
  function HexDigit(d: int): Unit
    requires 0 <= d < 16
  {
    if d < 10 then 0x30 + d else 0x61 + (d - 10)
  }

  function HexEscape(u: Unit): Text {
    [BACKSLASH, 0x75, HexDigit(u / 4096), HexDigit(u / 256 % 16), HexDigit(u / 16 % 16), HexDigit(u % 16)]
  }

  /** One code unit that is not half of a surrogate pair. */
  function EscapeUnit(u: Unit): Text {
    if u == QUOTE then [BACKSLASH, QUOTE]
    else if u == BACKSLASH then [BACKSLASH, BACKSLASH]
    else if u == 0x08 then [BACKSLASH, 0x62]
    else if u == 0x09 then [BACKSLASH, 0x74]
    else if u == 0x0A then [BACKSLASH, 0x6E]
    else if u == 0x0C then [BACKSLASH, 0x66]
    else if u == 0x0D then [BACKSLASH, 0x72]
    else if u < 0x20 || IsHigh(u) || IsLow(u) then HexEscape(u)
    else [u]
  }

  function Escape(s: Text): Text {
    if s == [] then []
    else if IsHigh(s[0]) && |s| > 1 && IsLow(s[1]) then [s[0], s[1]] + Escape(s[2..])
    else EscapeUnit(s[0]) + Escape(s[1..])
  }

  function Quote(s: Text): Text {
    [QUOTE] + Escape(s) + [QUOTE]
  }

  // ---------------------------------------------------------------- the printer

  function Join(parts: seq<Text>): Text {
    if parts == [] then []
    else if |parts| == 1 then parts[0]
    else parts[0] + [COMMA] + Join(parts[1..])
  }

  function ByKey(collate: Text -> real): (Member, Member) -> bool {
    (a: Member, b: Member) => collate(a.key) <= collate(b.key)
  }

  function ByPrintedKey(collate: Text -> real): (Printed, Printed) -> bool {
    (a: Printed, b: Printed) => collate(a.key) <= collate(b.key)
  }

  /** The printer of the service. */
  function Print(v: Json, collate: Text -> real): Text
    decreases v, 1
  {
    match v
    case Arr(items) => [LBRACKET] + Join(PrintAll(items, collate)) + [RBRACKET]
    case Obj(members) =>
      var entries := Sort(ByPrintedKey(collate), PrintMembers(members, collate));
      [LBRACE] + Join(PairTexts(entries)) + [RBRACE]
    case Undefined => NULL
    case Null => NULL
    case Bool(b) => if b then TRUE else FALSE
    case Number(token) => token
    case Str(s) => Quote(s)
  }

  function PrintAll(items: seq<Json>, collate: Text -> real): seq<Text>
    decreases items, 0
  {
    if items == [] then [] else [Print(items[0], collate)] + PrintAll(items[1..], collate)
  }

  /** Leave out the undefined members and print the values of the others. */
  function PrintMembers(members: seq<Member>, collate: Text -> real): seq<Printed>
    decreases members, 0
  {
    if members == [] then []
    else
      (if members[0].value.Undefined? then []
       else [Printed(members[0].key, Print(members[0].value, collate))])
      + PrintMembers(members[1..], collate)
  }

  function PairTexts(entries: seq<Printed>): seq<Text> {
    if entries == [] then []
    else [Quote(entries[0].key) + [COLON] + entries[0].text] + PairTexts(entries[1..])
  }

  // ---------------------------------------------------------------- meaning

  /** What a value means: objects are finite maps, so the order of members is gone. */
  datatype Meaning =
    | MNull
    | MBool(b: bool)
    | MNumber(token: Text)
    | MString(s: Text)
    | MArray(items: seq<Meaning>)
    | MObject(members: map<Text, Meaning>)

  function MeaningOf(v: Json): Meaning
    decreases v, 1
  {
    match v
    case Undefined => MNull
    case Null => MNull
    case Bool(b) => MBool(b)
    case Number(token) => MNumber(token)
    case Str(s) => MString(s)
    case Arr(items) => MArray(MeaningOfAll(items))
    case Obj(members) => MObject(MeaningOfMembers(members))
  }

  function MeaningOfAll(items: seq<Json>): seq<Meaning>
    decreases items, 0
  {
    if items == [] then [] else [MeaningOf(items[0])] + MeaningOfAll(items[1..])
  }

  function MeaningOfMembers(members: seq<Member>): map<Text, Meaning>
    decreases members, 0
  {
    if members == [] then map[]
    else if members[0].value.Undefined? then MeaningOfMembers(members[1..])
    else MeaningOfMembers(members[1..])[members[0].key := MeaningOf(members[0].value)]
  }

  // ---------------------------------------------------------------- values of the language

  predicate IsNumberUnit(u: Unit) {
    0x30 <= u <= 0x39 || u == 0x2B || u == 0x2D || u == 0x2E || u == 0x65
  }

  /** What every printed number has: it starts with a digit or a minus sign and continues with
      digits, signs, a point or an exponent mark. */
  predicate IsNumberToken(t: Text) {
    && t != [] && (0x30 <= t[0] <= 0x39 || t[0] == 0x2D)
    && forall u <- t :: IsNumberUnit(u)
  }

  ghost predicate DistinctKeys(members: seq<Member>) {
    forall i, j :: 0 <= i < j < |members| ==> members[i].key != members[j].key
  }

  /** The values the language has: printable numbers, no key twice in one object. */
  ghost predicate WellFormed(v: Json) {
    match v
    case Number(token) => IsNumberToken(token)
    case Arr(items) => forall i :: 0 <= i < |items| ==> WellFormed(items[i])
    case Obj(members) =>
      DistinctKeys(members) && forall i :: 0 <= i < |members| ==> WellFormed(members[i].value)
    case _ => true
  }

  /** Two members that are both printed and whose keys share a place in the collation order. */
  predicate Tied(a: Member, b: Member, collate: Text -> real) {
    !a.value.Undefined? && !b.value.Undefined? && collate(a.key) == collate(b.key)
  }

  /** No object in the value has two tied members. */
  ghost predicate NoTies(v: Json, collate: Text -> real) {
    match v
    case Arr(items) => forall i :: 0 <= i < |items| ==> NoTies(items[i], collate)
    case Obj(members) =>
      && (forall i, j :: 0 <= i < j < |members| ==> !Tied(members[i], members[j], collate))
      && (forall i :: 0 <= i < |members| ==> NoTies(members[i].value, collate))
    case _ => true
  }
}
