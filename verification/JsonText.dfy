/** JSON text as RFC 8259 writes it (sections 2 to 7), kept as a concrete syntax tree:
    a tree remembers every space and every escape, so `Text` gives back one exact string.
    The three extra literals NaN, Infinity and -Infinity are the ones Python's reader adds. */
module JsonText {

  datatype Json =
    | Scalar(token: string)
    | Str(body: string)
    | Arr(pad: string, items: seq<Item>)
    | Obj(pad: string, members: seq<Member>)

  datatype Item = Item(before: string, value: Json, after: string)

  /** Whitespace, "key", whitespace, colon, whitespace, value, whitespace. */
  datatype Member = Member(before: string, key: string, beforeColon: string,
                           afterColon: string, value: Json, after: string)

  // ----- Printing -----

  function Quoted(body: string): string {
    "\"" + body + "\""
  }

  function Text(j: Json): string
    decreases j, 1
  {
    match j
    case Scalar(token) => token
    case Str(body) => Quoted(body)
    case Arr(pad, items) => "[" + pad + ItemsText(items) + "]"
    case Obj(pad, members) => "{" + pad + MembersText(members) + "}"
  }

  function ItemText(item: Item): string
    decreases item, 2
  {
    item.before + Text(item.value) + item.after
  }

  function MemberText(m: Member): string
    decreases m, 2
  {
    m.before + Quoted(m.key) + (m.beforeColon + ":" + m.afterColon) + Text(m.value) + m.after
  }

  function ItemsText(items: seq<Item>): string
    decreases items, 0
  {
    if |items| == 0 then ""
    else if |items| == 1 then ItemText(items[0])
    else ItemText(items[0]) + ("," + ItemsText(items[1..]))
  }

  function MembersText(members: seq<Member>): string
    decreases members, 0
  {
    if |members| == 0 then ""
    else if |members| == 1 then MemberText(members[0])
    else MemberText(members[0]) + ("," + MembersText(members[1..]))
  }

  // ----- Well-formedness -----

  predicate Blank(s: string) {
    forall c <- s :: c in " \t\n\r"
  }

  predicate IsDigit(c: char) {
    '0' <= c <= '9'
  }

  predicate Digits(s: string) {
    s != "" && forall c <- s :: IsDigit(c)
  }

  predicate IntPart(s: string) {
    Digits(s) && (s[0] == '0' ==> |s| == 1)
  }

  predicate FracPart(s: string) {
    s == "" || (s[0] == '.' && Digits(s[1..]))
  }

  predicate ExpPart(s: string) {
    s == ""
    || (s[0] in "eE" && Digits(s[1..]))
    || (|s| > 1 && s[0] in "eE" && s[1] in "+-" && Digits(s[2..]))
  }

  ghost predicate IsNumber(token: string) {
    exists sign, whole, frac, exp ::
      && token == sign + whole + frac + exp
      && (sign == "" || sign == "-")
      && IntPart(whole) && FracPart(frac) && ExpPart(exp)
  }

  ghost predicate IsScalar(token: string) {
    || token == "true" || token == "false" || token == "null"
    || token == "NaN" || token == "Infinity" || token == "-Infinity"
    || IsNumber(token)
  }

  predicate IsHex(c: char) {
    '0' <= c <= '9' || 'a' <= c <= 'f' || 'A' <= c <= 'F'
  }

  /** A string body: no bare quote or control character, and every backslash starts an escape. */
  predicate IsBody(s: string) {
    if s == "" then true
    else if s[0] == '\\' then
      && |s| > 1
      && s[1] in "\"\\/bfnrtu"
      && (s[1] == 'u' ==> |s| >= 6 && forall i | 2 <= i < 6 :: IsHex(s[i]))
      && IsBody(s[2..])
    else s[0] != '\"' && ' ' <= s[0] && IsBody(s[1..])
  }

  ghost predicate WellFormed(j: Json)
    decreases j, 1
  {
    match j
    case Scalar(token) => IsScalar(token)
    case Str(body) => IsBody(body)
    case Arr(pad, items) => Blank(pad) && (items == [] || pad == "") && WellFormedItems(items)
    case Obj(pad, members) => Blank(pad) && (members == [] || pad == "") && WellFormedMembers(members)
  }

  ghost predicate WellFormedItem(item: Item)
    decreases item, 2
  {
    Blank(item.before) && WellFormed(item.value) && Blank(item.after)
  }

  ghost predicate WellFormedMember(m: Member)
    decreases m, 2
  {
    && Blank(m.before) && IsBody(m.key) && Blank(m.beforeColon)
    && Blank(m.afterColon) && WellFormed(m.value) && Blank(m.after)
  }

  ghost predicate WellFormedItems(items: seq<Item>)
    decreases items, 0
  {
    items == [] || (WellFormedItem(items[0]) && WellFormedItems(items[1..]))
  }

  ghost predicate WellFormedMembers(members: seq<Member>)
    decreases members, 0
  {
    members == [] || (WellFormedMember(members[0]) && WellFormedMembers(members[1..]))
  }

  /** What `json.loads` accepts: one value with blanks around it. */
  ghost predicate ValidText(s: string) {
    exists before, j, after :: Reads(s, before, j, after)
  }

  ghost predicate Reads(s: string, before: string, j: Json, after: string) {
    Blank(before) && WellFormed(j) && Blank(after) && s == before + Text(j) + after
  }

  // ----- Shapes of printed values -----

  /** Characters that mean nothing to a bracket scanner. */
  predicate Plain(c: char) {
    c !in "{}[],\"\\"
  }

  predicate AllPlain(s: string) {
    forall c <- s :: Plain(c)
  }

  lemma BlankIsPlain(s: string)
    requires Blank(s)
    ensures AllPlain(s)
  {
  }

  lemma DigitsArePlain(s: string)
    requires Digits(s)
    ensures AllPlain(s)
  {
  }

  lemma FracIsPlain(s: string)
    requires FracPart(s)
    ensures AllPlain(s)
  {
    if s != "" {
      DigitsArePlain(s[1..]);
      assert s == [s[0]] + s[1..];
    }
  }

  lemma ExpIsPlain(s: string)
    requires ExpPart(s)
    ensures AllPlain(s)
  {
    if s != "" {
      if Digits(s[1..]) {
        DigitsArePlain(s[1..]);
        assert s == [s[0]] + s[1..];
      } else {
        DigitsArePlain(s[2..]);
        assert s == [s[0], s[1]] + s[2..];
      }
    }
  }

  lemma ScalarIsPlain(token: string)
    requires IsScalar(token)
    ensures token != "" && AllPlain(token)
  {
    if IsNumber(token) {
      var sign, whole, frac, exp :|
        && token == sign + whole + frac + exp
        && (sign == "" || sign == "-")
        && IntPart(whole) && FracPart(frac) && ExpPart(exp);
      DigitsArePlain(whole);
      FracIsPlain(frac);
      ExpIsPlain(exp);
    }
  }

  /** Only objects are printed with a leading brace, and they end with the closing one. */
  lemma BraceMeansObject(j: Json)
    requires WellFormed(j)
    ensures Text(j) != ""
    ensures Text(j)[0] == '{' ==> j.Obj?
    ensures j.Obj? ==> Text(j)[|Text(j)| - 1] == '}'
  {
    match j
    case Scalar(token) => ScalarIsPlain(token); assert token[0] in token;
    case Str(body) => assert Text(j)[0] == '\"';
    case Arr(pad, items) => assert Text(j)[0] == '[';
    case Obj(pad, members) =>
  }
}
