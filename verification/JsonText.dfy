/**
 JSON text (sections 3 to 7 of RFC 8259): the compact printer behind the canonical form,
 and the reader `json.loads` is.
 */
module JsonText {
  import opened Digits
  import opened Texts
  import opened JsonValues

  const QUOTE: CodePoint := 34
  const BACKSLASH: CodePoint := 92
  const COMMA: CodePoint := 44
  const COLON: CodePoint := 58
  const LBRACKET: CodePoint := 91
  const RBRACKET: CodePoint := 93
  const LBRACE: CodePoint := 123
  const RBRACE: CodePoint := 125
  const MINUS: CodePoint := 45

  /** CPython refuses to convert between text and an integer of more digits than this. */
  const MAX_INT_DIGITS: nat := 4300

  // ----- printing -----

  function HexDigit(d: nat): CodePoint
    requires d < 16
  {
    if d < 10 then 48 + d else 87 + d
  }

  /** Minimal escaping: quote, backslash and the C0 controls; everything else as itself. */
  function EscapeCodePoint(c: CodePoint): (t: Text)
    ensures t != []
  {
    if c == QUOTE then [BACKSLASH, QUOTE]
    else if c == BACKSLASH then [BACKSLASH, BACKSLASH]
    else if c == 8 then [BACKSLASH, 98]
    else if c == 12 then [BACKSLASH, 102]
    else if c == 10 then [BACKSLASH, 110]
    else if c == 13 then [BACKSLASH, 114]
    else if c == 9 then [BACKSLASH, 116]
    else if c < 32 then [BACKSLASH, 117, 48, 48, HexDigit(c / 16), HexDigit(c % 16)]
    else [c]
  }

  function EscapeText(s: Text): Text {
    if s == [] then [] else EscapeCodePoint(s[0]) + EscapeText(s[1..])
  }

  function PrintString(s: Text): Text {
    [QUOTE] + EscapeText(s) + [QUOTE]
  }

  function DigitText(ds: seq<Digit>): (t: Text)
    ensures |t| == |ds|
    ensures forall i :: 0 <= i < |ds| ==> t[i] == ds[i] as int + 48
  {
    seq(|ds|, i requires 0 <= i < |ds| => ds[i] as int + 48)
  }

  function PrintInt(n: int): Text {
    if n < 0 then [MINUS] + DigitText(Numeral(-n)) else DigitText(Numeral(n))
  }

  /** Prints members in the order they are held. */
  function Print(v: Json): Text {
    match v
    case Null => Ascii("null")
    case Bool(b) => if b then Ascii("true") else Ascii("false")
    case Int(n) => PrintInt(n)
    case Str(s) => PrintString(s)
    case Float(literal) => literal
    case Arr(items) => [LBRACKET] + PrintItems(items) + [RBRACKET]
    case Obj(members) => [LBRACE] + PrintMembers(members) + [RBRACE]
  }

  function PrintItems(items: seq<Json>): Text {
    if items == [] then []
    else if |items| == 1 then Print(items[0])
    else Print(items[0]) + [COMMA] + PrintItems(items[1..])
  }

  function PrintMember(m: Member): Text {
    PrintString(m.key) + [COLON] + Print(m.value)
  }

  function PrintMembers(members: seq<Member>): Text {
    if members == [] then []
    else if |members| == 1 then PrintMember(members[0])
    else PrintMember(members[0]) + [COMMA] + PrintMembers(members[1..])
  }

  // ----- reading -----

  datatype Parse<+T> = Parsed(value: T, rest: Text) | Bad

  predicate IsSpace(c: CodePoint) {
    c == 32 || c == 9 || c == 10 || c == 13
  }

  predicate IsDigit(c: CodePoint) {
    48 <= c < 58
  }

  function SkipSpace(s: Text): (r: Text)
    ensures |r| <= |s|
  {
    if s != [] && IsSpace(s[0]) then SkipSpace(s[1..]) else s
  }

  function HexValue(c: CodePoint): (d: int)
    ensures -1 <= d < 16
  {
    if IsDigit(c) then c - 48
    else if 97 <= c < 103 then c - 87
    else if 65 <= c < 71 then c - 55
    else -1
  }

  /** Four hexadecimal digits at the front, or -1. */
  function Hex4(s: Text): (u: int)
    ensures -1 <= u < 0x1_0000
    ensures u >= 0 ==> |s| >= 4
  {
    if |s| < 4 then -1
    else
      var a, b, c, d := HexValue(s[0]), HexValue(s[1]), HexValue(s[2]), HexValue(s[3]);
      if a < 0 || b < 0 || c < 0 || d < 0 then -1 else ((a * 16 + b) * 16 + c) * 16 + d
  }

  function SimpleEscape(c: CodePoint): (r: int)
    ensures -1 <= r < 0x80
  {
    if c == QUOTE || c == BACKSLASH || c == 47 then c
    else if c == 98 then 8
    else if c == 102 then 12
    else if c == 110 then 10
    else if c == 114 then 13
    else if c == 116 then 9
    else -1
  }

  function Prepend(c: CodePoint, p: Parse<Text>): (r: Parse<Text>)
    ensures r.Parsed? <==> p.Parsed?
    ensures p.Parsed? ==> r.rest == p.rest
  {
    match p
    case Bad => Bad
    case Parsed(t, rest) => Parsed([c] + t, rest)
  }

  /** The string after its opening quote, up to and over the closing one. */
  function ReadString(s: Text): (r: Parse<Text>)
    ensures r.Parsed? ==> |r.rest| < |s|
    decreases |s|
  {
    if s == [] then Bad
    else if s[0] == QUOTE then Parsed([], s[1..])
    else if s[0] < 32 then Bad
    else if s[0] != BACKSLASH then Prepend(s[0], ReadString(s[1..]))
    else if |s| < 2 then Bad
    else if s[1] != 117 then
      var e := SimpleEscape(s[1]);
      if e < 0 then Bad else Prepend(e, ReadString(s[2..]))
    else
      var u := Hex4(s[2..]);
      if u < 0 then Bad
      else if 0xD800 <= u < 0xDC00 && |s| >= 8 && s[6] == BACKSLASH && s[7] == 117 then
        var low := Hex4(s[8..]);
        if low < 0 then Bad
        else if 0xDC00 <= low < 0xE000 then
          Prepend(0x1_0000 + (u - 0xD800) * 0x400 + (low - 0xDC00), ReadString(s[12..]))
        else Prepend(u, ReadString(s[6..]))
      else Prepend(u, ReadString(s[6..]))
  }

  function DigitRun(s: Text): (n: nat)
    ensures n <= |s|
    ensures forall i :: 0 <= i < n ==> IsDigit(s[i])
    ensures n < |s| ==> !IsDigit(s[n])
  {
    if s == [] || !IsDigit(s[0]) then 0
    else
      var n := DigitRun(s[1..]);
      assert forall i :: 0 < i <= n ==> s[i] == s[1..][i - 1];
      assert n + 1 < |s| ==> s[n + 1] == s[1..][n];
      n + 1
  }

  function DigitOf(c: CodePoint): (d: Digit)
    requires IsDigit(c)
    ensures d as int + 48 == c
  {
    c as int - 48
  }

  function DigitsOf(t: Text): (ds: seq<Digit>)
    requires forall i :: 0 <= i < |t| ==> IsDigit(t[i])
    ensures |ds| == |t|
    ensures forall i :: 0 <= i < |t| ==> ds[i] as int + 48 == t[i]
  {
    seq(|t|, i requires 0 <= i < |t| => DigitOf(t[i]))
  }

  /** Length of a fraction or exponent part, or 0 when there is none. */
  function FractionRun(s: Text): (n: nat)
    ensures n <= |s|
  {
    if |s| >= 2 && s[0] == 46 && IsDigit(s[1]) then 1 + DigitRun(s[1..]) else 0
  }

  function ExponentRun(s: Text): (n: nat)
    ensures n <= |s|
  {
    if |s| >= 2 && (s[0] == 101 || s[0] == 69) then
      var signed: nat := if s[1] == 43 || s[1] == MINUS then 2 else 1;
      if signed < |s| && IsDigit(s[signed]) then signed + DigitRun(s[signed..]) else 0
    else 0
  }

  /** How much of the text after an integer makes it a float. */
  function FloatRun(s: Text): (n: nat)
    ensures n <= |s|
  {
    var fraction := FractionRun(s);
    fraction + ExponentRun(s[fraction..])
  }

  function IntegralRun(s: Text): (n: nat)
    ensures n <= |s|
    ensures forall i :: 0 <= i < n ==> IsDigit(s[i])
  {
    if s != [] && s[0] == 48 then 1 else DigitRun(s)
  }

  /** A number after its sign; one with a fraction or an exponent is a float. */
  function ReadUnsigned(s: Text, neg: bool): (r: Parse<Json>)
    ensures r.Parsed? ==> |r.rest| < |s|
  {
    var run := IntegralRun(s);
    if run == 0 then Bad
    else
      var end := run + FloatRun(s[run..]);
      if end > run then Parsed(Float((if neg then [MINUS] else []) + s[..end]), s[end..])
      else if run > MAX_INT_DIGITS then Bad
      else Parsed(Int(Signed(neg, Number(DigitsOf(s[..run])))), s[run..])
  }

  function ReadNumber(s: Text): (r: Parse<Json>)
    ensures r.Parsed? ==> |r.rest| < |s|
  {
    if s != [] && s[0] == MINUS then ReadUnsigned(s[1..], true) else ReadUnsigned(s, false)
  }

  /** A dictionary entry assigned again keeps its place and takes the later value. */
  function Put(members: seq<Member>, m: Member): seq<Member> {
    if members == [] then [m]
    else if members[0].key == m.key then [m] + members[1..]
    else [members[0]] + Put(members[1..], m)
  }

  function PutAll(pairs: seq<Member>): seq<Member> {
    if pairs == [] then [] else Put(PutAll(pairs[..|pairs| - 1]), pairs[|pairs| - 1])
  }

  predicate IsWord(s: Text, word: string) {
    |s| >= |word| && s[..|word|] == Ascii(word)
  }

  /** Literal names and numbers. */
  function ReadScalar(s: Text): (r: Parse<Json>)
    ensures r.Parsed? ==> |r.rest| < |s|
  {
    if IsWord(s, "null") then Parsed(Null, s[4..])
    else if IsWord(s, "true") then Parsed(Bool(true), s[4..])
    else if IsWord(s, "false") then Parsed(Bool(false), s[5..])
    else if IsWord(s, "NaN") then Parsed(Float(s[..3]), s[3..])
    else if IsWord(s, "Infinity") then Parsed(Float(s[..8]), s[8..])
    else if IsWord(s, "-Infinity") then Parsed(Float(s[..9]), s[9..])
    else ReadNumber(s)
  }

  function ReadStringValue(s: Text): (r: Parse<Json>)
    ensures r.Parsed? ==> |r.rest| < |s|
  {
    match ReadString(s)
    case Bad => Bad
    case Parsed(t, rest) => Parsed(Str(t), rest)
  }

  /** `unique` is the duplicate-key-rejecting object hook; without it the last value wins. */
  function ReadValue(s: Text, unique: bool): (r: Parse<Json>)
    ensures r.Parsed? ==> |r.rest| < |s|
    decreases |s|, 0
  {
    if s == [] then Bad
    else if s[0] == QUOTE then ReadStringValue(s[1..])
    else if s[0] == LBRACE then ReadObject(SkipSpace(s[1..]), unique)
    else if s[0] == LBRACKET then ReadArray(SkipSpace(s[1..]), unique)
    else ReadScalar(s)
  }

  /** An array after its opening bracket. */
  function ReadArray(s: Text, unique: bool): (r: Parse<Json>)
    ensures r.Parsed? ==> |r.rest| < |s|
    decreases |s|, 2
  {
    if s != [] && s[0] == RBRACKET then Parsed(Arr([]), s[1..])
    else
      match ReadItems(s, unique)
      case Bad => Bad
      case Parsed(items, rest) => Parsed(Arr(items), rest)
  }

  /** An object after its opening brace. */
  function ReadObject(s: Text, unique: bool): (r: Parse<Json>)
    ensures r.Parsed? ==> |r.rest| < |s|
    decreases |s|, 3
  {
    if s != [] && s[0] == RBRACE then Parsed(Obj([]), s[1..])
    else
      match ReadMembers(s, unique)
      case Bad => Bad
      case Parsed(pairs, rest) =>
        if unique && !DistinctKeys(pairs) then Bad else Parsed(Obj(PutAll(pairs)), rest)
  }

  function ReadItems(s: Text, unique: bool): (r: Parse<seq<Json>>)
    ensures r.Parsed? ==> |r.rest| < |s|
    decreases |s|, 1
  {
    match ReadValue(s, unique)
    case Bad => Bad
    case Parsed(v, after) =>
      var t := SkipSpace(after);
      if t == [] then Bad
      else if t[0] == RBRACKET then Parsed([v], t[1..])
      else if t[0] != COMMA then Bad
      else
        match ReadItems(SkipSpace(t[1..]), unique)
        case Bad => Bad
        case Parsed(items, rest) => Parsed([v] + items, rest)
  }

  function ReadMember(s: Text, unique: bool): (r: Parse<Member>)
    ensures r.Parsed? ==> |r.rest| < |s|
    decreases |s|, 1
  {
    if s == [] || s[0] != QUOTE then Bad
    else
      match ReadString(s[1..])
      case Bad => Bad
      case Parsed(key, after) =>
        var t := SkipSpace(after);
        if t == [] || t[0] != COLON then Bad
        else
          match ReadValue(SkipSpace(t[1..]), unique)
          case Bad => Bad
          case Parsed(v, rest) => Parsed(Member(key, v), rest)
  }

  function ReadMembers(s: Text, unique: bool): (r: Parse<seq<Member>>)
    ensures r.Parsed? ==> |r.rest| < |s|
    decreases |s|, 2
  {
    match ReadMember(s, unique)
    case Bad => Bad
    case Parsed(m, after) =>
      var t := SkipSpace(after);
      if t == [] then Bad
      else if t[0] == RBRACE then Parsed([m], t[1..])
      else if t[0] != COMMA then Bad
      else
        match ReadMembers(SkipSpace(t[1..]), unique)
        case Bad => Bad
        case Parsed(members, rest) => Parsed([m] + members, rest)
  }

  /** `json.loads`: one value, surrounded by nothing but white space. */
  function Load(s: Text, unique: bool): Parse<Json> {
    match ReadValue(SkipSpace(s), unique)
    case Bad => Bad
    case Parsed(v, rest) => if SkipSpace(rest) == [] then Parsed(v, []) else Bad
  }
}
