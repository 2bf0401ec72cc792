/** Reading back printed JSON, before or inside any other JSON text, returns the value printed. */
module JsonRoundTrip {
  import opened Digits
  import opened Texts
  import opened JsonValues
  import opened JsonText

  function Magnitude(n: int): nat {
    if n < 0 then -n else n
  }

  predicate IntPrintable(n: int) {
    |Numeral(Magnitude(n))| <= MAX_INT_DIGITS
  }

  /** Values the printer and the reader both take: dictionaries, no floats, no oversized integers. */
  predicate Readable(v: Json) {
    match v
    case Int(n) => IntPrintable(n)
    case Float(_) => false
    case Arr(items) => forall i :: 0 <= i < |items| ==> Readable(items[i])
    case Obj(members) =>
      DistinctKeys(members) && forall i :: 0 <= i < |members| ==> Readable(members[i].value)
    case _ => true
  }

  /** What follows a value in JSON text cannot be taken for more of the value. */
  predicate Delimited(rest: Text) {
    rest == [] || rest[0] == COMMA || rest[0] == RBRACKET || rest[0] == RBRACE
  }

  // ----- strings -----

  lemma ReadEscaped(c: CodePoint, tail: Text)
    ensures ReadString(EscapeCodePoint(c) + tail) == Prepend(c, ReadString(tail))
  {
    var e := EscapeCodePoint(c);
    if |e| == 2 {
      ReadPair(e[1], tail);
      assert e == [BACKSLASH, e[1]];
    } else if |e| == 6 {
      ReadHex(c, tail);
    } else {
      assert ([c] + tail)[1..] == tail;
    }
  }

  lemma ReadPair(letter: CodePoint, tail: Text)
    requires letter != 117 && SimpleEscape(letter) >= 0
    ensures ReadString([BACKSLASH, letter] + tail) == Prepend(SimpleEscape(letter), ReadString(tail))
  {
    var s := [BACKSLASH, letter] + tail;
    assert s[0] == BACKSLASH && s[1] == letter && s[2..] == tail;
  }

  lemma ReadHex(c: CodePoint, tail: Text)
    requires c < 32
    ensures ReadString([BACKSLASH, 117, 48, 48, HexDigit(c / 16), HexDigit(c % 16)] + tail)
            == Prepend(c, ReadString(tail))
  {
    var s := [BACKSLASH, 117, 48, 48, HexDigit(c / 16), HexDigit(c % 16)] + tail;
    var h := s[2..];
    assert s[0] == BACKSLASH && s[1] == 117 && s[6..] == tail;
    assert h[0] == 48 && h[1] == 48 && h[2] == HexDigit(c / 16) && h[3] == HexDigit(c % 16);
    assert Hex4(h) == c;
  }

  lemma {:induction false} ReadPrintedString(t: Text, rest: Text)
    ensures ReadString(EscapeText(t) + [QUOTE] + rest) == Parsed(t, rest)
  {
    if t == [] {
      assert (EscapeText(t) + [QUOTE] + rest)[1..] == rest;
    } else {
      var e, more := EscapeCodePoint(t[0]), EscapeText(t[1..]);
      ReadPrintedString(t[1..], rest);
      ReadEscaped(t[0], more + [QUOTE] + rest);
      Regroup4(e, more, [QUOTE], rest);
      Regroup3(more, [QUOTE], rest);
      assert t == [t[0]] + t[1..];
    }
  }

  // ----- integers -----

  lemma {:induction false} DigitRunOf(ds: Text, rest: Text)
    requires forall i :: 0 <= i < |ds| ==> IsDigit(ds[i])
    requires rest == [] || !IsDigit(rest[0])
    ensures DigitRun(ds + rest) == |ds|
  {
    if ds == [] {
      assert ds + rest == rest;
    } else {
      DigitRunOf(ds[1..], rest);
      assert (ds + rest)[1..] == ds[1..] + rest;
    }
  }

  lemma NoFraction(rest: Text)
    requires Delimited(rest)
    ensures FloatRun(rest) == 0
  {
    assert rest[0..] == rest;
  }

  lemma DigitsOfText(ds: seq<Digit>)
    ensures forall i :: 0 <= i < |ds| ==> IsDigit(DigitText(ds)[i])
    ensures DigitsOf(DigitText(ds)) == ds
  {
    assert forall i :: 0 <= i < |ds| ==> DigitsOf(DigitText(ds))[i] as int + 48 == DigitText(ds)[i];
  }

  /** A delimited run of digits is read as an integer. */
  lemma ReadRun(s: Text, run: nat, neg: bool)
    requires 0 < run == IntegralRun(s) && run <= MAX_INT_DIGITS
    requires Delimited(s[run..])
    ensures ReadUnsigned(s, neg) == Parsed(Int(Signed(neg, Number(DigitsOf(s[..run])))), s[run..])
  {
    NoFraction(s[run..]);
  }

  lemma ReadDigits(ds: seq<Digit>, neg: bool, rest: Text)
    requires NoLeadingZero(ds) && |ds| <= MAX_INT_DIGITS && Delimited(rest)
    ensures ReadUnsigned(DigitText(ds) + rest, neg) == Parsed(Int(Signed(neg, Number(ds))), rest)
  {
    var body := DigitText(ds);
    var s := body + rest;
    DigitsOfText(ds);
    DigitRunOf(body, rest);
    assert s[0] == body[0] && s[..|ds|] == body && s[|ds|..] == rest;
    ReadRun(s, |ds|, neg);
  }

  lemma ReadNegative(digits: Text, rest: Text)
    ensures ReadNumber([MINUS] + digits + rest) == ReadUnsigned(digits + rest, true)
  {
    assert ([MINUS] + digits + rest)[1..] == digits + rest;
  }

  lemma ReadPositive(digits: Text, rest: Text)
    requires digits != [] && digits[0] != MINUS
    ensures ReadNumber(digits + rest) == ReadUnsigned(digits + rest, false)
  {
    assert (digits + rest)[0] == digits[0];
  }

  lemma ReadPrintedInt(n: int, rest: Text)
    requires IntPrintable(n) && Delimited(rest)
    ensures ReadNumber(PrintInt(n) + rest) == Parsed(Int(n), rest)
  {
    var ds := Numeral(Magnitude(n));
    NumeralShape(Magnitude(n));
    NumberOfNumeral(Magnitude(n));
    ReadDigits(ds, n < 0, rest);
    if n < 0 {
      ReadNegative(DigitText(ds), rest);
    } else {
      ReadPositive(DigitText(ds), rest);
    }
  }

  // ----- the first character decides the kind of value -----

  predicate StartsValue(t: Text) {
    t != [] && !IsSpace(t[0]) && t[0] != RBRACKET && t[0] != RBRACE
  }

  lemma PrintedStart(v: Json)
    requires !v.Float?
    ensures StartsValue(Print(v))
  {
    if v.Int? {
      NumeralShape(Magnitude(v.n));
    }
  }

  lemma WordMismatch(s: Text, word: string, i: nat)
    requires i < |word| && i < |s| && s[i] != word[i] as int
    ensures !IsWord(s, word)
  {
    if |s| >= |word| {
      assert s[..|word|][i] != Ascii(word)[i];
    }
  }

  lemma ReadWord(word: string, rest: Text)
    requires word == "null" || word == "true" || word == "false"
    ensures ReadScalar(Ascii(word) + rest)
         == Parsed(if word == "null" then Null else Bool(word == "true"), rest)
  {
    var s := Ascii(word) + rest;
    assert s[0] == word[0] as int;
    assert s[..|word|] == Ascii(word) && s[|word|..] == rest;
    if word != "null" {
      WordMismatch(s, "null", 0);
    }
    if word == "false" {
      WordMismatch(s, "true", 0);
    }
  }

  /** Text starting with a digit, or with a minus and a digit, is none of the literal names. */
  lemma NumberDispatch(s: Text)
    requires s != [] && (IsDigit(s[0]) || (s[0] == MINUS && |s| > 1 && IsDigit(s[1])))
    ensures ReadScalar(s) == ReadNumber(s)
  {
    WordMismatch(s, "null", 0);
    WordMismatch(s, "true", 0);
    WordMismatch(s, "false", 0);
    WordMismatch(s, "NaN", 0);
    WordMismatch(s, "Infinity", 0);
    WordMismatch(s, "-Infinity", if IsDigit(s[0]) then 0 else 1);
  }

  lemma ReadIntScalar(n: int, rest: Text)
    requires IntPrintable(n) && Delimited(rest)
    ensures ReadScalar(PrintInt(n) + rest) == Parsed(Int(n), rest)
  {
    ReadPrintedInt(n, rest);
    NumeralShape(Magnitude(n));
    var s := PrintInt(n) + rest;
    assert s[0] == PrintInt(n)[0] && (n < 0 ==> s[1] == PrintInt(n)[1]);
    NumberDispatch(s);
  }

  lemma ScalarDispatch(s: Text, unique: bool)
    requires s != [] && s[0] != QUOTE && s[0] != LBRACE && s[0] != LBRACKET
    ensures ReadValue(s, unique) == ReadScalar(s)
  {
  }

  lemma ReadPrintedStringValue(t: Text, rest: Text, unique: bool)
    ensures ReadValue(PrintString(t) + rest, unique) == Parsed(Str(t), rest)
  {
    var tail := EscapeText(t) + [QUOTE] + rest;
    ReadPrintedString(t, rest);
    assert PrintString(t) + rest == [QUOTE] + tail;
    assert ([QUOTE] + tail)[1..] == tail;
  }

  lemma ReadPrintedScalar(v: Json, rest: Text, unique: bool)
    requires Readable(v) && !v.Arr? && !v.Obj? && Delimited(rest)
    ensures ReadValue(Print(v) + rest, unique) == Parsed(v, rest)
  {
    var s := Print(v) + rest;
    PrintedStart(v);
    assert s[0] == Print(v)[0];
    match v
    case Null =>
      ScalarDispatch(s, unique);
      ReadWord("null", rest);
    case Bool(b) =>
      ScalarDispatch(s, unique);
      ReadWord(if b then "true" else "false", rest);
    case Int(n) =>
      ScalarDispatch(s, unique);
      ReadIntScalar(n, rest);
    case Str(t) => ReadPrintedStringValue(t, rest, unique);
  }

  // ----- containers -----

  lemma {:induction false} PutFresh(members: seq<Member>, m: Member)
    requires forall i :: 0 <= i < |members| ==> members[i].key != m.key
    ensures Put(members, m) == members + [m]
  {
    if members != [] {
      PutFresh(members[1..], m);
      assert members + [m] == [members[0]] + (members[1..] + [m]);
    }
  }

  lemma {:induction false} PutAllDistinct(pairs: seq<Member>)
    requires DistinctKeys(pairs)
    ensures PutAll(pairs) == pairs
  {
    if pairs != [] {
      var n := |pairs| - 1;
      PutAllDistinct(pairs[..n]);
      PutFresh(pairs[..n], pairs[n]);
      assert pairs == pairs[..n] + [pairs[n]];
    }
  }

  lemma ArrayDispatch(body: Text, rest: Text, unique: bool)
    requires StartsValue(body) || (body != [] && body[0] == RBRACKET)
    ensures ReadValue([LBRACKET] + body + rest, unique) == ReadArray(body + rest, unique)
  {
    assert ([LBRACKET] + body + rest)[1..] == body + rest;
  }

  lemma ObjectDispatch(body: Text, rest: Text, unique: bool)
    requires body != [] && (body[0] == QUOTE || body[0] == RBRACE)
    ensures ReadValue([LBRACE] + body + rest, unique) == ReadObject(body + rest, unique)
  {
    assert ([LBRACE] + body + rest)[1..] == body + rest;
  }

  lemma LastItem(v: Json, s: Text, rest: Text, unique: bool)
    requires ReadValue(s, unique) == Parsed(v, [RBRACKET] + rest)
    ensures ReadItems(s, unique) == Parsed([v], rest)
  {
    assert ([RBRACKET] + rest)[1..] == rest;
  }

  lemma NextItem(v: Json, items: seq<Json>, s: Text, tail: Text, rest: Text, unique: bool)
    requires ReadValue(s, unique) == Parsed(v, [COMMA] + tail)
    requires StartsValue(tail) && ReadItems(tail, unique) == Parsed(items, rest)
    ensures ReadItems(s, unique) == Parsed([v] + items, rest)
  {
    assert ([COMMA] + tail)[1..] == tail;
  }

  lemma LastMember(m: Member, s: Text, rest: Text, unique: bool)
    requires ReadMember(s, unique) == Parsed(m, [RBRACE] + rest)
    ensures ReadMembers(s, unique) == Parsed([m], rest)
  {
    assert ([RBRACE] + rest)[1..] == rest;
  }

  lemma NextMember(m: Member, members: seq<Member>, s: Text, tail: Text, rest: Text, unique: bool)
    requires ReadMember(s, unique) == Parsed(m, [COMMA] + tail)
    requires tail != [] && !IsSpace(tail[0]) && ReadMembers(tail, unique) == Parsed(members, rest)
    ensures ReadMembers(s, unique) == Parsed([m] + members, rest)
  {
    assert ([COMMA] + tail)[1..] == tail;
  }

  lemma OneMember(m: Member, s: Text, tail: Text, rest: Text, unique: bool)
    requires s != [] && s[0] == QUOTE
    requires ReadString(s[1..]) == Parsed(m.key, [COLON] + tail)
    requires StartsValue(tail) && ReadValue(tail, unique) == Parsed(m.value, rest)
    ensures ReadMember(s, unique) == Parsed(m, rest)
  {
    assert ([COLON] + tail)[1..] == tail;
  }

  lemma ItemsStart(items: seq<Json>, rest: Text)
    requires items != [] && !items[0].Float?
    ensures StartsValue(PrintItems(items) + rest)
  {
    PrintedStart(items[0]);
    assert (PrintItems(items) + rest)[0] == Print(items[0])[0];
  }

  lemma MembersStart(members: seq<Member>, rest: Text)
    requires members != []
    ensures (PrintMembers(members) + rest) != []
    ensures (PrintMembers(members) + rest)[0] == QUOTE
  {
    assert PrintMember(members[0])[0] == QUOTE;
  }

  lemma ItemsTailStart(items: seq<Json>, rest: Text)
    requires items != [] && !items[0].Float?
    ensures StartsValue(PrintItems(items) + [RBRACKET] + rest)
  {
    ItemsStart(items, [RBRACKET] + rest);
    Regroup3(PrintItems(items), [RBRACKET], rest);
  }

  lemma MembersTailStart(members: seq<Member>, rest: Text)
    requires members != []
    ensures var tail := PrintMembers(members) + [RBRACE] + rest; tail != [] && tail[0] == QUOTE
  {
    MembersStart(members, [RBRACE] + rest);
    Regroup3(PrintMembers(members), [RBRACE], rest);
  }

  ghost predicate ItemsBelow(items: seq<Json>, v: Json) {
    forall i :: 0 <= i < |items| ==> Readable(items[i]) && items[i] < v
  }

  ghost predicate MembersBelow(members: seq<Member>, v: Json) {
    forall i :: 0 <= i < |members| ==> Readable(members[i].value) && members[i].value < v
  }

  lemma ReadArrayOf(items: seq<Json>, rest: Text, unique: bool)
    requires items != [] ==>
               !items[0].Float? && ReadItems(PrintItems(items) + [RBRACKET] + rest, unique) == Parsed(items, rest)
    ensures ReadValue(Print(Arr(items)) + rest, unique) == Parsed(Arr(items), rest)
  {
    var inner := PrintItems(items);
    var body := inner + [RBRACKET];
    if items != [] {
      ItemsStart(items, [RBRACKET]);
      ItemsTailStart(items, rest);
    } else {
      assert body == [RBRACKET] && (body + rest)[1..] == rest;
    }
    ArrayDispatch(body, rest, unique);
    Regroup3([LBRACKET], inner, [RBRACKET]);
  }

  lemma ObjectBody(members: seq<Member>, s: Text, rest: Text, unique: bool)
    requires DistinctKeys(members) && s != [] && s[0] == QUOTE
    requires ReadMembers(s, unique) == Parsed(members, rest)
    ensures ReadObject(s, unique) == Parsed(Obj(members), rest)
  {
    PutAllDistinct(members);
  }

  lemma ReadEmptyObject(rest: Text, unique: bool)
    ensures ReadValue([LBRACE] + [RBRACE] + rest, unique) == Parsed(Obj([]), rest)
  {
    ObjectDispatch([RBRACE], rest, unique);
    assert ([RBRACE] + rest)[1..] == rest;
  }

  lemma ReadObjectOf(members: seq<Member>, rest: Text, unique: bool)
    requires DistinctKeys(members)
    requires members != [] ==>
               ReadMembers(PrintMembers(members) + [RBRACE] + rest, unique) == Parsed(members, rest)
    ensures ReadValue(Print(Obj(members)) + rest, unique) == Parsed(Obj(members), rest)
  {
    if members == [] {
      ReadEmptyObject(rest, unique);
      assert [LBRACE] + PrintMembers(members) == [LBRACE];
    } else {
      ReadFilledObject(members, rest, unique);
    }
  }

  lemma ReadFilledObject(members: seq<Member>, rest: Text, unique: bool)
    requires DistinctKeys(members) && members != []
    requires ReadMembers(PrintMembers(members) + [RBRACE] + rest, unique) == Parsed(members, rest)
    ensures ReadValue(Print(Obj(members)) + rest, unique) == Parsed(Obj(members), rest)
  {
    MembersStart(members, [RBRACE]);
    ReadBody(members, PrintMembers(members) + [RBRACE], rest, unique);
    Regroup3([LBRACE], PrintMembers(members), [RBRACE]);
  }

  lemma ReadBody(members: seq<Member>, body: Text, rest: Text, unique: bool)
    requires DistinctKeys(members) && body != [] && body[0] == QUOTE
    requires ReadMembers(body + rest, unique) == Parsed(members, rest)
    ensures ReadValue([LBRACE] + body + rest, unique) == Parsed(Obj(members), rest)
  {
    ObjectBody(members, body + rest, rest, unique);
    ObjectDispatch(body, rest, unique);
  }

  /** Reading any printed value returns it and stops exactly where it ends. */
  lemma {:induction false} ReadPrinted(v: Json, rest: Text, unique: bool)
    requires Readable(v) && Delimited(rest)
    ensures ReadValue(Print(v) + rest, unique) == Parsed(v, rest)
    decreases v, 3
  {
    if v.Arr? {
      if v.items != [] {
        assert ItemsBelow(v.items, v);
        ReadPrintedItems(v, v.items, rest, unique);
      }
      ReadArrayOf(v.items, rest, unique);
    } else if v.Obj? {
      if v.members != [] {
        assert MembersBelow(v.members, v);
        ReadPrintedMembers(v, v.members, rest, unique);
      }
      ReadObjectOf(v.members, rest, unique);
    } else {
      ReadPrintedScalar(v, rest, unique);
    }
  }

  lemma PrintItemsSplit(items: seq<Json>, rest: Text)
    requires |items| > 1
    ensures var tail := PrintItems(items[1..]) + [RBRACKET] + rest;
            PrintItems(items) + [RBRACKET] + rest == Print(items[0]) + ([COMMA] + tail)
  {
    Regroup5(Print(items[0]), [COMMA], PrintItems(items[1..]), [RBRACKET], rest);
  }

  lemma PrintMembersSplit(members: seq<Member>, rest: Text)
    requires |members| > 1
    ensures var tail := PrintMembers(members[1..]) + [RBRACE] + rest;
            PrintMembers(members) + [RBRACE] + rest == PrintMember(members[0]) + ([COMMA] + tail)
  {
    Regroup5(PrintMember(members[0]), [COMMA], PrintMembers(members[1..]), [RBRACE], rest);
  }

  lemma {:induction false} ReadPrintedItems(v: Json, items: seq<Json>, rest: Text, unique: bool)
    requires items != [] && ItemsBelow(items, v)
    ensures ReadItems(PrintItems(items) + [RBRACKET] + rest, unique) == Parsed(items, rest)
    decreases v, 1, |items|
  {
    var s := PrintItems(items) + [RBRACKET] + rest;
    if |items| == 1 {
      ReadPrinted(items[0], [RBRACKET] + rest, unique);
      Regroup3(Print(items[0]), [RBRACKET], rest);
      LastItem(items[0], s, rest, unique);
      assert items == [items[0]];
    } else {
      var others := items[1..];
      var tail := PrintItems(others) + [RBRACKET] + rest;
      PrintItemsSplit(items, rest);
      ReadPrinted(items[0], [COMMA] + tail, unique);
      ItemsTailStart(others, rest);
      ReadPrintedItems(v, others, rest, unique);
      NextItem(items[0], others, s, tail, rest, unique);
      assert items == [items[0]] + others;
    }
  }

  lemma PrintMemberSplit(m: Member, rest: Text)
    ensures var tail := Print(m.value) + rest;
            PrintMember(m) + rest == [QUOTE] + (EscapeText(m.key) + [QUOTE] + ([COLON] + tail))
  {
    var k, p := EscapeText(m.key), Print(m.value);
    Regroup4([QUOTE] + k + [QUOTE], [COLON], p, rest);
    Regroup4([QUOTE], k, [QUOTE], [COLON] + (p + rest));
    Regroup3(k, [QUOTE], [COLON] + (p + rest));
  }

  lemma {:induction false} ReadPrintedMember(v: Json, m: Member, rest: Text, unique: bool)
    requires Readable(m.value) && m.value < v && Delimited(rest)
    ensures ReadMember(PrintMember(m) + rest, unique) == Parsed(m, rest)
    decreases v, 0
  {
    var s := PrintMember(m) + rest;
    var tail := Print(m.value) + rest;
    PrintMemberSplit(m, rest);
    ReadPrintedString(m.key, [COLON] + tail);
    PrintedStart(m.value);
    ReadPrinted(m.value, rest, unique);
    OneMember(m, s, tail, rest, unique);
  }

  lemma SingleMember(members: seq<Member>, rest: Text, unique: bool)
    requires |members| == 1
    requires ReadMember(PrintMember(members[0]) + ([RBRACE] + rest), unique) == Parsed(members[0], [RBRACE] + rest)
    ensures ReadMembers(PrintMembers(members) + [RBRACE] + rest, unique) == Parsed(members, rest)
  {
    Regroup3(PrintMember(members[0]), [RBRACE], rest);
    LastMember(members[0], PrintMember(members[0]) + ([RBRACE] + rest), rest, unique);
    assert members == [members[0]];
  }

  lemma SeveralMembers(members: seq<Member>, tail: Text, rest: Text, unique: bool)
    requires |members| > 1 && tail == PrintMembers(members[1..]) + [RBRACE] + rest
    requires ReadMember(PrintMember(members[0]) + ([COMMA] + tail), unique) == Parsed(members[0], [COMMA] + tail)
    requires ReadMembers(tail, unique) == Parsed(members[1..], rest)
    ensures ReadMembers(PrintMembers(members) + [RBRACE] + rest, unique) == Parsed(members, rest)
  {
    assert members == [members[0]] + members[1..];
    MembersTailStart(members[1..], rest);
    NextMember(members[0], members[1..], PrintMember(members[0]) + ([COMMA] + tail), tail, rest, unique);
    PrintMembersSplit(members, rest);
  }

  lemma {:induction false} ReadPrintedMembers(v: Json, members: seq<Member>, rest: Text, unique: bool)
    requires members != [] && MembersBelow(members, v)
    ensures ReadMembers(PrintMembers(members) + [RBRACE] + rest, unique) == Parsed(members, rest)
    decreases v, 1, |members|
  {
    if |members| == 1 {
      ReadPrintedMember(v, members[0], [RBRACE] + rest, unique);
      SingleMember(members, rest, unique);
    } else {
      var tail := PrintMembers(members[1..]) + [RBRACE] + rest;
      ReadPrintedMember(v, members[0], [COMMA] + tail, unique);
      assert MembersBelow(members[1..], v);
      ReadPrintedMembers(v, members[1..], rest, unique);
      SeveralMembers(members, tail, rest, unique);
    }
  }

  /** A whole printed document loads as the value printed, whatever the duplicate-key hook. */
  lemma LoadPrinted(v: Json, unique: bool)
    requires Readable(v)
    ensures Load(Print(v), unique) == Parsed(v, [])
  {
    ReadPrinted(v, [], unique);
    PrintedStart(v);
    assert Print(v) + [] == Print(v);
  }

  // ----- sorting keys keeps a value readable -----

  lemma {:induction false} NormalReadable(v: Json)
    requires Readable(v)
    ensures Readable(Normal(v))
  {
    match v
    case Arr(items) =>
      forall i | 0 <= i < |items| ensures Readable(NormalItems(items)[i]) {
        NormalReadable(items[i]);
      }
    case Obj(members) =>
      NormalObject(members);
      var sorted := Normal(v).members;
      SortedDistinct(sorted);
      forall k | 0 <= k < |sorted| ensures Readable(sorted[k].value) {
        assert sorted[k] in multiset(NormalMembers(members));
        var i :| 0 <= i < |members| && NormalMembers(members)[i] == sorted[k];
        NormalReadable(members[i].value);
      }
    case _ =>
  }
}
