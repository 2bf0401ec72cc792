/** Python text as code points, and its strict UTF-8 form (section 3 of RFC 3629). */
module Texts {
  import opened Outcomes

  /** A Python `str` element: any code point, lone surrogates included. */
  type CodePoint = c: nat | c < 0x11_0000

  type Text = seq<CodePoint>

  type Byte = b: nat | b < 0x100

  type Bytes = seq<Byte>

  function Ascii(s: string): (t: Text)
    ensures |t| == |s|
    ensures forall i :: 0 <= i < |s| ==> t[i] == s[i] as int
  {
    seq(|s|, i requires 0 <= i < |s| => s[i] as int)
  }

  predicate IsSurrogate(c: CodePoint) {
    0xD800 <= c < 0xE000
  }

  predicate HasSurrogate(t: Text) {
    exists i :: 0 <= i < |t| && IsSurrogate(t[i])
  }

  /** Code-point order, the order Python compares `str` in. */
  predicate Before(a: Text, b: Text) {
    if a == [] then b != []
    else if b == [] then false
    else if a[0] != b[0] then a[0] < b[0]
    else Before(a[1..], b[1..])
  }

  lemma {:induction false} BeforeTotal(a: Text, b: Text)
    ensures a == b || Before(a, b) || Before(b, a)
  {
    if a != [] && b != [] && a[0] == b[0] {
      BeforeTotal(a[1..], b[1..]);
      assert a == [a[0]] + a[1..] && b == [b[0]] + b[1..];
    }
  }

  lemma {:induction false} BeforeStrict(a: Text, b: Text)
    requires Before(a, b)
    ensures a != b && !Before(b, a)
  {
    if a != [] && a[0] == b[0] {
      BeforeStrict(a[1..], b[1..]);
    }
  }

  lemma {:induction false} BeforeTransitive(a: Text, b: Text, c: Text)
    requires Before(a, b) && Before(b, c)
    ensures Before(a, c)
  {
    if a != [] && a[0] == b[0] == c[0] {
      BeforeTransitive(a[1..], b[1..], c[1..]);
    }
  }

  // ----- concatenation, kept away from everything else -----

  lemma Regroup3<T>(a: seq<T>, b: seq<T>, c: seq<T>)
    ensures a + b + c == a + (b + c)
  {
  }

  lemma Regroup4<T>(a: seq<T>, b: seq<T>, c: seq<T>, d: seq<T>)
    ensures a + b + c + d == a + (b + (c + d))
  {
  }

  lemma Regroup5<T>(a: seq<T>, b: seq<T>, c: seq<T>, d: seq<T>, e: seq<T>)
    ensures (a + b + c) + d + e == a + (b + (c + d + e))
  {
  }

  // ----- UTF-8 -----

  /** The n-th trailing byte from the right: six bits above the marker 10. */
  function Trail(c: nat): (b: Byte) {
    0x80 + c % 0x40
  }

  function EncodeCodePoint(c: CodePoint): (bs: Bytes)
    ensures 1 <= |bs| <= 4
  {
    if c < 0x80 then [c]
    else if c < 0x800 then [0xC0 + c / 0x40, Trail(c)]
    else if c < 0x1_0000 then [0xE0 + c / 0x40 / 0x40, Trail(c / 0x40), Trail(c)]
    else [0xF0 + c / 0x40 / 0x40 / 0x40, Trail(c / 0x40 / 0x40), Trail(c / 0x40), Trail(c)]
  }

  function EncodeAll(t: Text): Bytes {
    if t == [] then [] else EncodeCodePoint(t[0]) + EncodeAll(t[1..])
  }

  /** `str.encode("utf-8")`: refuses lone surrogates. */
  function Utf8Encode(t: Text): Option<Bytes> {
    if HasSurrogate(t) then None else Some(EncodeAll(t))
  }

  predicate Continuation(bs: Bytes, i: nat) {
    i < |bs| && 0x80 <= bs[i] < 0xC0
  }

  /** The code under construction, extended by one trailing byte. */
  function Extend(high: int, trail: int): (c: int) {
    0x40 * high + (trail - 0x80)
  }

  /** The first code point of a strict UTF-8 stream, with the number of bytes it takes. */
  function DecodeFirst(bs: Bytes): (r: Option<(CodePoint, nat)>)
    ensures r.Some? ==> 1 <= r.value.1 <= |bs|
  {
    if bs == [] then None
    else
      var b0: int := bs[0];
      if b0 < 0x80 then Some((bs[0], 1))
      else if !Continuation(bs, 1) then None
      else if 0xC2 <= b0 < 0xE0 then
        Some((Extend(b0 - 0xC0, bs[1]), 2))
      else if !Continuation(bs, 2) then None
      else if 0xE0 <= b0 < 0xF0 then
        var c := Extend(Extend(b0 - 0xE0, bs[1]), bs[2]);
        if c < 0x800 || IsSurrogate(c) then None else Some((c, 3))
      else if !Continuation(bs, 3) then None
      else if 0xF0 <= b0 < 0xF5 then
        var c := Extend(Extend(Extend(b0 - 0xF0, bs[1]), bs[2]), bs[3]);
        if c < 0x1_0000 || c >= 0x11_0000 then None else Some((c, 4))
      else None
  }

  /** `bytes.decode("utf-8", errors="strict")`. */
  function Utf8Decode(bs: Bytes): Option<Text>
    decreases |bs|
  {
    if bs == [] then Some([])
    else
      match DecodeFirst(bs)
      case None => None
      case Some((c, n)) =>
        match Utf8Decode(bs[n..])
        case None => None
        case Some(rest) => Some([c] + rest)
  }

  lemma SplitSix(c: nat)
    ensures Extend(c / 0x40, Trail(c)) == c
  {
  }

  lemma JoinSix(high: nat, trail: nat)
    requires 0x80 <= trail < 0xC0
    ensures Extend(high, trail) >= 0
    ensures Extend(high, trail) / 0x40 == high && Trail(Extend(high, trail)) == trail
  {
  }

  lemma DecodeFirstOfEncoded(c: CodePoint, rest: Bytes)
    requires !IsSurrogate(c)
    ensures DecodeFirst(EncodeCodePoint(c) + rest) == Some((c, |EncodeCodePoint(c)|))
  {
    var code := EncodeCodePoint(c);
    var bs := code + rest;
    assert forall i :: 0 <= i < |code| ==> bs[i] == code[i];
    SplitSix(c);
    SplitSix(c / 0x40);
    SplitSix(c / 0x40 / 0x40);
  }

  lemma DecodeCons(c: CodePoint, rest: Bytes)
    requires !IsSurrogate(c)
    requires Utf8Decode(rest).Some?
    ensures Utf8Decode(EncodeCodePoint(c) + rest) == Some([c] + Utf8Decode(rest).value)
  {
    DecodeFirstOfEncoded(c, rest);
    var code := EncodeCodePoint(c);
    assert (code + rest)[|code|..] == rest;
  }

  lemma TailSurrogates(t: Text)
    requires t != [] && !HasSurrogate(t)
    ensures !IsSurrogate(t[0]) && !HasSurrogate(t[1..])
  {
    forall i | 0 <= i < |t[1..]| ensures !IsSurrogate(t[1..][i]) {
      assert t[1..][i] == t[i + 1];
    }
  }

  lemma {:induction false} DecodeEncoded(t: Text)
    requires !HasSurrogate(t)
    ensures Utf8Decode(EncodeAll(t)) == Some(t)
  {
    if t != [] {
      TailSurrogates(t);
      DecodeEncoded(t[1..]);
      DecodeCons(t[0], EncodeAll(t[1..]));
      assert t == [t[0]] + t[1..];
    }
  }

  lemma EncodeDecodedFirst(bs: Bytes)
    requires DecodeFirst(bs).Some?
    ensures var (c, n) := DecodeFirst(bs).value; !IsSurrogate(c) && EncodeCodePoint(c) == bs[..n]
  {
    var (c, n) := DecodeFirst(bs).value;
    if n == 2 {
      JoinSix(bs[0] - 0xC0, bs[1]);
    } else if n == 3 {
      JoinSix(bs[0] - 0xE0, bs[1]);
      JoinSix(Extend(bs[0] - 0xE0, bs[1]), bs[2]);
    } else if n == 4 {
      JoinSix(bs[0] - 0xF0, bs[1]);
      JoinSix(Extend(bs[0] - 0xF0, bs[1]), bs[2]);
      JoinSix(Extend(Extend(bs[0] - 0xF0, bs[1]), bs[2]), bs[3]);
    }
  }

  lemma ConsSurrogates(c: CodePoint, t: Text)
    requires !IsSurrogate(c) && !HasSurrogate(t)
    ensures !HasSurrogate([c] + t)
  {
    forall i | 0 <= i < |[c] + t| ensures !IsSurrogate(([c] + t)[i]) {
      assert i > 0 ==> ([c] + t)[i] == t[i - 1];
    }
  }

  /** Decoding is strict, so decoded text has no surrogates and encodes to the very same bytes. */
  lemma {:induction false} EncodeDecoded(bs: Bytes)
    requires Utf8Decode(bs).Some?
    ensures Utf8Encode(Utf8Decode(bs).value) == Some(bs)
    decreases |bs|
  {
    if bs != [] {
      var (c, n) := DecodeFirst(bs).value;
      EncodeDecodedFirst(bs);
      EncodeDecoded(bs[n..]);
      var rest := Utf8Decode(bs[n..]).value;
      ConsSurrogates(c, rest);
      assert ([c] + rest)[1..] == rest;
      assert bs == bs[..n] + bs[n..];
    }
  }

  lemma {:induction false} EncodeConcat(a: Text, b: Text)
    ensures EncodeAll(a + b) == EncodeAll(a) + EncodeAll(b)
  {
    if a == [] {
      assert a + b == b;
    } else {
      EncodeConcat(a[1..], b);
      assert (a + b)[1..] == a[1..] + b;
    }
  }

  lemma {:induction false} EncodeInjective(a: Text, b: Text)
    requires Utf8Encode(a).Some? && Utf8Encode(a) == Utf8Encode(b)
    ensures a == b
  {
    DecodeEncoded(a);
    DecodeEncoded(b);
  }

  /** ASCII text is its own UTF-8 form. */
  lemma {:induction false} EncodeAscii(t: Text)
    requires forall i :: 0 <= i < |t| ==> t[i] < 0x80
    ensures Utf8Encode(t) == Some(t)
  {
    if t != [] {
      EncodeAscii(t[1..]);
      assert t == [t[0]] + t[1..];
    }
  }
}
