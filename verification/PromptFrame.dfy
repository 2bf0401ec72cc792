/**
 The length-framed prompt around one canonical evidence view (mmi/grounded_prompt_v2.py):
 rendering it and reading the view back out.
 */
module PromptFrame {
  import opened Outcomes
  import opened Digits
  import opened Texts
  import opened JsonValues
  import opened JsonText
  import opened JsonRoundTrip
  import opened Canonical

  const MAXIMUM_GROUNDED_PROMPT_TEXT_BYTES: nat := 65_536
  const NEWLINE: Byte := 10
  const LINE_END: Bytes := [NEWLINE]

  /** The prompt prose around the binding and the frame; what it says does not matter here. */
  datatype Layout = Layout(prefix: Text, between: Text, suffix: Text)

  /** Code-owned constants and a hexadecimal binding always encode. */
  predicate Encodable(l: Layout, binding: Text) {
    !HasSurrogate(l.prefix) && !HasSurrogate(binding) && !HasSurrogate(l.between) && !HasSurrogate(l.suffix)
  }

  // ----- the frame, in bytes -----

  /** Index of the first newline at or after start, or -1. */
  function FindNewline(bs: Bytes, start: nat): (i: int)
    requires start <= |bs|
    ensures i == -1 || start <= i < |bs|
    ensures i >= 0 ==> bs[i] == NEWLINE && forall k :: start <= k < i ==> bs[k] != NEWLINE
    ensures i == -1 ==> forall k :: start <= k < |bs| ==> bs[k] != NEWLINE
    decreases |bs| - start
  {
    if start == |bs| then -1
    else if bs[start] == NEWLINE then start
    else FindNewline(bs, start + 1)
  }

  predicate IsLength(bs: Bytes) {
    bs != [] && (|bs| == 1 || bs[0] != 48) && forall i :: 0 <= i < |bs| ==> IsDigit(bs[i])
  }

  function Frame(evidence: Bytes, head: Bytes, tail: Bytes): Bytes {
    head + DigitText(Numeral(|evidence|)) + LINE_END + evidence + tail
  }

  /** The framed bytes: exactly as many as the length line says, followed by exactly the tail. */
  function Unframe(bs: Bytes, head: Bytes, tail: Bytes): Option<Bytes> {
    if !(head <= bs) then None
    else
      var end := FindNewline(bs, |head|);
      if end < 0 then None
      else
        var length := bs[|head|..end];
        if !IsLength(length) then None
        else
          var size := Number(DigitsOf(length));
          var start := end + 1;
          if size < 1 || start + size > |bs| || bs[start + size..] != tail then None
          else Some(bs[start..start + size])
  }

  lemma FramedLength(evidence: Bytes)
    ensures IsLength(DigitText(Numeral(|evidence|)))
    ensures Number(DigitsOf(DigitText(Numeral(|evidence|)))) == |evidence|
  {
    NumeralShape(|evidence|);
    NumberOfNumeral(|evidence|);
    DigitsOfText(Numeral(|evidence|));
  }

  lemma UnframeFrame(evidence: Bytes, head: Bytes, tail: Bytes)
    requires evidence != []
    ensures Unframe(Frame(evidence, head, tail), head, tail) == Some(evidence)
  {
    var length := DigitText(Numeral(|evidence|));
    var bs := Frame(evidence, head, tail);
    FramedLength(evidence);
    var end := |head| + |length|;
    assert forall k :: 0 <= k < |length| ==> bs[|head| + k] == length[k];
    assert bs[end] == NEWLINE;
    assert FindNewline(bs, |head|) == end;
    assert bs[|head|..end] == length;
    assert bs[end + 1 + |evidence|..] == tail;
    assert bs[end + 1..end + 1 + |evidence|] == evidence;
  }

  /** A length line is the one numeral of its number. */
  lemma LengthLine(length: Bytes)
    requires IsLength(length)
    ensures DigitText(Numeral(Number(DigitsOf(length)))) == length
  {
    NumeralOfNumber(DigitsOf(length));
  }

  lemma FrameUnframe(bs: Bytes, head: Bytes, tail: Bytes)
    requires Unframe(bs, head, tail).Some?
    ensures var evidence := Unframe(bs, head, tail).value;
            evidence != [] && Frame(evidence, head, tail) == bs
  {
    var end := FindNewline(bs, |head|);
    var length := bs[|head|..end];
    var evidence := Unframe(bs, head, tail).value;
    LengthLine(length);
    assert |evidence| == Number(DigitsOf(length));
    Pieces(bs, head, end, end + 1 + |evidence|);
  }

  lemma Pieces(bs: Bytes, head: Bytes, end: nat, last: nat)
    requires head <= bs && |head| <= end < last <= |bs| && bs[end] == NEWLINE
    ensures bs == head + bs[|head|..end] + LINE_END + bs[end + 1..last] + bs[last..]
  {
  }

  // ----- rendering and reading -----

  /** Everything up to the length line. */
  function Head(l: Layout, binding: Text): Bytes {
    EncodeAll(l.prefix + binding) + EncodeAll(l.between)
  }

  /** Everything before the evidence. */
  function Opening(l: Layout, binding: Text, size: nat): Text {
    l.prefix + binding + l.between + DigitText(Numeral(size)) + LINE_END
  }

  function PromptText(l: Layout, binding: Text, size: nat, evidence: Text): Text {
    Opening(l, binding, size) + evidence + l.suffix
  }

  function RenderPrompt(l: Layout, view: seq<Member>, binding: Text): Option<Text> {
    match CanonicalJsonBytes(Obj(view), MAXIMUM_CANONICAL_JSON_BYTES)
    case Err(_) => None
    case Ok(evidence) =>
      match Utf8Decode(evidence)
      case None => None
      case Some(evidenceText) =>
        var text := PromptText(l, binding, |evidence|, evidenceText);
        match Utf8Encode(text)
        case None => None
        case Some(bytes) => if |bytes| > MAXIMUM_GROUNDED_PROMPT_TEXT_BYTES then None else Some(text)
  }

  function EmbeddedView(l: Layout, prompt: Text, binding: Text): Option<seq<Member>> {
    match Utf8Encode(prompt)
    case None => None
    case Some(bytes) =>
      if prompt == [] || |bytes| > MAXIMUM_GROUNDED_PROMPT_TEXT_BYTES then None
      else
        match Unframe(bytes, Head(l, binding), EncodeAll(l.suffix))
        case None => None
        case Some(evidence) =>
          match LoadBytes(evidence, true)
          case Bad => None
          case Parsed(parsed, _) =>
            if CanonicalJsonBytes(parsed, MAXIMUM_CANONICAL_JSON_BYTES) == Ok(evidence) && parsed.Obj?
            then Some(parsed.members) else None
  }

  lemma EncodeJoin(a: Text, aBytes: Bytes, b: Text, bBytes: Bytes)
    requires Utf8Encode(a) == Some(aBytes) && Utf8Encode(b) == Some(bBytes)
    ensures Utf8Encode(a + b) == Some(aBytes + bBytes)
  {
    EncodeConcat(a, b);
    forall i | 0 <= i < |a + b| ensures !IsSurrogate((a + b)[i]) {
      assert (a + b)[i] == if i < |a| then a[i] else b[i - |a|];
    }
  }

  lemma OpeningBytes(l: Layout, binding: Text, size: nat)
    requires Encodable(l, binding)
    ensures Utf8Encode(Opening(l, binding, size)) == Some(Head(l, binding) + DigitText(Numeral(size)) + LINE_END)
  {
    var opening := l.prefix + binding;
    var length := DigitText(Numeral(size));
    EncodeJoin(l.prefix, EncodeAll(l.prefix), binding, EncodeAll(binding));
    EncodeJoin(opening, EncodeAll(opening), l.between, EncodeAll(l.between));
    EncodeAscii(length);
    EncodeJoin(opening + l.between, Head(l, binding), length, length);
    EncodeAscii(LINE_END);
    EncodeJoin(opening + l.between + length, Head(l, binding) + length, LINE_END, LINE_END);
  }

  /** The rendered text, with the evidence as text, is the frame around the evidence bytes. */
  lemma RenderedBytes(l: Layout, binding: Text, evidence: Bytes, evidenceText: Text)
    requires Encodable(l, binding) && Utf8Decode(evidence) == Some(evidenceText)
    ensures Utf8Encode(PromptText(l, binding, |evidence|, evidenceText))
              == Some(Frame(evidence, Head(l, binding), EncodeAll(l.suffix)))
  {
    var start := Opening(l, binding, |evidence|);
    var startBytes := Head(l, binding) + DigitText(Numeral(|evidence|)) + LINE_END;
    OpeningBytes(l, binding, |evidence|);
    EncodeDecoded(evidence);
    EncodeJoin(start, startBytes, evidenceText, evidence);
    EncodeJoin(start + evidenceText, startBytes + evidence, l.suffix, EncodeAll(l.suffix));
  }

  lemma CanonicalNonempty(v: Json, maximumBytes: int)
    requires WellFormed(v) && CanonicalJsonBytes(v, maximumBytes).Ok?
    ensures CanonicalJsonBytes(v, maximumBytes).value != []
  {
    CanonicalReloads(v, maximumBytes, true);
  }

  /**
   Reading a rendered prompt returns the very view rendered, whatever its text contains,
   the frame markers included.
   */
  lemma ReadRendered(l: Layout, view: seq<Member>, binding: Text)
    requires Encodable(l, binding) && WellFormed(Obj(view))
    requires RenderPrompt(l, view, binding).Some?
    ensures EmbeddedView(l, RenderPrompt(l, view, binding).value, binding) == Some(Normal(Obj(view)).members)
  {
    var canonical := CanonicalJsonBytes(Obj(view), MAXIMUM_CANONICAL_JSON_BYTES);
    var evidence := canonical.value;
    var head, tail := Head(l, binding), EncodeAll(l.suffix);
    CanonicalReloads(Obj(view), MAXIMUM_CANONICAL_JSON_BYTES, true);
    CanonicalNonempty(Obj(view), MAXIMUM_CANONICAL_JSON_BYTES);
    RenderedBytes(l, binding, evidence, Utf8Decode(evidence).value);
    UnframeFrame(evidence, head, tail);
    DetachedIsCanonical(Obj(view), MAXIMUM_CANONICAL_JSON_BYTES, MAXIMUM_CANONICAL_JSON_BYTES);
  }

  /** Every prompt text the reader accepts is, to the last byte, the rendering of what it returns. */
  lemma RenderRead(l: Layout, prompt: Text, binding: Text)
    requires Encodable(l, binding)
    requires EmbeddedView(l, prompt, binding).Some?
    ensures RenderPrompt(l, EmbeddedView(l, prompt, binding).value, binding) == Some(prompt)
  {
    var bytes := Utf8Encode(prompt).value;
    var head, tail := Head(l, binding), EncodeAll(l.suffix);
    var evidence := Unframe(bytes, head, tail).value;
    FrameUnframe(bytes, head, tail);
    var evidenceText := Utf8Decode(evidence).value;
    RenderedBytes(l, binding, evidence, evidenceText);
    EncodeInjective(PromptText(l, binding, |evidence|, evidenceText), prompt);
  }

  /** So one prompt text carries one view, up to key order. */
  lemma PromptsInjective(l: Layout, v: seq<Member>, w: seq<Member>, binding: Text)
    requires Encodable(l, binding) && WellFormed(Obj(v)) && WellFormed(Obj(w))
    requires RenderPrompt(l, v, binding).Some? && RenderPrompt(l, w, binding).Some?
    ensures RenderPrompt(l, v, binding) == RenderPrompt(l, w, binding) <==> SameValue(Obj(v), Obj(w))
  {
    if RenderPrompt(l, v, binding) == RenderPrompt(l, w, binding) {
      ReadRendered(l, v, binding);
      ReadRendered(l, w, binding);
    } else {
      CanonicalInjective(Obj(v), Obj(w), MAXIMUM_CANONICAL_JSON_BYTES, MAXIMUM_CANONICAL_JSON_BYTES);
    }
    SameValueIsSameNormal(Obj(v), Obj(w));
  }
}
