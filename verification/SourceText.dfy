/** Lines of operator-written text: stripping, splitting and the character classes the table uses. */
module SourceText {

  /** `str.isspace()`, which is also what `\s` matches. */
  predicate IsSpace(c: char) {
    '\t' <= c <= '\r' || '\U{1C}' <= c <= ' ' || c == '\U{85}' || c == '\U{A0}' || c == '\U{1680}'
    || '\U{2000}' <= c <= '\U{200A}' || c == '\U{2028}' || c == '\U{2029}' || c == '\U{202F}' || c == '\U{205F}'
    || c == '\U{3000}'
  }

  function StripLeft(s: string): string {
    if s != "" && IsSpace(s[0]) then StripLeft(s[1..]) else s
  }

  function StripRight(s: string): string {
    if s != "" && IsSpace(s[|s| - 1]) then StripRight(s[..|s| - 1]) else s
  }

  function Strip(s: string): string {
    StripRight(StripLeft(s))
  }

  function Find(s: string, c: char): (i: nat)
    ensures i <= |s| && (i < |s| ==> s[i] == c) && forall k :: 0 <= k < i ==> s[k] != c
  {
    if s == "" || s[0] == c then 0
    else
      var i := Find(s[1..], c);
      assert forall k :: 0 < k < 1 + i ==> s[k] == s[1..][k - 1];
      1 + i
  }

  /** `s.split(c)`: one piece more than there are separators. */
  function Split(s: string, c: char): (pieces: seq<string>)
    ensures |pieces| >= 1
    ensures c !in s <==> |pieces| == 1
    decreases |s|
  {
    var i := Find(s, c);
    if i == |s| then [s] else
      assert s[i] == c;
      [s[..i]] + Split(s[i + 1..], c)
  }

  // ----- lines -----

  /** The characters `str.splitlines` ends a line at. */
  predicate EndsLine(c: char) {
    '\n' <= c <= '\r' || '\U{1C}' <= c <= '\U{1E}' || c == '\U{85}' || c == '\U{2028}' || c == '\U{2029}'
  }

  function FirstLineEnd(s: string): (i: nat)
    ensures i <= |s| && (i < |s| ==> EndsLine(s[i])) && forall k :: 0 <= k < i ==> !EndsLine(s[k])
  {
    if s == "" || EndsLine(s[0]) then 0
    else
      var i := FirstLineEnd(s[1..]);
      assert forall k :: 0 < k < 1 + i ==> s[k] == s[1..][k - 1];
      1 + i
  }

  /** The line end at the front: a carriage return and the newline after it are one. */
  function LineEnd(s: string): (e: string)
    requires s != "" && EndsLine(s[0])
    ensures 1 <= |e| <= |s| && e == s[..|e|]
  {
    if |s| > 1 && s[0] == '\r' && s[1] == '\n' then s[..2] else s[..1]
  }

  /** `text.splitlines()`. */
  function SplitLines(s: string): seq<string>
    decreases |s|
  {
    if s == "" then []
    else
      var i := FirstLineEnd(s);
      if i == |s| then [s] else [s[..i]] + SplitLines(s[i + |LineEnd(s[i..])|..])
  }

  predicate IsLineEnd(e: string) {
    e == "\r\n" || (|e| == 1 && EndsLine(e[0]))
  }

  predicate OneLine(line: string) {
    forall c :: c in line ==> !EndsLine(c)
  }

  function Interleaved(lines: seq<string>, ends: seq<string>): string
    requires |lines| == |ends|
  {
    if lines == [] then "" else lines[0] + ends[0] + Interleaved(lines[1..], ends[1..])
  }

  /** Splitting loses nothing but line ends: put back, they make the text again, and no line holds one. */
  lemma {:induction false} LinesCover(s: string) returns (ends: seq<string>)
    ensures |ends| == |SplitLines(s)| && Interleaved(SplitLines(s), ends) == s
    ensures forall i :: 0 <= i < |ends| ==> IsLineEnd(ends[i]) || (ends[i] == "" && i == |ends| - 1)
    ensures forall i :: 0 <= i < |ends| ==> OneLine(SplitLines(s)[i])
    decreases |s|
  {
    if s == "" {
      return [];
    }
    var i := FirstLineEnd(s);
    if i == |s| {
      ends := [""];
      return;
    }
    var e := LineEnd(s[i..]);
    var rest := s[i + |e|..];
    FirstLine(s);
    var restEnds := LinesCover(rest);
    ends := [e] + restEnds;
    OneLineMore(s[..i], e, SplitLines(rest), restEnds);
  }

  lemma OneLineMore(line: string, e: string, lines: seq<string>, ends: seq<string>)
    requires |lines| == |ends|
    ensures Interleaved([line] + lines, [e] + ends) == line + e + Interleaved(lines, ends)
  {
    assert ([line] + lines)[1..] == lines && ([e] + ends)[1..] == ends;
  }

  lemma CutTwice(s: string, i: nat, j: nat)
    requires i <= j <= |s|
    ensures s == s[..i] + s[i..j] + s[j..] && s[i..][..j - i] == s[i..j]
  {
  }

  lemma FirstLine(s: string)
    requires FirstLineEnd(s) < |s|
    ensures var i, e := FirstLineEnd(s), LineEnd(s[FirstLineEnd(s)..]);
            s == s[..i] + e + s[i + |e|..] && SplitLines(s) == [s[..i]] + SplitLines(s[i + |e|..])
    ensures OneLine(s[..FirstLineEnd(s)])
  {
    var i := FirstLineEnd(s);
    CutTwice(s, i, i + |LineEnd(s[i..])|);
  }

  predicate StartsWith(s: string, prefix: string) {
    |prefix| <= |s| && s[..|prefix|] == prefix
  }

  predicate IsUpper(c: char) { 'A' <= c <= 'Z' }

  predicate IsAsciiLetter(c: char) { 'A' <= c <= 'Z' || 'a' <= c <= 'z' }

  predicate IsAsciiDigit(c: char) { '0' <= c <= '9' }

  /** Case folding as a case-insensitive pattern does it, for the letters that fold into a to z. */
  function Fold(c: char): char {
    if 'A' <= c <= 'Z' then c - 'A' + 'a'
    else if c == '\U{130}' || c == '\U{131}' then 'i'
    else if c == '\U{17F}' then 's'
    else if c == '\U{212A}' then 'k'
    else c
  }

  function FoldAll(s: string): (r: string)
    ensures |r| == |s|
  {
    seq(|s|, i requires 0 <= i < |s| => Fold(s[i]))
  }

  // ----- the patterns of the strict table -----

  predicate IsTicker(s: string) {
    && 1 <= |s| <= 16 && IsUpper(s[0])
    && forall i :: 1 <= i < |s| ==> IsUpper(s[i]) || IsAsciiDigit(s[i]) || s[i] == '.' || s[i] == '-'
  }

  predicate IsStepName(s: string) {
    && 1 <= |s| <= 32 && IsAsciiLetter(s[0])
    && forall i :: 1 <= i < |s| ==> IsAsciiLetter(s[i]) || IsAsciiDigit(s[i]) || s[i] == '_' || s[i] == '-'
  }

  predicate IsTemplateId(s: string) {
    && 1 <= |s| <= 64 && (IsAsciiLetter(s[0]) || IsAsciiDigit(s[0]))
    && forall i :: 1 <= i < |s| ==>
         IsAsciiLetter(s[i]) || IsAsciiDigit(s[i]) || s[i] == '.' || s[i] == '_' || s[i] == '-'
  }

  /** Length of the run before the first white space. */
  function WordLength(s: string): (n: nat)
    ensures n <= |s| && (n < |s| ==> IsSpace(s[n])) && forall i :: 0 <= i < n ==> !IsSpace(s[i])
  {
    if s == "" || IsSpace(s[0]) then 0
    else
      var n := WordLength(s[1..]);
      assert forall k :: 0 < k < 1 + n ==> s[k] == s[1..][k - 1];
      1 + n
  }

  /** A ticker followed by white space or a bar. */
  predicate LooksLikeRow(s: string) {
    exists n :: 1 <= n < |s| && IsTicker(s[..n]) && (IsSpace(s[n]) || s[n] == '|')
  }

  predicate IsFoldedWord(s: string, word: string) {
    |s| >= |word| && FoldAll(s[..|word|]) == word && (|s| == |word| || IsSpace(s[|word|]))
  }

  predicate IsLooseTicker(s: string) {
    && 1 <= |s| <= 16 && 'a' <= Fold(s[0]) <= 'z'
    && forall i :: 1 <= i < |s| ==> 'a' <= Fold(s[i]) <= 'z' || IsAsciiDigit(s[i]) || s[i] == '.' || s[i] == '-'
  }

  /** A ticker in any case, then white space, then the start of a number or a number-like word. */
  predicate LooksLikeMalformedRow(s: string) {
    var n := WordLength(s);
    n < |s| && IsLooseTicker(s[..n])
    && var rest := StripLeft(s[n..]);
    && rest != ""
    && (rest[0] in "-+." || IsAsciiDigit(rest[0]) || IsFoldedWord(rest, "true") || IsFoldedWord(rest, "false")
        || IsFoldedWord(rest, "nan") || IsFoldedWord(rest, "inf"))
  }

  predicate IsDataLike(line: string) {
    var s := Strip(line);
    '|' in s || LooksLikeRow(s) || LooksLikeMalformedRow(s)
  }

  // ----- white space never carries a bar -----

  lemma {:induction false} StripLeftKeeps(s: string, c: char)
    requires !IsSpace(c)
    ensures c in s <==> c in StripLeft(s)
  {
    if s != "" && IsSpace(s[0]) {
      StripLeftKeeps(s[1..], c);
      assert s == [s[0]] + s[1..];
    }
  }

  lemma {:induction false} StripRightKeeps(s: string, c: char)
    requires !IsSpace(c)
    ensures c in s <==> c in StripRight(s)
  {
    if s != "" && IsSpace(s[|s| - 1]) {
      StripRightKeeps(s[..|s| - 1], c);
      assert s == s[..|s| - 1] + [s[|s| - 1]];
    }
  }

  lemma StripKeepsBar(s: string)
    ensures '|' in s <==> '|' in Strip(s)
  {
    StripLeftKeeps(s, '|');
    StripRightKeeps(StripLeft(s), '|');
  }

  /** A blank line is not data-like; a line of more than one field is. */
  lemma DataLikeLines(line: string)
    ensures Strip(line) == "" ==> !IsDataLike(line)
    ensures |Split(line, '|')| > 1 ==> IsDataLike(line)
  {
    StripKeepsBar(line);
  }
}
