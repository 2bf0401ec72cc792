/**
 Finding the first balanced JSON object in free-form text
 (`extract_first_balanced_json` in parsers/extract_research_json.py).
 */
module BraceScanner {
  import opened Outcomes
  import opened Digits
  import opened Texts
  import opened JsonValues
  import opened JsonText
  import opened JsonRoundTrip

  datatype State = State(depth: nat, inString: bool, escape: bool)

  const START: State := State(0, false, false)

  /** The closing brace that ends the run. */
  predicate Closes(st: State, c: CodePoint) {
    !st.inString && c == RBRACE && st.depth == 1
  }

  function Step(st: State, c: CodePoint): State {
    if st.inString then
      if st.escape then st.(escape := false)
      else if c == BACKSLASH then st.(escape := true)
      else if c == QUOTE then st.(inString := false)
      else st
    else if c == QUOTE then st.(inString := true)
    else if c == LBRACE then st.(depth := st.depth + 1)
    else if c == RBRACE && st.depth > 0 then st.(depth := st.depth - 1)
    else st
  }

  // ----- what a balanced run is -----

  /** The scanner's state after reading t from st. */
  function Fold(st: State, t: Text): State {
    if t == [] then st else Step(Fold(st, t[..|t| - 1]), t[|t| - 1])
  }

  /** Reading t from st meets the closing brace of the run nowhere. */
  predicate Open(st: State, t: Text) {
    forall k :: 0 <= k < |t| ==> !Closes(Fold(st, t[..k]), t[k])
  }

  /** From an opening brace at s, the first brace to bring the depth back to zero is at e. */
  predicate BalancedRun(text: Text, s: int, e: int) {
    && 0 <= s < e < |text| && text[s] == LBRACE
    && Open(START, text[s..e])
    && Closes(Fold(START, text[s..e]), text[e])
  }

  /** The run from s to e is balanced, and no run opens before it at or after start. */
  ghost predicate FirstRun(text: Text, start: int, s: int, e: int) {
    && start <= s && BalancedRun(text, s, e)
    && forall x, y :: start <= x < s ==> !BalancedRun(text, x, y)
  }

  // ----- the scan -----

  /** `text.find(c, start)`. */
  function Find(text: Text, c: CodePoint, start: nat): (i: int)
    ensures i == -1 || start <= i < |text|
    ensures i >= 0 ==> text[i] == c && forall k :: start <= k < i ==> text[k] != c
    ensures i == -1 ==> forall k :: start <= k < |text| ==> text[k] != c
    decreases |text| - start
  {
    if start >= |text| then -1
    else if text[start] == c then start
    else Find(text, c, start + 1)
  }

  /** Index of the brace that closes the run scanned so far, or -1. */
  function RunEnd(text: Text, k: nat, st: State): (e: int)
    requires k <= |text|
    ensures e == -1 || k <= e < |text|
    decreases |text| - k
  {
    if k == |text| then -1
    else if Closes(st, text[k]) then k
    else RunEnd(text, k + 1, Step(st, text[k]))
  }

  function ExtractFrom(text: Text, start: nat): Option<Text>
    decreases |text| - start
  {
    var s := Find(text, LBRACE, start);
    if s < 0 then None
    else
      var e := RunEnd(text, s, START);
      if e >= 0 then Some(text[s..e + 1]) else ExtractFrom(text, s + 1)
  }

  lemma ExtractAtBrace(text: Text, start: nat)
    requires start < |text| && text[start] == LBRACE
    ensures var e := RunEnd(text, start, START);
            ExtractFrom(text, start) == if e >= 0 then Some(text[start..e + 1]) else ExtractFrom(text, start + 1)
  {
    assert Find(text, LBRACE, start) == start;
  }

  lemma ExtractSkips(text: Text, start: nat)
    ensures var s := Find(text, LBRACE, start);
            ExtractFrom(text, start) == if s == -1 then None else ExtractFrom(text, s)
  {
  }

  method ExtractFirstBalancedJson(text: Text) returns (r: Option<Text>)
    ensures r == ExtractFrom(text, 0)
  {
    var start := Find(text, LBRACE, 0);
    ExtractSkips(text, 0);
    while start != -1
      invariant start == -1 || (0 <= start < |text| && text[start] == LBRACE)
      invariant ExtractFrom(text, 0) == if start == -1 then None else ExtractFrom(text, start)
      decreases if start == -1 then 0 else |text| - start
    {
      ExtractAtBrace(text, start);
      var depth: int, inString, escape := 0, false, false;
      var index := start;
      while index < |text|
        invariant start <= index <= |text|
        invariant depth >= 0 && (index > start ==> depth > 0) && (escape ==> inString)
        invariant index == start ==> depth == 0 && !inString
        invariant RunEnd(text, start, START) == RunEnd(text, index, State(depth, inString, escape))
      {
        var c := text[index];
        ghost var before := State(depth, inString, escape);
        if inString {
          if escape {
            escape := false;
          } else if c == BACKSLASH {
            escape := true;
          } else if c == QUOTE {
            inString := false;
          }
        } else if c == QUOTE {
          inString := true;
        } else if c == LBRACE {
          depth := depth + 1;
        } else if c == RBRACE {
          depth := depth - 1;
          if depth == 0 {
            return Some(text[start..index + 1]);
          }
        }
        assert !Closes(before, c) && Step(before, c) == State(depth, inString, escape);
        index := index + 1;
      }
      ExtractSkips(text, start + 1);
      start := Find(text, LBRACE, start + 1);
    }
    return None;
  }

  // ----- the scan finds exactly the first balanced run -----

  lemma FoldOne(st: State, t: Text, c: CodePoint)
    ensures Fold(st, t + [c]) == Step(Fold(st, t), c)
  {
    assert (t + [c])[..|t|] == t;
  }

  lemma OpenOne(st: State, t: Text, c: CodePoint)
    ensures Open(st, t + [c]) <==> Open(st, t) && !Closes(Fold(st, t), c)
  {
    var u := t + [c];
    assert u[..|t|] == t;
    assert forall k :: 0 <= k < |t| ==> u[..k] == t[..k];
    if Open(st, u) {
      forall k | 0 <= k < |t| ensures !Closes(Fold(st, t[..k]), t[k]) {
        assert !Closes(Fold(st, u[..k]), u[k]);
      }
      assert !Closes(Fold(st, u[..|t|]), u[|t|]);
    }
  }

  lemma RunOne(text: Text, s: nat, k: nat)
    requires s <= k < |text|
    ensures Fold(START, text[s..k + 1]) == Step(Fold(START, text[s..k]), text[k])
    ensures Open(START, text[s..k + 1]) <==> Open(START, text[s..k]) && !Closes(Fold(START, text[s..k]), text[k])
  {
    var t: Text, u: Text := text[s..k], text[s..k + 1];
    SliceOne(text, s, k);
    FoldOne(START, t, text[k]);
    OpenOne(START, t, text[k]);
  }

  lemma SliceOne(text: Text, s: nat, k: nat)
    requires s <= k < |text|
    ensures text[s..k + 1] == text[s..k] + [text[k]]
  {
  }

  /** RunEnd continued from any point of an open scan is the same end. */
  lemma {:induction false} RunEndExactly(text: Text, s: nat, k: nat)
    requires s <= k <= |text| && Open(START, text[s..k])
    ensures var e := RunEnd(text, k, Fold(START, text[s..k]));
            && (e >= 0 ==> Open(START, text[s..e]) && Closes(Fold(START, text[s..e]), text[e]))
            && (e == -1 ==> Open(START, text[s..|text|]))
    decreases |text| - k
  {
    if k < |text| {
      RunOne(text, s, k);
      if !Closes(Fold(START, text[s..k]), text[k]) {
        RunEndExactly(text, s, k + 1);
      }
    }
  }

  lemma OpenAt(text: Text, s: nat, e: nat, k: nat)
    requires s <= k < e <= |text| && Open(START, text[s..e])
    ensures !Closes(Fold(START, text[s..k]), text[k])
  {
    assert text[s..e][..k - s] == text[s..k] && text[s..e][k - s] == text[k];
  }

  /** A run from s is unique, and RunEnd is where it ends. */
  lemma RunEndIsBalanced(text: Text, s: nat)
    requires s < |text| && text[s] == LBRACE
    ensures var e := RunEnd(text, s, START);
            && (e >= 0 ==> BalancedRun(text, s, e))
            && (e == -1 ==> forall x :: !BalancedRun(text, s, x))
  {
    var e := RunEnd(text, s, START);
    assert text[s..s] == [];
    RunEndExactly(text, s, s);
    if e >= 0 {
      assert e != s by {
        assert !Closes(START, LBRACE);
      }
    } else {
      forall x ensures !BalancedRun(text, s, x) {
        if s < x < |text| {
          OpenAt(text, s, |text|, x);
        }
      }
    }
  }

  lemma {:induction false} ExtractFromExactly(text: Text, start: nat)
    ensures match ExtractFrom(text, start)
            case None => forall s, e :: start <= s ==> !BalancedRun(text, s, e)
            case Some(t) => exists s, e :: FirstRun(text, start, s, e) && t == text[s..e + 1]
    decreases |text| - start
  {
    var s := Find(text, LBRACE, start);
    if s >= 0 {
      RunEndIsBalanced(text, s);
      var e := RunEnd(text, s, START);
      if e >= 0 {
        assert FirstRun(text, start, s, e);
      } else {
        ExtractFromExactly(text, s + 1);
        assert forall x, y :: start <= x <= s ==> !BalancedRun(text, x, y);
        if ExtractFrom(text, s + 1).Some? {
          var s', e' :| FirstRun(text, s + 1, s', e') && ExtractFrom(text, s + 1).value == text[s'..e' + 1];
          assert FirstRun(text, start, s', e');
        }
      }
    }
  }

  /**
   The result is the earliest balanced run, brace to brace; there is none exactly when no
   opening brace starts one.
   */
  lemma ExtractExactly(text: Text)
    ensures ExtractFrom(text, 0) == None <==> forall s, e :: !BalancedRun(text, s, e)
    ensures ExtractFrom(text, 0).Some? ==>
              exists s, e :: FirstRun(text, 0, s, e) && ExtractFrom(text, 0).value == text[s..e + 1]
  {
    ExtractFromExactly(text, 0);
  }

  // ----- scanning its own result again -----

  lemma {:induction false} RunEndInWindow(text: Text, s: nat, k: nat, e: nat, st: State)
    requires s <= k <= e < |text| && RunEnd(text, k, st) == e
    ensures RunEnd(text[s..e + 1], k - s, st) == e - s
    decreases e - k
  {
    var window := text[s..e + 1];
    assert window[k - s] == text[k];
    if !Closes(st, text[k]) {
      RunEndInWindow(text, s, k + 1, e, Step(st, text[k]));
    }
  }

  lemma {:induction false} ExtractIdempotent(text: Text, start: nat)
    ensures match ExtractFrom(text, start)
            case None => true
            case Some(t) => ExtractFrom(t, 0) == Some(t)
    decreases |text| - start
  {
    var s := Find(text, LBRACE, start);
    if s >= 0 {
      var e := RunEnd(text, s, START);
      if e >= 0 {
        var window := text[s..e + 1];
        RunEndInWindow(text, s, s, e, START);
        assert window[0] == LBRACE && Find(window, LBRACE, 0) == 0;
        assert window[0..e - s + 1] == window;
      } else {
        ExtractIdempotent(text, s + 1);
      }
    }
  }

  // ----- a printed object is recovered whole -----

  /** Reading t from st stays inside the run and comes back to the state after. */
  predicate Passes(st: State, t: Text, after: State) {
    Open(st, t) && Fold(st, t) == after
  }

  lemma {:induction false} FoldConcat(st: State, a: Text, b: Text)
    ensures Fold(st, a + b) == Fold(Fold(st, a), b)
    decreases |b|
  {
    if b == [] {
      assert a + b == a;
    } else {
      var n := |b| - 1;
      FoldConcat(st, a, b[..n]);
      assert (a + b)[..|a + b| - 1] == a + b[..n];
    }
  }

  lemma PassesConcat(st: State, a: Text, mid: State, b: Text, after: State)
    requires Passes(st, a, mid) && Passes(mid, b, after)
    ensures Passes(st, a + b, after)
  {
    FoldConcat(st, a, b);
    var t := a + b;
    forall k | 0 <= k < |t| ensures !Closes(Fold(st, t[..k]), t[k]) {
      if k < |a| {
        assert t[..k] == a[..k];
      } else {
        assert t[..k] == a + b[..k - |a|];
        FoldConcat(st, a, b[..k - |a|]);
      }
    }
  }

  lemma PassesOne(st: State, c: CodePoint)
    requires !Closes(st, c)
    ensures Passes(st, [c], Step(st, c))
  {
    FoldOne(st, [], c);
    assert [] + [c] == [c] && [c][..0] == [];
  }

  /** Text without quotes, braces or backslashes does not move the scanner. */
  lemma {:induction false} PassesPlain(st: State, t: Text)
    requires !st.inString
    requires forall i :: 0 <= i < |t| ==> t[i] != QUOTE && t[i] != LBRACE && t[i] != RBRACE
    ensures Passes(st, t, st)
  {
    if t != [] {
      PassesOne(st, t[0]);
      PassesPlain(st, t[1..]);
      PassesConcat(st, [t[0]], st, t[1..], st);
      assert t == [t[0]] + t[1..];
    }
  }

  lemma {:induction false} PassesEscaped(st: State, s: Text)
    requires st.inString && !st.escape
    ensures Passes(st, EscapeText(s), st)
  {
    if s != [] {
      var e := EscapeCodePoint(s[0]);
      PassesEscape(st, s[0]);
      PassesEscaped(st, s[1..]);
      PassesConcat(st, e, st, EscapeText(s[1..]), st);
    }
  }

  lemma {:induction false} PassesInString(st: State, t: Text)
    requires st.inString && !st.escape
    requires forall i :: 0 <= i < |t| ==> t[i] != QUOTE && t[i] != BACKSLASH
    ensures Passes(st, t, st)
  {
    if t != [] {
      PassesOne(st, t[0]);
      PassesInString(st, t[1..]);
      PassesConcat(st, [t[0]], st, t[1..], st);
      assert t == [t[0]] + t[1..];
    }
  }

  lemma PassesEscape(st: State, c: CodePoint)
    requires st.inString && !st.escape
    ensures Passes(st, EscapeCodePoint(c), st)
  {
    var e := EscapeCodePoint(c);
    if e[0] == BACKSLASH {
      var escaping := st.(escape := true);
      PassesOne(st, BACKSLASH);
      PassesOne(escaping, e[1]);
      PassesConcat(st, [BACKSLASH], escaping, [e[1]], st);
      PassesInString(st, e[2..]);
      PassesConcat(st, [BACKSLASH] + [e[1]], st, e[2..], st);
      assert e == [BACKSLASH] + [e[1]] + e[2..];
    } else {
      PassesInString(st, e);
    }
  }

  lemma PassesString(st: State, s: Text)
    requires !st.inString && !st.escape
    ensures Passes(st, PrintString(s), st)
  {
    var inside := st.(inString := true);
    PassesEscaped(inside, s);
    PassesBetween(st, QUOTE, inside, EscapeText(s), QUOTE);
  }

  /** Inside a run, any printed value leaves the scanner as it found it. */
  lemma {:induction false} PassesValue(depth: nat, v: Json)
    requires depth >= 1 && !HasFloat(v)
    ensures Passes(State(depth, false, false), Print(v), State(depth, false, false))
    decreases v, 2
  {
    var st := State(depth, false, false);
    if v.Arr? {
      PassesItems(depth, v, v.items);
      PassesBetween(st, LBRACKET, st, PrintItems(v.items), RBRACKET);
    } else if v.Obj? {
      PassesMembers(depth + 1, v, v.members);
      PassesBetween(st, LBRACE, State(depth + 1, false, false), PrintMembers(v.members), RBRACE);
    } else {
      PassesScalar(st, v);
    }
  }

  lemma PassesScalar(st: State, v: Json)
    requires !st.inString && !st.escape && !v.Arr? && !v.Obj? && !v.Float?
    ensures Passes(st, Print(v), st)
  {
    match v
    case Null => PassesPlain(st, Print(v));
    case Bool(b) => PassesPlain(st, Print(v));
    case Int(n) => PassesPlain(st, Print(v));
    case Str(s) => PassesString(st, s);
  }

  lemma PassesBetween(st: State, before: CodePoint, inner: State, t: Text, after: CodePoint)
    requires !Closes(st, before) && Step(st, before) == inner
    requires Passes(inner, t, inner)
    requires !Closes(inner, after) && Step(inner, after) == st
    ensures Passes(st, [before] + t + [after], st)
  {
    PassesOne(st, before);
    PassesOne(inner, after);
    PassesConcat(st, [before], inner, t, inner);
    PassesConcat(st, [before] + t, inner, [after], st);
  }

  lemma {:induction false} PassesItems(depth: nat, v: Json, items: seq<Json>)
    requires depth >= 1
    requires forall i :: 0 <= i < |items| ==> !HasFloat(items[i]) && items[i] < v
    ensures Passes(State(depth, false, false), PrintItems(items), State(depth, false, false))
    decreases v, 1, |items|
  {
    var st := State(depth, false, false);
    if |items| == 1 {
      PassesValue(depth, items[0]);
    } else if |items| > 1 {
      PassesValue(depth, items[0]);
      PassesOne(st, COMMA);
      PassesItems(depth, v, items[1..]);
      PassesConcat(st, Print(items[0]), st, [COMMA], st);
      PassesConcat(st, Print(items[0]) + [COMMA], st, PrintItems(items[1..]), st);
    }
  }

  lemma {:induction false} PassesMember(depth: nat, v: Json, m: Member)
    requires depth >= 1 && !HasFloat(m.value) && m.value < v
    ensures Passes(State(depth, false, false), PrintMember(m), State(depth, false, false))
    decreases v, 0
  {
    var st := State(depth, false, false);
    PassesString(st, m.key);
    PassesOne(st, COLON);
    PassesValue(depth, m.value);
    PassesConcat(st, PrintString(m.key), st, [COLON], st);
    PassesConcat(st, PrintString(m.key) + [COLON], st, Print(m.value), st);
  }

  lemma {:induction false} PassesMembers(depth: nat, v: Json, members: seq<Member>)
    requires depth >= 1
    requires forall i :: 0 <= i < |members| ==> !HasFloat(members[i].value) && members[i].value < v
    ensures Passes(State(depth, false, false), PrintMembers(members), State(depth, false, false))
    decreases v, 1, |members|
  {
    var st := State(depth, false, false);
    if |members| == 1 {
      PassesMember(depth, v, members[0]);
    } else if |members| > 1 {
      PassesMember(depth, v, members[0]);
      PassesOne(st, COMMA);
      PassesMembers(depth, v, members[1..]);
      PassesConcat(st, PrintMember(members[0]), st, [COMMA], st);
      PassesConcat(st, PrintMember(members[0]) + [COMMA], st, PrintMembers(members[1..]), st);
    }
  }

  lemma RunInContext(prefix: Text, head: Text, suffix: Text)
    requires head != [] && head[0] == LBRACE && Passes(START, head, State(1, false, false))
    ensures BalancedRun(prefix + (head + [RBRACE]) + suffix, |prefix|, |prefix| + |head|)
  {
    var text := prefix + (head + [RBRACE]) + suffix;
    assert text[|prefix|..|prefix| + |head|] == head;
    assert text[|prefix| + |head|] == RBRACE;
    assert text[|prefix|] == head[0];
  }

  /** A printed object up to its closing brace. */
  function ObjectHead(members: seq<Member>): Text {
    [LBRACE] + PrintMembers(members)
  }

  lemma PassesObjectHead(members: seq<Member>)
    requires !HasFloat(Obj(members))
    ensures Passes(START, ObjectHead(members), State(1, false, false))
  {
    PassesMembers(1, Obj(members), members);
    PassesOne(START, LBRACE);
    PassesConcat(START, [LBRACE], State(1, false, false), PrintMembers(members), State(1, false, false));
  }

  lemma PrintedObjectIsBalanced(prefix: Text, members: seq<Member>, suffix: Text)
    requires !HasFloat(Obj(members))
    ensures BalancedRun(prefix + Print(Obj(members)) + suffix, |prefix|, |prefix| + |Print(Obj(members))| - 1)
  {
    var head := ObjectHead(members);
    PassesObjectHead(members);
    RunInContext(prefix, head, suffix);
    assert Print(Obj(members)) == head + [RBRACE];
  }

  /** After any text without an opening brace, a printed object is extracted exactly. */
  lemma PrintedObjectIsExtracted(prefix: Text, members: seq<Member>, suffix: Text)
    requires forall i :: 0 <= i < |prefix| ==> prefix[i] != LBRACE
    requires !HasFloat(Obj(members))
    ensures ExtractFrom(prefix + Print(Obj(members)) + suffix, 0) == Some(Print(Obj(members)))
  {
    var s := Print(Obj(members));
    var text := prefix + s + suffix;
    PrintedObjectIsBalanced(prefix, members, suffix);
    assert forall i :: 0 <= i < |prefix| ==> text[i] == prefix[i];
    assert Find(text, LBRACE, 0) == |prefix|;
    RunEndIsBalanced(text, |prefix|);
    SameRun(text, |prefix|, RunEnd(text, |prefix|, START), |prefix| + |s| - 1);
    Middle(prefix, s, suffix);
  }

  lemma Middle(a: Text, b: Text, c: Text)
    ensures (a + b + c)[|a|..|a| + |b|] == b
  {
  }

  lemma SameRun(text: Text, s: int, e: int, f: int)
    requires BalancedRun(text, s, e) && BalancedRun(text, s, f)
    ensures e == f
  {
    if e < f {
      OpenAt(text, s, f, e);
    } else if f < e {
      OpenAt(text, s, e, f);
    }
  }
}
