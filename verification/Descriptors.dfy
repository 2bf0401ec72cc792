/** Facts about descriptors and their closing, for every reader that retains them in a list. */
module Descriptors {
  type Fd = nat

  lemma {:induction false} IncreasingCountedOnce(fds: seq<Fd>, fd: Fd)
    requires forall i, j :: 0 <= i < j < |fds| ==> fds[i] < fds[j]
    ensures multiset(fds)[fd] == if fd in fds then 1 else 0
  {
    if fds != [] {
      var front, last := fds[..|fds| - 1], fds[|fds| - 1];
      IncreasingCountedOnce(front, fd);
      assert fds == front + [last];
      assert last !in front;
    }
  }

  /** What was opened is what was closed, each descriptor exactly once. */
  ghost predicate ClosedOnce(opens: seq<Fd>, closes: seq<Fd>) {
    && (forall fd :: fd in opens ==> multiset(closes)[fd] == 1)
    && (forall fd :: fd in closes ==> fd in opens)
    && |closes| == |opens|
  }

  lemma NothingRetained(opens: seq<Fd>, closes: seq<Fd>)
    requires multiset(opens) == multiset(closes) && forall i, j :: 0 <= i < j < |opens| ==> opens[i] < opens[j]
    ensures ClosedOnce(opens, closes)
  {
    forall fd | fd in opens ensures multiset(closes)[fd] == 1 {
      IncreasingCountedOnce(opens, fd);
    }
    assert forall fd :: fd in closes <==> fd in multiset(closes);
    assert |multiset(opens)| == |multiset(closes)|;
  }

  /** One of the calls from a time on, so many of them, fails to close. */
  predicate AnyFails(close: nat -> bool, from: nat, count: nat) {
    exists t: nat :: from <= t < from + count && !close(t)
  }

  lemma FirstOrLater(close: nat -> bool, from: nat, count: nat)
    requires count > 0
    ensures AnyFails(close, from, count) <==> !close(from) || AnyFails(close, from + 1, count - 1)
  {
  }
}
