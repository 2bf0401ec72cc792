/**
 What a passed verification of the opened path observed, call by call, and when a source is
 confirmed absent (mmi/source_capture.py).
 */
module CaptureAbsence {
  import opened Outcomes
  import opened Descriptors
  import opened CaptureProtocol
  import opened CaptureLaws

  // ----- the verification of the path passes exactly when nothing moved -----

  /** The two calls from t on, by name and by descriptor, both show this directory. */
  predicate DirectoryUnmoved(o: Oracle, mark: Witness, t: nat) {
    && o.stat(t).Ok? && SameDirectory(o.stat(t).value, mark)
    && o.fstat(t + 1).Some? && SameDirectory(o.fstat(t + 1).value, mark)
  }

  /** They show the component as recorded: a directory the same one, a regular file the same in everything. */
  predicate Unmoved(o: Oracle, c: Component, t: nat) {
    if c.directory then DirectoryUnmoved(o, c.mark, t)
    else c.mark.kind.RegularFile? && o.stat(t) == Ok(c.mark) && o.fstat(t + 1) == Some(c.mark)
  }

  /** Every component from k on, two calls each. */
  predicate FromUnmoved(o: Oracle, components: seq<Component>, k: nat, t: nat)
    requires k <= |components|
    decreases |components| - k
  {
    k == |components| || (Unmoved(o, components[k], t) && FromUnmoved(o, components, k + 1, t + 2))
  }

  lemma VerdictUnmoved(o: Oracle, c: Component, t: nat)
    ensures Steady(VerdictAt(o, c, t)) <==> Unmoved(o, c, t)
  {
  }

  lemma BothSteady(a: Verdict, b: Verdict)
    ensures Steady(Both(a, b)) <==> Steady(a) && Steady(b)
  {
  }

  lemma {:induction false} VerdictsUnmoved(o: Oracle, components: seq<Component>, k: nat, t: nat, verdict: Verdict)
    requires k <= |components|
    ensures Steady(VerdictsFrom(o, components, k, t, verdict)) <==> Steady(verdict) && FromUnmoved(o, components, k, t)
    decreases |components| - k
  {
    if k < |components| {
      var one := VerdictAt(o, components[k], t);
      VerdictUnmoved(o, components[k], t);
      BothSteady(verdict, one);
      VerdictsUnmoved(o, components, k + 1, t + 2, Both(verdict, one));
    }
  }

  lemma {:induction false} EachUnmoved(o: Oracle, components: seq<Component>, k: nat, t: nat)
    requires k <= |components|
    ensures FromUnmoved(o, components, k, t)
            <==> forall m :: k <= m < |components| ==> Unmoved(o, components[m], t + 2 * (m - k))
    decreases |components| - k
  {
    if k < |components| {
      EachUnmoved(o, components, k + 1, t + 2);
      forall m | k < m < |components|
        ensures Unmoved(o, components[m], t + 2 + 2 * (m - (k + 1))) <==> Unmoved(o, components[m], t + 2 * (m - k))
      {
        assert t + 2 + 2 * (m - (k + 1)) == t + 2 * (m - k);
      }
    }
  }

  /** The root at t, and then the components, the m-th one at its own pair of calls. */
  predicate PathUnmoved(o: Oracle, root: Root, components: seq<Component>, t: nat) {
    && DirectoryUnmoved(o, root.mark, t)
    && forall m :: 0 <= m < |components| ==> Unmoved(o, components[m], t + 2 + 2 * m)
  }

  lemma PathByCalls(o: Oracle, root: Root, components: seq<Component>, t: nat)
    ensures PathUnmoved(o, root, components, t)
       <==> DirectoryUnmoved(o, root.mark, t) && FromUnmoved(o, components, 0, t + 2)
  {
    EachUnmoved(o, components, 0, t + 2);
    assert forall m :: 0 <= m < |components| ==>
      (Unmoved(o, components[m], t + 2 + 2 * (m - 0)) <==> Unmoved(o, components[m], t + 2 + 2 * m));
  }

  function RootVerdict(o: Oracle, root: Root, t: nat): Verdict {
    Verdict(!DirectoryUnmoved(o, root.mark, t), false)
  }

  lemma RootByTime(o: Oracle, s: State, root: Root)
    ensures ObserveRoot(o, s, root).1 == RootVerdict(o, root, s.time)
    ensures ObserveRoot(o, s, root).0.time == s.time + 2
  {
  }

  lemma VerifyByTime(o: Oracle, s: State, root: Root)
    ensures VerifyPath(o, s, root).outcome.Ok?
       <==> Steady(VerdictsFrom(o, s.components, 0, s.time + 2, RootVerdict(o, root, s.time)))
    ensures VerifyPath(o, s, root).state.time == s.time + 2 + 2 * |s.components|
  {
    RootByTime(o, s, root);
  }

  lemma NothingMoved(o: Oracle, root: Root, components: seq<Component>, t: nat)
    ensures Steady(VerdictsFrom(o, components, 0, t + 2, RootVerdict(o, root, t)))
            <==> PathUnmoved(o, root, components, t)
  {
    VerdictsUnmoved(o, components, 0, t + 2, RootVerdict(o, root, t));
    PathByCalls(o, root, components, t);
  }

  /** The verification passes exactly when root and components all show what was recorded of them. */
  lemma VerifyPathExactly(o: Oracle, s: State, root: Root)
    ensures VerifyPath(o, s, root).outcome.Ok? <==> PathUnmoved(o, root, s.components, s.time)
    ensures VerifyPath(o, s, root).state.time == s.time + 2 + 2 * |s.components|
  {
    VerifyByTime(o, s, root);
    NothingMoved(o, root, s.components, s.time);
  }

  // ----- confirmed absence -----

  /** The last components are directories, one for each parent of the leaf. */
  predicate ParentsOpened(c: Config, components: seq<Component>) {
    && 1 <= |c.path| <= |components| + 1
    && forall m :: |components| - (|c.path| - 1) <= m < |components| ==> components[m].directory
  }

  /** Where the leaf is first looked for: the context trusted, the parents opened, markers and module bound. */
  function TrustedParents(o: Oracle, c: Config): Option<(State, Root)>
    requires c.path != []
  {
    var context := OpenContext(o, START, c.root, c.production, c.markers);
    if context.outcome.Err? then None
    else
      var parents := OpenDirectories(o, context.state, c.path[..|c.path| - 1], ParentDirectoryMissing, false);
      if parents.outcome.Err? then None
      else
        var trusted := MarkersAndModule(o, parents.state, c, context.outcome.value);
        if trusted.outcome.Err? then None else Some((trusted.state, context.outcome.value.root))
  }

  lemma ParentsAreOpened(o: Oracle, c: Config)
    requires c.path != [] && TrustedParents(o, c).Some?
    ensures ParentsOpened(c, TrustedParents(o, c).value.0.components)
  {
    var context := OpenContext(o, START, c.root, c.production, c.markers);
    var parents := OpenDirectories(o, context.state, c.path[..|c.path| - 1], ParentDirectoryMissing, false);
    assert DirectoriesAfter(context.state.components, parents.state.components, |c.path| - 1);
    assert TrustedParents(o, c).value.0.components == parents.state.components;
  }

  /** The leaf is not there, nothing on the path has moved, and the leaf is not there again. */
  predicate AbsentAround(o: Oracle, s: State, root: Root) {
    && o.stat(s.time) == Err(NoEntry)
    && PathUnmoved(o, root, s.components, s.time + 1)
    && o.stat(s.time + 3 + 2 * |s.components|) == Err(NoEntry)
  }

  lemma AbsentTwiceExactly(o: Oracle, s: State, root: Root)
    ensures AbsentTwice(o, s, root).outcome.Ok? <==> AbsentAround(o, s, root)
  {
    VerifyPathExactly(o, RequireAbsent(o, s).state, root);
  }

  lemma AbsenceBodyFrom(o: Oracle, c: Config)
    requires c.path != []
    ensures if TrustedParents(o, c).None? then AbsenceBody(o, c).outcome.Err?
            else AbsenceBody(o, c) == AbsentTwice(o, TrustedParents(o, c).value.0, TrustedParents(o, c).value.1)
  {
  }

  lemma FinishedOk<T>(o: Oracle, body: Step<T>)
    ensures Finish(o, body).outcome.Ok? <==> body.outcome.Ok? && !SomeCloseFails(o, body.state)
  {
    ClosingNeverMasks(o, body);
  }

  /**
   A source is confirmed absent exactly when the trusted parents are reached, the leaf is not there,
   the root and every component opened so far are then still what they were, the leaf is not there
   after that either, and every descriptor closes. Each parent is one of those components.
   */
  lemma ConfirmedAbsentExactly(o: Oracle, c: Config)
    requires c.primitives && c.path != [] && forall i :: 0 <= i < |c.path| ==> !BadComponent(c.path[i])
    ensures ObserveAbsence(o, c).outcome.Ok?
       <==> && TrustedParents(o, c).Some?
            && AbsentAround(o, TrustedParents(o, c).value.0, TrustedParents(o, c).value.1)
            && !SomeCloseFails(o, AbsenceBody(o, c).state)
    ensures TrustedParents(o, c).Some? ==> ParentsOpened(c, TrustedParents(o, c).value.0.components)
  {
    FinishedOk(o, AbsenceBody(o, c));
    AbsenceBodyFrom(o, c);
    if TrustedParents(o, c).Some? {
      ParentsAreOpened(o, c);
      AbsentTwiceExactly(o, TrustedParents(o, c).value.0, TrustedParents(o, c).value.1);
    }
  }
}
