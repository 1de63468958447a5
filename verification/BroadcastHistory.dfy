/** What a run says about a publication: whether it is registered can be told from the steps alone. */
module BroadcastHistory {
  import opened Broadcasts

  // ---- What the steps of a thread say about where it is ----

  /** The thread started `p` and then had the answer `current` to its revalidation. */
  ghost predicate Answered(h: seq<Step>, t: nat, p: Publication, current: bool) {
    exists i, j :: 0 <= i < j < |h| && h[i] == Start(t, p) && h[j] == Revalidate(t, current)
  }

  ghost predicate NeverStarts(h: seq<Step>, t: nat) {
    forall p :: Start(t, p) !in h
  }

  ghost predicate NeverSpawned(h: seq<Step>, t: nat) {
    forall goal :: Spawn(t, goal) !in h
  }

  /** A thread is where its steps have taken it. */
  ghost predicate Traced(h: seq<Step>, t: nat, pc: Pc) {
    match pc
    case Collecting(goal, _) => Spawn(t, goal) in h && NeverStarts(h, t)
    case Sweeping(goal, _) => Spawn(t, goal) in h && NeverStarts(h, t)
    case SweepClosing(goal, _, _) => Spawn(t, goal) in h && NeverStarts(h, t)
    case SweepClosed(goal, _, _) => Spawn(t, goal) in h && NeverStarts(h, t)
    case Checking => Spawn(t, Create) in h && NeverStarts(h, t)
    case Admitted => Spawn(t, Create) in h && NeverStarts(h, t)
    case Started(p) => Spawn(t, Create) in h && Start(t, p) in h
    case Discarding(p) => Spawn(t, Create) in h && Answered(h, t, p, false)
    case Ready(p) => Spawn(t, Create) in h && Answered(h, t, p, true)
    case Removing(key, tenant) => Spawn(t, Delete(key, tenant)) in h && NeverStarts(h, t)
    case _ => true
  }

  /** A thread is spawned once and starts one publication. */
  ghost predicate OneLife(h: seq<Step>, t: nat) {
    && (forall g, g' :: Spawn(t, g) in h && Spawn(t, g') in h ==> g == g')
    && (forall p, q :: Start(t, p) in h && Start(t, q) in h ==> p == q)
  }

  ghost predicate ThreadTraced(h: seq<Step>, s: State, t: nat) {
    && OneLife(h, t)
    && (if t in s.threads then Traced(h, t, s.threads[t]) else NeverSpawned(h, t) && NeverStarts(h, t))
  }

  lemma AnsweredOn(h: seq<Step>, a: Step, t: nat, p: Publication, current: bool)
    requires Answered(h, t, p, current)
    ensures Answered(h + [a], t, p, current)
  {
    var i, j :| 0 <= i < j < |h| && h[i] == Start(t, p) && h[j] == Revalidate(t, current);
    assert (h + [a])[i] == Start(t, p) && (h + [a])[j] == Revalidate(t, current);
  }

  lemma AnsweredNow(h: seq<Step>, t: nat, p: Publication, current: bool)
    requires Start(t, p) in h
    ensures Answered(h + [Revalidate(t, current)], t, p, current)
  {
    var i :| 0 <= i < |h| && h[i] == Start(t, p);
    var g := h + [Revalidate(t, current)];
    assert g[i] == Start(t, p) && g[|h|] == Revalidate(t, current);
  }

  /** Steps of other threads add nothing to what a thread's own say. */
  lemma OthersAddNothing(h: seq<Step>, a: Step, t: nat, pc: Pc)
    requires a.t != t && Traced(h, t, pc)
    ensures Traced(h + [a], t, pc)
  {
    if pc.Discarding? || pc.Ready? {
      AnsweredOn(h, a, t, pc.pub, pc.Ready?);
    }
  }

  lemma OwnStepTraced(h: seq<Step>, s: State, a: Step)
    requires Enabled(s, a) && !a.Spawn? && Traced(h, a.t, s.threads[a.t])
    ensures Traced(h + [a], a.t, Apply(s, a).threads[a.t])
  {
    if a.Revalidate? {
      AnsweredNow(h, a.t, s.threads[a.t].pub, a.current);
    }
  }

  lemma OneLifeOn(h: seq<Step>, s: State, a: Step, t: nat)
    requires Enabled(s, a) && ThreadTraced(h, s, t)
    ensures OneLife(h + [a], t)
  {
    var g := h + [a];
    assert forall goal :: Spawn(t, goal) in g ==> Spawn(t, goal) in h || a == Spawn(t, goal);
    assert forall p :: Start(t, p) in g ==> Start(t, p) in h || a == Start(t, p);
  }

  lemma TraceStep(h: seq<Step>, s: State, a: Step, t: nat)
    requires Enabled(s, a) && ThreadTraced(h, s, t)
    ensures ThreadTraced(h + [a], Apply(s, a), t)
  {
    OneThreadMoves(s, a);
    OneLifeOn(h, s, a, t);
    if a.t == t && !a.Spawn? {
      OwnStepTraced(h, s, a);
    } else if a.t != t && t in s.threads {
      OthersAddNothing(h, a, t, s.threads[t]);
    }
  }

  /** The steps with which a handler returns. */
  predicate Returned(h: seq<Step>, t: nat) {
    GiveUp(t) in h || Discard(t) in h || CountInsert(t) in h || CountDelete(t) in h
  }

  /** Where a thread rests: one that returned is done, a failed delete had a failed close, and an abandoned
      handler was dropped. */
  ghost predicate RestTraced(h: seq<Step>, s: State, t: nat) {
    && (Returned(h, t) ==> t in s.threads && s.threads[t].Done?)
    && (DeleteClose(t, false) in h <==> t in s.threads && s.threads[t].DeleteFailed?)
    && (t in s.threads && (s.threads[t].CloseAbandoned? || s.threads[t].StartAbandoned?) ==> Cancel(t) in h)
  }

  lemma RestStep(h: seq<Step>, s: State, a: Step, t: nat)
    requires Enabled(s, a) && RestTraced(h, s, t)
    ensures RestTraced(h + [a], Apply(s, a), t)
  {
    OneThreadMoves(s, a);
    var g := h + [a];
    assert DeleteClose(t, false) in g <==> DeleteClose(t, false) in h || a == DeleteClose(t, false);
    assert Cancel(t) in g <==> Cancel(t) in h || a == Cancel(t);
    assert Returned(g, t) ==> Returned(h, t) || a in {GiveUp(t), Discard(t), CountInsert(t), CountDelete(t)};
  }

  /** A run without its last step. */
  lemma {:induction false} Before(s: State, h: seq<Step>, a: Step)
    requires Runs(s, h + [a])
    ensures Runs(s, h) && Enabled(Final(s, h), a) && Final(s, h + [a]) == Apply(Final(s, h), a)
    decreases |h|
  {
    var g := h + [a];
    if h == [] {
      assert g[1..] == [];
    } else {
      assert g[0] == h[0] && g[1..] == h[1..] + [a];
      Before(Apply(s, h[0]), h[1..], a);
    }
  }

  lemma {:induction false} EveryThreadTraced(maxActive: nat, h: seq<Step>, t: nat)
    requires Runs(Init(maxActive), h)
    ensures ThreadTraced(h, Final(Init(maxActive), h), t)
    decreases |h|
  {
    if h != [] {
      var n := |h| - 1;
      assert h[..n] + [h[n]] == h;
      Before(Init(maxActive), h[..n], h[n]);
      EveryThreadTraced(maxActive, h[..n], t);
      TraceStep(h[..n], Final(Init(maxActive), h[..n]), h[n], t);
    }
  }

  /** In every run a handler that returned does nothing more, a delete handler rests with the gauge
      uncorrected exactly when its close failed, and only a handler that was dropped leaves a publication
      behind. */
  lemma {:induction false} RestExactly(maxActive: nat, h: seq<Step>, t: nat)
    requires Runs(Init(maxActive), h)
    ensures RestTraced(h, Final(Init(maxActive), h), t)
    decreases |h|
  {
    if h != [] {
      var n := |h| - 1;
      assert h[..n] + [h[n]] == h;
      Before(Init(maxActive), h[..n], h[n]);
      RestExactly(maxActive, h[..n], t);
      RestStep(h[..n], Final(Init(maxActive), h[..n]), h[n], t);
    }
  }

  // ---- What the run says about a publication ----

  /** At step `k` a create handler inserts `p`, which it started and whose revalidation said it was current. */
  ghost predicate PublishedAt(h: seq<Step>, k: nat, t: nat, p: Publication) {
    k < |h| && h[k] == Insert(t) && Spawn(t, Create) in h[..k] && Answered(h[..k], t, p, true)
  }

  /** Step `m` takes `p` out: a sweep of it, or a delete for its key by its own tenant. */
  ghost predicate TakenAt(h: seq<Step>, m: nat, p: Publication) {
    m < |h| && ((h[m].Sweep? && h[m].pub == p) || (h[m].Remove? && Spawn(h[m].t, Delete(p.key, p.tenant)) in h[..m]))
  }

  ghost predicate NotTakenSince(h: seq<Step>, k: nat, p: Publication) {
    forall m: nat :: k < m < |h| ==> !TakenAt(h, m, p)
  }

  /** Inserted, and not taken out since. */
  ghost predicate Remains(h: seq<Step>, p: Publication) {
    exists t: nat, k: nat :: PublishedAt(h, k, t, p) && NotTakenSince(h, k, p)
  }

  lemma PublishedOn(h: seq<Step>, a: Step, k: nat, t: nat, p: Publication)
    requires k < |h|
    ensures PublishedAt(h + [a], k, t, p) <==> PublishedAt(h, k, t, p)
  {
    assert (h + [a])[..k] == h[..k];
  }

  lemma TakenOn(h: seq<Step>, a: Step, m: nat, p: Publication)
    requires m < |h|
    ensures TakenAt(h + [a], m, p) <==> TakenAt(h, m, p)
  {
    assert (h + [a])[..m] == h[..m];
  }

  lemma NotTakenOn(h: seq<Step>, a: Step, k: nat, p: Publication)
    requires k < |h|
    ensures NotTakenSince(h + [a], k, p) <==> NotTakenSince(h, k, p) && !TakenAt(h + [a], |h|, p)
  {
    var g := h + [a];
    forall m: nat | m < |h| ensures TakenAt(g, m, p) <==> TakenAt(h, m, p) {
      TakenOn(h, a, m, p);
    }
    assert NotTakenSince(g, k, p) ==> !TakenAt(g, |h|, p);
  }

  ghost predicate PublishedLast(h: seq<Step>, a: Step, p: Publication) {
    exists t: nat :: PublishedAt(h + [a], |h|, t, p)
  }

  /** One more step: what remains was inserted just now, or remained and was not taken out just now. */
  lemma RemainsBefore(h: seq<Step>, a: Step, p: Publication)
    requires Remains(h + [a], p)
    ensures PublishedLast(h, a, p) || (Remains(h, p) && !TakenAt(h + [a], |h|, p))
  {
    var t: nat, k: nat :| PublishedAt(h + [a], k, t, p) && NotTakenSince(h + [a], k, p);
    if k < |h| {
      PublishedOn(h, a, k, t, p);
      NotTakenOn(h, a, k, p);
    }
  }

  lemma RemainsAfter(h: seq<Step>, a: Step, p: Publication)
    requires PublishedLast(h, a, p) || (Remains(h, p) && !TakenAt(h + [a], |h|, p))
    ensures Remains(h + [a], p)
  {
    if PublishedLast(h, a, p) {
      var t: nat :| PublishedAt(h + [a], |h|, t, p);
      assert NotTakenSince(h + [a], |h|, p);
    } else {
      var t: nat, k: nat :| PublishedAt(h, k, t, p) && NotTakenSince(h, k, p);
      PublishedOn(h, a, k, t, p);
      NotTakenOn(h, a, k, p);
    }
  }

  /** The last step inserts `p` exactly when its thread is ready to. */
  lemma PublishedNow(h: seq<Step>, s: State, a: Step, t: nat, p: Publication)
    requires Enabled(s, a) && ThreadTraced(h, s, a.t)
    ensures PublishedAt(h + [a], |h|, t, p) <==> a == Insert(t) && s.threads[t] == Ready(p)
  {
    assert (h + [a])[..|h|] == h;
    if a.Insert? {
      var q := s.threads[a.t].pub;
      assert Answered(h, a.t, q, true);
      assert Start(a.t, q) in h;
      if Answered(h, a.t, p, true) {
        assert Start(a.t, p) in h;
      }
    }
  }

  lemma PublishedLastExactly(h: seq<Step>, s: State, a: Step, p: Publication)
    requires Enabled(s, a) && ThreadTraced(h, s, a.t)
    ensures PublishedLast(h, a, p) <==> a.Insert? && s.threads[a.t] == Ready(p)
  {
    PublishedNow(h, s, a, a.t, p);
    if t: nat :| PublishedAt(h + [a], |h|, t, p) {
      PublishedNow(h, s, a, t, p);
    }
  }

  /** The last step takes out a registered `p` exactly when the history says so. */
  lemma TakenNow(h: seq<Step>, s: State, a: Step, p: Publication)
    requires Enabled(s, a) && ThreadTraced(h, s, a.t) && s.Registered(p)
    ensures Apply(s, a).Registered(p) || TakenAt(h + [a], |h|, p) || a.Insert?
    ensures TakenAt(h + [a], |h|, p) ==> !Apply(s, a).Registered(p)
  {
    assert (h + [a])[..|h|] == h;
  }

  /** Only an insertion registers. */
  lemma RegisteredNow(s: State, a: Step, p: Publication)
    requires Enabled(s, a) && !s.Registered(p)
    ensures Apply(s, a).Registered(p) <==> a.Insert? && s.threads[a.t] == Ready(p)
  {
  }

  /** An insertion disturbs no other publication. */
  lemma InsertKeeps(s: State, a: Step, p: Publication)
    requires OneOwner(s) && Enabled(s, a) && a.Insert? && s.Registered(p)
    ensures Apply(s, a).Registered(p) && s.threads[a.t] != Ready(p)
  {
    InsertIsFresh(s, a.t);
  }

  lemma RegisteredStep(h: seq<Step>, s: State, a: Step, p: Publication)
    requires OneOwner(s) && Enabled(s, a) && ThreadTraced(h, s, a.t)
    requires s.Registered(p) <==> Remains(h, p)
    ensures Apply(s, a).Registered(p) <==> Remains(h + [a], p)
  {
    if Remains(h + [a], p) {
      RemainsBefore(h, a, p);
    }
    if PublishedLast(h, a, p) || (Remains(h, p) && !TakenAt(h + [a], |h|, p)) {
      RemainsAfter(h, a, p);
    }
    PublishedLastExactly(h, s, a, p);
    if s.Registered(p) {
      TakenNow(h, s, a, p);
      if a.Insert? {
        InsertKeeps(s, a, p);
      }
    } else {
      RegisteredNow(s, a, p);
    }
  }

  /** In every run, a publication is registered exactly when a create handler started it, had it
      revalidated as current and inserted it, and since then neither a sweep nor a delete by its own
      tenant has taken it out. */
  lemma {:induction false} RegisteredExactly(maxActive: nat, h: seq<Step>, p: Publication)
    requires Runs(Init(maxActive), h)
    ensures Final(Init(maxActive), h).Registered(p) <==> Remains(h, p)
    decreases |h|
  {
    if h != [] {
      var n := |h| - 1;
      assert h[..n] + [h[n]] == h;
      Before(Init(maxActive), h[..n], h[n]);
      EveryThreadTraced(maxActive, h[..n], h[n].t);
      EveryRunFromInit(maxActive, h[..n]);
      RegisteredExactly(maxActive, h[..n], p);
      RegisteredStep(h[..n], Final(Init(maxActive), h[..n]), h[n], p);
    }
  }

  // ---- What never comes back ----

  /** Started, not registered, and nobody can insert it any more. */
  ghost predicate Gone(s: State, p: Publication) {
    && p in s.started && !s.Registered(p)
    && forall t :: t in s.threads ==> s.threads[t] != Started(p) && s.threads[t] != Ready(p)
  }

  lemma GoneStep(s: State, a: Step, p: Publication)
    requires Gone(s, p) && Enabled(s, a)
    ensures Gone(Apply(s, a), p)
  {
    OneThreadMoves(s, a);
  }

  lemma {:induction false} GoneForGood(s: State, steps: seq<Step>, p: Publication)
    requires Gone(s, p) && Runs(s, steps)
    ensures Gone(Final(s, steps), p)
    decreases |steps|
  {
    if steps != [] {
      GoneStep(s, steps[0], p);
      GoneForGood(Apply(s, steps[0]), steps[1..], p);
    }
  }

  /** Whatever has an owner other than a creator that may still insert it is gone. */
  lemma OwnedIsGone(s: State, p: Publication, t: nat)
    requires OneOwner(s) && t in s.threads && Holds(s.threads[t], p)
    requires s.threads[t] != Started(p) && s.threads[t] != Ready(p)
    ensures Gone(s, p)
  {
    OwnedIsStarted(s, p);
    NoTwoRemovers(s, t, t, p);
    forall t' | t' in s.threads ensures s.threads[t'] != Started(p) && s.threads[t'] != Ready(p) {
      if Holds(s.threads[t'], p) {
        NoTwoRemovers(s, t, t', p);
      }
    }
  }

  /** A creator that learns its publication is no longer current never registers it. */
  lemma {:induction false} RejectedIsNeverRegistered(maxActive: nat, x: seq<Step>, t: nat, p: Publication, y: seq<Step>)
    requires Runs(Init(maxActive), x + [Revalidate(t, false)]) && Start(t, p) in x
    requires Runs(Final(Init(maxActive), x + [Revalidate(t, false)]), y)
    ensures !Final(Final(Init(maxActive), x + [Revalidate(t, false)]), y).Registered(p)
  {
    var a := Revalidate(t, false);
    Before(Init(maxActive), x, a);
    EveryThreadTraced(maxActive, x, t);
    EveryRunFromInit(maxActive, x + [a]);
    var s := Final(Init(maxActive), x + [a]);
    assert s.threads[t] == Discarding(p);
    OwnedIsGone(s, p, t);
    GoneForGood(s, y, p);
  }

  /** What thread `t` has seen and not yet swept. */
  predicate InSnapshot(s: State, t: nat, p: Publication) {
    && t in s.threads
    && var pc := s.threads[t];
       (pc.Collecting? || pc.Sweeping? || pc.SweepClosing? || pc.SweepClosed?) && p in pc.snapshot
  }

  /** Gone, or about to be, or the sweep that saw it was dropped and never ends. */
  ghost predicate Doomed(s: State, t: nat, p: Publication) {
    Gone(s, p) || (s.Registered(p) && InSnapshot(s, t, p)) || (t in s.threads && s.threads[t].CloseAbandoned?)
  }

  /** A registered publication that leaves the registry is gone. */
  lemma TakenIsGone(s: State, a: Step, p: Publication)
    requires OneOwner(s) && Enabled(s, a) && OneOwner(Apply(s, a)) && s.Registered(p) && !Apply(s, a).Registered(p)
    ensures Gone(Apply(s, a), p)
  {
    if a.Insert? {
      InsertIsFresh(s, a.t);
    }
    OwnedIsGone(Apply(s, a), p, a.t);
  }

  lemma SnapshotStep(s: State, a: Step, t: nat, p: Publication)
    requires Enabled(s, a) && InSnapshot(s, t, p) && s.Registered(p) && Apply(s, a).Registered(p) && a != EndSweep(t)
    ensures InSnapshot(Apply(s, a), t, p) || Apply(s, a).threads[t].CloseAbandoned?
  {
    OneThreadMoves(s, a);
  }

  lemma DroppedStays(s: State, a: Step, t: nat)
    requires Enabled(s, a) && t in s.threads && s.threads[t].CloseAbandoned?
    ensures t in Apply(s, a).threads && Apply(s, a).threads[t].CloseAbandoned? && a != EndSweep(t)
  {
    OneThreadMoves(s, a);
  }

  lemma DoomedStep(s: State, a: Step, t: nat, p: Publication)
    requires OneOwner(s) && Enabled(s, a) && Doomed(s, t, p)
    ensures Doomed(Apply(s, a), t, p) && (a == EndSweep(t) ==> Gone(s, p))
  {
    if Gone(s, p) {
      GoneStep(s, a, p);
    } else if t in s.threads && s.threads[t].CloseAbandoned? {
      DroppedStays(s, a, t);
    } else if Apply(s, a).Registered(p) {
      SnapshotStep(s, a, t, p);
    } else {
      OneOwnerStep(s, a);
      TakenIsGone(s, a, p);
    }
  }

  lemma {:induction false} DoomedRun(s: State, steps: seq<Step>, t: nat, p: Publication)
    requires OneOwner(s) && Doomed(s, t, p) && Runs(s, steps)
    ensures EndSweep(t) in steps ==> Gone(Final(s, steps), p)
    decreases |steps|
  {
    if steps != [] {
      DoomedStep(s, steps[0], t, p);
      OneOwnerStep(s, steps[0]);
      DoomedRun(Apply(s, steps[0]), steps[1..], t, p);
      if steps[0] == EndSweep(t) {
        GoneForGood(s, steps, p);
      }
    }
  }

  /** Whatever a sweep collected is gone for good once the sweep has ended, whoever took it out. */
  lemma {:induction false} SweptForGood(s: State, t: nat, p: Publication, steps: seq<Step>)
    requires OneOwner(s) && s.Registered(p) && Enabled(s, Collect(t, p.key)) && Runs(Apply(s, Collect(t, p.key)), steps)
    requires EndSweep(t) in steps
    ensures !Final(Apply(s, Collect(t, p.key)), steps).Registered(p)
  {
    OneOwnerStep(s, Collect(t, p.key));
    DoomedRun(Apply(s, Collect(t, p.key)), steps, t, p);
  }
}
