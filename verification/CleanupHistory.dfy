/** What a run of the cleanup protocol says about the contacts, the journal and the reported counts. */
module CleanupHistory {
  import opened Options
  import opened CleanupAuthority

  // ---- Facts that some steps establish and others end ----

  /** Whether a step, in the state it is taken in, does something. */
  type Doing = (State, Step) -> bool

  function StateAt(s: State, steps: seq<Step>, i: int): State
    requires Runs(s, steps) && 0 <= i <= |steps|
  {
    RunsTo(s, steps, i);
    Final(s, steps[..i])
  }

  lemma {:induction false} RunsTo(s: State, steps: seq<Step>, i: int)
    requires Runs(s, steps) && 0 <= i <= |steps|
    ensures Runs(s, steps[..i])
    decreases |steps|
  {
    if i > 0 {
      RunsTo(Apply(s, steps[0]), steps[1..], i - 1);
      assert steps[..i][1..] == steps[1..][..i - 1];
    }
  }

  /** The fact was established at step `i` and has not been ended since. */
  ghost predicate SinceStep(s: State, steps: seq<Step>, on: Doing, off: Doing, i: int)
    requires Runs(s, steps)
  {
    && 0 <= i < |steps| && on(StateAt(s, steps, i), steps[i])
    && forall m :: i < m < |steps| ==> !off(StateAt(s, steps, m), steps[m])
  }

  ghost predicate Since(s: State, steps: seq<Step>, on: Doing, off: Doing)
    requires Runs(s, steps)
  {
    exists i :: SinceStep(s, steps, on, off, i)
  }

  /** A fact that holds after a step exactly when the step establishes it, or it held and the step does
      not end it. */
  ghost predicate Governed(fact: State -> bool, on: Doing, off: Doing) {
    forall s: State, a: Step :: Enabled(s, a) ==> (fact(Apply(s, a)) <==> on(s, a) || (fact(s) && !off(s, a)))
  }

  lemma {:induction false} LastStep(s: State, x: seq<Step>, a: Step)
    requires Runs(s, x + [a])
    ensures Runs(s, x) && Enabled(Final(s, x), a) && Final(s, x + [a]) == Apply(Final(s, x), a)
    decreases |x|
  {
    var all := x + [a];
    if x == [] {
      assert all[1..] == [];
    } else {
      assert all[0] == x[0] && all[1..] == x[1..] + [a];
      LastStep(Apply(s, x[0]), x[1..], a);
    }
  }

  lemma {:induction false} SinceOn(s: State, x: seq<Step>, a: Step, on: Doing, off: Doing, i: int)
    requires Runs(s, x) && Runs(s, x + [a])
    ensures SinceStep(s, x + [a], on, off, i) <==>
      if i == |x| then on(Final(s, x), a) else SinceStep(s, x, on, off, i) && !off(Final(s, x), a)
  {
    var all := x + [a];
    forall m | 0 <= m <= |x| ensures StateAt(s, all, m) == StateAt(s, x, m) {
      assert all[..m] == x[..m];
    }
    assert x[..|x|] == x && all[|x|] == a && forall m :: 0 <= m < |x| ==> all[m] == x[m];
  }

  lemma {:induction false} GovernedExactly(s: State, steps: seq<Step>, fact: State -> bool, on: Doing, off: Doing)
    requires Runs(s, steps) && Governed(fact, on, off) && !fact(s)
    ensures fact(Final(s, steps)) <==> Since(s, steps, on, off)
    decreases |steps|
  {
    if steps != [] {
      var n := |steps| - 1;
      var x, a := steps[..n], steps[n];
      assert x + [a] == steps;
      LastStep(s, x, a);
      GovernedExactly(s, x, fact, on, off);
      SinceOn(s, x, a, on, off, n);
      if i :| SinceStep(s, x, on, off, i) {
        SinceOn(s, x, a, on, off, i);
      }
      if i :| SinceStep(s, steps, on, off, i) {
        SinceOn(s, x, a, on, off, i);
      }
    }
  }

  // ---- The contacts that run ----

  /** The contact a pass has in hand. */
  predicate InHand(s: State, k: Key) {
    s.pass.Some? && s.pass.value.at != Idle && s.pass.value.at.key == k
  }

  function Starts(k: Key): Doing {
    (s: State, a: Step) => a.Start? && a.key == k
  }

  function Stops(k: Key): Doing {
    (s: State, a: Step) => a == StopDone(k) || (a == PassStopDone && InHand(s, k))
  }

  function IsRunning(k: Key): State -> bool {
    (s: State) => k in s.running
  }

  lemma RunningStep(s: State, a: Step, k: Key)
    requires Enabled(s, a)
    ensures k in Apply(s, a).running <==>
      (a.Start? && a.key == k) || (k in s.running && a != StopDone(k) && !(a == PassStopDone && InHand(s, k)))
  {
  }

  lemma RunningGoverned(k: Key)
    ensures Governed(IsRunning(k), Starts(k), Stops(k))
  {
    forall s: State, a: Step | Enabled(s, a)
      ensures IsRunning(k)(Apply(s, a)) <==> Starts(k)(s, a) || (IsRunning(k)(s) && !Stops(k)(s, a))
    {
      RunningStep(s, a, k);
    }
  }

  /** In every run a contact runs exactly from its start until a stop of it has succeeded. */
  lemma {:induction false} RunningExactly(durable: bool, steps: seq<Step>, k: Key)
    requires Runs(Init(durable), steps)
    ensures k in Final(Init(durable), steps).running <==> Since(Init(durable), steps, Starts(k), Stops(k))
  {
    RunningGoverned(k);
    GovernedExactly(Init(durable), steps, IsRunning(k), Starts(k), Stops(k));
  }

  // ---- The records of the journal ----

  function Writes(k: Key): Doing {
    (s: State, a: Step) =>
      a == Write(k) || a == StopFailed(k, true) || (a == PassStopFailed(true) && InHand(s, k))
  }

  /** A deletion that went through, with or without a reply, or a crash that takes the journal with it. */
  function Erases(k: Key): Doing {
    (s: State, a: Step) =>
      || a == Delete(k) || (a.DeleteFailed? && a.key == k && a.gone)
      || ((a.PassDelete? || (a.PassDeleteFailed? && a.gone)) && InHand(s, k))
      || (a == Crash && !s.durable)
  }

  function IsRecorded(k: Key): State -> bool {
    (s: State) => k in s.journal
  }

  lemma RecordedStep(s: State, a: Step, k: Key)
    requires Enabled(s, a)
    ensures k in Apply(s, a).journal <==> Writes(k)(s, a) || (k in s.journal && !Erases(k)(s, a))
  {
  }

  lemma RecordedGoverned(k: Key)
    ensures Governed(IsRecorded(k), Writes(k), Erases(k))
  {
    forall s: State, a: Step | Enabled(s, a)
      ensures IsRecorded(k)(Apply(s, a)) <==> Writes(k)(s, a) || (IsRecorded(k)(s) && !Erases(k)(s, a))
    {
      RecordedStep(s, a, k);
    }
  }

  /** In every run the journal holds a key exactly when it was written and not erased since. */
  lemma {:induction false} JournalExactly(durable: bool, steps: seq<Step>, k: Key)
    requires Runs(Init(durable), steps)
    ensures k in Final(Init(durable), steps).journal <==> Since(Init(durable), steps, Writes(k), Erases(k))
  {
    RecordedGoverned(k);
    GovernedExactly(Init(durable), steps, IsRecorded(k), Writes(k), Erases(k));
  }

  // ---- What a pass reports ----

  /** The successes reported to a pass. */
  function Successes(steps: seq<Step>): nat {
    if steps == [] then 0
    else
      var a := steps[|steps| - 1];
      Successes(steps[..|steps| - 1]) + (if a == PassDelete(true) || (a.PassDeleteFailed? && a.ok) then 1 else 0)
  }

  /** No pass begins or ends, and the process goes on. */
  predicate SamePass(steps: seq<Step>) {
    forall i :: 0 <= i < |steps| ==> steps[i] != Begin && steps[i] != Finish && steps[i] != Crash
  }

  lemma ReportStep(s: State, a: Step)
    requires Enabled(s, a) && s.pass.Some? && a != Begin && a != Finish && a != Crash
    ensures Apply(s, a).pass.Some? && Apply(s, a).pass.value.listing == s.pass.value.listing
    ensures Apply(s, a).pass.value.resolved
         == s.pass.value.resolved + (if a == PassDelete(true) || (a.PassDeleteFailed? && a.ok) then 1 else 0)
  {
  }

  /** A pass reports as resolved exactly the contacts whose retry was reported as a success, and lists
      all through it what it listed at its start. */
  lemma {:induction false} ReportExactly(s: State, steps: seq<Step>)
    requires Runs(s, steps) && s.pass.Some? && SamePass(steps)
    ensures var t := Final(s, steps);
      t.pass.Some? && t.pass.value.listing == s.pass.value.listing
      && t.pass.value.resolved == s.pass.value.resolved + Successes(steps)
    decreases |steps|
  {
    if steps != [] {
      var n := |steps| - 1;
      assert steps[..n] + [steps[n]] == steps;
      LastStep(s, steps[..n], steps[n]);
      ReportExactly(s, steps[..n]);
      ReportStep(Final(s, steps[..n]), steps[n]);
    }
  }

  /** A pass starts with nothing resolved, over the journal at startup and over the failed set later. */
  lemma PassStarts(s: State)
    requires Enabled(s, Begin)
    ensures var p := Apply(s, Begin).pass.value;
      && Apply(s, Begin).pass.Some? && p.resolved == 0 && p.deleted == {} && p.todo == p.listing
      && p.listing == if s.mode == Booting then s.journal else s.failed
  {
  }

  // ---- A contact that is done with ----

  /** Stopped, without a record, and nobody will take it up again. */
  predicate Settled(s: State, k: Key) {
    && k in s.started && k !in s.running && k !in s.journal && k !in s.failed && !InPass(s, k)
    && (k in s.stages ==> s.stages[k] == Finished)
  }

  lemma SettledStep(s: State, a: Step, k: Key)
    requires Enabled(s, a) && Settled(s, k)
    ensures Settled(Apply(s, a), k)
  {
  }

  lemma {:induction false} SettledForGood(s: State, steps: seq<Step>, k: Key)
    requires Runs(s, steps) && Settled(s, k)
    ensures Settled(Final(s, steps), k)
    decreases |steps|
  {
    if steps != [] {
      SettledStep(s, steps[0], k);
      SettledForGood(Apply(s, steps[0]), steps[1..], k);
    }
  }

  /** Once its record is deleted after its stop, a contact is done with for good: no record of it comes
      back, and no pass of this or any later incarnation takes it up. */
  lemma {:induction false} DeletedForGood(s: State, k: Key, steps: seq<Step>)
    requires Reachable(s) && Enabled(s, Delete(k)) && Runs(Apply(s, Delete(k)), steps)
    ensures Settled(Final(Apply(s, Delete(k)), steps), k)
  {
    ReachableContact(s, k);
    SettledForGood(Apply(s, Delete(k)), steps, k);
  }

  /** So is one whose record a pass deleted. */
  lemma {:induction false} PassDeletedForGood(s: State, k: Key, ok: bool, steps: seq<Step>)
    requires Reachable(s) && s.pass.Some? && s.pass.value.at == Confirmed(k) && Runs(Apply(s, PassDelete(ok)), steps)
    ensures Settled(Final(Apply(s, PassDelete(ok)), steps), k)
  {
    ReachableIsSound(s);
    ReachableContact(s, k);
    SettledForGood(Apply(s, PassDelete(ok)), steps, k);
  }
}
