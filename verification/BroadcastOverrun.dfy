/** The capacity check of the broadcast registry is not atomic with the insertion it guards. This
    module builds, for every capacity and every number of simultaneous creators, a run that
    reaches the bound proved in Broadcasts, and so says exactly when the configured maximum holds. It
    also builds the runs after which the gauge does not return to the registry. */
module BroadcastOverrun {
  import opened Broadcasts

  function Nth(t: nat): Publication {
    Publication(t, t, Moqt, "")
  }

  /** Threads below `a` have created their publication; the next `w` have passed the check. */
  ghost predicate Stage(s: State, a: nat, w: nat) {
    Waiting(s, a, w) && Registry(s, a)
  }

  ghost predicate Waiting(s: State, a: nat, w: nat) {
    && (forall t: nat :: t in s.threads <==> t < a + w)
    && (forall t: nat :: t < a ==> s.threads[t] == Done)
    && (forall t: nat :: a <= t < a + w ==> s.threads[t] == Admitted)
    && CountBy(s.threads, PastCheck()) == w
  }

  ghost predicate Registry(s: State, a: nat) {
    && (forall k: nat :: k in s.active <==> k < a)
    && |s.active| == a
    && (forall q :: q in s.started ==> q.id < a && q.key < a)
  }

  lemma {:induction false} RunOn(s: State, x: seq<Step>, y: seq<Step>)
    requires Runs(s, x) && Runs(Final(s, x), y)
    ensures Runs(s, x + y) && Final(s, x + y) == Final(Final(s, x), y)
    decreases |x|
  {
    if x == [] {
      assert x + y == y;
    } else {
      var z := x + y;
      assert z[0] == x[0] && z[1..] == x[1..] + y;
      RunOn(Apply(s, x[0]), x[1..], y);
    }
  }

  lemma {:induction false} CreatorsOn(s: State, x: seq<Step>, y: seq<Step>, n: nat)
    requires Runs(s, x) && Creators(s, x, n) && Runs(Final(s, x), y) && Creators(Final(s, x), y, n) && Runs(s, x + y)
    ensures Creators(s, x + y, n)
    decreases |x|
  {
    if x == [] {
      assert x + y == y;
    } else {
      var z, s1 := x + y, Apply(s, x[0]);
      assert z[0] == x[0] && z[1..] == x[1..] + y;
      assert Final(s, x) == Final(s1, x[1..]) && Runs(s1, x[1..] + y);
      CreatorsOn(s1, x[1..], y, n);
      assert Creators(s1, z[1..], n);
    }
  }

  lemma {:induction false} Concat(s: State, x: seq<Step>, y: seq<Step>, n: nat)
    requires Runs(s, x) && Creators(s, x, n) && Runs(Final(s, x), y) && Creators(Final(s, x), y, n)
    ensures Runs(s, x + y) && Creators(s, x + y, n) && Final(s, x + y) == Final(Final(s, x), y)
  {
    RunOn(s, x, y);
    CreatorsOn(s, x, y, n);
  }

  /** One step from a state with few creators to another. */
  lemma {:induction false} Single(s: State, a: Step, n: nat)
    requires Enabled(s, a)
    requires CountBy(s.threads, PastCheck()) <= n && CountBy(Apply(s, a).threads, PastCheck()) <= n
    ensures Runs(s, [a]) && Creators(s, [a], n) && Final(s, [a]) == Apply(s, a)
  {
    assert [a][1..] == [];
    assert Creators(Apply(s, a), [], n);
  }

  lemma StepCount(s: State, a: Step)
    requires Enabled(s, a)
    ensures CountBy(Apply(s, a).threads, PastCheck()) == PastAfter(s, a)
  {
    OneThreadMoves(s, a);
    CountUpdate(s.threads, a.t, Apply(s, a).threads[a.t], PastCheck());
  }

  /** Append one enabled step to a run; what it does to the number of creators is known. */
  lemma Then(s: State, x: seq<Step>, a: Step, n: nat) returns (x': seq<Step>)
    requires Runs(s, x) && Creators(s, x, n) && Enabled(Final(s, x), a)
    requires CountBy(Final(s, x).threads, PastCheck()) <= n && PastAfter(Final(s, x), a) <= n
    ensures Runs(s, x') && Creators(s, x', n) && Final(s, x') == Apply(Final(s, x), a)
    ensures CountBy(Final(s, x').threads, PastCheck()) == PastAfter(Final(s, x), a)
  {
    var f := Final(s, x);
    StepCount(f, a);
    Single(f, a, n);
    Concat(s, x, [a], n);
    x' := x + [a];
  }

  function PastAfter(s: State, a: Step): int
    requires Enabled(s, a)
  {
    OneThreadMoves(s, a);
    CountBy(s.threads, PastCheck())
    - (if a.t in s.threads && IsPastCheck(s.threads[a.t]) then 1 else 0)
    + (if IsPastCheck(Apply(s, a).threads[a.t]) then 1 else 0)
  }

  /** Two enabled steps from a known state. */
  lemma Twice(s: State, a: Step, b: Step, n: nat) returns (steps: seq<Step>)
    requires Enabled(s, a) && Enabled(Apply(s, a), b)
    requires CountBy(s.threads, PastCheck()) <= n && PastAfter(s, a) <= n && PastAfter(Apply(s, a), b) <= n
    ensures Runs(s, steps) && Creators(s, steps, n) && Final(s, steps) == Apply(Apply(s, a), b)
    ensures CountBy(Final(s, steps).threads, PastCheck()) == PastAfter(Apply(s, a), b)
  {
    steps := Then(s, [], a, n);
    steps := Then(s, steps, b, n);
  }

  /** A new thread finds nothing to sweep. */
  lemma SweepNothing(s: State, t: nat, n: nat) returns (steps: seq<Step>)
    requires t !in s.threads && CountBy(s.threads, PastCheck()) <= n
    ensures Runs(s, steps) && Creators(s, steps, n) && Final(s, steps) == s.At(t, Sweeping(Create, {}))
    ensures CountBy(Final(s, steps).threads, PastCheck()) == CountBy(s.threads, PastCheck())
  {
    assert Apply(s, Spawn(t, Create)) == s.At(t, Collecting(Create, {}));
    StepCount(s, Spawn(t, Create));
    steps := Twice(s, Spawn(t, Create), EndCollect(t), n);
    assert Final(s, steps) == s.At(t, Sweeping(Create, {}));
  }

  /** It finds room in the registry. */
  lemma FindRoom(s: State, t: nat, n: nat) returns (steps: seq<Step>)
    requires t in s.threads && s.threads[t] == Sweeping(Create, {})
    requires |s.active| < s.maxActive && CountBy(s.threads, PastCheck()) < n
    ensures Runs(s, steps) && Creators(s, steps, n) && Final(s, steps) == s.At(t, Admitted)
  {
    assert Apply(s, EndSweep(t)) == s.At(t, Checking);
    StepCount(s, EndSweep(t));
    steps := Twice(s, EndSweep(t), CheckCapacity(t), n);
    assert Final(s, steps) == s.At(t, Admitted);
  }

  lemma AdmitThread(s: State, t: nat, n: nat) returns (steps: seq<Step>)
    requires t !in s.threads && |s.active| < s.maxActive && CountBy(s.threads, PastCheck()) < n
    ensures Runs(s, steps) && Creators(s, steps, n) && Final(s, steps) == s.At(t, Admitted)
  {
    steps := SweepNothing(s, t, n);
    var room := FindRoom(Final(s, steps), t, n);
    Concat(s, steps, room, n);
    steps := steps + room;
    assert Final(s, steps) == s.At(t, Admitted);
  }

  /** An admitted thread starts and revalidates a publication. */
  lemma StartPublication(s: State, t: nat, p: Publication, n: nat) returns (steps: seq<Step>)
    requires t in s.threads && s.threads[t] == Admitted && CountBy(s.threads, PastCheck()) <= n
    requires forall q :: q in s.started ==> q.id != p.id && q.key != p.key
    ensures Runs(s, steps) && Creators(s, steps, n)
    ensures Final(s, steps) == s.(started := s.started + {p}).At(t, Ready(p))
    ensures CountBy(Final(s, steps).threads, PastCheck()) <= n
  {
    assert Apply(s, Start(t, p)) == s.(started := s.started + {p}).At(t, Started(p));
    StepCount(s, Start(t, p));
    steps := Twice(s, Start(t, p), Revalidate(t, true), n);
    assert Final(s, steps) == s.(started := s.started + {p}).At(t, Ready(p));
  }

  /** It inserts and counts it. */
  lemma InsertPublication(s: State, t: nat, p: Publication, n: nat) returns (steps: seq<Step>)
    requires t in s.threads && s.threads[t] == Ready(p) && CountBy(s.threads, PastCheck()) <= n
    ensures Runs(s, steps) && Creators(s, steps, n)
    ensures Final(s, steps) == s.(active := s.active[p.key := p]).Adjust(p.transport, 1).At(t, Done)
  {
    assert Apply(s, Insert(t)) == s.(active := s.active[p.key := p]).At(t, Inserted(p));
    StepCount(s, Insert(t));
    steps := Twice(s, Insert(t), CountInsert(t), n);
  }

  lemma FinishThread(s: State, t: nat, p: Publication, n: nat) returns (steps: seq<Step>)
    requires t in s.threads && s.threads[t] == Admitted && CountBy(s.threads, PastCheck()) <= n
    requires forall q :: q in s.started ==> q.id != p.id && q.key != p.key
    ensures Runs(s, steps) && Creators(s, steps, n)
    ensures Final(s, steps)
         == s.(active := s.active[p.key := p], started := s.started + {p}).Adjust(p.transport, 1).At(t, Done)
  {
    steps := StartPublication(s, t, p, n);
    var rest := InsertPublication(Final(s, steps), t, p, n);
    Concat(s, steps, rest, n);
    steps := steps + rest;
  }

  /** The next thread passes the check, while there is room. */
  lemma AdmitOne(s: State, a: nat, w: nat, n: nat) returns (steps: seq<Step>)
    requires Stage(s, a, w) && a < s.maxActive && w < n
    ensures Runs(s, steps) && Creators(s, steps, n)
    ensures Stage(Final(s, steps), a, w + 1) && Final(s, steps).maxActive == s.maxActive
  {
    var t: nat := a + w;
    assert t !in s.threads;
    steps := AdmitThread(s, t, n);
    CountUpdate(s.threads, t, Admitted, PastCheck());
    assert PastCheck()(Admitted);
    assert CountBy(Final(s, steps).threads, PastCheck()) == w + 1;
  }

  /** The first waiting thread finishes. */
  lemma FinishOne(s: State, a: nat, w: nat, n: nat) returns (steps: seq<Step>)
    requires Stage(s, a, w) && 1 <= w <= n
    ensures Runs(s, steps) && Creators(s, steps, n)
    ensures Stage(Final(s, steps), a + 1, w - 1) && Final(s, steps).maxActive == s.maxActive
  {
    assert a in s.threads;
    steps := FinishThread(s, a, Nth(a), n);
    StageMoves(s, Final(s, steps), a, w);
  }

  lemma StageMoves(s: State, s': State, a: nat, w: nat)
    requires Stage(s, a, w) && w >= 1 && s'.threads == s.threads[a := Done]
    requires s'.active == s.active[a := Nth(a)] && s'.started == s.started + {Nth(a)}
    ensures Stage(s', a + 1, w - 1)
  {
    CountUpdate(s.threads, a, Done, PastCheck());
    RegistryGrows(s, s', a);
  }

  lemma RegistryGrows(s: State, s': State, a: nat)
    requires Registry(s, a) && s'.active == s.active[a := Nth(a)] && s'.started == s.started + {Nth(a)}
    ensures Registry(s', a + 1)
  {
    assert s'.active.Keys == s.active.Keys + {a};
    assert |s'.active| == |s'.active.Keys| && |s.active| == |s.active.Keys|;
  }

  /** Fill all but one slot, one creator at a time. */
  lemma {:induction false} FillSlots(maxActive: nat, n: nat, k: nat) returns (steps: seq<Step>)
    requires n >= 1 && k < maxActive
    ensures Runs(Init(maxActive), steps) && Creators(Init(maxActive), steps, n)
    ensures Stage(Final(Init(maxActive), steps), k, 0) && Final(Init(maxActive), steps).maxActive == maxActive
    decreases k
  {
    var s := Init(maxActive);
    if k == 0 {
      steps := [];
      CountNone(s.threads, PastCheck());
    } else {
      steps := FillSlots(maxActive, n, k - 1);
      var admit := AdmitOne(Final(s, steps), k - 1, 0, n);
      Concat(s, steps, admit, n);
      steps := steps + admit;
      var finish := FinishOne(Final(s, steps), k - 1, 1, n);
      Concat(s, steps, finish, n);
      steps := steps + finish;
    }
  }

  /** Let `w` creators pass the check for the last slot. */
  lemma {:induction false} PassCheck(maxActive: nat, n: nat, w: nat) returns (steps: seq<Step>)
    requires maxActive >= 1 && n >= 1 && w <= n
    ensures Runs(Init(maxActive), steps) && Creators(Init(maxActive), steps, n)
    ensures Stage(Final(Init(maxActive), steps), maxActive - 1, w)
    ensures Final(Init(maxActive), steps).maxActive == maxActive
    decreases w
  {
    if w == 0 {
      steps := FillSlots(maxActive, n, maxActive - 1);
    } else {
      steps := PassCheck(maxActive, n, w - 1);
      var admit := AdmitOne(Final(Init(maxActive), steps), maxActive - 1, w - 1, n);
      Concat(Init(maxActive), steps, admit, n);
      steps := steps + admit;
    }
  }

  /** Let `j` of them finish. */
  lemma {:induction false} FinishAll(maxActive: nat, n: nat, j: nat) returns (steps: seq<Step>)
    requires maxActive >= 1 && n >= 1 && j <= n
    ensures Runs(Init(maxActive), steps) && Creators(Init(maxActive), steps, n)
    ensures Stage(Final(Init(maxActive), steps), maxActive - 1 + j, n - j)
    decreases j
  {
    if j == 0 {
      steps := PassCheck(maxActive, n, n);
    } else {
      steps := FinishAll(maxActive, n, j - 1);
      var finish := FinishOne(Final(Init(maxActive), steps), maxActive - 1 + (j - 1), n - (j - 1), n);
      Concat(Init(maxActive), steps, finish, n);
      steps := steps + finish;
    }
  }

  ghost predicate StaysWithin(maxActive: nat, n: nat, bound: nat) {
    forall steps: seq<Step> ::
      Runs(Init(maxActive), steps) && Creators(Init(maxActive), steps, n)
      ==> |Final(Init(maxActive), steps).active| <= bound
  }

  /** With up to `n` creators past the check at once, `maxActive - 1 + n` is the least bound on the
      registry that every run respects; so the configured maximum holds exactly when `n <= 1`. */
  lemma LeastCapacityBound(maxActive: nat, n: nat, bound: nat)
    requires maxActive >= 1 && n >= 1
    ensures StaysWithin(maxActive, n, bound) <==> bound >= maxActive - 1 + n
  {
    var s := Init(maxActive);
    if bound >= maxActive - 1 + n {
      forall steps: seq<Step> | Runs(s, steps) && Creators(s, steps, n) ensures |Final(s, steps).active| <= bound {
        CountNone(s.threads, PastCheck());
        CapacityBound(s, steps, n);
        SameMaximum(s, steps);
      }
    } else {
      var steps := FinishAll(maxActive, n, n);
      assert |Final(s, steps).active| > bound;
    }
  }

  lemma {:induction false} SameMaximum(s: State, steps: seq<Step>)
    requires Runs(s, steps)
    ensures Final(s, steps).maxActive == s.maxActive
    decreases |steps|
  {
    if steps != [] {
      CheckedStep(s, steps[0]);
      SameMaximum(Apply(s, steps[0]), steps[1..]);
    }
  }

  // ---- The gauge drifts ----

  /** A delete that finds nothing to sweep. */
  lemma SweepForDelete(s: State, t: nat, goal: Goal, n: nat) returns (steps: seq<Step>)
    requires t !in s.threads && CountBy(s.threads, PastCheck()) <= n
    ensures Runs(s, steps) && Creators(s, steps, n) && Final(s, steps) == s.At(t, Sweeping(goal, {}))
    ensures CountBy(Final(s, steps).threads, PastCheck()) <= n
  {
    assert Apply(s, Spawn(t, goal)) == s.At(t, Collecting(goal, {}));
    StepCount(s, Spawn(t, goal));
    steps := Twice(s, Spawn(t, goal), EndCollect(t), n);
    assert Final(s, steps) == s.At(t, Sweeping(goal, {}));
  }

  /** It takes its publication out of the registry. */
  lemma TakeOut(s: State, t: nat, p: Publication, n: nat) returns (steps: seq<Step>)
    requires t in s.threads && s.threads[t] == Sweeping(Delete(p.key, p.tenant), {})
    requires s.Registered(p) && CountBy(s.threads, PastCheck()) <= n
    ensures Runs(s, steps) && Creators(s, steps, n)
    ensures Final(s, steps) == s.(active := s.active - {p.key}).At(t, DeleteClosing(p))
    ensures CountBy(Final(s, steps).threads, PastCheck()) <= n
  {
    assert Apply(s, EndSweep(t)) == s.At(t, Removing(p.key, p.tenant));
    StepCount(s, EndSweep(t));
    steps := Twice(s, EndSweep(t), Remove(t), n);
    assert Final(s, steps) == s.(active := s.active - {p.key}).At(t, DeleteClosing(p));
  }

  lemma SweepAndTakeOut(s: State, t: nat, p: Publication, n: nat) returns (steps: seq<Step>)
    requires t !in s.threads && s.Registered(p) && CountBy(s.threads, PastCheck()) <= n
    ensures Runs(s, steps) && Creators(s, steps, n)
    ensures Final(s, steps) == s.(active := s.active - {p.key}).At(t, DeleteClosing(p))
  {
    steps := SweepForDelete(s, t, Delete(p.key, p.tenant), n);
    var out := TakeOut(Final(s, steps), t, p, n);
    Concat(s, steps, out, n);
    steps := steps + out;
    assert Final(s, steps) == s.(active := s.active - {p.key}).At(t, DeleteClosing(p));
  }

  /** One creator runs to its end. */
  lemma CreateOne(maxActive: nat) returns (steps: seq<Step>)
    requires maxActive >= 1
    ensures var s := Init(maxActive);
            Runs(s, steps) && Creators(s, steps, 1)
            && Final(s, steps) == State(map[0 := Nth(0)], 1, 0, map[0 := Done], {Nth(0)}, {}, maxActive)
  {
    var s := Init(maxActive);
    CountNone(s.threads, PastCheck());
    steps := AdmitThread(s, 0, 1);
    CountUpdate(s.threads, 0, Admitted, PastCheck());
    var finish := FinishThread(s.At(0, Admitted), 0, Nth(0), 1);
    Concat(s, steps, finish, 1);
    steps := steps + finish;
  }

  /** A create followed by a delete whose close fails, or which is dropped while it awaits its close,
      comes to rest with an empty registry and a gauge of one. */
  lemma GaugeDrifts(maxActive: nat, dropped: bool) returns (steps: seq<Step>)
    requires maxActive >= 1
    ensures Runs(Init(maxActive), steps) && AtRest(Final(Init(maxActive), steps))
    ensures Final(Init(maxActive), steps).active == map[] && Final(Init(maxActive), steps).Gauge(Moqt) == 1
  {
    var s, p := Init(maxActive), Nth(0);
    steps := CreateOne(maxActive);
    var full := Final(s, steps);
    CountNone(full.threads, PastCheck());
    var out := SweepAndTakeOut(full, 1, p, 1);
    Concat(s, steps, out, 1);
    steps := steps + out;
    steps := EndBadly(s, steps, p, dropped);
  }

  lemma EndBadly(s: State, x: seq<Step>, p: Publication, dropped: bool) returns (steps: seq<Step>)
    requires Runs(s, x) && Creators(s, x, 1)
    requires Final(s, x).active == map[] && Final(s, x).threads == map[0 := Done, 1 := DeleteClosing(p)]
    ensures Runs(s, steps) && AtRest(Final(s, steps)) && Final(s, steps).active == map[]
    ensures Final(s, steps).moqtGauge == Final(s, x).moqtGauge
  {
    var taken := Final(s, x);
    CountNone(taken.threads, PastCheck());
    var last := if dropped then Cancel(1) else DeleteClose(1, false);
    StepCount(taken, last);
    steps := Then(s, x, last, 1);
  }
}
