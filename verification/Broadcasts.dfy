/** The process-local broadcast registry as a concurrent protocol.

    Every handler (create, delete, prune, shutdown) is a thread with a program counter. A step is
    what one thread does between two points at which another may run: one operation on the shared
    map, one change of the gauge, or the return of one awaited call. The outcomes of `start`,
    of revalidation and of `close`, and which entries a sweep finds terminal, are chosen freely. A
    handler may be dropped while it awaits a call, and then does nothing more. */
module Broadcasts {

  datatype Transport = Moqt | UctpQuic

  /** A started publication. `id` is the identity of its shared pointer. */
  datatype Publication = Publication(id: nat, key: nat, transport: Transport, tenant: string)

  /** What a thread goes on to do once it has swept the registry. */
  datatype Goal = Create | Delete(key: nat, tenant: string) | Prune | Shutdown

  datatype Pc =
    | Collecting(goal: Goal, snapshot: set<Publication>)
    | Sweeping(goal: Goal, snapshot: set<Publication>)
    | SweepClosing(goal: Goal, snapshot: set<Publication>, pub: Publication)
    | SweepClosed(goal: Goal, snapshot: set<Publication>, pub: Publication)
    | Checking
    | Admitted
    | Started(pub: Publication)
    | Discarding(pub: Publication)
    | Ready(pub: Publication)
    | Inserted(pub: Publication)
    | Removing(key: nat, tenant: string)
    | DeleteClosing(pub: Publication)
    | DeleteClosed(pub: Publication)
    | DeleteFailed(pub: Publication)
    | StartAbandoned(pub: Publication)
    | CloseAbandoned(pub: Publication)
    | Done

  datatype State = State(
    active: map<nat, Publication>,
    moqtGauge: int, uctpGauge: int,
    threads: map<nat, Pc>,
    started: set<Publication>,
    closed: set<Publication>,
    maxActive: nat)
  {
    function Gauge(tr: Transport): int {
      match tr case Moqt => moqtGauge case UctpQuic => uctpGauge
    }

    function Adjust(tr: Transport, delta: int): State {
      match tr
      case Moqt => this.(moqtGauge := moqtGauge + delta)
      case UctpQuic => this.(uctpGauge := uctpGauge + delta)
    }

    function At(t: nat, pc: Pc): State {
      this.(threads := threads[t := pc])
    }

    predicate Registered(p: Publication) {
      p.key in active && active[p.key] == p
    }
  }

  function Init(maxActive: nat): State {
    State(map[], 0, 0, map[], {}, {}, maxActive)
  }

  datatype Step =
    | Spawn(t: nat, goal: Goal)
    | Collect(t: nat, key: nat)
    | EndCollect(t: nat)
    | Sweep(t: nat, pub: Publication)
    | SweepClose(t: nat)
    | SweepCount(t: nat)
    | EndSweep(t: nat)
    | CheckCapacity(t: nat)
    | GiveUp(t: nat)
    | Start(t: nat, pub: Publication)
    | Revalidate(t: nat, current: bool)
    | Discard(t: nat)
    | Insert(t: nat)
    | CountInsert(t: nat)
    | Remove(t: nat)
    | DeleteClose(t: nat, succeeded: bool)
    | CountDelete(t: nat)
    | Cancel(t: nat)

  /** When a step can happen. A new publication has a fresh pointer and a fresh random key. */
  predicate Enabled(s: State, a: Step) {
    match a
    case Spawn(t, _) => t !in s.threads
    case _ => a.t in s.threads && Awaited(s, s.threads[a.t], a)
  }

  /** The thread is where the step takes it from. */
  predicate Awaited(s: State, pc: Pc, a: Step) {
    match a
    case Spawn(_, _) => false
    case Collect(_, key) => pc.Collecting? && key in s.active
    case EndCollect(_) => pc.Collecting?
    case Sweep(_, p) => pc.Sweeping? && p in pc.snapshot
    case SweepClose(_) => pc.SweepClosing?
    case SweepCount(_) => pc.SweepClosed?
    case EndSweep(_) => pc.Sweeping? && pc.snapshot == {}
    case CheckCapacity(_) => pc.Checking?
    case GiveUp(_) => pc.Admitted?
    case Start(_, p) => pc.Admitted? && forall q :: q in s.started ==> q.id != p.id && q.key != p.key
    case Revalidate(_, _) => pc.Started?
    case Discard(_) => pc.Discarding?
    case Insert(_) => pc.Ready?
    case CountInsert(_) => pc.Inserted?
    case Remove(_) => pc.Removing?
    case DeleteClose(_, _) => pc.DeleteClosing?
    case CountDelete(_) => pc.DeleteClosed?
    case Cancel(_) => pc.Admitted? || pc.Started? || pc.Discarding? || pc.SweepClosing? || pc.DeleteClosing?
  }

  function AfterSweep(goal: Goal): Pc {
    match goal
    case Create => Checking
    case Delete(key, tenant) => Removing(key, tenant)
    case Prune => Done
    case Shutdown => Done
  }

  /** What a handler dropped at an await leaves behind. */
  function Dropped(pc: Pc): Pc {
    if pc.Started? || pc.Discarding? then StartAbandoned(pc.pub)
    else if pc.SweepClosing? || pc.DeleteClosing? then CloseAbandoned(pc.pub)
    else Done
  }

  function Apply(s: State, a: Step): State
    requires Enabled(s, a)
  {
    match a
    case Spawn(t, goal) => s.At(t, Collecting(goal, {}))
    case Collect(t, key) =>
      var pc := s.threads[t];
      s.At(t, Collecting(pc.goal, pc.snapshot + {s.active[key]}))
    case EndCollect(t) => s.At(t, Sweeping(s.threads[t].goal, s.threads[t].snapshot))
    case Sweep(t, p) =>
      var pc := s.threads[t];
      var rest := pc.snapshot - {p};
      if s.Registered(p) then s.(active := s.active - {p.key}).At(t, SweepClosing(pc.goal, rest, p))
      else s.At(t, Sweeping(pc.goal, rest))
    case SweepClose(t) =>
      var pc := s.threads[t];
      s.(closed := s.closed + {pc.pub}).At(t, SweepClosed(pc.goal, pc.snapshot, pc.pub))
    case SweepCount(t) =>
      var pc := s.threads[t];
      s.Adjust(pc.pub.transport, -1).At(t, Sweeping(pc.goal, pc.snapshot))
    case EndSweep(t) => s.At(t, AfterSweep(s.threads[t].goal))
    case CheckCapacity(t) => s.At(t, if |s.active| >= s.maxActive then Done else Admitted)
    case GiveUp(t) => s.At(t, Done)
    case Start(t, p) => s.(started := s.started + {p}).At(t, Started(p))
    case Revalidate(t, current) =>
      var p := s.threads[t].pub;
      s.At(t, if current then Ready(p) else Discarding(p))
    case Discard(t) => s.(closed := s.closed + {s.threads[t].pub}).At(t, Done)
    case Insert(t) =>
      var p := s.threads[t].pub;
      s.(active := s.active[p.key := p]).At(t, Inserted(p))
    case CountInsert(t) => s.Adjust(s.threads[t].pub.transport, 1).At(t, Done)
    case Remove(t) =>
      var Removing(key, tenant) := s.threads[t];
      if key in s.active && s.active[key].tenant == tenant then
        s.(active := s.active - {key}).At(t, DeleteClosing(s.active[key]))
      else s.At(t, Done)
    case DeleteClose(t, succeeded) =>
      var p := s.threads[t].pub;
      s.(closed := s.closed + {p}).At(t, if succeeded then DeleteClosed(p) else DeleteFailed(p))
    case CountDelete(t) => s.Adjust(s.threads[t].pub.transport, -1).At(t, Done)
    case Cancel(t) => s.At(t, Dropped(s.threads[t]))
  }

  /** Any sequence of enabled steps from the empty registry. */
  predicate Runs(s: State, steps: seq<Step>)
    decreases |steps|
  {
    steps == [] || (Enabled(s, steps[0]) && Runs(Apply(s, steps[0]), steps[1..]))
  }

  function Final(s: State, steps: seq<Step>): State
    requires Runs(s, steps)
    decreases |steps|
  {
    if steps == [] then s else Final(Apply(s, steps[0]), steps[1..])
  }

  // ---- Counting the entries of a map that satisfy a predicate ----

  function CountBy<K, V>(m: map<K, V>, f: V -> bool): nat {
    |set k | k in m && f(m[k])|
  }

  lemma CountUpdate<K, V>(m: map<K, V>, k: K, v: V, f: V -> bool)
    ensures CountBy(m[k := v], f)
         == CountBy(m, f) - (if k in m && f(m[k]) then 1 else 0) + (if f(v) then 1 else 0)
  {
    assert m[k := v] - {k} == m - {k};
    CountRemove(m[k := v], k, f);
    if k in m {
      CountRemove(m, k, f);
    } else {
      assert m - {k} == m;
    }
  }

  lemma CountRemove<K, V>(m: map<K, V>, k: K, f: V -> bool)
    requires k in m
    ensures CountBy(m - {k}, f) == CountBy(m, f) - (if f(m[k]) then 1 else 0)
  {
    var m' := m - {k};
    var others := set j | j in m && j != k && f(m[j]);
    assert (set j | j in m && f(m[j])) == others + (if f(m[k]) then {k} else {});
    assert (set j | j in m' && f(m'[j])) == others;
  }

  lemma CountAtMostOne<K, V>(m: map<K, V>, f: V -> bool, k: K, k': K)
    requires CountBy(m, f) <= 1 && k in m && k' in m && f(m[k]) && f(m[k'])
    ensures k == k'
  {
    var hits := set j | j in m && f(m[j]);
    assert k in hits && k' in hits;
    assert |hits - {k}| == |hits| - 1;
    assert hits - {k} == {};
    assert k' in (hits - {k}) + {k};
  }

  lemma CountSame<K, V>(m: map<K, V>, f: V -> bool, g: V -> bool)
    requires forall k :: k in m ==> f(m[k]) == g(m[k])
    ensures CountBy(m, f) == CountBy(m, g)
  {
    assert (set k | k in m && f(m[k])) == (set k | k in m && g(m[k]));
  }

  lemma CountNone<K, V>(m: map<K, V>, f: V -> bool)
    requires forall k :: k in m ==> !f(m[k])
    ensures CountBy(m, f) == 0
  {
    assert (set k | k in m && f(m[k])) == {};
  }

  // ---- Ownership ----

  /** The thread alone is responsible for `p`: it started it and has not handed it over, or took it
      out of the registry and has not yet closed it. A dropped handler stays responsible for ever. */
  predicate Holds(pc: Pc, p: Publication) {
    (pc.Started? || pc.Discarding? || pc.Ready? || pc.SweepClosing? || pc.DeleteClosing?
     || pc.StartAbandoned? || pc.CloseAbandoned?)
    && pc.pub == p
  }

  function Holding(p: Publication): Pc -> bool {
    pc => Holds(pc, p)
  }

  /** How many owners a publication has: threads holding it, the registry, and the closed ones. */
  function Owners(s: State, p: Publication): nat {
    CountBy(s.threads, Holding(p)) + (if s.Registered(p) then 1 else 0) + (if p in s.closed then 1 else 0)
  }

  predicate Keyed(s: State) {
    && (forall k :: k in s.active ==> s.active[k].key == k)
    && (forall p, q :: p in s.started && q in s.started && (p.key == q.key || p.id == q.id) ==> p == q)
  }

  /** A publication that was started has exactly one owner, and no other publication has any. */
  ghost predicate OneOwner(s: State) {
    Keyed(s) && forall p :: Owners(s, p) == if p in s.started then 1 else 0
  }

  /** A step that leaves the registry and the sets alone, and whose thread keeps what it holds. */
  predicate Handless(s: State, a: Step)
    requires Enabled(s, a)
  {
    !(a.Sweep? || a.SweepClose? || a.Start? || a.Discard? || a.Insert? || a.Remove? || a.DeleteClose?)
  }

  lemma HandlessMoves(s: State, a: Step)
    requires Enabled(s, a) && Handless(s, a)
    ensures a.t in Apply(s, a).threads
    ensures Apply(s, a).threads == s.threads[a.t := Apply(s, a).threads[a.t]]
  {
  }

  lemma TakingMoves(s: State, a: Step)
    requires Enabled(s, a) && (a.Sweep? || a.Remove?)
    ensures a.t in Apply(s, a).threads
    ensures Apply(s, a).threads == s.threads[a.t := Apply(s, a).threads[a.t]]
  {
  }

  lemma HandingMoves(s: State, a: Step)
    requires Enabled(s, a) && !Handless(s, a) && !a.Sweep? && !a.Remove?
    ensures a.t in Apply(s, a).threads
    ensures Apply(s, a).threads == s.threads[a.t := Apply(s, a).threads[a.t]]
  {
  }

  /** A step changes the program counter of its own thread only. */
  lemma OneThreadMoves(s: State, a: Step)
    requires Enabled(s, a)
    ensures a.t in Apply(s, a).threads
    ensures Apply(s, a).threads == s.threads[a.t := Apply(s, a).threads[a.t]]
  {
    if Handless(s, a) {
      HandlessMoves(s, a);
    } else if a.Sweep? || a.Remove? {
      TakingMoves(s, a);
    } else {
      HandingMoves(s, a);
    }
  }

  lemma OwnersMoved(s: State, s': State, t: nat, pc: Pc, p: Publication)
    requires s'.threads == s.threads[t := pc]
    ensures CountBy(s'.threads, Holding(p))
         == CountBy(s.threads, Holding(p))
            - (if t in s.threads && Holds(s.threads[t], p) then 1 else 0) + (if Holds(pc, p) then 1 else 0)
  {
    CountUpdate(s.threads, t, pc, Holding(p));
  }

  /** A held or registered publication was started. */
  lemma OwnedIsStarted(s: State, p: Publication)
    requires OneOwner(s)
    requires s.Registered(p) || p in s.closed || exists t :: t in s.threads && Holds(s.threads[t], p)
    ensures p in s.started
  {
    if t :| t in s.threads && Holds(s.threads[t], p) {
      CountRemove(s.threads, t, Holding(p));
    }
    assert Owners(s, p) >= 1;
  }

  lemma HandlessStep(s: State, a: Step, p: Publication)
    requires Enabled(s, a) && Handless(s, a)
    ensures Owners(Apply(s, a), p) == Owners(s, p)
  {
    var s' := Apply(s, a);
    OneThreadMoves(s, a);
    OwnersMoved(s, s', a.t, s'.threads[a.t], p);
  }

  /** Starting, inserting, taking out and closing each hand one publication from one owner to the next. */
  lemma HandingStep(s: State, a: Step, p: Publication)
    requires OneOwner(s) && Enabled(s, a) && !Handless(s, a)
    ensures Owners(Apply(s, a), p) == if p in Apply(s, a).started then 1 else 0
  {
    if a.Start? || a.Insert? {
      OpeningStep(s, a, p);
    } else {
      ClosingStep(s, a, p);
    }
  }

  lemma OpeningStep(s: State, a: Step, p: Publication)
    requires OneOwner(s) && Enabled(s, a) && (a.Start? || a.Insert?)
    ensures Owners(Apply(s, a), p) == if p in Apply(s, a).started then 1 else 0
  {
    assert Owners(s, p) == if p in s.started then 1 else 0;
    var s' := Apply(s, a);
    OneThreadMoves(s, a);
    OwnersMoved(s, s', a.t, s'.threads[a.t], p);
    if a.Insert? {
      InsertIsFresh(s, a.t);
    }
  }

  lemma ClosingStep(s: State, a: Step, p: Publication)
    requires OneOwner(s) && Enabled(s, a) && !Handless(s, a) && !a.Start? && !a.Insert?
    ensures Owners(Apply(s, a), p) == if p in Apply(s, a).started then 1 else 0
  {
    assert Owners(s, p) == if p in s.started then 1 else 0;
    var s' := Apply(s, a);
    OneThreadMoves(s, a);
    OwnersMoved(s, s', a.t, s'.threads[a.t], p);
  }

  lemma KeyedStep(s: State, a: Step)
    requires Keyed(s) && Enabled(s, a)
    ensures Keyed(Apply(s, a))
  {
  }

  lemma OneOwnerStep(s: State, a: Step)
    requires OneOwner(s) && Enabled(s, a)
    ensures OneOwner(Apply(s, a))
  {
    KeyedStep(s, a);
    forall p ensures Owners(Apply(s, a), p) == if p in Apply(s, a).started then 1 else 0 {
      if Handless(s, a) {
        HandlessStep(s, a, p);
      } else {
        HandingStep(s, a, p);
      }
    }
  }

  /** The key of a publication about to be inserted is not in use. */
  lemma InsertIsFresh(s: State, t: nat)
    requires OneOwner(s) && t in s.threads && s.threads[t].Ready?
    ensures s.threads[t].pub.key !in s.active
  {
    var p := s.threads[t].pub;
    assert Holds(s.threads[t], p);
    OwnedIsStarted(s, p);
    if p.key in s.active {
      var q := s.active[p.key];
      assert s.Registered(q);
      OwnedIsStarted(s, q);
      CountRemove(s.threads, t, Holding(p));
      assert false;
    }
  }

  /** No two threads are ever responsible for the same publication, and none that is in the
      registry or closed has a thread responsible for it. */
  lemma NoTwoRemovers(s: State, t: nat, t': nat, p: Publication)
    requires OneOwner(s) && t in s.threads && t' in s.threads
    requires Holds(s.threads[t], p) && Holds(s.threads[t'], p)
    ensures t == t' && !s.Registered(p) && p !in s.closed
  {
    assert Owners(s, p) <= 1;
    CountRemove(s.threads, t, Holding(p));
    CountAtMostOne(s.threads, Holding(p), t, t');
  }

  // ---- The gauge ----

  function OnTransport(tr: Transport): Publication -> bool {
    (p: Publication) => p.transport == tr
  }

  /** Taken out of the registry and not yet subtracted from the gauge; a delete whose close failed
      and a close that was dropped stay so. */
  predicate IsUnsubtracted(pc: Pc, tr: Transport) {
    (pc.SweepClosing? || pc.SweepClosed? || pc.DeleteClosing? || pc.DeleteClosed? || pc.DeleteFailed?
     || pc.CloseAbandoned?)
    && pc.pub.transport == tr
  }

  function Unsubtracted(tr: Transport): Pc -> bool {
    pc => IsUnsubtracted(pc, tr)
  }

  /** Inserted and not yet added to the gauge. */
  predicate IsUnadded(pc: Pc, tr: Transport) {
    pc.Inserted? && pc.pub.transport == tr
  }

  function Unadded(tr: Transport): Pc -> bool {
    pc => IsUnadded(pc, tr)
  }

  ghost predicate GaugeBalanced(s: State, tr: Transport) {
    s.Gauge(tr) - CountBy(s.active, OnTransport(tr))
    == CountBy(s.threads, Unsubtracted(tr)) - CountBy(s.threads, Unadded(tr))
  }

  /** How the number of registered publications of one transport changes in a step. */
  function RegistryChange(s: State, a: Step, tr: Transport): int
    requires Enabled(s, a)
  {
    match a
    case Insert(t) => if s.threads[t].pub.transport == tr then 1 else 0
    case Sweep(t, p) => if s.Registered(p) && p.transport == tr then -1 else 0
    case Remove(t) =>
      var Removing(key, tenant) := s.threads[t];
      if key in s.active && s.active[key].tenant == tenant && s.active[key].transport == tr then -1 else 0
    case _ => 0
  }

  lemma RegistryCounts(s: State, a: Step, tr: Transport)
    requires OneOwner(s) && Enabled(s, a)
    ensures CountBy(Apply(s, a).active, OnTransport(tr))
         == CountBy(s.active, OnTransport(tr)) + RegistryChange(s, a, tr)
  {
    match a
    case Insert(t) =>
      InsertIsFresh(s, t);
      CountUpdate(s.active, s.threads[t].pub.key, s.threads[t].pub, OnTransport(tr));
    case Sweep(t, p) =>
      if s.Registered(p) {
        CountRemove(s.active, p.key, OnTransport(tr));
      }
    case Remove(t) =>
      var key := s.threads[t].key;
      if key in s.active {
        CountRemove(s.active, key, OnTransport(tr));
      }
    case _ =>
  }

  /** What a thread still owes the gauge. */
  function Owed(pc: Pc, tr: Transport): int {
    (if IsUnsubtracted(pc, tr) then 1 else 0) - (if IsUnadded(pc, tr) then 1 else 0)
  }

  /** The change of the gauge, less that of the registry, is what the stepping thread comes to owe. */
  lemma LocalBalance(s: State, a: Step, tr: Transport)
    requires Enabled(s, a)
    ensures Apply(s, a).Gauge(tr) - s.Gauge(tr) - RegistryChange(s, a, tr)
         == Owed(Apply(s, a).threads[a.t], tr) - (if a.Spawn? then 0 else Owed(s.threads[a.t], tr))
  {
  }

  lemma GaugeStep(s: State, a: Step, tr: Transport)
    requires OneOwner(s) && Enabled(s, a) && GaugeBalanced(s, tr)
    ensures GaugeBalanced(Apply(s, a), tr)
  {
    var pc := Apply(s, a).threads[a.t];
    OneThreadMoves(s, a);
    OwedUpdate(s.threads, a.t, pc, tr);
    LocalBalance(s, a, tr);
    RegistryCounts(s, a, tr);
  }

  lemma OwedUpdate(threads: map<nat, Pc>, t: nat, pc: Pc, tr: Transport)
    ensures CountBy(threads[t := pc], Unsubtracted(tr)) - CountBy(threads[t := pc], Unadded(tr))
         == CountBy(threads, Unsubtracted(tr)) - CountBy(threads, Unadded(tr))
            + Owed(pc, tr) - (if t in threads then Owed(threads[t], tr) else 0)
  {
    CountUpdate(threads, t, pc, Unsubtracted(tr));
    CountUpdate(threads, t, pc, Unadded(tr));
  }

  ghost predicate Invariant(s: State) {
    OneOwner(s) && forall tr: Transport :: GaugeBalanced(s, tr)
  }

  lemma InitInvariant(maxActive: nat)
    ensures Invariant(Init(maxActive))
  {
    var s := Init(maxActive);
    forall p ensures Owners(s, p) == 0 {
      CountNone(s.threads, Holding(p));
    }
    forall tr: Transport ensures GaugeBalanced(s, tr) {
      CountNone(s.threads, Unsubtracted(tr));
      CountNone(s.threads, Unadded(tr));
      CountNone(s.active, OnTransport(tr));
    }
  }

  /** In every interleaving, every started publication has exactly one owner and the gauge differs
      from the registry by exactly the threads that still owe it a change. */
  lemma {:induction false} EveryRunKeepsInvariant(s: State, steps: seq<Step>)
    requires Invariant(s) && Runs(s, steps)
    ensures Invariant(Final(s, steps))
    decreases |steps|
  {
    if steps != [] {
      OneOwnerStep(s, steps[0]);
      forall tr: Transport ensures GaugeBalanced(Apply(s, steps[0]), tr) {
        GaugeStep(s, steps[0], tr);
      }
      EveryRunKeepsInvariant(Apply(s, steps[0]), steps[1..]);
    }
  }

  /** The same from an empty registry. */
  lemma {:induction false} EveryRunFromInit(maxActive: nat, steps: seq<Step>)
    requires Runs(Init(maxActive), steps)
    ensures Invariant(Final(Init(maxActive), steps))
  {
    InitInvariant(maxActive);
    EveryRunKeepsInvariant(Init(maxActive), steps);
  }

  /** No handler will take another step. */
  predicate AtRest(s: State) {
    forall t :: t in s.threads ==>
      s.threads[t].Done? || s.threads[t].DeleteFailed? || s.threads[t].StartAbandoned? || s.threads[t].CloseAbandoned?
  }

  /** A delete whose close failed, or a close that was dropped. */
  function Unfinished(tr: Transport): Pc -> bool {
    (pc: Pc) => (pc.DeleteFailed? || pc.CloseAbandoned?) && pc.pub.transport == tr
  }

  /** After any run that has come to rest, the gauge is too high by exactly the deletes whose close
      failed and the closes that were dropped. */
  lemma {:induction false} GaugeAtRest(maxActive: nat, steps: seq<Step>, tr: Transport)
    requires Runs(Init(maxActive), steps) && AtRest(Final(Init(maxActive), steps))
    ensures var s := Final(Init(maxActive), steps);
            s.Gauge(tr) == CountBy(s.active, OnTransport(tr)) + CountBy(s.threads, Unfinished(tr))
  {
    var s := Final(Init(maxActive), steps);
    EveryRunFromInit(maxActive, steps);
    assert GaugeBalanced(s, tr);
    CountSame(s.threads, Unsubtracted(tr), Unfinished(tr));
    CountNone(s.threads, Unadded(tr));
  }

  /** After any run that has come to rest, a started publication is registered, or closed, or was
      left behind by exactly one dropped handler. */
  lemma {:induction false} OwnersAtRest(maxActive: nat, steps: seq<Step>, p: Publication)
    requires Runs(Init(maxActive), steps) && AtRest(Final(Init(maxActive), steps))
    requires p in Final(Init(maxActive), steps).started
    ensures var s := Final(Init(maxActive), steps);
            CountBy(s.threads, Abandoning(p)) == if s.Registered(p) || p in s.closed then 0 else 1
    ensures var s := Final(Init(maxActive), steps); !(s.Registered(p) && p in s.closed)
  {
    var s := Final(Init(maxActive), steps);
    EveryRunFromInit(maxActive, steps);
    assert Owners(s, p) == 1;
    CountSame(s.threads, Holding(p), Abandoning(p));
  }

  function Abandoning(p: Publication): Pc -> bool {
    (pc: Pc) => (pc.StartAbandoned? || pc.CloseAbandoned?) && pc.pub == p
  }

  // ---- Capacity ----

  /** A creator that has passed the capacity check and may still insert. */
  predicate IsPastCheck(pc: Pc) {
    pc.Admitted? || pc.Started? || pc.Ready?
  }

  function PastCheck(): Pc -> bool {
    pc => IsPastCheck(pc)
  }

  /** At most `n` creators are past the check in every state of the run. */
  predicate Creators(s: State, steps: seq<Step>, n: nat)
    requires Runs(s, steps)
    decreases |steps|
  {
    CountBy(s.threads, PastCheck()) <= n
    && (steps == [] || Creators(Apply(s, steps[0]), steps[1..], n))
  }

  predicate WithinCapacity(s: State, n: nat) {
    |s.active| + CountBy(s.threads, PastCheck()) <= s.maxActive - 1 + n
  }

  lemma CapacityStep(s: State, a: Step, n: nat)
    requires WithinCapacity(s, n) && Enabled(s, a)
    requires CountBy(Apply(s, a).threads, PastCheck()) <= n
    ensures WithinCapacity(Apply(s, a), n)
  {
    var pc := Apply(s, a).threads[a.t];
    CountUpdate(s.threads, a.t, pc, PastCheck());
    OneThreadMoves(s, a);
    RegistrySize(s, a);
    CheckedStep(s, a);
  }

  /** Only the capacity check lets a creator past it, and inserting ends its being past it. */
  lemma CheckedStep(s: State, a: Step)
    requires Enabled(s, a)
    ensures var was, now := !a.Spawn? && IsPastCheck(s.threads[a.t]), IsPastCheck(Apply(s, a).threads[a.t]);
            && (now && !was ==> a.CheckCapacity? && |s.active| < s.maxActive)
            && (a.Insert? ==> was && !now)
    ensures Apply(s, a).maxActive == s.maxActive
  {
  }

  lemma RegistrySize(s: State, a: Step)
    requires Enabled(s, a)
    ensures |Apply(s, a).active| <= |s.active| + if a.Insert? then 1 else 0
    ensures a.CheckCapacity? ==> Apply(s, a).active == s.active
  {
    var s' := Apply(s, a);
    if a.Insert? {
      assert s'.active.Keys == s.active.Keys + {s.threads[a.t].pub.key};
    } else if s'.active != s.active {
      assert s'.active.Keys <= s.active.Keys;
      SubsetSize(s'.active.Keys, s.active.Keys);
    }
    assert |s.active| == |s.active.Keys| && |s'.active| == |s'.active.Keys|;
  }

  lemma SubsetSize<T>(a: set<T>, b: set<T>)
    requires a <= b
    ensures |a| <= |b|
  {
    assert b == a + (b - a);
  }

  /** With at most `n` creators past the check at any time, the registry and those creators together
      never exceed `maxActive - 1 + n`. */
  lemma {:induction false} CapacityBound(s: State, steps: seq<Step>, n: nat)
    requires WithinCapacity(s, n) && Runs(s, steps) && Creators(s, steps, n)
    ensures WithinCapacity(Final(s, steps), n)
    decreases |steps|
  {
    if steps != [] {
      CapacityStep(s, steps[0], n);
      CapacityBound(Apply(s, steps[0]), steps[1..], n);
    }
  }
}
