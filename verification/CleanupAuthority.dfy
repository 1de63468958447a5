/** Durable authority to stop Amazon Connect contacts, over every interleaving of calls, the cleanup
    passes and crashes.

    Each contact has a call thread, and the process has at most one cleanup pass at a time: the
    startup pass before admission, then the periodic one. A step is what one of them does between two
    awaits, so a stop and the deletion of its record are separate steps, and so are the commit of a
    record and its acknowledgement, and a database error may come before or after the change. The
    Amazon adapter is not part of the repository; what is used of its contract is that it sets up media
    only after the acknowledgement, deletes a record only after its own stop succeeded, and remembers a
    contact whose stop failed. A process with the generic bridge has two adapters on one journal, each
    remembering its own contacts, and its passes are served by the first of them only. */
module CleanupAuthority {
  import opened Options

  datatype Key = Key(profile: string, instance: string, contact: string)

  /** Where the call thread of a contact is. */
  datatype Stage =
    | Starting
    | Written
    | Retained
    | Media
    | Stopping
    | Deleting
    | Finished

  /** What a pass does with one contact: await its stop, or await the deletion of its record. */
  datatype Work = Idle | Trying(key: Key) | Confirmed(key: Key)

  /** A pass over a listing taken at its start. `deleted` are the records it has removed. */
  datatype Pass = Pass(listing: set<Key>, todo: set<Key>, at: Work, resolved: nat, deleted: set<Key>)

  datatype Mode = Down | Booting | Reconciling | Admitting

  /** `running`, `started` and `acked` are facts of the outside world; `journal` outlives the process
      if it is durable; the rest is lost in a crash. `orphans` are the contacts that had no record
      when the process went down, `earlier` those of earlier incarnations, and `generic` those this
      one started on the second adapter. `failed` is what the first adapter remembers, `stranded` what
      the second does, and `gaveUp` all that either has remembered in this incarnation. */
  datatype State = State(
    running: set<Key>,
    started: set<Key>,
    acked: set<Key>,
    earlier: set<Key>,
    orphans: set<Key>,
    journal: set<Key>,
    stages: map<Key, Stage>,
    generic: set<Key>,
    failed: set<Key>,
    stranded: set<Key>,
    gaveUp: set<Key>,
    pass: Option<Pass>,
    mode: Mode,
    durable: bool)
  {
    /** The adapter of the passes remembers a contact whose cleanup it could not finish. */
    function Failing(k: Key, b: bool): State {
      if b then this.(failed := failed + {k}, gaveUp := gaveUp + {k}) else this
    }

    /** The adapter of the call does. */
    function CallFailing(k: Key, b: bool): State {
      if b && k in generic then this.(stranded := stranded + {k}, gaveUp := gaveUp + {k}) else Failing(k, b)
    }

    function At(k: Key, stage: Stage): State {
      this.(stages := stages[k := stage])
    }

    predicate Is(k: Key, stage: Stage) {
      k in stages && stages[k] == stage
    }

    /** A call of this incarnation that has not come to its end. */
    predicate Live(k: Key) {
      k in stages && (stages[k] == Starting || stages[k] == Written || stages[k] == Retained || stages[k] == Media)
    }
  }

  function Init(durable: bool): State {
    State({}, {}, {}, {}, {}, {}, map[], {}, {}, {}, {}, None, Down, durable)
  }

  datatype Step =
    // the call of one contact
    | Start(key: Key, second: bool)
    | Write(key: Key)
    | Refuse(key: Key)
    | LoseAck(key: Key)
    | Ack(key: Key)
    | SetUp(key: Key)
    | End(key: Key)
    | StopDone(key: Key)
    | StopFailed(key: Key, rewritten: bool)
    | Delete(key: Key)
    | DeleteFailed(key: Key, kept: bool, gone: bool)
    // a cleanup pass
    | Begin
    | Pick(key: Key)
    | PassStopDone
    | PassStopFailed(rewritten: bool)
    | PassDelete(ok: bool)
    | PassDeleteFailed(kept: bool, ok: bool, gone: bool)
    | Finish
    // the process
    | Restart
    | Crash

  predicate Enabled(s: State, a: Step) {
    match a
    case Start(k, _) => s.mode == Admitting && k !in s.started
    case Write(k) => s.Is(k, Starting)
    case Refuse(k) => s.Is(k, Starting)
    case LoseAck(k) => s.Is(k, Written)
    case Ack(k) => s.Is(k, Written)
    case SetUp(k) => s.Is(k, Retained)
    case End(k) => s.Is(k, Retained) || s.Is(k, Media)
    case StopDone(k) => s.Is(k, Stopping)
    case StopFailed(k, _) => s.Is(k, Stopping)
    case Delete(k) => s.Is(k, Deleting)
    case DeleteFailed(k, _, _) => s.Is(k, Deleting)
    case Begin => s.mode == Booting || (s.mode == Admitting && s.pass == None)
    case Pick(k) => s.pass.Some? && s.pass.value.at == Idle && k in s.pass.value.todo
    case PassStopDone => s.pass.Some? && s.pass.value.at.Trying?
    case PassStopFailed(_) => s.pass.Some? && s.pass.value.at.Trying?
    case PassDelete(_) => s.pass.Some? && s.pass.value.at.Confirmed?
    case PassDeleteFailed(_, _, _) => s.pass.Some? && s.pass.value.at.Confirmed?
    case Finish => s.pass.Some? && s.pass.value.at == Idle && s.pass.value.todo == {}
    case Restart => s.mode == Down
    case Crash => s.mode != Down
  }

  function Count(b: bool): nat {
    if b then 1 else 0
  }

  function With(s: set<Key>, k: Key, b: bool): set<Key> {
    if b then s + {k} else s
  }

  function Without(s: set<Key>, k: Key, b: bool): set<Key> {
    if b then s - {k} else s
  }

  function CallStep(s: State, a: Step): State
    requires Enabled(s, a)
  {
    match a
    case Start(k, second) =>
      s.(running := s.running + {k}, started := s.started + {k}, generic := With(s.generic, k, second)).At(k, Starting)
    case Write(k) => s.(journal := With(s.journal, k, true)).At(k, Written)
    case Refuse(k) => s.At(k, Stopping)
    case LoseAck(k) => s.At(k, Stopping)
    case Ack(k) => s.(acked := s.acked + {k}).At(k, Retained)
    case SetUp(k) => s.At(k, Media)
    case End(k) => s.At(k, Stopping)
    case StopDone(k) => s.(running := s.running - {k}).At(k, Deleting)
    case StopFailed(k, rewritten) =>
      s.(journal := With(s.journal, k, rewritten)).CallFailing(k, true).At(k, Finished)
    case Delete(k) => s.(journal := Without(s.journal, k, true)).At(k, Finished)
    case DeleteFailed(k, kept, gone) =>
      s.(journal := Without(s.journal, k, gone)).CallFailing(k, kept).At(k, Finished)
    case _ => s
  }

  function PassStep(s: State, a: Step): State
    requires Enabled(s, a)
  {
    match a
    case Begin =>
      var listing := if s.mode == Booting then s.journal else s.failed;
      s.(pass := Some(Pass(listing, listing, Idle, 0, {})), mode := if s.mode == Booting then Reconciling else s.mode)
    case Pick(k) =>
      var p := s.pass.value;
      s.(pass := Some(p.(todo := p.todo - {k}, at := Trying(k))))
    case PassStopDone =>
      var p := s.pass.value;
      s.(running := s.running - {p.at.key}, pass := Some(p.(at := Confirmed(p.at.key))))
    case PassStopFailed(rewritten) =>
      var p := s.pass.value;
      s.(journal := With(s.journal, p.at.key, rewritten), pass := Some(p.(at := Idle))).Failing(p.at.key, true)
    case PassDelete(ok) =>
      var p := s.pass.value;
      s.(journal := Without(s.journal, p.at.key, true), failed := s.failed - {p.at.key},
         pass := Some(p.(at := Idle, resolved := p.resolved + Count(ok), deleted := p.deleted + {p.at.key})))
    case PassDeleteFailed(kept, ok, gone) =>
      var p := s.pass.value;
      s.(journal := Without(s.journal, p.at.key, gone),
         pass := Some(p.(at := Idle, resolved := p.resolved + Count(ok), deleted := With(p.deleted, p.at.key, gone))))
       .Failing(p.at.key, kept)
    case Finish => s.(pass := None, mode := Admitting)
    case _ => s
  }

  function ProcessStep(s: State, a: Step): State
    requires Enabled(s, a)
  {
    match a
    case Restart => s.(mode := Booting)
    case Crash =>
      var journal := if s.durable then s.journal else {};
      s.(journal := journal, orphans := s.running - journal, earlier := s.started,
         stages := map[], generic := {}, failed := {}, stranded := {}, gaveUp := {}, pass := None, mode := Down)
    case _ => s
  }

  predicate IsCall(a: Step) {
    a.Start? || a.Write? || a.Refuse? || a.LoseAck? || a.Ack? || a.SetUp? || a.End?
    || a.StopDone? || a.StopFailed? || a.Delete? || a.DeleteFailed?
  }

  predicate IsProcess(a: Step) {
    a.Restart? || a.Crash?
  }

  function Apply(s: State, a: Step): State
    requires Enabled(s, a)
  {
    if IsCall(a) then CallStep(s, a) else if IsProcess(a) then ProcessStep(s, a) else PassStep(s, a)
  }

  predicate Runs(s: State, steps: seq<Step>)
    decreases |steps|
  {
    steps == [] || (Enabled(s, steps[0]) && Runs(Apply(s, steps[0]), steps[1..]))
  }

  function Final(s: State, steps: seq<Step>): State
    requires Runs(s, steps)
    decreases |steps|
  {
    if steps == [] then s else Final(Apply(s, steps[0]), steps[1..])
  }

  // ---- Invariants ----

  /** A contact a pass has in hand, or may still take up. */
  predicate InPass(s: State, k: Key) {
    s.pass.Some? && (k in s.pass.value.todo || (s.pass.value.at != Idle && s.pass.value.at.key == k))
  }

  predicate InDeletion(s: State, k: Key) {
    s.Is(k, Deleting) || (s.pass.Some? && s.pass.value.at == Confirmed(k))
  }

  /** What exists in which mode. */
  predicate Moded(s: State) {
    && (s.mode == Down || s.mode == Booting ==> s.pass == None && s.failed == {})
    && (s.mode == Reconciling ==> s.pass.Some?)
    && (s.mode != Admitting ==> s.stages == map[])
  }

  /** Keys name started contacts. */
  predicate Known(s: State, k: Key) {
    && (k in s.stages <==> k in s.started && k !in s.earlier)
    && (k in s.running || k in s.acked || k in s.earlier || k in s.journal || k in s.gaveUp || InPass(s, k)
        ==> k in s.started)
    && (k in s.orphans ==> k in s.earlier)
  }

  /** The passes and what they retry hold nothing of the second adapter. */
  predicate Apart(s: State, k: Key) {
    && (k in s.generic ==> k in s.stages && !InPass(s, k))
    && (k in s.failed ==> k in s.gaveUp && k !in s.generic)
    && (k in s.stranded ==> k in s.gaveUp && k in s.generic)
  }

  /** No pass has, and no adapter has given up on, a contact whose call is not over. */
  predicate KeptOff(s: State, k: Key) {
    && (InPass(s, k) || k in s.gaveUp ==> k !in s.stages || s.stages[k] == Finished)
    && (InPass(s, k) ==> if s.mode == Reconciling then k in s.earlier else k in s.gaveUp)
  }

  /** A live call's contact runs; a record is deleted only for a contact that does not. */
  predicate StoppedFirst(s: State, k: Key) {
    && (s.Live(k) ==> k in s.running)
    && (InDeletion(s, k) ==> k !in s.running)
  }

  /** A record is there from its commit until the call ends, and is acknowledged before media. */
  predicate WrittenDown(s: State, k: Key) {
    && (s.Is(k, Written) || s.Is(k, Retained) || s.Is(k, Media) ==> k in s.journal)
    && (s.Is(k, Retained) || s.Is(k, Media) ==> k in s.acked)
  }

  /** A stage from which the call will still try to stop its contact. */
  predicate IsOpen(stage: Stage) {
    stage != Deleting && stage != Finished
  }

  /** Somebody will still try to stop the contact: its call, a pass, or a later pass over the failed
      set or the journal. */
  predicate Cared(s: State, k: Key) {
    match s.mode
    case Down => k in s.journal
    case Booting => k in s.journal
    case Reconciling => InPass(s, k) || k in s.failed
    case Admitting => k in s.failed || (k in s.stages && IsOpen(s.stages[k]))
  }

  /** No running contact is forgotten but one that had no record in a crash, or one that the second
      adapter could not stop. */
  predicate NotForgotten(s: State, k: Key) {
    k in s.running ==> Cared(s, k) || k in s.orphans || k in s.stranded
  }

  predicate Sound(s: State, k: Key) {
    && Known(s, k) && Apart(s, k) && KeptOff(s, k)
    && StoppedFirst(s, k) && WrittenDown(s, k) && NotForgotten(s, k)
  }

  /** During the startup pass the journal is its listing without the records it deleted. */
  ghost predicate Accounted(s: State) {
    s.mode == Reconciling && s.pass.Some? ==>
      var p := s.pass.value;
      && s.journal == p.listing - p.deleted && p.deleted <= p.listing
      && (forall k :: InPass(s, k) ==> k in p.listing && k !in p.deleted)
      && (p.at != Idle ==> p.at.key !in p.todo)
  }

  /** A pass takes a contact up once, and reports at most one success for each it has listed and tried. */
  predicate Tallied(s: State) {
    s.pass.Some? ==>
      && s.pass.value.resolved + |s.pass.value.todo| + Count(s.pass.value.at != Idle) <= |s.pass.value.listing|
      && (s.pass.value.at != Idle ==> s.pass.value.at.key !in s.pass.value.todo)
  }

  ghost predicate Invariant(s: State) {
    Moded(s) && (forall k :: Sound(s, k)) && Accounted(s) && Tallied(s)
  }

  /** The authority: an acknowledged contact that still runs has its record. */
  predicate Authorized(s: State, k: Key) {
    k in s.acked && k in s.running ==> k in s.journal
  }

  ghost predicate AuthorityHeld(s: State) {
    forall k :: Authorized(s, k)
  }

  /** What a durable journal adds: the authority, and that no acknowledged contact is an orphan. */
  predicate Secured(s: State, k: Key) {
    Authorized(s, k) && !(k in s.orphans && k in s.acked)
  }

  ghost predicate Durably(s: State) {
    s.durable ==> forall k :: Secured(s, k)
  }

  // ---- Every step keeps them ----

  /** Two states with the same facts about one contact. */
  predicate Agree(s: State, t: State, k: Key) {
    && s.mode == t.mode
    && (k in s.running <==> k in t.running) && (k in s.started <==> k in t.started)
    && (k in s.acked <==> k in t.acked) && (k in s.earlier <==> k in t.earlier)
    && (k in s.orphans <==> k in t.orphans) && (k in s.journal <==> k in t.journal)
    && (k in s.stages <==> k in t.stages) && (k in s.stages ==> s.stages[k] == t.stages[k])
    && (k in s.generic <==> k in t.generic) && (k in s.failed <==> k in t.failed)
    && (k in s.stranded <==> k in t.stranded) && (k in s.gaveUp <==> k in t.gaveUp)
    && (InPass(s, k) <==> InPass(t, k)) && (InDeletion(s, k) <==> InDeletion(t, k))
  }

  lemma AgreeKeeps(s: State, t: State, k: Key)
    requires Sound(s, k) && Agree(s, t, k)
    ensures Sound(t, k) && (Secured(s, k) ==> Secured(t, k))
  {
  }

  /** A call step changes facts about its own contact only. */
  lemma CallMovesOne(s: State, a: Step, k: Key)
    requires Enabled(s, a) && IsCall(a) && k != a.key
    ensures Agree(s, CallStep(s, a), k)
  {
  }

  lemma CallKeepsOwn(s: State, a: Step)
    requires Enabled(s, a) && IsCall(a) && s.mode == Admitting && Sound(s, a.key)
    ensures Sound(CallStep(s, a), a.key) && (Secured(s, a.key) ==> Secured(CallStep(s, a), a.key))
  {
  }

  lemma CallKeepsPass(s: State, a: Step)
    requires Enabled(s, a) && IsCall(a) && Moded(s)
    ensures var t := CallStep(s, a);
      t.pass == s.pass && t.mode == s.mode == Admitting && t.orphans == s.orphans && t.durable == s.durable
  {
  }

  lemma CallKeeps(s: State, a: Step, k: Key)
    requires Enabled(s, a) && IsCall(a) && Moded(s) && Sound(s, k)
    ensures Sound(CallStep(s, a), k) && (Secured(s, k) ==> Secured(CallStep(s, a), k))
  {
    CallKeepsPass(s, a);
    if k == a.key {
      CallKeepsOwn(s, a);
    } else {
      CallMovesOne(s, a, k);
      AgreeKeeps(s, CallStep(s, a), k);
    }
  }

  predicate IsPass(a: Step) {
    !IsCall(a) && !IsProcess(a)
  }

  lemma PassKeeps(s: State, a: Step, k: Key)
    requires Enabled(s, a) && IsPass(a) && Moded(s) && Sound(s, k)
    ensures Sound(PassStep(s, a), k) && (Secured(s, k) ==> Secured(PassStep(s, a), k))
  {
  }

  lemma PassKeepsAccount(s: State, a: Step)
    requires Enabled(s, a) && IsPass(a) && Moded(s) && Accounted(s)
    ensures Accounted(PassStep(s, a)) && Moded(PassStep(s, a))
  {
  }

  lemma PassKeepsTally(s: State, a: Step)
    requires Tallied(s) && Enabled(s, a) && IsPass(a)
    ensures Tallied(PassStep(s, a))
  {
    if a.Pick? {
      var todo := s.pass.value.todo;
      assert |todo - {a.key}| == |todo| - 1;
    }
  }

  lemma ProcessKeeps(s: State, a: Step, k: Key)
    requires Enabled(s, a) && IsProcess(a) && Moded(s) && Sound(s, k)
    ensures Sound(ProcessStep(s, a), k)
    ensures s.durable && Secured(s, k) ==> Secured(ProcessStep(s, a), k)
  {
  }

  lemma StepKeeps(s: State, a: Step, k: Key)
    requires Enabled(s, a) && Moded(s) && Sound(s, k)
    ensures Sound(Apply(s, a), k) && (s.durable && Secured(s, k) ==> Secured(Apply(s, a), k))
  {
    if IsCall(a) {
      CallKeeps(s, a, k);
    } else if IsProcess(a) {
      ProcessKeeps(s, a, k);
    } else {
      PassKeeps(s, a, k);
    }
  }

  lemma StepKeepsAccounts(s: State, a: Step)
    requires Enabled(s, a) && Moded(s) && Accounted(s) && Tallied(s)
    ensures Moded(Apply(s, a)) && Accounted(Apply(s, a)) && Tallied(Apply(s, a))
  {
    if IsCall(a) {
      CallKeepsPass(s, a);
    } else if IsPass(a) {
      PassKeepsAccount(s, a);
      PassKeepsTally(s, a);
    }
  }

  lemma StepKeepsInvariant(s: State, a: Step)
    requires Invariant(s) && Enabled(s, a)
    ensures Invariant(Apply(s, a))
  {
    StepKeepsAccounts(s, a);
    forall k ensures Sound(Apply(s, a), k) {
      StepKeeps(s, a, k);
    }
  }

  lemma StepKeepsAuthority(s: State, a: Step)
    requires Invariant(s) && Durably(s) && Enabled(s, a)
    ensures Durably(Apply(s, a)) && Apply(s, a).durable == s.durable
  {
    if s.durable {
      forall k ensures Secured(Apply(s, a), k) {
        StepKeeps(s, a, k);
      }
    }
  }

  /** In every interleaving of calls, passes, crashes and restarts. */
  lemma {:induction false} EveryRun(s: State, steps: seq<Step>)
    requires Invariant(s) && Durably(s) && Runs(s, steps)
    ensures Invariant(Final(s, steps)) && Durably(Final(s, steps)) && Final(s, steps).durable == s.durable
    decreases |steps|
  {
    if steps != [] {
      StepKeepsInvariant(s, steps[0]);
      StepKeepsAuthority(s, steps[0]);
      EveryRun(Apply(s, steps[0]), steps[1..]);
    }
  }

  ghost predicate Reachable(s: State) {
    exists steps: seq<Step> :: Runs(Init(s.durable), steps) && Final(Init(s.durable), steps) == s
  }

  lemma ReachableIsSound(s: State)
    requires Reachable(s)
    ensures Invariant(s) && Durably(s)
  {
    var steps: seq<Step> :| Runs(Init(s.durable), steps) && Final(Init(s.durable), steps) == s;
    EveryRun(Init(s.durable), steps);
  }

  lemma ReachableContact(s: State, k: Key)
    requires Reachable(s)
    ensures Moded(s) && Sound(s, k) && (s.durable ==> Secured(s, k))
  {
    ReachableIsSound(s);
  }

  // ---- What the journal is for ----

  /** Every acknowledged contact that still runs has its exact key in a durable journal, whatever was
      interrupted, and somebody will still try to stop it, unless the second adapter already failed to. */
  lemma DurableAuthority(s: State, k: Key)
    requires Reachable(s) && s.durable && k in s.acked && k in s.running
    ensures k in s.journal && (Cared(s, k) || k in s.stranded)
  {
    ReachableContact(s, k);
  }

  /** No pass ever stops a contact of a call that is not over: what the startup pass has in hand was
      started by an earlier incarnation, and what a periodic pass has in hand its adapter gave up on. */
  lemma PassSparesLiveCalls(s: State, k: Key)
    requires Reachable(s) && InPass(s, k)
    ensures !s.Live(k) && k !in s.generic && (if s.mode == Reconciling then k in s.earlier else k in s.gaveUp)
  {
    ReachableContact(s, k);
  }

  /** A pass over the journal would not be safe while calls run: it lists every call with media, each
      of them acknowledged. */
  lemma JournalListsLiveCalls(s: State, k: Key)
    requires Reachable(s) && s.Is(k, Media)
    ensures s.Live(k) && k in s.acked && k in s.running && k in s.journal
  {
    ReachableContact(s, k);
  }

  /** An acknowledged contact that runs on after its call, or after a crash, is taken up by the next
      pass that begins exactly when that is a startup pass or the contact is not of the second adapter. */
  lemma NextPassTakesUp(s: State, k: Key)
    requires Reachable(s) && s.durable && k in s.acked && k in s.running && Enabled(s, Begin)
    requires k in s.stages ==> !IsOpen(s.stages[k])
    ensures InPass(Apply(s, Begin), k) <==> s.mode == Booting || k !in s.generic
  {
    ReachableContact(s, k);
  }

  /** Nothing but a crash takes a contact from what the second adapter remembers. */
  lemma StrandedStays(s: State, a: Step, k: Key)
    requires Enabled(s, a) && a != Crash && Moded(s) && Sound(s, k) && k in s.stranded
    ensures k in Apply(s, a).stranded && (k in Apply(s, a).running <==> k in s.running)
  {
    if IsCall(a) && k != a.key {
      CallMovesOne(s, a, k);
    }
  }

  /** A contact the second adapter could not stop runs on, out of reach of every pass, until a crash. */
  lemma {:induction false} StrandedUntilCrash(s: State, steps: seq<Step>, k: Key)
    requires Invariant(s) && k in s.stranded && Runs(s, steps) && Crash !in steps
    ensures var t := Final(s, steps);
      k in t.stranded && (k in t.running <==> k in s.running) && !InPass(t, k) && k !in t.failed
    decreases |steps|
  {
    assert Sound(s, k);
    if steps != [] {
      StepKeepsInvariant(s, steps[0]);
      StrandedStays(s, steps[0], k);
      StrandedUntilCrash(Apply(s, steps[0]), steps[1..], k);
    }
  }

  /** After a crash the startup pass takes up every acknowledged contact, whichever adapter had it. */
  lemma RestartTakesUp(s: State, k: Key)
    requires Reachable(s) && s.durable && k in s.acked && k in s.running && s.mode != Down
    ensures InPass(Apply(Apply(Apply(s, Crash), Restart), Begin), k)
  {
    ReachableContact(s, k);
  }

  /** When the startup pass ends, it reports no more successes than it listed, the records left are
      those listed less those it deleted, and every acknowledged contact that still runs is in the set
      that the periodic pass retries. The reported counts add up exactly when a success was reported
      as often as a record was deleted. */
  lemma StartupReport(s: State)
    requires Reachable(s) && s.mode == Reconciling && Enabled(s, Finish)
    ensures s.pass.value.resolved <= |s.pass.value.listing|
    ensures |s.journal| == |s.pass.value.listing| - |s.pass.value.deleted|
    ensures |s.pass.value.listing| == s.pass.value.resolved + |s.journal|
       <==> s.pass.value.resolved == |s.pass.value.deleted|
    ensures s.durable ==> forall k :: k in s.acked && k in s.running ==> k in s.failed
  {
    ReachableIsSound(s);
    var p := s.pass.value;
    assert p.listing == s.journal + p.deleted;
    if s.durable {
      forall k | k in s.acked && k in s.running ensures k in s.failed {
        ReachableContact(s, k);
      }
    }
  }

  // ---- When the journal is not durable ----

  lemma {:induction false} Extend(s: State, x: seq<Step>, a: Step) returns (x': seq<Step>)
    requires Runs(s, x) && Enabled(Final(s, x), a)
    ensures Runs(s, x') && Final(s, x') == Apply(Final(s, x), a) && x' == x + [a]
    decreases |x|
  {
    x' := x + [a];
    if x == [] {
      assert x'[1..] == [];
    } else {
      var y := Extend(Apply(s, x[0]), x[1..], a);
      assert x'[1..] == y;
    }
  }

  /** A process that admits its first call. */
  lemma Opened(durable: bool, k: Key, second: bool) returns (steps: seq<Step>)
    ensures Runs(Init(durable), steps)
    ensures Final(Init(durable), steps)
         == State({k}, {k}, {}, {}, {}, {}, map[k := Starting], With({}, k, second), {}, {}, {}, None, Admitting, durable)
  {
    var i := Init(durable);
    steps := Extend(i, [], Restart);
    steps := Extend(i, steps, Begin);
    steps := Extend(i, steps, Finish);
    steps := Extend(i, steps, Start(k, second));
  }

  /** A call with media, and any journal. */
  lemma CallWithMedia(durable: bool, k: Key, second: bool) returns (steps: seq<Step>)
    ensures Runs(Init(durable), steps)
    ensures var s := Final(Init(durable), steps);
      s.mode == Admitting && k in s.acked && k in s.running && s.Is(k, Media) && s.durable == durable
      && (k in s.generic <==> second) && s.pass == None && s.failed == {}
  {
    var i := Init(durable);
    steps := Opened(durable, k, second);
    steps := Extend(i, steps, Write(k));
    steps := Extend(i, steps, Ack(k));
    steps := Extend(i, steps, SetUp(k));
  }

  /** Kept in memory, the journal loses the authority over a live call in a crash. */
  lemma MemoryLosesAuthority(k: Key) returns (steps: seq<Step>)
    ensures Runs(Init(false), steps) && !AuthorityHeld(Final(Init(false), steps))
  {
    steps := CallWithMedia(false, k, false);
    var s := Final(Init(false), steps);
    steps := Extend(Init(false), steps, Crash);
    assert !Authorized(Apply(s, Crash), k);
  }

  /** So the authority is held in every reachable state exactly with a durable journal. */
  lemma AuthorityExactlyWhenDurable(durable: bool)
    ensures (forall s :: Reachable(s) && s.durable == durable ==> AuthorityHeld(s)) <==> durable
  {
    if durable {
      forall s | Reachable(s) && s.durable == durable ensures AuthorityHeld(s) {
        forall k ensures Authorized(s, k) {
          ReachableContact(s, k);
        }
      }
    } else {
      var steps := MemoryLosesAuthority(Key("p", "i", "c"));
      var s := Final(Init(false), steps);
      SameDurability(Init(false), steps);
      assert Reachable(s);
    }
  }

  lemma {:induction false} SameDurability(s: State, steps: seq<Step>)
    requires Runs(s, steps)
    ensures Final(s, steps).durable == s.durable
    decreases |steps|
  {
    if steps != [] {
      SameDurability(Apply(s, steps[0]), steps[1..]);
    }
  }

  // ---- When a contact is of the second adapter ----

  /** Its call ended, its stop failed, and the next periodic pass does not list it. */
  lemma SecondAdapterStrands(durable: bool, k: Key) returns (steps: seq<Step>)
    ensures Runs(Init(durable), steps)
    ensures var s := Final(Init(durable), steps);
      && s.Is(k, Finished) && k in s.acked && k in s.running && k in s.journal && k in s.stranded
      && s.mode == Admitting && Enabled(s, Begin) && !InPass(Apply(s, Begin), k)
  {
    var i := Init(durable);
    steps := CallWithMedia(durable, k, true);
    steps := Extend(i, steps, End(k));
    steps := Extend(i, steps, StopFailed(k, true));
  }

  // ---- The journal object ----

  /** How a database call came back: done, refused, or failed after the change was made. */
  datatype Reply = Done | Refused | Lost

  class AmazonCleanupJournal {
    var records: set<Key>

    constructor ()
      ensures records == {}
    {
      records := {};
    }

    /** Insert the key unless it is there. The caller knows it is there only if the reply came. */
    method Retain(key: Key, reply: Reply) returns (ok: bool)
      modifies this
      ensures records == With(old(records), key, reply != Refused)
      ensures reply != Refused ==> forall s: State :: s.journal == old(records) && Enabled(s, Write(key)) ==>
        Apply(s, Write(key)).journal == records
      ensures ok <==> reply == Done
      ensures ok ==> key in records
    {
      if reply == Refused {
        return false;
      }
      records := records + {key};
      return reply == Done;
    }

    /** Delete this key and no other; deleting an absent key succeeds. */
    method Resolve(key: Key, reply: Reply) returns (ok: bool)
      modifies this
      ensures records == Without(old(records), key, reply != Refused)
      ensures reply != Refused ==> forall s: State :: s.journal == old(records) && Enabled(s, Delete(key)) ==>
        Apply(s, Delete(key)).journal == records
      ensures ok <==> reply == Done
      ensures ok ==> key !in records
    {
      if reply == Refused {
        return false;
      }
      records := records - {key};
      return reply == Done;
    }
  }
}
