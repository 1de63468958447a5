/** The observer's store of attempts and SIP sessions.

    Every handler works under one lock, so each locked section is one atomic step. A handler that
    locks twice (a hang-up, a cleanup) is two steps, with anything in between. */
module ObserverStore {
  import opened Options

  const MAX_CALLBACK_TYPES := 16

  datatype Config = Config(maxAttempts: nat, ttl: nat)

  datatype Attempt = Attempt(
    created: int,
    caseId: Option<string>,
    fingerprint: Option<string>,
    callbackTypes: set<string>,
    finalReason: Option<string>,
    headers: set<string>,
    invited: bool,
    established: bool,
    handle: Option<string>,
    hangupRequested: bool,
    byeFromVapi: bool,
    byeFromPeer: bool,
    ended: bool,
    cleaned: bool,
    failed: bool)
  {
    static function Touched(now: int): Attempt {
      Attempt(now, None, None, {}, None, {}, false, false, None, false, false, false, false, false, false)
    }

    predicate Expired(ttl: nat, now: int) {
      now - created >= ttl
    }

    /** An event may bind an attempt that is unbound or already bound the same way. */
    predicate Accepts(case_: string, call: string) {
      (caseId == None || caseId == Some(case_)) && (fingerprint == None || fingerprint == Some(call))
    }
  }

  datatype State = State(attempts: map<string, Attempt>, sessions: map<string, string>) {
    function With(c: string, a: Attempt): State {
      this.(attempts := attempts[c := a])
    }

    /** Without the attempts of `gone` and the sessions that point to them. */
    function Drop(gone: set<string>): State {
      State(
        map c | c in attempts && c !in gone :: attempts[c],
        map s | s in sessions && sessions[s] !in gone :: sessions[s])
    }

    function Reaped(ttl: nat, now: int): State {
      Drop(set c | c in attempts && attempts[c].Expired(ttl, now))
    }

    /** Reap, then make sure there is an attempt for `c` if capacity allows one. */
    function Ensured(cfg: Config, c: string, now: int): State {
      var r := Reaped(cfg.ttl, now);
      if c in r.attempts || |r.attempts| >= cfg.maxAttempts then r else r.With(c, Attempt.Touched(now))
    }
  }

  /** The locked sections. Names of cases and calls have been validated before the lock is taken. */
  datatype Step =
    | Incoming(session: string, c: string, headers: set<string>)
    | Established(session: string, c: string)
    | Finished(session: string, failure: bool)
    | Failure(c: string)
    | HangupBegin(c: string)
    | HangupDone(c: string)
    | CleanupBegin(c: string)
    | CleanupDone(c: string)
    | Event(c: string, caseId: string, fingerprint: string, kind: string, reason: Option<string>)
    | Query
    | ShutdownBegin
    | ShutdownDone

  /** An INVITE is accepted by an attempt that has seen none and has not ended. */
  predicate Admits(cfg: Config, s: State, c: string, now: int) {
    var e := s.Ensured(cfg, c, now);
    c in e.attempts && !e.attempts[c].invited && !e.attempts[c].ended
  }

  function Bind(a: Attempt, caseId: string, fingerprint: string, kind: string, reason: Option<string>): Attempt {
    a.(caseId := Some(caseId), fingerprint := Some(fingerprint),
       callbackTypes := if |a.callbackTypes| < MAX_CALLBACK_TYPES then a.callbackTypes + {kind} else a.callbackTypes,
       finalReason := if reason.Some? then reason else a.finalReason)
  }

  function FinishAttempt(a: Attempt, failure: bool): Attempt {
    a.(handle := None, ended := true,
       byeFromPeer := a.byeFromPeer || a.hangupRequested,
       byeFromVapi := a.byeFromVapi || !a.hangupRequested,
       failed := a.failed || failure)
  }

  function Apply(cfg: Config, s: State, step: Step, now: int): State {
    match step
    case Incoming(session, c, headers) =>
      var e := s.Ensured(cfg, c, now);
      if !Admits(cfg, s, c, now) then e
      else State(e.attempts[c := e.attempts[c].(invited := true, headers := headers)], e.sessions[session := c])
    case Established(session, c) =>
      if c !in s.attempts then s
      else s.With(c, s.attempts[c].(established := true, handle := Some(session)))
    case Finished(session, failure) =>
      if session !in s.sessions then s
      else
        var c := s.sessions[session];
        var closed := s.(sessions := s.sessions - {session});
        if c !in s.attempts then closed else closed.With(c, FinishAttempt(s.attempts[c], failure))
    case Failure(c) =>
      if c !in s.attempts then s else s.With(c, s.attempts[c].(failed := true))
    case HangupBegin(c) =>
      if c !in s.attempts then s
      else if s.attempts[c].ended then s.With(c, s.attempts[c].(byeFromPeer := true))
      else s.With(c, s.attempts[c].(hangupRequested := true))
    case HangupDone(c) =>
      if c !in s.attempts then s else s.With(c, s.attempts[c].(byeFromPeer := true, ended := true))
    case CleanupBegin(c) =>
      if c !in s.attempts then s else s.With(c, s.attempts[c].(handle := None))
    case CleanupDone(c) =>
      var closed := s.(sessions := map x | x in s.sessions && s.sessions[x] != c :: s.sessions[x]);
      if c !in s.attempts then closed else closed.With(c, s.attempts[c].(ended := true, cleaned := true))
    case Event(c, caseId, fingerprint, kind, reason) =>
      var e := s.Ensured(cfg, c, now);
      if c !in e.attempts || !e.attempts[c].Accepts(caseId, fingerprint) then e
      else e.With(c, Bind(e.attempts[c], caseId, fingerprint, kind, reason))
    case Query => s.Reaped(cfg.ttl, now)
    case ShutdownBegin =>
      s.(attempts := map c | c in s.attempts :: s.attempts[c].(handle := None))
    case ShutdownDone =>
      State(map c | c in s.attempts :: s.attempts[c].(ended := true, cleaned := true), map[])
  }

  // ---- What every step keeps ----

  predicate SessionsLive(s: State) {
    forall x :: x in s.sessions ==> s.sessions[x] in s.attempts && s.attempts[s.sessions[x]].invited
  }

  predicate SessionsApart(s: State) {
    forall x, y :: x in s.sessions && y in s.sessions && s.sessions[x] == s.sessions[y] ==> x == y
  }

  predicate Bounded(cfg: Config, s: State) {
    && |s.attempts| <= cfg.maxAttempts
    && forall c :: c in s.attempts ==> |s.attempts[c].callbackTypes| <= MAX_CALLBACK_TYPES
  }

  predicate Inv(cfg: Config, s: State) {
    SessionsLive(s) && SessionsApart(s) && Bounded(cfg, s)
  }

  lemma DropKeeps(cfg: Config, s: State, gone: set<string>)
    requires Inv(cfg, s)
    ensures Inv(cfg, s.Drop(gone))
  {
    var d := s.Drop(gone);
    assert s.attempts.Keys == d.attempts.Keys + (s.attempts.Keys - d.attempts.Keys);
    assert |d.attempts.Keys| <= |s.attempts.Keys|;
  }

  lemma EnsuredKeeps(cfg: Config, s: State, c: string, now: int)
    requires Inv(cfg, s)
    ensures Inv(cfg, s.Ensured(cfg, c, now))
  {
    DropKeeps(cfg, s, set c | c in s.attempts && s.attempts[c].Expired(cfg.ttl, now));
    var r := s.Reaped(cfg.ttl, now);
    if c !in r.attempts && |r.attempts| < cfg.maxAttempts {
      NewAttemptKeeps(cfg, r, c, now);
    }
  }

  lemma NewAttemptKeeps(cfg: Config, r: State, c: string, now: int)
    requires Inv(cfg, r) && c !in r.attempts && |r.attempts| < cfg.maxAttempts
    ensures Inv(cfg, r.With(c, Attempt.Touched(now)))
  {
    assert r.With(c, Attempt.Touched(now)).attempts.Keys == r.attempts.Keys + {c};
  }

  /** Replacing a live attempt keeps the invariant if it stays invited and within bounds. */
  lemma WithKeeps(cfg: Config, s: State, c: string, a: Attempt)
    requires Inv(cfg, s) && c in s.attempts
    requires s.attempts[c].invited ==> a.invited
    requires |a.callbackTypes| <= MAX_CALLBACK_TYPES
    ensures Inv(cfg, s.With(c, a))
  {
    assert s.With(c, a).attempts.Keys == s.attempts.Keys;
  }

  lemma BindKeeps(a: Attempt, step: Step)
    requires step.Event? && |a.callbackTypes| <= MAX_CALLBACK_TYPES
    ensures |Bind(a, step.caseId, step.fingerprint, step.kind, step.reason).callbackTypes| <= MAX_CALLBACK_TYPES
  {
    if step.kind in a.callbackTypes {
      assert a.callbackTypes + {step.kind} == a.callbackTypes;
    }
  }

  lemma IncomingKeeps(cfg: Config, s: State, step: Step, now: int)
    requires Inv(cfg, s) && step.Incoming?
    ensures Inv(cfg, Apply(cfg, s, step, now))
  {
    var e := s.Ensured(cfg, step.c, now);
    EnsuredKeeps(cfg, s, step.c, now);
    if Admits(cfg, s, step.c, now) {
      var a := e.attempts[step.c].(invited := true, headers := step.headers);
      WithKeeps(cfg, e, step.c, a);
      assert forall x :: x in e.sessions ==> e.sessions[x] != step.c;
    }
  }

  lemma ClosingKeeps(cfg: Config, s: State, kept: map<string, string>)
    requires Inv(cfg, s) && forall x :: x in kept ==> x in s.sessions && kept[x] == s.sessions[x]
    ensures Inv(cfg, s.(sessions := kept))
  {
  }

  lemma ShutdownKeeps(cfg: Config, s: State, step: Step, now: int)
    requires Inv(cfg, s) && (step.ShutdownBegin? || step.ShutdownDone?)
    ensures Inv(cfg, Apply(cfg, s, step, now))
  {
    assert Apply(cfg, s, step, now).attempts.Keys == s.attempts.Keys;
  }

  predicate OneAttempt(step: Step) {
    step.Established? || step.Failure? || step.HangupBegin? || step.HangupDone? || step.CleanupBegin?
  }

  lemma OneAttemptKeeps(cfg: Config, s: State, step: Step, now: int)
    requires Inv(cfg, s) && OneAttempt(step)
    ensures Inv(cfg, Apply(cfg, s, step, now))
  {
    if step.c in s.attempts {
      WithKeeps(cfg, s, step.c, Apply(cfg, s, step, now).attempts[step.c]);
    }
  }

  lemma FinishedKeeps(cfg: Config, s: State, step: Step, now: int)
    requires Inv(cfg, s) && step.Finished?
    ensures Inv(cfg, Apply(cfg, s, step, now))
  {
    if step.session in s.sessions {
      var c, kept := s.sessions[step.session], s.sessions - {step.session};
      ClosingKeeps(cfg, s, kept);
      WithKeeps(cfg, s.(sessions := kept), c, FinishAttempt(s.attempts[c], step.failure));
    }
  }

  lemma CleanupDoneKeeps(cfg: Config, s: State, step: Step, now: int)
    requires Inv(cfg, s) && step.CleanupDone?
    ensures Inv(cfg, Apply(cfg, s, step, now))
  {
    var kept := map x | x in s.sessions && s.sessions[x] != step.c :: s.sessions[x];
    ClosingKeeps(cfg, s, kept);
    if step.c in s.attempts {
      WithKeeps(cfg, s.(sessions := kept), step.c, s.attempts[step.c].(ended := true, cleaned := true));
    }
  }

  lemma EventKeeps(cfg: Config, s: State, step: Step, now: int)
    requires Inv(cfg, s) && step.Event?
    ensures Inv(cfg, Apply(cfg, s, step, now))
  {
    EnsuredKeeps(cfg, s, step.c, now);
    var e := s.Ensured(cfg, step.c, now);
    if step.c in e.attempts {
      BindKeeps(e.attempts[step.c], step);
      WithKeeps(cfg, e, step.c, Bind(e.attempts[step.c], step.caseId, step.fingerprint, step.kind, step.reason));
    }
  }

  lemma StepKeeps(cfg: Config, s: State, step: Step, now: int)
    requires Inv(cfg, s)
    ensures Inv(cfg, Apply(cfg, s, step, now))
  {
    if OneAttempt(step) {
      OneAttemptKeeps(cfg, s, step, now);
    } else {
      match step
      case Incoming(_, _, _) => IncomingKeeps(cfg, s, step, now);
      case Finished(_, _) => FinishedKeeps(cfg, s, step, now);
      case CleanupDone(_) => CleanupDoneKeeps(cfg, s, step, now);
      case Event(_, _, _, _, _) => EventKeeps(cfg, s, step, now);
      case Query => DropKeeps(cfg, s, set c | c in s.attempts && s.attempts[c].Expired(cfg.ttl, now));
      case ShutdownBegin => ShutdownKeeps(cfg, s, step, now);
      case ShutdownDone => ShutdownKeeps(cfg, s, step, now);
    }
  }

  // ---- One lifetime of an attempt ----

  /** What never changes back while an attempt lives. */
  predicate Persists(a: Attempt, b: Attempt) {
    && b.created == a.created
    && (a.invited ==> b.invited)
    && (a.ended ==> b.ended)
    && (a.caseId.Some? ==> b.caseId == a.caseId)
    && (a.fingerprint.Some? ==> b.fingerprint == a.fingerprint)
  }

  /** Between two moments, `c` is the same attempt and persists, or the old one lived out its time
      and any new one was created after it. */
  predicate Evolves(cfg: Config, c: string, s: State, t: int, s': State, t': int) {
    var bound := if c in s.attempts then s.attempts[c].created + cfg.ttl else t;
    && t <= t'
    && (c in s'.attempts ==>
          || (c in s.attempts && Persists(s.attempts[c], s'.attempts[c]))
          || bound <= s'.attempts[c].created <= t')
    && (c !in s'.attempts ==> t' >= bound)
  }

  lemma EvolvesOn(cfg: Config, c: string, s0: State, t0: int, s1: State, t1: int, s2: State, t2: int)
    requires Evolves(cfg, c, s0, t0, s1, t1) && Evolves(cfg, c, s1, t1, s2, t2)
    ensures Evolves(cfg, c, s0, t0, s2, t2)
  {
  }

  lemma EnsuredEvolves(cfg: Config, c: string, s: State, t: int, d: string, now: int)
    requires t <= now
    ensures Evolves(cfg, c, s, t, s.Ensured(cfg, d, now), now)
    ensures Evolves(cfg, c, s, t, s.Reaped(cfg.ttl, now), now)
  {
  }

  lemma StepEvolves(cfg: Config, c: string, s: State, t: int, step: Step, now: int)
    requires t <= now
    ensures Evolves(cfg, c, s, t, Apply(cfg, s, step, now), now)
  {
    if step.Incoming? || step.Event? {
      EnsuredEvolves(cfg, c, s, t, step.c, now);
    } else if step.Query? {
      EnsuredEvolves(cfg, c, s, t, c, now);
    }
  }

  // ---- Every run ----

  datatype Timed = Timed(step: Step, now: int)

  predicate InOrder(t: int, run: seq<Timed>)
    decreases |run|
  {
    run == [] || (t <= run[0].now && InOrder(run[0].now, run[1..]))
  }

  function After(cfg: Config, s: State, run: seq<Timed>): State
    decreases |run|
  {
    if run == [] then s else After(cfg, Apply(cfg, s, run[0].step, run[0].now), run[1..])
  }

  function Clock(t: int, run: seq<Timed>): int {
    if run == [] then t else run[|run| - 1].now
  }

  /** Over every run: each session points to a live attempt that has its INVITE, no two sessions
      share one, and attempts and their callback types stay within their limits. */
  lemma {:induction false} RunKeeps(cfg: Config, s: State, run: seq<Timed>)
    requires Inv(cfg, s)
    ensures Inv(cfg, After(cfg, s, run))
    decreases |run|
  {
    if run != [] {
      StepKeeps(cfg, s, run[0].step, run[0].now);
      RunKeeps(cfg, Apply(cfg, s, run[0].step, run[0].now), run[1..]);
    }
  }

  lemma {:induction false} RunEvolves(cfg: Config, c: string, s: State, t: int, run: seq<Timed>)
    requires InOrder(t, run)
    ensures Evolves(cfg, c, s, t, After(cfg, s, run), Clock(t, run))
    decreases |run|
  {
    if run != [] {
      var s1, t1 := Apply(cfg, s, run[0].step, run[0].now), run[0].now;
      StepEvolves(cfg, c, s, t, run[0].step, t1);
      RunEvolves(cfg, c, s1, t1, run[1..]);
      assert Clock(t1, run[1..]) == Clock(t, run);
      EvolvesOn(cfg, c, s, t, s1, t1, After(cfg, s, run), Clock(t, run));
    }
  }

  /** Once an attempt has its INVITE or has ended, no INVITE for its correlation is accepted until
      its lifetime is over: at most one in each lifetime, and none after its end. */
  lemma {:induction false} OneInvitePerLifetime(cfg: Config, c: string, s: State, t: int, run: seq<Timed>, now: int)
    requires c in s.attempts && (s.attempts[c].invited || s.attempts[c].ended)
    requires InOrder(t, run) && Clock(t, run) <= now
    ensures Admits(cfg, After(cfg, s, run), c, now) ==> now >= s.attempts[c].created + cfg.ttl
  {
    RunEvolves(cfg, c, s, t, run);
    var s', t' := After(cfg, s, run), Clock(t, run);
    var e := s'.Ensured(cfg, c, now);
    EnsuredEvolves(cfg, c, s', t', c, now);
    EvolvesOn(cfg, c, s, t, s', t', e, now);
  }

  /** A bound case and call never change while the attempt lives. */
  lemma {:induction false} BindingPersists(cfg: Config, c: string, s: State, t: int, run: seq<Timed>)
    requires c in s.attempts && InOrder(t, run) && Clock(t, run) < s.attempts[c].created + cfg.ttl
    ensures c in After(cfg, s, run).attempts
    ensures s.attempts[c].caseId.Some? ==> After(cfg, s, run).attempts[c].caseId == s.attempts[c].caseId
    ensures s.attempts[c].fingerprint.Some? ==> After(cfg, s, run).attempts[c].fingerprint == s.attempts[c].fingerprint
  {
    RunEvolves(cfg, c, s, t, run);
  }

  // ---- The second section of a hang-up or cleanup ----

  /** Whatever runs in between, at time `until` the correlation still names the attempt it named. */
  ghost predicate SameAttemptUntil(cfg: Config, c: string, s: State, t: int, until: int)
    requires c in s.attempts
  {
    forall run: seq<Timed> :: InOrder(t, run) && Clock(t, run) == until ==>
      c in After(cfg, s, run).attempts && After(cfg, s, run).attempts[c].created == s.attempts[c].created
  }

  /** The first section of a hang-up or cleanup of `c`, from which the handler goes on to its second. */
  predicate Begins(s: State, c: string, first: Step) {
    && c in s.attempts
    && (first == CleanupBegin(c)
        || (first == HangupBegin(c) && !s.attempts[c].ended && s.attempts[c].handle.Some?))
  }

  lemma BeginsOn(cfg: Config, c: string, s: State, first: Step, t: int)
    requires Inv(cfg, s) && Begins(s, c, first)
    ensures var b := Apply(cfg, s, first, t);
      Inv(cfg, b) && c in b.attempts && b.attempts[c].created == s.attempts[c].created
  {
    OneAttemptKeeps(cfg, s, first, t);
  }

  /** A hang-up or cleanup ends, in its second section, the attempt it began with in every run, exactly
      when that section comes before the attempt's TTL is over. */
  lemma SecondSectionExactly(cfg: Config, c: string, s: State, first: Step, t: int, until: int)
    requires Inv(cfg, s) && Begins(s, c, first) && t <= until && cfg.ttl >= 1
    ensures c in Apply(cfg, s, first, t).attempts
    ensures SameAttemptUntil(cfg, c, Apply(cfg, s, first, t), t, until) <==> until < s.attempts[c].created + cfg.ttl
  {
    var b := Apply(cfg, s, first, t);
    BeginsOn(cfg, c, s, first, t);
    if until < s.attempts[c].created + cfg.ttl {
      forall run: seq<Timed> | InOrder(t, run) && Clock(t, run) == until
        ensures c in After(cfg, b, run).attempts && After(cfg, b, run).attempts[c].created == b.attempts[c].created
      {
        RunEvolves(cfg, c, b, t, run);
      }
    } else {
      var run := AnotherAttempt(cfg, c, s, first, t, until);
    }
  }

  /** Later than that, the second section may end another attempt of the same correlation, which has
      had no INVITE. */
  lemma AnotherAttempt(cfg: Config, c: string, s: State, first: Step, t: int, until: int) returns (run: seq<Timed>)
    requires Inv(cfg, s) && Begins(s, c, first) && t <= until && until >= s.attempts[c].created + cfg.ttl
    ensures InOrder(t, run) && Clock(t, run) == until
    ensures var s' := After(cfg, Apply(cfg, s, first, t), run);
      && c in s'.attempts && s'.attempts[c].created == until && !s'.attempts[c].invited && !s'.attempts[c].ended
      && Apply(cfg, s', HangupDone(c), until).attempts[c].ended
      && Apply(cfg, s', CleanupDone(c), until).attempts[c].ended
  {
    BeginsOn(cfg, c, s, first, t);
    run := Recreated(cfg, c, Apply(cfg, s, first, t), t, until);
  }

  /** A callback that comes when the attempt has expired makes another one. */
  lemma Recreated(cfg: Config, c: string, s: State, t: int, until: int) returns (run: seq<Timed>)
    requires Inv(cfg, s) && c in s.attempts && t <= until && until >= s.attempts[c].created + cfg.ttl
    ensures InOrder(t, run) && Clock(t, run) == until
    ensures var s' := After(cfg, s, run);
      c in s'.attempts && s'.attempts[c].created == until && !s'.attempts[c].invited && !s'.attempts[c].ended
  {
    var event := Event(c, "static-sip-echo", "0123456789ab", "status-update", None);
    run := [Timed(event, until)];
    assert run[1..] == [];
    RoomAfterReaping(cfg, c, s, until);
    assert s.Ensured(cfg, c, until).attempts[c] == Attempt.Touched(until);
    assert After(cfg, s, run) == Apply(cfg, s, event, until);
  }

  lemma RoomAfterReaping(cfg: Config, c: string, s: State, now: int)
    requires Bounded(cfg, s) && c in s.attempts && s.attempts[c].Expired(cfg.ttl, now)
    ensures c !in s.Reaped(cfg.ttl, now).attempts && |s.Reaped(cfg.ttl, now).attempts| < cfg.maxAttempts
  {
    var kept := s.Reaped(cfg.ttl, now).attempts.Keys;
    assert s.attempts.Keys == kept + (s.attempts.Keys - kept);
    assert c in s.attempts.Keys - kept;
    assert |s.attempts| == |s.attempts.Keys|;
  }

  // ---- What a cleanup leaves behind ----

  /** Ended, and with no session left: the state a cleanup's second section leaves. */
  predicate Retired(s: State, c: string) {
    c in s.attempts && s.attempts[c].ended && forall x :: x in s.sessions ==> s.sessions[x] != c
  }

  /** Whether `c` has a live handle after the run: the last establishment, cleanup or shutdown decides. */
  predicate Held(c: string, held: bool, run: seq<Timed>)
    decreases |run|
  {
    if run == [] then held else Held(c, HeldAfter(c, held, run[0].step), run[1..])
  }

  predicate HeldAfter(c: string, held: bool, step: Step) {
    (step.Established? && step.c == c) || (held && step != CleanupBegin(c) && step != ShutdownBegin)
  }

  lemma CleanupRetires(cfg: Config, s: State, c: string, now: int)
    requires c in s.attempts
    ensures var s' := Apply(cfg, s, CleanupDone(c), now);
      Retired(s', c) && s'.attempts[c].cleaned && s'.attempts[c].handle == s.attempts[c].handle
  {
  }

  lemma EnsuredRetired(cfg: Config, s: State, c: string, d: string, now: int)
    requires Retired(s, c) && now < s.attempts[c].created + cfg.ttl
    ensures var e := s.Ensured(cfg, d, now); Retired(e, c) && e.attempts[c] == s.attempts[c]
    ensures var e := s.Reaped(cfg.ttl, now); Retired(e, c) && e.attempts[c] == s.attempts[c]
  {
  }

  /** The sections that reap touch neither a live attempt that has ended nor its handle. */
  lemma ReapingRetired(cfg: Config, s: State, c: string, step: Step, now: int)
    requires Retired(s, c) && now < s.attempts[c].created + cfg.ttl
    requires step.Incoming? || step.Event? || step.Query?
    ensures RetiredAs(Apply(cfg, s, step, now), c, s.attempts[c].created, s.attempts[c].handle)
  {
    EnsuredRetired(cfg, s, c, if step.Query? then c else step.c, now);
  }

  predicate RetiredAs(s: State, c: string, created: int, handle: Option<string>) {
    Retired(s, c) && s.attempts[c].created == created && s.attempts[c].handle == handle
  }

  lemma OneAttemptRetired(cfg: Config, s: State, c: string, step: Step, now: int)
    requires Retired(s, c) && OneAttempt(step)
    ensures var s' := Apply(cfg, s, step, now);
      && Retired(s', c) && s'.attempts[c].created == s.attempts[c].created
      && (s'.attempts[c].handle.Some? <==> HeldAfter(c, s.attempts[c].handle.Some?, step))
  {
  }

  lemma ClosingRetired(cfg: Config, s: State, c: string, step: Step, now: int)
    requires Retired(s, c) && (step.Finished? || step.CleanupDone? || step.ShutdownBegin? || step.ShutdownDone?)
    ensures RetiredAs(Apply(cfg, s, step, now), c, s.attempts[c].created,
              if step.ShutdownBegin? then None else s.attempts[c].handle)
  {
  }

  /** The handle goes with the first section of a cleanup or shutdown, and with no end of a session. */
  lemma StepRetired(cfg: Config, s: State, c: string, step: Step, now: int)
    requires Retired(s, c) && now < s.attempts[c].created + cfg.ttl
    ensures var s' := Apply(cfg, s, step, now);
      && Retired(s', c) && s'.attempts[c].created == s.attempts[c].created
      && (s'.attempts[c].handle.Some? <==> HeldAfter(c, s.attempts[c].handle.Some?, step))
  {
    if step.Incoming? || step.Event? || step.Query? {
      ReapingRetired(cfg, s, c, step, now);
    } else if OneAttempt(step) {
      OneAttemptRetired(cfg, s, c, step, now);
    } else {
      ClosingRetired(cfg, s, c, step, now);
    }
  }

  /** For the rest of its lifetime a cleaned attempt holds a handle exactly when the last establishment
      for it is later than the last cleanup or shutdown that began, or had come before its cleanup was
      done: no end of a session takes that handle away. */
  lemma {:induction false} CleanedHandleExactly(cfg: Config, c: string, s: State, t: int, run: seq<Timed>)
    requires Retired(s, c) && InOrder(t, run) && Clock(t, run) < s.attempts[c].created + cfg.ttl
    ensures var s' := After(cfg, s, run);
      Retired(s', c) && (s'.attempts[c].handle.Some? <==> Held(c, s.attempts[c].handle.Some?, run))
    decreases |run|
  {
    if run != [] {
      var step, now := run[0].step, run[0].now;
      ClockIsLast(now, run[1..]);
      assert Clock(now, run[1..]) == Clock(t, run);
      StepRetired(cfg, s, c, step, now);
      CleanedHandleExactly(cfg, c, Apply(cfg, s, step, now), now, run[1..]);
    }
  }

  lemma {:induction false} ClockIsLast(t: int, run: seq<Timed>)
    requires InOrder(t, run)
    ensures t <= Clock(t, run)
    decreases |run|
  {
    if run != [] {
      ClockIsLast(run[0].now, run[1..]);
    }
  }

  /** One more step at the end of a run. */
  lemma {:induction false} Then(cfg: Config, s: State, t: int, run: seq<Timed>, step: Step) returns (longer: seq<Timed>)
    requires InOrder(t, run)
    ensures InOrder(t, longer) && Clock(t, longer) == Clock(t, run)
    ensures After(cfg, s, longer) == Apply(cfg, After(cfg, s, run), step, Clock(t, run))
    ensures longer == run + [Timed(step, Clock(t, run))]
    decreases |run|
  {
    longer := run + [Timed(step, Clock(t, run))];
    if run == [] {
      assert longer[1..] == [];
    } else {
      assert Clock(run[0].now, run[1..]) == Clock(t, run);
      var tail := Then(cfg, Apply(cfg, s, run[0].step, run[0].now), run[0].now, run[1..], step);
      assert longer[1..] == tail;
    }
  }

  lemma Invited(cfg: Config, c: string, x: string, t: int)
    requires cfg.maxAttempts >= 1 && cfg.ttl >= 1
    ensures var s := Apply(cfg, State(map[], map[]), Incoming(x, c, {}), t); c in s.attempts && s.attempts[c].invited
  {
  }

  /** A call established while its cleanup is under way leaves a cleaned attempt with a live handle. */
  lemma LateEstablishment(cfg: Config, c: string, x: string, t: int) returns (run: seq<Timed>)
    requires cfg.maxAttempts >= 1 && cfg.ttl >= 1
    ensures InOrder(t, run)
    ensures var s := After(cfg, State(map[], map[]), run);
      Retired(s, c) && s.attempts[c].cleaned && s.attempts[c].handle == Some(x)
  {
    var s := State(map[], map[]);
    Invited(cfg, c, x, t);
    run := Then(cfg, s, t, [], Incoming(x, c, {}));
    run := Then(cfg, s, t, run, CleanupBegin(c));
    run := Then(cfg, s, t, run, Established(x, c));
    CleanupRetires(cfg, After(cfg, s, run), c, t);
    run := Then(cfg, s, t, run, CleanupDone(c));
  }

  // ---- The store object ----

  /** The maps behind the lock, updated in place by each locked section. */
  class Store {
    const cfg: Config
    var attempts: map<string, Attempt>
    var sessions: map<string, string>

    function View(): State
      reads this
    {
      State(attempts, sessions)
    }

    constructor (cfg: Config)
      ensures this.cfg == cfg && View() == State(map[], map[]) && Inv(cfg, View())
    {
      this.cfg, attempts, sessions := cfg, map[], map[];
    }

    /** Remove expired attempts one by one, each with the sessions that point to it. */
    method ReapExpired(now: int)
      modifies this
      ensures View() == old(View()).Reaped(cfg.ttl, now)
    {
      ghost var before := View();
      var expired := set c | c in attempts && attempts[c].Expired(cfg.ttl, now);
      ghost var all := expired;
      assert before.Drop({}) == before by {
        assert before.Drop({}).attempts == attempts && before.Drop({}).sessions == sessions;
      }
      while expired != {}
        invariant expired <= all
        invariant View() == before.Drop(all - expired)
        decreases |expired|
      {
        var c :| c in expired;
        attempts := attempts - {c};
        sessions := map x | x in sessions && sessions[x] != c :: sessions[x];
        assert View().attempts == before.Drop(all - (expired - {c})).attempts;
        assert View().sessions == before.Drop(all - (expired - {c})).sessions;
        expired := expired - {c};
      }
      assert all - expired == all;
    }

    /** Reap, then find or create the attempt for `c`; refuse when the store is full. */
    method EnsureAttempt(c: string, now: int) returns (ok: bool)
      modifies this
      ensures View() == old(View()).Ensured(cfg, c, now)
      ensures ok <==> c in attempts
    {
      ReapExpired(now);
      if c !in attempts && |attempts| >= cfg.maxAttempts {
        return false;
      }
      if c !in attempts {
        attempts := attempts[c := Attempt.Touched(now)];
      }
      return true;
    }

    method OnIncomingCall(session: string, c: string, headers: set<string>, now: int) returns (accepted: bool)
      requires Inv(cfg, View())
      modifies this
      ensures View() == Apply(cfg, old(View()), Incoming(session, c, headers), now)
      ensures Inv(cfg, View())
      ensures accepted <==> Admits(cfg, old(View()), c, now)
    {
      IncomingKeeps(cfg, View(), Incoming(session, c, headers), now);
      var ok := EnsureAttempt(c, now);
      if !ok {
        return false;
      }
      var attempt := attempts[c];
      if attempt.invited || attempt.ended {
        return false;
      }
      attempts := attempts[c := attempt.(invited := true, headers := headers)];
      sessions := sessions[session := c];
      return true;
    }

    method FinishSession(session: string, failure: bool, now: int)
      requires Inv(cfg, View())
      modifies this
      ensures View() == Apply(cfg, old(View()), Finished(session, failure), now)
      ensures Inv(cfg, View())
    {
      FinishedKeeps(cfg, View(), Finished(session, failure), now);
      if session !in sessions {
        return;
      }
      var c := sessions[session];
      sessions := sessions - {session};
      if c in attempts {
        var attempt := attempts[c].(handle := None, ended := true);
        if attempt.hangupRequested {
          attempt := attempt.(byeFromPeer := true);
        } else {
          attempt := attempt.(byeFromVapi := true);
        }
        if failure {
          attempt := attempt.(failed := true);
        }
        attempts := attempts[c := attempt];
      }
    }

    /** The second locked section of a cleanup. */
    method CleanupAttempt(c: string, now: int)
      requires Inv(cfg, View())
      modifies this
      ensures View() == Apply(cfg, old(View()), CleanupDone(c), now)
      ensures Inv(cfg, View())
    {
      CleanupDoneKeeps(cfg, View(), CleanupDone(c), now);
      sessions := map x | x in sessions && sessions[x] != c :: sessions[x];
      if c in attempts {
        attempts := attempts[c := attempts[c].(ended := true, cleaned := true)];
      }
    }

    /** The locked section of a callback: bind the attempt, or refuse a different binding. */
    method VapiEvent(c: string, caseId: string, fingerprint: string, kind: string, reason: Option<string>, now: int)
      returns (bound: bool)
      requires Inv(cfg, View())
      modifies this
      ensures View() == Apply(cfg, old(View()), Event(c, caseId, fingerprint, kind, reason), now)
      ensures Inv(cfg, View())
      ensures bound <==>
        c in old(View()).Ensured(cfg, c, now).attempts
        && old(View()).Ensured(cfg, c, now).attempts[c].Accepts(caseId, fingerprint)
    {
      EventKeeps(cfg, View(), Event(c, caseId, fingerprint, kind, reason), now);
      var ok := EnsureAttempt(c, now);
      if !ok {
        return false;
      }
      if !attempts[c].Accepts(caseId, fingerprint) {
        return false;
      }
      var attempt := Recorded(attempts[c], caseId, fingerprint, kind, reason);
      attempts := attempts[c := attempt];
      return true;
    }

    static method Recorded(a: Attempt, caseId: string, fingerprint: string, kind: string, reason: Option<string>)
      returns (b: Attempt)
      ensures b == Bind(a, caseId, fingerprint, kind, reason)
    {
      b := a.(caseId := Some(caseId), fingerprint := Some(fingerprint));
      if |b.callbackTypes| < MAX_CALLBACK_TYPES {
        b := b.(callbackTypes := b.callbackTypes + {kind});
      }
      if reason.Some? {
        b := b.(finalReason := reason);
      }
    }
  }
}
