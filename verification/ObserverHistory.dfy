/** What an attempt records of its own lifetime, told from the events that concern it. */
module ObserverHistory {
  import opened Options
  import opened ObserverStore

  /** What a locked section means to one attempt. */
  datatype Happening =
    | Invite(headers: set<string>)
    | Answer(session: string)
    | Over(failure: bool)
    | Ask
    | HungUp
    | Release
    | Cleaned
    | Fail
    | Callback(caseId: string, fingerprint: string, kind: string, reason: Option<string>)
    | Nothing

  /** A session that ends matters to the attempt it points to; a shutdown matters to all. */
  function HappeningOf(s: State, c: string, step: Step): Happening {
    match step
    case Incoming(_, d, headers) => if d == c then Invite(headers) else Nothing
    case Established(session, d) => if d == c then Answer(session) else Nothing
    case Finished(session, failure) =>
      if session in s.sessions && s.sessions[session] == c then Over(failure) else Nothing
    case Failure(d) => if d == c then Fail else Nothing
    case HangupBegin(d) => if d == c then Ask else Nothing
    case HangupDone(d) => if d == c then HungUp else Nothing
    case CleanupBegin(d) => if d == c then Release else Nothing
    case CleanupDone(d) => if d == c then Cleaned else Nothing
    case Event(d, caseId, fingerprint, kind, reason) =>
      if d == c then Callback(caseId, fingerprint, kind, reason) else Nothing
    case Query => Nothing
    case ShutdownBegin => Release
    case ShutdownDone => Cleaned
  }

  function Happenings(cfg: Config, s: State, c: string, run: seq<Timed>): seq<Happening>
    decreases |run|
  {
    if run == [] then []
    else [HappeningOf(s, c, run[0].step)] + Happenings(cfg, Apply(cfg, s, run[0].step, run[0].now), c, run[1..])
  }

  // ---- What the record should say ----

  predicate Ends(h: Happening) {
    h.Over? || h.HungUp? || h.Cleaned?
  }

  /** The attempt has come to its end. */
  ghost predicate HasEnded(hs: seq<Happening>) {
    exists i :: 0 <= i < |hs| && Ends(hs[i])
  }

  /** A hang-up was asked for before the end. */
  ghost predicate WasAsked(hs: seq<Happening>) {
    exists i :: 0 <= i < |hs| && hs[i].Ask? && !HasEnded(hs[..i])
  }

  /** The call ended without this side having asked. */
  ghost predicate TheyHungUp(hs: seq<Happening>) {
    exists i :: 0 <= i < |hs| && hs[i].Over? && !WasAsked(hs[..i])
  }

  /** The call ended after this side had asked, or a hang-up was done, or asked for after the end. */
  ghost predicate WeHungUp(hs: seq<Happening>) {
    exists i :: 0 <= i < |hs| && WeHungUpAt(hs, i)
  }

  ghost predicate WeHungUpAt(hs: seq<Happening>, i: int)
    requires 0 <= i < |hs|
  {
    (hs[i].Over? && WasAsked(hs[..i])) || hs[i].HungUp? || (hs[i].Ask? && HasEnded(hs[..i]))
  }

  ghost predicate HasFailed(hs: seq<Happening>) {
    exists i :: 0 <= i < |hs| && (hs[i].Fail? || (hs[i].Over? && hs[i].failure))
  }

  ghost predicate WasAnswered(hs: seq<Happening>) {
    exists i :: 0 <= i < |hs| && hs[i].Answer?
  }

  ghost predicate WasCleaned(hs: seq<Happening>) {
    exists i :: 0 <= i < |hs| && hs[i].Cleaned?
  }

  /** The one INVITE that is accepted is the first, if the attempt has not ended by then. */
  ghost predicate AcceptedInvite(hs: seq<Happening>, i: int) {
    0 <= i < |hs| && hs[i].Invite? && !HasEnded(hs[..i]) && forall j :: 0 <= j < i ==> !hs[j].Invite?
  }

  /** The first callback binds the attempt. */
  ghost predicate FirstCallback(hs: seq<Happening>, i: int) {
    0 <= i < |hs| && hs[i].Callback? && forall j :: 0 <= j < i ==> !hs[j].Callback?
  }

  /** A callback is recorded if it is for the case and call of the first one. */
  ghost predicate Recorded(hs: seq<Happening>, i: int) {
    && 0 <= i < |hs| && hs[i].Callback?
    && forall j :: FirstCallback(hs, j) ==> hs[i].caseId == hs[j].caseId && hs[i].fingerprint == hs[j].fingerprint
  }

  /** The last reason that is recorded. */
  ghost predicate LastReason(hs: seq<Happening>, i: int) {
    Recorded(hs, i) && hs[i].reason.Some? && forall j :: i < j < |hs| && Recorded(hs, j) ==> hs[j].reason.None?
  }

  ghost predicate SignalsRecorded(a: Attempt, hs: seq<Happening>) {
    && (a.ended <==> HasEnded(hs)) && (a.hangupRequested <==> WasAsked(hs))
    && (a.byeFromVapi <==> TheyHungUp(hs)) && (a.byeFromPeer <==> WeHungUp(hs))
  }

  ghost predicate OutcomeRecorded(a: Attempt, hs: seq<Happening>) {
    (a.failed <==> HasFailed(hs)) && (a.established <==> WasAnswered(hs)) && (a.cleaned <==> WasCleaned(hs))
  }

  ghost predicate InviteRecorded(a: Attempt, hs: seq<Happening>) {
    && (a.invited <==> exists i :: AcceptedInvite(hs, i))
    && (forall i :: AcceptedInvite(hs, i) ==> a.headers == hs[i].headers)
    && (!a.invited ==> a.headers == {})
  }

  ghost predicate BindingRecorded(a: Attempt, hs: seq<Happening>) {
    && (forall i :: FirstCallback(hs, i) ==> a.caseId == Some(hs[i].caseId) && a.fingerprint == Some(hs[i].fingerprint))
    && ((forall i :: 0 <= i < |hs| ==> !hs[i].Callback?) ==> a.caseId == None && a.fingerprint == None)
  }

  ghost predicate ReasonRecorded(a: Attempt, hs: seq<Happening>) {
    && (forall i :: LastReason(hs, i) ==> a.finalReason == hs[i].reason)
    && ((forall i :: !LastReason(hs, i)) ==> a.finalReason == None)
  }

  /** Only kinds of recorded callbacks are listed, and all of them until the list is full. */
  ghost predicate KindsListed(kinds: set<string>, hs: seq<Happening>) {
    && (forall kind :: kind in kinds ==> exists i :: Recorded(hs, i) && hs[i].kind == kind)
    && (|kinds| < 16 ==> forall i :: Recorded(hs, i) ==> hs[i].kind in kinds)
    && |kinds| <= 16
  }

  ghost predicate KindsRecorded(a: Attempt, hs: seq<Happening>) {
    KindsListed(a.callbackTypes, hs)
  }

  // ---- What each happening does to the attempt ----

  function Changed(a: Attempt, h: Happening): Attempt {
    match h
    case Invite(headers) => if a.invited || a.ended then a else a.(invited := true, headers := headers)
    case Answer(session) => a.(established := true, handle := Some(session))
    case Over(failure) => FinishAttempt(a, failure)
    case Ask => if a.ended then a.(byeFromPeer := true) else a.(hangupRequested := true)
    case HungUp => a.(byeFromPeer := true, ended := true)
    case Release => a.(handle := None)
    case Cleaned => a.(ended := true, cleaned := true)
    case Fail => a.(failed := true)
    case Callback(caseId, fingerprint, kind, reason) =>
      if a.Accepts(caseId, fingerprint) then Bind(a, caseId, fingerprint, kind, reason) else a
    case Nothing => a
  }

  lemma {:induction false} ReapingSpares(cfg: Config, s: State, c: string, d: string, now: int)
    requires c in s.attempts && now < s.attempts[c].created + cfg.ttl
    ensures var e := s.Ensured(cfg, d, now); c in e.attempts && e.attempts[c] == s.attempts[c]
    ensures var e := s.Reaped(cfg.ttl, now); c in e.attempts && e.attempts[c] == s.attempts[c]
  {
  }

  /** While an attempt lives, a locked section changes it as the happening says, and nothing else does. */
  lemma {:induction false} StepChanges(cfg: Config, s: State, c: string, step: Step, now: int)
    requires c in s.attempts && now < s.attempts[c].created + cfg.ttl
    ensures c in Apply(cfg, s, step, now).attempts
    ensures Apply(cfg, s, step, now).attempts[c] == Changed(s.attempts[c], HappeningOf(s, c, step))
  {
    if step.Incoming? || step.Event? || step.Query? {
      ReapingChanges(cfg, s, c, step, now);
    }
  }

  lemma {:induction false} ReapingChanges(cfg: Config, s: State, c: string, step: Step, now: int)
    requires c in s.attempts && now < s.attempts[c].created + cfg.ttl && (step.Incoming? || step.Event? || step.Query?)
    ensures c in Apply(cfg, s, step, now).attempts
    ensures Apply(cfg, s, step, now).attempts[c] == Changed(s.attempts[c], HappeningOf(s, c, step))
  {
    ReapingSpares(cfg, s, c, if step.Query? then c else step.c, now);
  }

  // ---- One more happening ----

  lemma {:induction false} EndedOn(hs: seq<Happening>, h: Happening)
    ensures HasEnded(hs + [h]) <==> HasEnded(hs) || Ends(h)
  {
    var all := hs + [h];
    if i :| 0 <= i < |hs| && Ends(hs[i]) {
      assert all[i] == hs[i];
    }
    assert Ends(h) ==> Ends(all[|hs|]);
  }

  lemma {:induction false} AskedOn(hs: seq<Happening>, h: Happening)
    ensures WasAsked(hs + [h]) <==> WasAsked(hs) || (h.Ask? && !HasEnded(hs))
  {
    var all := hs + [h];
    forall i | 0 <= i <= |hs| ensures all[..i] == hs[..i] {
    }
    assert hs[..|hs|] == hs;
    if i :| 0 <= i < |hs| && hs[i].Ask? && !HasEnded(hs[..i]) {
      assert all[i].Ask? && !HasEnded(all[..i]);
    }
    if h.Ask? && !HasEnded(hs) {
      assert all[|hs|].Ask? && !HasEnded(all[..|hs|]);
    }
  }

  lemma {:induction false} TheyOn(hs: seq<Happening>, h: Happening)
    ensures TheyHungUp(hs + [h]) <==> TheyHungUp(hs) || (h.Over? && !WasAsked(hs))
  {
    var all := hs + [h];
    forall i | 0 <= i <= |hs| ensures all[..i] == hs[..i] {
    }
    assert hs[..|hs|] == hs;
    if i :| 0 <= i < |hs| && hs[i].Over? && !WasAsked(hs[..i]) {
      assert all[i].Over? && !WasAsked(all[..i]);
    }
    if h.Over? && !WasAsked(hs) {
      assert all[|hs|].Over? && !WasAsked(all[..|hs|]);
    }
  }

  lemma {:induction false} WeOn(hs: seq<Happening>, h: Happening)
    ensures WeHungUp(hs + [h]) <==>
      WeHungUp(hs) || (h.Over? && WasAsked(hs)) || h.HungUp? || (h.Ask? && HasEnded(hs))
  {
    var all := hs + [h];
    forall i | 0 <= i <= |hs| ensures all[..i] == hs[..i] {
    }
    assert hs[..|hs|] == hs;
    assert forall i :: 0 <= i < |hs| ==> (WeHungUpAt(all, i) <==> WeHungUpAt(hs, i));
    assert WeHungUpAt(all, |hs|) <==> (h.Over? && WasAsked(hs)) || h.HungUp? || (h.Ask? && HasEnded(hs));
  }

  // ---- What each happening does to one part of the record ----

  lemma {:induction false} SignalsChange(a: Attempt, h: Happening, b: Attempt)
    requires b == Changed(a, h)
    ensures b.ended <==> a.ended || Ends(h)
    ensures b.hangupRequested <==> a.hangupRequested || (h.Ask? && !a.ended)
    ensures b.byeFromVapi <==> a.byeFromVapi || (h.Over? && !a.hangupRequested)
    ensures b.byeFromPeer <==> a.byeFromPeer || (h.Over? && a.hangupRequested) || h.HungUp? || (h.Ask? && a.ended)
  {
    match h
    case Invite(_) =>
    case Answer(_) =>
    case Over(_) =>
    case Ask =>
    case HungUp =>
    case Release =>
    case Cleaned =>
    case Fail =>
    case Callback(_, _, _, _) =>
    case Nothing =>
  }

  lemma {:induction false} OutcomeChange(a: Attempt, h: Happening, b: Attempt)
    requires b == Changed(a, h)
    ensures b.failed <==> a.failed || h.Fail? || (h.Over? && h.failure)
    ensures b.established <==> a.established || h.Answer?
    ensures b.cleaned <==> a.cleaned || h.Cleaned?
  {
    match h
    case Invite(_) =>
    case Answer(_) =>
    case Over(_) =>
    case Ask =>
    case HungUp =>
    case Release =>
    case Cleaned =>
    case Fail =>
    case Callback(_, _, _, _) =>
    case Nothing =>
  }

  lemma {:induction false} InviteChange(a: Attempt, h: Happening, b: Attempt)
    requires b == Changed(a, h)
    ensures b.invited <==> a.invited || (h.Invite? && !a.ended)
    ensures b.headers == if h.Invite? && !a.invited && !a.ended then h.headers else a.headers
  {
    match h
    case Invite(_) =>
    case Answer(_) =>
    case Over(_) =>
    case Ask =>
    case HungUp =>
    case Release =>
    case Cleaned =>
    case Fail =>
    case Callback(_, _, _, _) =>
    case Nothing =>
  }

  predicate Taken(a: Attempt, h: Happening) {
    h.Callback? && a.Accepts(h.caseId, h.fingerprint)
  }

  lemma {:induction false} BindingChange(a: Attempt, h: Happening)
    ensures var b := Changed(a, h);
      && b.caseId == (if Taken(a, h) then Some(h.caseId) else a.caseId)
      && b.fingerprint == (if Taken(a, h) then Some(h.fingerprint) else a.fingerprint)
      && b.finalReason == (if Taken(a, h) && h.reason.Some? then h.reason else a.finalReason)
      && b.callbackTypes == (if Taken(a, h) && |a.callbackTypes| < 16 then a.callbackTypes + {h.kind} else a.callbackTypes)
  {
  }

  lemma {:induction false} SignalsStep(a: Attempt, hs: seq<Happening>, h: Happening)
    requires SignalsRecorded(a, hs)
    ensures SignalsRecorded(Changed(a, h), hs + [h])
  {
    SignalsChange(a, h, Changed(a, h));
    EndedOn(hs, h);
    AskedOn(hs, h);
    TheyOn(hs, h);
    WeOn(hs, h);
  }

  lemma {:induction false} FailedOn(hs: seq<Happening>, h: Happening)
    ensures HasFailed(hs + [h]) <==> HasFailed(hs) || h.Fail? || (h.Over? && h.failure)
  {
    var all := hs + [h];
    assert all[|hs|] == h && forall i :: 0 <= i < |hs| ==> all[i] == hs[i];
  }

  lemma {:induction false} AnsweredOn(hs: seq<Happening>, h: Happening)
    ensures WasAnswered(hs + [h]) <==> WasAnswered(hs) || h.Answer?
    ensures WasCleaned(hs + [h]) <==> WasCleaned(hs) || h.Cleaned?
  {
    var all := hs + [h];
    assert all[|hs|] == h && forall i :: 0 <= i < |hs| ==> all[i] == hs[i];
  }

  lemma {:induction false} OutcomeStep(a: Attempt, hs: seq<Happening>, h: Happening)
    requires OutcomeRecorded(a, hs)
    ensures OutcomeRecorded(Changed(a, h), hs + [h])
  {
    OutcomeChange(a, h, Changed(a, h));
    FailedOn(hs, h);
    AnsweredOn(hs, h);
  }

  lemma {:induction false} AcceptedOn(hs: seq<Happening>, h: Happening, i: int)
    ensures AcceptedInvite(hs + [h], i) <==>
      || AcceptedInvite(hs, i)
      || (i == |hs| && h.Invite? && !HasEnded(hs) && forall j :: 0 <= j < |hs| ==> !hs[j].Invite?)
  {
    var all := hs + [h];
    if 0 <= i <= |hs| {
      assert all[..i] == hs[..i] && hs[..|hs|] == hs;
      assert forall j :: 0 <= j < |hs| ==> all[j] == hs[j];
    }
  }

  /** Before the end, the first INVITE that came was accepted. */
  lemma {:induction false} FirstIsAccepted(hs: seq<Happening>)
    requires !HasEnded(hs) && exists i :: 0 <= i < |hs| && hs[i].Invite?
    ensures exists i :: AcceptedInvite(hs, i)
    decreases |hs|
  {
    var n := |hs| - 1;
    var front := hs[..n];
    assert front + [hs[n]] == hs;
    EndedOn(front, hs[n]);
    if i :| 0 <= i < n && hs[i].Invite? {
      assert front[i].Invite?;
      FirstIsAccepted(front);
      var k :| AcceptedInvite(front, k);
      AcceptedOn(front, hs[n], k);
    } else {
      AcceptedOn(front, hs[n], n);
    }
  }

  lemma {:induction false} InviteRecordedOn(a: Attempt, hs: seq<Happening>, h: Happening, b: Attempt)
    requires (a.ended <==> HasEnded(hs)) && InviteRecorded(a, hs)
    requires b.invited <==> a.invited || (h.Invite? && !a.ended)
    requires b.headers == if h.Invite? && !a.invited && !a.ended then h.headers else a.headers
    ensures InviteRecorded(b, hs + [h])
  {
    var all := hs + [h];
    assert all[|hs|] == h && forall i :: 0 <= i < |hs| ==> all[i] == hs[i];
    forall i ensures AcceptedInvite(all, i) <==>
      AcceptedInvite(hs, i) || (i == |hs| && h.Invite? && !HasEnded(hs) && forall j :: 0 <= j < |hs| ==> !hs[j].Invite?)
    {
      AcceptedOn(hs, h, i);
    }
    if a.invited {
      var i :| AcceptedInvite(hs, i);
      assert AcceptedInvite(all, i) && hs[i].Invite?;
    } else if h.Invite? && !a.ended {
      if i :| 0 <= i < |hs| && hs[i].Invite? {
        FirstIsAccepted(hs);
      }
      assert AcceptedInvite(all, |hs|);
    }
  }

  lemma {:induction false} InviteStep(a: Attempt, hs: seq<Happening>, h: Happening)
    requires SignalsRecorded(a, hs) && InviteRecorded(a, hs)
    ensures InviteRecorded(Changed(a, h), hs + [h])
  {
    InviteChange(a, h, Changed(a, h));
    InviteRecordedOn(a, hs, h, Changed(a, h));
  }

  /** If there is a callback, one of them is the first. */
  lemma {:induction false} FindFirst(hs: seq<Happening>, k: int) returns (i: int)
    requires 0 <= k < |hs| && hs[k].Callback?
    ensures FirstCallback(hs, i) && i <= k
    decreases k
  {
    i := k;
    if j :| 0 <= j < k && hs[j].Callback? {
      i := FindFirst(hs, j);
    }
  }

  lemma {:induction false} FirstOn(hs: seq<Happening>, h: Happening, i: int)
    ensures FirstCallback(hs + [h], i) <==>
      FirstCallback(hs, i) || (i == |hs| && h.Callback? && forall j :: 0 <= j < |hs| ==> !hs[j].Callback?)
  {
    var all := hs + [h];
    assert all[|hs|] == h && forall j :: 0 <= j < |hs| ==> all[j] == hs[j];
  }

  lemma {:induction false} BindingStep(a: Attempt, hs: seq<Happening>, h: Happening)
    requires BindingRecorded(a, hs)
    ensures BindingRecorded(Changed(a, h), hs + [h])
  {
    BindingChange(a, h);
    BindingRecordedOn(a, hs, h, Changed(a, h));
  }

  lemma {:induction false} BindingRecordedOn(a: Attempt, hs: seq<Happening>, h: Happening, b: Attempt)
    requires BindingRecorded(a, hs)
    requires b.caseId == if Taken(a, h) then Some(h.caseId) else a.caseId
    requires b.fingerprint == if Taken(a, h) then Some(h.fingerprint) else a.fingerprint
    ensures BindingRecorded(b, hs + [h])
  {
    var all := hs + [h];
    assert all[|hs|] == h && forall i :: 0 <= i < |hs| ==> all[i] == hs[i];
    forall i ensures FirstCallback(all, i) <==>
      FirstCallback(hs, i) || (i == |hs| && h.Callback? && forall j :: 0 <= j < |hs| ==> !hs[j].Callback?)
    {
      FirstOn(hs, h, i);
    }
  }

  /** A callback is accepted exactly when it is recorded. */
  lemma {:induction false} AcceptsExactly(a: Attempt, hs: seq<Happening>, h: Happening)
    requires BindingRecorded(a, hs) && h.Callback?
    ensures a.Accepts(h.caseId, h.fingerprint) <==> Recorded(hs + [h], |hs|)
  {
    var all := hs + [h];
    assert all[|hs|] == h && forall i :: 0 <= i < |hs| ==> all[i] == hs[i];
    if k :| 0 <= k < |hs| && hs[k].Callback? {
      var i := FindFirst(hs, k);
      FirstOn(hs, h, i);
    } else {
      forall j | FirstCallback(all, j) ensures j == |hs| {
        FirstOn(hs, h, j);
      }
    }
  }

  lemma {:induction false} RecordedOn(hs: seq<Happening>, h: Happening, i: int)
    requires i != |hs|
    ensures Recorded(hs + [h], i) <==> Recorded(hs, i)
  {
    var all := hs + [h];
    assert forall j :: 0 <= j < |hs| ==> all[j] == hs[j];
    if 0 <= i < |hs| && hs[i].Callback? {
      var k := FindFirst(hs, i);
      forall j ensures FirstCallback(all, j) <==> FirstCallback(hs, j) {
        FirstOn(hs, h, j);
      }
    }
  }

  lemma {:induction false} ReasonOn(hs: seq<Happening>, h: Happening, i: int)
    ensures LastReason(hs + [h], i) <==>
      var now := Recorded(hs + [h], |hs|) && h.reason.Some?;
      if i == |hs| then now else LastReason(hs, i) && !now
  {
    var all := hs + [h];
    assert all[|hs|] == h && forall j :: 0 <= j < |hs| ==> all[j] == hs[j];
    forall j | 0 <= j < |hs| ensures Recorded(all, j) <==> Recorded(hs, j) {
      RecordedOn(hs, h, j);
    }
    if i != |hs| {
      RecordedOn(hs, h, i);
    }
  }

  lemma {:induction false} ReasonStep(a: Attempt, hs: seq<Happening>, h: Happening)
    requires BindingRecorded(a, hs) && ReasonRecorded(a, hs)
    ensures ReasonRecorded(Changed(a, h), hs + [h])
  {
    BindingChange(a, h);
    TakenExactly(a, hs, h);
    ReasonRecordedOn(a, hs, h, Changed(a, h));
  }

  lemma {:induction false} TakenExactly(a: Attempt, hs: seq<Happening>, h: Happening)
    requires BindingRecorded(a, hs)
    ensures Taken(a, h) <==> Recorded(hs + [h], |hs|)
  {
    if h.Callback? {
      AcceptsExactly(a, hs, h);
    }
  }

  lemma {:induction false} ReasonRecordedOn(a: Attempt, hs: seq<Happening>, h: Happening, b: Attempt)
    requires ReasonRecorded(a, hs)
    requires b.finalReason == if Recorded(hs + [h], |hs|) && h.reason.Some? then h.reason else a.finalReason
    ensures ReasonRecorded(b, hs + [h])
  {
    var all := hs + [h];
    assert all[|hs|] == h && forall j :: 0 <= j < |hs| ==> all[j] == hs[j];
    forall i ensures LastReason(all, i) <==>
      var now := Recorded(all, |hs|) && h.reason.Some?; if i == |hs| then now else LastReason(hs, i) && !now
    {
      ReasonOn(hs, h, i);
    }
    if Recorded(all, |hs|) && h.reason.Some? {
      assert LastReason(all, |hs|);
    } else if i :| LastReason(hs, i) {
      assert LastReason(all, i);
    }
  }

  lemma {:induction false} KindsStep(a: Attempt, hs: seq<Happening>, h: Happening)
    requires BindingRecorded(a, hs) && KindsRecorded(a, hs)
    ensures KindsRecorded(Changed(a, h), hs + [h])
  {
    BindingChange(a, h);
    TakenExactly(a, hs, h);
    forall i | i != |hs| ensures Recorded(hs + [h], i) <==> Recorded(hs, i) {
      RecordedOn(hs, h, i);
    }
    KindsRecordedOn(a.callbackTypes, hs, h, Changed(a, h).callbackTypes);
  }

  lemma {:induction false} KindsRecordedOn(kinds: set<string>, hs: seq<Happening>, h: Happening, more: set<string>)
    requires KindsListed(kinds, hs)
    requires forall i :: i != |hs| ==> (Recorded(hs + [h], i) <==> Recorded(hs, i))
    requires more == if Recorded(hs + [h], |hs|) && |kinds| < 16 then kinds + {h.kind} else kinds
    ensures KindsListed(more, hs + [h])
  {
    var all := hs + [h];
    assert all[|hs|] == h && forall j :: 0 <= j < |hs| ==> all[j] == hs[j];
    forall kind | kind in more ensures exists i :: Recorded(all, i) && all[i].kind == kind {
      if kind in kinds {
        var i :| Recorded(hs, i) && hs[i].kind == kind;
        assert Recorded(all, i) && all[i].kind == kind;
      } else {
        assert Recorded(all, |hs|) && all[|hs|].kind == kind;
      }
    }
  }

  // ---- Whole lifetimes ----

  /** Everything an attempt records. */
  ghost predicate Records(a: Attempt, hs: seq<Happening>) {
    && SignalsRecorded(a, hs) && OutcomeRecorded(a, hs) && InviteRecorded(a, hs)
    && BindingRecorded(a, hs) && ReasonRecorded(a, hs) && KindsRecorded(a, hs)
  }

  lemma {:induction false} RecordsStep(a: Attempt, hs: seq<Happening>, h: Happening, b: Attempt)
    requires Records(a, hs) && b == Changed(a, h)
    ensures Records(b, hs + [h]) && b.created == a.created
  {
    SignalsStep(a, hs, h);
    OutcomeStep(a, hs, h);
    InviteStep(a, hs, h);
    BindingStep(a, hs, h);
    ReasonStep(a, hs, h);
    KindsStep(a, hs, h);
  }

  lemma {:induction false} FreshRecords(now: int)
    ensures Records(Attempt.Touched(now), [])
  {
  }

  /** One step of a live attempt, and what it leaves of the run. */
  lemma {:induction false} LivesOn(cfg: Config, s: State, c: string, t: int, run: seq<Timed>, a: Attempt, h: Happening)
    returns (b: Attempt)
    requires run != [] && c in s.attempts && a == s.attempts[c] && h == HappeningOf(s, c, run[0].step)
    requires InOrder(t, run) && Clock(t, run) < a.created + cfg.ttl
    ensures b == Changed(a, h) && b.created == a.created
    ensures var s' := Apply(cfg, s, run[0].step, run[0].now); c in s'.attempts && s'.attempts[c] == b
    ensures InOrder(run[0].now, run[1..]) && Clock(run[0].now, run[1..]) == Clock(t, run)
  {
    ClockIsLast(run[0].now, run[1..]);
    StepChanges(cfg, s, c, run[0].step, run[0].now);
    b := Changed(a, h);
  }

  /** An attempt after all that happened to it. */
  function Became(a: Attempt, hs: seq<Happening>): Attempt {
    if hs == [] then a else Changed(Became(a, hs[..|hs| - 1]), hs[|hs| - 1])
  }

  lemma {:induction false} BecameFromFirst(a: Attempt, h: Happening, hs: seq<Happening>)
    ensures Became(Changed(a, h), hs) == Became(a, [h] + hs)
    decreases |hs|
  {
    var all := [h] + hs;
    if hs == [] {
      assert all[..0] == [];
    } else {
      var n := |hs| - 1;
      assert all[..n + 1] == [h] + hs[..n];
      BecameFromFirst(a, h, hs[..n]);
    }
  }

  lemma {:induction false} BecameOverRun(cfg: Config, s: State, c: string, t: int, run: seq<Timed>, a: Attempt)
    requires c in s.attempts && a == s.attempts[c] && InOrder(t, run) && Clock(t, run) < a.created + cfg.ttl
    ensures c in After(cfg, s, run).attempts
    ensures After(cfg, s, run).attempts[c] == Became(a, Happenings(cfg, s, c, run))
    decreases |run|
  {
    if run != [] {
      var h, s' := HappeningOf(s, c, run[0].step), Apply(cfg, s, run[0].step, run[0].now);
      var b := LivesOn(cfg, s, c, t, run, a, h);
      BecameOverRun(cfg, s', c, run[0].now, run[1..], b);
      BecameFromFirst(a, h, Happenings(cfg, s', c, run[1..]));
    }
  }

  lemma {:induction false} BecameRecords(now: int, hs: seq<Happening>) returns (a: Attempt)
    ensures a == Became(Attempt.Touched(now), hs) && Records(a, hs)
    decreases |hs|
  {
    if hs == [] {
      FreshRecords(now);
      a := Attempt.Touched(now);
    } else {
      var n := |hs| - 1;
      var b := BecameRecords(now, hs[..n]);
      a := Changed(b, hs[n]);
      RecordsStep(b, hs[..n], hs[n], a);
      assert hs[..n] + [hs[n]] == hs;
    }
  }

  /** In every run within its lifetime, an attempt records exactly what happened to it: its end and who
      hung up, whether a failure, an answer or a cleanup was seen, the headers of the one accepted
      INVITE, and the case, call, kinds and last reason of its callbacks. */
  lemma {:induction false} LifetimeRecords(cfg: Config, s: State, c: string, t: int, run: seq<Timed>)
    requires c in s.attempts && s.attempts[c] == Attempt.Touched(t)
    requires InOrder(t, run) && Clock(t, run) < t + cfg.ttl
    ensures c in After(cfg, s, run).attempts
    ensures Records(After(cfg, s, run).attempts[c], Happenings(cfg, s, c, run))
  {
    BecameOverRun(cfg, s, c, t, run, s.attempts[c]);
    var a := BecameRecords(t, Happenings(cfg, s, c, run));
  }

  // ---- Which sessions point to an attempt ----

  predicate PointsTo(s: State, x: string, c: string) {
    x in s.sessions && s.sessions[x] == c
  }

  /** An INVITE on session `x` is accepted for `c`. */
  predicate Opens(cfg: Config, s: State, e: Timed, x: string, c: string) {
    e.step.Incoming? && e.step.session == x && e.step.c == c && Admits(cfg, s, c, e.now)
  }

  /** Session `x` ends, or the attempt `c` it points to is cleaned up or has expired when expired ones
      are removed, or the store shuts down. */
  predicate Closes(cfg: Config, s: State, e: Timed, x: string, c: string) {
    || (e.step.Finished? && e.step.session == x)
    || e.step == CleanupDone(c) || e.step == ShutdownDone
    || (Reaps(e) && c in s.attempts && e.now - s.attempts[c].created >= cfg.ttl)
  }

  predicate Reopens(cfg: Config, s: State, e: Timed, x: string) {
    e.step.Incoming? && Opens(cfg, s, e, x, e.step.c)
  }

  predicate Reaps(e: Timed) {
    e.step.Incoming? || e.step.Event? || e.step.Query?
  }

  lemma {:induction false} EnsuredPoints(cfg: Config, s: State, d: string, now: int, x: string, c: string)
    requires SessionsLive(s)
    ensures PointsTo(s.Ensured(cfg, d, now), x, c) <==>
      PointsTo(s, x, c) && !(c in s.attempts && now - s.attempts[c].created >= cfg.ttl)
    ensures PointsTo(s.Reaped(cfg.ttl, now), x, c) <==>
      PointsTo(s, x, c) && !(c in s.attempts && now - s.attempts[c].created >= cfg.ttl)
  {
  }

  lemma {:induction false} PointsAfterReaping(cfg: Config, s: State, e: Timed, x: string, c: string)
    requires SessionsLive(s) && Reaps(e)
    ensures PointsTo(Apply(cfg, s, e.step, e.now), x, c) <==>
      Opens(cfg, s, e, x, c) || (PointsTo(s, x, c) && !Closes(cfg, s, e, x, c) && !Reopens(cfg, s, e, x))
  {
    EnsuredPoints(cfg, s, if e.step.Query? then c else e.step.c, e.now, x, c);
  }

  /** One locked section: what points to `c` afterwards was opened now, or did before and was left alone. */
  lemma {:induction false} PointsAfterStep(cfg: Config, s: State, e: Timed, x: string, c: string)
    requires SessionsLive(s)
    ensures PointsTo(Apply(cfg, s, e.step, e.now), x, c) <==>
      Opens(cfg, s, e, x, c) || (PointsTo(s, x, c) && !Closes(cfg, s, e, x, c) && !Reopens(cfg, s, e, x))
  {
    if Reaps(e) {
      PointsAfterReaping(cfg, s, e, x, c);
    }
  }

  function Before(cfg: Config, s: State, run: seq<Timed>, k: int): State
    requires 0 <= k <= |run|
  {
    After(cfg, s, run[..k])
  }

  /** Opened at step `k`, and neither closed nor opened anew since. */
  ghost predicate OpenSince(cfg: Config, s: State, run: seq<Timed>, k: int, x: string, c: string) {
    && 0 <= k < |run| && Opens(cfg, Before(cfg, s, run, k), run[k], x, c)
    && forall m :: k < m < |run| ==>
         !Closes(cfg, Before(cfg, s, run, m), run[m], x, c) && !Reopens(cfg, Before(cfg, s, run, m), run[m], x)
  }

  lemma {:induction false} OpenSinceOn(cfg: Config, s: State, run: seq<Timed>, e: Timed, k: int, x: string, c: string)
    ensures OpenSince(cfg, s, run + [e], k, x, c) <==>
      var last := After(cfg, s, run);
      if k == |run| then Opens(cfg, last, e, x, c)
      else OpenSince(cfg, s, run, k, x, c) && !Closes(cfg, last, e, x, c) && !Reopens(cfg, last, e, x)
  {
    var all := run + [e];
    forall m | 0 <= m <= |run| ensures Before(cfg, s, all, m) == After(cfg, s, run[..m]) {
      assert all[..m] == run[..m];
    }
    assert run[..|run|] == run && all[|run|] == e && forall m :: 0 <= m < |run| ==> all[m] == run[m];
  }

  lemma {:induction false} AfterLast(cfg: Config, s: State, run: seq<Timed>, e: Timed)
    ensures After(cfg, s, run + [e]) == Apply(cfg, After(cfg, s, run), e.step, e.now)
    decreases |run|
  {
    var all := run + [e];
    if run == [] {
      assert all[1..] == [];
    } else {
      assert all[0] == run[0] && all[1..] == run[1..] + [e];
      AfterLast(cfg, Apply(cfg, s, run[0].step, run[0].now), run[1..], e);
    }
  }

  lemma {:induction false} PointsOn(cfg: Config, s: State, run: seq<Timed>, e: Timed, x: string, c: string)
    requires SessionsLive(After(cfg, s, run))
    requires PointsTo(After(cfg, s, run), x, c) <==> exists k :: OpenSince(cfg, s, run, k, x, c)
    ensures PointsTo(After(cfg, s, run + [e]), x, c) <==> exists k :: OpenSince(cfg, s, run + [e], k, x, c)
  {
    var last, all := After(cfg, s, run), run + [e];
    AfterLast(cfg, s, run, e);
    PointsAfterStep(cfg, last, e, x, c);
    OpenSinceOn(cfg, s, run, e, |run|, x, c);
    if k :| OpenSince(cfg, s, run, k, x, c) {
      OpenSinceOn(cfg, s, run, e, k, x, c);
    }
    if k :| OpenSince(cfg, s, all, k, x, c) {
      OpenSinceOn(cfg, s, run, e, k, x, c);
    }
  }

  /** In every run from the empty store, a session points to an attempt exactly when its INVITE was
      accepted for it, and since then neither the session nor the attempt's time has ended. */
  lemma {:induction false} SessionsExactly(cfg: Config, run: seq<Timed>, x: string, c: string)
    ensures PointsTo(After(cfg, State(map[], map[]), run), x, c)
       <==> exists k :: OpenSince(cfg, State(map[], map[]), run, k, x, c)
    decreases |run|
  {
    if run != [] {
      var n, s := |run| - 1, State(map[], map[]);
      assert run[..n] + [run[n]] == run;
      SessionsExactly(cfg, run[..n], x, c);
      RunKeeps(cfg, s, run[..n]);
      PointsOn(cfg, s, run[..n], run[n], x, c);
    }
  }

  // ---- When an attempt is created ----

  function LiveAt(cfg: Config, s: State, now: int): set<string> {
    set d | d in s.attempts && now - s.attempts[d].created < cfg.ttl
  }

  /** After making sure there is an attempt for `c`, those that are left are the live ones, unchanged,
      and a new one for `c` exactly when it had none and fewer than the maximum are live. */
  lemma {:induction false} EnsuredExactly(cfg: Config, s: State, c: string, now: int)
    ensures var live, e := LiveAt(cfg, s, now), s.Ensured(cfg, c, now);
      && e.attempts.Keys == live + (if |live| < cfg.maxAttempts then {c} else {})
      && (forall d :: d in live ==> d in s.attempts && e.attempts[d] == s.attempts[d])
      && (c in e.attempts && c !in live ==> FreshAt(e.attempts[c], now))
  {
    var r := s.Reaped(cfg.ttl, now);
    assert r.attempts.Keys == LiveAt(cfg, s, now) && |r.attempts| == |r.attempts.Keys|;
  }

  /** Nothing has happened yet. */
  predicate FreshAt(a: Attempt, now: int) {
    && a.created == now && !a.invited && !a.established && !a.ended && !a.cleaned && !a.failed && a.handle == None
    && !a.hangupRequested && !a.byeFromVapi && !a.byeFromPeer
    && a.caseId == None && a.fingerprint == None && a.callbackTypes == {} && a.finalReason == None && a.headers == {}
  }
}
