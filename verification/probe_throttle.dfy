/** The decisions of a probe task (probe_activities.go). Times and durations are
    nanoseconds; times count from 1970. */
module ProbeDecision {
  import opened Text
  import opened ProviderModel

  const DEFAULT_INTERVAL: int := 300_000_000_000
  const ZERO_TIME: int := -62_135_596_800_000_000_000

  datatype Trigger = Unspecified | Manual | Schedule | Connect

  /** A missing trigger counts as manual. */
  function IsManual(trigger: Trigger): bool { trigger == Unspecified || trigger == Manual }

  function MinimumInterval(configured: int): (i: int)
    ensures i > 0 && (configured > 0 ==> i == configured)
  {
    if configured <= 0 then DEFAULT_INTERVAL else configured
  }

  predicate Throttled(state: Option<RunState>, now: int) {
    && state.Some? && state.value.nextAllowedAt.Some?
    && state.value.nextAllowedAt.value != ZERO_TIME && now < state.value.nextAllowedAt.value
  }

  datatype Outcome = Ready | ThrottledOut | Unsupported | AuthBlocked | Failed | Executed

  /** What the provider's surface says about one kind of probe. */
  datatype Surface = Surface(supported: bool, configured: int)

  datatype Decision = Decision(outcome: Outcome, interval: int)

  /** An unsupported quota probe leaves the interval unset. */
  function Decide(surface: Surface, kind: Kind, manual: bool, state: Option<RunState>, credentialReady: bool, now: int): (d: Decision)
    ensures d.outcome in {Ready, ThrottledOut, Unsupported, AuthBlocked}
    ensures d.outcome == Unsupported <==> !surface.supported
    ensures d.outcome == ThrottledOut <==> surface.supported && !manual && Throttled(state, now)
    ensures d.outcome == AuthBlocked ==> kind == Quota && !credentialReady
    ensures d.outcome == Ready <==> surface.supported && (manual || !Throttled(state, now)) && (kind == Quota ==> credentialReady)
  {
    var interval := if surface.supported || kind == ModelCatalog then MinimumInterval(surface.configured) else 0;
    if !surface.supported then Decision(Unsupported, interval)
    else if !manual && Throttled(state, now) then Decision(ThrottledOut, interval)
    else if kind == Quota && !credentialReady then Decision(AuthBlocked, interval)
    else Decision(Ready, interval)
  }

  /** What is recorded with an attempt: the probe's id, its outcome and a message. */
  datatype Note = Note(probeId: string, outcome: string, message: string)

  /** RecordProbeStatus falls back to the default interval once more. */
  function Stamp(decision: Decision, now: int, note: Note): RunState {
    RunState(Some(now), Some(now + MinimumInterval(decision.interval)), Trim(note.probeId), Trim(note.outcome), Trim(note.message))
  }

  /** The stamp of a task on a supported surface throttles scheduled tasks exactly until the
      interval is over, whatever the task decided and whatever came of it. */
  lemma StampThrottlesExactly(surface: Surface, kind: Kind, trigger: Trigger, state: Option<RunState>, credentialReady: bool,
                              preflight: int, now: int, note: Note, later: int)
    requires surface.supported && now > ZERO_TIME
    ensures var stamp := Stamp(Decide(surface, kind, IsManual(trigger), state, credentialReady, preflight), now, note);
            var interval := if surface.configured > 0 then surface.configured else 300_000_000_000;
            && stamp.lastAttemptAt == Some(now)
            && (Decide(surface, kind, IsManual(Schedule), Some(stamp), true, later).outcome == ThrottledOut <==> later < now + interval)
            && (Decide(surface, kind, IsManual(Connect), Some(stamp), true, later).outcome == ThrottledOut <==> later < now + interval)
            && Decide(surface, kind, IsManual(Manual), Some(stamp), true, later).outcome == Ready
            && Decide(surface, kind, IsManual(Unspecified), Some(stamp), true, later).outcome == Ready
  {
    hide Trim;
  }
}

/** One probe task as code: preflight, probe, record (RunQuotaProbeTask and
    RunModelCatalogProbeTask). */
module ProbeTask {
  import opened Text
  import opened ProviderModel
  import opened ProviderStore
  import opened ProviderMutations
  import opened ProbeDecision

  class Clock {
    var now: int

    method Read() returns (t: int)
      modifies this
      ensures old(now) <= t == now
    {
      t :| now <= t;
      now := t;
    }
  }

  /** What a probe answers when it does not fail. */
  datatype Reply = Reply(outcome: string, message: string)

  /** The stored state forbids throttled triggers until later. */
  predicate Waits(state: Option<RunState>, at: int) {
    state.Some? && state.value.nextAllowedAt.Some? && state.value.nextAllowedAt.value != ZERO_TIME && at < state.value.nextAllowedAt.value
  }

  /** The attempt that a task leaves in its kind's state: its time, the time from which scheduled
      tasks may run again, and texts by outcome. */
  predicate Records(surface: Surface, id: string, kind: Kind, refusal: Option<string>, reply: Option<Reply>, outcome: Outcome,
                    stamp: int, state: RunState) {
    && state.lastAttemptAt == Some(stamp)
    && state.nextAllowedAt == Some(stamp + if surface.configured > 0 && (surface.supported || kind == ModelCatalog)
                                           then surface.configured else 300_000_000_000)
    && state.probeId == Trim(id) + (if kind == Quota then ":quota" else ":model-catalog")
    && (outcome == Unsupported ==>
          && state.outcome == "unsupported"
          && state.message == (if kind == Quota then "provider quota probe is unsupported" else "provider model catalog probe is unsupported"))
    && (outcome == AuthBlocked ==> state.outcome == "auth_blocked" && state.message == Trim(refusal.GetOr("")))
    && (outcome == Failed ==>
          && state.outcome == "failed"
          && state.message == (if kind == Quota then "provider quota probe failed" else "provider model catalog probe failed"))
    && (outcome == Executed && reply.Some? ==>
          && state.outcome == (if kind == Quota && reply.value.outcome != "" then Trim(reply.value.outcome) else "executed")
          && state.message == (if Trim(reply.value.message) != "" then Trim(reply.value.message)
                               else if kind == Quota then "provider quota probe completed" else "provider model catalog probe completed"))
  }

  function TextFor(kind: Kind, quota: string, catalog: string): string {
    if kind == Quota then quota else catalog
  }

  /** The texts that go with an outcome, before they are trimmed. */
  predicate Told(kind: Kind, outcome: Outcome, refusal: Option<string>, reply: Option<Reply>, name: string, message: string) {
    match outcome
    case Unsupported =>
      name == "unsupported" && message == TextFor(kind, "provider quota probe is unsupported", "provider model catalog probe is unsupported")
    case AuthBlocked => name == "auth_blocked" && refusal == Some(message)
    case Failed => name == "failed" && message == TextFor(kind, "provider quota probe failed", "provider model catalog probe failed")
    case Executed =>
      && reply.Some?
      && name == (if kind == Quota && reply.value.outcome != "" then reply.value.outcome else "executed")
      && message == (if !Blank(reply.value.message) then Trim(reply.value.message)
                     else TextFor(kind, "provider quota probe completed", "provider model catalog probe completed"))
    case _ => false
  }

  /** What comes of a decision that is not throttled, and what is said about it. */
  method Conclude(decision: Decision, kind: Kind, refusal: Option<string>, reply: Option<Reply>)
    returns (outcome: Outcome, name: string, message: string)
    requires decision.outcome in {Ready, Unsupported, AuthBlocked} && (decision.outcome == AuthBlocked ==> refusal.Some?)
    ensures outcome == if decision.outcome != Ready then decision.outcome else if reply.None? then Failed else Executed
    ensures Told(kind, outcome, refusal, reply, name, message)
  {
    hide Trim;
    if decision.outcome == Unsupported {
      outcome, name := Unsupported, "unsupported";
      message := TextFor(kind, "provider quota probe is unsupported", "provider model catalog probe is unsupported");
    } else if decision.outcome == AuthBlocked {
      outcome, name, message := AuthBlocked, "auth_blocked", refusal.value;
    } else if reply.None? {
      outcome, name, message := Failed, "failed", TextFor(kind, "provider quota probe failed", "provider model catalog probe failed");
    } else {
      outcome := Executed;
      name := if kind == Quota && reply.value.outcome != "" then reply.value.outcome else "executed";
      message := if !Blank(reply.value.message) then Trim(reply.value.message)
                 else TextFor(kind, "provider quota probe completed", "provider model catalog probe completed");
    }
  }

  /** A task begun by a schedule or a connect session is throttled exactly while the stored state
      says so; a manual one, or one without trigger, never is. Every task that is not throttled
      records its attempt, in its own kind only. refusal says why the credential is not ready,
      and reply is the probe's answer, if it does not fail. */
  method Run(repository: Repository, clock: Clock, surface: Surface, id: string, kind: Kind, trigger: Trigger,
             refusal: Option<string>, reply: Option<Reply>)
    returns (r: Result<Outcome, StoreError>, at: int)
    requires repository.Valid() && repository as object != clock
    modifies repository, clock
    ensures repository.Valid() && old(clock.now) <= at <= clock.now
    ensures Trim(id) !in old(repository.rows) ==> r.Err? && repository.rows == old(repository.rows)
    ensures Trim(id) in old(repository.rows) ==>
      var before := old(repository.rows)[Trim(id)];
      && r.Ok?
      && (r.value == Unsupported <==> !surface.supported)
      && (r.value == ThrottledOut <==> surface.supported && trigger in {Schedule, Connect} && Waits(before.Probe(kind), at))
      && (r.value == AuthBlocked ==> kind == Quota && refusal.Some?)
      && (r.value in {Executed, Failed} <==> surface.supported && !(trigger in {Schedule, Connect} && Waits(before.Probe(kind), at))
                                             && (kind == Quota ==> refusal.None?))
      && (r.value == Failed ==> reply.None?) && (r.value == Executed ==> reply.Some?)
      && (r.value == ThrottledOut ==> repository.rows == old(repository.rows))
      && (r.value != ThrottledOut ==>
            exists stamp, state :: at <= stamp <= clock.now
              && Records(surface, id, kind, refusal, reply, r.value, stamp, state)
              && repository.rows == old(repository.rows)[Trim(id) := Recorded(before, kind, state)])
  {
    hide Trim, Recorded, Records, Told;
    at := clock.now;
    var got := repository.Get(id);
    if got.Err? {
      return Err(got.error), at;
    }
    at := clock.Read();
    var decision := Decide(surface, kind, IsManual(trigger), got.value.Probe(kind), refusal.None?, at);
    if decision.outcome == ThrottledOut {
      return Ok(ThrottledOut), at;
    }
    var outcome, name, message := Conclude(decision, kind, refusal, reply);
    var probeId := Trim(id) + if kind == Quota then ":quota" else ":model-catalog";
    var stamp := clock.Read();
    var state := Stamp(decision, stamp, Note(probeId, name, message));
    StampRecords(surface, id, kind, IsManual(trigger), got.value.Probe(kind), refusal, reply, outcome, at, stamp, name, message);
    var written := ApplyProbeStatus(repository, id, Some(kind), state);
    r := Ok(outcome);
  }

  lemma StampRecords(surface: Surface, id: string, kind: Kind, manual: bool, seen: Option<RunState>, refusal: Option<string>,
                     reply: Option<Reply>, outcome: Outcome, at: int, stamp: int, name: string, message: string)
    requires Trim(id) != ""
    requires Told(kind, outcome, refusal, reply, name, message)
    ensures var decision := Decide(surface, kind, manual, seen, refusal.None?, at);
            var probeId := Trim(id) + if kind == Quota then ":quota" else ":model-catalog";
            Records(surface, id, kind, refusal, reply, outcome, stamp, Stamp(decision, stamp, Note(probeId, name, message)))
  {
    hide Trim;
    var kindName := if kind == Quota then ":quota" else ":model-catalog";
    var probeId := Trim(id) + kindName;
    TrimIsTrimmed(id);
    Letters();
    assert probeId[0] == Trim(id)[0] && probeId[|probeId| - 1] == kindName[|kindName| - 1];
    TrimOfTrimmed(probeId);
    TextsAreTrimmed();
    if reply.Some? {
      TrimTwice(reply.value.message);
    }
  }

  lemma Letters()
    ensures !IsSpace('a') && !IsSpace('g')
  {
  }

  lemma TextsAreTrimmed()
    ensures Trim("unsupported") == "unsupported" && Trim("auth_blocked") == "auth_blocked"
    ensures Trim("failed") == "failed" && Trim("executed") == "executed"
    ensures Trim("provider quota probe is unsupported") == "provider quota probe is unsupported"
    ensures Trim("provider model catalog probe is unsupported") == "provider model catalog probe is unsupported"
    ensures Trim("provider quota probe failed") == "provider quota probe failed"
    ensures Trim("provider model catalog probe failed") == "provider model catalog probe failed"
    ensures Trim("provider quota probe completed") == "provider quota probe completed"
    ensures Trim("provider model catalog probe completed") == "provider model catalog probe completed"
  {
    hide Trim;
    TrimOfTrimmed("unsupported");
    TrimOfTrimmed("auth_blocked");
    TrimOfTrimmed("failed");
    TrimOfTrimmed("executed");
    TrimOfTrimmed("provider quota probe is unsupported");
    TrimOfTrimmed("provider model catalog probe is unsupported");
    TrimOfTrimmed("provider quota probe failed");
    TrimOfTrimmed("provider model catalog probe failed");
    TrimOfTrimmed("provider quota probe completed");
    TrimOfTrimmed("provider model catalog probe completed");
  }
}

/** Any number of probe tasks, one at a time for each kind, interleaved with every
    other change of the provider's row and with the clock. */
module ProbeThrottle {
  import opened Text
  import opened ProviderModel
  import opened ProbeDecision
  import ProviderStore
  import ProviderMutations

  datatype Pc =
    | Resting
    | Loaded(trigger: Trigger, seen: Option<RunState>)  // the provider was read
    | Allowed(trigger: Trigger, decision: Decision)     // preflight said ready
    | Running(decision: Decision)                   // the probe was started
    | Blocked(decision: Decision)                   // nothing to run, but to record
    | Writing(state: RunState, at: int)             // the attempt was stamped
  {
    /** A probe was started and is not recorded yet. */
    predicate Open() { Running? || Writing? }
  }

  datatype Event =
    | Started(kind: Kind, trigger: Trigger, at: int)
    | Attempt(kind: Kind, at: int)
    | Lost(kind: Kind)

  datatype State = State(clock: int, row: Provider, catalog: Pc, quota: Pc, log: seq<Event>)
  {
    function Pc(kind: Kind): Pc { match kind case ModelCatalog => catalog case Quota => quota }

    function Move(kind: Kind, pc: Pc): State {
      match kind case ModelCatalog => this.(catalog := pc) case Quota => this.(quota := pc)
    }
  }

  datatype Action =
    | Tick(now: int)
    | Begin(kind: Kind, trigger: Trigger)
    | Preflight(kind: Kind, credentialReady: bool)
    | Probe(kind: Kind)
    | Stamped(kind: Kind, note: Note)
    | Write(kind: Kind)
    | Abandon(kind: Kind)          // the status write failed, or the task timed out or crashed
    | Rename(name: string)
    | SetModels(models: seq<Model>)  // an applied or a materialised catalog
    | Reconnect(next: Provider)      // a finalised connect session replaces the row

  predicate Enabled(s: State, a: Action) {
    match a
    case Tick(now) => s.clock <= now
    case Begin(kind, _) => s.Pc(kind).Resting?
    case Preflight(kind, _) => s.Pc(kind).Loaded?
    case Probe(kind) => s.Pc(kind).Allowed?
    case Stamped(kind, _) => s.Pc(kind).Running? || s.Pc(kind).Blocked?
    case Write(kind) => s.Pc(kind).Writing?
    case Abandon(kind) => !s.Pc(kind).Resting?
    case _ => true
  }

  function Apply(surfaces: Kind -> Surface, s: State, a: Action): State
    requires Enabled(s, a)
  {
    match a
    case Tick(now) => s.(clock := now)
    case Begin(kind, trigger) => s.Move(kind, Loaded(trigger, s.row.Probe(kind)))
    case Preflight(kind, credentialReady) =>
      var pc := s.Pc(kind);
      var decision := Decide(surfaces(kind), kind, IsManual(pc.trigger), pc.seen, credentialReady, s.clock);
      s.Move(kind, match decision.outcome
                   case ThrottledOut => Resting
                   case Ready => Allowed(pc.trigger, decision)
                   case _ => Blocked(decision))
    case Probe(kind) =>
      s.Move(kind, Running(s.Pc(kind).decision)).(log := s.log + [Started(kind, s.Pc(kind).trigger, s.clock)])
    case Stamped(kind, note) =>
      s.Move(kind, Writing(Stamp(s.Pc(kind).decision, s.clock, note), s.clock))
    case Write(kind) =>
      var pc := s.Pc(kind);
      s.Move(kind, Resting).(row := Recorded(s.row, kind, pc.state), log := s.log + [Attempt(kind, pc.at)])
    case Abandon(kind) =>
      s.Move(kind, Resting).(log := s.log + if s.Pc(kind).Open() then [Lost(kind)] else [])
    case Rename(name) => s.(row := s.row.(displayName := name))
    case SetModels(models) => s.(row := s.row.(models := models))
    case Reconnect(next) => s.(row := next)
  }

  /** A schedule of the actions, without connect sessions replacing the row. */
  predicate Run(surfaces: Kind -> Surface, trace: seq<State>, acts: seq<Action>) {
    && |trace| == |acts| + 1
    && trace[0].catalog.Resting? && trace[0].quota.Resting? && trace[0].log == [] && trace[0].clock > ZERO_TIME
    && (forall i :: 0 <= i < |acts| ==> Enabled(trace[i], acts[i]) && trace[i + 1] == Apply(surfaces, trace[i], acts[i]))
  }

  predicate NoReconnect(acts: seq<Action>) {
    forall i :: 0 <= i < |acts| ==> !acts[i].Reconnect?
  }

  function Interval(surfaces: Kind -> Surface, kind: Kind): (i: int)
    ensures i > 0
  {
    MinimumInterval(surfaces(kind).configured)
  }

  predicate NoLossAfter(log: seq<Event>, kind: Kind, i: int)
    requires 0 <= i < |log|
  {
    forall j :: i < j < |log| ==> log[j] != Lost(kind)
  }

  /** Earlier than at, unless it is of another kind. */
  predicate Before(e: Event, kind: Kind, at: int) {
    e.Lost? || (e.kind == kind ==> ZERO_TIME < e.at <= at)
  }

  /** The row forbids scheduled probes of this kind until t at least. */
  predicate Forbids(row: Provider, kind: Kind, t: int) {
    && row.Probe(kind).Some? && row.Probe(kind).value.nextAllowedAt.Some?
    && row.Probe(kind).value.nextAllowedAt.value >= t > ZERO_TIME
  }

  /** Every execution begun by a schedule or a connect session starts at least the interval after each earlier
      recorded attempt, and after each earlier execution unless a record was lost. */
  predicate Spaced(log: seq<Event>, kind: Kind, interval: int) {
    forall i, j :: 0 <= i < j < |log| && log[j].Started? && log[j].kind == kind && log[j].trigger in {Schedule, Connect}
                   ==> Apart(log, kind, interval, i, j)
  }

  predicate Apart(log: seq<Event>, kind: Kind, interval: int, i: int, j: int)
    requires 0 <= i < j < |log| && log[j].Started?
  {
    && (log[i].Attempt? && log[i].kind == kind ==> log[i].at + interval <= log[j].at)
    && (log[i].Started? && log[i].kind == kind && NoLossAfter(log[..j], kind, i) ==> log[i].at + interval <= log[j].at)
  }

  predicate PcOk(s: State, kind: Kind, interval: int) {
    match s.Pc(kind)
    case Resting => true
    case Loaded(_, seen) => seen == s.row.Probe(kind)
    case Allowed(trigger, decision) => decision.interval == interval && (trigger in {Schedule, Connect} ==> !Throttled(s.row.Probe(kind), s.clock))
    case Running(decision) => decision.interval == interval
    case Blocked(decision) => decision.interval == interval
    case Writing(state, at) =>
      && state.nextAllowedAt == Some(at + interval) && ZERO_TIME < at <= s.clock
      && (forall i :: 0 <= i < |s.log| ==> Before(s.log[i], kind, at))
  }

  predicate Inv(s: State, kind: Kind, interval: int) {
    && s.clock > ZERO_TIME
    && PcOk(s, kind, interval)
    && (forall i :: 0 <= i < |s.log| ==> Before(s.log[i], kind, s.clock))
    && (forall i :: 0 <= i < |s.log| && s.log[i].Attempt? && s.log[i].kind == kind ==> Forbids(s.row, kind, s.log[i].at + interval))
    && (!s.Pc(kind).Open() ==>
          forall i :: 0 <= i < |s.log| && s.log[i].Started? && s.log[i].kind == kind && NoLossAfter(s.log, kind, i)
                      ==> Forbids(s.row, kind, s.log[i].at + interval))
    && Spaced(s.log, kind, interval)
  }

  /** A step that adds nothing to the log and leaves this kind's probe state alone. */
  lemma InvQuiet(s: State, t: State, kind: Kind, interval: int)
    requires Inv(s, kind, interval) && PcOk(t, kind, interval)
    requires t.log == s.log && t.clock >= s.clock && t.row.Probe(kind) == s.row.Probe(kind)
    requires t.Pc(kind).Open() || !s.Pc(kind).Open()
    ensures Inv(t, kind, interval)
  {
    forall i | 0 <= i < |t.log| ensures Before(t.log[i], kind, t.clock) {
      assert Before(s.log[i], kind, s.clock);
    }
  }

  lemma SpacedAppend(log: seq<Event>, e: Event, kind: Kind, interval: int)
    requires Spaced(log, kind, interval)
    requires e.Started? && e.kind == kind && e.trigger in {Schedule, Connect} ==>
               forall i :: 0 <= i < |log| ==> Apart(log + [e], kind, interval, i, |log|)
    ensures Spaced(log + [e], kind, interval)
  {
    var next := log + [e];
    forall i, j | 0 <= i < j < |next| && next[j].Started? && next[j].kind == kind && next[j].trigger in {Schedule, Connect}
      ensures Apart(next, kind, interval, i, j)
    {
      if j < |log| {
        assert Apart(log, kind, interval, i, j);
        assert next[..j] == log[..j];
      }
    }
  }

  /** An event of the other kind, or a loss. */
  lemma InvOtherEvent(s: State, t: State, e: Event, kind: Kind, interval: int)
    requires Inv(s, kind, interval) && PcOk(s.(log := t.log), kind, interval)
    requires t.log == s.log + [e] && t.clock == s.clock && t.row.Probe(kind) == s.row.Probe(kind)
    requires if e == Lost(kind) then t.Pc(kind).Resting? else e.kind != kind && t.Pc(kind) == s.Pc(kind)
    ensures Inv(t, kind, interval)
  {
    hide Spaced, Stamp, Decide;
    SpacedAppend(s.log, e, kind, interval);
    forall i | 0 <= i < |t.log| ensures Before(t.log[i], kind, t.clock) {
      if i < |s.log| { assert Before(s.log[i], kind, s.clock); }
    }
    forall i | 0 <= i < |t.log| && NoLossAfter(t.log, kind, i) && !t.Pc(kind).Open() && t.log[i].Started? && t.log[i].kind == kind
      ensures Forbids(t.row, kind, t.log[i].at + interval)
    {
      assert t.log[|s.log|] == e;
      forall j | i < j < |s.log| ensures s.log[j] != Lost(kind) {
        assert t.log[j] == s.log[j];
      }
    }
  }

  lemma InvProbe(surfaces: Kind -> Surface, s: State, kind: Kind)
    requires Inv(s, kind, Interval(surfaces, kind)) && s.Pc(kind).Allowed?
    ensures Inv(Apply(surfaces, s, Probe(kind)), kind, Interval(surfaces, kind))
  {
    var interval := Interval(surfaces, kind);
    var trigger := s.Pc(kind).trigger;
    var e := Started(kind, trigger, s.clock);
    var t := Apply(surfaces, s, Probe(kind));
    if trigger in {Schedule, Connect} {
      forall i | 0 <= i < |s.log| ensures Apart(t.log, kind, interval, i, |s.log|) {
        assert t.log[..|s.log|] == s.log && t.log[i] == s.log[i];
      }
    }
    SpacedAppend(s.log, e, kind, interval);
    forall i | 0 <= i < |t.log| ensures Before(t.log[i], kind, t.clock) {
      if i < |s.log| { assert Before(s.log[i], kind, s.clock); }
    }
  }

  lemma InvWrite(surfaces: Kind -> Surface, s: State, kind: Kind)
    requires Inv(s, kind, Interval(surfaces, kind)) && s.Pc(kind).Writing?
    ensures Inv(Apply(surfaces, s, Write(kind)), kind, Interval(surfaces, kind))
  {
    var interval := Interval(surfaces, kind);
    var pc := s.Pc(kind);
    var t := Apply(surfaces, s, Write(kind));
    RecordedOnlyItsKind(s.row, kind, pc.state);
    SpacedAppend(s.log, Attempt(kind, pc.at), kind, interval);
    forall i | 0 <= i < |t.log|
      ensures Before(t.log[i], kind, t.clock)
      ensures (t.log[i].Attempt? || t.log[i].Started?) && t.log[i].kind == kind ==> Forbids(t.row, kind, t.log[i].at + interval)
    {
      if i < |s.log| { assert Before(s.log[i], kind, pc.at) && t.log[i] == s.log[i]; }
    }
  }

  lemma InvParts(s: State, kind: Kind, interval: int)
    requires Inv(s, kind, interval)
    ensures PcOk(s, kind, interval) && s.clock > ZERO_TIME
    ensures forall i :: 0 <= i < |s.log| ==> Before(s.log[i], kind, s.clock)
  {
  }

  lemma QuietStepPc(surfaces: Kind -> Surface, s: State, a: Action, kind: Kind)
    requires surfaces(kind).supported && PcOk(s, kind, Interval(surfaces, kind)) && s.clock > ZERO_TIME
    requires forall i :: 0 <= i < |s.log| ==> Before(s.log[i], kind, s.clock)
    requires Enabled(s, a) && !a.Reconnect? && !a.Probe? && !a.Write? && !(a.Abandon? && s.Pc(a.kind).Open())
    ensures var t := Apply(surfaces, s, a);
            && PcOk(t, kind, Interval(surfaces, kind)) && t.log == s.log && t.clock >= s.clock
            && t.row.Probe(kind) == s.row.Probe(kind) && (t.Pc(kind).Open() || !s.Pc(kind).Open())
  {
  }

  /** Steps that start or record nothing. */
  lemma InvQuietStep(surfaces: Kind -> Surface, s: State, a: Action, kind: Kind)
    requires surfaces(kind).supported && Inv(s, kind, Interval(surfaces, kind))
    requires Enabled(s, a) && !a.Reconnect? && !a.Probe? && !a.Write? && !(a.Abandon? && s.Pc(a.kind).Open())
    ensures Inv(Apply(surfaces, s, a), kind, Interval(surfaces, kind))
  {
    hide Inv, Stamp, Spaced, NoLossAfter, Forbids;
    var t, interval := Apply(surfaces, s, a), Interval(surfaces, kind);
    InvParts(s, kind, interval);
    QuietStepPc(surfaces, s, a, kind);
    InvQuiet(s, t, kind, interval);
  }

  lemma InvStep(surfaces: Kind -> Surface, s: State, a: Action, kind: Kind)
    requires surfaces(kind).supported && Inv(s, kind, Interval(surfaces, kind))
    requires Enabled(s, a) && !a.Reconnect?
    ensures Inv(Apply(surfaces, s, a), kind, Interval(surfaces, kind))
  {
    hide Inv, Decide, Stamp, Recorded;
    var t, interval := Apply(surfaces, s, a), Interval(surfaces, kind);
    InvParts(s, kind, interval);
    match a
    case Probe(k) =>
      if k == kind { InvProbe(surfaces, s, kind); } else { InvOtherEvent(s, t, Started(k, s.Pc(k).trigger, s.clock), kind, interval); }
    case Write(k) =>
      RecordedOnlyItsKind(s.row, k, s.Pc(k).state);
      if k == kind { InvWrite(surfaces, s, kind); } else { InvOtherEvent(s, t, Attempt(k, s.Pc(k).at), kind, interval); }
    case Abandon(k) =>
      if s.Pc(k).Open() { InvOtherEvent(s, t, Lost(k), kind, interval); } else { InvQuietStep(surfaces, s, a, kind); }
    case _ => InvQuietStep(surfaces, s, a, kind);
  }

  lemma {:induction false} InvRun(surfaces: Kind -> Surface, trace: seq<State>, acts: seq<Action>, kind: Kind, n: nat)
    requires Run(surfaces, trace, acts) && NoReconnect(acts) && n < |trace| && surfaces(kind).supported
    ensures Inv(trace[n], kind, Interval(surfaces, kind))
  {
    if n > 0 {
      InvRun(surfaces, trace, acts, kind, n - 1);
      InvStep(surfaces, trace[n - 1], acts[n - 1], kind);
    }
  }

  /** An unsupported probe is never started. */
  lemma {:induction false} UnsupportedNeverStarts(surfaces: Kind -> Surface, trace: seq<State>, acts: seq<Action>, kind: Kind, n: nat)
    requires Run(surfaces, trace, acts) && n < |trace| && !surfaces(kind).supported
    ensures !trace[n].Pc(kind).Allowed?
    ensures forall i :: 0 <= i < |trace[n].log| && trace[n].log[i].Started? ==> trace[n].log[i].kind != kind
  {
    if n > 0 {
      UnsupportedNeverStarts(surfaces, trace, acts, kind, n - 1);
    }
  }

  /** Probe spacing over whole runs, whatever else happens to the row in between,
      whatever the probes answer and however often tasks are retried or lost. */
  lemma ScheduledProbesAreSpaced(surfaces: Kind -> Surface, trace: seq<State>, acts: seq<Action>, kind: Kind, n: nat)
    requires Run(surfaces, trace, acts) && NoReconnect(acts) && n < |trace|
    ensures Spaced(trace[n].log, kind, Interval(surfaces, kind))
  {
    if surfaces(kind).supported {
      InvRun(surfaces, trace, acts, kind, n);
    } else {
      UnsupportedNeverStarts(surfaces, trace, acts, kind, n);
    }
  }

  /** Serialised updates of the row leave a kind's throttle state alone unless they record that kind. */
  lemma OnlyItsOwnRecordMovesAThrottle(surfaces: Kind -> Surface, s: State, a: Action, kind: Kind)
    requires Enabled(s, a) && !a.Reconnect? && a != Write(kind)
    ensures Apply(surfaces, s, a).row.Probe(kind) == s.row.Probe(kind)
  {
    if a.Write? {
      RecordedOnlyItsKind(s.row, a.kind, s.Pc(a.kind).state);
    }
  }

  /** The callback behind a step that changes the row. */
  function MutationOf(s: State, a: Action): Option<ProviderStore.Mutation>
    requires Enabled(s, a)
  {
    match a
    case Write(kind) => Some(ProviderMutations.SetProbe(Some(kind), s.Pc(kind).state))
    case Rename(name) => Some(ProviderMutations.SetDisplayName(name))
    case SetModels(models) => Some(ProviderMutations.SetModels(models))
    case _ => None
  }

  /** The steps that change the row are the repository's updates of it: with the row stored
      under its id, an atomic update with the step's callback leaves the row the step leaves.
      A split update that nobody disturbs does the same. */
  lemma RowStepsAreUpdates(surfaces: Kind -> Surface, s: State, a: Action, rows: ProviderStore.Rows, id: string)
    requires Enabled(s, a) && MutationOf(s, a).Some?
    requires ProviderStore.Keyed(rows) && Trim(id) in rows && rows[Trim(id)] == s.row
    ensures ProviderStore.Updated(rows, id, MutationOf(s, a).value) == rows[Trim(id) := Apply(surfaces, s, a).row]
  {
    hide Trim;
    TrimTwice(id);
    assert s.row.(providerId := Trim(id)) == s.row;
  }

  /** The preflight of a supported kind lets a task go on exactly if it was begun by hand or
      without trigger, or the state it read does not forbid it any longer, and, for quota, its
      credential is ready. */
  lemma PreflightExactly(surfaces: Kind -> Surface, s: State, kind: Kind, credentialReady: bool)
    requires s.Pc(kind).Loaded? && surfaces(kind).supported
    ensures var pc, next := s.Pc(kind), Apply(surfaces, s, Preflight(kind, credentialReady)).Pc(kind);
            var waits := pc.seen.Some? && pc.seen.value.nextAllowedAt.Some? && pc.seen.value.nextAllowedAt.value != ZERO_TIME
                         && s.clock < pc.seen.value.nextAllowedAt.value;
            && (next.Resting? <==> pc.trigger in {Schedule, Connect} && waits)
            && (next.Allowed? <==> !(pc.trigger in {Schedule, Connect} && waits) && (kind == Quota ==> credentialReady))
            && (next.Allowed? ==> next.trigger == pc.trigger)
  {
  }

  /** From preflight to the recorded attempt, undisturbed: by hand whatever was recorded before,
      and otherwise with no throttle in the way. */
  lemma OneRound(surfaces: Kind -> Surface, s: State, kind: Kind, trigger: Trigger, note: Note) returns (acts: seq<Action>, t: State)
    requires surfaces(kind).supported && s.Pc(kind).Resting? && (trigger in {Schedule, Connect} ==> s.row.Probe(kind).None?)
    ensures acts == [Begin(kind, trigger), Preflight(kind, true), Probe(kind), Stamped(kind, note), Write(kind)]
    ensures After(surfaces, s, acts) == Some(t)
    ensures t.Pc(kind).Resting? && t.clock == s.clock
    ensures t.log == s.log + [Started(kind, trigger, s.clock), Attempt(kind, s.clock)]
  {
    hide Stamp, Recorded;
    acts := [Begin(kind, trigger), Preflight(kind, true), Probe(kind), Stamped(kind, note), Write(kind)];
    var s1 := Apply(surfaces, s, acts[0]);
    PreflightExactly(surfaces, s1, kind, true);
    var s2 := Apply(surfaces, s1, acts[1]);
    assert s2.Pc(kind).Allowed?;
    var s3 := Apply(surfaces, s2, acts[2]);
    var s4 := Apply(surfaces, s3, acts[3]);
    t := Apply(surfaces, s4, acts[4]);
    assert acts[0..] == acts;
    AfterNext(surfaces, s, acts, 0);
    AfterNext(surfaces, s1, acts, 1);
    AfterNext(surfaces, s2, acts, 2);
    AfterNext(surfaces, s3, acts, 3);
    AfterNext(surfaces, s4, acts, 4);
  }

  /** Where the schedule acts leads from s, if it is possible. */
  function After(surfaces: Kind -> Surface, s: State, acts: seq<Action>): Option<State>
    decreases |acts|
  {
    if acts == [] then Some(s)
    else if Enabled(s, acts[0]) then After(surfaces, Apply(surfaces, s, acts[0]), acts[1..])
    else None
  }

  lemma AfterNext(surfaces: Kind -> Surface, s: State, acts: seq<Action>, i: nat)
    requires i < |acts| && Enabled(s, acts[i])
    ensures After(surfaces, s, acts[i..]) == After(surfaces, Apply(surfaces, s, acts[i]), acts[i + 1..])
  {
    assert acts[i..][1..] == acts[i + 1..];
  }

  /** A finalised connect session writes a row without probe status: the next
      scheduled probe may then follow a recorded attempt at once. */
  lemma ReconnectForgetsThrottle(surfaces: Kind -> Surface, s: State, kind: Kind, next: Provider)
    returns (first: State, second: State)
    requires surfaces(kind).supported && s.Pc(kind).Resting? && s.log == []
    requires s.row.Probe(kind).None? && next.Probe(kind).None?
    ensures exists acts :: After(surfaces, s, acts) == Some(first)
    ensures exists acts :: After(surfaces, Apply(surfaces, first, Reconnect(next)), acts) == Some(second)
    ensures !Spaced(second.log, kind, Interval(surfaces, kind))
  {
    var note := Note("", "executed", "");
    var a1, t1 := OneRound(surfaces, s, kind, Schedule, note);
    var a2, t2 := OneRound(surfaces, Apply(surfaces, t1, Reconnect(next)), kind, Schedule, note);
    first, second := t1, t2;
    assert second.log[1] == Attempt(kind, s.clock) && second.log[2] == Started(kind, Schedule, s.clock);
    assert !Apart(second.log, kind, Interval(surfaces, kind), 1, 2);
  }

  // ----- executions in a window

  predicate Counts(e: Event, kind: Kind, from: int, width: int) {
    e.Started? && e.kind == kind && e.trigger in {Schedule, Connect} && from <= e.at <= from + width
  }

  /** Scheduled executions of one kind that start within the window. */
  function Executions(log: seq<Event>, kind: Kind, from: int, width: int): nat {
    if log == [] then 0
    else Executions(log[..|log| - 1], kind, from, width) + if Counts(log[|log| - 1], kind, from, width) then 1 else 0
  }

  /** When the latest execution of the kind started. */
  function LastStart(log: seq<Event>, kind: Kind): Option<int> {
    if log == [] then None
    else if log[|log| - 1].Started? && log[|log| - 1].kind == kind then Some(log[|log| - 1].at)
    else LastStart(log[..|log| - 1], kind)
  }

  /** The last event of the log loses the record of an execution that started within the window. */
  predicate LosesIn(log: seq<Event>, kind: Kind, from: int, width: int) {
    && log != [] && log[|log| - 1] == Lost(kind)
    && LastStart(log, kind).Some? && from <= LastStart(log, kind).value <= from + width
  }

  /** Lost records of executions of the kind, manual ones too, that started within the window. */
  function Losses(log: seq<Event>, kind: Kind, from: int, width: int): nat {
    if log == [] then 0
    else Losses(log[..|log| - 1], kind, from, width) + if LosesIn(log, kind, from, width) then 1 else 0
  }

  predicate Ordered(log: seq<Event>, kind: Kind) {
    forall i, j :: 0 <= i < j < |log| && log[i].Started? && log[j].Started? && log[i].kind == kind && log[j].kind == kind
                   ==> log[i].at <= log[j].at
  }

  /** The last counted execution starts late enough for all counted before it. */
  lemma {:induction false} LastOfWindow(log: seq<Event>, kind: Kind, from: int, width: int, interval: int) returns (last: int)
    requires interval > 0 && width >= 0 && Spaced(log, kind, interval) && Ordered(log, kind)
    ensures Executions(log, kind, from, width) == 0 ==> last == -1
    ensures Executions(log, kind, from, width) > 0 ==>
              && 0 <= last < |log| && Counts(log[last], kind, from, width)
              && (forall i :: last < i < |log| ==> !Counts(log[i], kind, from, width))
              && (Executions(log, kind, from, width) - 1 - Losses(log[..last], kind, from, width)) * interval <= log[last].at - from
  {
    hide Spaced, NoLossAfter, Ordered, StartsBy, LosesIn;
    if log == [] {
      return -1;
    }
    var n := |log| - 1;
    var e := log[n];
    var prior := log[..n];
    SpacedPrefix(log, kind, interval);
    OrderedPrefix(log, kind);
    last := LastOfWindow(prior, kind, from, width, interval);
    var count := Executions(prior, kind, from, width);
    if Counts(e, kind, from, width) {
      if count > 0 {
        StartsLater(prior, kind, e.at, from + width);
        LossesBetween(prior, kind, from, width, last);
        LossesGrow(prior, kind, from, width, last);
        SpacedAt(log, kind, interval, last, n);
        assert prior[..last] == log[..last] && log[..n] == prior;
        NextExecution(count, Losses(log[..last], kind, from, width), Losses(prior, kind, from, width), interval,
                      log[last].at - from, e.at - from);
      } else {
        MulMonotone(-(Losses(prior, kind, from, width) as int), 0, interval);
      }
      last := n;
    } else if count > 0 {
      assert prior[..last] == log[..last];
    }
  }

  lemma NextExecution(count: int, lost: int, lostNow: int, interval: int, at: int, atNow: int)
    requires interval > 0 && lost <= lostNow && (count - 1 - lost) * interval <= at <= atNow
    requires lost == lostNow ==> at + interval <= atNow
    ensures (count - lostNow) * interval <= atNow
  {
    if lost == lostNow {
      assert (count - lost) * interval == (count - 1 - lost) * interval + interval;
    } else {
      MulMonotone(count - lostNow, count - 1 - lost, interval);
    }
  }

  lemma MulMonotone(a: int, b: int, c: int)
    requires a <= b && c > 0
    ensures a * c <= b * c
  {
  }

  lemma OrderedPrefix(log: seq<Event>, kind: Kind)
    requires log != [] && Ordered(log, kind)
    ensures var n := |log| - 1;
            Ordered(log[..n], kind) && (log[n].Started? && log[n].kind == kind ==> StartsBy(log[..n], kind, log[n].at))
  {
    assert forall i :: 0 <= i < |log| - 1 ==> log[..|log| - 1][i] == log[i];
  }

  lemma StartsLater(log: seq<Event>, kind: Kind, at: int, later: int)
    requires StartsBy(log, kind, at) && at <= later
    ensures StartsBy(log, kind, later)
  {
  }

  lemma SpacedAt(log: seq<Event>, kind: Kind, interval: int, i: int, j: int)
    requires Spaced(log, kind, interval) && 0 <= i < j < |log|
    requires log[j].Started? && log[j].kind == kind && log[j].trigger in {Schedule, Connect}
    ensures Apart(log, kind, interval, i, j)
  {
  }

  lemma SpacedPrefix(log: seq<Event>, kind: Kind, interval: int)
    requires log != [] && Spaced(log, kind, interval)
    ensures Spaced(log[..|log| - 1], kind, interval)
  {
    var prior := log[..|log| - 1];
    forall i, j | 0 <= i < j < |prior| && prior[j].Started? && prior[j].kind == kind && prior[j].trigger in {Schedule, Connect}
      ensures Apart(prior, kind, interval, i, j)
    {
      assert Apart(log, kind, interval, i, j);
      assert prior[..j] == log[..j];
    }
  }

  /** Every execution of the kind starts by the given time. */
  predicate StartsBy(log: seq<Event>, kind: Kind, at: int) {
    forall i :: 0 <= i < |log| && log[i].Started? && log[i].kind == kind ==> log[i].at <= at
  }

  lemma {:induction false} LastStartIsLater(log: seq<Event>, kind: Kind, i: int, at: int)
    requires 0 <= i < |log| && log[i].Started? && log[i].kind == kind && Ordered(log, kind) && StartsBy(log, kind, at)
    ensures LastStart(log, kind).Some? && log[i].at <= LastStart(log, kind).value <= at
  {
    var n := |log| - 1;
    if i < n && !(log[n].Started? && log[n].kind == kind) {
      assert log[..n][i] == log[i];
      LastStartIsLater(log[..n], kind, i, at);
    }
  }

  lemma {:induction false} LossesGrow(log: seq<Event>, kind: Kind, from: int, width: int, i: int)
    requires 0 <= i <= |log|
    ensures Losses(log[..i], kind, from, width) <= Losses(log, kind, from, width)
  {
    if i == |log| {
      assert log[..i] == log;
    } else {
      LossesGrow(log[..|log| - 1], kind, from, width, i);
      assert log[..|log| - 1][..i] == log[..i];
    }
  }

  /** As long as nothing starts after the window, equal counts mean that no record was lost
      since an execution in it. */
  lemma {:induction false} LossesBetween(log: seq<Event>, kind: Kind, from: int, width: int, i: int)
    requires 0 <= i < |log| && Counts(log[i], kind, from, width) && Ordered(log, kind) && StartsBy(log, kind, from + width)
    ensures Losses(log[..i], kind, from, width) == Losses(log, kind, from, width) ==> NoLossAfter(log, kind, i)
  {
    var n := |log| - 1;
    var prior := log[..n];
    if i < n {
      LossesBetween(prior, kind, from, width, i);
      LastStartIsLater(log, kind, i, from + width);
      assert prior[..i] == log[..i];
      LossesGrow(prior, kind, from, width, i);
      if Losses(log[..i], kind, from, width) == Losses(log, kind, from, width) {
        forall j | i < j < |log| ensures log[j] != Lost(kind) {
          if j < n { assert prior[j] == log[j]; }
        }
      }
    }
  }

  lemma {:induction false} RunOrdered(surfaces: Kind -> Surface, trace: seq<State>, acts: seq<Action>, kind: Kind, n: nat)
    requires Run(surfaces, trace, acts) && n < |trace|
    ensures Ordered(trace[n].log, kind)
    ensures forall i :: 0 <= i < |trace[n].log| && trace[n].log[i].Started? ==> trace[n].log[i].at <= trace[n].clock
  {
    if n > 0 {
      RunOrdered(surfaces, trace, acts, kind, n - 1);
    }
  }

  /** A window of width W holds at most floor(W / interval) + 1 scheduled executions,
      plus one for every lost record of an execution that started in it. */
  lemma WindowBound(surfaces: Kind -> Surface, trace: seq<State>, acts: seq<Action>, kind: Kind, n: nat, from: int, width: nat)
    requires Run(surfaces, trace, acts) && NoReconnect(acts) && n < |trace|
    ensures Executions(trace[n].log, kind, from, width)
         <= width / Interval(surfaces, kind) + 1 + Losses(trace[n].log, kind, from, width)
  {
    var log, interval := trace[n].log, Interval(surfaces, kind);
    ScheduledProbesAreSpaced(surfaces, trace, acts, kind, n);
    RunOrdered(surfaces, trace, acts, kind, n);
    var last := LastOfWindow(log, kind, from, width, interval);
    var count := Executions(log, kind, from, width);
    if count > 0 {
      LossesGrow(log, kind, from, width, last);
      var k := count - 1 - Losses(log, kind, from, width);
      MulMonotone(k, count - 1 - Losses(log[..last], kind, from, width), interval);
      assert k * interval <= width;
      QuotientBound(k, interval, width);
    }
  }

  lemma QuotientBound(k: int, interval: int, width: nat)
    requires interval > 0 && k * interval <= width
    ensures k <= width / interval
  {
    var q := width / interval;
    assert (q + 1) * interval == q * interval + interval;
    if k > q {
      MulMonotone(q + 1, k, interval);
    }
  }
}
