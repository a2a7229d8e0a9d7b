/** A persisted connect session: the snapshot it was created with and its
    progress (session_target_snapshot.go, session_progress.go, oauth_finalize_plan.go). */
module ConnectSession {
  import opened Text
  import opened ProviderModel

  datatype Phase = PhaseUnspecified | Pending | AwaitingUser | Processing | Succeeded | Failed | Expired | Canceled

  datatype Snapshot = Snapshot(addMethod: int, displayName: string, cliId: string, providerSurfaceId: string,
                               targetCredentialId: string, targetProviderId: string)

  datatype Progress = Progress(phase: Phase, authorizationUrl: string, userCode: string,
                               message: string, errorMessage: string, connectedSurfaceId: string)

  datatype Record = Record(sessionId: string, snapshot: Snapshot, progress: Progress)

  datatype OAuthPhase = OAuthUnspecified | OAuthPending | OAuthAwaitingUser | OAuthProcessing | OAuthSucceeded
                      | OAuthFailed | OAuthExpired | OAuthCanceled

  datatype OAuthStatus = OAuthStatus(phase: OAuthPhase, message: string, authorizationUrl: string, userCode: string,
                                     importedCredentialId: string)

  datatype OAuthState = OAuthState(targetCredentialId: string, status: Option<OAuthStatus>)

  /** What reading the OAuth session answers. */
  type Answer = Result<OAuthState, string>

  function TrimmedSnapshot(raw: Snapshot): Snapshot {
    Snapshot(raw.addMethod, Trim(raw.displayName), Trim(raw.cliId), Trim(raw.providerSurfaceId),
             Trim(raw.targetCredentialId), Trim(raw.targetProviderId))
  }

  predicate Terminal(p: Progress) {
    p.phase == Succeeded || p.phase == Failed || p.phase == Expired || p.phase == Canceled
  }

  function PhaseFromOAuth(status: OAuthStatus): Phase {
    match status.phase
    case OAuthPending => Pending
    case OAuthAwaitingUser => AwaitingUser
    case OAuthProcessing => Processing
    case OAuthSucceeded => Succeeded
    case OAuthExpired => Expired
    case OAuthCanceled => Canceled
    case OAuthFailed => Failed
    case OAuthUnspecified => Pending
  }

  function WithStatus(p: Progress, status: Option<OAuthStatus>): Progress {
    match status
    case None => p.(phase := Pending, message := "Waiting for authorization session state.", errorMessage := "",
                    authorizationUrl := "", userCode := "")
    case Some(st) =>
      var phase, message := PhaseFromOAuth(st), Trim(st.message);
      p.(phase := phase, message := message,
         errorMessage := if phase == Expired || phase == Canceled || phase == Failed then message else "",
         authorizationUrl := Trim(st.authorizationUrl), userCode := Trim(st.userCode))
  }

  function WithReadError(p: Progress, err: string): Progress {
    p.(phase := Failed, errorMessage := err, message := "Provider connect session could not read OAuth state.")
  }

  function WithAuthenticationUpdated(p: Progress): Progress {
    p.(message := "Provider authentication updated.", errorMessage := "")
  }

  function WithFinalizeFailed(p: Progress, err: string): Progress {
    p.(phase := Failed, errorMessage := err, message := "Provider creation failed.")
  }

  function WithConnected(p: Progress, surfaceId: string): Progress {
    p.(phase := Succeeded, connectedSurfaceId := Trim(surfaceId), message := "Provider connected.", errorMessage := "")
  }

  predicate NeedsFinalize(snapshot: Snapshot, p: Progress) {
    !Blank(snapshot.providerSurfaceId) && Blank(p.connectedSurfaceId)
  }

  /** oauthStateAllowsProviderMaterialization. */
  predicate Allows(state: OAuthState) {
    && state.status.Some? && state.status.value.phase == OAuthSucceeded
    && (!Blank(state.targetCredentialId) || !Blank(state.status.value.importedCredentialId))
  }

  /** The credential of the finalise plan: the imported one wins; none is an error. */
  function PlanCredential(state: OAuthState): Option<string> {
    var imported := if state.status.Some? then Trim(state.status.value.importedCredentialId) else "";
    if imported != "" then Some(imported)
    else if !Blank(state.targetCredentialId) then Some(Trim(state.targetCredentialId))
    else None
  }

  /** The materialisation guard always implies that the plan finds a credential. */
  lemma GuardFindsCredential(state: OAuthState)
    requires Allows(state)
    ensures PlanCredential(state).Some? && !Blank(PlanCredential(state).value)
  {
    hide Trim;
    TrimTwice(state.targetCredentialId);
    TrimTwice(state.status.value.importedCredentialId);
  }

  /** The provider a finalise writes: fresh, without models or probe status. */
  function PlanProvider(snapshot: Snapshot, credentialId: string): Provider {
    Provider(Trim(snapshot.targetProviderId), Trim(snapshot.displayName), Trim(snapshot.providerSurfaceId),
             if Blank(credentialId) then None else Some(Trim(credentialId)), [], None)
  }

  /** ValidateExisting: the row found by surface is the one this session would have written. */
  predicate Matches(existing: Provider, plan: Provider) {
    && Trim(existing.surfaceId) == Trim(plan.surfaceId)
    && Trim(existing.providerId) == Trim(plan.providerId)
    && Trim(existing.credentialId.GetOr("")) == Trim(plan.credentialId.GetOr(""))
  }
}

/** Any number of concurrent reads of one session: the stored record, the rows of
    the provider table, and the OAuth answers and faults, in any order. */
module SessionProtocol {
  import opened Text
  import opened ProviderModel
  import opened ProviderStore
  import opened ConnectSession

  datatype Pc =
    | Resting
    | Loaded(progress: Progress)
    | Finalizing(progress: Progress, credential: string)
    | Created(progress: Progress, credential: string)    // the provider row was upserted
    | Existing(progress: Progress, credential: string)   // creation reported a duplicate
    | Saving(progress: Progress)

  datatype State = State(stored: Progress, rows: Rows, callers: seq<Pc>)

  datatype Create = Accepted | Duplicate | Refused(error: string)

  datatype Action =
    | Load(c: nat)
    | ReadOAuth(c: nat, answer: Answer)
    | CreateProvider(c: nat, create: Create)
    | ReadBack(c: nat, fails: bool)
    | LookUp(c: nat, found: Option<string>)
    | Save(c: nat, lost: bool)
    | Crash(c: nat)
    | Foreign(id: string, row: Option<Provider>)   // another writer of the provider table

  /** The parts of a session that no read ever changes. */
  datatype Session = Session(snapshot: Snapshot, valid: Provider -> bool)

  function Target(session: Session): string { Trim(session.snapshot.targetProviderId) }

  function Surface(session: Session): string { Trim(session.snapshot.providerSurfaceId) }

  predicate Enabled(session: Session, s: State, a: Action) {
    match a
    case Foreign(_, _) => true
    case Load(c) => c < |s.callers| && s.callers[c].Resting?
    case ReadOAuth(c, _) => c < |s.callers| && s.callers[c].Loaded?
    case CreateProvider(c, _) => c < |s.callers| && s.callers[c].Finalizing?
    case ReadBack(c, _) => c < |s.callers| && s.callers[c].Created?
    case LookUp(c, found) =>
      && c < |s.callers| && s.callers[c].Existing?
      && (found.Some? ==> found.value in s.rows && Trim(s.rows[found.value].surfaceId) == Surface(session))
    case Save(c, _) => c < |s.callers| && s.callers[c].Saving?
    case Crash(c) => c < |s.callers|
  }

  function Goto(s: State, c: nat, pc: Pc): State
    requires c < |s.callers|
  {
    s.(callers := s.callers[c := pc])
  }

  /** The next state of a caller that has its OAuth answer. */
  function Advance(snapshot: Snapshot, p: Progress, answer: Answer): Pc {
    match answer
    case Err(e) => Saving(if Terminal(p) then p else WithReadError(p, e))
    case Ok(state) =>
      var q := WithStatus(p, state.status);
      if NeedsFinalize(snapshot, q) && Allows(state) then
        if PlanCredential(state).Some? then Finalizing(q, PlanCredential(state).value)
        else Saving(WithFinalizeFailed(q, "completed without imported credential"))
      else if q.phase == Succeeded && !NeedsFinalize(snapshot, q) then Saving(WithAuthenticationUpdated(q))
      else Saving(q)
  }

  function Apply(session: Session, s: State, a: Action): State
    requires Enabled(session, s, a)
  {
    match a
    case Load(c) => Goto(s, c, Loaded(s.stored))
    case ReadOAuth(c, answer) => Goto(s, c, Advance(session.snapshot, s.callers[c].progress, answer))
    case CreateProvider(c, create) =>
      var p, credential := s.callers[c].progress, s.callers[c].credential;
      (match create
       case Refused(e) => Goto(s, c, Saving(WithFinalizeFailed(p, e)))
       case Duplicate => Goto(s, c, Existing(p, credential))
       case Accepted =>
         var row := NormalizeForWrite(session.valid, PlanProvider(session.snapshot, credential));
         if row.Err? then Goto(s, c, Saving(WithFinalizeFailed(p, "invalid provider")))
         else Goto(s.(rows := s.rows[row.value.providerId := row.value]), c, Created(p, credential)))
    case ReadBack(c, fails) =>
      var p := s.callers[c].progress;
      if fails || Target(session) !in s.rows || Trim(s.rows[Target(session)].surfaceId) != Surface(session)
      then Goto(s, c, Saving(WithFinalizeFailed(p, "created provider not readable")))
      else Goto(s, c, Saving(WithConnected(p, s.rows[Target(session)].surfaceId)))
    case LookUp(c, found) =>
      var p, credential := s.callers[c].progress, s.callers[c].credential;
      if found.None? || !Matches(s.rows[found.value], PlanProvider(session.snapshot, credential))
      then Goto(s, c, Saving(WithFinalizeFailed(p, "provider surface already exists")))
      else Goto(s, c, Saving(WithConnected(p, s.rows[found.value].surfaceId)))
    case Save(c, lost) =>
      Goto(if lost then s else s.(stored := s.callers[c].progress), c, Resting)
    case Crash(c) => Goto(s, c, Resting)
    case Foreign(id, row) => s.(rows := if row.Some? then s.rows[id := row.value] else s.rows - {id})
  }

  predicate Run(session: Session, trace: seq<State>, acts: seq<Action>) {
    && |trace| == |acts| + 1
    && trace[0].stored.connectedSurfaceId == ""
    && (forall c :: 0 <= c < |trace[0].callers| ==> trace[0].callers[c].Resting?)
    && (forall i :: 0 <= i < |acts| ==> Enabled(session, trace[i], acts[i]) && trace[i + 1] == Apply(session, trace[i], acts[i]))
  }

  // ----- one row, one content

  /** A session's reads touch no provider row but the one its snapshot names. */
  lemma OnlyTheTargetRow(session: Session, s: State, a: Action)
    requires Enabled(session, s, a) && !a.Foreign?
    ensures Apply(session, s, a).rows - {Target(session)} == s.rows - {Target(session)}
    ensures Target(session) in s.rows ==> Target(session) in Apply(session, s, a).rows
    ensures Apply(session, s, a).rows != s.rows ==>
              && a.CreateProvider? && Target(session) != ""
              && Apply(session, s, a).rows == s.rows[Target(session) := PlanProvider(session.snapshot, s.callers[a.c].credential)]
  {
    hide Trim, Advance, Matches, WithConnected, WithFinalizeFailed;
    TrimOfNoSpace("");
    TrimTwice(session.snapshot.targetProviderId);
  }

  function Row(rows: Rows, id: string): Option<Provider> {
    if id in rows then Some(rows[id]) else None
  }

  /** Every OAuth answer that lets the provider be created names the same credential. */
  predicate StableCredential(acts: seq<Action>, credential: string) {
    forall i :: 0 <= i < |acts| && acts[i].ReadOAuth? && acts[i].answer.Ok? && Allows(acts[i].answer.value)
                ==> PlanCredential(acts[i].answer.value) == Some(credential)
  }

  predicate NobodyElseWrites(acts: seq<Action>, id: string) {
    forall i :: 0 <= i < |acts| && acts[i].Foreign? ==> acts[i].id != id
  }

  predicate WorksOn(pc: Pc, credential: string) {
    pc.Finalizing? || pc.Created? || pc.Existing? ==> pc.credential == credential
  }

  predicate AllWorkOn(s: State, credential: string) {
    forall c :: 0 <= c < |s.callers| ==> WorksOn(s.callers[c], credential)
  }

  /** Every caller whose upsert is done sees the plan's row. */
  predicate RowOk(session: Session, initial: Option<Provider>, s: State, credential: string) {
    var row, planned := Row(s.rows, Target(session)), Some(PlanProvider(session.snapshot, credential));
    && (row == initial || row == planned)
    && (forall c :: 0 <= c < |s.callers| && s.callers[c].Created? ==> row == planned)
  }

  lemma StepAgrees(session: Session, s: State, a: Action, credential: string)
    requires Enabled(session, s, a) && AllWorkOn(s, credential)
    requires a.ReadOAuth? && a.answer.Ok? && Allows(a.answer.value) ==> PlanCredential(a.answer.value) == Some(credential)
    ensures AllWorkOn(Apply(session, s, a), credential)
  {
    hide Trim, WithStatus, NormalizeForWrite, Matches, PlanProvider, Allows, PlanCredential, NeedsFinalize;
    if !a.Foreign? {
      assert WorksOn(s.callers[a.c], credential);
    }
  }

  lemma StepKeepsRow(session: Session, initial: Option<Provider>, s: State, a: Action, credential: string)
    requires Enabled(session, s, a) && AllWorkOn(s, credential) && RowOk(session, initial, s, credential)
    requires a.Foreign? ==> a.id != Target(session)
    ensures RowOk(session, initial, Apply(session, s, a), credential)
  {
    hide Trim, WithStatus, Matches, PlanProvider, Allows, PlanCredential, NeedsFinalize, Target, NormalizeForWrite;
    if !a.Foreign? {
      OnlyTheTargetRow(session, s, a);
      assert WorksOn(s.callers[a.c], credential);
    }
    if a.CreateProvider? && a.create.Accepted? {
      CreateWrites(session, s, a.c);
    }
  }

  /** An accepted creation either leaves the caller failed or commits the plan's row. */
  lemma CreateWrites(session: Session, s: State, c: nat)
    requires c < |s.callers| && s.callers[c].Finalizing?
    ensures var credential := s.callers[c].credential;
            var t := Apply(session, s, CreateProvider(c, Accepted));
            || (t.callers[c].Created? && t.rows == s.rows[Target(session) := PlanProvider(session.snapshot, credential)])
            || (t.callers[c].Saving? && t.rows == s.rows)
  {
    hide Trim;
    TrimOfNoSpace("");
    TrimTwice(session.snapshot.targetProviderId);
  }

  lemma {:induction false} RowIsThePlans(session: Session, trace: seq<State>, acts: seq<Action>, credential: string, n: nat)
    requires Run(session, trace, acts) && n < |trace|
    requires StableCredential(acts, credential) && NobodyElseWrites(acts, Target(session))
    ensures AllWorkOn(trace[n], credential)
    ensures RowOk(session, Row(trace[0].rows, Target(session)), trace[n], credential)
  {
    if n > 0 {
      RowIsThePlans(session, trace, acts, credential, n - 1);
      StepAgrees(session, trace[n - 1], acts[n - 1], credential);
      StepKeepsRow(session, Row(trace[0].rows, Target(session)), trace[n - 1], acts[n - 1], credential);
    }
  }

  /** The step commits the plan's row. */
  predicate Commits(session: Session, s: State, a: Action)
    requires Enabled(session, s, a)
  {
    a.CreateProvider? && Apply(session, s, a).callers[a.c].Created?
  }

  /** From the first committed creation on the target row is the plan's provider for good,
      whatever the callers do afterwards. */
  lemma {:induction false} CommittedRowStays(session: Session, trace: seq<State>, acts: seq<Action>, credential: string, m: nat, n: nat)
    requires Run(session, trace, acts) && m < n < |trace| && Commits(session, trace[m], acts[m])
    requires StableCredential(acts, credential) && NobodyElseWrites(acts, Target(session))
    ensures Row(trace[n].rows, Target(session)) == Some(PlanProvider(session.snapshot, credential))
  {
    hide Apply, RowOk, PlanProvider, Target;
    RowIsThePlans(session, trace, acts, credential, n - 1);
    if n == m + 1 {
      CommittedRow(session, trace[m], acts[m], credential);
    } else {
      CommittedRowStays(session, trace, acts, credential, m, n - 1);
      StepKeepsPlan(session, trace[n - 1], acts[n - 1], credential);
    }
  }

  lemma CommittedRow(session: Session, s: State, a: Action, credential: string)
    requires Enabled(session, s, a) && AllWorkOn(s, credential) && Commits(session, s, a)
    ensures Row(Apply(session, s, a).rows, Target(session)) == Some(PlanProvider(session.snapshot, credential))
  {
    hide Trim, NormalizeForWrite, PlanProvider, Target;
    assert WorksOn(s.callers[a.c], credential);
    if a.create.Accepted? {
      CreateWrites(session, s, a.c);
    }
  }

  lemma StepKeepsPlan(session: Session, s: State, a: Action, credential: string)
    requires Enabled(session, s, a) && AllWorkOn(s, credential) && (a.Foreign? ==> a.id != Target(session))
    requires Row(s.rows, Target(session)) == Some(PlanProvider(session.snapshot, credential))
    ensures Row(Apply(session, s, a).rows, Target(session)) == Some(PlanProvider(session.snapshot, credential))
  {
    hide Trim, WithStatus, NormalizeForWrite, Matches, PlanProvider, Advance, Target;
    if !a.Foreign? {
      OnlyTheTargetRow(session, s, a);
      assert WorksOn(s.callers[a.c], credential);
    }
  }

  // ----- the connected surface

  predicate Connects(session: Session, p: Progress) {
    p.connectedSurfaceId == "" || p.connectedSurfaceId == Surface(session)
  }

  predicate AllConnect(session: Session, s: State) {
    && Connects(session, s.stored)
    && (forall c :: 0 <= c < |s.callers| && !s.callers[c].Resting? ==> Connects(session, s.callers[c].progress))
  }

  lemma AdvanceConnection(session: Session, p: Progress, answer: Answer)
    requires Connects(session, p)
    ensures var pc := Advance(session.snapshot, p, answer);
            && (pc.Saving? || pc.Finalizing?)
            && pc.progress.connectedSurfaceId == p.connectedSurfaceId
            && (pc.Finalizing? ==> p.connectedSurfaceId == "")
  {
    hide Trim, Allows, PlanCredential, PhaseFromOAuth;
    TrimTwice(session.snapshot.providerSurfaceId);
  }

  lemma StepConnects(session: Session, s: State, a: Action)
    requires Enabled(session, s, a) && AllConnect(session, s)
    ensures AllConnect(session, Apply(session, s, a))
  {
    hide Trim, NormalizeForWrite, Matches, PlanProvider, Advance;
    if a.ReadOAuth? {
      assert Connects(session, s.callers[a.c].progress);
      AdvanceConnection(session, s.callers[a.c].progress, a.answer);
    }
  }

  /** A committed connection is empty or names the session's own surface, in every
      interleaving. */
  lemma {:induction false} ConnectedIsTheSurface(session: Session, trace: seq<State>, acts: seq<Action>, n: nat)
    requires Run(session, trace, acts) && n < |trace|
    ensures AllConnect(session, trace[n])
  {
    if n > 0 {
      ConnectedIsTheSurface(session, trace, acts, n - 1);
      StepConnects(session, trace[n - 1], acts[n - 1]);
    }
  }

  /** With a single caller its copy agrees with the stored record. */
  predicate InStep(s: State) {
    && |s.callers| == 1
    && var pc := s.callers[0];
       && (pc.Loaded? ==> pc.progress.connectedSurfaceId == s.stored.connectedSurfaceId)
       && (pc.Finalizing? || pc.Created? || pc.Existing? ==> s.stored.connectedSurfaceId == pc.progress.connectedSurfaceId == "")
       && (pc.Saving? && s.stored.connectedSurfaceId != "" ==> pc.progress.connectedSurfaceId == s.stored.connectedSurfaceId)
  }

  lemma StepInStep(session: Session, s: State, a: Action)
    requires Enabled(session, s, a) && AllConnect(session, s) && InStep(s)
    ensures InStep(Apply(session, s, a))
    ensures s.stored.connectedSurfaceId != "" ==> Apply(session, s, a).stored.connectedSurfaceId == s.stored.connectedSurfaceId
  {
    hide Trim, NormalizeForWrite, Matches, PlanProvider, Advance;
    if !a.Foreign? {
      assert a.c == 0;
    }
    if a.ReadOAuth? {
      AdvanceConnection(session, s.callers[0].progress, a.answer);
    }
  }

  lemma {:induction false} SequentialRun(session: Session, trace: seq<State>, acts: seq<Action>, m: nat, n: nat)
    requires Run(session, trace, acts) && m <= n < |trace| && |trace[0].callers| == 1
    ensures InStep(trace[n])
    ensures trace[m].stored.connectedSurfaceId != "" ==> trace[n].stored.connectedSurfaceId == trace[m].stored.connectedSurfaceId
  {
    if n > 0 {
      SequentialRun(session, trace, acts, if m < n then m else m - 1, n - 1);
      ConnectedIsTheSurface(session, trace, acts, n - 1);
      StepInStep(session, trace[n - 1], acts[n - 1]);
    }
  }

  /** In a sequential run a committed connection never changes or clears, and no
      provider is created for the session again. */
  lemma ConnectedOnceAndForAll(session: Session, trace: seq<State>, acts: seq<Action>, m: nat, n: nat)
    requires Run(session, trace, acts) && m <= n < |trace| && |trace[0].callers| == 1
    requires trace[m].stored.connectedSurfaceId != ""
    ensures trace[m].stored.connectedSurfaceId == Surface(session)
    ensures trace[n].stored.connectedSurfaceId == Surface(session)
    ensures n < |acts| ==> !acts[n].CreateProvider?
  {
    ConnectedIsTheSurface(session, trace, acts, m);
    SequentialRun(session, trace, acts, m, n);
  }

  /** A failed OAuth read leaves a terminal record exactly as it was. */
  lemma ReadErrorKeepsTerminal(session: Session, s: State, c: nat, error: string)
    requires c < |s.callers| && s.callers[c].Resting? && Terminal(s.stored)
    ensures var s1 := Apply(session, s, Load(c));
            var s2 := Apply(session, s1, ReadOAuth(c, Err(error)));
            Apply(session, s2, Save(c, false)) == s
  {
    var s3 := Apply(session, Apply(session, Apply(session, s, Load(c)), ReadOAuth(c, Err(error))), Save(c, false));
    assert s3.callers == s.callers;
  }

  /** Where the schedule acts leads from s, if it is possible. */
  function After(session: Session, s: State, acts: seq<Action>): Option<State>
    decreases |acts|
  {
    if acts == [] then Some(s)
    else if Enabled(session, s, acts[0]) then After(session, Apply(session, s, acts[0]), acts[1..])
    else None
  }

  lemma AfterNext(session: Session, s: State, acts: seq<Action>, i: nat)
    requires i < |acts| && Enabled(session, s, acts[i])
    ensures After(session, s, acts[i..]) == After(session, Apply(session, s, acts[i]), acts[i + 1..])
  {
    assert acts[i..][1..] == acts[i + 1..];
  }

  /** A caller alone with a usable OAuth answer connects the session. */
  lemma ConnectsAlone(session: Session, s: State, c: nat, done: OAuthState)
    returns (acts: seq<Action>, t: State)
    requires c < |s.callers| && s.callers[c] == Loaded(s.stored) && s.stored.connectedSurfaceId == ""
    requires Target(session) != "" && Surface(session) != "" && Allows(done)
    requires session.valid(PlanProvider(session.snapshot, PlanCredential(done).GetOr("")))
    ensures acts == [ReadOAuth(c, Ok(done)), CreateProvider(c, Accepted), ReadBack(c, false), Save(c, false)]
    ensures After(session, s, acts) == Some(t)
    ensures t.stored.connectedSurfaceId == Surface(session)
    ensures t.callers == s.callers[c := Resting]
  {
    hide Trim, After, Advance, Allows, PlanCredential, WithStatus, PlanProvider, NormalizeForWrite, WithConnected;
    acts := [ReadOAuth(c, Ok(done)), CreateProvider(c, Accepted), ReadBack(c, false), Save(c, false)];
    var credential := PlanCredential(done).GetOr("");
    var p := WithStatus(s.stored, done.status);
    GuardFindsCredential(done);
    PlanIsWritten(session, credential);
    StepFinalizing(session, s, c, done);
    var s1 := Apply(session, s, acts[0]);
    var s2 := Apply(session, s1, acts[1]);
    StepReadBack(session, s2, c, credential);
    var s3 := Apply(session, s2, acts[2]);
    t := Apply(session, s3, acts[3]);
    assert acts[0..] == acts && acts[4..] == [];
    AfterNext(session, s, acts, 0);
    AfterNext(session, s1, acts, 1);
    AfterNext(session, s2, acts, 2);
    AfterNext(session, s3, acts, 3);
    AfterNone(session, t);
  }

  lemma StepFinalizing(session: Session, s: State, c: nat, done: OAuthState)
    requires c < |s.callers| && s.callers[c] == Loaded(s.stored) && s.stored.connectedSurfaceId == ""
    requires Surface(session) != "" && Allows(done)
    ensures PlanCredential(done).Some?
    ensures Apply(session, s, ReadOAuth(c, Ok(done))) == Goto(s, c, Finalizing(WithStatus(s.stored, done.status), PlanCredential(done).value))
  {
    hide Trim, Allows, PlanCredential, PhaseFromOAuth;
    GuardFindsCredential(done);
    TrimTwice(session.snapshot.providerSurfaceId);
    TrimOfNoSpace("");
  }

  lemma StepReadBack(session: Session, s: State, c: nat, credential: string)
    requires c < |s.callers| && s.callers[c].Created?
    requires Row(s.rows, Target(session)) == Some(PlanProvider(session.snapshot, credential))
    ensures Apply(session, s, ReadBack(c, false)) == Goto(s, c, Saving(WithConnected(s.callers[c].progress, Surface(session))))
    ensures WithConnected(s.callers[c].progress, Surface(session)).connectedSurfaceId == Surface(session)
  {
    hide Trim;
    TrimTwice(session.snapshot.providerSurfaceId);
  }

  lemma AfterNone(session: Session, s: State)
    ensures After(session, s, []) == Some(s)
  {
  }

  lemma PlanIsWritten(session: Session, credential: string)
    requires Target(session) != "" && session.valid(PlanProvider(session.snapshot, credential))
    ensures NormalizeForWrite(session.valid, PlanProvider(session.snapshot, credential)) == Ok(PlanProvider(session.snapshot, credential))
    ensures PlanProvider(session.snapshot, credential).providerId == Target(session)
  {
    hide Trim;
    TrimOfNoSpace("");
    TrimTwice(session.snapshot.targetProviderId);
  }

  lemma {:induction false} AfterAppend(session: Session, s: State, a: seq<Action>, b: seq<Action>)
    requires After(session, s, a).Some?
    ensures After(session, s, a + b) == After(session, After(session, s, a).value, b)
    decreases |a|
  {
    hide Apply, Enabled;
    if a == [] {
      assert a + b == b;
    } else {
      assert (a + b)[1..] == a[1..] + b;
      AfterAppend(session, Apply(session, s, a[0]), a[1..], b);
    }
  }

  /** A schedule that is possible has a trace, through every state on its way. */
  lemma {:induction false} Traced(session: Session, s: State, acts: seq<Action>) returns (trace: seq<State>)
    requires After(session, s, acts).Some?
    ensures |trace| == |acts| + 1 && trace[0] == s
    ensures forall i :: 0 <= i < |acts| ==> Enabled(session, trace[i], acts[i]) && trace[i + 1] == Apply(session, trace[i], acts[i])
    ensures forall i :: 0 <= i <= |acts| ==> After(session, s, acts[..i]) == Some(trace[i])
    decreases |acts|
  {
    hide Apply, Enabled;
    if acts == [] {
      return [s];
    }
    var next := Apply(session, s, acts[0]);
    var rest := Traced(session, next, acts[1..]);
    trace := [s] + rest;
    forall i | 0 <= i <= |acts| ensures After(session, s, acts[..i]) == Some(trace[i]) {
      if i > 0 {
        assert acts[..i][1..] == acts[1..][..i - 1];
      } else {
        assert acts[..0] == [];
      }
    }
    forall i | 0 <= i < |acts| ensures Enabled(session, trace[i], acts[i]) && trace[i + 1] == Apply(session, trace[i], acts[i]) {
      if i > 0 {
        assert acts[1..][i - 1] == acts[i];
      }
    }
  }

  /** Overlapping reads lose that guarantee: there is a run of two reads, both of the new record,
      in which the session is connected after six steps and a stale save then clears it. */
  lemma StaleSaveClears(session: Session, s: State, done: OAuthState, pending: OAuthState)
    returns (trace: seq<State>, acts: seq<Action>)
    requires s.callers == [Resting, Resting] && s.stored.connectedSurfaceId == ""
    requires Target(session) != "" && Surface(session) != "" && Allows(done) && !Allows(pending)
    requires session.valid(PlanProvider(session.snapshot, PlanCredential(done).GetOr("")))
    ensures Run(session, trace, acts) && trace[0] == s && |acts| == 8
    ensures trace[6].stored.connectedSurfaceId == Surface(session) && trace[8].stored.connectedSurfaceId == ""
  {
    hide Trim, After, Allows, NeedsFinalize, WithStatus, Matches, PlanProvider, NormalizeForWrite, PlanCredential, Target, Surface;
    var loads := [Load(0), Load(1)];
    var loaded := TwoLoads(session, s);
    var middle, connected, cleared := StaleSaveFromLoaded(session, loaded, done, pending);
    var last := [ReadOAuth(0, Ok(pending)), Save(0, false)];
    AfterAppend(session, s, loads, middle);
    AfterAppend(session, s, loads + middle, last);
    acts := loads + middle + last;
    trace := Traced(session, s, acts);
    assert acts[..6] == loads + middle && acts[..8] == acts;
  }

  lemma TwoLoads(session: Session, s: State) returns (loaded: State)
    requires s.callers == [Resting, Resting]
    ensures After(session, s, [Load(0), Load(1)]) == Some(loaded)
    ensures loaded == s.(callers := [Loaded(s.stored), Loaded(s.stored)])
  {
    hide After;
    var acts := [Load(0), Load(1)];
    var s1 := Apply(session, s, acts[0]);
    loaded := Apply(session, s1, acts[1]);
    assert acts[0..] == acts && acts[2..] == [];
    AfterNext(session, s, acts, 0);
    AfterNext(session, s1, acts, 1);
    AfterNone(session, loaded);
  }

  lemma StaleSaveFromLoaded(session: Session, s: State, done: OAuthState, pending: OAuthState)
    returns (acts: seq<Action>, connected: State, cleared: State)
    requires s.callers == [Loaded(s.stored), Loaded(s.stored)] && s.stored.connectedSurfaceId == ""
    requires Target(session) != "" && Surface(session) != "" && Allows(done) && !Allows(pending)
    requires session.valid(PlanProvider(session.snapshot, PlanCredential(done).GetOr("")))
    ensures |acts| == 4 && After(session, s, acts) == Some(connected)
    ensures After(session, connected, [ReadOAuth(0, Ok(pending)), Save(0, false)]) == Some(cleared)
    ensures connected.stored.connectedSurfaceId == Surface(session) && cleared.stored.connectedSurfaceId == ""
  {
    hide Trim, After, Allows, NeedsFinalize, WithStatus, Matches, PlanProvider, NormalizeForWrite, PlanCredential;
    acts, connected := ConnectsAlone(session, s, 1, done);
    var last := [ReadOAuth(0, Ok(pending)), Save(0, false)];
    AdvanceConnection(session, connected.callers[0].progress, Ok(pending));
    var t1 := Apply(session, connected, last[0]);
    assert t1.callers[0].Saving? && t1.callers[0].progress.connectedSurfaceId == "";
    cleared := Apply(session, t1, last[1]);
    assert last[0..] == last && last[2..] == [];
    AfterNext(session, connected, last, 0);
    AfterNext(session, t1, last, 1);
    AfterNone(session, cleared);
  }

  /** What decides it: a save keeps a committed connection exactly if its caller's copy has one,
      and it always keeps one that the caller had when it loaded the record. */
  lemma SaveKeepsConnectionExactly(session: Session, s: State, c: nat)
    requires AllConnect(session, s) && c < |s.callers| && s.callers[c].Saving? && s.stored.connectedSurfaceId != ""
    ensures Apply(session, s, Save(c, false)).stored.connectedSurfaceId == s.stored.connectedSurfaceId
            <==> s.callers[c].progress.connectedSurfaceId != ""
  {
    assert Connects(session, s.stored) && Connects(session, s.callers[c].progress);
  }

  /** A caller that loaded a connection never loses it before it saves. */
  lemma CallerKeepsConnection(session: Session, s: State, a: Action, c: nat)
    requires Enabled(session, s, a) && AllConnect(session, s) && c < |s.callers|
    requires s.callers[c].Loaded? || s.callers[c].Saving?
    requires s.callers[c].progress.connectedSurfaceId != ""
    ensures var pc := Apply(session, s, a).callers[c];
            pc.Resting? || ((pc.Loaded? || pc.Saving?) && pc.progress.connectedSurfaceId == s.callers[c].progress.connectedSurfaceId)
  {
    hide Trim, NormalizeForWrite, Matches, PlanProvider, Advance;
    assert Connects(session, s.callers[c].progress);
    if a.ReadOAuth? && a.c == c {
      AdvanceConnection(session, s.callers[c].progress, a.answer);
    }
  }

  /** The plan carries no probe state, so finalising keeps a kind's throttle exactly if there was none. */
  lemma FinalizeKeepsThrottleExactly(session: Session, s: State, c: nat, kind: Kind)
    requires c < |s.callers| && s.callers[c].Finalizing? && Target(session) in s.rows
    requires Apply(session, s, CreateProvider(c, Accepted)).callers[c].Created?
    ensures var t := Apply(session, s, CreateProvider(c, Accepted));
            Target(session) in t.rows
            && (t.rows[Target(session)].Probe(kind) == s.rows[Target(session)].Probe(kind) <==> s.rows[Target(session)].Probe(kind).None?)
  {
    hide Trim, Apply;
    CreateWrites(session, s, c);
  }
}

/** The session runtime as code: the record in memory, the finaliser against the
    provider repository, and the session store. */
module SessionRuntime {
  import opened Text
  import opened ProviderModel
  import opened ProviderStore
  import opened ConnectSession
  import SessionProtocol

  class SessionRecord {
    const sessionId: string
    const snapshot: Snapshot
    var phase: Phase
    var authorizationUrl: string
    var userCode: string
    var message: string
    var errorMessage: string
    var connectedSurfaceId: string

    function Progress(): Progress
      reads this
    {
      ConnectSession.Progress.Progress(phase, authorizationUrl, userCode, message, errorMessage, connectedSurfaceId)
    }

    function Value(): Record
      reads this
    {
      Record(sessionId, snapshot, Progress())
    }

    /** newSessionRecord: the snapshot is trimmed once and never changes. */
    constructor (id: string, target: Snapshot, status: Option<OAuthStatus>)
      ensures sessionId == Trim(id) && snapshot.addMethod == target.addMethod
      ensures snapshot.displayName == Trim(target.displayName) && snapshot.cliId == Trim(target.cliId)
      ensures snapshot.providerSurfaceId == Trim(target.providerSurfaceId) && snapshot.targetProviderId == Trim(target.targetProviderId)
      ensures snapshot.targetCredentialId == Trim(target.targetCredentialId)
      ensures connectedSurfaceId == "" && (status.None? ==> phase == Pending)
      ensures Progress() == WithStatus(Progress(), status)
    {
      hide Trim, PhaseFromOAuth;
      sessionId := Trim(id);
      snapshot := TrimmedSnapshot(target);
      phase, authorizationUrl, userCode := PhaseUnspecified, "", "";
      message, errorMessage, connectedSurfaceId := "", "", "";
      new;
      ApplyOAuthStatus(status);
    }

    /** A stored record as it is read back. */
    constructor Restore(record: Record)
      ensures Value() == record
    {
      sessionId, snapshot := record.sessionId, record.snapshot;
      var p := record.progress;
      phase, authorizationUrl, userCode := p.phase, p.authorizationUrl, p.userCode;
      message, errorMessage, connectedSurfaceId := p.message, p.errorMessage, p.connectedSurfaceId;
    }

    method ApplyOAuthStatus(status: Option<OAuthStatus>)
      modifies this
      ensures Progress() == WithStatus(old(Progress()), status)
    {
      if status.None? {
        phase, message, errorMessage := Pending, "Waiting for authorization session state.", "";
        authorizationUrl, userCode := "", "";
        return;
      }
      phase := PhaseFromOAuth(status.value);
      message := Trim(status.value.message);
      errorMessage := if phase == Expired || phase == Canceled || phase == Failed then message else "";
      authorizationUrl, userCode := Trim(status.value.authorizationUrl), Trim(status.value.userCode);
    }

    method ApplyOAuthReadError(error: string)
      modifies this
      ensures Progress() == WithReadError(old(Progress()), error)
    {
      phase, errorMessage := Failed, error;
      message := "Provider connect session could not read OAuth state.";
    }

    method MarkAuthenticationUpdated()
      modifies this
      ensures Progress() == WithAuthenticationUpdated(old(Progress()))
    {
      message, errorMessage := "Provider authentication updated.", "";
    }

    method MarkFinalizeFailed(error: string)
      modifies this
      ensures Progress() == WithFinalizeFailed(old(Progress()), error)
    {
      phase, errorMessage, message := Failed, error, "Provider creation failed.";
    }

    method MarkConnected(surfaceId: string)
      modifies this
      ensures Progress() == WithConnected(old(Progress()), surfaceId)
    {
      phase, connectedSurfaceId := Succeeded, Trim(surfaceId);
      message, errorMessage := "Provider connected.", "";
    }
  }

  /** How the provider service may misbehave during one finalise. */
  datatype Faults = Faults(refused: bool, duplicate: bool, readFails: bool)

  predicate OnSurface(rows: Rows, id: string, surfaceId: string) {
    id in rows && Trim(rows[id].surfaceId) == surfaceId
  }

  /** The imported credential wins over the targeted one, and the row a finalise commits carries
      it with the session's own target, name and surface, and nothing else. */
  lemma PlanCarries(snapshot: Snapshot, state: OAuthState)
    requires PlanCredential(state).Some?
    ensures var plan := PlanProvider(snapshot, PlanCredential(state).value);
            var imported := if state.status.Some? then state.status.value.importedCredentialId else "";
            && plan.providerId == Trim(snapshot.targetProviderId) && plan.displayName == Trim(snapshot.displayName)
            && plan.surfaceId == Trim(snapshot.providerSurfaceId) && plan.models == [] && plan.probeStatus == None
            && plan.credentialId == Some(if Trim(imported) != "" then Trim(imported) else Trim(state.targetCredentialId))
  {
    hide Trim;
    TrimTwice(state.targetCredentialId);
    TrimOfNoSpace("");
    if state.status.Some? {
      TrimTwice(state.status.value.importedCredentialId);
    }
  }

  lemma PlanFields(snapshot: Snapshot, credential: string)
    ensures var plan := PlanProvider(snapshot, credential);
            && plan.providerId == Trim(snapshot.targetProviderId) && Trim(plan.providerId) == plan.providerId
            && plan.surfaceId == Trim(snapshot.providerSurfaceId) && Trim(plan.surfaceId) == plan.surfaceId
            && plan.(providerId := Trim(plan.providerId)) == plan
  {
    hide Trim;
    TrimTwice(snapshot.targetProviderId);
    TrimTwice(snapshot.providerSurfaceId);
  }

  lemma MatchingRow(existing: Provider, snapshot: Snapshot, credential: string)
    ensures Matches(existing, PlanProvider(snapshot, credential))
            <==> && Trim(existing.surfaceId) == Trim(snapshot.providerSurfaceId)
                 && Trim(existing.providerId) == Trim(snapshot.targetProviderId)
                 && Trim(existing.credentialId.GetOr("")) == Trim(credential)
  {
    hide Trim;
    TrimTwice(snapshot.providerSurfaceId);
    TrimTwice(snapshot.targetProviderId);
    TrimTwice(credential);
    TrimOfNoSpace("");
  }

  /** The credential of a finalise: the imported one, else the targeted one. */
  function CredentialOf(state: OAuthState): string {
    if state.status.Some? && Trim(state.status.value.importedCredentialId) != "" then Trim(state.status.value.importedCredentialId)
    else Trim(state.targetCredentialId)
  }

  /** The row is on the session's surface, for its target and with its credential. */
  predicate Own(rows: Rows, id: string, snapshot: Snapshot, state: OAuthState) {
    && OnSurface(rows, id, Trim(snapshot.providerSurfaceId)) && Trim(rows[id].providerId) == Trim(snapshot.targetProviderId)
    && Trim(rows[id].credentialId.GetOr("")) == CredentialOf(state)
  }

  /** What a finalise does. Without a credential it fails. A surface that exists already is taken
      over when its row is the session's own. Else the session's row is written, unless it is
      refused or not valid, and read back. */
  ghost predicate Finalized(snapshot: Snapshot, state: OAuthState, faults: Faults, valid: Provider -> bool,
                            before: Rows, after: Rows, r: Result<string, string>) {
    var target, surface, credential := Trim(snapshot.targetProviderId), Trim(snapshot.providerSurfaceId), CredentialOf(state);
    && (r.Ok? ==> Trim(r.value) == surface)
    && (if credential == "" then r.Err? && after == before
        else if faults.duplicate then
          && after == before && (r.Ok? ==> exists id :: Own(before, id, snapshot, state))
          && ((exists id :: OnSurface(before, id, surface)) && (forall id :: OnSurface(before, id, surface) ==> Own(before, id, snapshot, state))
              ==> r.Ok?)
        else
          var row := Provider(target, Trim(snapshot.displayName), surface, Some(credential), [], None);
          var written := !faults.refused && target != "" && valid(row);
          after == (if written then before[target := row] else before) && (r.Ok? <==> written && !faults.readFails))
  }

  lemma PlanIs(snapshot: Snapshot, state: OAuthState)
    ensures PlanCredential(state).Some? <==> CredentialOf(state) != ""
    ensures PlanCredential(state).Some? ==>
              && PlanCredential(state).value == CredentialOf(state) == Trim(CredentialOf(state))
              && PlanProvider(snapshot, CredentialOf(state))
                 == Provider(Trim(snapshot.targetProviderId), Trim(snapshot.displayName), Trim(snapshot.providerSurfaceId),
                             Some(CredentialOf(state)), [], None)
  {
    hide Trim;
    TrimTwice(state.targetCredentialId);
    if state.status.Some? {
      TrimTwice(state.status.value.importedCredentialId);
    }
  }

  /** Finalize: it succeeds only with the surface the snapshot names, and writes
      no row but the plan's. */
  method Finalize(repository: Repository, snapshot: Snapshot, state: OAuthState, faults: Faults)
    returns (r: Result<string, string>)
    requires repository.Valid()
    modifies repository
    ensures repository.Valid()
    ensures Finalized(snapshot, state, faults, repository.valid, old(repository.rows), repository.rows, r)
  {
    hide Trim, PlanProvider, Matches, PlanCredential, CredentialOf;
    PlanIs(snapshot, state);
    var credential := PlanCredential(state);
    if credential.None? {
      return Err("completed without imported credential");
    }
    var plan := PlanProvider(snapshot, credential.value);
    PlanFields(snapshot, credential.value);
    if faults.duplicate {
      if id :| id in repository.rows && OnSurface(repository.rows, id, plan.surfaceId) {
        MatchingRow(repository.rows[id], snapshot, credential.value);
        if Matches(repository.rows[id], plan) {
          assert Own(repository.rows, id, snapshot, state);
          return Ok(repository.rows[id].surfaceId);
        }
      }
      return Err("provider surface already exists");
    }
    if faults.refused {
      return Err("create provider failed");
    }
    var created := repository.Upsert(plan);
    if created.Err? {
      return Err("invalid provider");
    }
    var view := repository.Get(created.value.providerId);
    if faults.readFails || view.Err? || Trim(view.value.surfaceId) != plan.surfaceId {
      return Err("created provider not readable");
    }
    r := Ok(view.value.surfaceId);
  }

  /** What Sync makes of the progress, given what a finalise would answer. */
  function Synced(snapshot: Snapshot, p: Progress, answer: Answer, finalized: Result<string, string>): Progress {
    match answer
    case Err(e) => if Terminal(p) then p else WithReadError(p, e)
    case Ok(state) =>
      var q := WithStatus(p, state.status);
      if NeedsFinalize(snapshot, q) && Allows(state) then
        if finalized.Ok? then WithConnected(q, finalized.value) else WithFinalizeFailed(q, finalized.error)
      else if q.phase == Succeeded && !NeedsFinalize(snapshot, q) then WithAuthenticationUpdated(q)
      else q
  }

  /** The runtime's Sync is the protocol's step: what it saves without finalising, and
      the progress it finalises from. */
  lemma SyncedFollowsAdvance(snapshot: Snapshot, p: Progress, answer: Answer, finalized: Result<string, string>)
    ensures var pc := SessionProtocol.Advance(snapshot, p, answer);
            Synced(snapshot, p, answer, finalized) ==
              if !pc.Finalizing? then pc.progress
              else if finalized.Ok? then WithConnected(pc.progress, finalized.value)
              else WithFinalizeFailed(pc.progress, finalized.error)
  {
    hide Trim, Allows, PlanCredential, WithStatus, NeedsFinalize;
    if answer.Ok? && Allows(answer.value) {
      GuardFindsCredential(answer.value);
    }
  }

  /** The steps of the protocol that finalise: creation is reported a duplicate and the row on the
      surface looked up, or refused, or accepted and then read back. */
  function FinalizeActions(c: nat, faults: Faults, error: string, found: Option<string>, written: bool): seq<SessionProtocol.Action> {
    if faults.duplicate then [SessionProtocol.CreateProvider(c, SessionProtocol.Duplicate), SessionProtocol.LookUp(c, found)]
    else if faults.refused then [SessionProtocol.CreateProvider(c, SessionProtocol.Refused(error))]
    else [SessionProtocol.CreateProvider(c, SessionProtocol.Accepted)] + if written then [SessionProtocol.ReadBack(c, faults.readFails)] else []
  }

  /** A finalise that nothing disturbs does in the protocol what it does in the runtime. */
  lemma ProtocolFinalizes(session: SessionProtocol.Session, s: SessionProtocol.State, c: nat, p: Progress, state: OAuthState,
                          faults: Faults, error: string, found: Option<string>)
    returns (t: SessionProtocol.State, written: bool, finalized: Result<string, string>)
    requires CredentialOf(state) != "" && c < |s.callers| && s.callers[c] == SessionProtocol.Finalizing(p, CredentialOf(state))
    requires if found.Some? then OnSurface(s.rows, found.value, Trim(session.snapshot.providerSurfaceId))
             else forall id :: !OnSurface(s.rows, id, Trim(session.snapshot.providerSurfaceId))
    ensures SessionProtocol.After(session, s, FinalizeActions(c, faults, error, found, written)) == Some(t)
    ensures Finalized(session.snapshot, state, faults, session.valid, s.rows, t.rows, finalized)
    ensures t.stored == s.stored
    ensures t.callers == s.callers[c := SessionProtocol.Saving(if finalized.Ok? then WithConnected(p, finalized.value)
                                                               else WithFinalizeFailed(p, finalized.error))]
  {
    hide Trim, PlanProvider, Matches, CredentialOf, SessionProtocol.After, PlanCredential, WithConnected, WithFinalizeFailed;
    PlanIs(session.snapshot, state);
    var credential := CredentialOf(state);
    CredentialIsPlan(state);
    var plan := PlanProvider(session.snapshot, credential);
    PlanFields(session.snapshot, credential);
    written := false;
    if faults.duplicate {
      var acts := FinalizeActions(c, faults, error, found, written);
      var s1 := SessionProtocol.Apply(session, s, acts[0]);
      t := SessionProtocol.Apply(session, s1, acts[1]);
      TwoSteps(session, s, acts);
      if found.Some? {
        MatchingRow(s.rows[found.value], session.snapshot, credential);
        if Matches(s.rows[found.value], plan) {
          assert Own(s.rows, found.value, session.snapshot, state);
        }
      }
      finalized := if found.Some? && Matches(s.rows[found.value], plan) then Ok(s.rows[found.value].surfaceId)
                   else Err("provider surface already exists");
    } else if faults.refused {
      var acts := FinalizeActions(c, faults, error, found, written);
      t := SessionProtocol.Apply(session, s, acts[0]);
      OneStep(session, s, acts);
      finalized := Err(error);
    } else {
      PlanIsNormal(session, credential);
      written := plan.providerId != "" && session.valid(plan);
      var acts := FinalizeActions(c, faults, error, found, written);
      var s1 := SessionProtocol.Apply(session, s, acts[0]);
      if written {
        t := SessionProtocol.Apply(session, s1, acts[1]);
        TwoSteps(session, s, acts);
        finalized := if faults.readFails then Err("created provider not readable") else Ok(plan.surfaceId);
      } else {
        t := s1;
        OneStep(session, s, acts);
        finalized := Err("invalid provider");
      }
    }
  }

  lemma CredentialIsPlan(state: OAuthState)
    ensures Trim(CredentialOf(state)) == CredentialOf(state)
  {
    hide Trim;
    TrimTwice(state.targetCredentialId);
    if state.status.Some? {
      TrimTwice(state.status.value.importedCredentialId);
    }
  }

  lemma PlanIsNormal(session: SessionProtocol.Session, credential: string)
    ensures var plan := PlanProvider(session.snapshot, credential);
            var r := NormalizeForWrite(session.valid, plan);
            if plan.providerId != "" && session.valid(plan) then r == Ok(plan) else r.Err?
  {
    hide Trim;
    TrimOfNoSpace("");
    TrimTwice(session.snapshot.targetProviderId);
  }

  lemma OneStep(session: SessionProtocol.Session, s: SessionProtocol.State, acts: seq<SessionProtocol.Action>)
    requires |acts| == 1 && SessionProtocol.Enabled(session, s, acts[0])
    ensures SessionProtocol.After(session, s, acts) == Some(SessionProtocol.Apply(session, s, acts[0]))
  {
    hide SessionProtocol.Enabled, SessionProtocol.Apply;
    assert acts[1..] == [];
    SessionProtocol.AfterNone(session, SessionProtocol.Apply(session, s, acts[0]));
  }

  lemma TwoSteps(session: SessionProtocol.Session, s: SessionProtocol.State, acts: seq<SessionProtocol.Action>)
    requires |acts| == 2 && SessionProtocol.Enabled(session, s, acts[0])
    requires SessionProtocol.Enabled(session, SessionProtocol.Apply(session, s, acts[0]), acts[1])
    ensures SessionProtocol.After(session, s, acts)
            == Some(SessionProtocol.Apply(session, SessionProtocol.Apply(session, s, acts[0]), acts[1]))
  {
    hide SessionProtocol.Enabled, SessionProtocol.Apply;
    OneStep(session, SessionProtocol.Apply(session, s, acts[0]), acts[1..]);
  }

  /** A save stores the caller's progress unless it is lost, and touches no row. */
  lemma SaveStores(session: SessionProtocol.Session, s: SessionProtocol.State, c: nat, lost: bool)
    requires c < |s.callers| && s.callers[c].Saving?
    ensures var t := SessionProtocol.Apply(session, s, SessionProtocol.Save(c, lost));
            && t.stored == (if lost then s.stored else s.callers[c].progress)
            && t.rows == s.rows && t.callers == s.callers[c := SessionProtocol.Resting]
  {
  }

  /** The session phase that shows an OAuth phase. */
  predicate Shows(phase: Phase, oauth: OAuthPhase) {
    && (phase == Pending <==> oauth == OAuthPending || oauth == OAuthUnspecified)
    && (phase == AwaitingUser <==> oauth == OAuthAwaitingUser) && (phase == Processing <==> oauth == OAuthProcessing)
    && (phase == Succeeded <==> oauth == OAuthSucceeded) && (phase == Failed <==> oauth == OAuthFailed)
    && (phase == Expired <==> oauth == OAuthExpired) && (phase == Canceled <==> oauth == OAuthCanceled)
  }

  /** The record is connected to its surface, or has none to connect to. */
  predicate Settled(snapshot: Snapshot, connectedSurfaceId: string) {
    Trim(snapshot.providerSurfaceId) == "" || Trim(connectedSurfaceId) != ""
  }

  /** The OAuth session succeeded and names a credential. */
  predicate BringsCredential(state: OAuthState) {
    && state.status.Some? && state.status.value.phase == OAuthSucceeded
    && (Trim(state.targetCredentialId) != "" || Trim(state.status.value.importedCredentialId) != "")
  }

  /** What the user is told after a sync: of a failed read or finalise the error, of a finalise
      that succeeded the connection, and else the OAuth session's own phase and texts. */
  predicate Tells(snapshot: Snapshot, before: Progress, answer: Answer, finalized: Result<string, string>, after: Progress) {
    match answer
    case Err(e) =>
      if before.phase in {Succeeded, Failed, Expired, Canceled} then after == before
      else && after.phase == Failed && after.errorMessage == e
           && after.message == "Provider connect session could not read OAuth state."
           && after.connectedSurfaceId == before.connectedSurfaceId
           && after.authorizationUrl == before.authorizationUrl && after.userCode == before.userCode
    case Ok(state) =>
      && (if state.status.Some? then
            && after.authorizationUrl == Trim(state.status.value.authorizationUrl) && after.userCode == Trim(state.status.value.userCode)
          else after.authorizationUrl == "" && after.userCode == "")
      && (if !Settled(snapshot, before.connectedSurfaceId) && BringsCredential(state) then
            if finalized.Err? then
              && after.phase == Failed && after.errorMessage == finalized.error && after.message == "Provider creation failed."
              && after.connectedSurfaceId == before.connectedSurfaceId
            else
              && after.phase == Succeeded && after.errorMessage == "" && after.message == "Provider connected."
              && after.connectedSurfaceId == Trim(snapshot.providerSurfaceId)
          else
            && after.connectedSurfaceId == before.connectedSurfaceId
            && (if state.status.None? then
                  after.phase == Pending && after.message == "Waiting for authorization session state." && after.errorMessage == ""
                else
                  var st := state.status.value;
                  && Shows(after.phase, st.phase)
                  && after.message == (if st.phase == OAuthSucceeded && Settled(snapshot, before.connectedSurfaceId)
                                       then "Provider authentication updated." else Trim(st.message))
                  && after.errorMessage == (if st.phase in {OAuthFailed, OAuthExpired, OAuthCanceled} then Trim(st.message) else "")))
  }

  lemma SyncedTells(snapshot: Snapshot, p: Progress, answer: Answer, finalized: Result<string, string>)
    requires finalized.Ok? ==> Trim(finalized.value) == Trim(snapshot.providerSurfaceId)
    ensures Tells(snapshot, p, answer, finalized, Synced(snapshot, p, answer, finalized))
  {
    hide Trim;
  }

  predicate Finalizes(snapshot: Snapshot, p: Progress, answer: Answer) {
    answer.Ok? && NeedsFinalize(snapshot, p) && Allows(answer.value)
  }

  lemma StatusKeepsConnection(snapshot: Snapshot, p: Progress, status: Option<OAuthStatus>)
    ensures WithStatus(p, status).connectedSurfaceId == p.connectedSurfaceId
    ensures NeedsFinalize(snapshot, WithStatus(p, status)) == NeedsFinalize(snapshot, p)
  {
    hide Trim, PhaseFromOAuth;
  }

  /** A sync leaves a connection alone, or makes one to the session's own surface. */
  lemma SyncedConnection(snapshot: Snapshot, p: Progress, answer: Answer, finalized: Result<string, string>)
    requires finalized.Ok? ==> Trim(finalized.value) == Trim(snapshot.providerSurfaceId)
    ensures var q := Synced(snapshot, p, answer, finalized);
            && q.connectedSurfaceId in {p.connectedSurfaceId, Trim(snapshot.providerSurfaceId)}
            && (!Finalizes(snapshot, p, answer) ==> q.connectedSurfaceId == p.connectedSurfaceId)
            && (!Blank(p.connectedSurfaceId) ==> !Finalizes(snapshot, p, answer))
            && (answer.Err? && Terminal(p) ==> q == p)
  {
    hide Trim, Allows, WithStatus;
    if answer.Ok? {
      StatusKeepsConnection(snapshot, p, answer.value.status);
    }
  }

  lemma FinalizesWhen(snapshot: Snapshot, p: Progress, answer: Answer)
    ensures Finalizes(snapshot, p, answer)
            <==> answer.Ok? && !Settled(snapshot, p.connectedSurfaceId) && BringsCredential(answer.value)
  {
    hide Trim;
  }

  /** A sync finalises exactly when the answer brings a credential to a record without its
      connection, and else writes no row. */
  ghost predicate Finishes(snapshot: Snapshot, p: Progress, answer: Answer, faults: Faults, valid: Provider -> bool,
                           before: Rows, after: Rows, finalized: Result<string, string>) {
    if answer.Ok? && !Settled(snapshot, p.connectedSurfaceId) && BringsCredential(answer.value)
    then Finalized(snapshot, answer.value, faults, valid, before, after, finalized)
    else finalized.Err? && after == before
  }

  method Sync(record: SessionRecord, answer: Answer, repository: Repository, faults: Faults)
    returns (finalized: Result<string, string>)
    requires repository.Valid() && repository as object != record
    modifies record, repository
    ensures repository.Valid()
    ensures record.Progress() == Synced(record.snapshot, old(record.Progress()), answer, finalized)
    ensures Tells(record.snapshot, old(record.Progress()), answer, finalized, record.Progress())
    ensures Finishes(record.snapshot, old(record.Progress()), answer, faults, repository.valid, old(repository.rows), repository.rows, finalized)
    ensures finalized.Ok? ==> Trim(finalized.value) == Trim(record.snapshot.providerSurfaceId)
    ensures !Finalizes(record.snapshot, old(record.Progress()), answer) ==> repository.rows == old(repository.rows)
    ensures repository.rows - {Trim(record.snapshot.targetProviderId)} == old(repository.rows) - {Trim(record.snapshot.targetProviderId)}
  {
    hide Trim, PlanProvider, Matches, PlanCredential, Allows, WithStatus, NeedsFinalize, WithConnected, WithFinalizeFailed,
         WithReadError, WithAuthenticationUpdated, Tells, CredentialOf, Settled, BringsCredential;
    FinalizesWhen(record.snapshot, record.Progress(), answer);
    finalized := Err("");
    if answer.Err? {
      SyncedTells(record.snapshot, record.Progress(), answer, finalized);
      if !Terminal(record.Progress()) {
        record.ApplyOAuthReadError(answer.error);
      }
      return;
    }
    ghost var before := record.Progress();
    var state := answer.value;
    StatusKeepsConnection(record.snapshot, record.Progress(), state.status);
    record.ApplyOAuthStatus(state.status);
    if NeedsFinalize(record.snapshot, record.Progress()) && Allows(state) {
      finalized := Finalize(repository, record.snapshot, state, faults);
      if finalized.Err? {
        record.MarkFinalizeFailed(finalized.error);
      } else {
        record.MarkConnected(finalized.value);
      }
    } else if record.phase == Succeeded && !NeedsFinalize(record.snapshot, record.Progress()) {
      record.MarkAuthenticationUpdated();
    }
    SyncedTells(record.snapshot, before, answer, finalized);
  }

  /** The config maps of the sessions: one payload for each session id. */
  class SessionStore {
    const retrySteps: nat := 5
    var payloads: map<string, Record>

    ghost predicate Valid()
      reads this
    {
      forall k :: k in payloads ==> payloads[k].sessionId == k
    }

    method Create(record: Record) returns (created: bool)
      requires Valid()
      modifies this
      ensures Valid()
      ensures created <==> !Blank(record.sessionId) && record.sessionId !in old(payloads)
      ensures payloads == if created then old(payloads)[record.sessionId := record] else old(payloads)
    {
      created := !Blank(record.sessionId) && record.sessionId !in payloads;
      if created {
        payloads := payloads[record.sessionId := record];
      }
    }

    method Get(id: string) returns (r: Option<Record>)
      ensures r == if Trim(id) != "" && Trim(id) in payloads then Some(payloads[Trim(id)]) else None
    {
      r := if Trim(id) != "" && Trim(id) in payloads then Some(payloads[Trim(id)]) else None;
    }

    /** conflicts is how many updates in a row find a newer config map. The payload is
        replaced whole, whatever was stored meanwhile. */
    method Put(record: Record, conflicts: nat) returns (saved: bool)
      requires Valid()
      modifies this
      ensures Valid()
      ensures saved <==> record.sessionId in old(payloads) && conflicts < 5
      ensures payloads == if saved then old(payloads)[record.sessionId := record] else old(payloads)
    {
      var attempt := 0;
      while attempt < retrySteps
        invariant payloads == old(payloads)
        invariant attempt <= retrySteps
        invariant attempt > 0 ==> record.sessionId in payloads && attempt <= conflicts
      {
        if record.sessionId !in payloads {
          return false;
        }
        if attempt >= conflicts {
          payloads := payloads[record.sessionId := record];
          return true;
        }
        attempt := attempt + 1;
      }
      saved := false;
    }
  }

  /** The progress is what the answer makes of the record, with an outcome of the finalise that
      the faults and the rows allow. */
  ghost predicate SyncedSomehow(before: Record, progress: Progress, answer: Answer, faults: Faults, valid: Provider -> bool,
                                rows: Rows, after: Rows) {
    exists finalized :: Tells(before.snapshot, before.progress, answer, finalized, progress)
      && Finishes(before.snapshot, before.progress, answer, faults, valid, rows, after, finalized)
  }

  /** One read of a session: a connection that is stored stays as it is and leaves the
      provider table alone; a new one names the session's own surface. */
  method GetSession(store: SessionStore, repository: Repository, id: string, answer: Answer, faults: Faults, conflicts: nat)
    returns (r: Option<Record>)
    requires store.Valid() && repository.Valid() && repository as object != store
    modifies store, repository
    ensures store.Valid() && repository.Valid()
    ensures store.payloads.Keys == old(store.payloads.Keys) && store.payloads - {Trim(id)} == old(store.payloads) - {Trim(id)}
    ensures r.Some? ==> Trim(id) in old(store.payloads) && store.payloads[Trim(id)] == r.value
    ensures r.Some? ==> r.value.snapshot == old(store.payloads)[Trim(id)].snapshot
    ensures r.Some? ==> SyncedSomehow(old(store.payloads)[Trim(id)], r.value.progress, answer, faults, repository.valid,
                                      old(repository.rows), repository.rows)
    ensures r.Some? <==> Trim(id) != "" && Trim(id) in old(store.payloads) && conflicts < 5
    ensures r.None? ==> store.payloads == old(store.payloads)
    ensures Trim(id) !in old(store.payloads) ==> repository.rows == old(repository.rows)
    ensures Trim(id) in old(store.payloads) ==>
      var before := old(store.payloads)[Trim(id)];
      var target, surface := Trim(before.snapshot.targetProviderId), Trim(before.snapshot.providerSurfaceId);
      && repository.rows - {target} == old(repository.rows) - {target}
      && (!Blank(before.progress.connectedSurfaceId) ==>
            && repository.rows == old(repository.rows)
            && store.payloads[Trim(id)].progress.connectedSurfaceId == before.progress.connectedSurfaceId)
      && store.payloads[Trim(id)].progress.connectedSurfaceId in {before.progress.connectedSurfaceId, surface}
      && (answer.Err? && Terminal(before.progress) ==> store.payloads == old(store.payloads))
  {
    hide Trim, Synced, Finalizes, Terminal, Tells, Finishes;
    var found := store.Get(id);
    if found.None? {
      return None;
    }
    var record := new SessionRecord.Restore(found.value);
    var finalized := Sync(record, answer, repository, faults);
    SyncedConnection(record.snapshot, found.value.progress, answer, finalized);
    var next := record.Value();
    var saved := store.Put(next, conflicts);
    if !saved {
      return None;
    }
    r := Some(next);
  }
}
