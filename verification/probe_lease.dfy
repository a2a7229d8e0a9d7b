/** The request keys of a catalog probe (probe_executor.go). */
module ProbeRequest {
  import opened Text

  datatype Request = Request(protocol: string, baseUrl: string, surfaceId: string,
                             operation: string, concurrencyKey: string)

  const SEPARATOR: string := [0 as char]

  /** Probes of one process with the same key share one flight. */
  function SingleflightKey(r: Request): string {
    r.protocol + SEPARATOR + Trim(r.baseUrl) + SEPARATOR + Trim(r.surfaceId) + SEPARATOR + r.operation
  }

  /** The cluster-wide lease is named by the concurrency key when one is given. */
  function LeaseKey(r: Request): string {
    var key := Trim(r.concurrencyKey);
    if key != "" then key else SingleflightKey(r)
  }

  // ----- which requests share a key

  const NUL: char := 0 as char

  /** The parts of a request that name its flight, surrounding whitespace aside. */
  function FlightParts(r: Request): seq<string> { [r.protocol, Trim(r.baseUrl), Trim(r.surfaceId), r.operation] }

  /** The pieces of all parts between zero characters. */
  function Pieces(parts: seq<string>): seq<string> {
    if parts == [] then [] else Split(parts[0], NUL) + Pieces(parts[1..])
  }

  lemma KeyPieces(r: Request)
    ensures Split(SingleflightKey(r), NUL) == Pieces(FlightParts(r))
  {
    hide Trim, Split;
    var p, b, s, o := r.protocol, Trim(r.baseUrl), Trim(r.surfaceId), r.operation;
    var tail := b + [NUL] + (s + [NUL] + o);
    assert SingleflightKey(r) == p + [NUL] + tail;
    SplitAppend(p, NUL, tail);
    SplitAppend(b, NUL, s + [NUL] + o);
    SplitAppend(s, NUL, o);
    assert FlightParts(r)[1..] == [b, s, o] && [b, s, o][1..] == [s, o] && [s, o][1..] == [o] && [o][1..] == [];
    assert Pieces([o]) == Split(o, NUL);
    assert Pieces([s, o]) == Split(s, NUL) + Split(o, NUL);
    assert Pieces([b, s, o]) == Split(b, NUL) + (Split(s, NUL) + Split(o, NUL));
  }

  /** Two requests share a flight exactly when their parts have the same pieces between zero
      characters; when no part holds such a character, exactly when all their parts agree. */
  lemma FlightsShareExactly(r: Request, q: Request)
    ensures SingleflightKey(r) == SingleflightKey(q) <==> Pieces(FlightParts(r)) == Pieces(FlightParts(q))
    ensures (forall part :: part in FlightParts(r) + FlightParts(q) ==> NUL !in part) ==>
              (SingleflightKey(r) == SingleflightKey(q)
               <==> && r.protocol == q.protocol && Trim(r.baseUrl) == Trim(q.baseUrl)
                    && Trim(r.surfaceId) == Trim(q.surfaceId) && r.operation == q.operation)
  {
    hide Trim, Split, Pieces, SingleflightKey, FlightParts;
    KeyPieces(r);
    KeyPieces(q);
    SplitExactly(SingleflightKey(r), NUL);
    SplitExactly(SingleflightKey(q), NUL);
    if forall part :: part in FlightParts(r) + FlightParts(q) ==> NUL !in part {
      WholePieces(r);
      WholePieces(q);
    }
  }

  lemma WholePieces(r: Request)
    requires forall part :: part in FlightParts(r) ==> NUL !in part
    ensures Pieces(FlightParts(r)) == FlightParts(r) == [r.protocol, Trim(r.baseUrl), Trim(r.surfaceId), r.operation]
  {
    hide Trim, Split;
    var p, b, s, o := r.protocol, Trim(r.baseUrl), Trim(r.surfaceId), r.operation;
    forall part | part in FlightParts(r) ensures Split(part, NUL) == [part] {
      assert Lacks(part, NUL) by { assert forall i :: 0 <= i < |part| ==> part[i] in part; }
      SplitWhole(part, NUL);
    }
    assert p in FlightParts(r) && b in FlightParts(r) && s in FlightParts(r) && o in FlightParts(r);
    assert FlightParts(r)[1..] == [b, s, o] && [b, s, o][1..] == [s, o] && [s, o][1..] == [o] && [o][1..] == [];
    assert Split(p, NUL) == [p] && Split(b, NUL) == [b] && Split(s, NUL) == [s] && Split(o, NUL) == [o];
    assert Pieces([o]) == [o];
    assert Pieces([s, o]) == [s] + [o];
    assert Pieces([b, s, o]) == [b] + [s, o];
  }

  /** Two requests share a lease exactly when the names they give it agree: the trimmed
      concurrency key, or without one the key of the flight. */
  lemma LeasesShareExactly(r: Request, q: Request)
    ensures LeaseKey(r) == LeaseKey(q)
            <==> if Blank(r.concurrencyKey) && Blank(q.concurrencyKey) then Pieces(FlightParts(r)) == Pieces(FlightParts(q))
                 else if Blank(r.concurrencyKey) then Trim(q.concurrencyKey) == SingleflightKey(r)
                 else if Blank(q.concurrencyKey) then Trim(r.concurrencyKey) == SingleflightKey(q)
                 else Trim(r.concurrencyKey) == Trim(q.concurrencyKey)
  {
    hide Trim, Pieces, SingleflightKey, FlightParts;
    FlightsShareExactly(r, q);
  }
}

/** The Lease object and the decisions made about it (probe_lease.go). */
module ProbeLease {
  import opened Text

  /** Microseconds, the resolution of a stored RenewTime. */
  type Time = int

  const SECOND: int := 1_000_000
  const DURATION_SECONDS: int := 300
  const RETRY_STEPS: nat := 5

  datatype Lease = Lease(holder: Option<string>, durationSeconds: Option<int>,
                         acquireTime: Option<Time>, renewTime: Option<Time>, version: nat)

  function Duration(lease: Lease): int {
    if lease.durationSeconds.Some? && lease.durationSeconds.value > 0
    then lease.durationSeconds.value * SECOND
    else DURATION_SECONDS * SECOND
  }

  predicate Expired(lease: Lease, now: Time) {
    lease.renewTime.None? || lease.renewTime.value + Duration(lease) < now
  }

  predicate HeldByOther(lease: Lease, holder: string, now: Time) {
    lease.holder.Some? && lease.holder.value != holder && !Expired(lease, now)
  }

  /** The lease written by Create. */
  function NewLease(holder: string, now: Time): Lease {
    Lease(Some(holder), Some(DURATION_SECONDS), Some(now), Some(now), 0)
  }

  /** The lease written by Update. The renewal is stored before the expiry test. */
  function Stamped(seen: Lease, holder: string, now: Time): Lease {
    var renewed := seen.(holder := Some(holder), durationSeconds := Some(DURATION_SECONDS), renewTime := Some(now));
    if renewed.acquireTime.None? || Expired(renewed, now)
    then renewed.(acquireTime := Some(now))
    else renewed
  }

  /** What a successful acquire leaves in the cluster. */
  predicate OwnedBy(lease: Lease, holder: string, renewed: Time) {
    && lease.holder == Some(holder)
    && lease.renewTime == Some(renewed)
    && Duration(lease) == DURATION_SECONDS * SECOND
  }

  /** Another holder finds a lease held exactly until the duration it states, or 300 s when it
      states none, has passed since its renewal. */
  lemma HeldExactly(lease: Lease, holder: string, now: Time)
    ensures HeldByOther(lease, holder, now)
            <==> && lease.holder.Some? && lease.holder.value != holder && lease.renewTime.Some?
                 && now - lease.renewTime.value
                    <= 1_000_000 * (if lease.durationSeconds.Some? && lease.durationSeconds.value > 0 then lease.durationSeconds.value else 300)
  {
  }

  /** What an acquire leaves keeps every other holder out for exactly 300 s after the renewal. */
  lemma OwnedKeepsOut(lease: Lease, holder: string, renewed: Time, other: string, now: Time)
    requires OwnedBy(lease, holder, renewed) && other != holder
    ensures HeldByOther(lease, other, now) <==> now <= renewed + 300_000_000
  {
  }

  lemma AcquireWritesOwnedLease(seen: Lease, holder: string, now: Time)
    ensures OwnedBy(NewLease(holder, now), holder, now)
    ensures OwnedBy(Stamped(seen, holder, now), holder, now)
    ensures NewLease(holder, now).acquireTime == Some(now) && Stamped(seen, holder, now).version == seen.version
  {
  }

  /** A takeover sets the acquire time exactly of a lease that has none: the expiry test
      already sees the new renewal. */
  lemma TakeoverKeepsAcquireTime(seen: Lease, holder: string, now: Time)
    ensures Stamped(seen, holder, now).acquireTime != seen.acquireTime <==> seen.acquireTime.None?
    ensures seen.acquireTime.None? ==> Stamped(seen, holder, now).acquireTime == Some(now)
  {
  }
}

/** Any number of probe calls in any number of processes, interleaved with the
    API server and the clock. Every action is one atomic step. */
module LeaseProtocol {
  import opened Text
  import opened ProbeLease
  import ProbeRequest

  /** One goroutine: its process identity and the keys of the request it keeps probing. */
  datatype Call = Call(holder: string, key: string, flight: string)

  function CallOf(holder: string, request: ProbeRequest.Request): Call {
    Call(holder, ProbeRequest.LeaseKey(request), ProbeRequest.SingleflightKey(request))
  }

  datatype Pc =
    | Idle
    | Creating(stamp: Time)
    | Getting(attempt: nat)
    | Judging(attempt: nat, seen: Lease)
    | Stamping(attempt: nat, seen: Lease)
    | Updating(attempt: nat, seen: Lease, next: Lease)
    | Probing(renewed: Time)
    | Releasing(renewed: Time)
    | Deleting(renewed: Time)
  {
    /** Between a successful acquire and the end of its release. */
    predicate Holding() { Probing? || Releasing? || Deleting? }

    predicate HasSeen() { Judging? || Stamping? || Updating? }
  }

  datatype State = State(clock: Time, leases: map<string, Lease>, nextVersion: nat, pcs: seq<Pc>)

  datatype Action =
    | Tick(now: Time)
    | Start(w: nat) | Create(w: nat) | Get(w: nat) | Judge(w: nat) | Stamp(w: nat) | Update(w: nat)
    | Finish(w: nat) | ReleaseGet(w: nat) | Delete(w: nat)
    | Abandon(w: nat)  // an API error other than a conflict, a cancelled context, or a crash

  predicate Init(c: seq<Call>, s: State) {
    && |s.pcs| == |c|
    && (forall w :: 0 <= w < |c| ==> s.pcs[w] == Idle)
    && (forall k :: k in s.leases ==> s.leases[k].version < s.nextVersion)
  }

  /** singleflight: no call of this process with the same flight key is under way. */
  predicate FlightFree(c: seq<Call>, s: State, w: nat)
    requires |s.pcs| == |c| && w < |c|
  {
    forall v :: 0 <= v < |c| && !s.pcs[v].Idle? && c[v].holder == c[w].holder ==> c[v].flight != c[w].flight
  }

  predicate Enabled(c: seq<Call>, s: State, a: Action)
    requires |s.pcs| == |c|
  {
    match a
    case Tick(now) => s.clock <= now
    case Start(w) => w < |c| && s.pcs[w].Idle? && FlightFree(c, s, w)
    case Create(w) => w < |c| && s.pcs[w].Creating?
    case Get(w) => w < |c| && s.pcs[w].Getting?
    case Judge(w) => w < |c| && s.pcs[w].Judging?
    case Stamp(w) => w < |c| && s.pcs[w].Stamping?
    case Update(w) => w < |c| && s.pcs[w].Updating?
    case Finish(w) => w < |c| && s.pcs[w].Probing?
    case ReleaseGet(w) => w < |c| && s.pcs[w].Releasing?
    case Delete(w) => w < |c| && s.pcs[w].Deleting?
    case Abandon(w) => w < |c| && !s.pcs[w].Idle?
  }

  function Goto(s: State, w: nat, pc: Pc): State
    requires w < |s.pcs|
  {
    s.(pcs := s.pcs[w := pc])
  }

  function Write(s: State, key: string, lease: Lease): State {
    s.(leases := s.leases[key := lease.(version := s.nextVersion)], nextVersion := s.nextVersion + 1)
  }

  function Apply(c: seq<Call>, s: State, a: Action): State
    requires |s.pcs| == |c| && Enabled(c, s, a)
  {
    match a
    case Tick(now) => s.(clock := now)
    case Start(w) => Goto(s, w, Creating(s.clock))
    case Create(w) =>
      if c[w].key in s.leases then Goto(s, w, Getting(1))
      else Goto(Write(s, c[w].key, NewLease(c[w].holder, s.pcs[w].stamp)), w, Probing(s.pcs[w].stamp))
    case Get(w) =>
      if c[w].key in s.leases then Goto(s, w, Judging(s.pcs[w].attempt, s.leases[c[w].key]))
      else Goto(s, w, Idle)
    case Judge(w) =>
      var pc := s.pcs[w];
      if HeldByOther(pc.seen, c[w].holder, s.clock) then Goto(s, w, Idle)
      else Goto(s, w, Stamping(pc.attempt, pc.seen))
    case Stamp(w) =>
      var pc := s.pcs[w];
      Goto(s, w, Updating(pc.attempt, pc.seen, Stamped(pc.seen, c[w].holder, s.clock)))
    case Update(w) =>
      var pc, key := s.pcs[w], c[w].key;
      if key !in s.leases then Goto(s, w, Idle)
      else if s.leases[key].version != pc.next.version then
        Goto(s, w, if pc.attempt < RETRY_STEPS then Getting(pc.attempt + 1) else Idle)
      else if pc.next.renewTime.Some? then
        Goto(Write(s, key, pc.next), w, Probing(pc.next.renewTime.value))
      else Goto(s, w, Idle)
    case Finish(w) => Goto(s, w, Releasing(s.pcs[w].renewed))
    case ReleaseGet(w) =>
      var key := c[w].key;
      if key !in s.leases || s.leases[key].holder != Some(c[w].holder) then Goto(s, w, Idle)
      else Goto(s, w, Deleting(s.pcs[w].renewed))
    case Delete(w) => Goto(s.(leases := s.leases - {c[w].key}), w, Idle)
    case Abandon(w) => Goto(s, w, Idle)
  }

  /** Every state of trace follows from the one before by the scheduled action. */
  predicate Steps(c: seq<Call>, trace: seq<State>, acts: seq<Action>) {
    && |trace| == |acts| + 1
    && (forall i :: 0 <= i < |trace| ==> |trace[i].pcs| == |c|)
    && (forall i :: 0 <= i < |acts| ==> Enabled(c, trace[i], acts[i]) && trace[i + 1] == Apply(c, trace[i], acts[i]))
  }

  /** trace is what the calls c do under the schedule acts. */
  predicate Run(c: seq<Call>, trace: seq<State>, acts: seq<Action>) {
    Steps(c, trace, acts) && Init(c, trace[0])
  }

  /** Every holder finishes its release within the lease duration of the renewal it wrote. */
  predicate Timely(s: State) {
    forall w :: 0 <= w < |s.pcs| && s.pcs[w].Holding() ==> s.clock <= s.pcs[w].renewed + DURATION_SECONDS * SECOND
  }

  predicate AlwaysTimely(trace: seq<State>) {
    forall i :: 0 <= i < |trace| ==> Timely(trace[i])
  }

  /** No two calls are between acquire and release of the same lease. */
  predicate Exclusive(c: seq<Call>, s: State)
    requires |s.pcs| == |c|
  {
    forall v, w :: 0 <= v < w < |c| && s.pcs[v].Holding() && s.pcs[w].Holding() ==> c[v].key != c[w].key
  }

  /** A process runs at most one call per lease key. */
  predicate OnePerProcess(c: seq<Call>, s: State)
    requires |s.pcs| == |c|
  {
    forall v, w :: 0 <= v < w < |c| && !s.pcs[v].Idle? && !s.pcs[w].Idle? && c[v].holder == c[w].holder ==> c[v].key != c[w].key
  }

  /** The two side conditions, throughout a run. */
  predicate Disciplined(c: seq<Call>, trace: seq<State>)
    requires forall i :: 0 <= i < |trace| ==> |trace[i].pcs| == |c|
  {
    forall i :: 0 <= i < |trace| ==> Timely(trace[i]) && OnePerProcess(c, trace[i])
  }

  /** Within one process, calls that share a lease share a flight. */
  predicate LeasesFollowFlights(c: seq<Call>) {
    forall v, w :: 0 <= v < |c| && 0 <= w < |c| && c[v].holder == c[w].holder && c[v].key == c[w].key
                   ==> c[v].flight == c[w].flight
  }

  // ----- the inductive invariant

  predicate Versioned(s: State) {
    forall k :: k in s.leases ==> s.leases[k].version < s.nextVersion
  }

  /** A holder's lease is in the cluster exactly as the holder wrote it. */
  predicate Owns(call: Call, pc: Pc, s: State) {
    pc.Holding() ==> call.key in s.leases && OwnedBy(s.leases[call.key], call.holder, pc.renewed)
  }

  /** A snapshot that is still current equals the stored lease; one that was
      judged free stays free as time passes. */
  predicate SeenOk(call: Call, pc: Pc, s: State) {
    && (pc.HasSeen() ==>
          && pc.seen.version < s.nextVersion
          && (call.key in s.leases && s.leases[call.key].version == pc.seen.version ==> s.leases[call.key] == pc.seen))
    && (pc.Stamping? || pc.Updating? ==> !HeldByOther(pc.seen, call.holder, s.clock))
    && (pc.Updating? ==> pc.next.renewTime.Some? && pc.next == Stamped(pc.seen, call.holder, pc.next.renewTime.value))
  }

  predicate Inv(c: seq<Call>, s: State) {
    && |s.pcs| == |c|
    && Versioned(s)
    && (forall w :: 0 <= w < |c| ==> Owns(c[w], s.pcs[w], s))
    && (forall w :: 0 <= w < |c| ==> SeenOk(c[w], s.pcs[w], s))
  }

  lemma InvInit(c: seq<Call>, s: State)
    requires Init(c, s)
    ensures Inv(c, s)
  {
  }

  lemma InvExclusive(c: seq<Call>, s: State)
    requires Inv(c, s) && OnePerProcess(c, s)
    ensures Exclusive(c, s)
  {
    forall v, w | 0 <= v < w < |c| && s.pcs[v].Holding() && s.pcs[w].Holding()
      ensures c[v].key != c[w].key
    {
      assert Owns(c[v], s.pcs[v], s) && Owns(c[w], s.pcs[w], s);
    }
  }

  /** A lease that w may overwrite or delete belongs to no other holder. */
  lemma FreeForOthers(c: seq<Call>, s: State, w: nat, v: nat)
    requires Inv(c, s) && OnePerProcess(c, s) && Timely(s)
    requires w < |c| && v < |c| && v != w && c[v].key == c[w].key && c[w].key in s.leases
    requires !s.pcs[w].Idle? && !HeldByOther(s.leases[c[w].key], c[w].holder, s.clock)
    ensures !s.pcs[v].Holding()
  {
    assert Owns(c[v], s.pcs[v], s);
  }

  lemma InvWrite(c: seq<Call>, s: State, w: nat, lease: Lease, renewed: Time)
    requires Inv(c, s) && w < |c| && !s.pcs[w].Idle?
    requires OwnedBy(lease, c[w].holder, renewed)
    requires forall v :: 0 <= v < |c| && v != w && c[v].key == c[w].key ==> !s.pcs[v].Holding()
    ensures Inv(c, Goto(Write(s, c[w].key, lease), w, Probing(renewed)))
  {
    var t := Goto(Write(s, c[w].key, lease), w, Probing(renewed));
    forall v | 0 <= v < |c|
      ensures Owns(c[v], t.pcs[v], t) && SeenOk(c[v], t.pcs[v], t)
    {
      assert Owns(c[v], s.pcs[v], s) && SeenOk(c[v], s.pcs[v], s);
    }
  }

  lemma InvUpdate(c: seq<Call>, s: State, w: nat)
    requires Inv(c, s) && OnePerProcess(c, s) && Timely(s)
    requires Enabled(c, s, Update(w))
    ensures Inv(c, Apply(c, s, Update(w)))
  {
    var pc, key := s.pcs[w], c[w].key;
    assert SeenOk(c[w], pc, s);
    if key in s.leases && s.leases[key].version == pc.next.version {
      forall v | 0 <= v < |c| && v != w && c[v].key == key
        ensures !s.pcs[v].Holding()
      {
        FreeForOthers(c, s, w, v);
      }
      InvWrite(c, s, w, pc.next, pc.next.renewTime.value);
    } else {
      InvGoto(c, s, w, Apply(c, s, Update(w)).pcs[w]);
    }
  }

  /** Moving one call without touching the cluster. */
  lemma InvGoto(c: seq<Call>, s: State, w: nat, pc: Pc)
    requires Inv(c, s) && w < |c|
    requires Owns(c[w], pc, s) && SeenOk(c[w], pc, s)
    ensures Inv(c, Goto(s, w, pc))
  {
    var t := Goto(s, w, pc);
    forall v | 0 <= v < |c|
      ensures Owns(c[v], t.pcs[v], t) && SeenOk(c[v], t.pcs[v], t)
    {
      assert Owns(c[v], s.pcs[v], s) && SeenOk(c[v], s.pcs[v], s);
    }
  }

  lemma InvDelete(c: seq<Call>, s: State, w: nat)
    requires Inv(c, s) && OnePerProcess(c, s) && Timely(s)
    requires Enabled(c, s, Delete(w))
    ensures Inv(c, Apply(c, s, Delete(w)))
  {
    var t := Apply(c, s, Delete(w));
    assert Owns(c[w], s.pcs[w], s);
    forall v | 0 <= v < |c|
      ensures Owns(c[v], t.pcs[v], t) && SeenOk(c[v], t.pcs[v], t)
    {
      assert Owns(c[v], s.pcs[v], s) && SeenOk(c[v], s.pcs[v], s);
      if v != w && c[v].key == c[w].key {
        FreeForOthers(c, s, w, v);
      }
    }
  }

  lemma InvTick(c: seq<Call>, s: State, now: Time)
    requires Inv(c, s) && s.clock <= now
    ensures Inv(c, s.(clock := now))
  {
    var t := s.(clock := now);
    forall v | 0 <= v < |c|
      ensures Owns(c[v], t.pcs[v], t) && SeenOk(c[v], t.pcs[v], t)
    {
      assert Owns(c[v], s.pcs[v], s) && SeenOk(c[v], s.pcs[v], s);
    }
  }

  lemma InvStep(c: seq<Call>, s: State, a: Action)
    requires Inv(c, s) && OnePerProcess(c, s) && Timely(s) && Enabled(c, s, a)
    ensures Inv(c, Apply(c, s, a))
  {
    match a
    case Tick(now) => InvTick(c, s, now);
    case Update(w) => InvUpdate(c, s, w);
    case Delete(w) => InvDelete(c, s, w);
    case Create(w) =>
      if c[w].key in s.leases {
        InvGoto(c, s, w, Getting(1));
      } else {
        assert forall v :: 0 <= v < |c| ==> Owns(c[v], s.pcs[v], s);
        InvWrite(c, s, w, NewLease(c[w].holder, s.pcs[w].stamp), s.pcs[w].stamp);
      }
    case Start(w) => InvGoto(c, s, w, Creating(s.clock));
    case Get(w) =>
      InvGoto(c, s, w, Apply(c, s, a).pcs[w]);
    case Judge(w) =>
      assert SeenOk(c[w], s.pcs[w], s);
      InvGoto(c, s, w, Apply(c, s, a).pcs[w]);
    case Stamp(w) =>
      assert SeenOk(c[w], s.pcs[w], s);
      InvGoto(c, s, w, Apply(c, s, a).pcs[w]);
    case Finish(w) =>
      assert Owns(c[w], s.pcs[w], s);
      InvGoto(c, s, w, Apply(c, s, a).pcs[w]);
    case ReleaseGet(w) =>
      assert Owns(c[w], s.pcs[w], s);
      InvGoto(c, s, w, Apply(c, s, a).pcs[w]);
    case Abandon(w) => InvGoto(c, s, w, Idle);
  }

  lemma {:induction false} InvRun(c: seq<Call>, trace: seq<State>, acts: seq<Action>, n: nat)
    requires Run(c, trace, acts) && Disciplined(c, trace) && n < |trace|
    ensures Inv(c, trace[n])
  {
    if n == 0 {
      InvInit(c, trace[0]);
    } else {
      InvRun(c, trace, acts, n - 1);
      InvStep(c, trace[n - 1], acts[n - 1]);
    }
  }

  // ----- main results

  /** From a successful acquire until its own delete the stored lease is the
      holder's, renewal included. */
  lemma OwnershipHolds(c: seq<Call>, trace: seq<State>, acts: seq<Action>, n: nat, w: nat)
    requires Run(c, trace, acts) && Disciplined(c, trace) && n < |trace| && w < |c|
    requires trace[n].pcs[w].Holding()
    ensures c[w].key in trace[n].leases
    ensures OwnedBy(trace[n].leases[c[w].key], c[w].holder, trace[n].pcs[w].renewed)
  {
    InvRun(c, trace, acts, n);
    assert Owns(c[w], trace[n].pcs[w], trace[n]);
  }

  /** A delete removes the deleter's own lease, and a write never replaces or
      removes the lease of another call that still holds it. */
  lemma NobodyElseLosesALease(c: seq<Call>, trace: seq<State>, acts: seq<Action>, n: nat, v: nat)
    requires Run(c, trace, acts) && Disciplined(c, trace) && n < |acts| && v < |c|
    requires trace[n].pcs[v].Holding() && trace[n + 1].pcs[v].Holding()
    ensures c[v].key in trace[n].leases && c[v].key in trace[n + 1].leases
    ensures trace[n + 1].leases[c[v].key] == trace[n].leases[c[v].key]
  {
    OwnershipHolds(c, trace, acts, n, v);
    OwnershipHolds(c, trace, acts, n + 1, v);
    InvRun(c, trace, acts, n);
    var s, a, key := trace[n], acts[n], c[v].key;
    if a.Update? && a.w != v && c[a.w].key == key {
      assert SeenOk(c[a.w], s.pcs[a.w], s);
      if s.leases[key].version == s.pcs[a.w].next.version {
        FreeForOthers(c, s, a.w, v);
      }
    }
  }

  /** The release, whose delete names no version, still deletes only the lease its own call wrote. */
  lemma DeleteIsOwn(c: seq<Call>, trace: seq<State>, acts: seq<Action>, n: nat, w: nat)
    requires Run(c, trace, acts) && Disciplined(c, trace) && n < |acts| && acts[n] == Delete(w)
    ensures c[w].key in trace[n].leases && OwnedBy(trace[n].leases[c[w].key], c[w].holder, trace[n].pcs[w].renewed)
    ensures trace[n + 1].leases == trace[n].leases - {c[w].key}
  {
    OwnershipHolds(c, trace, acts, n, w);
  }

  /** An update that succeeds replaces exactly the lease it fetched and judged free. */
  lemma UpdateIsNeverStale(c: seq<Call>, trace: seq<State>, acts: seq<Action>, n: nat, w: nat)
    requires Run(c, trace, acts) && Disciplined(c, trace) && n < |acts| && acts[n] == Update(w)
    requires trace[n + 1].pcs[w].Probing?
    ensures c[w].key in trace[n].leases && trace[n].leases[c[w].key] == trace[n].pcs[w].seen
    ensures !HeldByOther(trace[n].leases[c[w].key], c[w].holder, trace[n].clock)
  {
    InvRun(c, trace, acts, n);
    assert SeenOk(c[w], trace[n].pcs[w], trace[n]);
  }

  /** Mutual exclusion over every interleaving. */
  lemma MutualExclusion(c: seq<Call>, trace: seq<State>, acts: seq<Action>)
    requires Run(c, trace, acts) && Disciplined(c, trace)
    ensures forall n :: 0 <= n < |trace| ==> Exclusive(c, trace[n])
  {
    forall n | 0 <= n < |trace| ensures Exclusive(c, trace[n]) {
      InvRun(c, trace, acts, n);
      InvExclusive(c, trace[n]);
    }
  }

  /** Without concurrency keys singleflight alone keeps one call per process and lease. */
  lemma BlankConcurrencyKeysSuffice(holders: seq<string>, requests: seq<ProbeRequest.Request>, c: seq<Call>)
    requires |holders| == |requests| == |c|
    requires forall w :: 0 <= w < |c| ==> c[w] == CallOf(holders[w], requests[w]) && Blank(requests[w].concurrencyKey)
    ensures SafeCalls(c)
  {
    forall w | 0 <= w < |c| ensures c[w].key == c[w].flight {
      assert c[w] == CallOf(holders[w], requests[w]);
    }
    ExclusionExactly(c);
  }

  predicate OneFlight(c: seq<Call>, s: State)
    requires |s.pcs| == |c|
  {
    forall v, w :: 0 <= v < |c| && 0 <= w < |c| && v != w && !s.pcs[v].Idle? && !s.pcs[w].Idle? && c[v].holder == c[w].holder
                   ==> c[v].flight != c[w].flight
  }

  /** Singleflight enforces one flight, hence one call per process and lease, in every state. */
  lemma {:induction false} FlightsHold(c: seq<Call>, trace: seq<State>, acts: seq<Action>, n: nat)
    requires Run(c, trace, acts) && n < |trace|
    ensures OneFlight(c, trace[n])
    ensures LeasesFollowFlights(c) ==> OnePerProcess(c, trace[n])
  {
    if n > 0 {
      FlightsHold(c, trace, acts, n - 1);
      var s, t := trace[n - 1], trace[n];
      forall v, w | 0 <= v < |c| && 0 <= w < |c| && v != w && !t.pcs[v].Idle? && !t.pcs[w].Idle? && c[v].holder == c[w].holder
        ensures c[v].flight != c[w].flight
      {
        assert Apply(c, s, acts[n - 1]) == t;
      }
    }
  }

  ghost predicate SafeCalls(c: seq<Call>) {
    forall trace, acts :: Run(c, trace, acts) && AlwaysTimely(trace)
      ==> forall n :: 0 <= n < |trace| ==> Exclusive(c, trace[n])
  }

  lemma StepsJoin(c: seq<Call>, t1: seq<State>, a1: seq<Action>, t2: seq<State>, a2: seq<Action>)
    requires Steps(c, t1, a1) && Steps(c, t2, a2) && t1[|a1|] == t2[0]
    ensures Steps(c, t1 + t2[1..], a1 + a2)
    ensures (t1 + t2[1..])[|a1 + a2|] == t2[|a2|]
  {
    var t, a := t1 + t2[1..], a1 + a2;
    forall i | 0 <= i < |a| ensures Enabled(c, t[i], a[i]) && t[i + 1] == Apply(c, t[i], a[i]) {
      if i >= |a1| {
        assert a[i] == a2[i - |a1|] && t[i] == t2[i - |a1|] && t[i + 1] == t2[i - |a1| + 1];
      }
    }
  }

  /** Only call w moved, and if it holds the lease it has just stamped it. */
  predicate OnlyMoved(s: State, t: State, w: nat)
    requires w < |s.pcs|
  {
    && t.clock == s.clock && w < |t.pcs| && t.pcs == s.pcs[w := t.pcs[w]]
    && (t.pcs[w].Holding() ==> t.pcs[w].renewed == s.clock)
  }

  /** An acquire that nobody interferes with succeeds at once when there is no
      lease: the new lease is stamped with the present. */
  lemma LoneCreate(c: seq<Call>, s: State, w: nat) returns (trace: seq<State>, acts: seq<Action>)
    requires |s.pcs| == |c| && Enabled(c, s, Start(w)) && c[w].key !in s.leases
    ensures Steps(c, trace, acts) && trace[0] == s && acts == [Start(w), Create(w)]
    ensures trace[|acts|] == Goto(Write(s, c[w].key, NewLease(c[w].holder, s.clock)), w, Probing(s.clock))
    ensures forall i :: 0 <= i < |trace| ==> OnlyMoved(s, trace[i], w)
  {
    var s1 := Apply(c, s, Start(w));
    var s2 := Apply(c, s1, Create(w));
    acts, trace := [Start(w), Create(w)], [s, s1, s2];
    assert s2.pcs == s.pcs[w := Probing(s.clock)];
  }

  /** It also succeeds on an existing lease unless another holder's lease is unexpired:
      after a crash the lease is recovered as soon as RenewTime plus the duration has passed. */
  lemma LoneTakeover(c: seq<Call>, s: State, w: nat) returns (trace: seq<State>, acts: seq<Action>)
    requires |s.pcs| == |c| && Enabled(c, s, Start(w)) && c[w].key in s.leases
    requires !HeldByOther(s.leases[c[w].key], c[w].holder, s.clock)
    ensures Steps(c, trace, acts) && trace[0] == s
    ensures acts == [Start(w), Create(w), Get(w), Judge(w), Stamp(w), Update(w)]
    ensures trace[|acts|] == Goto(Write(s, c[w].key, Stamped(s.leases[c[w].key], c[w].holder, s.clock)), w, Probing(s.clock))
    ensures forall i :: 0 <= i < |trace| ==> OnlyMoved(s, trace[i], w)
  {
    var seen := s.leases[c[w].key];
    var s1 := Apply(c, s, Start(w));
    var s2 := Apply(c, s1, Create(w));
    var s3 := Apply(c, s2, Get(w));
    assert s3 == Goto(s, w, Judging(1, seen));
    var t2, a2 := JudgedTakeover(c, s, s3, w);
    StepsJoin(c, [s, s1, s2, s3], [Start(w), Create(w), Get(w)], t2, a2);
    trace, acts := [s, s1, s2, s3] + t2[1..], [Start(w), Create(w), Get(w)] + a2;
  }

  lemma JudgedTakeover(c: seq<Call>, s: State, t: State, w: nat) returns (trace: seq<State>, acts: seq<Action>)
    requires |s.pcs| == |c| && w < |c| && c[w].key in s.leases
    requires t == Goto(s, w, Judging(1, s.leases[c[w].key]))
    requires !HeldByOther(s.leases[c[w].key], c[w].holder, s.clock)
    ensures Steps(c, trace, acts) && trace[0] == t
    ensures acts == [Judge(w), Stamp(w), Update(w)]
    ensures trace[3] == Goto(Write(s, c[w].key, Stamped(s.leases[c[w].key], c[w].holder, s.clock)), w, Probing(s.clock))
    ensures forall i :: 0 <= i < |trace| ==> OnlyMoved(s, trace[i], w)
  {
    var t1 := Apply(c, t, Judge(w));
    var t2 := Apply(c, t1, Stamp(w));
    var t3 := Apply(c, t2, Update(w));
    assert t3.pcs == s.pcs[w := Probing(s.clock)];
    trace, acts := [t, t1, t2, t3], [Judge(w), Stamp(w), Update(w)];
  }

  /** What the server's answers make of an acquire that found the lease to exist: a missing lease
      ends it, and so does the fifth update in a row that finds a newer version. */
  lemma AnswersEndOrRetry(c: seq<Call>, s: State, w: nat)
    requires |s.pcs| == |c| && w < |c|
    ensures s.pcs[w].Getting? && c[w].key !in s.leases ==> Apply(c, s, Get(w)) == s.(pcs := s.pcs[w := Idle])
    ensures s.pcs[w].Updating? && c[w].key !in s.leases ==> Apply(c, s, Update(w)) == s.(pcs := s.pcs[w := Idle])
    ensures s.pcs[w].Updating? && c[w].key in s.leases && s.leases[c[w].key].version != s.pcs[w].next.version ==>
              Apply(c, s, Update(w)) == s.(pcs := s.pcs[w := if s.pcs[w].attempt < 5 then Getting(s.pcs[w].attempt + 1) else Idle])
  {
  }

  predicate AttemptsOk(s: State) {
    forall w :: 0 <= w < |s.pcs| ==>
      match s.pcs[w]
      case Getting(attempt) => 1 <= attempt <= 5
      case Judging(attempt, _) => 1 <= attempt <= 5
      case Stamping(attempt, _) => 1 <= attempt <= 5
      case Updating(attempt, _, _) => 1 <= attempt <= 5
      case _ => true
  }

  /** No acquire of any run makes more than five attempts. */
  lemma {:induction false} AttemptsBounded(c: seq<Call>, trace: seq<State>, acts: seq<Action>, i: nat)
    requires Run(c, trace, acts) && i < |trace|
    ensures AttemptsOk(trace[i])
  {
    hide Apply, Init, AttemptsOk;
    if i > 0 {
      AttemptsBounded(c, trace, acts, i - 1);
      AttemptsStep(c, trace[i - 1], acts[i - 1]);
    } else {
      NoAttempts(c, trace[0]);
    }
  }

  lemma NoAttempts(c: seq<Call>, s: State)
    requires Init(c, s)
    ensures AttemptsOk(s)
  {
  }

  lemma AttemptsStep(c: seq<Call>, s: State, a: Action)
    requires |s.pcs| == |c| && Enabled(c, s, a) && AttemptsOk(s)
    ensures AttemptsOk(Apply(c, s, a))
  {
    hide HeldByOther, Stamped, NewLease;
  }

  /** A release that nothing disturbs removes the lease exactly when it names the caller's process. */
  lemma LoneRelease(c: seq<Call>, s: State, w: nat) returns (trace: seq<State>, acts: seq<Action>)
    requires |s.pcs| == |c| && Enabled(c, s, Finish(w))
    ensures Steps(c, trace, acts) && trace[0] == s && |acts| > 0
    ensures var key, left := c[w].key, trace[|acts|];
            left == s.(pcs := s.pcs[w := Idle],
                       leases := if key in s.leases && s.leases[key].holder == Some(c[w].holder) then s.leases - {key} else s.leases)
  {
    var s1 := Apply(c, s, Finish(w));
    var s2 := Apply(c, s1, ReleaseGet(w));
    if s2.pcs[w].Idle? {
      trace, acts := [s, s1, s2], [Finish(w), ReleaseGet(w)];
      assert s2.pcs == s.pcs[w := Idle];
    } else {
      var s3 := Apply(c, s2, Delete(w));
      trace, acts := [s, s1, s2, s3], [Finish(w), ReleaseGet(w), Delete(w)];
      assert s3.pcs == s.pcs[w := Idle];
    }
  }

  /** The release step at j saw the lease under w's own process, and w has been about to delete
      it ever since. */
  ghost predicate SawOwnLease(c: seq<Call>, trace: seq<State>, acts: seq<Action>, w: nat, j: int, i: int)
    requires Run(c, trace, acts) && w < |c|
  {
    && 0 <= j < i < |trace| && acts[j] == ReleaseGet(w)
    && c[w].key in trace[j].leases && trace[j].leases[c[w].key].holder == Some(c[w].holder)
    && forall m :: j < m <= i ==> trace[m].pcs[w].Deleting?
  }

  /** In every run, however slow the holders are: who deletes a lease has seen it name its own
      process at the release before. */
  lemma {:induction false} DeleteSawOwnLease(c: seq<Call>, trace: seq<State>, acts: seq<Action>, w: nat, i: nat)
    requires Run(c, trace, acts) && w < |c| && i < |trace| && trace[i].pcs[w].Deleting?
    ensures exists j :: SawOwnLease(c, trace, acts, w, j, i)
    decreases i
  {
    assert trace[0].pcs[w] == Idle;
    assert trace[i] == Apply(c, trace[i - 1], acts[i - 1]);
    if trace[i - 1].pcs[w].Deleting? {
      DeleteSawOwnLease(c, trace, acts, w, i - 1);
      var j :| SawOwnLease(c, trace, acts, w, j, i - 1);
      assert SawOwnLease(c, trace, acts, w, j, i);
    } else {
      assert SawOwnLease(c, trace, acts, w, i - 1, i);
    }
  }

  /** Only an unexpired lease of another holder refuses a lone acquire; nothing is written. */
  lemma LoneRefusal(c: seq<Call>, s: State, w: nat) returns (trace: seq<State>, acts: seq<Action>)
    requires |s.pcs| == |c| && Enabled(c, s, Start(w)) && c[w].key in s.leases
    requires HeldByOther(s.leases[c[w].key], c[w].holder, s.clock)
    ensures Steps(c, trace, acts) && trace[0] == s
    ensures acts == [Start(w), Create(w), Get(w), Judge(w)]
    ensures trace[|acts|] == s
  {
    var s1 := Apply(c, s, Start(w));
    var s2 := Apply(c, s1, Create(w));
    var s3 := Apply(c, s2, Get(w));
    var s4 := Apply(c, s3, Judge(w));
    assert s4.pcs == s.pcs;
    trace, acts := [s, s1, s2, s3, s4], [Start(w), Create(w), Get(w), Judge(w)];
  }

  /** The cluster before any call. */
  function Fresh(c: seq<Call>): State {
    State(0, map[], 0, seq(|c|, _ => Idle))
  }

  /** The run in which two calls of one process both enter the probe. */
  lemma TwoFlightsOneLease(c: seq<Call>, v: nat, w: nat) returns (trace: seq<State>, acts: seq<Action>)
    requires v < |c| && w < |c| && v != w
    requires c[v].holder == c[w].holder && c[v].key == c[w].key && c[v].flight != c[w].flight
    ensures Run(c, trace, acts) && AlwaysTimely(trace)
    ensures trace[|acts|].pcs[v].Probing? && trace[|acts|].pcs[w].Probing?
  {
    var t1, a1 := LoneCreate(c, Fresh(c), v);
    var mid := t1[|a1|];
    assert mid.pcs[v] == Probing(0) && mid.clock == 0;
    var t2, a2 := LoneTakeover(c, mid, w);
    StepsJoin(c, t1, a1, t2, a2);
    trace, acts := t1 + t2[1..], a1 + a2;
    forall i | 0 <= i < |trace| ensures Timely(trace[i]) {
      if i <= |a1| {
        assert OnlyMoved(Fresh(c), t1[i], v);
      } else {
        assert OnlyMoved(mid, t2[i - |a1|], w);
      }
    }
  }

  /** Timely runs of these calls are mutually exclusive if and only if calls of
      one process that share a lease key share a flight key. */
  lemma ExclusionExactly(c: seq<Call>)
    ensures SafeCalls(c) <==> LeasesFollowFlights(c)
  {
    if LeasesFollowFlights(c) {
      forall trace, acts | Run(c, trace, acts) && AlwaysTimely(trace)
        ensures forall n :: 0 <= n < |trace| ==> Exclusive(c, trace[n])
      {
        forall i | 0 <= i < |trace| ensures OnePerProcess(c, trace[i]) {
          FlightsHold(c, trace, acts, i);
        }
        MutualExclusion(c, trace, acts);
      }
    } else {
      var v, w :| 0 <= v < |c| && 0 <= w < |c| && c[v].holder == c[w].holder && c[v].key == c[w].key && c[v].flight != c[w].flight;
      var trace, acts := TwoFlightsOneLease(c, v, w);
      assert !Exclusive(c, trace[|acts|]) by {
        var i, j := if v < w then v else w, if v < w then w else v;
        assert trace[|acts|].pcs[i].Holding() && trace[|acts|].pcs[j].Holding();
      }
    }
  }

  /** A holder whose release has seen its own lease, and then waits. */
  lemma LateHolder(c: seq<Call>, v: nat, late: Time) returns (trace: seq<State>, acts: seq<Action>)
    requires v < |c| && late >= 0
    ensures Run(c, trace, acts) && trace[|acts|].clock == late
    ensures trace[|acts|].pcs == Fresh(c).pcs[v := Deleting(0)]
    ensures trace[|acts|].leases == map[c[v].key := NewLease(c[v].holder, 0)]
  {
    var t1, a1 := LoneCreate(c, Fresh(c), v);
    var s2 := t1[|a1|];
    var s3 := Apply(c, s2, Finish(v));
    var s4 := Apply(c, s3, ReleaseGet(v));
    var s5 := Apply(c, s4, Tick(late));
    var t2, a2 := [s2, s3, s4, s5], [Finish(v), ReleaseGet(v), Tick(late)];
    StepsJoin(c, t1, a1, t2, a2);
    trace, acts := t1 + t2[1..], a1 + a2;
  }

  /** Timeliness is needed too: a holder that outlives its lease is joined by
      another process, whose lease it then deletes. */
  lemma LateHolderIsJoinedAndDeletes(c: seq<Call>, v: nat, w: nat) returns (trace: seq<State>, acts: seq<Action>)
    requires v < |c| && w < |c| && c[v].holder != c[w].holder && c[v].key == c[w].key
    ensures Run(c, trace, acts) && |acts| >= 1
    ensures !Exclusive(c, trace[|acts| - 1])
    ensures trace[|acts| - 1].pcs[w].Probing? && trace[|acts|].pcs[w].Probing?
    ensures c[w].key in trace[|acts| - 1].leases && c[w].key !in trace[|acts|].leases
  {
    var t1, a1 := LateHolder(c, v, DURATION_SECONDS * SECOND + 1);
    var s1 := t1[|a1|];
    var t2, a2 := LoneTakeover(c, s1, w);
    StepsJoin(c, t1, a1, t2, a2);
    var s2 := t2[|a2|];
    assert s2.pcs[v] == Deleting(0) && s2.pcs[w].Probing?;
    var t3, a3 := [s2, Apply(c, s2, Delete(v))], [Delete(v)];
    var t12, a12 := t1 + t2[1..], a1 + a2;
    StepsJoin(c, t12, a12, t3, a3);
    trace, acts := t12 + t3[1..], a12 + a3;
    assert trace[|acts| - 1] == s2;
    assert !Exclusive(c, s2) by {
      var i, j := if v < w then v else w, if v < w then w else v;
      assert s2.pcs[i].Holding() && s2.pcs[j].Holding();
    }
  }

  /** Calls that share a lease share holder and flight, so that they are never under way together. */
  predicate NeverTogether(c: seq<Call>) {
    forall v, w :: 0 <= v < |c| && 0 <= w < |c| && c[v].key == c[w].key ==> c[v].holder == c[w].holder && c[v].flight == c[w].flight
  }

  ghost predicate AlwaysExclusive(c: seq<Call>) {
    forall trace, acts :: Run(c, trace, acts) ==> forall n :: 0 <= n < |trace| ==> Exclusive(c, trace[n])
  }

  /** Without any promise about time the lease itself excludes nobody: all runs are exclusive if
      and only if singleflight alone already keeps apart the calls that share a lease. */
  lemma UntimedExclusionExactly(c: seq<Call>)
    ensures AlwaysExclusive(c) <==> NeverTogether(c)
  {
    if NeverTogether(c) {
      forall trace, acts, n | Run(c, trace, acts) && 0 <= n < |trace| ensures Exclusive(c, trace[n]) {
        FlightsHold(c, trace, acts, n);
      }
    } else {
      var v, w :| 0 <= v < |c| && 0 <= w < |c| && c[v].key == c[w].key && (c[v].holder != c[w].holder || c[v].flight != c[w].flight);
      if c[v].holder != c[w].holder {
        var trace, acts := LateHolderIsJoinedAndDeletes(c, v, w);
        assert !Exclusive(c, trace[|acts| - 1]);
      } else {
        var trace, acts := TwoFlightsOneLease(c, v, w);
        assert !Exclusive(c, trace[|acts|]) by {
          var i, j := if v < w then v else w, if v < w then w else v;
          assert trace[|acts|].pcs[i].Holding() && trace[|acts|].pcs[j].Holding();
        }
      }
    }
  }
}

/** acquireCatalogProbeLease and its release as code against the cluster. */
module ProbeLeaseClient {
  import opened Text
  import opened ProbeLease

  datatype Written = Updated | Conflict | Missing

  /** The lease objects of one namespace, shared with every other client unless quiet. */
  class Cluster {
    const quiet: bool
    var now: Time
    var leases: map<string, Lease>
    var nextVersion: nat

    ghost predicate Valid()
      reads this
    {
      forall k :: k in leases ==> leases[k].version < nextVersion
    }

    constructor (quiet: bool)
      ensures Valid() && leases == map[] && this.quiet == quiet
    {
      this.quiet := quiet;
      now, leases, nextVersion := 0, map[], 0;
    }

    /** Other clients and the clock act between two requests of this one. */
    method Interfere()
      requires Valid()
      modifies this
      ensures Valid() && MayFollow(old(now), old(leases), old(nextVersion), now, leases, nextVersion)
      ensures quiet ==> now == old(now) && leases == old(leases) && nextVersion == old(nextVersion)
    {
      if !quiet {
        assert MayFollow(now, leases, nextVersion, now, leases, nextVersion);
        var t: Time, m: map<string, Lease>, v: nat :| MayFollow(now, leases, nextVersion, t, m, v);
        assert MayFollow(now, leases, nextVersion, t, m, v);
        now, leases, nextVersion := t, m, v;
      }
    }

    method Create(key: string, lease: Lease) returns (created: bool)
      requires Valid()
      modifies this
      ensures Valid() && now == old(now)
      ensures created <==> key !in old(leases)
      ensures created ==> leases == old(leases)[key := lease.(version := old(nextVersion))] && nextVersion == old(nextVersion) + 1
      ensures !created ==> leases == old(leases) && nextVersion == old(nextVersion)
    {
      created := key !in leases;
      if created {
        leases, nextVersion := leases[key := lease.(version := nextVersion)], nextVersion + 1;
      }
    }

    method Get(key: string) returns (found: Option<Lease>)
      ensures found == if key in leases then Some(leases[key]) else None
    {
      found := if key in leases then Some(leases[key]) else None;
    }

    /** Succeeds only on the version it was read at. */
    method Update(key: string, next: Lease) returns (outcome: Written)
      requires Valid()
      modifies this
      ensures Valid() && now == old(now)
      ensures outcome == if key !in old(leases) then Missing
                         else if old(leases)[key].version != next.version then Conflict else Updated
      ensures outcome == Updated ==>
                leases == old(leases)[key := next.(version := old(nextVersion))] && nextVersion == old(nextVersion) + 1
      ensures outcome != Updated ==> leases == old(leases) && nextVersion == old(nextVersion)
    {
      if key !in leases {
        outcome := Missing;
      } else if leases[key].version != next.version {
        outcome := Conflict;
      } else {
        outcome := Updated;
        leases, nextVersion := leases[key := next.(version := nextVersion)], nextVersion + 1;
      }
    }

    /** Names no version. */
    method Delete(key: string)
      requires Valid()
      modifies this
      ensures Valid() && now == old(now) && nextVersion == old(nextVersion)
      ensures leases == old(leases) - {key}
    {
      leases := leases - {key};
    }
  }

  /** What other clients may do: versions grow and are never reused for another content. */
  predicate MayFollow(now: Time, leases: map<string, Lease>, version: nat, t: Time, m: map<string, Lease>, v: nat) {
    && now <= t && version <= v
    && (forall k :: k in m ==> m[k].version < v)
    && (forall k :: k in m && m[k].version < version ==> k in leases && leases[k] == m[k])
  }

  /** acquireCatalogProbeLease: on success the caller's own lease, stamped during the
      call, is in the cluster; alone, it fails exactly on another holder's unexpired lease. */
  method Acquire(cluster: Cluster, key: string, holder: string) returns (acquired: bool, renewed: Time)
    requires cluster.Valid()
    modifies cluster
    ensures cluster.Valid()
    ensures acquired ==> old(cluster.now) <= renewed <= cluster.now
    ensures acquired ==> key in cluster.leases && OwnedBy(cluster.leases[key], holder, renewed)
    ensures acquired ==> old(cluster.nextVersion) <= cluster.leases[key].version
    ensures cluster.quiet ==>
      (acquired <==> !(key in old(cluster.leases) && HeldByOther(old(cluster.leases)[key], holder, old(cluster.now))))
    ensures cluster.quiet && !acquired ==> cluster.leases == old(cluster.leases)
    ensures cluster.quiet && acquired ==>
      cluster.leases == old(cluster.leases)[key :=
        (if key in old(cluster.leases) then Stamped(old(cluster.leases)[key], holder, old(cluster.now))
         else NewLease(holder, old(cluster.now))).(version := old(cluster.nextVersion))]
  {
    acquired, renewed := false, cluster.now;
    cluster.Interfere();
    var created := cluster.Create(key, NewLease(holder, renewed));
    if created {
      return true, renewed;
    }
    var attempt := 1;
    while attempt <= RETRY_STEPS
      invariant cluster.Valid() && !acquired
      invariant old(cluster.now) <= cluster.now && old(cluster.nextVersion) <= cluster.nextVersion
      invariant cluster.quiet ==>
        && attempt == 1 && key in old(cluster.leases) && cluster.now == old(cluster.now)
        && cluster.leases == old(cluster.leases) && cluster.nextVersion == old(cluster.nextVersion)
    {
      cluster.Interfere();
      var found := cluster.Get(key);
      if found.None? {
        return;
      }
      cluster.Interfere();
      if HeldByOther(found.value, holder, cluster.now) {
        return;
      }
      cluster.Interfere();
      renewed := cluster.now;
      var next := Stamped(found.value, holder, renewed);
      cluster.Interfere();
      var outcome := cluster.Update(key, next);
      match outcome
      case Updated => return true, renewed;
      case Missing => return;
      case Conflict => attempt := attempt + 1;
    }
  }

  /** The release among other clients: it sees the lease at one moment, and if the lease then
      names the holder it removes, at a later moment, whatever lies under the key. */
  ghost predicate Released(key: string, holder: string, now: Time, leases: map<string, Lease>, version: nat,
                           end: Time, left: map<string, Lease>, v: nat) {
    exists t: Time, m: map<string, Lease>, v1: nat :: MayFollow(now, leases, version, t, m, v1)
      && if key in m && m[key].holder == Some(holder) then DeletedLater(key, t, m, v1, end, left, v)
         else end == t && left == m && v == v1
  }

  ghost predicate DeletedLater(key: string, now: Time, leases: map<string, Lease>, version: nat,
                               end: Time, left: map<string, Lease>, v: nat) {
    exists m: map<string, Lease> :: MayFollow(now, leases, version, end, m, v) && left == m - {key}
  }

  /** The release: alone, it removes the lease exactly when the caller still holds it. */
  method Release(cluster: Cluster, key: string, holder: string)
    requires cluster.Valid()
    modifies cluster
    ensures cluster.Valid()
    ensures Released(key, holder, old(cluster.now), old(cluster.leases), old(cluster.nextVersion),
                     cluster.now, cluster.leases, cluster.nextVersion)
    ensures cluster.quiet ==>
      cluster.leases == if key in old(cluster.leases) && old(cluster.leases)[key].holder == Some(holder)
                        then old(cluster.leases) - {key} else old(cluster.leases)
  {
    cluster.Interfere();
    var found := cluster.Get(key);
    if found.None? || found.value.holder != Some(holder) {
      return;
    }
    cluster.Interfere();
    cluster.Delete(key);
  }
}
