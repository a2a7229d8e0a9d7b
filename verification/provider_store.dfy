/** The provider aggregate as the platform persists it. */
module ProviderModel {
  import opened Text

  datatype ModelRef = ModelRef(vendorId: string, modelId: string)

  datatype Model = Model(providerModelId: string, modelRef: Option<ModelRef>)

  datatype Kind = ModelCatalog | Quota

  /** What a probe of one kind left behind; times in nanoseconds since 1970. */
  datatype RunState = RunState(lastAttemptAt: Option<int>, nextAllowedAt: Option<int>,
                               probeId: string, outcome: string, message: string)

  datatype ProbeStatus = ProbeStatus(modelCatalog: Option<RunState>, quota: Option<RunState>)

  datatype Provider = Provider(providerId: string, displayName: string, surfaceId: string,
                               credentialId: Option<string>, models: seq<Model>,
                               probeStatus: Option<ProbeStatus>)
  {
    function Probe(kind: Kind): Option<RunState> {
      if probeStatus.None? then None
      else match kind case ModelCatalog => probeStatus.value.modelCatalog case Quota => probeStatus.value.quota
    }
  }

  function Recorded(p: Provider, kind: Kind, state: RunState): Provider {
    var status := if p.probeStatus.None? then ProbeStatus(None, None) else p.probeStatus.value;
    p.(probeStatus := Some(match kind
                           case ModelCatalog => status.(modelCatalog := Some(state))
                           case Quota => status.(quota := Some(state))))
  }

  /** Recording one kind sets that kind's state and nothing else. */
  lemma RecordedOnlyItsKind(p: Provider, kind: Kind, state: RunState)
    ensures Recorded(p, kind, state).probeStatus.Some?
    ensures kind == ModelCatalog ==> Recorded(p, kind, state).probeStatus.value.modelCatalog == Some(state)
    ensures kind == Quota ==> Recorded(p, kind, state).probeStatus.value.quota == Some(state)
    ensures Recorded(p, kind, state).Probe(kind) == Some(state)
    ensures forall other :: other != kind ==> Recorded(p, kind, state).Probe(other) == p.Probe(other)
    ensures Recorded(p, kind, state).(probeStatus := p.probeStatus) == p
  {
  }
}

/** The provider repository (providerstate/store.go) over one table of rows. */
module ProviderStore {
  import opened Text
  import opened ProviderModel

  datatype StoreError = EmptyId | IdMismatch | NotFound | Invalid | Rejected

  /** A change to a stored provider, or a refusal. */
  type Mutation = Provider -> Option<Provider>

  function NormalizeForRead(id: string, input: Provider): Result<Provider, StoreError> {
    var want, have := Trim(id), Trim(input.providerId);
    var p := input.(providerId := if have == "" then want else have);
    if p.providerId == "" then Err(EmptyId)
    else if want != "" && p.providerId != want then Err(IdMismatch)
    else Ok(p)
  }

  /** valid stands for the provider contract's own validation. */
  function NormalizeForWrite(valid: Provider -> bool, input: Provider): Result<Provider, StoreError> {
    var p := NormalizeForRead("", input);
    if p.Ok? && !valid(p.value) then Err(Invalid) else p
  }

  type Rows = map<string, Provider>

  /** Each row's key is its payload's provider id: trimmed and not empty. */
  ghost predicate Keyed(rows: Rows) {
    forall k :: k in rows ==> k != "" && Trim(k) == k && rows[k].providerId == k
  }

  function GetRow(rows: Rows, id: string): Result<Provider, StoreError> {
    var key := Trim(id);
    if key == "" then Err(EmptyId)
    else if key !in rows then Err(NotFound)
    else NormalizeForRead(key, rows[key])
  }

  /** What Update writes for a provider read earlier: the second of its two requests. */
  function WriteBack(rows: Rows, id: string, read: Provider, mutate: Mutation): Result<Rows, StoreError> {
    var changed := mutate(read);
    if changed.None? then Err(Rejected)
    else
      var p := NormalizeForRead(id, changed.value);
      if p.Err? then Err(p.error)
      else if p.value.providerId !in rows then Err(NotFound)
      else Ok(rows[p.value.providerId := p.value])
  }

  /** The rows after an update that nothing disturbs: the addressed row becomes what the callback
      makes of it, unless the callback refuses or names another provider. */
  function Updated(rows: Rows, id: string, mutate: Mutation): Rows {
    var key := Trim(id);
    if key in rows && mutate(rows[key]).Some? && Trim(mutate(rows[key]).value.providerId) in {"", key}
    then rows[key := mutate(rows[key]).value.(providerId := key)]
    else rows
  }

  lemma UpdatedIsWriteBack(rows: Rows, id: string, mutate: Mutation)
    requires Keyed(rows) && Trim(id) in rows
    ensures var written := WriteBack(rows, id, rows[Trim(id)], mutate);
            Updated(rows, id, mutate) == if written.Ok? then written.value else rows
  {
    hide Trim;
    assert Trim(id) != "";
  }

  lemma NormalizedIsKeyed(id: string, input: Provider)
    ensures var p := NormalizeForRead(id, input);
            p.Ok? ==> && p.value.providerId != "" && Trim(p.value.providerId) == p.value.providerId
                      && (Trim(id) != "" ==> p.value.providerId == Trim(id))
                      && p.value == input.(providerId := p.value.providerId)
  {
    hide Trim;
    TrimTwice(id);
    TrimTwice(input.providerId);
  }

  lemma GetRowOfKeyed(rows: Rows, id: string)
    requires Keyed(rows)
    ensures GetRow(rows, id) == if Trim(id) == "" then Err(EmptyId)
                                else if Trim(id) in rows then Ok(rows[Trim(id)]) else Err(NotFound)
  {
    if Trim(id) in rows {
      assert rows[Trim(id)].providerId == Trim(id);
    }
  }

  class Repository {
    var rows: Rows
    const valid: Provider -> bool

    ghost predicate Valid()
      reads this
    {
      Keyed(rows)
    }

    constructor (valid: Provider -> bool)
      ensures Valid() && rows == map[] && this.valid == valid
    {
      this.valid := valid;
      rows := map[];
    }

    method Get(id: string) returns (r: Result<Provider, StoreError>)
      requires Valid()
      ensures r == if Trim(id) == "" then Err(EmptyId)
                   else if Trim(id) in rows then Ok(rows[Trim(id)]) else Err(NotFound)
    {
      GetRowOfKeyed(rows, id);
      r := GetRow(rows, id);
    }

    method Upsert(input: Provider) returns (r: Result<Provider, StoreError>)
      requires Valid()
      modifies this
      ensures Valid()
      ensures r.Ok? <==> Trim(input.providerId) != "" && valid(input.(providerId := Trim(input.providerId)))
      ensures r.Ok? ==> r.value == input.(providerId := Trim(input.providerId))
                        && rows == old(rows)[r.value.providerId := r.value]
      ensures r.Err? ==> rows == old(rows) && r.error == if Trim(input.providerId) == "" then EmptyId else Invalid
    {
      hide Trim;
      NormalizedIsKeyed("", input);
      TrimOfNoSpace("");
      r := NormalizeForWrite(valid, input);
      if r.Ok? {
        rows := rows[r.value.providerId := r.value];
      }
    }

    /** Undisturbed, Update applies the callback to the row and keeps its key. */
    method Update(id: string, mutate: Mutation) returns (r: Result<Provider, StoreError>)
      requires Valid()
      modifies this
      ensures Valid()
      ensures r.Ok? <==> && Trim(id) in old(rows) && mutate(old(rows)[Trim(id)]).Some?
                         && Trim(mutate(old(rows)[Trim(id)]).value.providerId) in {"", Trim(id)}
      ensures r.Ok? ==> r.value == mutate(old(rows)[Trim(id)]).value.(providerId := Trim(id))
      ensures r.Ok? ==> rows == old(rows)[Trim(id) := r.value]
      ensures r.Err? ==> rows == old(rows)
      ensures r.Err? ==> r.error == if Trim(id) == "" then EmptyId else if Trim(id) !in old(rows) then NotFound
                                    else if mutate(old(rows)[Trim(id)]).None? then Rejected else IdMismatch
      ensures rows == Updated(old(rows), id, mutate)
    {
      hide Trim;
      GetRowOfKeyed(rows, id);
      var read := GetRow(rows, id);
      if read.Err? {
        return Err(read.error);
      }
      var written := WriteBack(rows, id, read.value, mutate);
      if written.Err? {
        return Err(written.error);
      }
      assert Trim(id) in rows && rows[Trim(id)].providerId == Trim(id);
      rows := written.value;
      r := Ok(rows[Trim(id)]);
    }

    method Delete(id: string) returns (r: Result<(), StoreError>)
      requires Valid()
      modifies this
      ensures Valid()
      ensures r.Ok? <==> Trim(id) in old(rows)
      ensures r.Err? ==> r.error == if Trim(id) == "" then EmptyId else NotFound
      ensures rows == if r.Ok? then old(rows) - {Trim(id)} else old(rows)
    {
      GetRowOfKeyed(rows, id);
      var read := GetRow(rows, id);
      if read.Err? {
        return Err(read.error);
      }
      rows := rows - {Trim(id)};
      r := Ok(());
    }
  }
}

/** The provider mutations (providers/mutation_runtime.go). */
module ProviderMutations {
  import opened Text
  import opened ProviderModel
  import opened ProviderStore

  function SetDisplayName(name: string): Mutation { (p: Provider) => Some(p.(displayName := name)) }

  function SetModels(models: seq<Model>): Mutation { (p: Provider) => Some(p.(models := models)) }

  /** An unspecified probe kind is refused. */
  function SetProbe(kind: Option<Kind>, state: RunState): Mutation {
    (p: Provider) => if kind.None? then None else Some(Recorded(p, kind.value, state))
  }

  /** A provider without id or surface is not changed by hand. */
  predicate Mutable(p: Provider) { !Blank(p.providerId) && p.surfaceId != "" }

  /** projection is the provider as it was read before the mutation. */
  method Rename(repository: Repository, projection: Provider, name: string) returns (r: Result<Provider, StoreError>)
    requires repository.Valid()
    modifies repository
    ensures repository.Valid()
    ensures r.Ok? <==> projection.surfaceId != "" && !Blank(name) && Trim(projection.providerId) in old(repository.rows)
    ensures var id := Trim(projection.providerId);
            repository.rows == if r.Ok? then old(repository.rows)[id := old(repository.rows)[id].(displayName := Trim(name))]
                               else old(repository.rows)
  {
    hide Trim;
    if !Mutable(projection) || Blank(name) {
      return Err(Invalid);
    }
    var displayName := Trim(name);
    TrimTwice(projection.providerId);
    assert forall p :: SetDisplayName(displayName)(p) == Some(p.(displayName := displayName));
    r := repository.Update(Trim(projection.providerId), SetDisplayName(displayName));
  }

  method Remove(repository: Repository, projection: Provider) returns (r: Result<(), StoreError>)
    requires repository.Valid()
    modifies repository
    ensures repository.Valid()
    ensures r.Ok? <==> projection.surfaceId != "" && Trim(projection.providerId) in old(repository.rows)
    ensures repository.rows == if r.Ok? then old(repository.rows) - {Trim(projection.providerId)} else old(repository.rows)
  {
    hide Trim;
    if !Mutable(projection) {
      return Err(Invalid);
    }
    TrimTwice(projection.providerId);
    r := repository.Delete(Trim(projection.providerId));
  }

  /** valid stands for the provider contract's check of a model list. */
  method ApplyModelCatalog(repository: Repository, id: string, models: seq<Model>, valid: seq<Model> -> bool)
    returns (r: Result<Provider, StoreError>)
    requires repository.Valid()
    modifies repository
    ensures repository.Valid()
    ensures r.Ok? <==> valid(models) && Trim(id) in old(repository.rows)
    ensures repository.rows == if r.Ok? then old(repository.rows)[Trim(id) := old(repository.rows)[Trim(id)].(models := models)]
                               else old(repository.rows)
  {
    if !valid(models) {
      return Err(Invalid);
    }
    assert forall p :: SetModels(models)(p) == Some(p.(models := models));
    r := repository.Update(id, SetModels(models));
  }

  method ApplyProbeStatus(repository: Repository, id: string, kind: Option<Kind>, state: RunState)
    returns (r: Result<Provider, StoreError>)
    requires repository.Valid()
    modifies repository
    ensures repository.Valid()
    ensures r.Ok? <==> kind.Some? && Trim(id) in old(repository.rows)
    ensures repository.rows == if r.Ok? then old(repository.rows)[Trim(id) := Recorded(old(repository.rows)[Trim(id)], kind.value, state)]
                               else old(repository.rows)
  {
    assert forall p :: SetProbe(kind, state)(p) == if kind.None? then None else Some(Recorded(p, kind.value, state));
    r := repository.Update(id, SetProbe(kind, state));
  }
}

/** Clients of the repository whose updates are not atomic: each Update is a read
    followed, any number of other steps later, by a write. */
module ProviderStoreInterleaving {
  import opened Text
  import opened ProviderModel
  import opened ProviderStore
  import opened ProviderMutations

  datatype Client = Resting | Loaded(id: string, read: Provider)

  datatype State = State(rows: Rows, clients: seq<Client>)

  datatype Action =
    | Read(c: nat, id: string)
    | Write(c: nat, mutate: Mutation)
    | Upsert(input: Provider, valid: Provider -> bool)
    | Remove(id: string)

  function Apply(s: State, a: Action): State {
    match a
    case Read(c, id) =>
      var read := GetRow(s.rows, id);
      if c < |s.clients| && read.Ok? then s.(clients := s.clients[c := Loaded(id, read.value)]) else s
    case Write(c, mutate) =>
      if c < |s.clients| && s.clients[c].Loaded? then
        var written := WriteBack(s.rows, s.clients[c].id, s.clients[c].read, mutate);
        State(if written.Ok? then written.value else s.rows, s.clients[c := Resting])
      else s
    case Upsert(input, valid) =>
      var p := NormalizeForWrite(valid, input);
      if p.Ok? then s.(rows := s.rows[p.value.providerId := p.value]) else s
    case Remove(id) => s.(rows := s.rows - {Trim(id)})
  }

  /** The steps that replace or remove a row do what the repository's requests do. */
  lemma WritesAreRequests(s: State, input: Provider, valid: Provider -> bool, id: string)
    ensures var key := Trim(input.providerId); var row := input.(providerId := key);
            Apply(s, Upsert(input, valid)) == s.(rows := if key != "" && valid(row) then s.rows[key := row] else s.rows)
    ensures Apply(s, Remove(id)) == s.(rows := s.rows - {Trim(id)})
  {
    hide Trim;
    NormalizedIsKeyed("", input);
    TrimOfNoSpace("");
  }

  function After(s: State, acts: seq<Action>): State {
    if acts == [] then s else Apply(After(s, acts[..|acts| - 1]), acts[|acts| - 1])
  }

  /** Whatever the callbacks do and however the updates interleave, no row ever
      sits under another provider's key. */
  lemma {:induction false} AlwaysKeyed(s: State, acts: seq<Action>)
    requires Keyed(s.rows)
    ensures Keyed(After(s, acts).rows)
  {
    if acts != [] {
      AlwaysKeyed(s, acts[..|acts| - 1]);
      StepKeyed(After(s, acts[..|acts| - 1]), acts[|acts| - 1]);
    }
  }

  lemma StepKeyed(s: State, a: Action)
    requires Keyed(s.rows)
    ensures Keyed(Apply(s, a).rows)
  {
    hide Trim;
    match a
    case Write(c, mutate) =>
      if c < |s.clients| && s.clients[c].Loaded? {
        var changed := mutate(s.clients[c].read);
        if changed.Some? { NormalizedIsKeyed(s.clients[c].id, changed.value); }
      }
    case Upsert(input, valid) => NormalizedIsKeyed("", input);
    case _ =>
  }

  /** Rows are not protected against lost updates: a rename that overlaps the
      recording of a probe erases the recorded state. */
  lemma OverlappingRenameLosesProbe(s: State, id: string, kind: Kind, state: RunState, name: string)
    returns (acts: seq<Action>, probed: State, renamed: State)
    requires Keyed(s.rows) && id in s.rows && |s.clients| >= 2
    ensures |acts| == 4 && probed == After(s, acts[..3]) && renamed == After(s, acts)
    ensures id in probed.rows && probed.rows[id].Probe(kind) == Some(state)
    ensures id in renamed.rows && renamed.rows[id].Probe(kind) == s.rows[id].Probe(kind)
  {
    var p := s.rows[id];
    var r0, r1 := Read(0, id), Read(1, id);
    var w1, w0 := Write(1, SetProbe(Some(kind), state)), Write(0, SetDisplayName(name));
    acts := [r0, r1, w1, w0];
    AfterFour(s, r0, r1, w1, w0);
    hide Trim, Apply, After;
    ReadStep(s, 0, id);
    var s1 := Apply(s, r0);
    ReadStep(s1, 1, id);
    var s2 := Apply(s1, r1);
    RecordedOnlyItsKind(p, kind, state);
    assert SetProbe(Some(kind), state)(p) == Some(Recorded(p, kind, state));
    WriteStep(s2, 1, SetProbe(Some(kind), state), Recorded(p, kind, state));
    probed := Apply(s2, w1);
    assert SetDisplayName(name)(p) == Some(p.(displayName := name));
    WriteStep(probed, 0, SetDisplayName(name), p.(displayName := name));
    renamed := Apply(probed, w0);
  }

  /** Every update under way addresses a row, as it does from resting clients on: a read of a
      blank id fails. */
  predicate Addressed(s: State) {
    forall d :: 0 <= d < |s.clients| && s.clients[d].Loaded? ==> Trim(s.clients[d].id) != ""
  }

  lemma StepAddressed(s: State, a: Action)
    requires Addressed(s)
    ensures Addressed(Apply(s, a))
  {
    hide Trim;
  }

  /** The step leaves the client and the row alone: it is no step of the client, and it
      neither writes, upserts nor removes the row. */
  predicate LeavesAlone(s: State, a: Action, c: nat, key: string) {
    match a
    case Read(d, _) => d != c
    case Write(d, _) => d != c && (d < |s.clients| && s.clients[d].Loaded? ==> Trim(s.clients[d].id) != key)
    case Upsert(input, _) => Trim(input.providerId) != key
    case Remove(id) => Trim(id) != key
  }

  predicate Undisturbed(s: State, acts: seq<Action>, c: nat, key: string) {
    forall i :: 0 <= i < |acts| ==> LeavesAlone(After(s, acts[..i]), acts[i], c, key)
  }

  /** What one client sees of a row: its own copy and the stored one. */
  predicate SameView(s: State, t: State, c: nat, key: string) {
    && |t.clients| == |s.clients| && (c < |s.clients| ==> t.clients[c] == s.clients[c])
    && (key in s.rows <==> key in t.rows) && (key in s.rows ==> t.rows[key] == s.rows[key])
  }

  lemma StepKeepsView(s: State, a: Action, c: nat, key: string)
    requires Keyed(s.rows) && Addressed(s) && LeavesAlone(s, a, c, key)
    ensures SameView(s, Apply(s, a), c, key)
  {
    hide Trim;
    match a
    case Write(d, mutate) =>
      if d < |s.clients| && s.clients[d].Loaded? {
        WriteTarget(s.rows, s.clients[d].id, s.clients[d].read, mutate);
      }
    case Upsert(input, valid) =>
      NormalizedIsKeyed("", input);
      TrimOfNoSpace("");
    case _ =>
  }

  /** A write back changes no row but the one under the trimmed id, if that is not blank. */
  lemma WriteTarget(rows: Rows, id: string, read: Provider, mutate: Mutation)
    ensures var written := WriteBack(rows, id, read, mutate);
            written.Ok? && Trim(id) != "" ==> Trim(id) in rows && written.value == rows[Trim(id) := written.value[Trim(id)]]
  {
    hide Trim;
    if mutate(read).Some? {
      NormalizedIsKeyed(id, mutate(read).value);
    }
  }

  lemma {:induction false} UndisturbedKeepsView(s: State, acts: seq<Action>, c: nat, key: string)
    requires Keyed(s.rows) && Addressed(s) && Undisturbed(s, acts, c, key)
    ensures Keyed(After(s, acts).rows) && Addressed(After(s, acts)) && SameView(s, After(s, acts), c, key)
  {
    if acts != [] {
      hide Apply, LeavesAlone;
      var n := |acts| - 1;
      forall i | 0 <= i < n ensures LeavesAlone(After(s, acts[..n][..i]), acts[..n][i], c, key) {
        assert acts[..n][..i] == acts[..i];
      }
      UndisturbedKeepsView(s, acts[..n], c, key);
      StepKeyed(After(s, acts[..n]), acts[n]);
      StepAddressed(After(s, acts[..n]), acts[n]);
      StepKeepsView(After(s, acts[..n]), acts[n], c, key);
    }
  }

  /** A split update that nothing disturbs is an atomic one, for every callback: whatever other
      clients do between the read and the write, as long as nobody else writes, upserts or
      removes the row, the write does to the rows exactly what Repository.Update would do to
      them at that moment. */
  lemma UndisturbedUpdateIsAtomic(s: State, c: nat, id: string, acts: seq<Action>, mutate: Mutation)
    requires Keyed(s.rows) && Addressed(s) && c < |s.clients| && Trim(id) in s.rows
    requires Undisturbed(Apply(s, Read(c, id)), acts, c, Trim(id))
    ensures var u := After(Apply(s, Read(c, id)), acts);
            && Trim(id) in u.rows && u.rows[Trim(id)] == s.rows[Trim(id)]
            && Apply(u, Write(c, mutate)).rows == Updated(u.rows, id, mutate)
  {
    hide Trim, Undisturbed, After, Apply;
    ReadLoads(s, c, id);
    StepAddressed(s, Read(c, id));
    var r := Apply(s, Read(c, id));
    UndisturbedKeepsView(r, acts, c, Trim(id));
    var u := After(r, acts);
    WriteOfCurrentRow(u, c, mutate);
  }

  lemma ReadLoads(s: State, c: nat, id: string)
    requires Keyed(s.rows) && c < |s.clients| && Trim(id) in s.rows
    ensures Apply(s, Read(c, id)) == s.(clients := s.clients[c := Loaded(id, s.rows[Trim(id)])])
  {
    hide Trim;
    GetRowOfKeyed(s.rows, id);
  }

  lemma WriteOfCurrentRow(u: State, c: nat, mutate: Mutation)
    requires Keyed(u.rows) && c < |u.clients| && u.clients[c].Loaded?
    requires var key := Trim(u.clients[c].id); key in u.rows && u.rows[key] == u.clients[c].read
    ensures Apply(u, Write(c, mutate)).rows == Updated(u.rows, u.clients[c].id, mutate)
  {
    hide Trim;
    UpdatedIsWriteBack(u.rows, u.clients[c].id, mutate);
  }

  /** Every callback's write is an atomic update exactly when the row, if it is still there, is
      the one that was read. So a disturbed update is atomic only if the row was changed back. */
  lemma SplitUpdateIsAtomicExactly(u: State, c: nat)
    requires Keyed(u.rows) && c < |u.clients| && u.clients[c].Loaded?
    requires u.clients[c].read.providerId == Trim(u.clients[c].id) != ""
    ensures var key := Trim(u.clients[c].id);
            (forall mutate :: Apply(u, Write(c, mutate)).rows == Updated(u.rows, u.clients[c].id, mutate))
            <==> key !in u.rows || u.rows[key] == u.clients[c].read
  {
    hide Trim, Apply, Updated;
    var id, key, read := u.clients[c].id, Trim(u.clients[c].id), u.clients[c].read;
    if key !in u.rows {
      forall mutate: Mutation ensures Apply(u, Write(c, mutate)).rows == Updated(u.rows, id, mutate) {
        WriteOfMissingRow(u, c, mutate);
      }
    } else if u.rows[key] == read {
      forall mutate: Mutation ensures Apply(u, Write(c, mutate)).rows == Updated(u.rows, id, mutate) {
        WriteOfCurrentRow(u, c, mutate);
      }
    } else {
      var same: Mutation := (p: Provider) => Some(p);
      UnchangedWrite(u, c, same);
      assert Apply(u, Write(c, same)).rows != Updated(u.rows, id, same);
    }
  }

  lemma WriteOfMissingRow(u: State, c: nat, mutate: Mutation)
    requires Keyed(u.rows) && c < |u.clients| && u.clients[c].Loaded? && Trim(u.clients[c].id) !in u.rows && Trim(u.clients[c].id) != ""
    ensures Apply(u, Write(c, mutate)).rows == Updated(u.rows, u.clients[c].id, mutate) == u.rows
  {
    hide Trim;
    WriteTarget(u.rows, u.clients[c].id, u.clients[c].read, mutate);
  }

  /** A callback that changes nothing stores what was read, where an atomic update stores what is there. */
  lemma UnchangedWrite(u: State, c: nat, same: Mutation)
    requires Keyed(u.rows) && c < |u.clients| && u.clients[c].Loaded? && (forall p: Provider :: same(p) == Some(p))
    requires var key := Trim(u.clients[c].id); key in u.rows && u.clients[c].read.providerId == key
    ensures var key := Trim(u.clients[c].id);
            && Apply(u, Write(c, same)).rows == u.rows[key := u.clients[c].read]
            && Updated(u.rows, u.clients[c].id, same) == u.rows
  {
    hide Trim;
    TrimTwice(u.clients[c].id);
  }

  lemma ReadStep(s: State, c: nat, id: string)
    requires c < |s.clients| && id in s.rows && id != "" && Trim(id) == id && s.rows[id].providerId == id
    ensures Apply(s, Read(c, id)) == s.(clients := s.clients[c := Loaded(id, s.rows[id])])
  {
    hide Trim;
  }

  lemma WriteStep(s: State, c: nat, mutate: Mutation, changed: Provider)
    requires c < |s.clients| && s.clients[c].Loaded? && mutate(s.clients[c].read) == Some(changed)
    requires var id := s.clients[c].id; id in s.rows && id != "" && Trim(id) == id && changed.providerId == id
    ensures Apply(s, Write(c, mutate)) == State(s.rows[changed.providerId := changed], s.clients[c := Resting])
  {
    hide Trim;
  }

  lemma AfterFour(s: State, a: Action, b: Action, c: Action, d: Action)
    ensures After(s, [a, b, c, d][..3]) == Apply(Apply(Apply(s, a), b), c)
    ensures After(s, [a, b, c, d]) == Apply(Apply(Apply(Apply(s, a), b), c), d)
  {
    hide Apply;
    assert [a, b, c, d][..3] == [a, b, c];
    assert [a, b, c][..2] == [a, b];
    assert [a, b][..1] == [a];
    assert [a][..0] == [];
    assert After(s, []) == s;
    assert After(s, [a]) == Apply(s, a);
    assert After(s, [a, b]) == Apply(Apply(s, a), b);
    assert After(s, [a, b, c]) == Apply(Apply(Apply(s, a), b), c);
  }
}
