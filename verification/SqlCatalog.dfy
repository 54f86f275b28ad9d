/**
 The SQL catalog as objects: a warehouse shared by every client (pointer table, metadata
 files, version hints) and per-client catalogs with a metadata cache. Each call, run
 without interruption, is proved to be the corresponding run of protocol steps.
 */
module SqlCatalog {
  import opened Scalars
  import opened SqlCommit

  datatype Failure = CatalogNotFound | InvalidFormat | CommitConflict | FileNotFound | DuplicateRow

  datatype Result<+T> = Ok(value: T) | Err(failure: Failure)

  class Warehouse {
    var rows: map<Ident, Row>
    var files: map<Loc, Meta>
    var hints: map<(string, string), Loc>
    ghost var written: map<nat, Written>
    ghost var published: set<nat>
    ghost var history: seq<Event>

    constructor ()
      ensures rows == map[] && files == map[] && hints == map[]
      ensures written == map[] && published == {} && history == []
    {
      rows, files, hints := map[], map[], map[];
      written, published, history := map[], {}, [];
    }
  }

  /** The call's steps, each taken as soon as the one before is done. */
  function UpdateSteps(client: Client, id: Ident, commit: Commit, unique: nat, hintOk: bool, deletions: nat): seq<Action> {
    [BeginCommit(0, client, id, commit, unique), PutFile(0), PutHint(0, hintOk), Swap(0)]
      + DeleteSteps(deletions) + [FillCache(0)]
  }

  function DeleteSteps(n: nat): seq<Action> {
    seq(n, _ => DeleteExpired(0, true))
  }

  lemma {:induction false} RunConcat(s: State, first: seq<Action>, second: seq<Action>)
    ensures Run(s, first + second) == Run(Run(s, first), second)
    decreases |first|
  {
    if first == [] {
      assert first + second == second;
    } else {
      assert (first + second)[1..] == first[1..] + second;
      RunConcat(Step(s, first[0]), first[1..], second);
    }
  }

  lemma RunOne(s: State, a: Action)
    ensures Run(s, [a]) == Step(s, a)
  {
    assert [a][1..] == [];
  }

  /** Deleting `files[k..]` one after the other. */
  function DeleteAll(stored: map<Loc, Meta>, expired: seq<Loc>, bucket: string): map<Loc, Meta> {
    if expired == [] then stored else DeleteAll(Without(stored, In(expired[0], bucket)), expired[1..], bucket)
  }

  lemma DeleteStep(s: State, client: Client, id: Ident, store: string, location: Loc, meta: Meta, expired: seq<Loc>)
    requires s.tasks == map[0 := Finishing(client, id, store, location, meta, expired)] && expired != []
    ensures Step(s, DeleteExpired(0, true)) ==
      s.(files := Without(s.files, In(expired[0], store)), tasks := map[0 := Finishing(client, id, store, location, meta, expired[1..])])
  {
  }

  lemma FillStep(s: State, client: Client, id: Ident, store: string, location: Loc, meta: Meta)
    requires s.tasks == map[0 := Finishing(client, id, store, location, meta, [])]
    ensures Run(s, [FillCache(0)]) == s.(tasks := map[], caches := s.caches[(client, id) := Entry(location, meta)])
  {
    RunOne(s, FillCache(0));
  }

  /** The deletion steps of a finishing call, followed by the cache fill. */
  lemma {:induction false} FinishRun(s: State, client: Client, id: Ident, store: string, location: Loc, meta: Meta, expired: seq<Loc>, n: nat)
    requires s.tasks == map[0 := Finishing(client, id, store, location, meta, expired)]
    requires |expired| <= n
    ensures Run(s, DeleteSteps(n) + [FillCache(0)]) ==
      s.(files := DeleteAll(s.files, expired, store), tasks := map[],
         caches := s.caches[(client, id) := Entry(location, meta)])
    decreases n
  {
    var steps := DeleteSteps(n) + [FillCache(0)];
    if n == 0 {
      assert steps == [FillCache(0)];
      FillStep(s, client, id, store, location, meta);
    } else {
      assert steps[1..] == DeleteSteps(n - 1) + [FillCache(0)];
      var next := Step(s, DeleteExpired(0, true));
      if expired == [] {
        assert next == s;
        FinishRun(s, client, id, store, location, meta, [], n - 1);
      } else {
        DeleteStep(s, client, id, store, location, meta, expired);
        FinishRun(next, client, id, store, location, meta, expired[1..], n - 1);
      }
    }
  }

  lemma {:induction false} IdleRun(s: State, n: nat)
    requires s.tasks == map[]
    ensures Run(s, DeleteSteps(n) + [FillCache(0)]) == s
    decreases n
  {
    var steps := DeleteSteps(n) + [FillCache(0)];
    if n == 0 {
      assert steps == [FillCache(0)];
      RunOne(s, FillCache(0));
    } else {
      assert steps[1..] == DeleteSteps(n - 1) + [FillCache(0)];
      IdleRun(s, n - 1);
    }
  }

  function CachesOf(client: Client, cache: map<Ident, Entry>): map<(Client, Ident), Entry> {
    map id | id in cache :: (client, id) := cache[id]
  }

  lemma CachesPut(client: Client, cache: map<Ident, Entry>, id: Ident, entry: Entry)
    ensures CachesOf(client, cache[id := entry]) == CachesOf(client, cache)[(client, id) := entry]
  {
  }

  lemma CachesDrop(client: Client, cache: map<Ident, Entry>, id: Ident)
    ensures CachesOf(client, Without(cache, id)) == Without(CachesOf(client, cache), (client, id))
  {
  }

  class SqlCatalog {
    const client: Client
    const warehouse: Warehouse
    var cache: map<Ident, Entry>

    constructor (client: Client, warehouse: Warehouse)
      ensures this.client == client && this.warehouse == warehouse && cache == map[]
    {
      this.client, this.warehouse, cache := client, warehouse, map[];
    }

    /** The state as this client and the warehouse have it, between calls. */
    ghost function Snapshot(): State
      reads this, warehouse
    {
      State(warehouse.rows, warehouse.files, warehouse.hints,
            CachesOf(client, cache),
            map[], warehouse.written, warehouse.published, warehouse.history)
    }

    /** Moves the pointer only while it still names `previous`; otherwise forgets the cached entry. */
    method SwapMetadataLocation(id: Ident, previous: Loc, location: Loc) returns (result: Result<()>)
      modifies this`cache, warehouse`rows
      ensures result.Ok? <==> id in old(warehouse.rows) && old(warehouse.rows)[id].location == previous
      ensures result.Ok? ==> warehouse.rows == old(warehouse.rows)[id := Row(location, Some(previous))] && cache == old(cache)
      ensures result.Err? ==> result.failure.CommitConflict? && warehouse.rows == old(warehouse.rows) && cache == Without(old(cache), id)
    {
      if id in warehouse.rows && warehouse.rows[id].location == previous {
        warehouse.rows := warehouse.rows[id := Row(location, Some(previous))];
        result := Ok(());
      } else {
        cache := map k | k in cache && k != id :: cache[k];
        result := Err(CommitConflict);
      }
    }

    method DeleteExpiredFiles(expired: seq<Loc>, bucket: string)
      modifies warehouse`files
      ensures warehouse.files == DeleteAll(old(warehouse.files), expired, bucket)
    {
      var rest := expired;
      while rest != []
        invariant DeleteAll(warehouse.files, rest, bucket) == DeleteAll(old(warehouse.files), expired, bucket)
        decreases |rest|
      {
        warehouse.files := Without(warehouse.files, In(rest[0], bucket));
        rest := rest[1..];
      }
    }

    /** Checks the requirements, applies the updates and rolls the metadata log forward. */
    method DraftTable(base: Meta, previous: Loc, commit: Commit) returns (result: Result<Draft>)
      requires commit.kind.Table?
      ensures result.Ok? <==> Supersede(base, previous, commit).Some?
      ensures result.Ok? ==> result.value == Supersede(base, previous, commit).value
      ensures result.Err? ==> result.failure.InvalidFormat?
    {
      if !base.kind.Table? || !commit.check(base.content) {
        return Err(InvalidFormat);
      }
      var updated := commit.update(base.content);
      if updated.None? {
        return Err(InvalidFormat);
      }
      var log := base.log;
      log := log + [LogEntry(previous, base.content.lastUpdatedMs)];
      var expired: seq<Loc> := [];
      var max := PreviousVersionsMax(updated.value);
      if |log| > max {
        var remove := |log| - max;
        expired := Files(log[..remove]);
        log := log[remove..];
      }
      assert log == (base.log + [LogEntry(previous, base.content.lastUpdatedMs)])[|expired|..];
      result := Ok(Draft(Meta(Table, updated.value, log), expired));
    }

    method DraftView(base: Meta, previous: Loc, commit: Commit) returns (result: Result<Draft>)
      requires !commit.kind.Table?
      ensures result.Ok? <==> Supersede(base, previous, commit).Some?
      ensures result.Ok? ==> result.value == Supersede(base, previous, commit).value && result.value.expired == []
      ensures result.Err? ==> result.failure.InvalidFormat?
    {
      if base.kind != commit.kind || !commit.check(base.content) {
        return Err(InvalidFormat);
      }
      var updated := commit.update(base.content);
      if updated.None? {
        return Err(InvalidFormat);
      }
      result := Ok(Draft(Meta(base.kind, updated.value, base.log), []));
    }

    /** Stores a metadata file under a new name and points the version hint at it. */
    method PutMetadata(id: Ident, location: Loc, bucket: string, meta: Meta, hintOk: bool)
      modifies warehouse`files, warehouse`hints, warehouse`written
      ensures warehouse.written == old(warehouse.written)[location.unique := Written(id, location, meta, bucket)]
      ensures warehouse.files == old(warehouse.files)[In(location, bucket) := meta]
      ensures warehouse.hints ==
        if hintOk then old(warehouse.hints)[(bucket, location.dir) := location] else old(warehouse.hints)
    {
      warehouse.written := warehouse.written[location.unique := Written(id, location, meta, bucket)];
      warehouse.files := warehouse.files[In(location, bucket) := meta];
      if hintOk {
        warehouse.hints := warehouse.hints[(bucket, location.dir) := location];
      }
    }

    /** After a won swap: record it, reclaim what aged out, refresh the cache. */
    method FinishCommit(id: Ident, commit: Commit, location: Loc, entry: Entry, draft: Draft)
      modifies this`cache, warehouse`files, warehouse`published, warehouse`history
      ensures Snapshot() == old(Snapshot()).(
        files := DeleteAll(old(warehouse.files), Reclaimed(draft), entry.location.bucket),
        caches := old(Snapshot()).caches[(client, id) := Entry(location, draft.meta)],
        published := old(warehouse.published) + {location.unique},
        history := old(warehouse.history) + [Committed(id, entry.location, entry.meta, commit, location, draft.meta)])
    {
      warehouse.published := warehouse.published + {location.unique};
      warehouse.history := warehouse.history + [Committed(id, entry.location, entry.meta, commit, location, draft.meta)];
      if DeleteAfterCommit(draft.meta.content) {
        DeleteExpiredFiles(draft.expired, entry.location.bucket);
      }
      assert warehouse.files == DeleteAll(old(warehouse.files), Reclaimed(draft), entry.location.bucket);
      ghost var reclaimed := Snapshot();
      assert reclaimed.caches == old(Snapshot()).caches;
      cache := cache[id := Entry(location, draft.meta)];
      CachesPut(client, old(cache), id, Entry(location, draft.meta));
    }

    /** Commits a draft: store it, try to swap, and finish or give up. */
    method CommitDraft(id: Ident, commit: Commit, unique: nat, hintOk: bool, entry: Entry, draft: Draft)
      returns (result: Result<Meta>)
      modifies this`cache, warehouse
      ensures result.Ok? <==> id in old(warehouse.rows) && old(warehouse.rows)[id].location == entry.location
      ensures result.Ok? ==> result.value == draft.meta
      ensures Snapshot() ==
        if result.Ok? then CommittedState(old(Snapshot()), client, id, commit, unique, hintOk, entry, draft)
        else LostState(old(Snapshot()), client, id, unique, hintOk, entry, draft)
    {
      ghost var before := Snapshot();
      var location := NewLocation(draft.meta.content, unique);
      PutMetadata(id, location, entry.location.bucket, draft.meta, hintOk);
      ghost var prepared := Snapshot();
      assert prepared == Prepared(before, id, unique, hintOk, entry, draft);
      var swapped := SwapMetadataLocation(id, entry.location, location);
      if swapped.Err? {
        CachesDrop(client, old(cache), id);
        assert Snapshot() == prepared.(caches := Without(prepared.caches, (client, id)));
        return Err(swapped.failure);
      }
      assert Snapshot() == prepared.(rows := prepared.rows[id := Row(location, Some(entry.location))]);
      FinishCommit(id, commit, location, entry, draft);
      result := Ok(draft.meta);
    }

    method UpdateTable(id: Ident, commit: Commit, unique: nat, hintOk: bool) returns (result: Result<Meta>)
      requires commit.kind.Table?
      requires unique !in warehouse.written
      modifies this`cache, warehouse
      ensures result.Ok? <==> |warehouse.history| == |old(warehouse.history)| + 1
      ensures result.Ok? ==>
        id in warehouse.rows && CachesOf(client, cache) == old(Snapshot()).caches[(client, id) := Entry(warehouse.rows[id].location, result.value)]
      ensures result.Err? ==> warehouse.rows == old(warehouse.rows) && warehouse.history == old(warehouse.history)
      ensures exists n :: Snapshot() == Run(old(Snapshot()), UpdateSteps(client, id, commit, unique, hintOk, n))
    {
      ghost var before := Snapshot();
      if id !in cache {
        UncachedRun(before, client, id, commit, unique, hintOk);
        return Err(InvalidFormat);
      }
      var entry := cache[id];
      assert before.caches[(client, id)] == entry;
      var drafted := DraftTable(entry.meta, entry.location, commit);
      if drafted.Err? {
        UncachedRun(before, client, id, commit, unique, hintOk);
        return Err(drafted.failure);
      }
      var draft := drafted.value;
      result := CommitDraft(id, commit, unique, hintOk, entry, draft);
      if result.Ok? {
        WinningRun(before, client, id, commit, unique, hintOk, entry, draft);
        assert Snapshot() == Run(before, UpdateSteps(client, id, commit, unique, hintOk, |Reclaimed(draft)|));
      } else {
        LosingRun(before, client, id, commit, unique, hintOk, entry, draft);
        assert Snapshot() == Run(before, UpdateSteps(client, id, commit, unique, hintOk, 0));
      }
    }

    /** Views and materialized views: the same protocol, no log and nothing to reclaim. */
    method UpdateView(id: Ident, commit: Commit, unique: nat, hintOk: bool) returns (result: Result<Meta>)
      requires !commit.kind.Table?
      requires unique !in warehouse.written
      modifies this`cache, warehouse
      ensures result.Ok? <==> |warehouse.history| == |old(warehouse.history)| + 1
      ensures result.Ok? ==>
        id in warehouse.rows && CachesOf(client, cache) == old(Snapshot()).caches[(client, id) := Entry(warehouse.rows[id].location, result.value)]
      ensures result.Err? ==> warehouse.rows == old(warehouse.rows) && warehouse.history == old(warehouse.history)
      ensures exists n :: Snapshot() == Run(old(Snapshot()), UpdateSteps(client, id, commit, unique, hintOk, n))
    {
      ghost var before := Snapshot();
      if id !in cache {
        UncachedRun(before, client, id, commit, unique, hintOk);
        return Err(InvalidFormat);
      }
      var entry := cache[id];
      assert before.caches[(client, id)] == entry;
      var drafted := DraftView(entry.meta, entry.location, commit);
      if drafted.Err? {
        UncachedRun(before, client, id, commit, unique, hintOk);
        return Err(drafted.failure);
      }
      var draft := drafted.value;
      result := CommitDraft(id, commit, unique, hintOk, entry, draft);
      if result.Ok? {
        WinningRun(before, client, id, commit, unique, hintOk, entry, draft);
        assert Snapshot() == Run(before, UpdateSteps(client, id, commit, unique, hintOk, |Reclaimed(draft)|));
      } else {
        LosingRun(before, client, id, commit, unique, hintOk, entry, draft);
        assert Snapshot() == Run(before, UpdateSteps(client, id, commit, unique, hintOk, 0));
      }
    }

    method LoadTabular(id: Ident) returns (result: Result<Meta>)
      modifies this`cache
      ensures Snapshot() == Run(old(Snapshot()), [ReadRow(0, client, id), ReadFile(0), FillCache(0)])
      ensures result.Ok? <==>
        id in warehouse.rows && warehouse.rows[id].location in warehouse.files && !warehouse.rows[id].location.gzip
      ensures result.Ok? ==>
        result.value == warehouse.files[warehouse.rows[id].location] &&
        cache == old(cache)[id := Entry(warehouse.rows[id].location, result.value)]
      ensures result.Err? ==> cache == old(cache)
    {
      LoadRun(Snapshot(), client, id);
      if id !in warehouse.rows {
        return Err(CatalogNotFound);
      }
      var path := warehouse.rows[id].location;
      if path !in warehouse.files {
        return Err(FileNotFound);
      }
      if path.gzip {
        return Err(InvalidFormat);
      }
      var metadata := warehouse.files[path];
      cache := cache[id := Entry(path, metadata)];
      CachesPut(client, old(cache), id, Entry(path, metadata));
      result := Ok(metadata);
    }

    /** Enters a new table's pointer, unless the table is already there. */
    method InsertTabularReference(id: Ident, location: Loc, meta: Meta) returns (inserted: bool)
      modifies this`cache, warehouse`rows, warehouse`published, warehouse`history
      ensures inserted <==> id !in old(warehouse.rows)
      ensures Snapshot() ==
        if !inserted then old(Snapshot())
        else old(Snapshot()).(
          rows := old(warehouse.rows)[id := Row(location, None)],
          published := old(warehouse.published) + {location.unique},
          history := old(warehouse.history) + [Created(id, location, meta)],
          caches := old(Snapshot()).caches[(client, id) := Entry(location, meta)])
    {
      if id in warehouse.rows {
        return false;
      }
      warehouse.rows := warehouse.rows[id := Row(location, None)];
      warehouse.published := warehouse.published + {location.unique};
      warehouse.history := warehouse.history + [Created(id, location, meta)];
      cache := cache[id := Entry(location, meta)];
      CachesPut(client, old(cache), id, Entry(location, meta));
      inserted := true;
    }

    method CreateTable(id: Ident, content: Content, unique: nat, hintOk: bool) returns (result: Result<Meta>)
      requires unique !in warehouse.written
      modifies this`cache, warehouse
      ensures Snapshot() == Run(old(Snapshot()),
        [BeginCreate(0, client, id, Table, content, unique), PutFile(0), PutHint(0, hintOk), Insert(0), FillCache(0)])
      ensures result.Ok? <==> id !in old(warehouse.rows)
      ensures result.Ok? ==> result.value == Meta(Table, content, [])
    {
      ghost var before := Snapshot();
      var metadata := Meta(Table, content, []);
      var location := NewLocation(content, unique);
      PutMetadata(id, location, location.bucket, metadata, hintOk);
      ghost var stored := Snapshot();
      assert In(location, location.bucket) == location;
      var inserted := InsertTabularReference(id, location, metadata);
      CreateRun(before, client, id, content, unique, hintOk);
      result := if inserted then Ok(metadata) else Err(DuplicateRow);
    }

    method DropTable(id: Ident)
      modifies warehouse`rows, warehouse`history
      ensures Snapshot() == Run(old(Snapshot()), [Drop(id)])
    {
      RunOne(Snapshot(), Drop(id));
      if id in warehouse.rows {
        warehouse.rows := Without(warehouse.rows, id);
        warehouse.history := warehouse.history + [Dropped(id)];
      }
    }
  }

  // ---- The runs the calls follow ----

  lemma Run4(s: State, a: Action, b: Action, c: Action, d: Action)
    ensures Run(s, [a, b, c, d]) == Step(Step(Step(Step(s, a), b), c), d)
  {
    assert [a, b, c, d] == [a] + ([b] + ([c] + [d]));
    RunConcat(s, [a], [b] + ([c] + [d]));
    RunConcat(Step(s, a), [b], [c] + [d]);
    RunConcat(Step(Step(s, a), b), [c], [d]);
    RunOne(s, a);
    RunOne(Step(s, a), b);
    RunOne(Step(Step(s, a), b), c);
    RunOne(Step(Step(Step(s, a), b), c), d);
  }

  lemma UpdateRunSplits(s: State, client: Client, id: Ident, commit: Commit, unique: nat, hintOk: bool, n: nat)
    ensures
      var hinted := Step(Step(Step(s, BeginCommit(0, client, id, commit, unique)), PutFile(0)), PutHint(0, hintOk));
      Run(s, UpdateSteps(client, id, commit, unique, hintOk, n)) ==
      Run(Step(hinted, Swap(0)), DeleteSteps(n) + [FillCache(0)])
  {
    var first := [BeginCommit(0, client, id, commit, unique), PutFile(0), PutHint(0, hintOk), Swap(0)];
    assert UpdateSteps(client, id, commit, unique, hintOk, n) == first + (DeleteSteps(n) + [FillCache(0)]);
    RunConcat(s, first, DeleteSteps(n) + [FillCache(0)]);
    Run4(s, first[0], first[1], first[2], first[3]);
  }

  lemma UncachedRun(s: State, client: Client, id: Ident, commit: Commit, unique: nat, hintOk: bool)
    requires s.tasks == map[]
    requires (client, id) !in s.caches || Supersede(s.caches[(client, id)].meta, s.caches[(client, id)].location, commit).None?
    ensures Run(s, UpdateSteps(client, id, commit, unique, hintOk, 0)) == s
  {
    UpdateRunSplits(s, client, id, commit, unique, hintOk, 0);
    IdleRun(s, 0);
  }

  /** The client has the table cached and the commit goes through on the cached metadata. */
  ghost predicate Drafts(s: State, client: Client, id: Ident, commit: Commit, unique: nat, entry: Entry, draft: Draft) {
    && s.tasks == map[] && unique !in s.written
    && (client, id) in s.caches && s.caches[(client, id)] == entry
    && Supersede(entry.meta, entry.location, commit) == Some(draft)
  }

  function CommitTask(client: Client, id: Ident, commit: Commit, unique: nat, entry: Entry, draft: Draft, stage: Stage): Task {
    Committing(client, id, entry.location, entry.meta, commit, NewLocation(draft.meta.content, unique), draft, stage)
  }

  /** The effect of an update call up to its swap, apart from the call itself. */
  function Prepared(s: State, id: Ident, unique: nat, hintOk: bool, entry: Entry, draft: Draft): State {
    var location, bucket := NewLocation(draft.meta.content, unique), entry.location.bucket;
    s.(written := s.written[unique := Written(id, location, draft.meta, bucket)],
       files := s.files[In(location, bucket) := draft.meta],
       hints := if hintOk then s.hints[(bucket, location.dir) := location] else s.hints)
  }

  lemma BegunState(s: State, client: Client, id: Ident, commit: Commit, unique: nat, entry: Entry, draft: Draft)
    requires Drafts(s, client, id, commit, unique, entry, draft)
    ensures Step(s, BeginCommit(0, client, id, commit, unique)) ==
      s.(tasks := map[0 := CommitTask(client, id, commit, unique, entry, draft, Drafted)],
         written := s.written[unique := Written(id, NewLocation(draft.meta.content, unique), draft.meta, entry.location.bucket)])
  {
  }

  lemma PutSteps(s: State, task: Task, hintOk: bool)
    requires Drafting(task) && task.stage.Drafted? && s.tasks == map[0 := task]
    ensures
      Step(Step(s, PutFile(0)), PutHint(0, hintOk)) ==
      s.(tasks := map[0 := task.(stage := Hinted)],
         files := s.files[In(task.location, StoreOf(task)) := MetaOf(task)],
         hints := if hintOk then s.hints[(StoreOf(task), task.location.dir) := task.location] else s.hints)
  {
    PutFileStep(s, task);
    PutHintStep(Step(s, PutFile(0)), task.(stage := Stored), hintOk);
  }

  lemma PutFileStep(s: State, task: Task)
    requires Drafting(task) && task.stage.Drafted? && s.tasks == map[0 := task]
    ensures Step(s, PutFile(0)) ==
      s.(tasks := map[0 := task.(stage := Stored)], files := s.files[In(task.location, StoreOf(task)) := MetaOf(task)])
  {
  }

  lemma PutHintStep(s: State, task: Task, hintOk: bool)
    requires Drafting(task) && task.stage.Stored? && s.tasks == map[0 := task]
    ensures Step(s, PutHint(0, hintOk)) ==
      s.(tasks := map[0 := task.(stage := Hinted)],
         hints := if hintOk then s.hints[(StoreOf(task), task.location.dir) := task.location] else s.hints)
  {
  }

  lemma HintedState(s: State, client: Client, id: Ident, commit: Commit, unique: nat, hintOk: bool, entry: Entry, draft: Draft)
    requires Drafts(s, client, id, commit, unique, entry, draft)
    ensures
      Step(Step(Step(s, BeginCommit(0, client, id, commit, unique)), PutFile(0)), PutHint(0, hintOk)) ==
      Prepared(s, id, unique, hintOk, entry, draft).(tasks := map[0 := CommitTask(client, id, commit, unique, entry, draft, Hinted)])
  {
    BegunState(s, client, id, commit, unique, entry, draft);
    PutSteps(Step(s, BeginCommit(0, client, id, commit, unique)), CommitTask(client, id, commit, unique, entry, draft, Drafted), hintOk);
  }

  lemma LosingRun(s: State, client: Client, id: Ident, commit: Commit, unique: nat, hintOk: bool, entry: Entry, draft: Draft)
    requires Drafts(s, client, id, commit, unique, entry, draft)
    requires id !in s.rows || s.rows[id].location != entry.location
    ensures
      Run(s, UpdateSteps(client, id, commit, unique, hintOk, 0)) ==
      LostState(s, client, id, unique, hintOk, entry, draft)
  {
    UpdateRunSplits(s, client, id, commit, unique, hintOk, 0);
    HintedState(s, client, id, commit, unique, hintOk, entry, draft);
    var task := CommitTask(client, id, commit, unique, entry, draft, Hinted);
    var hinted := Prepared(s, id, unique, hintOk, entry, draft).(tasks := map[0 := task]);
    LosingSwap(hinted, task);
    IdleRun(Step(hinted, Swap(0)), 0);
  }

  lemma LosingSwap(s: State, task: Task)
    requires task.Committing? && task.stage.Hinted? && s.tasks == map[0 := task]
    requires task.id !in s.rows || s.rows[task.id].location != task.previous
    ensures Step(s, Swap(0)) == s.(caches := Without(s.caches, (task.client, task.id)), tasks := map[])
  {
    assert Without(s.tasks, 0) == map[];
  }

  function Reclaimed(draft: Draft): seq<Loc> {
    if DeleteAfterCommit(draft.meta.content) then draft.expired else []
  }

  lemma WinningSwap(s: State, task: Task)
    requires task.Committing? && task.stage.Hinted? && s.tasks == map[0 := task]
    requires task.id in s.rows && s.rows[task.id].location == task.previous
    ensures
      Step(s, Swap(0)) ==
      s.(rows := s.rows[task.id := Row(task.location, Some(task.previous))],
         tasks := map[0 := Finishing(task.client, task.id, task.previous.bucket, task.location, task.draft.meta, Reclaimed(task.draft))],
         published := s.published + {task.location.unique},
         history := s.history + [Committed(task.id, task.previous, task.base, task.commit, task.location, task.draft.meta)])
  {
  }

  /** The effect of a losing update call: an orphan file, perhaps its hint, one cache entry less. */
  function LostState(s: State, client: Client, id: Ident, unique: nat, hintOk: bool, entry: Entry, draft: Draft): State {
    Prepared(s, id, unique, hintOk, entry, draft).(caches := Without(s.caches, (client, id)))
  }

  /** The effect of a winning update call. */
  function CommittedState(s: State, client: Client, id: Ident, commit: Commit, unique: nat, hintOk: bool, entry: Entry, draft: Draft): State {
    var location := NewLocation(draft.meta.content, unique);
    var prepared := Prepared(s, id, unique, hintOk, entry, draft);
    prepared.(
      rows := s.rows[id := Row(location, Some(entry.location))],
      files := DeleteAll(prepared.files, Reclaimed(draft), entry.location.bucket),
      caches := s.caches[(client, id) := Entry(location, draft.meta)],
      published := s.published + {unique},
      history := s.history + [Committed(id, entry.location, entry.meta, commit, location, draft.meta)])
  }

  lemma WinningRun(s: State, client: Client, id: Ident, commit: Commit, unique: nat, hintOk: bool, entry: Entry, draft: Draft)
    requires Drafts(s, client, id, commit, unique, entry, draft)
    requires id in s.rows && s.rows[id].location == entry.location
    ensures
      Run(s, UpdateSteps(client, id, commit, unique, hintOk, |Reclaimed(draft)|)) ==
      CommittedState(s, client, id, commit, unique, hintOk, entry, draft)
  {
    var n := |Reclaimed(draft)|;
    UpdateRunSplits(s, client, id, commit, unique, hintOk, n);
    HintedState(s, client, id, commit, unique, hintOk, entry, draft);
    var task := CommitTask(client, id, commit, unique, entry, draft, Hinted);
    var hinted := Prepared(s, id, unique, hintOk, entry, draft).(tasks := map[0 := task]);
    WinningSwap(hinted, task);
    FinishRun(Step(hinted, Swap(0)), client, id, entry.location.bucket, task.location, draft.meta, Reclaimed(draft), n);
  }

  lemma LoadRun(s: State, client: Client, id: Ident)
    requires s.tasks == map[]
    ensures Run(s, [ReadRow(0, client, id), ReadFile(0), FillCache(0)]) ==
      if id in s.rows && s.rows[id].location in s.files && !s.rows[id].location.gzip
      then s.(caches := s.caches[(client, id) := Entry(s.rows[id].location, s.files[s.rows[id].location])])
      else s
  {
    RunThree(s, ReadRow(0, client, id), ReadFile(0), FillCache(0));
    if id in s.rows {
      var read := Step(s, ReadRow(0, client, id));
      assert read == s.(tasks := map[0 := Loading(client, id, s.rows[id].location)]);
      LoadSteps(read, client, id, s.rows[id].location);
    }
  }

  lemma RunThree(s: State, a: Action, b: Action, c: Action)
    ensures Run(s, [a, b, c]) == Step(Step(Step(s, a), b), c)
  {
    assert [a, b, c][1..] == [b, c] && [b, c][1..] == [c];
    RunOne(Step(Step(s, a), b), c);
    assert Run(Step(s, a), [b, c]) == Run(Step(Step(s, a), b), [c]);
  }

  lemma LoadSteps(s: State, client: Client, id: Ident, at: Loc)
    requires s.tasks == map[0 := Loading(client, id, at)]
    ensures
      Step(Step(s, ReadFile(0)), FillCache(0)) ==
      if at in s.files && !at.gzip
      then s.(tasks := map[], caches := s.caches[(client, id) := Entry(at, s.files[at])])
      else s.(tasks := map[])
  {
    var parsed := Step(s, ReadFile(0));
    if at in s.files && !at.gzip {
      assert parsed.tasks == map[0 := Finishing(client, id, at.bucket, at, s.files[at], [])];
    } else {
      assert parsed.tasks == map[];
    }
  }

  lemma CreateInsertRun(s: State, client: Client, id: Ident, location: Loc, meta: Meta)
    requires s.tasks == map[0 := Creating(client, id, location, meta, Hinted)]
    ensures
      Step(Step(s, Insert(0)), FillCache(0)) ==
      if id in s.rows then s.(tasks := map[])
      else s.(tasks := map[], rows := s.rows[id := Row(location, None)], published := s.published + {location.unique},
              history := s.history + [Created(id, location, meta)],
              caches := s.caches[(client, id) := Entry(location, meta)])
  {
    var inserted := Step(s, Insert(0));
    if id in s.rows {
      assert inserted == s.(tasks := map[]);
    } else {
      assert inserted.tasks == map[0 := Finishing(client, id, location.bucket, location, meta, [])];
    }
  }

  /** The effect of a creation call; with the row already there, only the stored file remains of it. */
  function CreatedState(s: State, client: Client, id: Ident, content: Content, unique: nat, hintOk: bool): State {
    var location, meta := NewLocation(content, unique), Meta(Table, content, []);
    var stored := s.(written := s.written[unique := Written(id, location, meta, location.bucket)],
                     files := s.files[location := meta],
                     hints := if hintOk then s.hints[(location.bucket, location.dir) := location] else s.hints);
    if id in s.rows then stored
    else stored.(rows := s.rows[id := Row(location, None)], published := s.published + {unique},
                 history := s.history + [Created(id, location, meta)],
                 caches := s.caches[(client, id) := Entry(location, meta)])
  }

  lemma CreateRun(s: State, client: Client, id: Ident, content: Content, unique: nat, hintOk: bool)
    requires s.tasks == map[] && unique !in s.written
    ensures
      Run(s, [BeginCreate(0, client, id, Table, content, unique), PutFile(0), PutHint(0, hintOk), Insert(0), FillCache(0)]) ==
      CreatedState(s, client, id, content, unique, hintOk)
  {
    var steps := [BeginCreate(0, client, id, Table, content, unique), PutFile(0), PutHint(0, hintOk), Insert(0), FillCache(0)];
    var location, meta := NewLocation(content, unique), Meta(Table, content, []);
    assert steps == [steps[0], steps[1], steps[2], steps[3]] + [steps[4]];
    RunConcat(s, [steps[0], steps[1], steps[2], steps[3]], [steps[4]]);
    Run4(s, steps[0], steps[1], steps[2], steps[3]);
    var s1 := Step(s, steps[0]);
    assert s1 == s.(tasks := map[0 := Creating(client, id, location, meta, Drafted)],
                    written := s.written[unique := Written(id, location, meta, location.bucket)]);
    PutSteps(s1, Creating(client, id, location, meta, Drafted), hintOk);
    var s3 := Step(Step(s1, PutFile(0)), PutHint(0, hintOk));
    CreateInsertRun(s3, client, id, location, meta);
    RunOne(Step(s3, Insert(0)), FillCache(0));
  }
}
