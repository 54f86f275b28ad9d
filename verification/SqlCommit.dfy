/**
 The commit protocol of the SQL catalog as a step system: any number of clients, each
 with its own cache, over one table of metadata pointers and one store of immutable
 metadata files. Every await point of the source is a step boundary, so steps of
 different calls interleave freely and any call may stop between two of its steps.
 */
module SqlCommit {
  import opened Scalars
  import opened Numerals

  type Ident = string
  type Client = nat
  type TaskId = nat

  /** Address of a metadata file. The number stands for the random part of its name. */
  datatype Loc = Loc(bucket: string, dir: string, unique: nat, gzip: bool)

  datatype Kind = Table | View | MaterializedView

  /** What requirements look at and updates change; the metadata log is not part of it. */
  datatype Content = Content(
    bucket: string, dir: string, gzip: bool,
    properties: map<string, string>, lastUpdatedMs: int, body: int)

  datatype LogEntry = LogEntry(file: Loc, timestampMs: int)

  datatype Meta = Meta(kind: Kind, content: Content, log: seq<LogEntry>)

  datatype Commit = Commit(kind: Kind, check: Content -> bool, update: Content -> Option<Content>)

  datatype Row = Row(location: Loc, previous: Option<Loc>)

  datatype Entry = Entry(location: Loc, meta: Meta)

  function NewLocation(content: Content, unique: nat): Loc {
    Loc(content.bucket, content.dir, unique, content.gzip)
  }

  function DeleteAfterCommit(content: Content): bool {
    var key := "write.metadata.delete-after-commit.enabled";
    key in content.properties && content.properties[key] == "true"
  }

  function PreviousVersionsMax(content: Content): nat {
    var key := "write.metadata.previous-versions-max";
    if key in content.properties && ParseUnsigned(content.properties[key]).Some?
    then ParseUnsigned(content.properties[key]).value else 100
  }

  function Files(log: seq<LogEntry>): (files: seq<Loc>)
    ensures |files| == |log|
  {
    seq(|log|, i requires 0 <= i < |log| => log[i].file)
  }

  datatype Draft = Draft(meta: Meta, expired: seq<Loc>)

  /** The metadata a commit writes over `base`, and the log entries that age out. */
  function Supersede(base: Meta, location: Loc, commit: Commit): Option<Draft> {
    if commit.kind != base.kind || !commit.check(base.content) then None
    else
      match commit.update(base.content)
      case None => None
      case Some(content) =>
        if base.kind.Table? then
          var log := base.log + [LogEntry(location, base.content.lastUpdatedMs)];
          var excess := if |log| > PreviousVersionsMax(content) then |log| - PreviousVersionsMax(content) else 0;
          Some(Draft(Meta(Table, content, log[excess..]), Files(log[..excess])))
        else Some(Draft(Meta(base.kind, content, base.log), []))
  }

  datatype Stage = Drafted | Stored | Hinted

  /** A call between two of its await points. */
  datatype Task =
    | Loading(client: Client, id: Ident, location: Loc)
    | Creating(client: Client, id: Ident, location: Loc, meta: Meta, stage: Stage)
    | Committing(client: Client, id: Ident, previous: Loc, base: Meta, commit: Commit,
                 location: Loc, draft: Draft, stage: Stage)
    | Finishing(client: Client, id: Ident, store: string, location: Loc, meta: Meta, expired: seq<Loc>)

  datatype Event =
    | Created(id: Ident, location: Loc, meta: Meta)
    | Committed(id: Ident, previous: Loc, base: Meta, commit: Commit, location: Loc, meta: Meta)
    | Dropped(id: Ident)

  /** Who wrote a metadata file, with what, and into which bucket. */
  datatype Written = Written(id: Ident, location: Loc, meta: Meta, store: string)

  /**
   `written`, `published` and `history` only record what happened: every file ever
   drafted, the ones a pointer was moved to, and the successful operations in order.
   */
  datatype State = State(
    rows: map<Ident, Row>,
    files: map<Loc, Meta>,
    hints: map<(string, string), Loc>,
    caches: map<(Client, Ident), Entry>,
    tasks: map<TaskId, Task>,
    written: map<nat, Written>,
    published: set<nat>,
    history: seq<Event>)

  const EMPTY: State := State(map[], map[], map[], map[], map[], map[], {}, [])

  /** The file as the store of another bucket holds it. */
  function In(location: Loc, bucket: string): Loc {
    location.(bucket := bucket)
  }

  datatype Action =
    | ReadRow(t: TaskId, client: Client, id: Ident)
    | ReadFile(t: TaskId)
    | BeginCreate(t: TaskId, client: Client, id: Ident, kind: Kind, content: Content, unique: nat)
    | Insert(t: TaskId)
    | BeginCommit(t: TaskId, client: Client, id: Ident, commit: Commit, unique: nat)
    | PutFile(t: TaskId)
    | PutHint(t: TaskId, ok: bool)
    | Swap(t: TaskId)
    | DeleteExpired(t: TaskId, ok: bool)
    | FillCache(t: TaskId)
    | Drop(id: Ident)
    | Abort(t: TaskId)

  function Without<K, V>(m: map<K, V>, key: K): map<K, V> {
    map k | k in m && k != key :: m[k]
  }

  function StoreOf(task: Task): string
    requires task.Creating? || task.Committing?
  {
    if task.Creating? then task.location.bucket else task.previous.bucket
  }

  function StepReadFile(s: State, t: TaskId, task: Task): State
    requires task.Loading?
  {
    // A compressed file does not parse: the reader does not decompress it.
    if task.location !in s.files || task.location.gzip then s.(tasks := Without(s.tasks, t))
    else
      s.(tasks := s.tasks[t := Finishing(task.client, task.id, task.location.bucket, task.location,
                                         s.files[task.location], [])])
  }

  function StepInsert(s: State, t: TaskId, task: Task): State
    requires task.Creating?
  {
    if task.id in s.rows then s.(tasks := Without(s.tasks, t))
    else
      s.(rows := s.rows[task.id := Row(task.location, None)],
         tasks := s.tasks[t := Finishing(task.client, task.id, task.location.bucket, task.location, task.meta, [])],
         published := s.published + {task.location.unique},
         history := s.history + [Created(task.id, task.location, task.meta)])
  }

  function StepBeginCommit(s: State, t: TaskId, client: Client, id: Ident, commit: Commit, unique: nat): State {
    if (client, id) !in s.caches then s
    else
      var entry := s.caches[(client, id)];
      match Supersede(entry.meta, entry.location, commit)
      case None => s
      case Some(draft) =>
        var location := NewLocation(draft.meta.content, unique);
        s.(tasks := s.tasks[t := Committing(client, id, entry.location, entry.meta, commit, location, draft, Drafted)],
           written := s.written[unique := Written(id, location, draft.meta, entry.location.bucket)])
  }

  function MetaOf(task: Task): Meta
    requires task.Creating? || task.Committing?
  {
    if task.Creating? then task.meta else task.draft.meta
  }

  function StepSwap(s: State, t: TaskId, task: Task): State
    requires task.Committing?
  {
    if task.id in s.rows && s.rows[task.id].location == task.previous then
      s.(rows := s.rows[task.id := Row(task.location, Some(task.previous))],
         tasks := s.tasks[t := Finishing(task.client, task.id, task.previous.bucket, task.location, task.draft.meta,
                              if DeleteAfterCommit(task.draft.meta.content) then task.draft.expired else [])],
         published := s.published + {task.location.unique},
         history := s.history + [Committed(task.id, task.previous, task.base, task.commit, task.location, task.draft.meta)])
    else
      s.(caches := Without(s.caches, (task.client, task.id)), tasks := Without(s.tasks, t))
  }

  /** One atomic step; an action whose turn has not come changes nothing. */
  function Step(s: State, a: Action): State {
    match a
    case ReadRow(t, client, id) =>
      if t in s.tasks || id !in s.rows then s
      else s.(tasks := s.tasks[t := Loading(client, id, s.rows[id].location)])
    case BeginCreate(t, client, id, kind, content, unique) =>
      if t in s.tasks || unique in s.written then s
      else
        var location, meta := NewLocation(content, unique), Meta(kind, content, []);
        s.(tasks := s.tasks[t := Creating(client, id, location, meta, Drafted)],
           written := s.written[unique := Written(id, location, meta, location.bucket)])
    case BeginCommit(t, client, id, commit, unique) =>
      if t in s.tasks || unique in s.written then s else StepBeginCommit(s, t, client, id, commit, unique)
    case Drop(id) =>
      if id in s.rows then s.(rows := Without(s.rows, id), history := s.history + [Dropped(id)]) else s
    case Abort(t) => s.(tasks := Without(s.tasks, t))
    case ReadFile(t) =>
      if t in s.tasks && s.tasks[t].Loading? then StepReadFile(s, t, s.tasks[t]) else s
    case PutFile(t) =>
      if t in s.tasks && (s.tasks[t].Creating? || s.tasks[t].Committing?) && s.tasks[t].stage.Drafted? then
        var task := s.tasks[t];
        s.(files := s.files[In(task.location, StoreOf(task)) := MetaOf(task)],
           tasks := s.tasks[t := task.(stage := Stored)])
      else s
    case PutHint(t, ok) =>
      if t in s.tasks && (s.tasks[t].Creating? || s.tasks[t].Committing?) && s.tasks[t].stage.Stored? then
        var task := s.tasks[t];
        s.(hints := if ok then s.hints[(StoreOf(task), task.location.dir) := task.location] else s.hints,
           tasks := s.tasks[t := task.(stage := Hinted)])
      else s
    case Insert(t) =>
      if t in s.tasks && s.tasks[t].Creating? && s.tasks[t].stage.Hinted? then StepInsert(s, t, s.tasks[t]) else s
    case Swap(t) =>
      if t in s.tasks && s.tasks[t].Committing? && s.tasks[t].stage.Hinted? then StepSwap(s, t, s.tasks[t]) else s
    case DeleteExpired(t, ok) =>
      if t in s.tasks && s.tasks[t].Finishing? && s.tasks[t].expired != [] then
        var task := s.tasks[t];
        s.(files := if ok then Without(s.files, In(task.expired[0], task.store)) else s.files,
           tasks := s.tasks[t := task.(expired := task.expired[1..])])
      else s
    case FillCache(t) =>
      if t in s.tasks && s.tasks[t].Finishing? && s.tasks[t].expired == [] then
        var task := s.tasks[t];
        s.(caches := s.caches[(task.client, task.id) := Entry(task.location, task.meta)],
           tasks := Without(s.tasks, t))
      else s
  }

  function Run(s: State, actions: seq<Action>): State
    decreases |actions|
  {
    if actions == [] then s else Run(Step(s, actions[0]), actions[1..])
  }

  // ---- The pointer history ----

  /** Pointer, metadata and superseded files of one table after a history. */
  datatype Current = Current(location: Loc, meta: Meta, superseded: seq<Loc>)

  function CurrentOf(history: seq<Event>, id: Ident): Option<Current> {
    if history == [] then None
    else
      var before := CurrentOf(history[..|history| - 1], id);
      var last := history[|history| - 1];
      if last.id != id then before
      else
        match last
        case Created(_, location, meta) => Some(Current(location, meta, []))
        case Dropped(_) => None
        case Committed(_, previous, _, _, location, meta) =>
          Some(Current(location, meta, (if before.Some? then before.value.superseded else []) + [previous]))
  }

  /** The event is a legal next operation on the table it names. */
  ghost predicate Legal(history: seq<Event>, e: Event) {
    var now := CurrentOf(history, e.id);
    match e
    case Created(_, _, meta) => now.None? && meta.log == []
    case Dropped(_) => now.Some?
    case Committed(_, previous, base, commit, location, meta) =>
      && now.Some? && now.value.location == previous && now.value.meta == base
      && commit.check(base.content)
      && commit.update(base.content) == Some(meta.content)
      && Supersede(base, previous, commit).Some?
      && meta == Supersede(base, previous, commit).value.meta
      && location != previous
  }

  /** Each success applies its updates to exactly the metadata the one before it left. */
  ghost predicate Serial(history: seq<Event>) {
    forall i :: 0 <= i < |history| ==> Legal(history[..i], history[i])
  }

  // ---- Invariant ----

  type Ledger = map<nat, Written>

  ghost predicate WrittenBy(w: Ledger, id: Ident, location: Loc, meta: Meta) {
    && location.unique in w
    && w[location.unique].id == id && w[location.unique].location == location
    && w[location.unique].meta == meta
  }

  ghost predicate PublishedFor(w: Ledger, published: set<nat>, id: Ident, location: Loc) {
    && location.unique in published && location.unique in w
    && w[location.unique].id == id && w[location.unique].location == location
  }

  ghost predicate LogSound(w: Ledger, published: set<nat>, unique: nat)
    requires unique in w
  {
    var log := w[unique].meta.log;
    && (forall i :: 0 <= i < |log| ==>
          PublishedFor(w, published, w[unique].id, log[i].file) && log[i].file.unique != unique)
    && (forall i, j :: 0 <= i < j < |log| ==> log[i].file.unique != log[j].file.unique)
  }

  ghost predicate WrittenSound(w: Ledger, published: set<nat>) {
    && published <= w.Keys
    && (forall u :: u in w ==> w[u].location.unique == u && LogSound(w, published, u))
  }

  /** Every stored file is as it was first written. */
  ghost predicate FilesSound(files: map<Loc, Meta>, w: Ledger) {
    forall f :: f in files ==>
      && f.unique in w
      && f == In(w[f.unique].location, w[f.unique].store)
      && files[f] == w[f.unique].meta
  }

  ghost predicate CachesSound(caches: map<(Client, Ident), Entry>, w: Ledger, published: set<nat>) {
    forall k :: k in caches ==>
      WrittenBy(w, k.1, caches[k].location, caches[k].meta) && caches[k].location.unique in published
  }

  /** The files a pointer makes reachable: the metadata file it names and those in its log. */
  ghost predicate ReachableFrom(w: Ledger, head: Loc, f: Loc) {
    f == head || (head.unique in w && f in Files(w[head.unique].meta.log))
  }

  ghost predicate Reachable(rows: map<Ident, Row>, w: Ledger, f: Loc) {
    exists id :: id in rows && ReachableFrom(w, rows[id].location, f)
  }

  ghost predicate Survives(files: map<Loc, Meta>, w: Ledger, f: Loc) {
    f.unique in w && In(f, w[f.unique].store) in files
  }

  ghost predicate RowsSound(rows: map<Ident, Row>, files: map<Loc, Meta>, w: Ledger, published: set<nat>) {
    && (forall id :: id in rows ==> PublishedFor(w, published, id, rows[id].location))
    && (forall f :: Reachable(rows, w, f) ==> Survives(files, w, f))
  }

  /** The bucket a successful operation put its file into. */
  function StoreUsed(e: Event): string
    requires !e.Dropped?
  {
    if e.Created? then e.location.bucket else e.previous.bucket
  }

  ghost predicate EventSound(e: Event, w: Ledger) {
    !e.Dropped? ==> WrittenBy(w, e.id, e.location, e.meta) && w[e.location.unique].store == StoreUsed(e)
  }

  ghost predicate WonBy(history: seq<Event>, unique: nat) {
    exists i :: 0 <= i < |history| && !history[i].Dropped? && history[i].location.unique == unique
  }

  ghost predicate HistorySound(history: seq<Event>, rows: map<Ident, Row>, w: Ledger, published: set<nat>) {
    && Serial(history)
    && (forall i :: 0 <= i < |history| ==> EventSound(history[i], w))
    && (forall u :: u in published ==> WonBy(history, u))
    && (forall id :: id in rows <==> CurrentOf(history, id).Some?)
    && (forall id :: id in rows ==>
          CurrentOf(history, id).value.location == rows[id].location &&
          WrittenBy(w, id, rows[id].location, CurrentOf(history, id).value.meta))
  }

  ghost predicate TaskSound(task: Task, rows: map<Ident, Row>, files: map<Loc, Meta>, w: Ledger, published: set<nat>) {
    match task
    case Loading(_, id, location) => PublishedFor(w, published, id, location)
    case Creating(_, id, location, meta, stage) =>
      && WrittenBy(w, id, location, meta) && meta.log == []
      && location.unique !in published
      && w[location.unique].store == location.bucket
      && (!stage.Drafted? ==> location in files)
    case Committing(_, id, previous, base, commit, location, draft, stage) =>
      && WrittenBy(w, id, previous, base) && previous.unique in published
      && WrittenBy(w, id, location, draft.meta)
      && location.unique !in published
      && w[location.unique].store == previous.bucket
      && Supersede(base, previous, commit) == Some(draft)
      && (!stage.Drafted? ==> In(location, previous.bucket) in files)
    case Finishing(_, id, _, location, meta, expired) =>
      && WrittenBy(w, id, location, meta) && location.unique in published
      && (forall f :: f in expired ==> PublishedFor(w, published, id, f) && !Reachable(rows, w, f))
  }

  /** Two calls still drafting never write the same file. */
  ghost predicate Apart(a: Task, b: Task) {
    (a.Creating? || a.Committing?) && (b.Creating? || b.Committing?) ==> a.location.unique != b.location.unique
  }

  ghost predicate TasksSound(tasks: map<TaskId, Task>, rows: map<Ident, Row>, files: map<Loc, Meta>, w: Ledger, published: set<nat>) {
    && (forall t :: t in tasks ==> TaskSound(tasks[t], rows, files, w, published))
    && (forall t, u :: t in tasks && u in tasks && t != u ==> Apart(tasks[t], tasks[u]))
  }

  ghost predicate Core(s: State) {
    && WrittenSound(s.written, s.published)
    && FilesSound(s.files, s.written)
    && CachesSound(s.caches, s.written, s.published)
    && RowsSound(s.rows, s.files, s.written, s.published)
    && TasksSound(s.tasks, s.rows, s.files, s.written, s.published)
  }

  ghost predicate Inv(s: State) {
    Core(s) && HistorySound(s.history, s.rows, s.written, s.published)
  }

  // ---- Steps that start a draft ----

  /** A new draft's file has a name no one has used. */
  ghost predicate AddsDraft(w: Ledger, w': Ledger, unique: nat, draft: Written) {
    unique !in w && w' == w[unique := draft] && draft.location.unique == unique
  }

  lemma ReachUnaffected(rows: map<Ident, Row>, files: map<Loc, Meta>, w: Ledger, w': Ledger, published: set<nat>, unique: nat, draft: Written)
    requires AddsDraft(w, w', unique, draft)
    requires RowsSound(rows, files, w, published)
    ensures forall f :: Reachable(rows, w', f) <==> Reachable(rows, w, f)
  {
    forall f, id | id in rows ensures ReachableFrom(w', rows[id].location, f) <==> ReachableFrom(w, rows[id].location, f) {
      assert PublishedFor(w, published, id, rows[id].location);
    }
  }

  lemma DraftKeepsRest(s: State, w': Ledger, unique: nat, draft: Written)
    requires Core(s) && AddsDraft(s.written, w', unique, draft)
    ensures FilesSound(s.files, w')
    ensures CachesSound(s.caches, w', s.published)
    ensures RowsSound(s.rows, s.files, w', s.published)
  {
    ReachUnaffected(s.rows, s.files, s.written, w', s.published, unique, draft);
    forall id | id in s.rows ensures PublishedFor(w', s.published, id, s.rows[id].location) {
      assert PublishedFor(s.written, s.published, id, s.rows[id].location);
    }
    forall f | Reachable(s.rows, w', f) ensures Survives(s.files, w', f) {
      assert Reachable(s.rows, s.written, f);
      assert Survives(s.files, s.written, f);
    }
  }

  lemma DraftKeepsTask(s: State, w': Ledger, unique: nat, draft: Written, task: Task)
    requires Core(s) && AddsDraft(s.written, w', unique, draft)
    requires TaskSound(task, s.rows, s.files, s.written, s.published)
    ensures TaskSound(task, s.rows, s.files, w', s.published)
    ensures task.Creating? || task.Committing? ==> task.location.unique != unique
  {
    ReachUnaffected(s.rows, s.files, s.written, w', s.published, unique, draft);
  }

  lemma DraftKeepsWritten(w: Ledger, w': Ledger, published: set<nat>, unique: nat, draft: Written)
    requires WrittenSound(w, published) && AddsDraft(w, w', unique, draft)
    requires LogSound(w', published, unique)
    ensures WrittenSound(w', published)
  {
    forall u | u in w' ensures w'[u].location.unique == u && LogSound(w', published, u) {
      if u != unique { assert LogSound(w, published, u); }
    }
  }

  lemma DraftKeepsTasks(s: State, t: TaskId, task: Task, w': Ledger, unique: nat, draft: Written)
    requires Core(s) && AddsDraft(s.written, w', unique, draft)
    requires t !in s.tasks && (task.Creating? || task.Committing?) && task.location.unique == unique
    requires TaskSound(task, s.rows, s.files, w', s.published)
    ensures TasksSound(s.tasks[t := task], s.rows, s.files, w', s.published)
  {
    forall u | u in s.tasks
      ensures TaskSound(s.tasks[u], s.rows, s.files, w', s.published) && Apart(s.tasks[u], task) && Apart(task, s.tasks[u])
    {
      DraftKeepsTask(s, w', unique, draft, s.tasks[u]);
    }
  }

  lemma BeginCreateKeepsCore(s: State, t: TaskId, client: Client, id: Ident, kind: Kind, content: Content, unique: nat)
    requires Core(s)
    ensures Core(Step(s, BeginCreate(t, client, id, kind, content, unique)))
  {
    if t !in s.tasks && unique !in s.written {
      var s' := Step(s, BeginCreate(t, client, id, kind, content, unique));
      var draft := s'.written[unique];
      DraftKeepsWritten(s.written, s'.written, s.published, unique, draft);
      DraftKeepsRest(s, s'.written, unique, draft);
      DraftKeepsTasks(s, t, s'.tasks[t], s'.written, unique, draft);
    }
  }

  /** The log of a commit's draft: published files of the same table, none twice. */
  lemma DraftLogSound(w: Ledger, w': Ledger, published: set<nat>, id: Ident, previous: Loc, commit: Commit, unique: nat, draft: Written)
    requires WrittenSound(w, published) && AddsDraft(w, w', unique, draft)
    requires draft.id == id
    requires PublishedFor(w, published, id, previous)
    requires Supersede(w[previous.unique].meta, previous, commit).Some?
    requires draft.meta == Supersede(w[previous.unique].meta, previous, commit).value.meta
    ensures LogSound(w', published, unique)
  {
    var base := w[previous.unique].meta;
    assert LogSound(w, published, previous.unique);
    FullLogSound(w, published, id, previous, LogEntry(previous, base.content.lastUpdatedMs));
  }

  lemma FullLogSound(w: Ledger, published: set<nat>, id: Ident, previous: Loc, entry: LogEntry)
    requires PublishedFor(w, published, id, previous) && LogSound(w, published, previous.unique)
    requires entry.file == previous
    ensures
      var full := w[previous.unique].meta.log + [entry];
      && (forall i :: 0 <= i < |full| ==> PublishedFor(w, published, id, full[i].file))
      && (forall i, j :: 0 <= i < j < |full| ==> full[i].file.unique != full[j].file.unique)
  {
  }

  lemma BeginCommitKeepsCore(s: State, t: TaskId, client: Client, id: Ident, commit: Commit, unique: nat)
    requires Core(s)
    ensures Core(Step(s, BeginCommit(t, client, id, commit, unique)))
  {
    var s' := Step(s, BeginCommit(t, client, id, commit, unique));
    if s' != s {
      var entry := s.caches[(client, id)];
      assert WrittenBy(s.written, (client, id).1, entry.location, entry.meta);
      var draft := s'.written[unique];
      DraftLogSound(s.written, s'.written, s.published, id, entry.location, commit, unique, draft);
      DraftKeepsWritten(s.written, s'.written, s.published, unique, draft);
      DraftKeepsRest(s, s'.written, unique, draft);
      DraftKeepsTasks(s, t, s'.tasks[t], s'.written, unique, draft);
    }
  }

  // ---- Steps on the store ----

  predicate Drafting(task: Task) { task.Creating? || task.Committing? }

  /** Moving one call on, without a change to what the others rely on. */
  lemma ReplaceTask(tasks: map<TaskId, Task>, t: TaskId, task: Task, rows: map<Ident, Row>, files: map<Loc, Meta>, w: Ledger, published: set<nat>)
    requires TasksSound(tasks, rows, files, w, published) && t in tasks
    requires TaskSound(task, rows, files, w, published)
    requires Drafting(task) ==> Drafting(tasks[t]) && tasks[t].location.unique == task.location.unique
    ensures TasksSound(tasks[t := task], rows, files, w, published)
  {
    var tasks' := tasks[t := task];
    forall u, v | u in tasks' && v in tasks' && u != v ensures Apart(tasks'[u], tasks'[v]) {
      assert Apart(tasks[u], tasks[v]);
    }
  }

  lemma RemoveTask(tasks: map<TaskId, Task>, t: TaskId, rows: map<Ident, Row>, files: map<Loc, Meta>, w: Ledger, published: set<nat>)
    requires TasksSound(tasks, rows, files, w, published)
    ensures TasksSound(Without(tasks, t), rows, files, w, published)
  {
    var tasks' := Without(tasks, t);
    forall u, v | u in tasks' && v in tasks' && u != v ensures Apart(tasks'[u], tasks'[v]) {
      assert Apart(tasks[u], tasks[v]);
    }
  }

  lemma NewTask(tasks: map<TaskId, Task>, t: TaskId, task: Task, rows: map<Ident, Row>, files: map<Loc, Meta>, w: Ledger, published: set<nat>)
    requires TasksSound(tasks, rows, files, w, published) && t !in tasks
    requires TaskSound(task, rows, files, w, published) && !Drafting(task)
    ensures TasksSound(tasks[t := task], rows, files, w, published)
  {
    var tasks' := tasks[t := task];
    forall u, v | u in tasks' && v in tasks' && u != v ensures Apart(tasks'[u], tasks'[v]) {
      if u != t && v != t { assert Apart(tasks[u], tasks[v]); }
    }
  }

  lemma FilesGrow(s: State, files': map<Loc, Meta>)
    requires Core(s) && s.files.Keys <= files'.Keys
    ensures RowsSound(s.rows, files', s.written, s.published)
    ensures TasksSound(s.tasks, s.rows, files', s.written, s.published)
  {
    forall f | Reachable(s.rows, s.written, f) ensures Survives(files', s.written, f) {
      assert Survives(s.files, s.written, f);
    }
    forall u | u in s.tasks ensures TaskSound(s.tasks[u], s.rows, files', s.written, s.published) {
      assert TaskSound(s.tasks[u], s.rows, s.files, s.written, s.published);
    }
  }

  lemma StoredFileSound(files: map<Loc, Meta>, w: Ledger, task: Task)
    requires FilesSound(files, w) && Drafting(task)
    requires WrittenBy(w, task.id, task.location, MetaOf(task)) && w[task.location.unique].store == StoreOf(task)
    ensures FilesSound(files[In(task.location, StoreOf(task)) := MetaOf(task)], w)
  {
  }

  lemma StoredTaskSound(task: Task, after: Task, rows: map<Ident, Row>, files: map<Loc, Meta>, w: Ledger, published: set<nat>)
    requires Drafting(task) && TaskSound(task, rows, files, w, published)
    requires after == task.(stage := Stored) || after == task.(stage := Hinted)
    requires In(task.location, StoreOf(task)) in files
    ensures TaskSound(after, rows, files, w, published)
  {
  }

  lemma PutFileKeepsCore(s: State, t: TaskId)
    requires Core(s)
    ensures Core(Step(s, PutFile(t)))
  {
    if t in s.tasks && Drafting(s.tasks[t]) && s.tasks[t].stage.Drafted? {
      var task := s.tasks[t];
      var files := s.files[In(task.location, StoreOf(task)) := MetaOf(task)];
      assert TaskSound(task, s.rows, s.files, s.written, s.published);
      StoredFileSound(s.files, s.written, task);
      FilesGrow(s, files);
      StoredTaskSound(task, task.(stage := Stored), s.rows, files, s.written, s.published);
      ReplaceTask(s.tasks, t, task.(stage := Stored), s.rows, files, s.written, s.published);
    }
  }

  lemma PutHintKeepsCore(s: State, t: TaskId, ok: bool)
    requires Core(s)
    ensures Core(Step(s, PutHint(t, ok)))
  {
    var s' := Step(s, PutHint(t, ok));
    if t in s.tasks && Drafting(s.tasks[t]) && s.tasks[t].stage.Stored? {
      var task := s.tasks[t];
      assert TaskSound(task, s.rows, s.files, s.written, s.published);
      ReplaceTask(s.tasks, t, task.(stage := Hinted), s.rows, s.files, s.written, s.published);
    }
  }

  lemma RemovePublishedFile(s: State, gone: Loc, bucket: string)
    requires Core(s) && gone.unique in s.published && !Reachable(s.rows, s.written, gone)
    requires gone.unique in s.written && s.written[gone.unique].location == gone
    ensures var files' := Without(s.files, In(gone, bucket));
      && FilesSound(files', s.written)
      && RowsSound(s.rows, files', s.written, s.published)
      && TasksSound(s.tasks, s.rows, files', s.written, s.published)
  {
    var files' := Without(s.files, In(gone, bucket));
    forall f | Reachable(s.rows, s.written, f) ensures Survives(files', s.written, f) {
      assert Survives(s.files, s.written, f);
      ReachablePublished(s, f);
    }
    forall u | u in s.tasks ensures TaskSound(s.tasks[u], s.rows, files', s.written, s.published) {
      assert TaskSound(s.tasks[u], s.rows, s.files, s.written, s.published);
    }
  }

  /** An aged-out file is reachable from nowhere, so deleting it harms no table. */
  lemma DeleteExpiredKeepsCore(s: State, t: TaskId, ok: bool)
    requires Core(s)
    ensures Core(Step(s, DeleteExpired(t, ok)))
  {
    var s' := Step(s, DeleteExpired(t, ok));
    if t in s.tasks && s.tasks[t].Finishing? && s.tasks[t].expired != [] {
      var task := s.tasks[t];
      var gone := task.expired[0];
      assert TaskSound(task, s.rows, s.files, s.written, s.published);
      assert PublishedFor(s.written, s.published, task.id, gone);
      RemovePublishedFile(s, gone, task.store);
      ReplaceTask(s.tasks, t, task.(expired := task.expired[1..]), s.rows, s'.files, s.written, s.published);
    }
  }

  lemma ReachablePublished(s: State, f: Loc)
    requires Core(s) && Reachable(s.rows, s.written, f)
    ensures f.unique in s.published && f.unique in s.written && s.written[f.unique].location == f
  {
    var id :| id in s.rows && ReachableFrom(s.written, s.rows[id].location, f);
    ReachBelongs(s, id, f);
  }

  // ---- Steps that read, finish or stop ----

  lemma ReadRowKeepsCore(s: State, t: TaskId, client: Client, id: Ident)
    requires Core(s)
    ensures Core(Step(s, ReadRow(t, client, id)))
  {
    if t !in s.tasks && id in s.rows {
      assert PublishedFor(s.written, s.published, id, s.rows[id].location);
      NewTask(s.tasks, t, Loading(client, id, s.rows[id].location), s.rows, s.files, s.written, s.published);
    }
  }

  lemma ReadFileKeepsCore(s: State, t: TaskId)
    requires Core(s)
    ensures Core(Step(s, ReadFile(t)))
  {
    if t in s.tasks && s.tasks[t].Loading? {
      var task := s.tasks[t];
      assert TaskSound(task, s.rows, s.files, s.written, s.published);
      RemoveTask(s.tasks, t, s.rows, s.files, s.written, s.published);
      if task.location in s.files && !task.location.gzip {
        ReplaceTask(s.tasks, t, Step(s, ReadFile(t)).tasks[t], s.rows, s.files, s.written, s.published);
      }
    }
  }

  lemma FillCacheKeepsCore(s: State, t: TaskId)
    requires Core(s)
    ensures Core(Step(s, FillCache(t)))
  {
    if t in s.tasks && s.tasks[t].Finishing? {
      assert TaskSound(s.tasks[t], s.rows, s.files, s.written, s.published);
      RemoveTask(s.tasks, t, s.rows, s.files, s.written, s.published);
      CacheFilled(s.caches, s.written, s.published, s.tasks[t]);
    }
  }

  lemma CacheFilled(caches: map<(Client, Ident), Entry>, w: Ledger, published: set<nat>, task: Task)
    requires CachesSound(caches, w, published) && task.Finishing?
    requires WrittenBy(w, task.id, task.location, task.meta) && task.location.unique in published
    ensures CachesSound(caches[(task.client, task.id) := Entry(task.location, task.meta)], w, published)
  {
  }

  lemma AbortKeepsCore(s: State, t: TaskId)
    requires Core(s)
    ensures Core(Step(s, Abort(t)))
  {
    RemoveTask(s.tasks, t, s.rows, s.files, s.written, s.published);
  }

  // ---- Steps that move a pointer ----

  /** A pointer moved to a fresh file: nothing else becomes reachable but what already was. */
  ghost predicate Moves(s: State, id: Ident, row: Row, rows': map<Ident, Row>, published': set<nat>) {
    && rows' == s.rows[id := row] && published' == s.published + {row.location.unique}
    && row.location.unique !in s.published
    && row.location.unique in s.written
    && s.written[row.location.unique].id == id && s.written[row.location.unique].location == row.location
    && Survives(s.files, s.written, row.location)
    && (forall f :: f in Files(s.written[row.location.unique].meta.log) ==> Reachable(s.rows, s.written, f))
  }

  lemma MoveReach(s: State, id: Ident, row: Row, rows': map<Ident, Row>, published': set<nat>, f: Loc)
    requires Core(s) && Moves(s, id, row, rows', published')
    requires Reachable(rows', s.written, f)
    ensures f == row.location || Reachable(s.rows, s.written, f)
  {
    var i :| i in rows' && ReachableFrom(s.written, rows'[i].location, f);
    if i != id { assert ReachableFrom(s.written, s.rows[i].location, f); }
  }

  lemma MoveKeepsRest(s: State, id: Ident, row: Row, rows': map<Ident, Row>, published': set<nat>)
    requires Core(s) && Moves(s, id, row, rows', published')
    ensures WrittenSound(s.written, published')
    ensures CachesSound(s.caches, s.written, published')
    ensures RowsSound(rows', s.files, s.written, published')
  {
    forall u | u in s.written ensures LogSound(s.written, published', u) {
      assert LogSound(s.written, s.published, u);
    }
    forall i | i in rows' ensures PublishedFor(s.written, published', i, rows'[i].location) {
      if i != id { assert PublishedFor(s.written, s.published, i, s.rows[i].location); }
    }
    forall f | Reachable(rows', s.written, f) ensures Survives(s.files, s.written, f) {
      MoveReach(s, id, row, rows', published', f);
    }
  }

  lemma MoveKeepsTask(s: State, id: Ident, row: Row, rows': map<Ident, Row>, published': set<nat>, task: Task)
    requires Core(s) && Moves(s, id, row, rows', published')
    requires TaskSound(task, s.rows, s.files, s.written, s.published)
    requires Drafting(task) ==> task.location.unique != row.location.unique
    ensures TaskSound(task, rows', s.files, s.written, published')
  {
    if task.Finishing? {
      forall f | f in task.expired ensures !Reachable(rows', s.written, f) {
        if Reachable(rows', s.written, f) { MoveReach(s, id, row, rows', published', f); }
      }
    }
  }

  lemma MoveKeepsTasks(s: State, t: TaskId, done: Task, id: Ident, row: Row, rows': map<Ident, Row>, published': set<nat>)
    requires Core(s) && Moves(s, id, row, rows', published')
    requires t in s.tasks && Drafting(s.tasks[t]) && s.tasks[t].location == row.location
    requires !Drafting(done) && TaskSound(done, rows', s.files, s.written, published')
    ensures TasksSound(s.tasks[t := done], rows', s.files, s.written, published')
  {
    var tasks' := s.tasks[t := done];
    forall u | u in tasks' ensures TaskSound(tasks'[u], rows', s.files, s.written, published') {
      if u != t {
        assert Apart(s.tasks[u], s.tasks[t]);
        MoveKeepsTask(s, id, row, rows', published', s.tasks[u]);
      }
    }
    forall u, v | u in tasks' && v in tasks' && u != v ensures Apart(tasks'[u], tasks'[v]) {
      assert Apart(s.tasks[u], s.tasks[v]);
    }
  }

  /** A move of a pointer by a call that then only has to finish. */
  lemma MoveKeepsCore(s: State, t: TaskId, done: Task, id: Ident, row: Row, s': State)
    requires Core(s) && Moves(s, id, row, s'.rows, s'.published)
    requires t in s.tasks && Drafting(s.tasks[t]) && s.tasks[t].location == row.location
    requires !Drafting(done) && TaskSound(done, s'.rows, s.files, s.written, s'.published)
    requires s' == s.(rows := s'.rows, published := s'.published, tasks := s.tasks[t := done], history := s'.history)
    ensures Core(s')
  {
    MoveKeepsRest(s, id, row, s'.rows, s'.published);
    MoveKeepsTasks(s, t, done, id, row, s'.rows, s'.published);
  }

  lemma InsertMoves(s: State, t: TaskId, task: Task)
    requires Core(s) && t in s.tasks && task == s.tasks[t] && task.Creating? && task.stage.Hinted?
    requires task.id !in s.rows
    ensures var s' := Step(s, Insert(t)); Moves(s, task.id, Row(task.location, None), s'.rows, s'.published)
  {
    assert TaskSound(task, s.rows, s.files, s.written, s.published);
  }

  lemma InsertKeepsCore(s: State, t: TaskId)
    requires Core(s)
    ensures Core(Step(s, Insert(t)))
  {
    if t in s.tasks && s.tasks[t].Creating? && s.tasks[t].stage.Hinted? {
      if s.tasks[t].id in s.rows {
        RemoveTask(s.tasks, t, s.rows, s.files, s.written, s.published);
      } else {
        NewRowKeepsCore(s, t, s.tasks[t]);
      }
    }
  }

  lemma NewRowKeepsCore(s: State, t: TaskId, task: Task)
    requires Core(s) && t in s.tasks && task == s.tasks[t] && task.Creating? && task.stage.Hinted? && task.id !in s.rows
    ensures Core(Step(s, Insert(t)))
  {
    var s' := Step(s, Insert(t));
    InsertMoves(s, t, task);
    MoveKeepsCore(s, t, s'.tasks[t], task.id, Row(task.location, None), s');
  }

  /** The extended log, cut in two: what ages out and what the new metadata keeps. */
  function Superseded(base: Meta, previous: Loc): seq<Loc> {
    Files(base.log) + (if base.kind.Table? then [previous] else [])
  }

  lemma DraftSplits(base: Meta, previous: Loc, commit: Commit)
    requires Supersede(base, previous, commit).Some?
    ensures var draft := Supersede(base, previous, commit).value;
      draft.expired + Files(draft.meta.log) == Superseded(base, previous)
  {
    if base.kind.Table? {
      var full := base.log + [LogEntry(previous, base.content.lastUpdatedMs)];
      assert Files(full) == Superseded(base, previous);
    }
  }

  ghost predicate Distinct(files: seq<Loc>) {
    forall i, j :: 0 <= i < j < |files| ==> files[i].unique != files[j].unique
  }

  lemma SupersededDistinct(s: State, id: Ident, base: Meta, previous: Loc)
    requires Core(s) && WrittenBy(s.written, id, previous, base) && previous.unique in s.published
    ensures Distinct(Superseded(base, previous))
    ensures forall f :: f in Superseded(base, previous) ==> PublishedFor(s.written, s.published, id, f)
    ensures forall f :: f in Superseded(base, previous) ==> ReachableFrom(s.written, previous, f)
  {
    assert LogSound(s.written, s.published, previous.unique);
  }

  lemma DisjointHalves(front: seq<Loc>, back: seq<Loc>, f: Loc)
    requires Distinct(front + back) && f in front
    ensures f !in back
  {
    var k :| 0 <= k < |front| && front[k] == f;
    assert (front + back)[k] == f;
    forall m | 0 <= m < |back| ensures back[m] != f { assert (front + back)[|front| + m] == back[m]; }
  }

  /** What a successful swap ages out is no longer reachable from the moved pointer. */
  lemma ExpiredUnreachable(s: State, task: Task, rows': map<Ident, Row>, published': set<nat>, f: Loc)
    requires Core(s) && task.Committing? && TaskSound(task, s.rows, s.files, s.written, s.published)
    requires Moves(s, task.id, Row(task.location, Some(task.previous)), rows', published')
    requires f in task.draft.expired
    ensures PublishedFor(s.written, published', task.id, f) && !Reachable(rows', s.written, f)
  {
    DraftSplits(task.base, task.previous, task.commit);
    SupersededDistinct(s, task.id, task.base, task.previous);
    DisjointHalves(task.draft.expired, Files(task.draft.meta.log), f);
    assert f in Superseded(task.base, task.previous);
    if Reachable(rows', s.written, f) {
      var i :| i in rows' && ReachableFrom(s.written, rows'[i].location, f);
      if i != task.id { ReachBelongs(s, i, f); }
    }
  }

  lemma ReachBelongs(s: State, id: Ident, f: Loc)
    requires Core(s) && id in s.rows && ReachableFrom(s.written, s.rows[id].location, f)
    ensures PublishedFor(s.written, s.published, id, f)
  {
    var head := s.rows[id].location;
    assert PublishedFor(s.written, s.published, id, head);
    assert LogSound(s.written, s.published, head.unique);
  }

  lemma SwapMoves(s: State, t: TaskId, task: Task)
    requires Core(s) && t in s.tasks && task == s.tasks[t] && task.Committing? && task.stage.Hinted?
    requires task.id in s.rows && s.rows[task.id].location == task.previous
    ensures var s' := Step(s, Swap(t));
      Moves(s, task.id, Row(task.location, Some(task.previous)), s'.rows, s'.published)
  {
    assert TaskSound(task, s.rows, s.files, s.written, s.published);
    DraftSplits(task.base, task.previous, task.commit);
    SupersededDistinct(s, task.id, task.base, task.previous);
    forall f | f in Files(task.draft.meta.log) ensures Reachable(s.rows, s.written, f) {
      assert f in Superseded(task.base, task.previous);
      assert ReachableFrom(s.written, s.rows[task.id].location, f);
    }
  }

  lemma FinishedSwapSound(s: State, task: Task, done: Task, rows': map<Ident, Row>, published': set<nat>)
    requires Core(s) && task.Committing? && TaskSound(task, s.rows, s.files, s.written, s.published)
    requires Moves(s, task.id, Row(task.location, Some(task.previous)), rows', published')
    requires done == Finishing(task.client, task.id, task.previous.bucket, task.location, task.draft.meta,
                               if DeleteAfterCommit(task.draft.meta.content) then task.draft.expired else [])
    ensures TaskSound(done, rows', s.files, s.written, published')
  {
    forall f | f in done.expired
      ensures PublishedFor(s.written, published', task.id, f) && !Reachable(rows', s.written, f)
    {
      ExpiredUnreachable(s, task, rows', published', f);
    }
  }

  lemma SwapWinsKeepsCore(s: State, t: TaskId, task: Task)
    requires Core(s) && t in s.tasks && task == s.tasks[t] && task.Committing? && task.stage.Hinted?
    requires task.id in s.rows && s.rows[task.id].location == task.previous
    ensures Core(Step(s, Swap(t)))
  {
    var s' := Step(s, Swap(t));
    var row := Row(task.location, Some(task.previous));
    SwapMoves(s, t, task);
    assert TaskSound(task, s.rows, s.files, s.written, s.published);
    FinishedSwapSound(s, task, s'.tasks[t], s'.rows, s'.published);
    MoveKeepsCore(s, t, s'.tasks[t], task.id, row, s');
  }

  lemma SwapKeepsCore(s: State, t: TaskId)
    requires Core(s)
    ensures Core(Step(s, Swap(t)))
  {
    if t in s.tasks && s.tasks[t].Committing? && s.tasks[t].stage.Hinted? {
      var task := s.tasks[t];
      if task.id in s.rows && s.rows[task.id].location == task.previous {
        SwapWinsKeepsCore(s, t, task);
      } else {
        var caches := Without(s.caches, (task.client, task.id));
        assert CachesSound(caches, s.written, s.published);
        RemoveTask(s.tasks, t, s.rows, s.files, s.written, s.published);
      }
    }
  }

  lemma DropKeepsCore(s: State, id: Ident)
    requires Core(s)
    ensures Core(Step(s, Drop(id)))
  {
    if id in s.rows {
      var s' := Step(s, Drop(id));
      forall f | Reachable(s'.rows, s.written, f) ensures Reachable(s.rows, s.written, f) {
        var i :| i in s'.rows && ReachableFrom(s.written, s'.rows[i].location, f);
        assert i in s.rows && ReachableFrom(s.written, s.rows[i].location, f);
      }
      forall u | u in s.tasks ensures TaskSound(s.tasks[u], s'.rows, s.files, s.written, s.published) {
        assert TaskSound(s.tasks[u], s.rows, s.files, s.written, s.published);
      }
    }
  }

  /** Every step of every call keeps the core of the invariant. */
  lemma StepKeepsCore(s: State, a: Action)
    requires Core(s)
    ensures Core(Step(s, a))
  {
    match a
    case ReadRow(t, client, id) => ReadRowKeepsCore(s, t, client, id);
    case ReadFile(t) => ReadFileKeepsCore(s, t);
    case BeginCreate(t, client, id, kind, content, unique) => BeginCreateKeepsCore(s, t, client, id, kind, content, unique);
    case Insert(t) => InsertKeepsCore(s, t);
    case BeginCommit(t, client, id, commit, unique) => BeginCommitKeepsCore(s, t, client, id, commit, unique);
    case PutFile(t) => PutFileKeepsCore(s, t);
    case PutHint(t, ok) => PutHintKeepsCore(s, t, ok);
    case Swap(t) => SwapKeepsCore(s, t);
    case DeleteExpired(t, ok) => DeleteExpiredKeepsCore(s, t, ok);
    case FillCache(t) => FillCacheKeepsCore(s, t);
    case Drop(id) => DropKeepsCore(s, id);
    case Abort(t) => AbortKeepsCore(s, t);
  }


  // ---- The history along a step ----

  lemma SerialExtends(history: seq<Event>, e: Event)
    requires Serial(history) && Legal(history, e)
    ensures Serial(history + [e])
  {
    var all := history + [e];
    forall i | 0 <= i < |all| ensures Legal(all[..i], all[i]) {
      if i < |history| { assert all[..i] == history[..i]; } else { assert all[..i] == history; }
    }
  }

  lemma CurrentAfter(history: seq<Event>, e: Event, id: Ident)
    ensures id != e.id ==> CurrentOf(history + [e], id) == CurrentOf(history, id)
    ensures id == e.id && e.Dropped? ==> CurrentOf(history + [e], id).None?
    ensures id == e.id && !e.Dropped? ==>
      CurrentOf(history + [e], id).Some? &&
      CurrentOf(history + [e], id).value.location == e.location && CurrentOf(history + [e], id).value.meta == e.meta
  {
    assert (history + [e])[..|history + [e]| - 1] == history;
  }

  lemma HistoryMoves(s: State, e: Event, rows': map<Ident, Row>, published': set<nat>)
    requires HistorySound(s.history, s.rows, s.written, s.published)
    requires Legal(s.history, e) && EventSound(e, s.written)
    requires !e.Dropped? ==> rows'.Keys == s.rows.Keys + {e.id} && rows'[e.id].location == e.location
    requires !e.Dropped? ==> published' == s.published + {e.location.unique}
    requires e.Dropped? ==> rows'.Keys == s.rows.Keys - {e.id} && published' == s.published
    requires forall i :: i in rows' && i != e.id ==> rows'[i] == s.rows[i]
    ensures HistorySound(s.history + [e], rows', s.written, published')
  {
    var history' := s.history + [e];
    SerialExtends(s.history, e);
    forall i ensures i in rows' <==> CurrentOf(history', i).Some? {
      CurrentAfter(s.history, e, i);
    }
    forall i | i in rows'
      ensures CurrentOf(history', i).Some? && CurrentOf(history', i).value.location == rows'[i].location
      ensures WrittenBy(s.written, i, rows'[i].location, CurrentOf(history', i).value.meta)
    {
      CurrentAfter(s.history, e, i);
    }
    forall u | u in published' ensures WonBy(history', u) {
      if u in s.published {
        var i :| 0 <= i < |s.history| && !s.history[i].Dropped? && s.history[i].location.unique == u;
        assert history'[i] == s.history[i];
      } else {
        assert history'[|s.history|] == e;
      }
    }
  }

  lemma DraftKeepsHistory(s: State, w': Ledger, unique: nat, draft: Written)
    requires HistorySound(s.history, s.rows, s.written, s.published)
    requires AddsDraft(s.written, w', unique, draft)
    ensures HistorySound(s.history, s.rows, w', s.published)
  {
    forall i | 0 <= i < |s.history| ensures EventSound(s.history[i], w') {
      assert EventSound(s.history[i], s.written);
    }
  }

  lemma InsertKeepsHistory(s: State, t: TaskId, task: Task)
    requires HistorySound(s.history, s.rows, s.written, s.published)
    requires t in s.tasks && task == s.tasks[t] && task.Creating? && TaskSound(task, s.rows, s.files, s.written, s.published)
    requires task.id !in s.rows
    ensures var s' := StepInsert(s, t, task); HistorySound(s'.history, s'.rows, s'.written, s'.published)
  {
    var s' := StepInsert(s, t, task);
    var e := Created(task.id, task.location, task.meta);
    assert EventSound(e, s.written);
    assert Legal(s.history, e);
    HistoryMoves(s, e, s'.rows, s'.published);
  }

  lemma SwapKeepsHistory(s: State, t: TaskId, task: Task)
    requires HistorySound(s.history, s.rows, s.written, s.published)
    requires t in s.tasks && task == s.tasks[t] && task.Committing? && TaskSound(task, s.rows, s.files, s.written, s.published)
    requires task.id in s.rows && s.rows[task.id].location == task.previous
    ensures var s' := StepSwap(s, t, task); HistorySound(s'.history, s'.rows, s'.written, s'.published)
  {
    var s' := StepSwap(s, t, task);
    var e := Committed(task.id, task.previous, task.base, task.commit, task.location, task.draft.meta);
    assert EventSound(e, s.written);
    assert WrittenBy(s.written, task.id, task.previous, CurrentOf(s.history, task.id).value.meta);
    assert Legal(s.history, e);
    HistoryMoves(s, e, s'.rows, s'.published);
  }

  lemma DropKeepsHistory(s: State, id: Ident)
    requires HistorySound(s.history, s.rows, s.written, s.published)
    ensures var s' := Step(s, Drop(id)); HistorySound(s'.history, s'.rows, s'.written, s'.published)
  {
    if id in s.rows {
      var s' := Step(s, Drop(id));
      HistoryMoves(s, Dropped(id), s'.rows, s'.published);
    }
  }

  lemma BeginKeepsHistory(s: State, a: Action)
    requires HistorySound(s.history, s.rows, s.written, s.published)
    requires a.BeginCreate? || a.BeginCommit?
    ensures var s' := Step(s, a); HistorySound(s'.history, s'.rows, s'.written, s'.published)
  {
    var s' := Step(s, a);
    if s'.written != s.written {
      assert s'.written == s.written[a.unique := s'.written[a.unique]];
      DraftKeepsHistory(s, s'.written, a.unique, s'.written[a.unique]);
    }
  }

  lemma PointerStepKeepsHistory(s: State, a: Action, task: Task)
    requires HistorySound(s.history, s.rows, s.written, s.published)
    requires a.Insert? || a.Swap?
    requires a.t in s.tasks && task == s.tasks[a.t] && TaskSound(task, s.rows, s.files, s.written, s.published)
    ensures var s' := Step(s, a); HistorySound(s'.history, s'.rows, s'.written, s'.published)
  {
    if a.Insert? && task.Creating? && task.id !in s.rows {
      InsertKeepsHistory(s, a.t, task);
    }
    if a.Swap? && task.Committing? && task.id in s.rows && s.rows[task.id].location == task.previous {
      SwapKeepsHistory(s, a.t, task);
    }
  }

  lemma StepKeepsHistory(s: State, a: Action)
    requires HistorySound(s.history, s.rows, s.written, s.published)
    requires TasksSound(s.tasks, s.rows, s.files, s.written, s.published)
    ensures var s' := Step(s, a); HistorySound(s'.history, s'.rows, s'.written, s'.published)
  {
    match a
    case BeginCreate(_, _, _, _, _, _) => BeginKeepsHistory(s, a);
    case BeginCommit(_, _, _, _, _) => BeginKeepsHistory(s, a);
    case Insert(t) => if t in s.tasks { PointerStepKeepsHistory(s, a, s.tasks[t]); }
    case Swap(t) => if t in s.tasks { PointerStepKeepsHistory(s, a, s.tasks[t]); }
    case Drop(id) => DropKeepsHistory(s, id);
    case ReadRow(_, _, _) =>
    case Abort(_) =>
    case ReadFile(_) =>
    case PutFile(_) =>
    case PutHint(_, _) =>
    case DeleteExpired(_, _) =>
    case FillCache(_) =>
  }

  /** Every step of every call keeps the invariant. */
  lemma StepKeepsInv(s: State, a: Action)
    requires Inv(s)
    ensures Inv(Step(s, a))
  {
    StepKeepsCore(s, a);
    StepKeepsHistory(s, a);
  }

  lemma {:induction false} RunKeepsInv(s: State, actions: seq<Action>)
    requires Inv(s)
    ensures Inv(Run(s, actions))
    decreases |actions|
  {
    if actions != [] {
      StepKeepsInv(s, actions[0]);
      RunKeepsInv(Step(s, actions[0]), actions[1..]);
    }
  }
}
