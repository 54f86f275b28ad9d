/**
 Commits of the file catalog: metadata files numbered from zero, a new version taken by a
 copy that refuses to overwrite. A step system over one table, with any number of clients,
 each with its own cache.
 */
module FileCatalog {
  import opened Scalars
  import opened Numerals
  import opened VersionNames

  type Client = nat
  type TaskId = nat

  datatype Meta = Meta(location: string, gzip: bool, body: int)

  datatype Commit = Commit(check: Meta -> bool, update: Meta -> Option<Meta>)

  datatype Stored = Stored(meta: Meta, gzip: bool)

  datatype Entry = Entry(path: string, meta: Meta)

  datatype Draft = Draft(previous: Entry, commit: Commit, meta: Meta, temp: string)

  /** A call between two of its await points. */
  datatype Task =
    | Reading(client: Client, path: string)
    | Drafted(client: Client, draft: Draft)
    | Written(client: Client, draft: Draft)
    | Copied(client: Client, entry: Entry)

  /** A successful commit: what it superseded and what it made of it. */
  datatype Event = Event(previous: Entry, commit: Commit, entry: Entry)

  datatype State = State(
    files: map<string, Stored>,
    caches: map<Client, Entry>,
    tasks: map<TaskId, Task>,
    history: seq<Event>)

  datatype Action =
    | ListVersions(t: TaskId, client: Client, path: string)
    | ReadFile(t: TaskId)
    | BeginCommit(t: TaskId, client: Client, commit: Commit, unique: nat)
    | PutTemp(t: TaskId)
    | Copy(t: TaskId)
    | FillCache(t: TaskId)
    | Abort(t: TaskId)

  /** The scratch file a commit is first written to; the number stands for its random part. */
  function TempPath(meta: Meta, unique: nat): string {
    meta.location + "/metadata/" + ToDecimal(unique) + Suffix(meta.gzip)
  }

  /**
   What a listing returns: the only version file, whatever its name, or one whose number
   no other exceeds, if all have numbers.
   */
  predicate Latest(files: map<string, Stored>, table: string, path: string) {
    && path in files && IsVersionFile(table, path)
    && ((forall p :: p in files && IsVersionFile(table, p) ==> p == path) || Newest(files, table, path))
  }

  predicate NoVersionFile(files: map<string, Stored>, table: string) {
    forall p :: p in files ==> !IsVersionFile(table, p)
  }

  /** Several version files, of which one has no number. */
  predicate Unsortable(files: map<string, Stored>, table: string) {
    exists p, q :: p in files && q in files && p != q && IsVersionFile(table, p) && IsVersionFile(table, q)
      && ListedVersion(table, p).None?
  }

  predicate Newest(files: map<string, Stored>, table: string, path: string) {
    && ListedVersion(table, path).Some?
    && forall p :: p in files && IsVersionFile(table, p) ==>
         ListedVersion(table, p).Some? && ListedVersion(table, p).value <= ListedVersion(table, path).value
  }

  function DraftOver(base: Entry, commit: Commit, unique: nat): Option<Draft> {
    if !commit.check(base.meta) then None
    else
      match commit.update(base.meta)
      case None => None
      case Some(meta) => Some(Draft(base, commit, meta, TempPath(meta, unique)))
  }

  function Target(d: Draft): Option<string> {
    NextLocation(d.meta.location, d.previous.path, d.meta.gzip)
  }

  /** Random names do not repeat. */
  predicate UnusedTemp(s: State, temp: string) {
    temp !in s.files && forall t :: t in s.tasks && (s.tasks[t].Drafted? || s.tasks[t].Written?) ==> s.tasks[t].draft.temp != temp
  }

  function EndTask(s: State, t: TaskId): State {
    s.(tasks := s.tasks - {t})
  }

  function StepBegin(s: State, a: Action): State
    requires a.BeginCommit?
  {
    if a.t in s.tasks || a.client !in s.caches then s
    else
      match DraftOver(s.caches[a.client], a.commit, a.unique)
      case None => s
      case Some(d) => if UnusedTemp(s, d.temp) then s.(tasks := s.tasks[a.t := Drafted(a.client, d)]) else s
  }

  /** The copy wins exactly when nothing has the target's name yet. */
  function StepCopy(s: State, t: TaskId, client: Client, d: Draft): State {
    match Target(d)
    case None => EndTask(s, t)
    case Some(target) =>
      if target in s.files || d.temp !in s.files then EndTask(s, t)
      else
        s.(files := s.files[target := s.files[d.temp]],
           tasks := s.tasks[t := Copied(client, Entry(target, d.meta))],
           history := s.history + [Event(d.previous, d.commit, Entry(target, d.meta))])
  }

  function Step(s: State, table: string, a: Action): State {
    match a
    case ListVersions(t, client, path) =>
      if t in s.tasks || !Latest(s.files, table, path) then s
      else s.(tasks := s.tasks[t := Reading(client, path)])
    case BeginCommit(_, _, _, _) => StepBegin(s, a)
    case Abort(t) => EndTask(s, t)
    case _ =>
      if a.t !in s.tasks then s
      else
        match (a, s.tasks[a.t])
        case (ReadFile(t), Reading(client, path)) =>
          // A compressed file does not parse: the reader does not decompress it.
          if path !in s.files || s.files[path].gzip then EndTask(s, t)
          else EndTask(s, t).(caches := s.caches[client := Entry(path, s.files[path].meta)])
        case (PutTemp(t), Drafted(client, d)) =>
          s.(files := s.files[d.temp := Stored(d.meta, d.meta.gzip)], tasks := s.tasks[t := Written(client, d)])
        case (Copy(t), Written(client, d)) => StepCopy(s, t, client, d)
        case (FillCache(t), Copied(client, entry)) =>
          EndTask(s, t).(caches := s.caches[client := entry])
        case _ => s
  }

  function Run(s: State, table: string, actions: seq<Action>): State
    decreases |actions|
  {
    if actions == [] then s else Run(Step(s, table, actions[0]), table, actions[1..])
  }

  // Runs after a single create, in one encoding, at one location.

  /** The table, its first metadata, and the encoding every writer uses. */
  datatype Setup = Setup(table: string, first: Meta, gzip: bool)

  function Created(p: Setup, creator: Client): State {
    var path := VersionPath(p.table, 0, false);
    State(map[path := Stored(p.first, false)], map[creator := Entry(path, p.first)], map[], [])
  }

  /** Every update of the commit leaves the table where it is and in the writers' encoding. */
  ghost predicate StaysPut(p: Setup, commit: Commit) {
    forall m :: commit.update(m).Some? ==> commit.update(m).value.location == p.table && commit.update(m).value.gzip == p.gzip
  }

  ghost predicate AllStayPut(p: Setup, actions: seq<Action>) {
    forall i :: 0 <= i < |actions| && actions[i].BeginCommit? ==> StaysPut(p, actions[i].commit)
  }

  function PathAt(p: Setup, k: nat): string {
    VersionPath(p.table, k, k > 0 && p.gzip)
  }

  function MetaAt(p: Setup, history: seq<Event>, k: nat): Meta
    requires k <= |history|
  {
    if k == 0 then p.first else history[k - 1].entry.meta
  }

  predicate IsVersion(p: Setup, history: seq<Event>, e: Entry, k: nat) {
    k <= |history| && e == Entry(PathAt(p, k), MetaAt(p, history, k))
  }

  ghost predicate EntryOk(p: Setup, history: seq<Event>, e: Entry) {
    exists k :: IsVersion(p, history, e, k)
  }

  /** Version `k + 1` is the `k`-th commit's update of version `k`, its requirements checked there. */
  predicate EventOk(p: Setup, history: seq<Event>, k: nat)
    requires k < |history|
  {
    var e := history[k];
    && IsVersion(p, history, e.previous, k)
    && IsVersion(p, history, e.entry, k + 1)
    && e.commit.check(e.previous.meta)
    && e.commit.update(e.previous.meta) == Some(e.entry.meta)
  }

  ghost predicate HistoryOk(p: Setup, history: seq<Event>) {
    forall k :: 0 <= k < |history| ==> EventOk(p, history, k)
  }

  ghost predicate FilesOk(p: Setup, history: seq<Event>, files: map<string, Stored>) {
    && (forall k: nat :: k <= |history| ==>
          PathAt(p, k) in files && files[PathAt(p, k)] == Stored(MetaAt(p, history, k), k > 0 && p.gzip))
    && forall path :: path in files && IsVersionFile(p.table, path) ==> exists k: nat :: k <= |history| && path == PathAt(p, k)
  }

  ghost predicate DraftOk(p: Setup, history: seq<Event>, d: Draft) {
    && EntryOk(p, history, d.previous)
    && d.commit.check(d.previous.meta) && d.commit.update(d.previous.meta) == Some(d.meta)
    && d.meta.location == p.table && d.meta.gzip == p.gzip
    && !IsVersionFile(p.table, d.temp)
  }

  ghost predicate TaskOk(p: Setup, history: seq<Event>, files: map<string, Stored>, task: Task) {
    match task
    case Reading(_, path) => exists k: nat :: k <= |history| && path == PathAt(p, k)
    case Drafted(_, d) => DraftOk(p, history, d)
    case Written(_, d) => DraftOk(p, history, d) && d.temp in files && files[d.temp] == Stored(d.meta, d.meta.gzip)
    case Copied(_, entry) => EntryOk(p, history, entry)
  }

  function TempOf(task: Task): Option<string> {
    match task
    case Drafted(_, d) => Some(d.temp)
    case Written(_, d) => Some(d.temp)
    case _ => None
  }

  ghost predicate TasksOk(p: Setup, history: seq<Event>, files: map<string, Stored>, tasks: map<TaskId, Task>) {
    && (forall t :: t in tasks ==> TaskOk(p, history, files, tasks[t]))
    && forall t, u :: t in tasks && u in tasks && t != u && TempOf(tasks[t]).Some? ==> TempOf(tasks[t]) != TempOf(tasks[u])
  }

  ghost predicate CachesOk(p: Setup, history: seq<Event>, caches: map<Client, Entry>) {
    forall c :: c in caches ==> EntryOk(p, history, caches[c])
  }

  ghost predicate Inv(p: Setup, s: State) {
    && HistoryOk(p, s.history)
    && FilesOk(p, s.history, s.files)
    && CachesOk(p, s.history, s.caches)
    && TasksOk(p, s.history, s.files, s.tasks)
  }

  lemma TempNotVersion(meta: Meta, unique: nat)
    ensures !IsVersionFile(meta.location, TempPath(meta, unique))
  {
    var temp := TempPath(meta, unique);
    var at := |meta.location| + 10;
    assert IsDigit(ToDecimal(unique)[0]);
    assert temp[at] == ToDecimal(unique)[0];
    DiffersFromPrefix(temp, meta.location + VERSIONS, at);
  }

  lemma PathAtReads(p: Setup, k: nat)
    requires k <= U64_MAX
    ensures ParseVersion(PathAt(p, k)) == Some(k)
    ensures IsVersionFile(p.table, PathAt(p, k)) && ListedVersion(p.table, PathAt(p, k)) == Some(k)
  {
    ParseOfVersionPath(p.table, k, k > 0 && p.gzip);
    ListedOfVersionPath(p.table, k, k > 0 && p.gzip);
  }

  lemma PathAtDistinct(p: Setup, j: nat, k: nat)
    requires j <= U64_MAX && k <= U64_MAX
    ensures PathAt(p, j) == PathAt(p, k) <==> j == k
  {
    PathAtReads(p, j);
    PathAtReads(p, k);
  }

  /** Version `k` exists exactly up to the number of commits so far. */
  lemma VersionExistsIff(p: Setup, history: seq<Event>, files: map<string, Stored>, k: nat)
    requires FilesOk(p, history, files) && |history| <= U64_MAX && k <= U64_MAX
    ensures PathAt(p, k) in files <==> k <= |history|
  {
    PathAtReads(p, k);
    if PathAt(p, k) in files {
      var j: nat :| j <= |history| && PathAt(p, k) == PathAt(p, j);
      PathAtDistinct(p, j, k);
    }
  }

  lemma BeginKeepsInv(p: Setup, s: State, a: Action)
    requires Inv(p, s) && a.BeginCommit? && StaysPut(p, a.commit)
    ensures Inv(p, StepBegin(s, a))
  {
    if a.t !in s.tasks && a.client in s.caches {
      match DraftOver(s.caches[a.client], a.commit, a.unique)
      case None =>
      case Some(d) =>
        TempNotVersion(d.meta, a.unique);
        if UnusedTemp(s, d.temp) {
          DraftKeepsTasks(p, s, a.t, a.client, d);
        }
    }
  }

  lemma DraftKeepsTasks(p: Setup, s: State, t: TaskId, client: Client, d: Draft)
    requires TasksOk(p, s.history, s.files, s.tasks) && DraftOk(p, s.history, d)
    requires t !in s.tasks && UnusedTemp(s, d.temp)
    ensures TasksOk(p, s.history, s.files, s.tasks[t := Drafted(client, d)])
  {
    forall u | u in s.tasks ensures TempOf(s.tasks[u]) != Some(d.temp) {}
  }

  lemma PutKeepsFiles(p: Setup, s: State, temp: string, stored: Stored)
    requires FilesOk(p, s.history, s.files) && !IsVersionFile(p.table, temp)
    requires |s.history| <= U64_MAX
    ensures FilesOk(p, s.history, s.files[temp := stored])
  {
    forall k: nat | k <= |s.history| ensures PathAt(p, k) != temp {
      PathAtReads(p, k);
    }
  }

  lemma PutKeepsInv(p: Setup, s: State, t: TaskId)
    requires Inv(p, s) && |s.history| <= U64_MAX
    ensures Inv(p, Step(s, p.table, PutTemp(t)))
  {
    if t in s.tasks && s.tasks[t].Drafted? {
      var d := s.tasks[t].draft;
      PutKeepsFiles(p, s, d.temp, Stored(d.meta, d.meta.gzip));
      var next := Step(s, p.table, PutTemp(t));
      forall u | u in next.tasks ensures TaskOk(p, s.history, next.files, next.tasks[u]) {
        assert u != t ==> TempOf(s.tasks[u]) != Some(d.temp);
      }
    }
  }

  /** A draft over version `k` aims at version `k + 1`. */
  lemma TargetIsNext(p: Setup, d: Draft, k: nat)
    requires d.previous.path == PathAt(p, k) && d.meta.location == p.table && d.meta.gzip == p.gzip
    requires k < U64_MAX
    ensures Target(d) == Some(PathAt(p, k + 1))
  {
    PathAtReads(p, k);
    NextVersion(p.table, d.previous.path, p.gzip, k);
  }

  /** The history grows and everything said about its versions stays. */
  lemma HistoryGrows(p: Setup, history: seq<Event>, e: Event, entry: Entry)
    requires EntryOk(p, history, entry)
    ensures EntryOk(p, history + [e], entry)
  {
    var k :| IsVersion(p, history, entry, k);
    assert IsVersion(p, history + [e], entry, k);
  }

  lemma CopyKeepsHistory(p: Setup, history: seq<Event>, d: Draft, target: string)
    requires HistoryOk(p, history) && DraftOk(p, history, d)
    requires IsVersion(p, history, d.previous, |history|) && target == PathAt(p, |history| + 1)
    ensures HistoryOk(p, history + [Event(d.previous, d.commit, Entry(target, d.meta))])
  {
    var e := Event(d.previous, d.commit, Entry(target, d.meta));
    forall k | 0 <= k < |history| + 1 ensures EventOk(p, history + [e], k) {
      assert k < |history| ==> EventOk(p, history, k);
    }
  }

  lemma CopyKeepsFiles(p: Setup, history: seq<Event>, files: map<string, Stored>, e: Event)
    requires FilesOk(p, history, files) && |history| < U64_MAX
    requires e.entry.path == PathAt(p, |history| + 1) && e.entry.meta.gzip == p.gzip
    ensures FilesOk(p, history + [e], files[e.entry.path := Stored(e.entry.meta, p.gzip)])
  {
    var n := |history| + 1;
    forall k: nat | k < n ensures PathAt(p, k) != PathAt(p, n) {
      PathAtDistinct(p, k, n);
    }
    var after := files[e.entry.path := Stored(e.entry.meta, p.gzip)];
    forall path | path in after && IsVersionFile(p.table, path)
      ensures exists k: nat :: k <= n && path == PathAt(p, k)
    {
      if path == PathAt(p, n) {
        assert n <= n;
      } else {
        var k: nat :| k <= |history| && path == PathAt(p, k);
      }
    }
    forall k: nat | k <= n
      ensures PathAt(p, k) in after && after[PathAt(p, k)] == Stored(MetaAt(p, history + [e], k), k > 0 && p.gzip)
    {
      if k < n { assert MetaAt(p, history + [e], k) == MetaAt(p, history, k); }
    }
  }

  lemma CopyKeepsTask(p: Setup, history: seq<Event>, e: Event, files: map<string, Stored>, stored: Stored, task: Task)
    requires TaskOk(p, history, files, task)
    requires IsVersionFile(p.table, e.entry.path)
    ensures TaskOk(p, history + [e], files[e.entry.path := stored], task)
  {
    match task
    case Reading(_, path) =>
      var k: nat :| k <= |history| && path == PathAt(p, k);
      assert k <= |history + [e]|;
    case Drafted(_, d) => HistoryGrows(p, history, e, d.previous);
    case Written(_, d) => HistoryGrows(p, history, e, d.previous);
    case Copied(_, entry) => HistoryGrows(p, history, e, entry);
  }

  /** The copy finds its name free exactly when its draft is over the newest version. */
  lemma WinnerIsOnNewest(p: Setup, history: seq<Event>, files: map<string, Stored>, d: Draft)
    requires FilesOk(p, history, files) && DraftOk(p, history, d) && |history| < U64_MAX
    ensures Target(d).Some?
    ensures Target(d).value !in files <==> IsVersion(p, history, d.previous, |history|)
    ensures Target(d).value !in files ==> Target(d).value == PathAt(p, |history| + 1)
  {
    var k: nat :| IsVersion(p, history, d.previous, k);
    TargetIsNext(p, d, k);
    VersionExistsIff(p, history, files, k + 1);
    PathAtDistinct(p, k, |history|);
  }

  lemma EndTaskKeepsInv(p: Setup, s: State, t: TaskId)
    requires Inv(p, s)
    ensures Inv(p, EndTask(s, t))
  {
  }

  lemma CopyKeepsInv(p: Setup, s: State, t: TaskId)
    requires Inv(p, s) && |s.history| < U64_MAX
    ensures Inv(p, Step(s, p.table, Copy(t)))
  {
    if t in s.tasks && s.tasks[t].Written? {
      assert TaskOk(p, s.history, s.files, s.tasks[t]);
      WrittenCopyKeepsInv(p, s, t, s.tasks[t].draft);
    }
  }

  lemma WrittenCopyKeepsInv(p: Setup, s: State, t: TaskId, d: Draft)
    requires Inv(p, s) && |s.history| < U64_MAX
    requires t in s.tasks && s.tasks[t].Written? && d == s.tasks[t].draft
    requires DraftOk(p, s.history, d) && d.temp in s.files && s.files[d.temp] == Stored(d.meta, p.gzip)
    ensures Inv(p, Step(s, p.table, Copy(t)))
  {
    WinnerIsOnNewest(p, s.history, s.files, d);
    CopyOutcome(s, p.table, t);
    var target := Target(d).value;
    if target in s.files {
      EndTaskKeepsInv(p, s, t);
    } else {
      WinningCopyKeepsInv(p, s, t, Event(d.previous, d.commit, Entry(target, d.meta)));
    }
  }

  lemma CopyOutcome(s: State, table: string, t: TaskId)
    requires t in s.tasks && s.tasks[t].Written? && s.tasks[t].draft.temp in s.files && Target(s.tasks[t].draft).Some?
    ensures
      var d := s.tasks[t].draft;
      var e := Event(d.previous, d.commit, Entry(Target(d).value, d.meta));
      Step(s, table, Copy(t)) ==
        if e.entry.path in s.files then EndTask(s, t)
        else s.(files := s.files[e.entry.path := s.files[d.temp]],
                tasks := s.tasks[t := Copied(s.tasks[t].client, e.entry)],
                history := s.history + [e])
  {
  }

  lemma WinningCopyKeepsInv(p: Setup, s: State, t: TaskId, e: Event)
    requires Inv(p, s) && |s.history| < U64_MAX
    requires t in s.tasks && s.tasks[t].Written?
    requires
      var d := s.tasks[t].draft;
      && e == Event(d.previous, d.commit, Entry(PathAt(p, |s.history| + 1), d.meta))
      && IsVersion(p, s.history, d.previous, |s.history|)
    ensures
      Inv(p, s.(
        files := s.files[e.entry.path := Stored(e.entry.meta, p.gzip)],
        tasks := s.tasks[t := Copied(s.tasks[t].client, e.entry)],
        history := s.history + [e]))
  {
    var d := s.tasks[t].draft;
    PathAtReads(p, |s.history| + 1);
    CopyKeepsHistory(p, s.history, d, e.entry.path);
    CopyKeepsFiles(p, s.history, s.files, e);
    CopyKeepsCaches(p, s.history, e, s.caches);
    assert EventOk(p, s.history + [e], |s.history|);
    assert IsVersion(p, s.history + [e], e.entry, |s.history| + 1);
    CopyKeepsTasks(p, s.history, e, s.files, Stored(e.entry.meta, p.gzip), s.tasks, t, Copied(s.tasks[t].client, e.entry));
  }

  lemma CopyKeepsCaches(p: Setup, history: seq<Event>, e: Event, caches: map<Client, Entry>)
    requires CachesOk(p, history, caches)
    ensures CachesOk(p, history + [e], caches)
  {
    forall c | c in caches ensures EntryOk(p, history + [e], caches[c]) {
      HistoryGrows(p, history, e, caches[c]);
    }
  }

  lemma CopyKeepsTasks(p: Setup, history: seq<Event>, e: Event, files: map<string, Stored>, stored: Stored,
      tasks: map<TaskId, Task>, t: TaskId, after: Task)
    requires TasksOk(p, history, files, tasks) && IsVersionFile(p.table, e.entry.path)
    requires after.Copied? && EntryOk(p, history + [e], after.entry)
    ensures TasksOk(p, history + [e], files[e.entry.path := stored], tasks[t := after])
  {
    forall u | u in tasks ensures TaskOk(p, history + [e], files[e.entry.path := stored], tasks[u]) {
      CopyKeepsTask(p, history, e, files, stored, tasks[u]);
    }
  }

  lemma ReadKeepsInv(p: Setup, s: State, t: TaskId)
    requires Inv(p, s)
    ensures Inv(p, Step(s, p.table, ReadFile(t)))
  {
    if t in s.tasks && s.tasks[t].Reading? {
      var k: nat :| k <= |s.history| && s.tasks[t].path == PathAt(p, k);
      assert IsVersion(p, s.history, Entry(PathAt(p, k), MetaAt(p, s.history, k)), k);
    }
  }

  lemma StepKeepsInv(p: Setup, s: State, a: Action)
    requires Inv(p, s) && |s.history| < U64_MAX
    requires a.BeginCommit? ==> StaysPut(p, a.commit)
    ensures Inv(p, Step(s, p.table, a))
    ensures |Step(s, p.table, a).history| <= |s.history| + 1
  {
    match a
    case BeginCommit(_, _, _, _) => BeginKeepsInv(p, s, a);
    case PutTemp(t) => PutKeepsInv(p, s, t);
    case Copy(t) => CopyKeepsInv(p, s, t);
    case ReadFile(t) => ReadKeepsInv(p, s, t);
    case _ =>
  }

  lemma {:induction false} RunKeepsInv(p: Setup, s: State, actions: seq<Action>)
    requires Inv(p, s) && AllStayPut(p, actions)
    requires |s.history| + |actions| <= U64_MAX
    ensures Inv(p, Run(s, p.table, actions))
    decreases |actions|
  {
    if actions != [] {
      StepKeepsInv(p, s, actions[0]);
      RunKeepsInv(p, Step(s, p.table, actions[0]), actions[1..]);
    }
  }

  lemma CreatedInv(p: Setup, creator: Client)
    ensures Inv(p, Created(p, creator))
  {
    assert PathAt(p, 0) == VersionPath(p.table, 0, false);
    assert IsVersion(p, [], Entry(PathAt(p, 0), p.first), 0);
  }

  /**
   Over every run of any number of clients: the version files are numbered without gaps,
   each but the first is one commit's update of the version just before it, on which that
   commit's requirements held, and every cached or newly loaded entry is one of them.
   */
  lemma NoGapsNoLostUpdate(p: Setup, creator: Client, actions: seq<Action>)
    requires AllStayPut(p, actions) && |actions| <= U64_MAX
    ensures
      var s := Run(Created(p, creator), p.table, actions);
      && (forall k :: 0 <= k < |s.history| ==> EventOk(p, s.history, k))
      && (forall k: nat :: k <= |s.history| ==>
            PathAt(p, k) in s.files && s.files[PathAt(p, k)].meta == MetaAt(p, s.history, k))
      && (forall path :: path in s.files && IsVersionFile(p.table, path) ==> exists k: nat :: k <= |s.history| && path == PathAt(p, k))
      && (forall c :: c in s.caches ==> exists k :: IsVersion(p, s.history, s.caches[c], k))
  {
    CreatedInv(p, creator);
    RunKeepsInv(p, Created(p, creator), actions);
  }

  /** Every version file of a reachable state is read as its number. */
  lemma VersionsAtMost(p: Setup, history: seq<Event>, files: map<string, Stored>, q: string)
    requires FilesOk(p, history, files) && |history| <= U64_MAX
    requires q in files && IsVersionFile(p.table, q)
    ensures AtMost(p, q, |history|)
  {
    var k: nat :| k <= |history| && q == PathAt(p, k);
    PathAtReads(p, k);
  }

  lemma NewestIsLast(p: Setup, history: seq<Event>, files: map<string, Stored>, path: string)
    requires FilesOk(p, history, files) && |history| <= U64_MAX
    ensures PathAt(p, |history|) in files && IsVersionFile(p.table, PathAt(p, |history|))
    ensures path in files && IsVersionFile(p.table, path) && Newest(files, p.table, path) <==> path == PathAt(p, |history|)
  {
    PathAtReads(p, |history|);
    forall q | q in files && IsVersionFile(p.table, q) ensures AtMost(p, q, |history|) {
      VersionsAtMost(p, history, files, q);
    }
  }

  /** A listing finds the newest version, and only that. */
  lemma ListingFindsNewest(p: Setup, s: State, path: string)
    requires Inv(p, s) && |s.history| <= U64_MAX
    ensures Latest(s.files, p.table, path) <==> path == PathAt(p, |s.history|)
  {
    NewestIsLast(p, s.history, s.files, path);
  }

  /** `q` is read as a version no newer than `n`, and as `n` only if it is the file of `n`. */
  predicate AtMost(p: Setup, q: string, n: nat) {
    var version := ListedVersion(p.table, q);
    version.Some? && version.value <= n && (version.value == n ==> q == PathAt(p, n))
  }

  /** Any steps but the reader's own last one or its stopping. */
  predicate LeavesReader(a: Action, t: TaskId) {
    a != ReadFile(t) && a != Abort(t)
  }

  lemma StepLeavesReader(s: State, table: string, a: Action, t: TaskId)
    requires LeavesReader(a, t) && t in s.tasks && s.tasks[t].Reading?
    ensures t in Step(s, table, a).tasks && Step(s, table, a).tasks[t] == s.tasks[t]
  {
  }

  lemma StepExtendsHistory(s: State, table: string, a: Action)
    ensures s.history <= Step(s, table, a).history && |Step(s, table, a).history| <= |s.history| + 1
  {
  }

  lemma {:induction false} ReaderWaits(s: State, table: string, actions: seq<Action>, t: TaskId)
    requires forall i :: 0 <= i < |actions| ==> LeavesReader(actions[i], t)
    requires t in s.tasks && s.tasks[t].Reading?
    ensures t in Run(s, table, actions).tasks && Run(s, table, actions).tasks[t] == s.tasks[t]
    decreases |actions|
  {
    if actions != [] {
      StepLeavesReader(s, table, actions[0], t);
      ReaderWaits(Step(s, table, actions[0]), table, actions[1..], t);
    }
  }

  lemma {:induction false} HistoryExtends(s: State, table: string, actions: seq<Action>)
    ensures s.history <= Run(s, table, actions).history
    ensures |Run(s, table, actions).history| <= |s.history| + |actions|
    decreases |actions|
  {
    if actions != [] {
      StepExtendsHistory(s, table, actions[0]);
      HistoryExtends(Step(s, table, actions[0]), table, actions[1..]);
    }
  }

  /** A listed version is still there, unchanged, when it comes to be read. */
  lemma ListedIsRead(p: Setup, s: State, between: seq<Action>, t: TaskId, client: Client, n: nat)
    requires Inv(p, s) && AllStayPut(p, between) && |s.history| + |between| <= U64_MAX && n <= |s.history|
    requires forall i :: 0 <= i < |between| ==> LeavesReader(between[i], t)
    requires t in s.tasks && s.tasks[t] == Reading(client, PathAt(p, n))
    ensures
      var m := Run(s, p.table, between);
      var e := Entry(PathAt(p, n), MetaAt(p, s.history, n));
      Step(m, p.table, ReadFile(t)).caches == if n > 0 && p.gzip then m.caches else m.caches[client := e]
  {
    var m := Run(s, p.table, between);
    RunKeepsInv(p, s, between);
    ReaderWaits(s, p.table, between, t);
    HistoryExtends(s, p.table, between);
    assert PathAt(p, n) in m.files && m.files[PathAt(p, n)] == Stored(MetaAt(p, m.history, n), n > 0 && p.gzip);
    assert MetaAt(p, m.history, n) == MetaAt(p, s.history, n);
  }

  /**
   A load lists the newest version there is and, whatever commits come between, reads that
   version, if and only if it is not compressed.
   */
  lemma LoadReadsListedIff(p: Setup, creator: Client, before: seq<Action>, between: seq<Action>, t: TaskId, client: Client, path: string)
    requires AllStayPut(p, before) && AllStayPut(p, between) && |before| + |between| < U64_MAX
    requires forall i :: 0 <= i < |between| ==> LeavesReader(between[i], t)
    ensures
      var s := Run(Created(p, creator), p.table, before);
      var n := |s.history|;
      t !in s.tasks ==>
        var listed := Step(s, p.table, ListVersions(t, client, path));
        && (t in listed.tasks <==> path == PathAt(p, n))
        && (t in listed.tasks ==>
              var m := Run(listed, p.table, between);
              var e := Entry(PathAt(p, n), MetaAt(p, s.history, n));
              Step(m, p.table, ReadFile(t)).caches == if n > 0 && p.gzip then m.caches else m.caches[client := e])
  {
    var s := Run(Created(p, creator), p.table, before);
    CreatedInv(p, creator);
    RunKeepsInv(p, Created(p, creator), before);
    HistoryExtends(Created(p, creator), p.table, before);
    if t !in s.tasks {
      ListingFindsNewest(p, s, path);
      var listed := Step(s, p.table, ListVersions(t, client, path));
      if t in listed.tasks {
        StepKeepsInv(p, s, ListVersions(t, client, path));
        ListedIsRead(p, listed, between, t, client, |s.history|);
      }
    }
  }

  /**
   Without those premises two commits over the same version may both win: the second copy
   is refused if and only if both kept the same location and the same encoding.
   */
  lemma RaceBothWinIff(s: State, table: string, t: TaskId, u: TaskId, version: nat)
    requires t != u && t in s.tasks && u in s.tasks && s.tasks[t].Written? && s.tasks[u].Written?
    requires
      var d, e := s.tasks[t].draft, s.tasks[u].draft;
      && d.previous == e.previous && ParseVersion(d.previous.path) == Some(version) && version < U64_MAX
      && d.temp in s.files && e.temp in s.files
      && Target(d).value !in s.files && Target(e).value !in s.files
    ensures
      var d, e := s.tasks[t].draft, s.tasks[u].draft;
      var after := Step(Step(s, table, Copy(t)), table, Copy(u));
      |after.history| == |s.history| + 2 <==> d.meta.location != e.meta.location || d.meta.gzip != e.meta.gzip
  {
    var d, e := s.tasks[t].draft, s.tasks[u].draft;
    SameTargetIff(d, e, version);
    var after := Step(s, table, Copy(t));
    assert after.files == s.files[Target(d).value := s.files[d.temp]];
    assert after.tasks[u] == s.tasks[u] && |after.history| == |s.history| + 1;
  }

  function Rewrite(p: Setup, gzip: bool): Commit {
    Commit((m: Meta) => true, (m: Meta) => Some(m.(location := p.table, gzip := gzip)))
  }

  /** Two commits over the first version, each drafted and written before either is copied. */
  function EncodingRace(creator: Client, p: Setup): seq<Action> {
    [BeginCommit(0, creator, Rewrite(p, false), 1), BeginCommit(1, creator, Rewrite(p, true), 2),
     PutTemp(0), PutTemp(1), Copy(0), Copy(1)]
  }

  function RaceDraft(p: Setup, gzip: bool, unique: nat): Draft {
    var meta := p.first.(location := p.table, gzip := gzip);
    Draft(Entry(PathAt(p, 0), p.first), Rewrite(p, gzip), meta, TempPath(meta, unique))
  }

  /** Both have written their scratch files and neither has been copied. */
  function RaceReady(p: Setup, creator: Client): State {
    var d, e := RaceDraft(p, false, 1), RaceDraft(p, true, 2);
    var s := Created(p, creator);
    s.(files := s.files[d.temp := Stored(d.meta, false)][e.temp := Stored(e.meta, true)],
       tasks := map[0 := Written(creator, d), 1 := Written(creator, e)])
  }

  lemma TempsDiffer(p: Setup)
    ensures
      var d, e := RaceDraft(p, false, 1), RaceDraft(p, true, 2);
      d.temp != e.temp && d.temp != PathAt(p, 0) && e.temp != PathAt(p, 0)
  {
    var d, e := RaceDraft(p, false, 1), RaceDraft(p, true, 2);
    TempNotVersion(d.meta, 1);
    TempNotVersion(e.meta, 2);
    PathAtReads(p, 0);
    assert ToDecimal(1) == "1" && ToDecimal(2) == "2";
    assert d.temp[|p.table| + 10] == '1' && e.temp[|p.table| + 10] == '2';
  }

  lemma RaceGetsReady(p: Setup, creator: Client)
    ensures Run(Created(p, creator), p.table, EncodingRace(creator, p)[..4]) == RaceReady(p, creator)
  {
    var d, e := RaceDraft(p, false, 1), RaceDraft(p, true, 2);
    var s := Created(p, creator);
    var actions := EncodingRace(creator, p);
    TempsDiffer(p);
    assert actions[..4] == [actions[0], actions[1], actions[2], actions[3]];
    RunFour(s, p.table, actions[0], actions[1], actions[2], actions[3]);
    var both := s.(tasks := map[0 := Drafted(creator, d), 1 := Drafted(creator, e)]);
    RaceDrafts(p, creator);
    PutStep(both, p.table, 0, creator, d);
    PutStep(Step(both, p.table, actions[2]), p.table, 1, creator, e);
    assert both.tasks[0 := Written(creator, d)][1 := Written(creator, e)] == RaceReady(p, creator).tasks;
  }

  lemma PutStep(s: State, table: string, t: TaskId, client: Client, d: Draft)
    requires t in s.tasks && s.tasks[t] == Drafted(client, d)
    ensures Step(s, table, PutTemp(t)) ==
      s.(files := s.files[d.temp := Stored(d.meta, d.meta.gzip)], tasks := s.tasks[t := Written(client, d)])
  {
  }

  lemma FillStep(s: State, table: string, t: TaskId, client: Client, entry: Entry)
    requires t in s.tasks && s.tasks[t] == Copied(client, entry)
    ensures Step(s, table, FillCache(t)) == s.(tasks := s.tasks - {t}, caches := s.caches[client := entry])
  {
  }

  lemma BeginDrafts(s: State, table: string, t: TaskId, client: Client, commit: Commit, unique: nat, d: Draft)
    requires t !in s.tasks && client in s.caches
    requires DraftOver(s.caches[client], commit, unique) == Some(d) && UnusedTemp(s, d.temp)
    ensures Step(s, table, BeginCommit(t, client, commit, unique)) == s.(tasks := s.tasks[t := Drafted(client, d)])
  {
  }

  lemma RaceDraftOver(p: Setup, gzip: bool, unique: nat)
    ensures DraftOver(Entry(PathAt(p, 0), p.first), Rewrite(p, gzip), unique) == Some(RaceDraft(p, gzip, unique))
  {
  }

  lemma RaceDrafts(p: Setup, creator: Client)
    ensures
      var s, actions := Created(p, creator), EncodingRace(creator, p);
      Step(Step(s, p.table, actions[0]), p.table, actions[1]) ==
        s.(tasks := map[0 := Drafted(creator, RaceDraft(p, false, 1)), 1 := Drafted(creator, RaceDraft(p, true, 2))])
  {
    var s := Created(p, creator);
    var d, e := RaceDraft(p, false, 1), RaceDraft(p, true, 2);
    TempsDiffer(p);
    RaceDraftOver(p, false, 1);
    RaceDraftOver(p, true, 2);
    BeginDrafts(s, p.table, 0, creator, Rewrite(p, false), 1, d);
    BeginDrafts(s.(tasks := map[0 := Drafted(creator, d)]), p.table, 1, creator, Rewrite(p, true), 2, e);
    assert s.tasks[0 := Drafted(creator, d)] == map[0 := Drafted(creator, d)];
    assert map[0 := Drafted(creator, d)][1 := Drafted(creator, e)] == map[0 := Drafted(creator, d), 1 := Drafted(creator, e)];
  }

  /** A run, right after a creation, in which two commits over the first version both succeed. */
  lemma EncodingRaceLosesUpdate(p: Setup, creator: Client)
    ensures
      var history := Run(Created(p, creator), p.table, EncodingRace(creator, p)).history;
      |history| == 2 && history[0].previous == Entry(PathAt(p, 0), p.first) && history[1].previous == Entry(PathAt(p, 0), p.first)
  {
    var actions := EncodingRace(creator, p);
    var ready := RaceReady(p, creator);
    var d, e := RaceDraft(p, false, 1), RaceDraft(p, true, 2);
    RaceGetsReady(p, creator);
    RunConcat(Created(p, creator), p.table, actions[..4], actions[4..]);
    assert actions == actions[..4] + actions[4..] && actions[4..] == [Copy(0), Copy(1)];
    RunTwo(ready, p.table, Copy(0), Copy(1));
    RaceCopies(p, creator);
  }

  /** Two written drafts with different free targets are both copied. */
  lemma TwoCopies(s: State, table: string, t: TaskId, u: TaskId, d: Draft, e: Draft)
    requires t != u && t in s.tasks && u in s.tasks && s.tasks[t].Written? && s.tasks[u].Written?
    requires s.tasks[t].draft == d && s.tasks[u].draft == e && d.temp in s.files && e.temp in s.files
    requires Target(d).Some? && Target(e).Some? && Target(d) != Target(e)
    requires Target(d).value !in s.files && Target(e).value !in s.files
    ensures
      Step(Step(s, table, Copy(t)), table, Copy(u)).history ==
        s.history + [Event(d.previous, d.commit, Entry(Target(d).value, d.meta))]
          + [Event(e.previous, e.commit, Entry(Target(e).value, e.meta))]
  {
    CopyOutcome(s, table, t);
    CopyOutcome(Step(s, table, Copy(t)), table, u);
  }

  lemma RaceCopies(p: Setup, creator: Client)
    ensures
      var after := Step(Step(RaceReady(p, creator), p.table, Copy(0)), p.table, Copy(1));
      |after.history| == 2
      && after.history[0].previous == Entry(PathAt(p, 0), p.first) && after.history[1].previous == Entry(PathAt(p, 0), p.first)
  {
    RaceTarget(p, false, 1);
    RaceTarget(p, true, 2);
    FirstVersionFree(p, false);
    FirstVersionFree(p, true);
    SamePathIff(p.table, p.table, 1, false, true);
    TwoCopies(RaceReady(p, creator), p.table, 0, 1, RaceDraft(p, false, 1), RaceDraft(p, true, 2));
  }

  /** Both drafts aim at the first version's successor, each in its own encoding. */
  lemma RaceTarget(p: Setup, gzip: bool, unique: nat)
    ensures Target(RaceDraft(p, gzip, unique)) == Some(VersionPath(p.table, 1, gzip))
  {
    ParseOfVersionPath(p.table, 0, false);
    TargetOf(RaceDraft(p, gzip, unique), 0);
  }

  lemma TargetOf(d: Draft, version: nat)
    requires ParseVersion(d.previous.path) == Some(version) && version < U64_MAX
    ensures Target(d) == Some(VersionPath(d.meta.location, version + 1, d.meta.gzip))
  {
    NextVersion(d.meta.location, d.previous.path, d.meta.gzip, version);
  }

  /** The first version's successor has no file yet. */
  lemma FirstVersionFree(p: Setup, gzip: bool)
    ensures
      var target := VersionPath(p.table, 1, gzip);
      target != PathAt(p, 0) && target != RaceDraft(p, false, 1).temp && target != RaceDraft(p, true, 2).temp
  {
    PathAtReads(p, 0);
    ParseOfVersionPath(p.table, 1, gzip);
    ListedOfVersionPath(p.table, 1, gzip);
    TempNotVersion(RaceDraft(p, false, 1).meta, 1);
    TempNotVersion(RaceDraft(p, true, 2).meta, 2);
  }

  lemma {:induction false} RunConcat(s: State, table: string, first: seq<Action>, second: seq<Action>)
    ensures Run(s, table, first + second) == Run(Run(s, table, first), table, second)
    decreases |first|
  {
    if first == [] {
      assert first + second == second;
    } else {
      assert (first + second)[1..] == first[1..] + second;
      RunConcat(Step(s, table, first[0]), table, first[1..], second);
    }
  }

  lemma SameTargetIff(d: Draft, e: Draft, version: nat)
    requires d.previous == e.previous && ParseVersion(d.previous.path) == Some(version) && version < U64_MAX
    ensures Target(d).Some? && Target(e).Some?
    ensures Target(d) == Target(e) <==> d.meta.location == e.meta.location && d.meta.gzip == e.meta.gzip
  {
    NextVersion(d.meta.location, d.previous.path, d.meta.gzip, version);
    NextVersion(e.meta.location, e.previous.path, e.meta.gzip, version);
    SamePathIff(d.meta.location, e.meta.location, version + 1, d.meta.gzip, e.meta.gzip);
  }

  lemma SamePathIff(location: string, other: string, version: nat, g: bool, h: bool)
    requires version <= U64_MAX
    ensures VersionPath(location, version, g) == VersionPath(other, version, h) <==> location == other && g == h
  {
    if VersionPath(location, version, g) == VersionPath(other, version, h) {
      VersionPathInjective(location, other, version, version, g, h);
    }
  }

  // The calls.

  class ObjectStore {
    var files: map<string, Stored>
    ghost var history: seq<Event>

    constructor ()
      ensures files == map[] && history == []
    {
      files, history := map[], [];
    }
  }

  datatype Failure = NotFound | NotCached | Conflict | Unreadable | BadName

  datatype Result<+T> = Ok(value: T) | Err(failure: Failure)

  class FileCatalog {
    const store: ObjectStore
    const table: string
    const client: Client
    var cache: Option<Entry>

    constructor (store: ObjectStore, table: string, client: Client)
      ensures this.store == store && this.table == table && this.client == client && cache == None
    {
      this.store, this.table, this.client, cache := store, table, client, None;
    }

    /** The protocol's state as this client sees it between calls. */
    ghost function Snapshot(): State
      reads this, store
    {
      State(store.files, match cache case Some(entry) => map[client := entry] case None => map[], map[], store.history)
    }

    /** The last of the version files, in order of their numbers; none if several have to be ordered and one has no number. */
    method MetadataLocation() returns (found: Option<string>)
      ensures found.Some? <==> exists p :: Latest(store.files, table, p)
      ensures found.Some? ==> Latest(store.files, table, found.value)
      ensures found.None? <==> NoVersionFile(store.files, table) || Unsortable(store.files, table)
    {
      var all := set p | p in store.files.Keys && IsVersionFile(table, p);
      assert forall q :: q in store.files && IsVersionFile(table, q) <==> q in all;
      if all == {} {
        return None;
      }
      var only :| only in all;
      if all == {only} {
        assert Latest(store.files, table, only);
        return Some(only);
      }
      var other :| other in all && other != only;
      assert IsVersionFile(table, only) && IsVersionFile(table, other);
      assert forall q :: Latest(store.files, table, q) ==> q in all && Newest(store.files, table, q);
      found := LastInOrder(all);
      assert found.Some? ==> Latest(store.files, table, found.value);
    }

    /** The sort: none as soon as a name without a number has to be compared. */
    method LastInOrder(all: set<string>) returns (found: Option<string>)
      requires all != {} && forall q :: q in all <==> q in store.files && IsVersionFile(table, q)
      ensures found.Some? <==> exists p :: p in all && Newest(store.files, table, p)
      ensures found.Some? ==> found.value in all && Newest(store.files, table, found.value)
      ensures found.None? <==> exists p :: p in all && ListedVersion(table, p).None?
    {
      var left := all;
      found := None;
      while left != {}
        invariant left <= all
        invariant found.None? <==> left == all
        invariant found.Some? ==> found.value in all && ListedVersion(table, found.value).Some?
        invariant forall p :: p in all && p !in left ==>
          ListedVersion(table, p).Some? && found.Some? && ListedVersion(table, p).value <= ListedVersion(table, found.value).value
        decreases left
      {
        var p :| p in left;
        var version := ListedVersion(table, p);
        if version.None? {
          assert p in store.files && IsVersionFile(table, p);
          return None;
        }
        if found.None? || version.value >= ListedVersion(table, found.value).value {
          found := Some(p);
        }
        left := left - {p};
      }
    }

    method LoadTabular() returns (result: Result<Meta>)
      modifies this`cache
      ensures
        if forall p :: !Latest(store.files, table, p) then result == Err(NotFound) && cache == old(cache)
        else exists p :: Latest(store.files, table, p) && LoadedFrom(p, result) && cache == CacheAfter(p, old(cache))
      ensures exists p :: Snapshot() == Run(old(Snapshot()), table, [ListVersions(0, client, p), ReadFile(0)])
    {
      var location := MetadataLocation();
      if location.None? {
        LoadRun(Snapshot(), table, client, "");
        return Err(NotFound);
      }
      var path := location.value;
      LoadRun(Snapshot(), table, client, path);
      var stored := store.files[path];
      if stored.gzip {
        assert LoadedFrom(path, Err(Unreadable)) && cache == CacheAfter(path, old(cache));
        assert Snapshot() == Run(old(Snapshot()), table, [ListVersions(0, client, path), ReadFile(0)]);
        return Err(Unreadable);
      }
      cache := Some(Entry(path, stored.meta));
      assert LoadedFrom(path, Ok(stored.meta)) && cache == CacheAfter(path, old(cache));
      assert Snapshot().caches == old(Snapshot()).caches[client := cache.value];
      assert Snapshot() == Run(old(Snapshot()), table, [ListVersions(0, client, path), ReadFile(0)]);
      result := Ok(stored.meta);
    }

    /** What loading the file at `p` reports: it is unreadable exactly when it is compressed. */
    predicate LoadedFrom(p: string, result: Result<Meta>)
      requires p in store.files
      reads this, store
    {
      result == if store.files[p].gzip then Err(Unreadable) else Ok(store.files[p].meta)
    }

    function CacheAfter(p: string, before: Option<Entry>): Option<Entry>
      requires p in store.files
      reads this, store
    {
      if store.files[p].gzip then before else Some(Entry(p, store.files[p].meta))
    }

    /** Each outcome, and the run of protocol steps it amounts to. */
    method UpdateTable(commit: Commit, unique: nat) returns (result: Result<Meta>)
      requires cache.Some? && DraftOver(cache.value, commit, unique).Some? ==>
        DraftOver(cache.value, commit, unique).value.temp !in store.files
      modifies this`cache, store
      ensures Snapshot() == Run(old(Snapshot()), table, [BeginCommit(0, client, commit, unique), PutTemp(0), Copy(0), FillCache(0)])
      ensures
        match old(cache)
        case None => result == Err(NotCached)
        case Some(base) =>
          match DraftOver(base, commit, unique)
          case None => result == Err(Conflict)
          case Some(d) =>
            match Target(d)
            case None => result == Err(BadName)
            case Some(target) =>
              if target in old(store.files) || target == d.temp then result == Err(Conflict) && cache == old(cache)
              else result == Ok(d.meta) && cache == Some(Entry(target, d.meta))
    {
      if cache.None? {
        IdleRun(Snapshot(), table, client, commit, unique);
        return Err(NotCached);
      }
      var draft := DraftOver(cache.value, commit, unique);
      if draft.None? {
        IdleRun(Snapshot(), table, client, commit, unique);
        return Err(Conflict);
      }
      var d := draft.value;
      CommitRun(Snapshot(), table, client, commit, unique, d);
      store.files := store.files[d.temp := Stored(d.meta, d.meta.gzip)];
      var target := Target(d);
      if target.None? {
        return Err(BadName);
      }
      if target.value in store.files {
        return Err(Conflict);
      }
      store.files := store.files[target.value := store.files[d.temp]];
      store.history := store.history + [Event(d.previous, d.commit, Entry(target.value, d.meta))];
      cache := Some(Entry(target.value, d.meta));
      assert Snapshot().caches == old(Snapshot()).caches[client := cache.value];
      result := Ok(d.meta);
    }
  }

  lemma RunTwo(s: State, table: string, a: Action, b: Action)
    ensures Run(s, table, [a, b]) == Step(Step(s, table, a), table, b)
  {
    assert [a, b][1..] == [b] && [b][1..] == [];
    assert Run(Step(s, table, a), table, [b]) == Step(Step(s, table, a), table, b);
  }

  lemma RunFour(s: State, table: string, a: Action, b: Action, c: Action, d: Action)
    ensures Run(s, table, [a, b, c, d]) == Step(Step(Step(Step(s, table, a), table, b), table, c), table, d)
  {
    assert [a, b, c, d][1..] == [b, c, d] && [b, c, d][1..] == [c, d];
    RunTwo(Step(Step(s, table, a), table, b), table, c, d);
  }

  lemma LoadRun(s: State, table: string, client: Client, path: string)
    requires s.tasks == map[]
    ensures Run(s, table, [ListVersions(0, client, path), ReadFile(0)]) ==
      if Latest(s.files, table, path) && !s.files[path].gzip
      then s.(caches := s.caches[client := Entry(path, s.files[path].meta)]) else s
  {
    RunTwo(s, table, ListVersions(0, client, path), ReadFile(0));
  }

  /** A commit that drafts nothing leaves the other steps nothing to do. */
  lemma IdleRun(s: State, table: string, client: Client, commit: Commit, unique: nat)
    requires s.tasks == map[]
    requires client in s.caches ==> DraftOver(s.caches[client], commit, unique).None?
    ensures Run(s, table, [BeginCommit(0, client, commit, unique), PutTemp(0), Copy(0), FillCache(0)]) == s
  {
    RunFour(s, table, BeginCommit(0, client, commit, unique), PutTemp(0), Copy(0), FillCache(0));
  }

  lemma CommitRun(s: State, table: string, client: Client, commit: Commit, unique: nat, d: Draft)
    requires s.tasks == map[] && client in s.caches
    requires DraftOver(s.caches[client], commit, unique) == Some(d) && d.temp !in s.files
    ensures
      var put := s.(files := s.files[d.temp := Stored(d.meta, d.meta.gzip)]);
      var after := Run(s, table, [BeginCommit(0, client, commit, unique), PutTemp(0), Copy(0), FillCache(0)]);
      if Target(d).None? || Target(d).value in put.files then after == put
      else
        var entry := Entry(Target(d).value, d.meta);
        after == put.(
          files := put.files[entry.path := put.files[d.temp]],
          caches := s.caches[client := entry],
          history := s.history + [Event(d.previous, d.commit, entry)])
  {
    RunFour(s, table, BeginCommit(0, client, commit, unique), PutTemp(0), Copy(0), FillCache(0));
    BeginDrafts(s, table, 0, client, commit, unique, d);
    var drafted := s.(tasks := map[0 := Drafted(client, d)]);
    PutStep(drafted, table, 0, client, d);
    var written := drafted.(files := s.files[d.temp := Stored(d.meta, d.meta.gzip)], tasks := map[0 := Written(client, d)]);
    assert Step(drafted, table, PutTemp(0)) == written;
    CopyRun(written, table, client, d);
  }

  lemma CopyRun(s: State, table: string, client: Client, d: Draft)
    requires s.tasks == map[0 := Written(client, d)] && client in s.caches && d.temp in s.files
    ensures
      var after := Step(Step(s, table, Copy(0)), table, FillCache(0));
      if Target(d).None? || Target(d).value in s.files then after == s.(tasks := map[])
      else
        var entry := Entry(Target(d).value, d.meta);
        after == s.(
          files := s.files[entry.path := s.files[d.temp]],
          tasks := map[],
          caches := s.caches[client := entry],
          history := s.history + [Event(d.previous, d.commit, entry)])
  {
    if Target(d).Some? {
      CopyOutcome(s, table, 0);
      if Target(d).value !in s.files {
        FillStep(Step(s, table, Copy(0)), table, 0, client, Entry(Target(d).value, d.meta));
      }
    }
    assert map[0 := Written(client, d)] - {0} == map[];
  }
}
