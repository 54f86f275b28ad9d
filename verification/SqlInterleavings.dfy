/**
 Version hints and loads of the SQL catalog when other calls come in between their steps:
 exactly when the hint names the table's pointer, and exactly when a load reads its file.
 */
module SqlInterleavings {
  import opened Scalars
  import opened Numerals
  import opened SqlCommit
  import opened SqlCommitSafety

  // ---- What a step leaves alone ----

  lemma StepKeepsLedger(s: State, a: Action)
    ensures forall u :: u in s.written ==> u in Step(s, a).written && Step(s, a).written[u] == s.written[u]
    ensures s.published <= Step(s, a).published
  {
  }

  lemma {:induction false} RunKeepsLedger(s: State, actions: seq<Action>)
    ensures forall u :: u in s.written ==> u in Run(s, actions).written && Run(s, actions).written[u] == s.written[u]
    ensures s.published <= Run(s, actions).published
    decreases |actions|
  {
    if actions != [] {
      StepKeepsLedger(s, actions[0]);
      RunKeepsLedger(Step(s, actions[0]), actions[1..]);
    }
  }

  lemma {:induction false} RunKeepsCore(s: State, actions: seq<Action>)
    requires Core(s)
    ensures Core(Run(s, actions))
    decreases |actions|
  {
    if actions != [] {
      StepKeepsCore(s, actions[0]);
      RunKeepsCore(Step(s, actions[0]), actions[1..]);
    }
  }

  /** `a` neither takes the last step of a waiting reader or committer nor stops it. */
  predicate Spares(a: Action, t: TaskId) {
    a != ReadFile(t) && a != Swap(t) && a != Abort(t)
  }

  predicate Waits(task: Task) {
    task.Loading? || (task.Committing? && task.stage.Hinted?)
  }

  /** A step of one call leaves the other calls where they are. */
  lemma OtherTaskKept(s: State, a: Action, t: TaskId)
    requires a.Drop? || a.t != t
    ensures t in Step(s, a).tasks <==> t in s.tasks
    ensures t in s.tasks ==> Step(s, a).tasks[t] == s.tasks[t]
  {
    if a.BeginCreate? || a.BeginCommit? || a.PutFile? || a.PutHint? {
      DraftingLeavesOthers(s, a, t);
    } else if a.Insert? || a.Swap? {
      MovingLeavesOthers(s, a, t);
    } else {
      match a
      case ReadRow(_, _, _) =>
      case ReadFile(_) =>
      case DeleteExpired(_, _) =>
      case FillCache(_) =>
      case Drop(_) =>
      case Abort(_) =>
    }
  }

  lemma DraftingLeavesOthers(s: State, a: Action, t: TaskId)
    requires (a.BeginCreate? || a.BeginCommit? || a.PutFile? || a.PutHint?) && a.t != t
    ensures t in Step(s, a).tasks <==> t in s.tasks
    ensures t in s.tasks ==> Step(s, a).tasks[t] == s.tasks[t]
  {
  }

  lemma MovingLeavesOthers(s: State, a: Action, t: TaskId)
    requires (a.Insert? || a.Swap?) && a.t != t
    ensures t in Step(s, a).tasks <==> t in s.tasks
    ensures t in s.tasks ==> Step(s, a).tasks[t] == s.tasks[t]
  {
  }

  lemma WaitingTaskIdle(s: State, a: Action)
    requires !a.Drop? && Spares(a, a.t) && a.t in s.tasks && Waits(s.tasks[a.t])
    ensures Step(s, a) == s
  {
    match a
    case ReadRow(_, _, _) =>
    case ReadFile(_) =>
    case BeginCreate(_, _, _, _, _, _) =>
    case Insert(_) =>
    case BeginCommit(_, _, _, _, _) =>
    case PutFile(_) =>
    case PutHint(_, _) =>
    case Swap(_) =>
    case DeleteExpired(_, _) =>
    case FillCache(_) =>
    case Abort(_) =>
  }

  lemma SparedStep(s: State, a: Action, t: TaskId)
    requires Spares(a, t) && t in s.tasks && Waits(s.tasks[t])
    ensures t in Step(s, a).tasks && Step(s, a).tasks[t] == s.tasks[t]
  {
    if a.Drop? || a.t != t { OtherTaskKept(s, a, t); } else { WaitingTaskIdle(s, a); }
  }

  lemma {:induction false} SparedRun(s: State, actions: seq<Action>, t: TaskId)
    requires forall i :: 0 <= i < |actions| ==> Spares(actions[i], t)
    requires t in s.tasks && Waits(s.tasks[t])
    ensures t in Run(s, actions).tasks && Run(s, actions).tasks[t] == s.tasks[t]
    decreases |actions|
  {
    if actions != [] {
      SparedStep(s, actions[0], t);
      SparedRun(Step(s, actions[0]), actions[1..], t);
    }
  }

  // ---- Version hints ----

  /** Where the call keeps its version hint. */
  function HintPlace(task: Task): (string, string)
    requires Drafting(task)
  {
    (StoreOf(task), task.location.dir)
  }

  /** The step rewrites the hint at `place`. */
  predicate WritesHint(s: State, a: Action, place: (string, string)) {
    && a.PutHint? && a.ok && a.t in s.tasks && Drafting(s.tasks[a.t]) && s.tasks[a.t].stage.Stored?
    && HintPlace(s.tasks[a.t]) == place
  }

  predicate HintRewritten(s: State, actions: seq<Action>, place: (string, string))
    decreases |actions|
  {
    actions != [] && (WritesHint(s, actions[0], place) || HintRewritten(Step(s, actions[0]), actions[1..], place))
  }

  predicate HintIs(s: State, place: (string, string), location: Loc) {
    place in s.hints && s.hints[place] == location
  }

  /** Every hint names a file some call drafted, and no call that has yet to write its own. */
  ghost predicate HintsSound(s: State) {
    forall p :: p in s.hints ==>
      && s.hints[p].unique in s.written
      && forall t :: t in s.tasks && Drafting(s.tasks[t]) && !s.tasks[t].stage.Hinted? ==> s.tasks[t].location.unique != s.hints[p].unique
  }

  /** All that a hint step does to hints and calls. */
  lemma PutHintEffect(s: State, t: TaskId, ok: bool)
    requires t in s.tasks && Drafting(s.tasks[t]) && s.tasks[t].stage.Stored?
    ensures
      var s' := Step(s, PutHint(t, ok));
      && s'.hints == (if ok then s.hints[HintPlace(s.tasks[t]) := s.tasks[t].location] else s.hints)
      && t in s'.tasks && Drafting(s'.tasks[t]) && s'.tasks[t].stage.Hinted?
      && (forall u :: u != t ==> (u in s'.tasks <==> u in s.tasks) && (u in s.tasks ==> s'.tasks[u] == s.tasks[u]))
      && s'.written == s.written
  {
  }

  lemma PutHintKeepsHints(s: State, t: TaskId, ok: bool)
    requires TasksSound(s.tasks, s.rows, s.files, s.written, s.published) && HintsSound(s)
    ensures HintsSound(Step(s, PutHint(t, ok)))
  {
    if t in s.tasks && Drafting(s.tasks[t]) && s.tasks[t].stage.Stored? {
      PutHintEffect(s, t, ok);
      assert TaskSound(s.tasks[t], s.rows, s.files, s.written, s.published);
      forall u | u in s.tasks && u != t ensures Apart(s.tasks[t], s.tasks[u]) {}
    }
  }

  /** Only hint steps change hints. */
  lemma HintsOnlyByHint(s: State, a: Action)
    requires !a.PutHint?
    ensures Step(s, a).hints == s.hints
  {
    match a
    case ReadRow(_, _, _) =>
    case BeginCreate(_, _, _, _, _, _) =>
    case BeginCommit(_, _, _, _, _) =>
    case Drop(_) =>
    case Abort(_) =>
    case ReadFile(_) =>
    case PutFile(_) =>
    case PutHint(_, _) =>
    case Insert(_) =>
    case Swap(_) =>
    case DeleteExpired(_, _) =>
    case FillCache(_) =>
  }

  /** A draft that has yet to write its hint was there before, or has a name not used before. */
  lemma DraftsBefore(s: State, a: Action, t: TaskId)
    requires t in Step(s, a).tasks && Drafting(Step(s, a).tasks[t]) && !Step(s, a).tasks[t].stage.Hinted?
    ensures
      var now := Step(s, a).tasks[t].location;
      || now.unique !in s.written
      || (t in s.tasks && Drafting(s.tasks[t]) && !s.tasks[t].stage.Hinted? && s.tasks[t].location == now)
  {
    if a.Drop? || a.t != t {
      OtherTaskKept(s, a, t);
    } else if a.BeginCreate? || a.BeginCommit? {
      BeginDraftsNew(s, a);
    } else {
      OwnStepDrafts(s, a);
    }
  }

  lemma BeginDraftsNew(s: State, a: Action)
    requires a.BeginCreate? || a.BeginCommit?
    ensures Step(s, a).tasks == s.tasks ||
      (a.t in Step(s, a).tasks && Drafting(Step(s, a).tasks[a.t]) && Step(s, a).tasks[a.t].location.unique !in s.written)
  {
  }

  lemma OwnStepDrafts(s: State, a: Action)
    requires !a.Drop? && !a.BeginCreate? && !a.BeginCommit?
    requires a.t in Step(s, a).tasks && Drafting(Step(s, a).tasks[a.t]) && !Step(s, a).tasks[a.t].stage.Hinted?
    ensures a.t in s.tasks && Drafting(s.tasks[a.t]) && !s.tasks[a.t].stage.Hinted?
      && s.tasks[a.t].location == Step(s, a).tasks[a.t].location
  {
    if a.PutFile? || a.PutHint? {
      StageMoves(s, a);
    } else if a.Insert? || a.Swap? {
      MovesEndDraft(s, a);
    } else {
      ReadersDraftNothing(s, a);
    }
  }

  lemma StageMoves(s: State, a: Action)
    requires a.PutFile? || a.PutHint?
    ensures a.t in Step(s, a).tasks <==> a.t in s.tasks
    ensures a.t in s.tasks ==>
      var task, now := s.tasks[a.t], Step(s, a).tasks[a.t];
      (Drafting(now) <==> Drafting(task)) && (Drafting(task) ==> now.location == task.location && (task.stage.Hinted? ==> now.stage.Hinted?))
  {
  }

  lemma MovesEndDraft(s: State, a: Action)
    requires a.Insert? || a.Swap?
    ensures a.t in Step(s, a).tasks ==> (a.t in s.tasks && Step(s, a).tasks[a.t] == s.tasks[a.t]) || !Drafting(Step(s, a).tasks[a.t])
  {
  }

  lemma ReadersDraftNothing(s: State, a: Action)
    requires a.ReadRow? || a.ReadFile? || a.DeleteExpired? || a.FillCache? || a.Abort?
    ensures a.t in Step(s, a).tasks ==> (a.t in s.tasks && Step(s, a).tasks[a.t] == s.tasks[a.t]) || !Drafting(Step(s, a).tasks[a.t])
  {
  }

  /** A step other than a hint leaves the hints, and starts no draft under a name in use. */
  lemma OtherStepKeepsHints(s: State, a: Action)
    requires HintsSound(s) && !a.PutHint?
    ensures HintsSound(Step(s, a))
  {
    HintsOnlyByHint(s, a);
    StepKeepsLedger(s, a);
    forall t | t in Step(s, a).tasks && Drafting(Step(s, a).tasks[t]) && !Step(s, a).tasks[t].stage.Hinted?
      ensures
        var now := Step(s, a).tasks[t].location;
        now.unique !in s.written || (t in s.tasks && Drafting(s.tasks[t]) && !s.tasks[t].stage.Hinted? && s.tasks[t].location == now)
    {
      DraftsBefore(s, a, t);
    }
  }

  lemma {:induction false} RunKeepsHints(s: State, actions: seq<Action>)
    requires Core(s) && HintsSound(s)
    ensures HintsSound(Run(s, actions))
    decreases |actions|
  {
    if actions != [] {
      if actions[0].PutHint? { PutHintKeepsHints(s, actions[0].t, actions[0].ok); } else { OtherStepKeepsHints(s, actions[0]); }
      StepKeepsCore(s, actions[0]);
      RunKeepsHints(Step(s, actions[0]), actions[1..]);
    }
  }

  lemma HintAfterStep(s: State, a: Action, t: TaskId, place: (string, string))
    requires TasksSound(s.tasks, s.rows, s.files, s.written, s.published)
    requires t in s.tasks && s.tasks[t].Committing? && s.tasks[t].stage.Hinted?
    ensures HintIs(Step(s, a), place, s.tasks[t].location) <==>
      HintIs(s, place, s.tasks[t].location) && !WritesHint(s, a, place)
  {
    if !a.PutHint? {
      HintsOnlyByHint(s, a);
    } else if a.t in s.tasks && Drafting(s.tasks[a.t]) && s.tasks[a.t].stage.Stored? {
      PutHintEffect(s, a.t, a.ok);
      assert Apart(s.tasks[t], s.tasks[a.t]);
    }
  }

  lemma HintSparedStep(s: State, a: Action, t: TaskId, place: (string, string))
    requires Core(s) && t in s.tasks && s.tasks[t].Committing? && s.tasks[t].stage.Hinted? && Spares(a, t)
    ensures var s' := Step(s, a);
      && Core(s') && t in s'.tasks && s'.tasks[t] == s.tasks[t]
      && (HintIs(s', place, s.tasks[t].location) <==> HintIs(s, place, s.tasks[t].location) && !WritesHint(s, a, place))
  {
    HintAfterStep(s, a, t, place);
    SparedStep(s, a, t);
    StepKeepsCore(s, a);
  }

  /** While a call waits for its swap, the hint names its file as long as no one rewrites it. */
  lemma {:induction false} HintAfterRun(s: State, actions: seq<Action>, t: TaskId, place: (string, string))
    requires Core(s) && t in s.tasks && s.tasks[t].Committing? && s.tasks[t].stage.Hinted?
    requires forall i :: 0 <= i < |actions| ==> Spares(actions[i], t)
    ensures HintIs(Run(s, actions), place, s.tasks[t].location) <==>
      HintIs(s, place, s.tasks[t].location) && !HintRewritten(s, actions, place)
    decreases |actions|
  {
    if actions != [] {
      HintSparedStep(s, actions[0], t, place);
      HintAfterRun(Step(s, actions[0]), actions[1..], t, place);
    }
  }

  predicate HintNamesPointer(s: State, place: (string, string), id: Ident) {
    id in s.rows && HintIs(s, place, s.rows[id].location)
  }

  predicate Wins(s: State, task: Task)
    requires task.Committing?
  {
    task.id in s.rows && s.rows[task.id].location == task.previous
  }

  /** The swap alone: a winner's pointer is its own file, a loser's never is. */
  lemma HintAtSwap(m: State, t: TaskId)
    requires Core(m) && t in m.tasks && m.tasks[t].Committing? && m.tasks[t].stage.Hinted?
    ensures
      var task, s' := m.tasks[t], Step(m, Swap(t));
      && s'.hints == m.hints
      && (if Wins(m, task) then HintNamesPointer(s', HintPlace(task), task.id) <==> HintIs(m, HintPlace(task), task.location)
          else s'.rows == m.rows && (HintIs(m, HintPlace(task), task.location) ==> !HintNamesPointer(s', HintPlace(task), task.id)))
  {
    var task := m.tasks[t];
    SwapAfterHint(m, t);
    assert TaskSound(task, m.rows, m.files, m.written, m.published);
    if task.id in m.rows { assert PublishedFor(m.written, m.published, task.id, m.rows[task.id].location); }
  }

  /**
   Over every interleaving, with any steps of other calls between a commit's hint and its
   swap. After a won swap the hint names the pointer if and only if the hint write went
   through and no other call rewrote that hint in between. After a hint write that went
   through and was not rewritten, the hint names the pointer if and only if the swap is won.
   */
  lemma HintNamesPointerIff(before: seq<Action>, between: seq<Action>, t: TaskId, ok: bool)
    requires
      var s := Run(EMPTY, before);
      t in s.tasks && s.tasks[t].Committing? && s.tasks[t].stage.Stored?
    requires forall i :: 0 <= i < |between| ==> Spares(between[i], t)
    ensures
      var s := Run(EMPTY, before);
      var hinted := Step(s, PutHint(t, ok));
      var m := Run(hinted, between);
      var task, place, s' := s.tasks[t], HintPlace(s.tasks[t]), Step(m, Swap(t));
      && t in hinted.tasks && t in m.tasks && m.tasks[t] == hinted.tasks[t]
      && (Wins(m, task) ==>
            (HintNamesPointer(s', place, task.id) <==> ok && !HintRewritten(hinted, between, place)))
      && (ok && !HintRewritten(hinted, between, place) ==>
            (HintNamesPointer(s', place, task.id) <==> Wins(m, task)))
      && (!Wins(m, task) ==> s'.hints == m.hints && s'.rows == m.rows)
  {
    RunInv(before);
    RunKeepsHints(EMPTY, before);
    HintThenSwap(Run(EMPTY, before), between, t, ok);
  }

  lemma HintWritten(s: State, t: TaskId, ok: bool)
    requires Core(s) && HintsSound(s)
    requires t in s.tasks && s.tasks[t].Committing? && s.tasks[t].stage.Stored?
    ensures
      var task, hinted := s.tasks[t], Step(s, PutHint(t, ok));
      && t in hinted.tasks && hinted.tasks[t].Committing? && hinted.tasks[t].stage.Hinted?
      && hinted.tasks[t].id == task.id && hinted.tasks[t].location == task.location && hinted.tasks[t].previous == task.previous
      && (HintIs(hinted, HintPlace(task), task.location) <==> ok)
  {
  }

  lemma HintThenSwap(s: State, between: seq<Action>, t: TaskId, ok: bool)
    requires Core(s) && HintsSound(s)
    requires t in s.tasks && s.tasks[t].Committing? && s.tasks[t].stage.Stored?
    requires forall i :: 0 <= i < |between| ==> Spares(between[i], t)
    ensures
      var hinted := Step(s, PutHint(t, ok));
      var m := Run(hinted, between);
      var task, place, s' := s.tasks[t], HintPlace(s.tasks[t]), Step(m, Swap(t));
      && t in hinted.tasks && t in m.tasks && m.tasks[t] == hinted.tasks[t]
      && (Wins(m, task) ==>
            (HintNamesPointer(s', place, task.id) <==> ok && !HintRewritten(hinted, between, place)))
      && (ok && !HintRewritten(hinted, between, place) ==>
            (HintNamesPointer(s', place, task.id) <==> Wins(m, task)))
      && (!Wins(m, task) ==> s'.hints == m.hints && s'.rows == m.rows)
  {
    var hinted := Step(s, PutHint(t, ok));
    HintWritten(s, t, ok);
    StepKeepsCore(s, PutHint(t, ok));
    SparedRun(hinted, between, t);
    HintAfterRun(hinted, between, t, HintPlace(s.tasks[t]));
    RunKeepsCore(hinted, between);
    HintAtSwap(Run(hinted, between), t);
  }

  // ---- Loads ----

  /** The step deletes the file `f` as aged out. */
  predicate DeletesFile(s: State, a: Action, f: Loc) {
    && a.DeleteExpired? && a.ok && a.t in s.tasks && s.tasks[a.t].Finishing? && s.tasks[a.t].expired != []
    && In(s.tasks[a.t].expired[0], s.tasks[a.t].store) == f
  }

  predicate FileDeleted(s: State, actions: seq<Action>, f: Loc)
    decreases |actions|
  {
    actions != [] && (DeletesFile(s, actions[0], f) || FileDeleted(Step(s, actions[0]), actions[1..], f))
  }

  /** Only storing and deleting steps change files. */
  lemma FilesOnlyByPutOrDelete(s: State, a: Action)
    requires !a.PutFile? && !a.DeleteExpired?
    ensures Step(s, a).files == s.files
  {
  }

  lemma FileAfterStep(s: State, a: Action, f: Loc)
    requires Core(s) && f.unique in s.published
    ensures f in Step(s, a).files <==> f in s.files && !DeletesFile(s, a, f)
  {
    if a.PutFile? {
      assert a.t in s.tasks ==> TaskSound(s.tasks[a.t], s.rows, s.files, s.written, s.published);
    } else if !a.DeleteExpired? {
      FilesOnlyByPutOrDelete(s, a);
    }
  }

  /** A published file goes only by being deleted as aged out, and never comes back. */
  lemma {:induction false} FileAfterRun(s: State, actions: seq<Action>, f: Loc)
    requires Core(s) && f.unique in s.published
    ensures f in Run(s, actions).files <==> f in s.files && !FileDeleted(s, actions, f)
    decreases |actions|
  {
    if actions != [] {
      FileAfterStep(s, actions[0], f);
      StepKeepsCore(s, actions[0]);
      StepKeepsLedger(s, actions[0]);
      FileAfterRun(Step(s, actions[0]), actions[1..], f);
    }
  }

  /** A table row's file is at the row's location exactly when its last move kept the bucket. */
  lemma PointedFileThereIff(actions: seq<Action>, id: Ident)
    requires id in Run(EMPTY, actions).rows
    ensures
      var s := Run(EMPTY, actions);
      var at := s.rows[id].location;
      && at.unique in s.published && at.unique in s.written && CurrentOf(s.history, id).Some?
      && (at in s.files <==> LastMoveKeptBucket(s.history, id))
      && (at in s.files <==> s.written[at.unique].store == at.bucket)
      && (at in s.files ==> s.files[at] == CurrentOf(s.history, id).value.meta)
  {
    RunInv(actions);
    var s := Run(EMPTY, actions);
    var at := s.rows[id].location;
    assert PublishedFor(s.written, s.published, id, at);
    assert ReachableFrom(s.written, at, at);
    ReclamationSafe(actions, id, at);
    PointerHomeIff(s, id);
    NoLostUpdate(actions, id);
  }

  /**
   A load over every interleaving, with any steps of other calls between reading the row
   and reading the file. It gets through if and only if the metadata is uncompressed, the
   commit that wrote it kept the bucket, and the file was not deleted as aged out in
   between; and it then has the metadata that was current when the row was read.
   */
  lemma LoadInProgressIff(before: seq<Action>, between: seq<Action>, t: TaskId, client: Client, id: Ident)
    requires t !in Run(EMPTY, before).tasks && id in Run(EMPTY, before).rows
    requires forall i :: 0 <= i < |between| ==> Spares(between[i], t)
    ensures
      var s := Run(EMPTY, before);
      var at, read := s.rows[id].location, Step(s, ReadRow(t, client, id));
      var loaded := Step(Run(read, between), ReadFile(t));
      && (t in loaded.tasks <==>
            !at.gzip && LastMoveKeptBucket(s.history, id) && !FileDeleted(read, between, at))
      && (t in loaded.tasks ==>
            CurrentOf(s.history, id).Some? &&
            loaded.tasks[t] == Finishing(client, id, at.bucket, at, CurrentOf(s.history, id).value.meta, []))
  {
    RunInv(before);
    PointedFileThereIff(before, id);
    LoadFrom(Run(EMPTY, before), between, t, client, id);
  }

  lemma ReadRowEffect(s: State, t: TaskId, client: Client, id: Ident)
    requires t !in s.tasks && id in s.rows
    ensures Step(s, ReadRow(t, client, id)) == s.(tasks := s.tasks[t := Loading(client, id, s.rows[id].location)])
  {
  }

  lemma ReadFileEffect(s: State, t: TaskId, client: Client, id: Ident, at: Loc)
    requires t in s.tasks && s.tasks[t] == Loading(client, id, at)
    ensures t in Step(s, ReadFile(t)).tasks <==> at in s.files && !at.gzip
    ensures t in Step(s, ReadFile(t)).tasks ==> Step(s, ReadFile(t)).tasks[t] == Finishing(client, id, at.bucket, at, s.files[at], [])
  {
  }

  /** The same from any sound state, in terms of the files there. */
  lemma LoadFrom(s: State, between: seq<Action>, t: TaskId, client: Client, id: Ident)
    requires Core(s) && t !in s.tasks && id in s.rows && s.rows[id].location.unique in s.published
    requires forall i :: 0 <= i < |between| ==> Spares(between[i], t)
    ensures
      var at, read := s.rows[id].location, Step(s, ReadRow(t, client, id));
      var loaded := Step(Run(read, between), ReadFile(t));
      && (t in loaded.tasks <==> !at.gzip && at in s.files && !FileDeleted(read, between, at))
      && (t in loaded.tasks ==> loaded.tasks[t] == Finishing(client, id, at.bucket, at, s.files[at], []))
  {
    var at, read := s.rows[id].location, Step(s, ReadRow(t, client, id));
    ReadRowEffect(s, t, client, id);
    StepKeepsCore(s, ReadRow(t, client, id));
    SparedRun(read, between, t);
    FileAfterRun(read, between, at);
    ReadFileEffect(Run(read, between), t, client, id, at);
    SameContent(read, between, at);
  }

  /** A file that is there before and after holds the same. */
  lemma SameContent(s: State, actions: seq<Action>, f: Loc)
    requires Core(s)
    ensures f in s.files && f in Run(s, actions).files ==> Run(s, actions).files[f] == s.files[f]
  {
    RunKeepsCore(s, actions);
    RunKeepsLedger(s, actions);
    var m := Run(s, actions);
    if f in s.files && f in m.files {
      assert m.files[f] == m.written[f.unique].meta && s.files[f] == s.written[f.unique].meta;
    }
  }

  /**
   The last case needs a reader slow enough for the file to leave every log: a file that is
   deleted while it is being loaded is reachable from no pointer when the load fails.
   */
  lemma DeletedUnderLoadUnreachable(before: seq<Action>, between: seq<Action>, t: TaskId, client: Client, id: Ident)
    requires t !in Run(EMPTY, before).tasks && id in Run(EMPTY, before).rows
    requires LastMoveKeptBucket(Run(EMPTY, before).history, id)
    ensures
      var s := Run(EMPTY, before);
      var at, read := s.rows[id].location, Step(s, ReadRow(t, client, id));
      var m := Run(read, between);
      FileDeleted(read, between, at) ==> !Reachable(m.rows, m.written, at)
  {
    RunInv(before);
    PointedFileThereIff(before, id);
    var s := Run(EMPTY, before);
    var at, read := s.rows[id].location, Step(s, ReadRow(t, client, id));
    StepKeepsCore(s, ReadRow(t, client, id));
    var m := Run(read, between);
    FileAfterRun(read, between, at);
    RunKeepsCore(read, between);
    RunKeepsLedger(read, between);
    if Reachable(m.rows, m.written, at) {
      assert Survives(m.files, m.written, at);
      assert In(at, at.bucket) == at;
    }
  }

  // ---- Witnesses ----

  /** The call stores its file and writes its hint, and stops short of its swap. */
  function UpToHint(s: State, t: TaskId): State {
    Step(Step(s, PutFile(t)), PutHint(t, true))
  }

  predicate HintedOver(s: State, t: TaskId, previous: Loc, location: Loc) {
    && t in s.tasks && s.tasks[t].Committing? && s.tasks[t].stage.Hinted?
    && s.tasks[t].id == "t" && s.tasks[t].previous == previous && s.tasks[t].location == location
  }

  lemma UpToHintEffect(s: State, t: TaskId, previous: Loc, location: Loc)
    requires ReadyOver(s, t, previous, location)
    ensures
      var s' := UpToHint(s, t);
      && HintedOver(s', t, previous, location)
      && s'.hints == s.hints[(previous.bucket, location.dir) := location]
      && s'.rows == s.rows
      && forall u :: u in s.tasks && u != t ==> u in s'.tasks && s'.tasks[u] == s.tasks[u]
  {
    var stored := Step(s, PutFile(t));
    assert stored.tasks[t].Committing? && stored.tasks[t].stage.Stored?;
  }

  lemma SwapEffect(s: State, t: TaskId, previous: Loc, location: Loc)
    requires HintedOver(s, t, previous, location) && "t" in s.rows
    ensures
      var s' := Step(s, Swap(t));
      && s'.hints == s.hints && "t" in s'.rows
      && (if s.rows["t"].location == previous then s'.rows["t"].location == location else s'.rows == s.rows)
      && forall u :: u in s.tasks && u != t ==> u in s'.tasks && s'.tasks[u] == s.tasks[u]
  {
    SwapAfterHint(s, t);
    forall u | u in s.tasks && u != t ensures u in Step(s, Swap(t)).tasks && Step(s, Swap(t)).tasks[u] == s.tasks[u] {
      OtherTaskKept(s, Swap(t), u);
    }
  }

  /** Two calls over one pointer, both past their hints, the second one's written last. */
  function BothHinted(): State {
    UpToHint(UpToHint(Overlapping(), 1), 2)
  }

  lemma BothHintedState()
    ensures
      var s, head := BothHinted(), NewLocation(HERE, 0);
      && HintedOver(s, 1, head, Loc("a", "d", 1, false)) && HintedOver(s, 2, head, Loc("a", "d", 2, false))
      && "t" in s.rows && s.rows["t"].location == head
      && HintIs(s, ("a", "d"), Loc("a", "d", 2, false))
  {
    OverlappingReady();
    var head := NewLocation(HERE, 0);
    UpToHintEffect(Overlapping(), 1, head, Loc("a", "d", 1, false));
    UpToHintEffect(UpToHint(Overlapping(), 1), 2, head, Loc("a", "d", 2, false));
  }

  /** The first call wins, and the hint names the file of the second. */
  lemma WinnersHintOverwritten()
    ensures
      var s := Step(BothHinted(), Swap(1));
      && "t" in s.rows && s.rows["t"].location == Loc("a", "d", 1, false)
      && HintIs(s, ("a", "d"), Loc("a", "d", 2, false)) && !HintNamesPointer(s, ("a", "d"), "t")
  {
    BothHintedState();
    SwapEffect(BothHinted(), 1, NewLocation(HERE, 0), Loc("a", "d", 1, false));
  }

  /** The second call wins, the first then loses, and the hint still names the pointer. */
  lemma LosersHintCorrect()
    ensures
      var won := Step(BothHinted(), Swap(2));
      var s := Step(won, Swap(1));
      && HintedOver(won, 1, NewLocation(HERE, 0), Loc("a", "d", 1, false)) && !Wins(won, won.tasks[1])
      && HintNamesPointer(s, ("a", "d"), "t") && s.rows["t"].location == Loc("a", "d", 2, false)
  {
    BothHintedState();
    var head := NewLocation(HERE, 0);
    SwapEffect(BothHinted(), 2, head, Loc("a", "d", 2, false));
    SwapEffect(Step(BothHinted(), Swap(2)), 1, head, Loc("a", "d", 1, false));
  }

  /** A table whose commits delete the metadata file they supersede at once. */
  const EAGER: Content := Content("a", "d", false,
    map["write.metadata.delete-after-commit.enabled" := "true", "write.metadata.previous-versions-max" := "0"], 0, 0)

  lemma EagerDraft()
    ensures
      var head := NewLocation(EAGER, 0);
      && DeleteAfterCommit(EAGER)
      && Supersede(Meta(Table, EAGER, []), head, MovedTo("a")) == Some(Draft(Meta(Table, EAGER, []), [head]))
  {
    assert "0"[..0] == "" && AllDigits("0") && DigitsValue("0") == 0;
    assert ParseUnsigned("0") == Some(0);
    assert PreviousVersionsMax(EAGER) == 0;
    assert MovedTo("a").update(EAGER) == Some(EAGER);
    var log := [LogEntry(NewLocation(EAGER, 0), 0)];
    assert [] + log == log;
    assert log[1..] == [] && log[..1] == log;
    assert Files(log) == [NewLocation(EAGER, 0)];
  }

  /** Everything another client's commit does between this reader's two steps. */
  const EAGER_COMMIT: seq<Action> :=
    [BeginCommit(2, 0, "t", MovedTo("a"), 1), PutFile(2), PutHint(2, true), Swap(2), DeleteExpired(2, true)]

  lemma EagerCommitDeletes(s: State)
    requires 2 !in s.tasks && 1 !in s.written && "t" in s.rows && s.rows["t"].location == NewLocation(EAGER, 0)
    requires (0, "t") in s.caches && s.caches[(0, "t")] == Entry(NewLocation(EAGER, 0), Meta(Table, EAGER, []))
    ensures FileDeleted(s, EAGER_COMMIT, NewLocation(EAGER, 0))
  {
    EagerWins(s);
    var h := HintedCall(s, 2, 0, "t", MovedTo("a"), 1);
    var c := EAGER_COMMIT;
    assert c[1..] == [c[1], c[2], c[3], c[4]] && c[1..][1..] == [c[2], c[3], c[4]];
    assert c[1..][1..][1..] == [c[3], c[4]] && c[1..][1..][1..][1..] == [c[4]];
    DeletedLast(Step(s, c[0]), c[1], c[2], c[3], c[4], NewLocation(EAGER, 0));
  }

  /** What the last of four more steps deletes, all of them delete. */
  lemma DeletedLast(s: State, a: Action, b: Action, c: Action, d: Action, f: Loc)
    requires DeletesFile(Step(Step(Step(s, a), b), c), d, f)
    ensures FileDeleted(s, [a, b, c, d], f)
  {
    assert FileDeleted(Step(Step(Step(s, a), b), c), [d], f);
    assert [c, d][1..] == [d] && FileDeleted(Step(Step(s, a), b), [c, d], f);
    assert [b, c, d][1..] == [c, d] && FileDeleted(Step(s, a), [b, c, d], f);
    assert [a, b, c, d][1..] == [b, c, d];
  }

  lemma EagerWins(s: State)
    requires 2 !in s.tasks && 1 !in s.written && "t" in s.rows && s.rows["t"].location == NewLocation(EAGER, 0)
    requires (0, "t") in s.caches && s.caches[(0, "t")] == Entry(NewLocation(EAGER, 0), Meta(Table, EAGER, []))
    ensures DeletesFile(Step(HintedCall(s, 2, 0, "t", MovedTo("a"), 1), Swap(2)), DeleteExpired(2, true), NewLocation(EAGER, 0))
  {
    EagerDraft();
    CommitCallDrafts(s, 2, 0, "t", MovedTo("a"), 1);
    EagerSwap(HintedCall(s, 2, 0, "t", MovedTo("a"), 1));
  }

  lemma EagerSwap(h: State)
    requires 2 in h.tasks && "t" in h.rows && h.rows["t"].location == NewLocation(EAGER, 0)
    requires
      var head, meta := NewLocation(EAGER, 0), Meta(Table, EAGER, []);
      h.tasks[2] == Committing(0, "t", head, meta, MovedTo("a"), NewLocation(EAGER, 1), Draft(meta, [head]), Hinted)
    requires DeleteAfterCommit(EAGER)
    ensures DeletesFile(Step(h, Swap(2)), DeleteExpired(2, true), NewLocation(EAGER, 0))
  {
  }

  /** A load that meets both other conditions and still fails: its file is deleted under it. */
  lemma SlowLoadFails()
    ensures
      var s := Run(EMPTY, CreateCall(EAGER));
      var loaded := Step(Run(Step(s, ReadRow(1, 1, "t")), EAGER_COMMIT), ReadFile(1));
      && 1 !in s.tasks && "t" in s.rows && !s.rows["t"].location.gzip && LastMoveKeptBucket(s.history, "t")
      && 1 !in loaded.tasks
  {
    CreatedTableReached(EAGER);
    var s := CreatedTable(EAGER);
    PointedFileThereIff(CreateCall(EAGER), "t");
    EagerCommitDeletes(Step(s, ReadRow(1, 1, "t")));
    LoadInProgressIff(CreateCall(EAGER), EAGER_COMMIT, 1, 1, "t");
  }
}
