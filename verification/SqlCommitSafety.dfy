/**
 What holds in every run of the SQL catalog's commit protocol, and where the code falls
 short of its own documentation.
 */
module SqlCommitSafety {
  import opened Scalars
  import opened SqlCommit

  lemma EmptyInv()
    ensures Inv(EMPTY)
  {
  }

  lemma RunInv(actions: seq<Action>)
    ensures Inv(Run(EMPTY, actions))
  {
    EmptyInv();
    RunKeepsInv(EMPTY, actions);
  }

  // ---- No lost update ----

  /**
   In every interleaving the successes form one chain per table. Each one's metadata is
   its updates applied to the metadata it superseded, with its requirements checked on
   that same metadata, and the pointer is at the end of the chain.
   */
  lemma NoLostUpdate(actions: seq<Action>, id: Ident)
    ensures var s := Run(EMPTY, actions);
      && Serial(s.history)
      && (id in s.rows <==> CurrentOf(s.history, id).Some?)
      && (id in s.rows ==>
            var now, at := CurrentOf(s.history, id).value, s.rows[id].location;
            && now.location == at
            && at.unique in s.written
            && In(at, s.written[at.unique].store) in s.files
            && s.files[In(at, s.written[at.unique].store)] == now.meta)
  {
    RunInv(actions);
    var s := Run(EMPTY, actions);
    if id in s.rows {
      var at := s.rows[id].location;
      assert PublishedFor(s.written, s.published, id, at);
      assert ReachableFrom(s.written, at, at);
      assert Reachable(s.rows, s.written, at);
      assert Survives(s.files, s.written, at);
    }
  }

  /** A file becomes visible, through a pointer, a log or a cache, only when its writer won. */
  lemma OnlyWinnersVisible(actions: seq<Action>, f: Loc)
    ensures var s := Run(EMPTY, actions);
      (Reachable(s.rows, s.written, f) || (exists k :: k in s.caches && s.caches[k].location == f))
      ==> WonBy(s.history, f.unique)
  {
    RunInv(actions);
    var s := Run(EMPTY, actions);
    if Reachable(s.rows, s.written, f) { ReachablePublished(s, f); }
  }

  /** A lost compare-and-swap drops the stale cache entry and touches nothing else. */
  lemma LosingSwapInvisible(s: State, t: TaskId)
    requires Core(s)
    requires t in s.tasks && s.tasks[t].Committing? && s.tasks[t].stage.Hinted?
    requires Step(s, Swap(t)).history == s.history
    ensures var s' := Step(s, Swap(t));
      && s'.rows == s.rows && s'.files == s.files && s'.published == s.published
      && (s.tasks[t].client, s.tasks[t].id) !in s'.caches
      && (forall k :: k in s.caches && k != (s.tasks[t].client, s.tasks[t].id) ==> k in s'.caches && s'.caches[k] == s.caches[k])
      && !Reachable(s'.rows, s'.written, s.tasks[t].location)
  {
    LosingSwapEffect(s, t);
    DraftUnreachable(s, t);
  }

  lemma LosingSwapEffect(s: State, t: TaskId)
    requires t in s.tasks && s.tasks[t].Committing? && s.tasks[t].stage.Hinted?
    requires Step(s, Swap(t)).history == s.history
    ensures Step(s, Swap(t)) == s.(caches := Without(s.caches, (s.tasks[t].client, s.tasks[t].id)), tasks := Without(s.tasks, t))
  {
    var task := s.tasks[t];
    assert task.id in s.rows && s.rows[task.id].location == task.previous ==>
      |Step(s, Swap(t)).history| == |s.history| + 1;
  }

  /** No pointer leads to a draft before its swap. */
  lemma DraftUnreachable(s: State, t: TaskId)
    requires Core(s)
    requires t in s.tasks && s.tasks[t].Committing? && s.tasks[t].stage.Hinted?
    ensures !Reachable(s.rows, s.written, s.tasks[t].location)
  {
    var task := s.tasks[t];
    assert TaskSound(task, s.rows, s.files, s.written, s.published);
    if Reachable(s.rows, s.written, task.location) { ReachablePublished(s, task.location); }
  }

  // ---- Reclamation ----

  /**
   Whatever slow deletions of earlier commits are still under way, the metadata file a
   pointer names and every file in its log are still in the store they were put into.
   */
  lemma ReclamationSafe(actions: seq<Action>, id: Ident, f: Loc)
    requires id in Run(EMPTY, actions).rows
    requires ReachableFrom(Run(EMPTY, actions).written, Run(EMPTY, actions).rows[id].location, f)
    ensures var s := Run(EMPTY, actions);
      && f.unique in s.written
      && In(f, s.written[f.unique].store) in s.files
      && (f in s.files <==> s.written[f.unique].store == f.bucket)
  {
    RunInv(actions);
    var s := Run(EMPTY, actions);
    assert Reachable(s.rows, s.written, f);
    assert Survives(s.files, s.written, f);
    ReachablePublished(s, f);
  }

  predicate IsSuffix(part: seq<Loc>, whole: seq<Loc>) {
    |part| <= |whole| && part == whole[|whole| - |part|..]
  }

  lemma SerialPrefix(history: seq<Event>)
    requires Serial(history) && history != []
    ensures Serial(history[..|history| - 1])
  {
    var before := history[..|history| - 1];
    forall i | 0 <= i < |before| ensures Legal(before[..i], before[i]) { assert before[..i] == history[..i]; }
  }

  lemma SerialLast(history: seq<Event>)
    requires Serial(history) && history != []
    ensures Legal(history[..|history| - 1], history[|history| - 1])
  {
  }

  lemma {:induction false} LogIsRecentHistory(history: seq<Event>, id: Ident)
    requires Serial(history)
    requires CurrentOf(history, id).Some? && CurrentOf(history, id).value.meta.kind.Table?
    ensures var now := CurrentOf(history, id).value;
      IsSuffix(Files(now.meta.log), now.superseded)
    decreases |history|
  {
    var n := |history|;
    var before, last := history[..n - 1], history[n - 1];
    SerialLast(history);
    SerialPrefix(history);
    if last.id != id {
      LogIsRecentHistory(before, id);
    } else if last.Committed? {
      LogIsRecentHistory(before, id);
      DraftSplits(last.base, last.previous, last.commit);
      var draft := Supersede(last.base, last.previous, last.commit).value;
      SuffixOfExtension(draft.expired, Files(draft.meta.log), Files(last.base.log),
                        CurrentOf(before, id).value.superseded, last.previous);
    }
  }

  lemma SuffixOfExtension(front: seq<Loc>, back: seq<Loc>, log: seq<Loc>, whole: seq<Loc>, next: Loc)
    requires front + back == log + [next] && IsSuffix(log, whole)
    ensures IsSuffix(back, whole + [next])
  {
    var cut := |whole| - |log|;
    assert (whole + [next])[cut..] == log + [next] == front + back;
    assert (whole + [next])[cut + |front|..] == back;
  }

  function Min(a: nat, b: nat): nat {
    if a < b then a else b
  }

  /** Every commit of the table since its creation carries this cap. */
  predicate SameCap(history: seq<Event>, id: Ident, cap: nat) {
    history == [] ||
    var before, last := history[..|history| - 1], history[|history| - 1];
    if last.id != id then SameCap(before, id, cap)
    else last.Committed? ==> PreviousVersionsMax(last.meta.content) == cap && SameCap(before, id, cap)
  }

  /** What a commit keeps of the log it extends: all of it up to the cap, and no less. */
  lemma DraftKeepsUpToCap(base: Meta, previous: Loc, commit: Commit)
    requires base.kind.Table? && Supersede(base, previous, commit).Some?
    ensures
      var meta := Supersede(base, previous, commit).value.meta;
      |meta.log| == Min(|base.log| + 1, PreviousVersionsMax(meta.content))
  {
  }

  /** Under one cap the log is as long as the chain of superseded files, up to the cap. */
  lemma {:induction false} LogLengthUnderCap(history: seq<Event>, id: Ident, cap: nat)
    requires Serial(history) && SameCap(history, id, cap)
    requires CurrentOf(history, id).Some? && CurrentOf(history, id).value.meta.kind.Table?
    ensures var now := CurrentOf(history, id).value; |now.meta.log| == Min(|now.superseded|, cap)
    decreases |history|
  {
    var n := |history|;
    var before, last := history[..n - 1], history[n - 1];
    SerialLast(history);
    SerialPrefix(history);
    if last.id != id {
      LogLengthUnderCap(before, id, cap);
    } else if last.Committed? {
      LogLengthUnderCap(before, id, cap);
      CommitLogLength(before, last);
    }
  }

  /** One commit's effect on the length of the log and of the chain. */
  lemma CommitLogLength(before: seq<Event>, e: Event)
    requires e.Committed? && Legal(before, e) && e.meta.kind.Table?
    ensures CurrentOf(before, e.id).Some? && CurrentOf(before, e.id).value.meta.kind.Table?
    ensures |e.meta.log| == Min(|CurrentOf(before, e.id).value.meta.log| + 1, PreviousVersionsMax(e.meta.content))
  {
    DraftKeepsUpToCap(e.base, e.previous, e.commit);
  }

  /** In every run each commit of a table keeps of the log just what its own cap allows. */
  lemma CommitsKeepUpToCap(actions: seq<Action>, i: nat)
    requires i < |Run(EMPTY, actions).history|
    ensures
      var e := Run(EMPTY, actions).history[i];
      e.Committed? && e.base.kind.Table? ==> |e.meta.log| == Min(|e.base.log| + 1, PreviousVersionsMax(e.meta.content))
  {
    RunInv(actions);
    var history := Run(EMPTY, actions).history;
    assert Legal(history[..i], history[i]);
    var e := history[i];
    if e.Committed? && e.base.kind.Table? {
      DraftKeepsUpToCap(e.base, e.previous, e.commit);
    }
  }

  /**
   A table's log names its most recent superseded files in order, never more than the cap
   and, while the cap stays the same, no fewer.
   */
  lemma LogBoundedAndRecent(actions: seq<Action>, id: Ident)
    requires id in Run(EMPTY, actions).rows
    ensures var s := Run(EMPTY, actions);
      && CurrentOf(s.history, id).Some?
      && var now := CurrentOf(s.history, id).value;
         (now.meta.kind.Table? ==>
           && IsSuffix(Files(now.meta.log), now.superseded)
           && |now.meta.log| <= PreviousVersionsMax(now.meta.content)
           && forall cap: nat :: SameCap(s.history, id, cap) ==> |now.meta.log| == Min(|now.superseded|, cap))
  {
    RunInv(actions);
    var s := Run(EMPTY, actions);
    if CurrentOf(s.history, id).value.meta.kind.Table? {
      LogIsRecentHistory(s.history, id);
      LogWithinCap(s.history, id);
      forall cap: nat | SameCap(s.history, id, cap)
        ensures |CurrentOf(s.history, id).value.meta.log| == Min(|CurrentOf(s.history, id).value.superseded|, cap)
      {
        LogLengthUnderCap(s.history, id, cap);
      }
    }
  }

  lemma {:induction false} LogWithinCap(history: seq<Event>, id: Ident)
    requires Serial(history)
    requires CurrentOf(history, id).Some? && CurrentOf(history, id).value.meta.kind.Table?
    ensures var now := CurrentOf(history, id).value; |now.meta.log| <= PreviousVersionsMax(now.meta.content)
    decreases |history|
  {
    var n := |history|;
    var before, last := history[..n - 1], history[n - 1];
    SerialLast(history);
    if last.id != id {
      SerialPrefix(history);
      LogWithinCap(before, id);
    }
  }

  // ---- Where the code falls short ----

  /** One commit call that nothing interrupts, up to its version hint. */
  function HintedCall(s: State, t: TaskId, client: Client, id: Ident, commit: Commit, unique: nat): State {
    Step(Step(Step(s, BeginCommit(t, client, id, commit, unique)), PutFile(t)), PutHint(t, true))
  }

  /** The same, up to its swap. */
  function CommitCall(s: State, t: TaskId, client: Client, id: Ident, commit: Commit, unique: nat): State {
    Step(HintedCall(s, t, client, id, commit, unique), Swap(t))
  }

  lemma SwapAfterHint(h: State, t: TaskId)
    requires t in h.tasks && h.tasks[t].Committing? && h.tasks[t].stage.Hinted?
    ensures
      var task, s' := h.tasks[t], Step(h, Swap(t));
      && s'.files == h.files && s'.hints == h.hints
      && s'.rows == if task.id in h.rows && h.rows[task.id].location == task.previous
         then h.rows[task.id := Row(task.location, Some(task.previous))] else h.rows
  {
  }

  lemma CommitCallDrafts(s: State, t: TaskId, client: Client, id: Ident, commit: Commit, unique: nat)
    requires (client, id) in s.caches && t !in s.tasks && unique !in s.written
    requires Supersede(s.caches[(client, id)].meta, s.caches[(client, id)].location, commit).Some?
    ensures
      var s' := HintedCall(s, t, client, id, commit, unique);
      var entry := s.caches[(client, id)];
      var draft := Supersede(entry.meta, entry.location, commit).value;
      var location := NewLocation(draft.meta.content, unique);
      && t in s'.tasks
      && s'.tasks[t] == Committing(client, id, entry.location, entry.meta, commit, location, draft, Hinted)
      && s'.rows == s.rows
      && s'.hints == s.hints[(entry.location.bucket, location.dir) := location]
      && s'.files == s.files[In(location, entry.location.bucket) := draft.meta]
  {
    var entry := s.caches[(client, id)];
    var draft := Supersede(entry.meta, entry.location, commit).value;
    var location := NewLocation(draft.meta.content, unique);
    var s1 := Step(s, BeginCommit(t, client, id, commit, unique));
    assert s1.tasks[t] == Committing(client, id, entry.location, entry.meta, commit, location, draft, Drafted);
    var s2 := Step(s1, PutFile(t));
    assert s2.tasks[t].stage.Stored?;
  }

  /**
   The version hint is written before the swap is decided. A call that gets as far as the
   swap leaves the hint naming the table's pointer exactly when its cached pointer was
   still the current one; a losing call leaves it naming an orphan.
   */
  lemma HintNamesPointerIffWon(s: State, t: TaskId, client: Client, id: Ident, commit: Commit, unique: nat)
    requires id in s.rows && s.rows[id].location.unique in s.written && (client, id) in s.caches
    requires t !in s.tasks && unique !in s.written
    requires Supersede(s.caches[(client, id)].meta, s.caches[(client, id)].location, commit).Some?
    ensures
      var s' := CommitCall(s, t, client, id, commit, unique);
      var entry := s.caches[(client, id)];
      var draft := Supersede(entry.meta, entry.location, commit).value;
      var place := (entry.location.bucket, draft.meta.content.dir);
      && place in s'.hints && id in s'.rows
      && (s'.hints[place] == s'.rows[id].location <==> s.rows[id].location == entry.location)
  {
    CommitCallDrafts(s, t, client, id, commit, unique);
    SwapAfterHint(HintedCall(s, t, client, id, commit, unique), t);
  }

  /**
   A commit's file goes into the bucket of the metadata it supersedes. After a winning
   call the table row names a stored file exactly when the updates keep the bucket.
   */
  lemma CommittedFileReadableIff(s: State, t: TaskId, client: Client, id: Ident, commit: Commit, unique: nat)
    requires (client, id) in s.caches && id in s.rows && s.rows[id].location == s.caches[(client, id)].location
    requires t !in s.tasks && unique !in s.written && (forall f :: f in s.files ==> f.unique in s.written)
    requires Supersede(s.caches[(client, id)].meta, s.caches[(client, id)].location, commit).Some?
    ensures
      var s' := CommitCall(s, t, client, id, commit, unique);
      var entry := s.caches[(client, id)];
      var content := Supersede(entry.meta, entry.location, commit).value.meta.content;
      && id in s'.rows && s'.rows[id].location == NewLocation(content, unique)
      && (s'.rows[id].location in s'.files <==> content.bucket == entry.location.bucket)
  {
    CommitCallDrafts(s, t, client, id, commit, unique);
    SwapAfterHint(HintedCall(s, t, client, id, commit, unique), t);
  }

  /** A load call that nothing interrupts, up to the point where it has parsed the file. */
  function LoadCall(s: State, t: TaskId, client: Client, id: Ident): State {
    Step(Step(s, ReadRow(t, client, id)), ReadFile(t))
  }

  /** The call that last moved the pointer put its file into the bucket of its new location. */
  ghost predicate LastMoveKeptBucket(history: seq<Event>, id: Ident) {
    exists i :: 0 <= i < |history| && !history[i].Dropped?
      && CurrentOf(history, id).Some? && history[i].location == CurrentOf(history, id).value.location
      && StoreUsed(history[i]) == history[i].location.bucket
  }

  lemma PointerHomeIff(s: State, id: Ident)
    requires Inv(s) && id in s.rows
    ensures var at := s.rows[id].location;
      && at.unique in s.written
      && (LastMoveKeptBucket(s.history, id) <==> s.written[at.unique].store == at.bucket)
  {
    var at := s.rows[id].location;
    assert PublishedFor(s.written, s.published, id, at);
    assert WonBy(s.history, at.unique);
    var i :| 0 <= i < |s.history| && !s.history[i].Dropped? && s.history[i].location.unique == at.unique;
    assert EventSound(s.history[i], s.written);
    forall j | 0 <= j < |s.history| && !s.history[j].Dropped? && s.history[j].location == at
      ensures StoreUsed(s.history[j]) == s.written[at.unique].store
    {
      assert EventSound(s.history[j], s.written);
    }
  }

  /**
   A load of an existing table gets through exactly when the table's metadata is
   uncompressed and the commit that wrote it did not move the table to another bucket.
   */
  lemma LoadSucceedsIff(actions: seq<Action>, t: TaskId, client: Client, id: Ident)
    requires t !in Run(EMPTY, actions).tasks && id in Run(EMPTY, actions).rows
    ensures
      var s := Run(EMPTY, actions);
      var loaded := LoadCall(s, t, client, id);
      && (t in loaded.tasks <==> !s.rows[id].location.gzip && LastMoveKeptBucket(s.history, id))
      && (t in loaded.tasks ==>
            && loaded.tasks[t].Finishing? && CurrentOf(s.history, id).Some?
            && loaded.tasks[t].location == s.rows[id].location
            && loaded.tasks[t].meta == CurrentOf(s.history, id).value.meta)
  {
    RunInv(actions);
    var s := Run(EMPTY, actions);
    var at := s.rows[id].location;
    assert ReachableFrom(s.written, at, at);
    ReclamationSafe(actions, id, at);
    PointerHomeIff(s, id);
    NoLostUpdate(actions, id);
    LoadCallReads(s, t, client, id);
  }

  lemma LoadCallReads(s: State, t: TaskId, client: Client, id: Ident)
    requires t !in s.tasks && id in s.rows
    ensures var at, loaded := s.rows[id].location, LoadCall(s, t, client, id);
      && (t in loaded.tasks <==> at in s.files && !at.gzip)
      && (t in loaded.tasks ==> loaded.tasks[t] == Finishing(client, id, at.bucket, at, s.files[at], []))
  {
  }

  // ---- Witnesses ----

  /** The states a creation of table "t" goes through, the first client working alone. */
  function CreateStages(content: Content): seq<State> {
    var location, meta := NewLocation(content, 0), Meta(Table, content, []);
    var task := Creating(0, "t", location, meta, Drafted);
    var s1 := EMPTY.(tasks := map[0 := task], written := map[0 := Written("t", location, meta, content.bucket)]);
    var s2 := s1.(files := map[location := meta], tasks := map[0 := Creating(0, "t", location, meta, Stored)]);
    var s3 := s2.(hints := map[(content.bucket, content.dir) := location], tasks := map[0 := Creating(0, "t", location, meta, Hinted)]);
    var s4 := s3.(rows := map["t" := Row(location, None)], published := {0}, history := [Created("t", location, meta)],
                  tasks := map[0 := Finishing(0, "t", content.bucket, location, meta, [])]);
    var s5 := s4.(caches := map[(0, "t") := Entry(location, meta)], tasks := map[]);
    [EMPTY, s1, s2, s3, s4, s5]
  }

  function CreateCall(content: Content): seq<Action> {
    [BeginCreate(0, 0, "t", Table, content, 0), PutFile(0), PutHint(0, true), Insert(0), FillCache(0)]
  }

  lemma CreateDrafts(content: Content)
    ensures Step(EMPTY, CreateCall(content)[0]) == CreateStages(content)[1]
  {
  }

  lemma CreateStores(content: Content)
    ensures Step(CreateStages(content)[1], CreateCall(content)[1]) == CreateStages(content)[2]
  {
  }

  lemma CreateHints(content: Content)
    ensures Step(CreateStages(content)[2], CreateCall(content)[2]) == CreateStages(content)[3]
  {
  }

  lemma CreateInserts(content: Content)
    ensures Step(CreateStages(content)[3], CreateCall(content)[3]) == CreateStages(content)[4]
  {
  }

  lemma CreateFills(content: Content)
    ensures Step(CreateStages(content)[4], CreateCall(content)[4]) == CreateStages(content)[5]
  {
  }

  lemma {:induction false} RunThrough(stages: seq<State>, actions: seq<Action>)
    requires |stages| == |actions| + 1
    requires forall i :: 0 <= i < |actions| ==> Step(stages[i], actions[i]) == stages[i + 1]
    ensures Run(stages[0], actions) == stages[|actions|]
    decreases |actions|
  {
    if actions != [] {
      RunThrough(stages[1..], actions[1..]);
    }
  }

  function CreatedTable(content: Content): State { CreateStages(content)[5] }

  lemma CreatedTableReached(content: Content)
    ensures Run(EMPTY, CreateCall(content)) == CreatedTable(content)
  {
    CreateDrafts(content);
    CreateStores(content);
    CreateHints(content);
    CreateInserts(content);
    CreateFills(content);
    var stages, actions := CreateStages(content), CreateCall(content);
    forall i | 0 <= i < |actions| ensures Step(stages[i], actions[i]) == stages[i + 1] {
      assert i == 0 || i == 1 || i == 2 || i == 3 || i == 4;
    }
    RunThrough(stages, actions);
  }

  function MovedTo(bucket: string): Commit {
    Commit(Table, (c: Content) => true, (c: Content) => Some(c.(bucket := bucket)))
  }

  const HERE: Content := Content("a", "d", false, map[], 0, 0)

  /** What a commit that moves the table to `bucket` drafts over the fresh table. */
  lemma MoveDraft(bucket: string)
    ensures
      var head := NewLocation(HERE, 0);
      var draft := Supersede(Meta(Table, HERE, []), head, MovedTo(bucket));
      && draft.Some? && draft.value.expired == []
      && draft.value.meta.content == HERE.(bucket := bucket)
  {
  }

  /** One commit that relocates a table to another bucket leaves a pointer to a file that is not there. */
  lemma BucketMoveStrandsTable()
    ensures
      var s := CommitCall(CreatedTable(HERE), 0, 0, "t", MovedTo("b"), 1);
      "t" in s.rows && s.rows["t"].location.bucket == "b" && s.rows["t"].location !in s.files
  {
    MoveDraft("b");
    CommittedFileReadableIff(CreatedTable(HERE), 0, 0, "t", MovedTo("b"), 1);
  }

  /** Both calls have drafted over the same pointer before either stores its file. */
  function Overlapping(): State {
    Step(Step(CreatedTable(HERE), BeginCommit(1, 0, "t", MovedTo("a"), 1)), BeginCommit(2, 0, "t", MovedTo("a"), 2))
  }

  predicate ReadyOver(s: State, t: TaskId, previous: Loc, location: Loc) {
    && t in s.tasks && s.tasks[t].Committing? && s.tasks[t].stage.Drafted?
    && s.tasks[t].id == "t" && s.tasks[t].previous == previous && s.tasks[t].location == location
  }

  lemma OverlappingReady()
    ensures var s, head := Overlapping(), NewLocation(HERE, 0);
      && ReadyOver(s, 1, head, Loc("a", "d", 1, false)) && ReadyOver(s, 2, head, Loc("a", "d", 2, false))
      && "t" in s.rows && s.rows["t"].location == head && |s.history| == 1
  {
    MoveDraft("a");
    var s1 := Step(CreatedTable(HERE), BeginCommit(1, 0, "t", MovedTo("a"), 1));
    assert ReadyOver(s1, 1, NewLocation(HERE, 0), Loc("a", "d", 1, false));
    assert (0, "t") in s1.caches;
  }

  function RestOfCommit(s: State, t: TaskId): State {
    Step(Step(Step(s, PutFile(t)), PutHint(t, true)), Swap(t))
  }

  lemma RestOfCommitEffect(s: State, t: TaskId, previous: Loc, location: Loc)
    requires ReadyOver(s, t, previous, location) && "t" in s.rows
    ensures var s' := RestOfCommit(s, t);
      && (previous.bucket, location.dir) in s'.hints && s'.hints[(previous.bucket, location.dir)] == location
      && "t" in s'.rows
      && (forall u :: u in s.tasks && u != t ==> u in s'.tasks && s'.tasks[u] == s.tasks[u])
      && (if s.rows["t"].location == previous
          then s'.rows["t"].location == location && |s'.history| == |s.history| + 1
          else s'.rows == s.rows && s'.history == s.history)
  {
    var stored := Step(s, PutFile(t));
    var hinted := Step(stored, PutHint(t, true));
    assert hinted.tasks[t].Committing? && hinted.tasks[t].stage.Hinted?;
    assert RestOfCommit(s, t) == StepSwap(hinted, t, hinted.tasks[t]);
  }

  /** Of two overlapping commits the loser's hint write comes last: the hint names a file no pointer ever names. */
  lemma LosingCommitMovesHint()
    ensures
      var won := RestOfCommit(Overlapping(), 1);
      var lost := RestOfCommit(won, 2);
      && "t" in won.rows && won.rows["t"].location.unique == 1 && |won.history| == 2
      && lost.rows == won.rows && lost.history == won.history
      && ("a", "d") in won.hints && won.hints[("a", "d")].unique == 1
      && ("a", "d") in lost.hints && lost.hints[("a", "d")].unique == 2
  {
    OverlappingReady();
    var head := NewLocation(HERE, 0);
    RestOfCommitEffect(Overlapping(), 1, head, Loc("a", "d", 1, false));
    RestOfCommitEffect(RestOfCommit(Overlapping(), 1), 2, head, Loc("a", "d", 2, false));
  }
}
