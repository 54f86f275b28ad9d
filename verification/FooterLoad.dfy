/**
 The parsed-footer cache: its accounting, its one-way latch, and loads that never wait for
 one another. A load is a reader; any number of readers interleave step by step, and one
 that is never scheduled again is a reader paused wherever it stands.
 */
module FooterLoad {
  import opened Scalars
  import opened Lru

  const GATES_CAP := 1024
  const BACKOFF_EVICTIONS := 64

  datatype Footer = Footer(file: string, size: nat, pageIndex: bool, weight: nat)

  datatype Entry = Entry(size: nat, footer: Footer)

  function Weight(key: string, entry: Entry): nat {
    entry.footer.weight
  }

  type Footers = Store<string, Entry>

  /** The stored footer, if its size stamp matches; a stale stamp is a miss. */
  function Stamped(entries: seq<(string, Entry)>, key: string, size: nat): Option<Footer> {
    match Find(entries, key)
    case Some(entry) => if entry.size == size then Some(entry.footer) else None
    case None => None
  }

  function PutFooter(s: Footers, key: string, entry: Entry, cap: nat): Footers {
    Insert(s, key, entry, cap, Weight, WrappingAdd)
  }

  predicate Accepted(entry: Entry, cap: nat) {
    entry.footer.weight <= cap
  }

  predicate IsFresh(s: Footers, key: string, entry: Entry, cap: nat) {
    Accepted(entry, cap) && Find(s.entries, key).None?
  }

  /** How many entries an insert pushes out. */
  function Evictions(s: Footers, key: string, entry: Entry, cap: nat): int {
    |s.entries| + (if IsFresh(s, key, entry, cap) then 1 else 0) - |PutFooter(s, key, entry, cap).entries|
  }

  lemma EvictionsNatural(s: Footers, key: string, entry: Entry, cap: nat)
    requires Sound(s, cap, Weight)
    ensures Evictions(s, key, entry, cap) >= 0
  {
    if Accepted(entry, cap) {
      PlaceTotals(s, key, entry, cap, Weight, WrappingAdd);
      ShrinkKeepsOnly(Place(s, key, entry, Weight, WrappingAdd), cap, Weight);
    }
  }

  // Readers.

  datatype Phase =
    | Start
    | Missed
    | Direct
    | Gated(gate: nat)
    | Tried(permit: Option<nat>)
    | Deciding(permit: Option<nat>)
    | Fetching(permit: Option<nat>, widen: bool)
    | Fetched(permit: Option<nat>, footer: Footer)
    | Noting(permit: Option<nat>, footer: Footer, evicted: nat)
    | Latching(permit: Option<nat>, footer: Footer)
    | Done(result: Option<Footer>)

  datatype Reader = Reader(key: string, size: nat, phase: Phase)

  /** `added` and `evicted` count, over the whole run, entries added and entries pushed out. */
  datatype Shared = Shared(
    store: Footers, cap: nat,
    gates: seq<(string, nat)>, nextGate: nat, held: map<nat, nat>,
    evictions: nat, backedOff: bool,
    added: nat, evicted: nat)

  datatype System = System(shared: Shared, readers: seq<Reader>)

  datatype Action =
    | Begin(key: string, size: nat)
    | Own(reader: nat, reply: Option<Footer>)
    | Cancel(reader: nat)

  function Permit(phase: Phase): Option<nat> {
    match phase
    case Tried(permit) => permit
    case Deciding(permit) => permit
    case Fetching(permit, _) => permit
    case Fetched(permit, _) => permit
    case Noting(permit, _, _) => permit
    case Latching(permit, _) => permit
    case _ => None
  }

  /** Every way out of a load gives its permit back. */
  function Finish(m: Shared, r: Reader, result: Option<Footer>): (Shared, Phase) {
    match Permit(r.phase)
    case Some(gate) => (m.(held := m.held - {gate}), Done(result))
    case None => (m, Done(result))
  }

  /** The key's gate, created on first use; the least recently used gate makes room. */
  function GateFor(m: Shared, key: string): (Shared, nat) {
    match Find(m.gates, key)
    case Some(gate) => (m.(gates := Touch(m.gates, key)), gate)
    case None =>
      var room := if |m.gates| >= GATES_CAP then m.gates[1..] else m.gates;
      (m.(gates := room + [(key, m.nextGate)], nextGate := m.nextGate + 1), m.nextGate)
  }

  function Look(m: Shared, r: Reader, onMiss: Phase): (Shared, Phase) {
    var touched := m.(store := m.store.(entries := Touch(m.store.entries, r.key)));
    match Stamped(m.store.entries, r.key, r.size)
    case Some(footer) => Finish(touched, r, Some(footer))
    case None => (touched, onMiss)
  }

  function Keep(m: Shared, r: Reader, footer: Footer): (Shared, Phase) {
    var entry := Entry(r.size, footer);
    var n := Evictions(m.store, r.key, entry, m.cap);
    var stored := m.(
      store := PutFooter(m.store, r.key, entry, m.cap),
      added := m.added + (if IsFresh(m.store, r.key, entry, m.cap) then 1 else 0),
      evicted := m.evicted + if n > 0 then n else 0);
    if n > 0 then (stored, Noting(Permit(r.phase), footer, n)) else Finish(stored, r, Some(footer))
  }

  function Note(m: Shared, r: Reader, footer: Footer, n: nat): (Shared, Phase) {
    var counted := m.(evictions := m.evictions + n);
    if counted.evictions > BACKOFF_EVICTIONS then (counted, Latching(Permit(r.phase), footer))
    else Finish(counted, r, Some(footer))
  }

  /** The next step of reader `i`. No step waits: each is enabled whatever the others do. */
  function OwnStep(m: Shared, i: nat, r: Reader, reply: Option<Footer>): (Shared, Phase) {
    match r.phase
    case Start => if m.cap == 0 then (m, Direct) else Look(m, r, Missed)
    case Direct => Finish(m, r, reply)
    case Missed =>
      var (next, gate) := GateFor(m, r.key);
      (next, Gated(gate))
    case Gated(gate) =>
      if gate in m.held then (m, Tried(None)) else (m.(held := m.held[gate := i]), Tried(Some(gate)))
    case Tried(permit) => Look(m, r, Deciding(permit))
    case Deciding(permit) => (m, Fetching(permit, !m.backedOff))
    case Fetching(permit, _) =>
      if reply.None? then Finish(m, r, None) else (m, Fetched(permit, reply.value))
    case Fetched(permit, footer) => Keep(m, r, footer)
    case Noting(permit, footer, n) => Note(m, r, footer, n)
    case Latching(permit, footer) => Finish(m.(backedOff := true), r, Some(footer))
    case Done(_) => (m, r.phase)
  }

  /** Dropping a load while its fetch is awaited gives up its permit. */
  function CancelStep(m: Shared, r: Reader): (Shared, Phase) {
    if r.phase.Fetching? || r.phase.Direct? then Finish(m, r, None) else (m, r.phase)
  }

  /** What `a` does to the shared state and to its reader `r`. */
  function Effect(m: Shared, r: Reader, a: Action): (Shared, Phase)
    requires !a.Begin?
  {
    if a.Own? then OwnStep(m, a.reader, r, a.reply) else CancelStep(m, r)
  }

  function Step(s: System, a: Action): System {
    if a.Begin? then s.(readers := s.readers + [Reader(a.key, a.size, Start)])
    else if a.reader >= |s.readers| then s
    else
      var r := s.readers[a.reader];
      var (shared, phase) := Effect(s.shared, r, a);
      System(shared, s.readers[a.reader := r.(phase := phase)])
  }

  function Run(s: System, actions: seq<Action>): System
    decreases |actions|
  {
    if actions == [] then s else Run(Step(s, actions[0]), actions[1..])
  }

  function Initial(cap: nat): System {
    System(Shared(Store([], 0), cap, [], 0, map[], 0, false, 0, 0), [])
  }

  // Loads never wait.

  /** Own steps a reader still has to take. */
  function Remaining(phase: Phase): nat {
    match phase
    case Start => 9
    case Missed => 8
    case Gated(_) => 7
    case Tried(_) => 6
    case Deciding(_) => 5
    case Fetching(_, _) => 4
    case Fetched(_, _) => 3
    case Noting(_, _, _) => 2
    case Latching(_, _) => 1
    case Direct => 1
    case Done(_) => 0
  }

  function OwnSteps(actions: seq<Action>, i: nat): nat {
    if actions == [] then 0
    else (if actions[0].Own? && actions[0].reader == i then 1 else 0) + OwnSteps(actions[1..], i)
  }

  lemma EffectRank(m: Shared, r: Reader, a: Action)
    requires !a.Begin?
    ensures Remaining(Effect(m, r, a).1) <= Remaining(r.phase)
    ensures a.Own? && Remaining(r.phase) > 0 ==> Remaining(Effect(m, r, a).1) < Remaining(r.phase)
  {
  }

  /**
   From any state whatever, a reader is done after at most nine of its own steps, one of
   them its own fetch, whatever the others do or leave undone meanwhile.
   */
  lemma {:induction false} LoadNeverWaits(s: System, actions: seq<Action>, i: nat)
    requires i < |s.readers|
    requires OwnSteps(actions, i) >= Remaining(s.readers[i].phase)
    ensures i < |Run(s, actions).readers| && Run(s, actions).readers[i].phase.Done?
    decreases |actions|
  {
    if actions == [] {
    } else {
      if !actions[0].Begin? && actions[0].reader == i {
        EffectRank(s.shared, s.readers[i], actions[0]);
      }
      LoadNeverWaits(Step(s, actions[0]), actions[1..], i);
    }
  }

  // What every step keeps.

  predicate IsFooterOf(footer: Footer, key: string, size: nat) {
    footer.file == key && footer.size == size
  }

  predicate ReaderOk(r: Reader) {
    match r.phase
    case Fetched(_, footer) => IsFooterOf(footer, r.key, r.size)
    case Noting(_, footer, _) => IsFooterOf(footer, r.key, r.size)
    case Latching(_, footer) => IsFooterOf(footer, r.key, r.size)
    case Done(Some(footer)) => IsFooterOf(footer, r.key, r.size)
    case _ => true
  }

  ghost predicate EntriesOk(entries: seq<(string, Entry)>) {
    forall e :: e in entries ==> IsFooterOf(e.1.footer, e.0, e.1.size)
  }

  /** A fetch that answers answers with a footer of the file it was asked for. */
  predicate FaithfulAction(s: System, a: Action) {
    a.Own? && a.reader < |s.readers| && a.reply.Some? ==>
      IsFooterOf(a.reply.value, s.readers[a.reader].key, s.readers[a.reader].size)
  }

  ghost predicate StoreOk(m: Shared) {
    Sound(m.store, m.cap, Weight) && EntriesOk(m.store.entries)
  }

  ghost predicate ContentsOk(s: System) {
    StoreOk(s.shared) && forall i :: 0 <= i < |s.readers| ==> ReaderOk(s.readers[i])
  }

  lemma LookKeepsContents(m: Shared, r: Reader, onMiss: Phase)
    requires StoreOk(m)
    requires onMiss.Missed? || onMiss.Deciding?
    ensures
      var (next, phase) := Look(m, r, onMiss);
      StoreOk(next) && ReaderOk(r.(phase := phase))
  {
    FindMeans(m.store.entries, r.key);
    TouchReorders(m.store.entries, r.key, Weight);
  }

  lemma KeepKeepsContents(m: Shared, r: Reader, footer: Footer)
    requires StoreOk(m) && IsFooterOf(footer, r.key, r.size)
    ensures
      var (next, phase) := Keep(m, r, footer);
      StoreOk(next) && ReaderOk(r.(phase := phase))
  {
    var entry := Entry(r.size, footer);
    InsertKeepsSound(m.store, r.key, entry, m.cap, Weight, WrappingAdd);
    WithoutMeans(m.store.entries, r.key);
    ShrinkKeepsOnly(Place(m.store, r.key, entry, Weight, WrappingAdd), m.cap, Weight);
  }

  lemma EffectKeepsContents(m: Shared, r: Reader, a: Action)
    requires StoreOk(m) && ReaderOk(r) && !a.Begin?
    requires a.Own? && a.reply.Some? ==> IsFooterOf(a.reply.value, r.key, r.size)
    ensures
      var (next, phase) := Effect(m, r, a);
      StoreOk(next) && ReaderOk(r.(phase := phase))
  {
    match r.phase
    case Start => LookKeepsContents(m, r, Missed);
    case Tried(permit) => LookKeepsContents(m, r, Deciding(permit));
    case Fetched(_, footer) => KeepKeepsContents(m, r, footer);
    case _ =>
  }

  lemma StepKeepsContents(s: System, a: Action)
    requires ContentsOk(s) && FaithfulAction(s, a)
    ensures ContentsOk(Step(s, a))
  {
    if !a.Begin? && a.reader < |s.readers| {
      EffectKeepsContents(s.shared, s.readers[a.reader], a);
    }
  }

  /** Evictions made but not yet added to the counter. */
  function Owed(readers: seq<Reader>): nat {
    if readers == [] then 0
    else Owed(readers[..|readers| - 1]) + OwedBy(readers[|readers| - 1].phase)
  }

  function OwedBy(phase: Phase): nat {
    match phase
    case Noting(_, _, n) => n
    case _ => 0
  }

  lemma {:induction false} OwedUpdate(readers: seq<Reader>, i: nat, r: Reader)
    requires i < |readers|
    ensures Owed(readers[i := r]) == Owed(readers) - OwedBy(readers[i].phase) + OwedBy(r.phase)
  {
    var last := |readers| - 1;
    if i == last {
      assert readers[i := r][..last] == readers[..last];
    } else {
      assert readers[i := r][..last] == readers[..last][i := r];
      OwedUpdate(readers[..last], i, r);
    }
  }

  predicate Counted(s: System) {
    && s.shared.evicted == s.shared.evictions + Owed(s.readers)
    && s.shared.added == |s.shared.store.entries| + s.shared.evicted
  }

  lemma LookCounts(m: Shared, r: Reader, onMiss: Phase)
    requires StoreOk(m)
    ensures Look(m, r, onMiss).0.(store := m.store, held := m.held) == m
    ensures |Look(m, r, onMiss).0.store.entries| == |m.store.entries|
    ensures Look(m, r, onMiss).0.store.used == m.store.used
    ensures Total(Look(m, r, onMiss).0.store.entries, Weight) == Total(m.store.entries, Weight)
    ensures Look(m, r, onMiss).1 == onMiss || Look(m, r, onMiss).1.Done?
  {
    TouchReorders(m.store.entries, r.key, Weight);
  }

  lemma KeepCounts(m: Shared, r: Reader, footer: Footer)
    requires StoreOk(m)
    ensures
      var (next, phase) := Keep(m, r, footer);
      && next.evicted - OwedBy(phase) == m.evicted && next.evictions == m.evictions
      && next.added - next.evicted - |next.store.entries| == m.added - m.evicted - |m.store.entries|
  {
    EvictionsNatural(m.store, r.key, Entry(r.size, footer), m.cap);
  }

  lemma EffectCounts(m: Shared, r: Reader, a: Action)
    requires StoreOk(m) && !a.Begin?
    ensures
      var (next, phase) := Effect(m, r, a);
      && next.evicted - next.evictions - OwedBy(phase) == m.evicted - m.evictions - OwedBy(r.phase)
      && next.added - next.evicted - |next.store.entries| == m.added - m.evicted - |m.store.entries|
  {
    match r.phase
    case Start => LookCounts(m, r, Missed);
    case Tried(permit) => LookCounts(m, r, Deciding(permit));
    case Fetched(_, footer) => KeepCounts(m, r, footer);
    case _ =>
  }

  lemma StepKeepsCount(s: System, a: Action)
    requires StoreOk(s.shared) && Counted(s)
    ensures Counted(Step(s, a))
  {
    if a.Begin? {
      assert (s.readers + [Reader(a.key, a.size, Start)])[..|s.readers|] == s.readers;
    } else if a.reader < |s.readers| {
      var r := s.readers[a.reader];
      EffectCounts(s.shared, r, a);
      OwedUpdate(s.readers, a.reader, r.(phase := Effect(s.shared, r, a).1));
    }
  }

  /** The latch is set only past the threshold; past it, it is set or about to be. */
  ghost predicate LatchOk(s: System) {
    && (s.shared.backedOff ==> s.shared.evictions > BACKOFF_EVICTIONS)
    && (s.shared.evictions > BACKOFF_EVICTIONS && !s.shared.backedOff ==> exists i :: 0 <= i < |s.readers| && s.readers[i].phase.Latching?)
    && forall i :: 0 <= i < |s.readers| && s.readers[i].phase.Latching? ==> s.shared.evictions > BACKOFF_EVICTIONS
  }

  lemma EffectLatches(m: Shared, r: Reader, a: Action)
    requires !a.Begin?
    requires r.phase.Latching? ==> m.evictions > BACKOFF_EVICTIONS
    ensures
      var (next, phase) := Effect(m, r, a);
      && m.evictions <= next.evictions
      && (m.backedOff ==> next.backedOff)
      && (next.backedOff ==> m.backedOff || r.phase.Latching?)
      && (r.phase.Latching? ==> next.backedOff || phase.Latching?)
      && (phase.Latching? ==> next.evictions > BACKOFF_EVICTIONS)
      && (m.evictions <= BACKOFF_EVICTIONS < next.evictions ==> phase.Latching?)
  {
  }

  lemma StepKeepsLatch(s: System, a: Action)
    requires LatchOk(s)
    ensures LatchOk(Step(s, a))
    ensures s.shared.backedOff ==> Step(s, a).shared.backedOff
  {
    var next := Step(s, a);
    if a.Begin? {
      assert forall i :: 0 <= i < |s.readers| ==> next.readers[i] == s.readers[i];
    } else if a.reader < |s.readers| {
      EffectLatches(s.shared, s.readers[a.reader], a);
      assert forall i :: 0 <= i < |s.readers| && i != a.reader ==> next.readers[i] == s.readers[i];
      assert next.readers[a.reader].phase == Effect(s.shared, s.readers[a.reader], a).1;
    }
  }

  /** Permits and the gates they hold correspond one to one. */
  ghost predicate GatesOk(held: map<nat, nat>, readers: seq<Reader>) {
    && (forall g :: g in held ==> held[g] < |readers| && Permit(readers[held[g]].phase) == Some(g))
    && (forall i :: 0 <= i < |readers| && Permit(readers[i].phase).Some? ==>
          Permit(readers[i].phase).value in held && held[Permit(readers[i].phase).value] == i)
  }

  lemma {:induction false} WithoutShorter(gates: seq<(string, nat)>, key: string)
    ensures |Without(gates, key)| <= |gates|
    ensures Find(gates, key).Some? ==> |Without(gates, key)| < |gates|
  {
    if gates != [] { WithoutShorter(gates[1..], key); }
  }

  /** A step keeps its permit, takes a free gate, or gives its permit back. */
  lemma EffectGates(m: Shared, r: Reader, a: Action)
    requires !a.Begin?
    ensures
      var (next, phase) := Effect(m, r, a);
      || (next.held == m.held && Permit(phase) == Permit(r.phase))
      || (Permit(r.phase).None? && Permit(phase).Some? && Permit(phase).value !in m.held
          && next.held == m.held[Permit(phase).value := a.reader])
      || (Permit(r.phase).Some? && Permit(phase).None? && next.held == m.held - {Permit(r.phase).value})
  {
    match r.phase
    case Start =>
    case Tried(_) =>
    case _ =>
  }

  lemma EffectBoundsGates(m: Shared, r: Reader, a: Action)
    requires !a.Begin?
    requires |m.gates| <= GATES_CAP
    ensures |Effect(m, r, a).0.gates| <= GATES_CAP
  {
    WithoutShorter(m.gates, r.key);
  }

  lemma StepKeepsGates(s: System, a: Action)
    requires GatesOk(s.shared.held, s.readers)
    ensures GatesOk(Step(s, a).shared.held, Step(s, a).readers)
  {
    if !a.Begin? && a.reader < |s.readers| {
      EffectGates(s.shared, s.readers[a.reader], a);
      PermitMoves(s.shared.held, Step(s, a).shared.held, s.readers, Step(s, a).readers[a.reader], a.reader);
    }
  }

  lemma PermitMoves(held: map<nat, nat>, after: map<nat, nat>, readers: seq<Reader>, r: Reader, i: nat)
    requires i < |readers| && GatesOk(held, readers)
    requires
      var was, now := Permit(readers[i].phase), Permit(r.phase);
      || (after == held && now == was)
      || (was.None? && now.Some? && now.value !in held && after == held[now.value := i])
      || (was.Some? && now.None? && after == held - {was.value})
    ensures GatesOk(after, readers[i := r])
  {
  }

  lemma StepBoundsGates(s: System, a: Action)
    requires |s.shared.gates| <= GATES_CAP
    ensures |Step(s, a).shared.gates| <= GATES_CAP
  {
    if !a.Begin? && a.reader < |s.readers| {
      EffectBoundsGates(s.shared, s.readers[a.reader], a);
    }
  }

  ghost predicate Inv(s: System) {
    ContentsOk(s) && Counted(s) && LatchOk(s) && GatesOk(s.shared.held, s.readers) && |s.shared.gates| <= GATES_CAP
  }

  ghost predicate FaithfulRun(s: System, actions: seq<Action>)
    decreases |actions|
  {
    actions == [] || (FaithfulAction(s, actions[0]) && FaithfulRun(Step(s, actions[0]), actions[1..]))
  }

  lemma {:induction false} RunKeepsInv(s: System, actions: seq<Action>)
    requires Inv(s) && FaithfulRun(s, actions)
    ensures Inv(Run(s, actions))
    ensures s.shared.backedOff ==> Run(s, actions).shared.backedOff
    decreases |actions|
  {
    if actions != [] {
      StepKeepsContents(s, actions[0]);
      StepKeepsCount(s, actions[0]);
      StepKeepsLatch(s, actions[0]);
      StepKeepsGates(s, actions[0]);
      StepBoundsGates(s, actions[0]);
      RunKeepsInv(Step(s, actions[0]), actions[1..]);
    }
  }

  /** Over every interleaving, what a load returns is a footer of the file and size it asked for. */
  lemma LoadsReturnOwnFooter(cap: nat, actions: seq<Action>, i: nat)
    requires FaithfulRun(Initial(cap), actions)
    requires i < |Run(Initial(cap), actions).readers|
    ensures
      var r := Run(Initial(cap), actions).readers[i];
      r.phase.Done? && r.phase.result.Some? ==> IsFooterOf(r.phase.result.value, r.key, r.size)
  {
    RunKeepsInv(Initial(cap), actions);
  }

  lemma {:induction false} NothingOwed(readers: seq<Reader>)
    requires forall i :: 0 <= i < |readers| ==> readers[i].phase.Done?
    ensures Owed(readers) == 0
  {
    if readers != [] { NothingOwed(readers[..|readers| - 1]); }
  }

  /**
   Once every load has finished, in any interleaving: the latch is set if and only if more
   than 64 entries were ever evicted, live entries are those added less those evicted, and
   no gate is held.
   */
  lemma QuiescentAccounting(cap: nat, actions: seq<Action>)
    requires FaithfulRun(Initial(cap), actions)
    ensures
      var s := Run(Initial(cap), actions);
      (forall i :: 0 <= i < |s.readers| ==> s.readers[i].phase.Done?) ==>
        && (s.shared.backedOff <==> s.shared.evicted > BACKOFF_EVICTIONS)
        && s.shared.added - s.shared.evicted == |s.shared.store.entries|
        && s.shared.held == map[]
        && |s.shared.gates| <= GATES_CAP
  {
    RunKeepsInv(Initial(cap), actions);
    var s := Run(Initial(cap), actions);
    if forall i :: 0 <= i < |s.readers| ==> s.readers[i].phase.Done? {
      NothingOwed(s.readers);
      assert s.shared.held.Keys == {};
    }
  }

  lemma EffectExact(m: Shared, r: Reader, a: Action)
    requires StoreOk(m) && !a.Begin?
    requires Exact(m.store, Weight) && 2 * m.cap <= USIZE_MAX
    ensures Exact(Effect(m, r, a).0.store, Weight) && Effect(m, r, a).0.cap == m.cap
  {
    match r.phase
    case Start => LookCounts(m, r, Missed);
    case Tried(permit) => LookCounts(m, r, Deciding(permit));
    case Fetched(_, footer) => SmallCapExact(m.store, r.key, Entry(r.size, footer), m.cap, Weight, WrappingAdd);
    case _ =>
  }

  /** The running total is exact, in every interleaving, under any cap up to half the address space. */
  lemma {:induction false} TotalsExact(s: System, actions: seq<Action>)
    requires ContentsOk(s) && FaithfulRun(s, actions)
    requires Exact(s.shared.store, Weight) && 2 * s.shared.cap <= USIZE_MAX
    ensures Exact(Run(s, actions).shared.store, Weight) && Run(s, actions).shared.store.used <= s.shared.cap
    decreases |actions|
  {
    if actions != [] {
      var a := actions[0];
      StepKeepsContents(s, a);
      if !a.Begin? && a.reader < |s.readers| {
        EffectExact(s.shared, s.readers[a.reader], a);
      }
      TotalsExact(Step(s, a), actions[1..]);
    }
  }
}
