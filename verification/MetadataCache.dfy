/**
 The parsed-footer cache as objects. A load run without interruption is proved to be the
 run of its own steps in the protocol of `FooterLoad`.
 */
module MetadataCache {
  import opened Scalars
  import opened Lru
  import opened FooterLoad

  /** All the remaining steps of one reader, one after the other. */
  function RunAlone(m: Shared, i: nat, r: Reader, reply: Option<Footer>): (Shared, Option<Footer>)
    decreases Remaining(r.phase)
  {
    if r.phase.Done? then (m, r.phase.result)
    else
      EffectRank(m, r, Own(i, reply));
      var (next, phase) := OwnStep(m, i, r, reply);
      RunAlone(next, i, r.(phase := phase), reply)
  }

  /** One step of a lone reader. */
  lemma AloneStep(m: Shared, i: nat, r: Reader, reply: Option<Footer>) returns (next: Shared, after: Reader)
    requires !r.phase.Done?
    ensures (next, after.phase) == OwnStep(m, i, r, reply) && after == r.(phase := after.phase)
    ensures RunAlone(m, i, r, reply) == RunAlone(next, i, after, reply)
    ensures after.phase.Done? ==> RunAlone(m, i, r, reply) == (next, after.phase.result)
  {
    var (shared, phase) := OwnStep(m, i, r, reply);
    next, after := shared, r.(phase := phase);
  }

  function OwnActions(i: nat, reply: Option<Footer>, n: nat): seq<Action> {
    seq(n, _ => Own(i, reply))
  }

  /** Nine own steps in a row, inside a system of any other readers, are the reader run alone. */
  lemma {:induction false} AloneIsRun(s: System, i: nat, reply: Option<Footer>, n: nat)
    requires i < |s.readers| && Remaining(s.readers[i].phase) <= n
    ensures
      var (shared, result) := RunAlone(s.shared, i, s.readers[i], reply);
      Run(s, OwnActions(i, reply, n)) == System(shared, s.readers[i := s.readers[i].(phase := Done(result))])
    decreases n
  {
    var r := s.readers[i];
    if r.phase.Done? {
      assert s.readers[i := r] == s.readers;
    }
    if n > 0 {
      EffectRank(s.shared, r, Own(i, reply));
      assert OwnActions(i, reply, n)[1..] == OwnActions(i, reply, n - 1);
      AloneIsRun(Step(s, Own(i, reply)), i, reply, n - 1);
    }
  }

  lemma StampedTouch(entries: seq<(string, Entry)>, key: string, size: nat)
    requires Distinct(entries)
    ensures Stamped(Touch(entries, key), key, size) == Stamped(entries, key, size)
  {
    TouchReorders(entries, key, Weight);
    match Find(entries, key)
    case None =>
    case Some(entry) => FindUnique(Touch(entries, key), key, entry);
  }

  /** Whatever phase is reached after the second lookup, the reply is what the load returns. */
  lemma {:induction false} AloneReturnsReply(m: Shared, i: nat, r: Reader, reply: Option<Footer>)
    requires r.phase.Deciding? || r.phase.Direct?
    ensures RunAlone(m, i, r, reply).1 == reply
  {
    var m1, r1 := AloneStep(m, i, r, reply);
    if r1.phase.Fetching? {
      var m2, r2 := AloneStep(m1, i, r1, reply);
      if r2.phase.Fetched? {
        AloneKeepsFooter(m2, i, r2, reply);
      }
    }
  }

  lemma {:induction false} AloneKeepsFooter(m: Shared, i: nat, r: Reader, reply: Option<Footer>)
    requires
      match r.phase
      case Fetched(_, footer) => reply == Some(footer)
      case Noting(_, footer, _) => reply == Some(footer)
      case Latching(_, footer) => reply == Some(footer)
      case Done(result) => reply == result
      case _ => false
    ensures RunAlone(m, i, r, reply).1 == reply
    decreases Remaining(r.phase)
  {
    if !r.phase.Done? {
      EffectRank(m, r, Own(i, reply));
      var (next, phase) := OwnStep(m, i, r, reply);
      AloneKeepsFooter(next, i, r.(phase := phase), reply);
    }
  }

  /** A load returns the cached footer if its size stamp matches, and otherwise what was fetched. */
  lemma AloneReturns(m: Shared, i: nat, key: string, size: nat, reply: Option<Footer>)
    requires Sound(m.store, m.cap, Weight)
    ensures
      RunAlone(m, i, Reader(key, size, Start), reply).1 ==
        if m.cap != 0 && Stamped(m.store.entries, key, size).Some? then Stamped(m.store.entries, key, size) else reply
  {
    StampedTouch(m.store.entries, key, size);
    var m1, r1 := AloneStep(m, i, Reader(key, size, Start), reply);
    if r1.phase.Direct? {
      AloneReturnsReply(m1, i, r1, reply);
    } else if r1.phase.Missed? {
      var m2, r2 := AloneStep(m1, i, r1, reply);
      var m3, r3 := AloneStep(m2, i, r2, reply);
      assert m3.store == m1.store && r3.phase.Tried?;
      var m4, r4 := AloneStep(m3, i, r3, reply);
      assert r4.phase.Deciding?;
      AloneReturnsReply(m4, i, r4, reply);
    }
  }

  /** The two ways a load ends without its fetch being cached. */
  lemma ShortRun(m: Shared, i: nat, key: string, size: nat, reply: Option<Footer>)
    ensures m.cap == 0 ==> RunAlone(m, i, Reader(key, size, Start), reply) == (m, reply)
    ensures m.cap != 0 && Stamped(m.store.entries, key, size).Some? ==>
      RunAlone(m, i, Reader(key, size, Start), reply) ==
        (m.(store := m.store.(entries := Touch(m.store.entries, key))), Stamped(m.store.entries, key, size))
  {
    var m1, r1 := AloneStep(m, i, Reader(key, size, Start), reply);
    if m.cap == 0 {
      var m2, r2 := AloneStep(m1, i, r1, reply);
    }
  }

  /** The shared state once a footer has been stored and its evictions noted. */
  function AfterPut(m: Shared, key: string, size: nat, footer: Footer): Shared {
    var entry := Entry(size, footer);
    var n := Evictions(m.store, key, entry, m.cap);
    var more := if n > 0 then n else 0;
    m.(
      store := PutFooter(m.store, key, entry, m.cap),
      added := m.added + (if IsFresh(m.store, key, entry, m.cap) then 1 else 0),
      evicted := m.evicted + more,
      evictions := m.evictions + more,
      backedOff := m.backedOff || (more > 0 && m.evictions + more > BACKOFF_EVICTIONS))
  }

  function Released(m: Shared, permit: Option<nat>): Shared {
    match permit
    case Some(gate) => m.(held := m.held - {gate})
    case None => m
  }

  lemma PutThenDone(m: Shared, i: nat, key: string, size: nat, permit: Option<nat>, footer: Footer, reply: Option<Footer>)
    ensures RunAlone(m, i, Reader(key, size, Fetched(permit, footer)), reply) ==
      (Released(AfterPut(m, key, size, footer), permit), Some(footer))
  {
    var m1, r1 := AloneStep(m, i, Reader(key, size, Fetched(permit, footer)), reply);
    if r1.phase.Noting? {
      NoteThenDone(m1, i, r1, reply);
    }
  }

  lemma NoteThenDone(m: Shared, i: nat, r: Reader, reply: Option<Footer>)
    requires r.phase.Noting?
    ensures
      var total := m.evictions + r.phase.evicted;
      RunAlone(m, i, r, reply) ==
        (Released(m.(evictions := total, backedOff := m.backedOff || total > BACKOFF_EVICTIONS), r.phase.permit), Some(r.phase.footer))
  {
    var m1, r1 := AloneStep(m, i, r, reply);
    if r1.phase.Latching? {
      var m2, r2 := AloneStep(m1, i, r1, reply);
    }
  }

  /** A load that misses twice, up to its fetch: the permit it may hold, and the state it leaves. */
  function Missing(m: Shared, i: nat, key: string, size: nat): (Shared, Option<nat>) {
    var touched := m.(store := m.store.(entries := Touch(m.store.entries, key)));
    var (gated, gate) := GateFor(touched, key);
    var again := gated.(store := gated.store.(entries := Touch(gated.store.entries, key)));
    if gate in m.held then (again, None) else (again.(held := m.held[gate := i]), Some(gate))
  }

  lemma FirstMiss(m: Shared, i: nat, key: string, size: nat, reply: Option<Footer>) returns (next: Shared, after: Reader)
    requires m.cap != 0 && Stamped(m.store.entries, key, size).None?
    ensures RunAlone(m, i, Reader(key, size, Start), reply) == RunAlone(next, i, after, reply)
    ensures next == Missing(m, i, key, size).0.(store := m.store.(entries := Touch(m.store.entries, key)))
    ensures after == Reader(key, size, Tried(Missing(m, i, key, size).1))
  {
    var m1, r1 := AloneStep(m, i, Reader(key, size, Start), reply);
    var m2, r2 := AloneStep(m1, i, r1, reply);
    next, after := AloneStep(m2, i, r2, reply);
  }

  lemma MissRun(m: Shared, i: nat, key: string, size: nat, reply: Option<Footer>)
    requires m.cap != 0 && Distinct(m.store.entries)
    requires Stamped(m.store.entries, key, size).None?
    ensures
      var (next, permit) := Missing(m, i, key, size);
      RunAlone(m, i, Reader(key, size, Start), reply) ==
        if reply.None? then (Released(next, permit), None)
        else RunAlone(next, i, Reader(key, size, Fetched(permit, reply.value)), reply)
  {
    StampedTouch(m.store.entries, key, size);
    var m3, r3 := FirstMiss(m, i, key, size, reply);
    var m4, r4 := AloneStep(m3, i, r3, reply);
    assert m4 == Missing(m, i, key, size).0;
    var m5, r5 := AloneStep(m4, i, r4, reply);
    var m6, r6 := AloneStep(m5, i, r5, reply);
  }

  class ByteCappedCache {
    const cap: nat
    var entries: seq<(string, Entry)>
    var totalBytes: nat

    constructor (cap: nat)
      ensures this.cap == cap && entries == [] && totalBytes == 0
    {
      this.cap, entries, totalBytes := cap, [], 0;
    }

    function State(): Footers
      reads this
    {
      Store(entries, totalBytes)
    }

    method Lookup(key: string, size: nat) returns (found: Option<Footer>)
      modifies this
      ensures found == Stamped(old(entries), key, size)
      ensures State() == old(State()).(entries := Touch(old(entries), key))
    {
      match Find(entries, key) {
        case None => found := None;
        case Some(entry) =>
          found := if entry.size == size then Some(entry.footer) else None;
          entries := Without(entries, key) + [(key, entry)];
      }
    }

    method Insert(key: string, entry: Entry) returns (evicted: nat)
      requires Sound(State(), cap, Weight)
      modifies this
      ensures State() == PutFooter(old(State()), key, entry, cap)
      ensures evicted == Evictions(old(State()), key, entry, cap)
      ensures Sound(State(), cap, Weight)
    {
      InsertKeepsSound(State(), key, entry, cap, Weight, WrappingAdd);
      var weight := entry.footer.weight;
      evicted := 0;
      if weight > cap {
        return;
      }
      PlaceTotals(State(), key, entry, cap, Weight, WrappingAdd);
      var previous := Find(entries, key);
      entries := Without(entries, key) + [(key, entry)];
      if previous.Some? {
        totalBytes := SaturatingSub(totalBytes, previous.value.footer.weight);
      }
      totalBytes := WrappingAdd(totalBytes, weight);
      evicted := Evict();
    }

    /** Drops least recently used entries until the total is within the cap. */
    method Evict() returns (evicted: nat)
      modifies this
      ensures State() == Shrink(old(State()), cap, Weight)
      ensures evicted == |old(entries)| - |entries|
    {
      evicted := 0;
      while totalBytes > cap
        invariant Shrink(State(), cap, Weight) == Shrink(old(State()), cap, Weight)
        invariant evicted == |old(entries)| - |entries|
        decreases |entries|
      {
        if entries == [] {
          break;
        }
        var weight := entries[0].1.footer.weight;
        entries := entries[1..];
        totalBytes := SaturatingSub(totalBytes, weight);
        evicted := evicted + 1;
      }
    }
  }

  class MetadataCache {
    const store: ByteCappedCache
    var gates: seq<(string, nat)>
    var nextGate: nat
    var held: map<nat, nat>
    var evictions: nat
    var backedOff: bool
    ghost var added: nat
    ghost var evicted: nat

    constructor (cap: nat)
      ensures fresh(store) && Valid() && State() == Initial(cap).shared
    {
      store := new ByteCappedCache(cap);
      gates, nextGate, held := [], 0, map[];
      evictions, backedOff, added, evicted := 0, false, 0, 0;
    }

    ghost function State(): Shared
      reads this, store
    {
      Shared(store.State(), store.cap, gates, nextGate, held, evictions, backedOff, added, evicted)
    }

    ghost predicate Valid()
      reads this, store
    {
      Sound(store.State(), store.cap, Weight)
    }

    /** The nonblocking gate of a key. */
    method InflightGate(key: string) returns (gate: nat)
      modifies this`gates, this`nextGate
      ensures (State(), gate) == GateFor(old(State()), key)
    {
      match Find(gates, key) {
        case Some(found) =>
          gate := found;
          gates := Without(gates, key) + [(key, found)];
        case None =>
          gate := nextGate;
          nextGate := nextGate + 1;
          if |gates| >= GATES_CAP {
            gates := gates[1..];
          }
          gates := gates + [(key, gate)];
      }
    }

    method NoteEvictions(n: nat)
      modifies this`evictions, this`backedOff
      ensures evictions == old(evictions) + n
      ensures backedOff == (old(backedOff) || evictions > BACKOFF_EVICTIONS)
    {
      evictions := evictions + n;
      if evictions > BACKOFF_EVICTIONS {
        backedOff := true;
      }
    }

    method Put(key: string, size: nat, footer: Footer)
      requires Valid()
      modifies this`evictions, this`backedOff, this`added, this`evicted, store
      ensures Valid()
      ensures State() == AfterPut(old(State()), key, size, footer)
    {
      EvictionsNatural(store.State(), key, Entry(size, footer), store.cap);
      added := added + if IsFresh(store.State(), key, Entry(size, footer), store.cap) then 1 else 0;
      var n := store.Insert(key, Entry(size, footer));
      evicted := evicted + n;
      if n > 0 {
        NoteEvictions(n);
      }
    }

    /** Serves a footer from the cache or fetches it; `fetch` is what the inner reader would answer. */
    method Load(me: nat, fetch: Option<Footer>, key: string, size: nat) returns (result: Option<Footer>)
      requires Valid()
      modifies this, store
      ensures Valid()
      ensures (State(), result) == RunAlone(old(State()), me, Reader(key, size, Start), fetch)
      ensures result == if store.cap != 0 && old(Stamped(store.entries, key, size)).Some? then old(Stamped(store.entries, key, size)) else fetch
    {
      AloneReturns(State(), me, key, size, fetch);
      ShortRun(State(), me, key, size, fetch);
      if store.cap == 0 {
        return fetch;
      }
      TouchReorders(store.entries, key, Weight);
      var found := store.Lookup(key, size);
      if found.Some? {
        return found;
      }
      var gate := InflightGate(key);
      var permit := if gate in held then None else Some(gate);
      if permit.Some? {
        held := held[gate := me];
      }
      TouchReorders(store.entries, key, Weight);
      StampedTouch(old(store.entries), key, size);
      found := store.Lookup(key, size);
      assert found.None?;
      var widen := !backedOff;
      MissRun(old(State()), me, key, size, fetch);
      assert (State(), permit) == Missing(old(State()), me, key, size);
      if fetch.Some? {
        PutThenDone(State(), me, key, size, permit, fetch.value, fetch);
        Put(key, size, fetch.value);
      }
      if permit.Some? {
        held := held - {permit.value};
      }
      return fetch;
    }
  }
}
