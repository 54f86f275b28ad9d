/**
 The byte-capped least-recently-used store both Parquet caches are built on: entries from
 least to most recently used, and a running total of their weights kept in machine words.
 */
module Lru {
  import opened Scalars

  const USIZE_MAX := 0xFFFF_FFFF_FFFF_FFFF

  datatype Store<K(==), V> = Store(entries: seq<(K, V)>, used: nat)

  function Find<K(==,!new), V(!new)>(entries: seq<(K, V)>, key: K): Option<V> {
    if entries == [] then None
    else if entries[0].0 == key then Some(entries[0].1)
    else Find(entries[1..], key)
  }

  function Without<K(==,!new), V(!new)>(entries: seq<(K, V)>, key: K): seq<(K, V)> {
    if entries == [] then []
    else if entries[0].0 == key then Without(entries[1..], key)
    else [entries[0]] + Without(entries[1..], key)
  }

  lemma {:induction false} FindMeans<K(!new), V(!new)>(entries: seq<(K, V)>, key: K)
    ensures
      match Find(entries, key)
      case Some(value) => (key, value) in entries
      case None => forall e :: e in entries ==> e.0 != key
  {
    if entries != [] { FindMeans(entries[1..], key); }
  }

  lemma {:induction false} WithoutMeans<K(!new), V(!new)>(entries: seq<(K, V)>, key: K)
    ensures forall e :: e in Without(entries, key) <==> e in entries && e.0 != key
  {
    if entries != [] { WithoutMeans(entries[1..], key); }
  }

  ghost predicate Distinct<K(!new), V(!new)>(entries: seq<(K, V)>) {
    forall i, j :: 0 <= i < j < |entries| ==> entries[i].0 != entries[j].0
  }

  /** Looking a key up makes it the most recently used. */
  function Touch<K(==,!new), V(!new)>(entries: seq<(K, V)>, key: K): seq<(K, V)> {
    match Find(entries, key)
    case None => entries
    case Some(value) => Without(entries, key) + [(key, value)]
  }

  function Total<K, V>(entries: seq<(K, V)>, weigh: (K, V) -> nat): nat {
    if entries == [] then 0 else weigh(entries[0].0, entries[0].1) + Total(entries[1..], weigh)
  }

  function SaturatingSub(a: nat, b: nat): nat {
    if a < b then 0 else a - b
  }

  function SaturatingAdd(a: nat, b: nat): nat {
    if a + b > USIZE_MAX then USIZE_MAX else a + b
  }

  function WrappingAdd(a: nat, b: nat): nat {
    (a + b) % (USIZE_MAX + 1)
  }

  /** Addition on machine words: exact when it fits, short of the sum when it does not. */
  ghost predicate WordAdd(add: (nat, nat) -> nat) {
    forall a: nat, b: nat :: if a + b <= USIZE_MAX then add(a, b) == a + b else add(a, b) < a + b
  }

  /** Evicts from the front until the running total is within the cap. */
  function Shrink<K(==,!new), V(!new)>(s: Store<K, V>, cap: nat, weigh: (K, V) -> nat): Store<K, V>
    decreases |s.entries|
  {
    if s.used <= cap || s.entries == [] then s
    else Shrink(Store(s.entries[1..], SaturatingSub(s.used, weigh(s.entries[0].0, s.entries[0].1))), cap, weigh)
  }

  /** The store once an entry is in, before anything is evicted for it. */
  function Place<K(==,!new), V(!new)>(s: Store<K, V>, key: K, value: V, weigh: (K, V) -> nat, add: (nat, nat) -> nat): Store<K, V> {
    var kept := match Find(s.entries, key)
      case None => s.used
      case Some(previous) => SaturatingSub(s.used, weigh(key, previous));
    Store(Without(s.entries, key) + [(key, value)], add(kept, weigh(key, value)))
  }

  function Insert<K(==,!new), V(!new)>(s: Store<K, V>, key: K, value: V, cap: nat, weigh: (K, V) -> nat, add: (nat, nat) -> nat): Store<K, V> {
    if weigh(key, value) > cap then s else Shrink(Place(s, key, value, weigh, add), cap, weigh)
  }

  /** The running total is that of the live entries. */
  predicate Exact<K(==,!new), V(!new)>(s: Store<K, V>, weigh: (K, V) -> nat) {
    s.used == Total(s.entries, weigh)
  }

  /** What holds of a store whatever its cap, even once a sum did not fit a machine word. */
  ghost predicate Sound<K(!new), V(!new)>(s: Store<K, V>, cap: nat, weigh: (K, V) -> nat) {
    && Distinct(s.entries)
    && (forall e :: e in s.entries ==> weigh(e.0, e.1) <= cap)
    && s.used <= cap
    && s.used <= Total(s.entries, weigh)
  }

  lemma {:induction false} TotalAppend<K(!new), V(!new)>(entries: seq<(K, V)>, more: seq<(K, V)>, weigh: (K, V) -> nat)
    ensures Total(entries + more, weigh) == Total(entries, weigh) + Total(more, weigh)
  {
    if entries == [] {
      assert entries + more == more;
    } else {
      assert (entries + more)[1..] == entries[1..] + more;
      TotalAppend(entries[1..], more, weigh);
    }
  }

  lemma {:induction false} WithoutDistinct<K(!new), V(!new)>(entries: seq<(K, V)>, key: K)
    requires Distinct(entries)
    ensures Distinct(Without(entries, key))
  {
    if entries != [] {
      WithoutDistinct(entries[1..], key);
      WithoutMeans(entries[1..], key);
      var rest := Without(entries[1..], key);
      assert forall e :: e in entries[1..] ==> e.0 != entries[0].0;
      assert forall i :: 0 <= i < |rest| ==> rest[i] in entries[1..];
    }
  }

  lemma {:induction false} WithoutAbsent<K(!new), V(!new)>(entries: seq<(K, V)>, key: K)
    requires forall e :: e in entries ==> e.0 != key
    ensures Without(entries, key) == entries
  {
    if entries != [] {
      assert forall e :: e in entries[1..] ==> e in entries;
      WithoutAbsent(entries[1..], key);
    }
  }

  /** Removing a key takes out exactly its entry. */
  lemma {:induction false} WithoutTakesOne<K(!new), V(!new)>(entries: seq<(K, V)>, key: K, weigh: (K, V) -> nat)
    requires Distinct(entries)
    ensures
      match Find(entries, key)
      case None => Without(entries, key) == entries
      case Some(value) =>
        && |Without(entries, key)| == |entries| - 1
        && Total(Without(entries, key), weigh) == Total(entries, weigh) - weigh(key, value)
  {
    if entries != [] {
      if entries[0].0 == key {
        assert forall e :: e in entries[1..] ==> e.0 != key;
        WithoutAbsent(entries[1..], key);
      } else {
        WithoutTakesOne(entries[1..], key, weigh);
      }
    }
  }

  lemma {:induction false} FindUnique<K(!new), V(!new)>(entries: seq<(K, V)>, key: K, value: V)
    requires Distinct(entries)
    requires (key, value) in entries
    ensures Find(entries, key) == Some(value)
  {
    if entries[0] != (key, value) {
      assert (key, value) in entries[1..];
      FindUnique(entries[1..], key, value);
    }
  }

  lemma {:induction false} WithoutConcat<K(!new), V(!new)>(a: seq<(K, V)>, b: seq<(K, V)>, key: K)
    ensures Without(a + b, key) == Without(a, key) + Without(b, key)
    decreases |a|
  {
    if a == [] {
      assert a + b == b;
    } else {
      assert (a + b)[1..] == a[1..] + b;
      WithoutConcat(a[1..], b, key);
    }
  }

  /** A lookup puts its entry last and leaves the others in their order. */
  lemma TouchMovesLast<K(!new), V(!new)>(entries: seq<(K, V)>, key: K)
    ensures Without(Touch(entries, key), key) == Without(entries, key)
    ensures
      match Find(entries, key)
      case None => Touch(entries, key) == entries
      case Some(value) => Touch(entries, key) != [] && Touch(entries, key)[|Touch(entries, key)| - 1] == (key, value)
  {
    if Find(entries, key).Some? {
      var last := [(key, Find(entries, key).value)];
      WithoutConcat(Without(entries, key), last, key);
      WithoutMeans(entries, key);
      WithoutAbsent(Without(entries, key), key);
      assert Without(last, key) == [];
    }
  }

  /** A lookup reorders the entries and changes nothing else. */
  lemma TouchReorders<K(!new), V(!new)>(entries: seq<(K, V)>, key: K, weigh: (K, V) -> nat)
    requires Distinct(entries)
    ensures Distinct(Touch(entries, key))
    ensures forall e :: e in Touch(entries, key) <==> e in entries
    ensures |Touch(entries, key)| == |entries|
    ensures Total(Touch(entries, key), weigh) == Total(entries, weigh)
  {
    FindMeans(entries, key);
    WithoutMeans(entries, key);
    WithoutTakesOne(entries, key, weigh);
    WithoutDistinct(entries, key);
    match Find(entries, key)
    case None =>
    case Some(value) =>
      TotalAppend(Without(entries, key), [(key, value)], weigh);
      FindAll(entries, key, value);
  }

  lemma FindAll<K(!new), V(!new)>(entries: seq<(K, V)>, key: K, value: V)
    requires Distinct(entries)
    requires Find(entries, key) == Some(value)
    ensures forall e :: e in entries && e.0 == key ==> e == (key, value)
  {
    forall e | e in entries && e.0 == key ensures e == (key, value) {
      FindUnique(entries, key, e.1);
    }
  }

  /** What `Place` adds up to. */
  lemma PlaceTotals<K(!new), V(!new)>(s: Store<K, V>, key: K, value: V, cap: nat, weigh: (K, V) -> nat, add: (nat, nat) -> nat)
    requires Sound(s, cap, weigh) && WordAdd(add)
    ensures
      var placed := Place(s, key, value, weigh, add);
      var sum := Total(Without(s.entries, key), weigh) + weigh(key, value);
      && Total(placed.entries, weigh) == sum
      && placed.used <= sum
      && (Exact(s, weigh) ==> (placed.used == sum <==> sum <= USIZE_MAX))
      && Distinct(placed.entries)
      && |placed.entries| == |s.entries| + (if Find(s.entries, key).None? then 1 else 0)
  {
    WithoutMeans(s.entries, key);
    WithoutTakesOne(s.entries, key, weigh);
    WithoutDistinct(s.entries, key);
    TotalAppend(Without(s.entries, key), [(key, value)], weigh);
  }

  /** Eviction stops before the newest entry, and keeps the gap between total and weights. */
  lemma {:induction false} ShrinkStops<K(!new), V(!new)>(s: Store<K, V>, cap: nat, weigh: (K, V) -> nat)
    requires s.entries != [] && Distinct(s.entries)
    requires forall e :: e in s.entries ==> weigh(e.0, e.1) <= cap
    requires s.used <= Total(s.entries, weigh)
    ensures
      var shrunk := Shrink(s, cap, weigh);
      && shrunk.entries != [] && shrunk.entries[|shrunk.entries| - 1] == s.entries[|s.entries| - 1]
      && Sound(shrunk, cap, weigh)
      && (Exact(shrunk, weigh) <==> Exact(s, weigh))
    decreases |s.entries|
  {
    assert s.entries[0] in s.entries;
    assert |s.entries| == 1 ==> s.used <= weigh(s.entries[0].0, s.entries[0].1);
    if s.used > cap {
      var next := Store(s.entries[1..], SaturatingSub(s.used, weigh(s.entries[0].0, s.entries[0].1)));
      assert forall e :: e in next.entries ==> e in s.entries;
      ShrinkStops(next, cap, weigh);
    }
  }

  /** With an exact total, the evicted entries are the shortest prefix that makes room. */
  lemma {:induction false} ShrinkIsShortest<K(!new), V(!new)>(s: Store<K, V>, cap: nat, weigh: (K, V) -> nat) returns (n: nat)
    requires Exact(s, weigh)
    ensures n <= |s.entries| && Shrink(s, cap, weigh).entries == s.entries[n..]
    ensures Total(s.entries[n..], weigh) <= cap
    ensures forall m :: 0 <= m < n ==> Total(s.entries[m..], weigh) > cap
    decreases |s.entries|
  {
    assert s.entries[0..] == s.entries;
    if s.used <= cap || s.entries == [] {
      n := 0;
    } else {
      var rest := s.entries[1..];
      var k := ShrinkIsShortest(Store(rest, SaturatingSub(s.used, weigh(s.entries[0].0, s.entries[0].1))), cap, weigh);
      n := k + 1;
      assert rest[k..] == s.entries[n..];
      forall m | 0 <= m < n ensures Total(s.entries[m..], weigh) > cap {
        if m > 0 { assert rest[m - 1..] == s.entries[m..]; }
      }
    }
  }

  /** An insert keeps the store sound, and exact if and only if the new sum fits a machine word. */
  lemma InsertKeepsSound<K(!new), V(!new)>(s: Store<K, V>, key: K, value: V, cap: nat, weigh: (K, V) -> nat, add: (nat, nat) -> nat)
    requires Sound(s, cap, weigh) && WordAdd(add)
    ensures Sound(Insert(s, key, value, cap, weigh, add), cap, weigh)
    ensures Exact(s, weigh) ==>
      (Exact(Insert(s, key, value, cap, weigh, add), weigh) <==>
        weigh(key, value) > cap || Total(Without(s.entries, key), weigh) + weigh(key, value) <= USIZE_MAX)
  {
    if weigh(key, value) <= cap {
      PlaceTotals(s, key, value, cap, weigh, add);
      WithoutMeans(s.entries, key);
      ShrinkStops(Place(s, key, value, weigh, add), cap, weigh);
    }
  }

  /** Half the address space is a cap under which no sum ever overflows. */
  lemma SmallCapExact<K(!new), V(!new)>(s: Store<K, V>, key: K, value: V, cap: nat, weigh: (K, V) -> nat, add: (nat, nat) -> nat)
    requires Sound(s, cap, weigh) && Exact(s, weigh) && WordAdd(add)
    requires 2 * cap <= USIZE_MAX
    ensures Exact(Insert(s, key, value, cap, weigh, add), weigh)
  {
    InsertKeepsSound(s, key, value, cap, weigh, add);
    WithoutTakesOne(s.entries, key, weigh);
  }

  /** An accepted entry survives its own insert as the most recently used one. */
  lemma InsertSurvives<K(!new), V(!new)>(s: Store<K, V>, key: K, value: V, cap: nat, weigh: (K, V) -> nat, add: (nat, nat) -> nat)
    requires Sound(s, cap, weigh) && WordAdd(add)
    requires weigh(key, value) <= cap
    ensures
      var after := Insert(s, key, value, cap, weigh, add);
      && after.entries != [] && after.entries[|after.entries| - 1] == (key, value)
      && Find(after.entries, key) == Some(value)
  {
    var after := Insert(s, key, value, cap, weigh, add);
    PlaceTotals(s, key, value, cap, weigh, add);
    WithoutMeans(s.entries, key);
    ShrinkStops(Place(s, key, value, weigh, add), cap, weigh);
    assert (key, value) in after.entries;
    FindUnique(after.entries, key, value);
  }

  /** What an insert evicts is the shortest least-recently-used prefix that makes the entry fit. */
  lemma InsertEvictsShortestPrefix<K(!new), V(!new)>(s: Store<K, V>, key: K, value: V, cap: nat, weigh: (K, V) -> nat, add: (nat, nat) -> nat)
      returns (n: nat)
    requires Sound(s, cap, weigh) && Exact(s, weigh) && WordAdd(add)
    requires weigh(key, value) <= cap
    requires Total(Without(s.entries, key), weigh) + weigh(key, value) <= USIZE_MAX
    ensures n <= |Without(s.entries, key)|
    ensures Insert(s, key, value, cap, weigh, add).entries == Without(s.entries, key)[n..] + [(key, value)]
    ensures Total(Without(s.entries, key)[n..], weigh) + weigh(key, value) <= cap
    ensures forall m :: 0 <= m < n ==> Total(Without(s.entries, key)[m..], weigh) + weigh(key, value) > cap
  {
    var placed := Place(s, key, value, weigh, add);
    PlaceTotals(s, key, value, cap, weigh, add);
    n := ShrinkIsShortest(placed, cap, weigh);
    var rest := Without(s.entries, key);
    PlacedSuffix(rest, key, value, |rest|, weigh);
    PlacedSuffix(rest, key, value, n, weigh);
    forall m | 0 <= m < n ensures Total(rest[m..], weigh) + weigh(key, value) > cap {
      PlacedSuffix(rest, key, value, m, weigh);
    }
  }

  lemma PlacedSuffix<K(!new), V(!new)>(rest: seq<(K, V)>, key: K, value: V, m: nat, weigh: (K, V) -> nat)
    ensures m <= |rest| ==> (rest + [(key, value)])[m..] == rest[m..] + [(key, value)]
    ensures m <= |rest| ==> Total((rest + [(key, value)])[m..], weigh) == Total(rest[m..], weigh) + weigh(key, value)
    ensures m == |rest| + 1 ==> Total((rest + [(key, value)])[m..], weigh) == 0
  {
    if m <= |rest| {
      assert (rest + [(key, value)])[m..] == rest[m..] + [(key, value)];
      TotalAppend(rest[m..], [(key, value)], weigh);
    }
  }

  /** Entries after an insert come from before it, or are the entry itself. */
  lemma {:induction false} ShrinkKeepsOnly<K(!new), V(!new)>(s: Store<K, V>, cap: nat, weigh: (K, V) -> nat)
    ensures forall e :: e in Shrink(s, cap, weigh).entries ==> e in s.entries
    ensures |Shrink(s, cap, weigh).entries| <= |s.entries|
    decreases |s.entries|
  {
    if s.used > cap && s.entries != [] {
      ShrinkKeepsOnly(Store(s.entries[1..], SaturatingSub(s.used, weigh(s.entries[0].0, s.entries[0].1))), cap, weigh);
    }
  }

  /**
   Beyond that the accounting does drift: two entries, each within the cap, whose sum does
   not fit leave a running total below the weights still cached.
   */
  lemma HugeCapDrifts<K(!new), V(!new)>(s: Store<K, V>, key: K, value: V, weigh: (K, V) -> nat)
    requires Sound(s, USIZE_MAX, weigh) && Exact(s, weigh)
    requires Find(s.entries, key).None?
    requires weigh(key, value) <= USIZE_MAX < s.used + weigh(key, value)
    ensures
      var after := Insert(s, key, value, USIZE_MAX, weigh, SaturatingAdd);
      after.used < Total(after.entries, weigh) && USIZE_MAX < Total(after.entries, weigh)
  {
    PlaceTotals(s, key, value, USIZE_MAX, weigh, SaturatingAdd);
    WithoutTakesOne(s.entries, key, weigh);
  }
}
