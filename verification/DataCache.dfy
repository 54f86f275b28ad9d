/**
 The byte-range cache in front of a Parquet reader: what it may hold, what a read through
 it returns, and any number of reads sharing it.
 */
module DataCache {
  import opened Scalars
  import opened Lru

  type Bytes = seq<bv8>

  const ENTRY_OVERHEAD := 192

  datatype Range = Range(start: nat, end: nat)

  datatype Key = Key(file: Bytes, size: nat, range: Range)

  type Entries = seq<(Key, Bytes)>

  function Weight(key: Key, bytes: Bytes): nat {
    SaturatingAdd(SaturatingAdd(|bytes|, |key.file|), ENTRY_OVERHEAD)
  }

  /** Caching a range: skipped when it is empty or would not fit even alone. */
  function PutRange(s: Store<Key, Bytes>, key: Key, bytes: Bytes, cap: nat): Store<Key, Bytes> {
    if bytes == [] then s else Insert(s, key, bytes, cap, Weight, SaturatingAdd)
  }

  predicate InBounds(range: Range, size: nat) {
    range.start <= range.end <= size
  }

  function Slice(content: Bytes, range: Range): Bytes
    requires InBounds(range, |content|)
  {
    content[range.start..range.end]
  }

  /** Files never change: a cached range is forever that range of its file. */
  predicate CorrectEntry(key: Key, bytes: Bytes, files: map<Bytes, Bytes>) {
    && key.file in files && |files[key.file]| == key.size
    && InBounds(key.range, key.size)
    && bytes == Slice(files[key.file], key.range)
  }

  ghost predicate Correct(entries: Entries, files: map<Bytes, Bytes>) {
    forall e :: e in entries ==> CorrectEntry(e.0, e.1, files)
  }

  lemma PutKeepsCorrect(s: Store<Key, Bytes>, key: Key, bytes: Bytes, cap: nat, files: map<Bytes, Bytes>)
    requires Correct(s.entries, files)
    requires CorrectEntry(key, bytes, files)
    ensures Correct(PutRange(s, key, bytes, cap).entries, files)
  {
    WithoutMeans(s.entries, key);
    ShrinkKeepsOnly(Place(s, key, bytes, Weight, SaturatingAdd), cap, Weight);
  }

  lemma PutKeepsSound(s: Store<Key, Bytes>, key: Key, bytes: Bytes, cap: nat)
    requires Sound(s, cap, Weight)
    ensures Sound(PutRange(s, key, bytes, cap), cap, Weight)
    ensures Exact(s, Weight) && 2 * cap <= USIZE_MAX ==> Exact(PutRange(s, key, bytes, cap), Weight)
  {
    InsertKeepsSound(s, key, bytes, cap, Weight, SaturatingAdd);
    if Exact(s, Weight) && 2 * cap <= USIZE_MAX {
      SmallCapExact(s, key, bytes, cap, Weight, SaturatingAdd);
    }
  }

  /** The ranges a read has to fetch, in request order. */
  function Missing(entries: Entries, file: Bytes, size: nat, ranges: seq<Range>): seq<Range> {
    if ranges == [] then []
    else
      var last := |ranges| - 1;
      var before := Missing(entries, file, size, ranges[..last]);
      if Find(entries, Key(file, size, ranges[last])).Some? then before else before + [ranges[last]]
  }

  datatype Failure = OutOfBounds | FetchFailed | Incomplete | Truncated

  datatype Result<+T> = Ok(value: T) | Err(failure: Failure)

  datatype Metrics = Metrics(hits: nat, misses: nat, hitBytes: nat, missBytes: nat)

  function Length(range: Range): int {
    range.end - range.start
  }

  predicate IsShort(range: Range, bytes: Bytes) {
    |bytes| != Length(range)
  }

  /** How a read ends, as a function of what is cached and what the inner reader answers. */
  function ReadFailure(entries: Entries, file: Bytes, size: nat, ranges: seq<Range>, inner: seq<Range> -> Option<seq<Bytes>>): Option<Failure> {
    if exists i :: 0 <= i < |ranges| && !InBounds(ranges[i], size) then Some(OutOfBounds)
    else
      var missing := Missing(entries, file, size, ranges);
      if missing == [] then None
      else
        match inner(missing)
        case None => Some(FetchFailed)
        case Some(fetched) =>
          if |fetched| != |missing| then Some(Incomplete)
          else if exists i :: 0 <= i < |missing| && IsShort(missing[i], fetched[i]) then Some(Truncated)
          else None
  }

  /** A reply of the inner reader may stop short, anywhere, but holds no wrong byte. */
  predicate FaithfulReply(missing: seq<Range>, fetched: seq<Bytes>, content: Bytes) {
    forall i :: 0 <= i < |missing| && i < |fetched| && InBounds(missing[i], |content|) ==> fetched[i] <= Slice(content, missing[i])
  }

  ghost predicate Faithful(inner: seq<Range> -> Option<seq<Bytes>>, content: Bytes) {
    forall missing :: inner(missing).Some? ==> FaithfulReply(missing, inner(missing).value, content)
  }

  function Filled(output: seq<Option<Bytes>>): nat {
    if output == [] then 0
    else Filled(output[..|output| - 1]) + match output[|output| - 1] { case None => 0 case Some(bytes) => |bytes| }
  }

  /** The slots still open, in order. */
  function Open(output: seq<Option<Bytes>>): (open: seq<nat>)
    ensures forall j :: 0 <= j < |open| ==> open[j] < |output| && output[open[j]].None?
  {
    if output == [] then []
    else
      var last := |output| - 1;
      Open(output[..last]) + (if output[last].None? then [last] else [])
  }

  lemma {:induction false} OpenMeans(output: seq<Option<Bytes>>)
    ensures forall i :: 0 <= i < |output| && output[i].None? ==> i in Open(output)
  {
    if output != [] { OpenMeans(output[..|output| - 1]); }
  }

  function TotalBytes(parts: seq<Bytes>): nat {
    if parts == [] then 0 else TotalBytes(parts[..|parts| - 1]) + |parts[|parts| - 1]|
  }

  lemma LookedUpAppend(content: Bytes, ranges: seq<Range>, output: seq<Option<Bytes>>, found: Option<Bytes>)
    requires |output| < |ranges| && LookedUp(content, ranges, output)
    requires InBounds(ranges[|output|], |content|)
    requires found.Some? ==> found.value == Slice(content, ranges[|output|])
    ensures LookedUp(content, ranges, output + [found])
  {
  }

  lemma LookedUpFill(content: Bytes, ranges: seq<Range>, output: seq<Option<Bytes>>, index: nat, bytes: Bytes)
    requires index < |output| <= |ranges| && LookedUp(content, ranges, output)
    requires bytes == Slice(content, ranges[index])
    ensures LookedUp(content, ranges, output[index := Some(bytes)])
  {
  }

  /** From `next` on, the awaited keys are those of the open slots, in order. */
  ghost predicate Awaited(file: Bytes, size: nat, ranges: seq<Range>, output: seq<Option<Bytes>>, missing: seq<Range>, keys: seq<(nat, Key)>, next: nat)
    requires |output| <= |ranges|
  {
    && next <= |keys| == |missing|
    && |Open(output)| == |keys| - next
    && forall j :: next <= j < |keys| ==>
         keys[j] == (Open(output)[j - next], Key(file, size, missing[j])) && missing[j] == ranges[Open(output)[j - next]]
  }

  lemma OpenAppend(output: seq<Option<Bytes>>, found: Option<Bytes>)
    ensures Open(output + [found]) == if found.None? then Open(output) + [|output|] else Open(output)
    ensures Filled(output + [found]) == Filled(output) + (if found.None? then 0 else |found.value|)
  {
    assert (output + [found])[..|output|] == output;
  }

  lemma {:induction false} OpenFirst(output: seq<Option<Bytes>>, bytes: Bytes)
    requires Open(output) != []
    ensures Open(output[Open(output)[0] := Some(bytes)]) == Open(output)[1..]
    ensures Filled(output[Open(output)[0] := Some(bytes)]) == Filled(output) + |bytes|
  {
    var last := |output| - 1;
    var first := Open(output)[0];
    var filled := output[first := Some(bytes)];
    if Open(output[..last]) == [] {
      assert first == last;
      assert filled[..last] == output[..last];
    } else {
      assert first == Open(output[..last])[0];
      assert filled[..last] == output[..last][first := Some(bytes)];
      OpenFirst(output[..last], bytes);
    }
  }

  lemma AwaitedAppend(file: Bytes, size: nat, ranges: seq<Range>, output: seq<Option<Bytes>>, missing: seq<Range>, keys: seq<(nat, Key)>, found: Option<Bytes>)
    requires |output| < |ranges|
    requires Awaited(file, size, ranges, output, missing, keys, 0)
    ensures
      var i := |output|;
      if found.Some? then Awaited(file, size, ranges, output + [found], missing, keys, 0)
      else Awaited(file, size, ranges, output + [found], missing + [ranges[i]], keys + [(i, Key(file, size, ranges[i]))], 0)
    ensures Filled(output + [found]) == Filled(output) + (if found.None? then 0 else |found.value|)
  {
    OpenAppend(output, found);
    var i := |output|;
    var longer := output + [found];
    if found.None? {
      var more, at := missing + [ranges[i]], keys + [(i, Key(file, size, ranges[i]))];
      forall j | 0 <= j < |at|
        ensures at[j] == (Open(longer)[j], Key(file, size, more[j])) && more[j] == ranges[Open(longer)[j]]
      {
        assert j < |keys| ==> at[j] == keys[j] && more[j] == missing[j] && Open(longer)[j] == Open(output)[j];
      }
    }
  }

  lemma AwaitedFill(file: Bytes, size: nat, ranges: seq<Range>, output: seq<Option<Bytes>>, missing: seq<Range>, keys: seq<(nat, Key)>, next: nat, bytes: Bytes)
    requires |output| <= |ranges|
    requires Awaited(file, size, ranges, output, missing, keys, next) && next < |keys|
    ensures keys[next].0 < |output| && missing[next] == ranges[keys[next].0] && keys[next].1 == Key(file, size, missing[next])
    ensures Awaited(file, size, ranges, output[keys[next].0 := Some(bytes)], missing, keys, next + 1)
    ensures Filled(output[keys[next].0 := Some(bytes)]) == Filled(output) + |bytes|
  {
    OpenFirst(output, bytes);
  }

  lemma {:induction false} FilledIsTotal(output: seq<Option<Bytes>>, parts: seq<Bytes>)
    requires |output| == |parts|
    requires forall i :: 0 <= i < |output| ==> output[i] == Some(parts[i])
    ensures Filled(output) == TotalBytes(parts)
  {
    if output != [] {
      FilledIsTotal(output[..|output| - 1], parts[..|parts| - 1]);
    }
  }

  lemma SameEntriesSameFind(before: Entries, after: Entries, key: Key)
    requires Distinct(before) && Distinct(after)
    requires forall e :: e in after <==> e in before
    ensures Find(after, key) == Find(before, key)
  {
    FindMeans(before, key);
    FindMeans(after, key);
    match Find(before, key)
    case None =>
    case Some(value) => FindUnique(after, key, value);
  }

  /** What a read has gathered from its lookups. */
  datatype Gathered = Gathered(output: seq<Option<Bytes>>, missing: seq<Range>, keys: seq<(nat, Key)>, metrics: Metrics)

  const NOTHING := Gathered([], [], [], Metrics(0, 0, 0, 0))

  function Gather(g: Gathered, key: Key, found: Option<Bytes>): Gathered {
    Gathered(
      g.output + [found],
      if found.None? then g.missing + [key.range] else g.missing,
      if found.None? then g.keys + [(|g.output|, key)] else g.keys,
      CountLookup(g.metrics, found))
  }

  /** The first half of a read as a function: the cache it leaves and what it has gathered. */
  datatype Lookups = Lookups(entries: Entries, gathered: Gathered)

  function CountLookup(m: Metrics, found: Option<Bytes>): Metrics {
    match found
    case Some(bytes) => m.(hits := m.hits + 1, hitBytes := m.hitBytes + |bytes|)
    case None => m.(misses := m.misses + 1)
  }

  function LookupNext(l: Lookups, key: Key): Lookups {
    Lookups(Touch(l.entries, key), Gather(l.gathered, key, Find(l.entries, key)))
  }

  /** After the first `n` ranges. */
  function LookupsOf(entries: Entries, file: Bytes, size: nat, ranges: seq<Range>, n: nat): Lookups
    requires n <= |ranges|
  {
    if n == 0 then Lookups(entries, NOTHING)
    else LookupNext(LookupsOf(entries, file, size, ranges, n - 1), Key(file, size, ranges[n - 1]))
  }

  ghost predicate LookupsOk(l: Lookups, entries: Entries, file: Bytes, size: nat, ranges: seq<Range>, n: nat, files: map<Bytes, Bytes>)
    requires file in files && n <= |ranges|
  {
    && Distinct(l.entries) && (forall e :: e in l.entries <==> e in entries)
    && GatheredOk(l.gathered, entries, file, size, ranges, n, files)
  }

  ghost predicate GatheredOk(g: Gathered, entries: Entries, file: Bytes, size: nat, ranges: seq<Range>, n: nat, files: map<Bytes, Bytes>)
    requires file in files && n <= |ranges|
  {
    && |g.output| == n && LookedUp(files[file], ranges, g.output)
    && g.missing == Missing(entries, file, size, ranges[..n]) && |g.missing| <= n
    && Awaited(file, size, ranges, g.output, g.missing, g.keys, 0)
    && g.metrics == Metrics(n - |g.missing|, |g.missing|, Filled(g.output), 0)
  }

  lemma GatherSound(g: Gathered, entries: Entries, file: Bytes, size: nat, ranges: seq<Range>, n: nat, files: map<Bytes, Bytes>)
    requires Distinct(entries) && Correct(entries, files) && file in files && |files[file]| == size
    requires n < |ranges| && InBounds(ranges[n], size)
    requires GatheredOk(g, entries, file, size, ranges, n, files)
    ensures
      var key := Key(file, size, ranges[n]);
      GatheredOk(Gather(g, key, Find(entries, key)), entries, file, size, ranges, n + 1, files)
  {
    var key := Key(file, size, ranges[n]);
    var found := Find(entries, key);
    AwaitedAppend(file, size, ranges, g.output, g.missing, g.keys, found);
    FoundIsRight(entries, key, files);
    LookedUpAppend(files[file], ranges, g.output, found);
    MissingStep(entries, file, size, ranges, n);
  }

  lemma MissingStep(entries: Entries, file: Bytes, size: nat, ranges: seq<Range>, i: nat)
    requires i < |ranges|
    ensures Missing(entries, file, size, ranges[..i + 1]) ==
      if Find(entries, Key(file, size, ranges[i])).Some? then Missing(entries, file, size, ranges[..i])
      else Missing(entries, file, size, ranges[..i]) + [ranges[i]]
  {
    assert ranges[..i + 1][..i] == ranges[..i];
  }

  /** Every lookup of a request, among entries that only change their order. */
  lemma {:induction false} LookupsSound(entries: Entries, file: Bytes, size: nat, ranges: seq<Range>, n: nat, files: map<Bytes, Bytes>)
    requires Distinct(entries) && Correct(entries, files) && file in files && |files[file]| == size && n <= |ranges|
    requires forall i :: 0 <= i < n ==> InBounds(ranges[i], size)
    ensures LookupsOk(LookupsOf(entries, file, size, ranges, n), entries, file, size, ranges, n, files)
  {
    if n > 0 {
      LookupsSound(entries, file, size, ranges, n - 1, files);
      NextSound(LookupsOf(entries, file, size, ranges, n - 1), entries, file, size, ranges, n - 1, files);
    }
  }

  lemma NextSound(l: Lookups, entries: Entries, file: Bytes, size: nat, ranges: seq<Range>, n: nat, files: map<Bytes, Bytes>)
    requires Distinct(entries) && Correct(entries, files) && file in files && |files[file]| == size
    requires n < |ranges| && InBounds(ranges[n], size)
    requires LookupsOk(l, entries, file, size, ranges, n, files)
    ensures LookupsOk(LookupNext(l, Key(file, size, ranges[n])), entries, file, size, ranges, n + 1, files)
  {
    var key := Key(file, size, ranges[n]);
    SameEntriesSameFind(entries, l.entries, key);
    TouchReorders(l.entries, key, Weight);
    GatherSound(l.gathered, entries, file, size, ranges, n, files);
  }

  lemma {:induction false} LookupsKeepSound(s: Store<Key, Bytes>, cap: nat, file: Bytes, size: nat, ranges: seq<Range>, n: nat)
    requires Sound(s, cap, Weight) && n <= |ranges|
    ensures Sound(s.(entries := LookupsOf(s.entries, file, size, ranges, n).entries), cap, Weight)
  {
    if n > 0 {
      LookupsKeepSound(s, cap, file, size, ranges, n - 1);
      TouchReorders(LookupsOf(s.entries, file, size, ranges, n - 1).entries, Key(file, size, ranges[n - 1]), Weight);
    }
  }

  lemma FoundIsRight(entries: Entries, key: Key, files: map<Bytes, Bytes>)
    ensures Correct(entries, files) && Find(entries, key).Some? ==> CorrectEntry(key, Find(entries, key).value, files)
  {
    FindMeans(entries, key);
  }

  predicate CompleteUpTo(keys: seq<(nat, Key)>, fetched: seq<Bytes>, n: nat)
    requires n <= |keys| == |fetched|
  {
    n == 0 || (CompleteUpTo(keys, fetched, n - 1) && !IsShort(keys[n - 1].1.range, fetched[n - 1]))
  }

  lemma {:induction false} AllComplete(keys: seq<(nat, Key)>, fetched: seq<Bytes>, n: nat)
    requires n <= |keys| == |fetched|
    ensures CompleteUpTo(keys, fetched, n) <==> forall j :: 0 <= j < n ==> !IsShort(keys[j].1.range, fetched[j])
  {
    if n > 0 { AllComplete(keys, fetched, n - 1); }
  }

  function BytesUpTo(fetched: seq<Bytes>, n: nat): nat
    requires n <= |fetched|
  {
    if n == 0 then 0 else BytesUpTo(fetched, n - 1) + |fetched[n - 1]|
  }

  /** The cache after the first `n` fetched ranges have been put. */
  function StoredState(s: Store<Key, Bytes>, keys: seq<(nat, Key)>, fetched: seq<Bytes>, n: nat, cap: nat): Store<Key, Bytes>
    requires n <= |keys| == |fetched|
  {
    if n == 0 then s else PutRange(StoredState(s, keys, fetched, n - 1, cap), keys[n - 1].1, fetched[n - 1], cap)
  }

  /** The output after the first `n` fetched ranges have been filled in. */
  function FilledSlots(open: seq<Option<Bytes>>, keys: seq<(nat, Key)>, fetched: seq<Bytes>, n: nat): (output: seq<Option<Bytes>>)
    requires n <= |keys| == |fetched| && forall j :: 0 <= j < |keys| ==> keys[j].0 < |open|
    ensures |output| == |open|
  {
    if n == 0 then open else FilledSlots(open, keys, fetched, n - 1)[keys[n - 1].0 := Some(fetched[n - 1])]
  }

  lemma KeysMatch(file: Bytes, size: nat, ranges: seq<Range>, open: seq<Option<Bytes>>, missing: seq<Range>, keys: seq<(nat, Key)>)
    requires |open| <= |ranges| && Awaited(file, size, ranges, open, missing, keys, 0)
    ensures |keys| == |missing| && forall j :: 0 <= j < |keys| ==> keys[j].0 < |open| && keys[j].1.range == missing[j]
  {
  }

  /** A complete reply is the range asked for, and what its slot is to hold. */
  predicate ReplyRight(file: Bytes, ranges: seq<Range>, key: (nat, Key), bytes: Bytes, files: map<Bytes, Bytes>)
    requires file in files
  {
    && CorrectEntry(key.1, bytes, files)
    && key.0 < |ranges| && InBounds(ranges[key.0], |files[file]|) && bytes == Slice(files[file], ranges[key.0])
  }

  lemma CompleteReply(file: Bytes, size: nat, ranges: seq<Range>, open: seq<Option<Bytes>>, missing: seq<Range>,
      keys: seq<(nat, Key)>, fetched: seq<Bytes>, j: nat, files: map<Bytes, Bytes>)
    requires file in files && |files[file]| == size
    requires |open| == |ranges| && LookedUp(files[file], ranges, open)
    requires Awaited(file, size, ranges, open, missing, keys, 0)
    requires |fetched| == |missing| && FaithfulReply(missing, fetched, files[file])
    requires j < |fetched| && !IsShort(keys[j].1.range, fetched[j])
    ensures ReplyRight(file, ranges, keys[j], fetched[j], files)
  {
    assert keys[j] == (Open(open)[j], Key(file, size, missing[j])) && missing[j] == ranges[Open(open)[j]];
    assert InBounds(missing[j], size);
  }

  lemma {:induction false} StoredCorrect(file: Bytes, ranges: seq<Range>, keys: seq<(nat, Key)>, fetched: seq<Bytes>, n: nat,
      s: Store<Key, Bytes>, cap: nat, files: map<Bytes, Bytes>)
    requires file in files && n <= |keys| == |fetched| && Correct(s.entries, files)
    requires forall j :: 0 <= j < n ==> ReplyRight(file, ranges, keys[j], fetched[j], files)
    ensures Correct(StoredState(s, keys, fetched, n, cap).entries, files)
  {
    if n > 0 {
      StoredCorrect(file, ranges, keys, fetched, n - 1, s, cap, files);
      assert ReplyRight(file, ranges, keys[n - 1], fetched[n - 1], files);
      PutKeepsCorrect(StoredState(s, keys, fetched, n - 1, cap), keys[n - 1].1, fetched[n - 1], cap, files);
    }
  }

  lemma {:induction false} FilledRight(file: Bytes, ranges: seq<Range>, open: seq<Option<Bytes>>, keys: seq<(nat, Key)>, fetched: seq<Bytes>,
      n: nat, files: map<Bytes, Bytes>)
    requires file in files && n <= |keys| == |fetched| && |open| <= |ranges| && LookedUp(files[file], ranges, open)
    requires forall j :: 0 <= j < |keys| ==> keys[j].0 < |open|
    requires forall j :: 0 <= j < n ==> ReplyRight(file, ranges, keys[j], fetched[j], files)
    ensures LookedUp(files[file], ranges, FilledSlots(open, keys, fetched, n))
  {
    if n > 0 {
      FilledRight(file, ranges, open, keys, fetched, n - 1, files);
      assert ReplyRight(file, ranges, keys[n - 1], fetched[n - 1], files);
      LookedUpFill(files[file], ranges, FilledSlots(open, keys, fetched, n - 1), keys[n - 1].0, fetched[n - 1]);
    }
  }

  lemma {:induction false} FilledAwaits(file: Bytes, size: nat, ranges: seq<Range>, open: seq<Option<Bytes>>, missing: seq<Range>,
      keys: seq<(nat, Key)>, fetched: seq<Bytes>, n: nat)
    requires n <= |keys| == |fetched| && |open| <= |ranges|
    requires forall j :: 0 <= j < |keys| ==> keys[j].0 < |open|
    requires Awaited(file, size, ranges, open, missing, keys, 0)
    ensures Awaited(file, size, ranges, FilledSlots(open, keys, fetched, n), missing, keys, n)
    ensures Filled(FilledSlots(open, keys, fetched, n)) == Filled(open) + BytesUpTo(fetched, n)
  {
    if n > 0 {
      FilledAwaits(file, size, ranges, open, missing, keys, fetched, n - 1);
      AwaitedFill(file, size, ranges, FilledSlots(open, keys, fetched, n - 1), missing, keys, n - 1, fetched[n - 1]);
    }
  }

  /** What holds after storing `n` complete replies. */
  lemma StoredSoFar(file: Bytes, size: nat, ranges: seq<Range>, open: seq<Option<Bytes>>, missing: seq<Range>,
      keys: seq<(nat, Key)>, fetched: seq<Bytes>, n: nat, s: Store<Key, Bytes>, cap: nat, files: map<Bytes, Bytes>)
    requires Correct(s.entries, files) && file in files && |files[file]| == size
    requires |open| == |ranges| && LookedUp(files[file], ranges, open)
    requires Awaited(file, size, ranges, open, missing, keys, 0)
    requires |fetched| == |missing| && FaithfulReply(missing, fetched, files[file])
    requires n <= |fetched| && forall j :: 0 <= j < n ==> !IsShort(keys[j].1.range, fetched[j])
    requires forall j :: 0 <= j < |keys| ==> keys[j].0 < |open|
    ensures
      var output := FilledSlots(open, keys, fetched, n);
      && Correct(StoredState(s, keys, fetched, n, cap).entries, files)
      && LookedUp(files[file], ranges, output)
      && |Open(output)| == |fetched| - n
      && Filled(output) == Filled(open) + BytesUpTo(fetched, n)
  {
    forall j | 0 <= j < n ensures ReplyRight(file, ranges, keys[j], fetched[j], files) {
      CompleteReply(file, size, ranges, open, missing, keys, fetched, j, files);
    }
    StoredCorrect(file, ranges, keys, fetched, n, s, cap, files);
    FilledRight(file, ranges, open, keys, fetched, n, files);
    FilledAwaits(file, size, ranges, open, missing, keys, fetched, n);
  }

  class DataCache {
    const cap: nat
    var entries: Entries
    var used: nat

    constructor (cap: nat)
      ensures this.cap == cap && entries == [] && used == 0
    {
      this.cap, entries, used := cap, [], 0;
    }

    function State(): Store<Key, Bytes>
      reads this
    {
      Store(entries, used)
    }

    ghost predicate Valid()
      reads this
    {
      Sound(State(), cap, Weight)
    }

    method Get(key: Key) returns (found: Option<Bytes>)
      requires Valid()
      modifies this`entries
      ensures Valid() && used == old(used)
      ensures found == Find(old(entries), key)
      ensures entries == Touch(old(entries), key)
      ensures forall e :: e in entries <==> e in old(entries)
    {
      TouchReorders(entries, key, Weight);
      found := Look(key);
    }

    method Look(key: Key) returns (found: Option<Bytes>)
      modifies this`entries
      ensures found == Find(old(entries), key)
      ensures entries == Touch(old(entries), key)
    {
      found := Find(entries, key);
      if found.Some? {
        entries := Without(entries, key) + [(key, found.value)];
      }
    }

    method Put(key: Key, bytes: Bytes)
      requires Valid()
      modifies this
      ensures Valid()
      ensures State() == PutRange(old(State()), key, bytes, cap)
      ensures old(Exact(State(), Weight)) && 2 * cap <= USIZE_MAX ==> Exact(State(), Weight)
    {
      PutKeepsSound(State(), key, bytes, cap);
      var weight := Weight(key, bytes);
      if weight > cap || bytes == [] {
        return;
      }
      ghost var placed := Place(State(), key, bytes, Weight, SaturatingAdd);
      var previous := Find(entries, key);
      entries := Without(entries, key) + [(key, bytes)];
      if previous.Some? {
        used := SaturatingSub(used, Weight(key, previous.value));
      }
      used := SaturatingAdd(used, weight);
      while used > cap
        invariant Shrink(State(), cap, Weight) == Shrink(placed, cap, Weight)
        decreases |entries|
      {
        if entries == [] {
          break;
        }
        var (oldKey, oldBytes) := entries[0];
        entries := entries[1..];
        used := SaturatingSub(used, Weight(oldKey, oldBytes));
      }
    }

    /** The second half of a read: caches what was fetched and fills the open slots. */
    method StoreFetched(file: Bytes, size: nat, ranges: seq<Range>, open: seq<Option<Bytes>>, missing: seq<Range>,
        missingKeys: seq<(nat, Key)>, fetched: seq<Bytes>, ghost files: map<Bytes, Bytes>)
        returns (truncated: bool, output: seq<Option<Bytes>>, missBytes: nat)
      requires Valid() && Correct(entries, files)
      requires file in files && |files[file]| == size
      requires |open| == |ranges| && LookedUp(files[file], ranges, open)
      requires Awaited(file, size, ranges, open, missing, missingKeys, 0)
      requires |fetched| == |missing| && FaithfulReply(missing, fetched, files[file])
      modifies this
      ensures Valid() && Correct(entries, files)
      ensures truncated <==> exists i :: 0 <= i < |missing| && IsShort(missing[i], fetched[i])
      ensures !truncated ==>
        && |output| == |ranges| && LookedUp(files[file], ranges, output)
        && (forall i :: 0 <= i < |output| ==> output[i].Some?)
        && Filled(output) == Filled(open) + missBytes
    {
      KeysMatch(file, size, ranges, open, missing, missingKeys);
      var stored;
      stored, output, missBytes := StoreAll(open, missingKeys, fetched);
      truncated := stored < |fetched|;
      AllComplete(missingKeys, fetched, stored);
      StoredSoFar(file, size, ranges, open, missing, missingKeys, fetched, stored, old(State()), cap, files);
      assert truncated ==> IsShort(missing[stored], fetched[stored]);
      assert !truncated ==> Open(output) == [];
      OpenMeans(output);
    }

    /** Stores and fills up to the first reply that is cut short. */
    method StoreAll(open: seq<Option<Bytes>>, keys: seq<(nat, Key)>, fetched: seq<Bytes>)
        returns (stored: nat, output: seq<Option<Bytes>>, missBytes: nat)
      requires Valid() && |keys| == |fetched| && forall j :: 0 <= j < |keys| ==> keys[j].0 < |open|
      modifies this
      ensures Valid() && stored <= |fetched|
      ensures State() == StoredState(old(State()), keys, fetched, stored, cap)
      ensures output == FilledSlots(open, keys, fetched, stored) && missBytes == BytesUpTo(fetched, stored)
      ensures CompleteUpTo(keys, fetched, stored)
      ensures stored < |fetched| ==> IsShort(keys[stored].1.range, fetched[stored])
    {
      stored, output, missBytes := 0, open, 0;
      while stored < |fetched|
        invariant Valid() && stored <= |fetched|
        invariant State() == StoredState(old(State()), keys, fetched, stored, cap)
        invariant output == FilledSlots(open, keys, fetched, stored) && missBytes == BytesUpTo(fetched, stored)
        invariant CompleteUpTo(keys, fetched, stored)
      {
        var (index, key) := keys[stored];
        if IsShort(key.range, fetched[stored]) {
          return;
        }
        missBytes := missBytes + |fetched[stored]|;
        Put(key, fetched[stored]);
        output := output[index := Some(fetched[stored])];
        stored := stored + 1;
      }
    }

    /** The first half of a read: every range is looked up once, in request order. */
    method LookupAll(file: Bytes, size: nat, ranges: seq<Range>, ghost files: map<Bytes, Bytes>)
        returns (inBounds: bool, output: seq<Option<Bytes>>, missing: seq<Range>, missingKeys: seq<(nat, Key)>, metrics: Metrics)
      requires Valid() && Correct(entries, files)
      requires file in files && |files[file]| == size
      modifies this
      ensures Valid() && forall e :: e in entries <==> e in old(entries)
      ensures inBounds <==> forall i :: 0 <= i < |ranges| ==> InBounds(ranges[i], size)
      ensures inBounds ==>
        && |output| == |ranges| && LookedUp(files[file], ranges, output)
        && missing == Missing(old(entries), file, size, ranges)
        && Awaited(file, size, ranges, output, missing, missingKeys, 0)
        && |missing| <= |ranges| && metrics == Metrics(|ranges| - |missing|, |missing|, Filled(output), 0)
    {
      var looked, gathered := LookupPrefix(file, size, ranges);
      inBounds := looked == |ranges|;
      output, missing, missingKeys, metrics := gathered.output, gathered.missing, gathered.keys, gathered.metrics;
      LookupsSound(old(entries), file, size, ranges, looked, files);
      LookupsKeepSound(old(State()), cap, file, size, ranges, looked);
      assert ranges[..|ranges|] == ranges;
    }

    /** One lookup, and what it adds to the read's output, fetch list and counters. */
    method LookupOne(key: Key, before: Gathered) returns (gathered: Gathered)
      modifies this`entries
      ensures Lookups(entries, gathered) == LookupNext(Lookups(old(entries), before), key)
    {
      var Gathered(output, missing, keys, metrics) := before;
      var found := Look(key);
      if found.Some? {
        metrics := metrics.(hits := metrics.hits + 1, hitBytes := metrics.hitBytes + |found.value|);
      } else {
        metrics := metrics.(misses := metrics.misses + 1);
        missing := missing + [key.range];
        keys := keys + [(|output|, key)];
      }
      gathered := Gathered(output + [found], missing, keys, metrics);
    }

    /** Looks up to the first range out of bounds. */
    method LookupPrefix(file: Bytes, size: nat, ranges: seq<Range>) returns (looked: nat, gathered: Gathered)
      modifies this`entries
      ensures looked <= |ranges|
      ensures Lookups(entries, gathered) == LookupsOf(old(entries), file, size, ranges, looked)
      ensures forall i :: 0 <= i < looked ==> InBounds(ranges[i], size)
      ensures looked == |ranges| || !InBounds(ranges[looked], size)
    {
      looked, gathered := 0, NOTHING;
      while looked < |ranges|
        invariant looked <= |ranges|
        invariant Lookups(entries, gathered) == LookupsOf(old(entries), file, size, ranges, looked)
        invariant forall i :: 0 <= i < looked ==> InBounds(ranges[i], size)
      {
        var range := ranges[looked];
        if !InBounds(range, size) {
          return;
        }
        gathered := LookupOne(Key(file, size, range), gathered);
        looked := looked + 1;
      }
    }

    /** A read through the cache returns what the file holds, however much of it was cached. */
    method Read(inner: seq<Range> -> Option<seq<Bytes>>, file: Bytes, size: nat, ranges: seq<Range>, ghost files: map<Bytes, Bytes>)
        returns (result: Result<seq<Bytes>>, metrics: Metrics)
      requires Valid() && Correct(entries, files)
      requires file in files && |files[file]| == size
      requires Faithful(inner, files[file])
      modifies this
      ensures Valid() && Correct(entries, files)
      ensures
        match ReadFailure(old(entries), file, size, ranges, inner)
        case Some(failure) => result == Err(failure)
        case None =>
          && result.Ok? && |result.value| == |ranges|
          && (forall i :: 0 <= i < |ranges| ==> InBounds(ranges[i], size) && result.value[i] == Slice(files[file], ranges[i]))
          && metrics.misses == |Missing(old(entries), file, size, ranges)|
          && metrics.hits == |ranges| - metrics.misses
          && metrics.hitBytes + metrics.missBytes == TotalBytes(result.value)
    {
      var inBounds, output, missing, missingKeys;
      inBounds, output, missing, missingKeys, metrics := LookupAll(file, size, ranges, files);
      if !inBounds {
        result := Err(OutOfBounds);
        return;
      }
      assert missing == [] ==> Open(output) == [];
      if missing != [] {
        match inner(missing) {
          case None =>
            result := Err(FetchFailed);
            return;
          case Some(fetched) =>
            if |fetched| != |missingKeys| {
              result := Err(Incomplete);
              return;
            }
            var truncated, bytes;
            truncated, output, bytes := StoreFetched(file, size, ranges, output, missing, missingKeys, fetched, files);
            if truncated {
              result := Err(Truncated);
              return;
            }
            metrics := metrics.(missBytes := bytes);
        }
      }
      OpenMeans(output);
      assert forall i :: 0 <= i < |output| ==> output[i].Some?;
      var parts := seq(|output|, i requires 0 <= i < |output| && output[i].Some? => output[i].value);
      FilledIsTotal(output, parts);
      result := Ok(parts);
    }
  }

  /** What is filled in so far is right. */
  predicate LookedUp(content: Bytes, ranges: seq<Range>, output: seq<Option<Bytes>>)
    requires |output| <= |ranges|
  {
    forall i :: 0 <= i < |output| ==>
      && InBounds(ranges[i], |content|)
      && (output[i].Some? ==> output[i].value == Slice(content, ranges[i]))
  }

  // Any number of reads sharing one cache, lookup by lookup and insert by insert.

  datatype Reading = Reading(
    file: Bytes, ranges: seq<Range>, output: seq<Option<Bytes>>, fetched: Option<seq<(nat, Bytes)>>, metrics: Metrics)

  datatype System = System(cache: Store<Key, Bytes>, readings: map<nat, Reading>)

  datatype Action =
    | Begin(call: nat, file: Bytes, ranges: seq<Range>)
    | Lookup(call: nat)
    | Fetch(call: nat, reply: seq<Bytes>)
    | Keep(call: nat)
    | Abandon(call: nat)

  function Zip(slots: seq<nat>, reply: seq<Bytes>): seq<(nat, Bytes)>
    requires |slots| == |reply|
  {
    seq(|slots|, i requires 0 <= i < |slots| && |slots| == |reply| => (slots[i], reply[i]))
  }

  /** One step of one read; a step that is not enabled changes nothing. */
  function Step(s: System, a: Action, cap: nat, files: map<Bytes, Bytes>): System {
    match a
    case Begin(call, file, ranges) =>
      if call in s.readings || file !in files then s else s.(readings := s.readings[call := Reading(file, ranges, [], None, Metrics(0, 0, 0, 0))])
    case Abandon(call) => s.(readings := s.readings - {call})
    case _ =>
      if a.call !in s.readings then s
      else
        match Advance(s.cache, s.readings[a.call], a, cap, files)
        case (cache, Some(r)) => System(cache, s.readings[a.call := r])
        case (cache, None) => System(cache, s.readings - {a.call})
  }

  /** The step of the read `r`: the cache it leaves, and the read unless it ended in an error. */
  function Advance(cache: Store<Key, Bytes>, r: Reading, a: Action, cap: nat, files: map<Bytes, Bytes>): (Store<Key, Bytes>, Option<Reading>)
    requires a.Lookup? || a.Fetch? || a.Keep?
  {
    if r.file !in files then (cache, Some(r))
    else
      match a
      case Lookup(_) => LookupStep(cache, r, |files[r.file]|)
      case Fetch(_, reply) => (cache, FetchStep(r, reply))
      case Keep(_) => KeepStep(cache, r, |files[r.file]|, cap)
  }

  function LookupStep(cache: Store<Key, Bytes>, r: Reading, size: nat): (Store<Key, Bytes>, Option<Reading>) {
    if |r.output| >= |r.ranges| || r.fetched.Some? then (cache, Some(r))
    else if !InBounds(r.ranges[|r.output|], size) then (cache, None)
    else
      var key := Key(r.file, size, r.ranges[|r.output|]);
      var found := Find(cache.entries, key);
      (cache.(entries := Touch(cache.entries, key)),
       Some(r.(output := r.output + [found], metrics := CountLookup(r.metrics, found))))
  }

  function FetchStep(r: Reading, reply: seq<Bytes>): Option<Reading> {
    if |r.output| != |r.ranges| || r.fetched.Some? then Some(r)
    else if |reply| != |Open(r.output)| then None
    else Some(r.(fetched := Some(Zip(Open(r.output), reply))))
  }

  function KeepStep(cache: Store<Key, Bytes>, r: Reading, size: nat, cap: nat): (Store<Key, Bytes>, Option<Reading>) {
    if r.fetched.None? || r.fetched.value == [] then (cache, Some(r))
    else
      var (index, bytes) := r.fetched.value[0];
      if index >= |r.output| || index >= |r.ranges| || IsShort(r.ranges[index], bytes) then (cache, None)
      else
        (PutRange(cache, Key(r.file, size, r.ranges[index]), bytes, cap), Some(Filling(r, index, bytes)))
  }

  function Filling(r: Reading, index: nat, bytes: Bytes): Reading
    requires index < |r.output| && r.fetched.Some? && r.fetched.value != []
  {
    r.(output := r.output[index := Some(bytes)], fetched := Some(r.fetched.value[1..]),
       metrics := r.metrics.(missBytes := r.metrics.missBytes + |bytes|))
  }

  /** The inner reader's reply, if `a` is one, is faithful. */
  predicate FaithfulAction(s: System, a: Action, files: map<Bytes, Bytes>) {
    a.Fetch? && a.call in s.readings && s.readings[a.call].file in files && |s.readings[a.call].output| <= |s.readings[a.call].ranges| ==>
      var r := s.readings[a.call];
      FaithfulReply(Wanted(r.ranges, Open(r.output)), a.reply, files[r.file])
  }

  function Wanted(ranges: seq<Range>, slots: seq<nat>): seq<Range>
    requires forall j :: 0 <= j < |slots| ==> slots[j] < |ranges|
  {
    seq(|slots|, i requires 0 <= i < |slots| && slots[i] < |ranges| => ranges[slots[i]])
  }

  ghost predicate ReadingOk(r: Reading, files: map<Bytes, Bytes>) {
    && r.file in files
    && |r.output| <= |r.ranges|
    && LookedUp(files[r.file], r.ranges, r.output)
    && (r.fetched.Some? ==>
          && |r.output| == |r.ranges|
          && |r.fetched.value| == |Open(r.output)|
          && forall j :: 0 <= j < |r.fetched.value| ==>
               var (index, bytes) := r.fetched.value[j];
               index == Open(r.output)[j] && bytes <= Slice(files[r.file], r.ranges[index]))
  }

  /** Every lookup is counted, and every byte filled in was counted as hit or missed. */
  predicate Counted(r: Reading) {
    && r.metrics.hits + r.metrics.misses == |r.output|
    && r.metrics.hitBytes + r.metrics.missBytes == Filled(r.output)
  }

  ghost predicate CacheOk(cache: Store<Key, Bytes>, cap: nat, files: map<Bytes, Bytes>) {
    && Sound(cache, cap, Weight)
    && (2 * cap <= USIZE_MAX ==> Exact(cache, Weight))
    && Correct(cache.entries, files)
  }

  ghost predicate Inv(s: System, cap: nat, files: map<Bytes, Bytes>) {
    && CacheOk(s.cache, cap, files)
    && forall call :: call in s.readings ==> ReadingOk(s.readings[call], files) && Counted(s.readings[call])
  }

  ghost predicate AdvanceOk(next: (Store<Key, Bytes>, Option<Reading>), cap: nat, files: map<Bytes, Bytes>) {
    && CacheOk(next.0, cap, files)
    && (next.1.Some? ==> ReadingOk(next.1.value, files) && Counted(next.1.value))
  }

  lemma LookupKeeps(cache: Store<Key, Bytes>, r: Reading, cap: nat, files: map<Bytes, Bytes>)
    requires CacheOk(cache, cap, files) && ReadingOk(r, files) && Counted(r)
    ensures AdvanceOk(LookupStep(cache, r, |files[r.file]|), cap, files)
  {
    if |r.output| < |r.ranges| && r.fetched.None? && InBounds(r.ranges[|r.output|], |files[r.file]|) {
      var key := Key(r.file, |files[r.file]|, r.ranges[|r.output|]);
      TouchReorders(cache.entries, key, Weight);
      FoundIsRight(cache.entries, key, files);
      OpenAppend(r.output, Find(cache.entries, key));
      LookedUpAppend(files[r.file], r.ranges, r.output, Find(cache.entries, key));
    }
  }

  lemma FetchKeeps(r: Reading, reply: seq<Bytes>, files: map<Bytes, Bytes>)
    requires ReadingOk(r, files) && Counted(r)
    requires FaithfulReply(Wanted(r.ranges, Open(r.output)), reply, files[r.file])
    ensures FetchStep(r, reply).Some? ==> ReadingOk(FetchStep(r, reply).value, files) && Counted(FetchStep(r, reply).value)
  {
    var open := Open(r.output);
    if |r.output| == |r.ranges| && r.fetched.None? && |reply| == |open| {
      var fetched := Zip(open, reply);
      forall j | 0 <= j < |fetched|
        ensures fetched[j].1 <= Slice(files[r.file], r.ranges[fetched[j].0])
      {
        assert Wanted(r.ranges, open)[j] == r.ranges[open[j]];
      }
    }
  }

  lemma KeepKeeps(cache: Store<Key, Bytes>, r: Reading, cap: nat, files: map<Bytes, Bytes>)
    requires CacheOk(cache, cap, files) && ReadingOk(r, files) && Counted(r)
    ensures AdvanceOk(KeepStep(cache, r, |files[r.file]|, cap), cap, files)
  {
    if r.fetched.Some? && r.fetched.value != [] {
      var (index, bytes) := r.fetched.value[0];
      if !IsShort(r.ranges[index], bytes) {
        assert bytes == Slice(files[r.file], r.ranges[index]);
        var key := Key(r.file, |files[r.file]|, r.ranges[index]);
        PutKeepsCorrect(cache, key, bytes, cap, files);
        PutKeepsSound(cache, key, bytes, cap);
        KeepReading(r, files);
      }
    }
  }

  lemma KeepReading(r: Reading, files: map<Bytes, Bytes>)
    requires ReadingOk(r, files) && Counted(r) && r.fetched.Some? && r.fetched.value != []
    requires !IsShort(r.ranges[r.fetched.value[0].0], r.fetched.value[0].1)
    ensures
      var (index, bytes) := r.fetched.value[0];
      index < |r.output| && ReadingOk(Filling(r, index, bytes), files) && Counted(Filling(r, index, bytes))
  {
    OpenFirst(r.output, r.fetched.value[0].1);
    LookedUpFill(files[r.file], r.ranges, r.output, r.fetched.value[0].0, r.fetched.value[0].1);
  }

  lemma StepKeepsInv(s: System, a: Action, cap: nat, files: map<Bytes, Bytes>)
    requires Inv(s, cap, files) && FaithfulAction(s, a, files)
    ensures Inv(Step(s, a, cap, files), cap, files)
  {
    if !a.Begin? && !a.Abandon? && a.call in s.readings {
      var r := s.readings[a.call];
      match a
      case Lookup(_) => LookupKeeps(s.cache, r, cap, files);
      case Fetch(_, reply) => FetchKeeps(r, reply, files);
      case Keep(_) => KeepKeeps(s.cache, r, cap, files);
    }
  }

  ghost predicate FaithfulRun(s: System, actions: seq<Action>, cap: nat, files: map<Bytes, Bytes>)
    decreases |actions|
  {
    actions == [] || (FaithfulAction(s, actions[0], files) && FaithfulRun(Step(s, actions[0], cap, files), actions[1..], cap, files))
  }

  function Run(s: System, actions: seq<Action>, cap: nat, files: map<Bytes, Bytes>): System
    decreases |actions|
  {
    if actions == [] then s else Run(Step(s, actions[0], cap, files), actions[1..], cap, files)
  }

  lemma {:induction false} RunKeepsInv(s: System, actions: seq<Action>, cap: nat, files: map<Bytes, Bytes>)
    requires Inv(s, cap, files) && FaithfulRun(s, actions, cap, files)
    ensures Inv(Run(s, actions, cap, files), cap, files)
    decreases |actions|
  {
    if actions != [] {
      StepKeepsInv(s, actions[0], cap, files);
      RunKeepsInv(Step(s, actions[0], cap, files), actions[1..], cap, files);
    }
  }

  function TotalLength(ranges: seq<Range>): int {
    if ranges == [] then 0 else TotalLength(ranges[..|ranges| - 1]) + Length(ranges[|ranges| - 1])
  }

  lemma {:induction false} FilledIsLength(output: seq<Option<Bytes>>, ranges: seq<Range>)
    requires |output| == |ranges|
    requires forall i :: 0 <= i < |output| ==> output[i].Some? && !IsShort(ranges[i], output[i].value)
    ensures Filled(output) == TotalLength(ranges)
  {
    if output != [] {
      FilledIsLength(output[..|output| - 1], ranges[..|ranges| - 1]);
    }
  }

  predicate Finished(r: Reading) {
    |r.output| == |r.ranges| && (Open(r.output) == [] || r.fetched == Some([]))
  }

  /** A finished read has every range it asked for, and has counted each of them and its bytes once. */
  ghost predicate Delivered(r: Reading, files: map<Bytes, Bytes>) {
    && r.file in files && |r.output| == |r.ranges|
    && r.metrics.hits + r.metrics.misses == |r.ranges|
    && r.metrics.hitBytes + r.metrics.missBytes == TotalLength(r.ranges)
    && forall i :: 0 <= i < |r.ranges| ==>
         InBounds(r.ranges[i], |files[r.file]|) && r.output[i] == Some(Slice(files[r.file], r.ranges[i]))
  }

  lemma FinishedDelivers(r: Reading, files: map<Bytes, Bytes>)
    requires ReadingOk(r, files) && Counted(r) && Finished(r)
    ensures Delivered(r, files)
  {
    OpenMeans(r.output);
    FilledIsLength(r.output, r.ranges);
  }

  /**
   Over every interleaving of any number of reads, failed and abandoned ones included, a
   read that finishes holds exactly the ranges it asked for, in its own order, its hit and
   miss bytes add up to the bytes it returns, and every range left in the cache is right.
   */
  lemma ReadsTransparent(actions: seq<Action>, cap: nat, files: map<Bytes, Bytes>, call: nat)
    requires FaithfulRun(System(Store([], 0), map[]), actions, cap, files)
    ensures
      var s := Run(System(Store([], 0), map[]), actions, cap, files);
      && Correct(s.cache.entries, files)
      && s.cache.used <= cap
      && (2 * cap <= USIZE_MAX ==> s.cache.used == Total(s.cache.entries, Weight))
      && (call in s.readings && Finished(s.readings[call]) ==>
            Delivered(s.readings[call], files))
  {
    RunKeepsInv(System(Store([], 0), map[]), actions, cap, files);
    var s := Run(System(Store([], 0), map[]), actions, cap, files);
    if call in s.readings && Finished(s.readings[call]) { FinishedDelivers(s.readings[call], files); }
  }
}
