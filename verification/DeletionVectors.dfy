/**
 Decoding of `deletion-vector-v1` blobs: a length, a magic number, a directory of 32-bit
 bitmaps under strictly increasing keys, and a checksum over the middle part. The bitmap
 format and the checksum are parameters.
 */
module DeletionVectors {
  import opened Scalars
  import opened DecimalBytes

  type Bitmap = set<nat>

  const KEY_SPACE := 0x1_0000_0000

  const MAGIC: Bytes := [0xD1, 0xD3, 0x39, 0x64]

  /** A bitmap format: `read` takes a prefix of its input and says how long it was. */
  datatype Codec = Codec(read: Bytes -> Option<(Bitmap, nat)>, write: Bitmap -> Bytes, crc: Bytes -> nat)

  /** What is read depends on nothing past it. */
  predicate Stable(c: Codec, input: Bytes, rest: Bytes) {
    match c.read(input)
    case None => true
    case Some((_, used)) => used <= |input| && c.read(input[..used] + rest) == c.read(input)
  }

  /** Reading undoes writing. */
  predicate Undone(c: Codec, bitmap: Bitmap, rest: Bytes) {
    c.read(c.write(bitmap) + rest) == Some((bitmap, |c.write(bitmap)|))
  }

  predicate Checks(c: Codec, body: Bytes) {
    c.crc(body) < KEY_SPACE
  }

  ghost predicate PrefixCodec(c: Codec) {
    && (forall input, rest :: Stable(c, input, rest))
    && (forall bitmap, rest :: Undone(c, bitmap, rest))
    && (forall body :: Checks(c, body))
  }

  datatype Failure =
    | TooShort | LengthMismatch | ChecksumMismatch | BadMagic
    | TooManyBitmaps | Truncated | Unordered | BadBitmap | TrailingBytes

  datatype Result<+T> = Ok(value: T) | Err(failure: Failure)

  type Entries = seq<(nat, Bitmap)>

  // Little-endian numbers.

  function ToLe(value: nat, n: nat): (bytes: Bytes)
    ensures |bytes| == n
  {
    if n == 0 then [] else [value % 256] + ToLe(value / 256, n - 1)
  }

  function FromLe(bytes: Bytes): nat {
    if bytes == [] then 0 else bytes[0] + 256 * FromLe(bytes[1..])
  }

  lemma {:induction false} FromToLe(value: nat, n: nat)
    requires value < Pow(n)
    ensures FromLe(ToLe(value, n)) == value
  {
    if n > 0 { FromToLe(value / 256, n - 1); }
  }

  lemma {:induction false} ToFromLe(bytes: Bytes)
    ensures ToLe(FromLe(bytes), |bytes|) == bytes
    ensures FromLe(bytes) < Pow(|bytes|)
  {
    if bytes != [] {
      ToFromLe(bytes[1..]);
      assert FromLe(bytes) % 256 == bytes[0] && FromLe(bytes) / 256 == FromLe(bytes[1..]);
    }
  }

  lemma PowFour()
    ensures Pow(4) == KEY_SPACE
  {
    assert Pow(2) == 0x1_0000;
  }

  // Decoding.

  function ReadLe(input: Bytes, n: nat): Option<(nat, Bytes)> {
    if |input| < n then None else Some((FromLe(input[..n]), input[n..]))
  }

  /** One directory entry, and what is left of the input. */
  function ReadEntry(input: Bytes, previous: Option<nat>, c: Codec): Result<((nat, Bitmap), Bytes)> {
    match ReadLe(input, 4)
    case None => Err(Truncated)
    case Some((key, rest)) =>
      if previous.Some? && key <= previous.value then Err(Unordered)
      else
        match c.read(rest)
        case None => Err(BadBitmap)
        case Some((bitmap, used)) => if used <= |rest| then Ok(((key, bitmap), rest[used..])) else Err(BadBitmap)
  }

  function ReadEntries(input: Bytes, count: nat, previous: Option<nat>, c: Codec): Result<(Entries, Bytes)> {
    if count == 0 then Ok(([], input))
    else
      match ReadEntry(input, previous, c)
      case Err(failure) => Err(failure)
      case Ok((entry, rest)) =>
        match ReadEntries(rest, count - 1, Some(entry.0), c)
        case Err(failure) => Err(failure)
        case Ok((entries, left)) => Ok(([entry] + entries, left))
  }

  function ReadDirectory(input: Bytes, c: Codec): Result<Entries> {
    match ReadLe(input, 8)
    case None => Err(Truncated)
    case Some((count, rest)) =>
      if count >= KEY_SPACE then Err(TooManyBitmaps)
      else
        match ReadEntries(rest, count, None, c)
        case Err(failure) => Err(failure)
        case Ok((entries, left)) => if left == [] then Ok(entries) else Err(TrailingBytes)
  }

  function DecodeBlob(blob: Bytes, c: Codec): Result<Entries> {
    if |blob| < 12 then Err(TooShort)
    else
      var body := blob[4..|blob| - 4];
      if Unsigned(blob[..4]) != |body| then Err(LengthMismatch)
      else if Unsigned(blob[|blob| - 4..]) != c.crc(body) then Err(ChecksumMismatch)
      else if body[..4] != MAGIC then Err(BadMagic)
      else ReadDirectory(body[4..], c)
  }

  // The layout.

  /** Keys and the bytes of their bitmaps, laid out in order. */
  function Layout(chunks: seq<(nat, Bytes)>): Bytes {
    if chunks == [] then [] else ToLe(chunks[0].0, 4) + chunks[0].1 + Layout(chunks[1..])
  }

  function Blob(body: Bytes, c: Codec): Bytes
    requires |body| < KEY_SPACE && Checks(c, body)
  {
    ToBytes(|body|, 4) + body + ToBytes(c.crc(body), 4)
  }

  function Body(chunks: seq<(nat, Bytes)>): Bytes {
    MAGIC + (ToLe(|chunks|, 8) + Layout(chunks))
  }

  predicate Increasing(chunks: seq<(nat, Bytes)>, previous: Option<nat>) {
    && (forall i :: 0 <= i < |chunks| ==> chunks[i].0 < KEY_SPACE && (previous.Some? ==> previous.value < chunks[i].0))
    && (forall i, j :: 0 <= i < j < |chunks| ==> chunks[i].0 < chunks[j].0)
  }

  /** Each chunk is exactly what its bitmap is read from. */
  predicate Reads(chunks: seq<(nat, Bytes)>, entries: Entries, c: Codec) {
    && |chunks| == |entries|
    && forall i :: 0 <= i < |chunks| ==>
         chunks[i].0 == entries[i].0 && c.read(chunks[i].1) == Some((entries[i].1, |chunks[i].1|))
  }

  lemma PrefixRead(c: Codec, chunk: Bytes, bitmap: Bitmap, rest: Bytes)
    requires PrefixCodec(c) && c.read(chunk) == Some((bitmap, |chunk|))
    ensures c.read(chunk + rest) == Some((bitmap, |chunk|))
  {
    assert Stable(c, chunk, rest);
    assert chunk[..|chunk|] == chunk;
  }

  lemma ChunkRead(c: Codec, input: Bytes)
    requires PrefixCodec(c) && c.read(input).Some?
    ensures
      var (bitmap, used) := c.read(input).value;
      used <= |input| && c.read(input[..used]) == Some((bitmap, used))
  {
    assert Stable(c, input, []);
    var used := c.read(input).value.1;
    assert input[..used] + [] == input[..used];
  }

  lemma EntryOfLayout(key: nat, chunk: Bytes, bitmap: Bitmap, tail: Bytes, previous: Option<nat>, c: Codec)
    requires key < KEY_SPACE && (previous.Some? ==> previous.value < key)
    requires c.read(chunk + tail) == Some((bitmap, |chunk|))
    ensures ReadEntry(ToLe(key, 4) + chunk + tail, previous, c) == Ok(((key, bitmap), tail))
  {
    var input := ToLe(key, 4) + chunk + tail;
    PowFour();
    FromToLe(key, 4);
    assert input[..4] == ToLe(key, 4);
    assert input[4..] == chunk + tail;
    assert (chunk + tail)[|chunk|..] == tail;
  }

  lemma {:induction false} EntriesOfLayout(chunks: seq<(nat, Bytes)>, entries: Entries, previous: Option<nat>, c: Codec, rest: Bytes)
    requires PrefixCodec(c) && Increasing(chunks, previous) && Reads(chunks, entries, c)
    ensures ReadEntries(Layout(chunks) + rest, |chunks|, previous, c) == Ok((entries, rest))
    decreases |chunks|
  {
    if chunks == [] {
      assert Layout(chunks) + rest == rest;
    } else {
      var (key, chunk) := chunks[0];
      var tail := Layout(chunks[1..]) + rest;
      PrefixRead(c, chunk, entries[0].1, tail);
      EntryOfLayout(key, chunk, entries[0].1, tail, previous, c);
      TailReads(chunks, entries, previous, c);
      EntriesOfLayout(chunks[1..], entries[1..], Some(key), c, rest);
      assert chunks == [(key, chunk)] + chunks[1..];
      LayoutOneMore(key, chunk, chunks[1..], rest);
      assert entries == [entries[0]] + entries[1..];
    }
  }

  lemma TailReads(chunks: seq<(nat, Bytes)>, entries: Entries, previous: Option<nat>, c: Codec)
    requires chunks != [] && Increasing(chunks, previous) && Reads(chunks, entries, c)
    ensures Increasing(chunks[1..], Some(chunks[0].0)) && Reads(chunks[1..], entries[1..], c)
  {
  }

  lemma LayoutOfEntry(input: Bytes, previous: Option<nat>, c: Codec) returns (chunk: Bytes)
    requires PrefixCodec(c) && ReadEntry(input, previous, c).Ok?
    ensures
      var ((key, bitmap), rest) := ReadEntry(input, previous, c).value;
      && input == ToLe(key, 4) + chunk + rest
      && c.read(chunk) == Some((bitmap, |chunk|))
      && key < KEY_SPACE && (previous.Some? ==> previous.value < key)
  {
    PowFour();
    ToFromLe(input[..4]);
    ChunkRead(c, input[4..]);
    chunk := input[4..][..c.read(input[4..]).value.1];
    assert input == input[..4] + input[4..];
    assert input[4..] == chunk + input[4..][|chunk|..];
  }

  /** The other way round: what was read was laid out just so. */
  lemma {:induction false} LayoutOfEntries(input: Bytes, count: nat, previous: Option<nat>, c: Codec) returns (chunks: seq<(nat, Bytes)>)
    requires PrefixCodec(c) && ReadEntries(input, count, previous, c).Ok?
    ensures
      var (entries, left) := ReadEntries(input, count, previous, c).value;
      |chunks| == count && Increasing(chunks, previous) && Reads(chunks, entries, c) && input == Layout(chunks) + left
    decreases count
  {
    if count == 0 {
      chunks := [];
      assert Layout(chunks) + input == input;
    } else {
      var (entry, rest) := ReadEntry(input, previous, c).value;
      var chunk := LayoutOfEntry(input, previous, c);
      var more := LayoutOfEntries(rest, count - 1, Some(entry.0), c);
      chunks := [(entry.0, chunk)] + more;
      LayoutOneMore(entry.0, chunk, more, ReadEntries(rest, count - 1, Some(entry.0), c).value.1);
    }
  }

  lemma LayoutOneMore(key: nat, chunk: Bytes, more: seq<(nat, Bytes)>, left: Bytes)
    ensures Layout([(key, chunk)] + more) + left == ToLe(key, 4) + chunk + (Layout(more) + left)
  {
    assert ([(key, chunk)] + more)[1..] == more;
  }

  lemma {:induction false} PowMonotoneStrict(m: nat, n: nat)
    requires m < n
    ensures Pow(m) < Pow(n)
  {
    PowMonotone(m, n - 1);
  }

  /** A body laid out so decodes to its entries. */
  lemma BlobDecodes(chunks: seq<(nat, Bytes)>, entries: Entries, c: Codec)
    requires PrefixCodec(c) && Increasing(chunks, None) && Reads(chunks, entries, c)
    requires |chunks| < KEY_SPACE && |Body(chunks)| < KEY_SPACE && Checks(c, Body(chunks))
    ensures DecodeBlob(Blob(Body(chunks), c), c) == Ok(entries)
  {
    var body := Body(chunks);
    var blob := Blob(body, c);
    PowFour();
    UnsignedToBytes(|body|, 4);
    UnsignedToBytes(c.crc(body), 4);
    assert blob[..4] == ToBytes(|body|, 4);
    assert blob[4..|blob| - 4] == body;
    assert blob[|blob| - 4..] == ToBytes(c.crc(body), 4);
    var directory := ToLe(|chunks|, 8) + Layout(chunks);
    assert body[..4] == MAGIC && body[4..] == directory;
    PowMonotoneStrict(4, 8);
    FromToLe(|chunks|, 8);
    assert directory[..8] == ToLe(|chunks|, 8);
    assert directory[8..] == Layout(chunks) + [];
    EntriesOfLayout(chunks, entries, None, c, []);
  }

  /** The only blobs that decode are those: nothing unread, nothing out of order. */
  lemma DecodedBlob(blob: Bytes, c: Codec) returns (chunks: seq<(nat, Bytes)>)
    requires PrefixCodec(c) && DecodeBlob(blob, c).Ok?
    ensures |chunks| < KEY_SPACE && |Body(chunks)| < KEY_SPACE && Checks(c, Body(chunks))
    ensures Increasing(chunks, None) && Reads(chunks, DecodeBlob(blob, c).value, c)
    ensures blob == Blob(Body(chunks), c)
  {
    var body := blob[4..|blob| - 4];
    chunks := DirectoryLayout(body[4..], c);
    assert body == MAGIC + body[4..];
    BlobParts(blob);
  }

  lemma DirectoryLayout(directory: Bytes, c: Codec) returns (chunks: seq<(nat, Bytes)>)
    requires PrefixCodec(c) && ReadDirectory(directory, c).Ok?
    ensures |chunks| < KEY_SPACE && directory == ToLe(|chunks|, 8) + Layout(chunks)
    ensures Increasing(chunks, None) && Reads(chunks, ReadDirectory(directory, c).value, c)
  {
    ToFromLe(directory[..8]);
    chunks := LayoutOfEntries(directory[8..], FromLe(directory[..8]), None, c);
    assert Layout(chunks) + [] == Layout(chunks);
    assert directory == directory[..8] + directory[8..];
  }

  /** A blob is its two 32-bit numbers around its body. */
  lemma BlobParts(blob: Bytes)
    requires |blob| >= 12
    ensures Unsigned(blob[..4]) < KEY_SPACE && Unsigned(blob[|blob| - 4..]) < KEY_SPACE
    ensures blob == ToBytes(Unsigned(blob[..4]), 4) + blob[4..|blob| - 4] + ToBytes(Unsigned(blob[|blob| - 4..]), 4)
  {
    PowFour();
    UnsignedRange(blob[..4]);
    UnsignedRange(blob[|blob| - 4..]);
    BigEndianUnique(blob[..4]);
    BigEndianUnique(blob[|blob| - 4..]);
  }

  lemma BigEndianUnique(bytes: Bytes)
    ensures ToBytes(Unsigned(bytes), |bytes|) == bytes
  {
    UnsignedRange(bytes);
    UnsignedToBytes(Unsigned(bytes), |bytes|);
    UnsignedInjective(ToBytes(Unsigned(bytes), |bytes|), bytes);
  }

  // Encoding.

  function Chunks(entries: Entries, c: Codec): (chunks: seq<(nat, Bytes)>)
    ensures |chunks| == |entries|
  {
    seq(|entries|, i requires 0 <= i < |entries| => (entries[i].0, c.write(entries[i].1)))
  }

  function Encode(entries: Entries, c: Codec): Bytes
    requires |Body(Chunks(entries, c))| < KEY_SPACE && Checks(c, Body(Chunks(entries, c)))
  {
    Blob(Body(Chunks(entries, c)), c)
  }

  predicate StrictKeys(entries: Entries) {
    && (forall i :: 0 <= i < |entries| ==> entries[i].0 < KEY_SPACE)
    && (forall i, j :: 0 <= i < j < |entries| ==> entries[i].0 < entries[j].0)
  }

  lemma {:induction false} LayoutLength(chunks: seq<(nat, Bytes)>)
    ensures |Layout(chunks)| >= 4 * |chunks|
    decreases |chunks|
  {
    if chunks != [] { LayoutLength(chunks[1..]); }
  }

  lemma WrittenReads(c: Codec, bitmap: Bitmap)
    requires PrefixCodec(c)
    ensures c.read(c.write(bitmap)) == Some((bitmap, |c.write(bitmap)|))
  {
    assert Undone(c, bitmap, []);
    assert c.write(bitmap) + [] == c.write(bitmap);
  }

  /** Decoding inverts encoding, for every directory whose blob a 32-bit length can describe. */
  lemma DecodeInvertsEncode(entries: Entries, c: Codec)
    requires PrefixCodec(c) && StrictKeys(entries)
    requires |Body(Chunks(entries, c))| < KEY_SPACE && Checks(c, Body(Chunks(entries, c)))
    ensures DecodeBlob(Encode(entries, c), c) == Ok(entries)
  {
    ChunksRead(entries, c);
    LayoutLength(Chunks(entries, c));
    BlobDecodes(Chunks(entries, c), entries, c);
  }

  lemma ChunksRead(entries: Entries, c: Codec)
    requires PrefixCodec(c) && StrictKeys(entries)
    ensures Increasing(Chunks(entries, c), None) && Reads(Chunks(entries, c), entries, c)
  {
    forall i | 0 <= i < |entries| ensures c.read(c.write(entries[i].1)) == Some((entries[i].1, |c.write(entries[i].1)|)) {
      WrittenReads(c, entries[i].1);
    }
  }

  // The decoder.

  method DecodeRoaringDirectory(payload: Bytes, c: Codec) returns (result: Result<Entries>)
    ensures result == ReadDirectory(payload, c)
  {
    if |payload| < 8 {
      return Err(Truncated);
    }
    var count := FromLe(payload[..8]);
    var input := payload[8..];
    if count > KEY_SPACE - 1 {
      return Err(TooManyBitmaps);
    }
    var bitmaps: Entries := [];
    var previous := None;
    PrependNone(ReadEntries(input, count, None, c));
    for i := 0 to count
      invariant ReadEntries(payload[8..], count, None, c) == Prepend(bitmaps, ReadEntries(input, count - i, previous, c))
    {
      var rest := ReadEntries(input, count - i, previous, c);
      if |input| < 4 {
        return Err(Truncated);
      }
      var key := FromLe(input[..4]);
      if previous.Some? && key <= previous.value {
        return Err(Unordered);
      }
      previous := Some(key);
      var read := c.read(input[4..]);
      if read.None? || read.value.1 > |input[4..]| {
        return Err(BadBitmap);
      }
      PrependOne(bitmaps, (key, read.value.0), ReadEntries(input[4..][read.value.1..], count - i - 1, previous, c));
      bitmaps := bitmaps + [(key, read.value.0)];
      input := input[4..][read.value.1..];
    }
    if input != [] {
      return Err(TrailingBytes);
    }
    assert bitmaps + [] == bitmaps;
    result := Ok(bitmaps);
  }

  function Prepend(bitmaps: Entries, rest: Result<(Entries, Bytes)>): Result<(Entries, Bytes)> {
    match rest
    case Err(failure) => Err(failure)
    case Ok((entries, left)) => Ok((bitmaps + entries, left))
  }

  lemma PrependNone(rest: Result<(Entries, Bytes)>)
    ensures Prepend([], rest) == rest
  {
    assert rest.Ok? ==> [] + rest.value.0 == rest.value.0;
  }

  lemma PrependOne(bitmaps: Entries, entry: (nat, Bitmap), rest: Result<(Entries, Bytes)>)
    ensures Prepend(bitmaps, Prepend([entry], rest)) == Prepend(bitmaps + [entry], rest)
  {
    match rest
    case Err(_) =>
    case Ok((entries, _)) => assert bitmaps + ([entry] + entries) == (bitmaps + [entry]) + entries;
  }

  method Decode(blob: Bytes, c: Codec) returns (result: Result<Entries>)
    ensures result == DecodeBlob(blob, c)
  {
    if |blob| < 12 {
      return Err(TooShort);
    }
    var body := blob[4..|blob| - 4];
    if Unsigned(blob[..4]) != |body| {
      return Err(LengthMismatch);
    }
    if Unsigned(blob[|blob| - 4..]) != c.crc(body) {
      return Err(ChecksumMismatch);
    }
    if body[..4] != MAGIC {
      return Err(BadMagic);
    }
    result := DecodeRoaringDirectory(body[4..], c);
  }
}
