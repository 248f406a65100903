/** Migration of the block mapping from version 1 (one raw hash) to version 2 (a SCALE list of hashes). */
module Migration {
  import opened Basics

  type Hash32 = b: Bytes | |b| == 32 witness seq(32, _ => 0)

  // SCALE: compact lengths and vectors of 32-byte hashes

  function LittleEndian(b: Bytes): nat {
    if |b| == 0 then 0 else b[0] + 256 * LittleEndian(b[1..])
  }

  function ToLittleEndian(n: nat, width: nat): (b: Bytes)
    ensures |b| == width
  {
    if width == 0 then [] else [n % 256] + ToLittleEndian(n / 256, width - 1)
  }

  /** `Compact<u32>`: a value and the bytes it used; non-canonical forms are refused. */
  function DecodeCompact(b: Bytes): (r: Option<(nat, nat)>)
    ensures r.Some? ==> 1 <= r.value.1 <= |b|
  {
    if |b| == 0 then None
    else if b[0] % 4 == 0 then Some((b[0] / 4, 1))
    else if b[0] % 4 == 1 then
      if |b| < 2 then None
      else var v := LittleEndian(b[..2]) / 4; if v > 0x3F then Some((v, 2)) else None
    else if b[0] % 4 == 2 then
      if |b| < 4 then None
      else var v := LittleEndian(b[..4]) / 4; if v > 0x3FFF then Some((v, 4)) else None
    else if b[0] / 4 != 0 || |b| < 5 then None
    else var v := LittleEndian(b[1..5]); if v > 0x3FFF_FFFF then Some((v, 5)) else None
  }

  function EncodeCompact(n: nat): Bytes {
    if n <= 0x3F then [4 * n]
    else if n <= 0x3FFF then ToLittleEndian(4 * n + 1, 2)
    else if n <= 0x3FFF_FFFF then ToLittleEndian(4 * n + 2, 4)
    else [3] + ToLittleEndian(n, 4)
  }

  function Chunks(b: Bytes, n: nat): seq<Hash32>
    requires |b| >= 32 * n
  {
    if n == 0 then [] else [b[..32]] + Chunks(b[32..], n - 1)
  }

  /** `Vec::<H256>::decode`: trailing bytes are ignored. */
  function DecodeVec(b: Bytes): Option<seq<Hash32>> {
    var length := DecodeCompact(b);
    if length.None? then None
    else
      var (n, used) := length.value;
      if |b| - used < 32 * n then None else Some(Chunks(b[used..], n))
  }

  function Flat(hashes: seq<Hash32>): (b: Bytes)
    ensures |b| == 32 * |hashes|
  {
    if |hashes| == 0 then [] else hashes[0] + Flat(hashes[1..])
  }

  function EncodeVec(hashes: seq<Hash32>): Bytes {
    EncodeCompact(|hashes|) + Flat(hashes)
  }

  lemma {:induction false} LittleEndianInverse(n: nat, width: nat, bound: nat)
    requires bound == Pow256(width) && n < bound
    ensures LittleEndian(ToLittleEndian(n, width)) == n
  {
    if width > 0 {
      assert n / 256 < Pow256(width - 1);
      LittleEndianInverse(n / 256, width - 1, Pow256(width - 1));
      var b := ToLittleEndian(n, width);
      assert b[1..] == ToLittleEndian(n / 256, width - 1);
    }
  }

  lemma PowValues()
    ensures Pow256(2) == 0x1_0000 && Pow256(4) == 0x1_0000_0000
  {
    assert Pow256(1) == 256;
    assert Pow256(2) == 256 * Pow256(1);
    assert Pow256(3) == 256 * Pow256(2);
    assert Pow256(4) == 256 * Pow256(3);
  }

  lemma LowByte(n: nat, width: nat)
    requires width > 0
    ensures ToLittleEndian(n, width)[0] == n % 256
  {
  }

  /** The two low bits name the mode, and the rest is the value. */
  lemma ModeBits(n: nat, mode: nat)
    requires mode < 4
    ensures (4 * n + mode) % 256 % 4 == mode && (4 * n + mode) / 4 == n
  {
  }

  lemma CompactTwoBytes(n: nat, rest: Bytes)
    requires 0x3F < n <= 0x3FFF
    ensures DecodeCompact(ToLittleEndian(4 * n + 1, 2) + rest) == Some((n, 2))
  {
    PowValues();
    var e := ToLittleEndian(4 * n + 1, 2);
    var b := e + rest;
    LittleEndianInverse(4 * n + 1, 2, 0x1_0000);
    LowByte(4 * n + 1, 2);
    ModeBits(n, 1);
    assert b[0] == e[0];
    assert b[..2] == e;
  }

  lemma CompactFourBytes(n: nat, rest: Bytes)
    requires 0x3FFF < n <= 0x3FFF_FFFF
    ensures DecodeCompact(ToLittleEndian(4 * n + 2, 4) + rest) == Some((n, 4))
  {
    PowValues();
    var e := ToLittleEndian(4 * n + 2, 4);
    var b := e + rest;
    LittleEndianInverse(4 * n + 2, 4, 0x1_0000_0000);
    LowByte(4 * n + 2, 4);
    ModeBits(n, 2);
    assert b[0] == e[0];
    assert b[..4] == e;
  }

  lemma CompactFiveBytes(n: nat, rest: Bytes)
    requires 0x3FFF_FFFF < n <= U32_MAX
    ensures DecodeCompact(([3] + ToLittleEndian(n, 4)) + rest) == Some((n, 5))
  {
    PowValues();
    var e := ToLittleEndian(n, 4);
    var b := ([3] + e) + rest;
    LittleEndianInverse(n, 4, 0x1_0000_0000);
    assert b[0] == 3;
    assert b[1..5] == e;
  }

  /** Every length survives, whatever follows it. */
  lemma CompactRoundTrip(n: nat, rest: Bytes)
    requires n <= U32_MAX
    ensures DecodeCompact(EncodeCompact(n) + rest) == Some((n, |EncodeCompact(n)|))
  {
    if n <= 0x3F {
      assert (EncodeCompact(n) + rest)[0] == 4 * n;
    } else if n <= 0x3FFF {
      CompactTwoBytes(n, rest);
    } else if n <= 0x3FFF_FFFF {
      CompactFourBytes(n, rest);
    } else {
      CompactFiveBytes(n, rest);
    }
  }

  lemma {:induction false} ChunksOfFlat(hashes: seq<Hash32>, rest: Bytes)
    ensures Chunks(Flat(hashes) + rest, |hashes|) == hashes
  {
    if |hashes| > 0 {
      var b := Flat(hashes) + rest;
      assert b[..32] == hashes[0];
      assert b[32..] == Flat(hashes[1..]) + rest;
      ChunksOfFlat(hashes[1..], rest);
    }
  }

  /** Every version-2 value decodes to the list it was written from. */
  lemma VecRoundTrip(hashes: seq<Hash32>)
    requires |hashes| <= U32_MAX
    ensures DecodeVec(EncodeVec(hashes)) == Some(hashes)
  {
    CompactRoundTrip(|hashes|, Flat(hashes));
    var e, b := EncodeCompact(|hashes|), EncodeVec(hashes);
    assert b[|e|..] == Flat(hashes) + [];
    ChunksOfFlat(hashes, []);
  }

  lemma {:induction false} LittleEndianUnique(b: Bytes)
    ensures ToLittleEndian(LittleEndian(b), |b|) == b
  {
    if |b| > 0 {
      var n := LittleEndian(b);
      LittleEndianUnique(b[1..]);
      assert n % 256 == b[0] && n / 256 == LittleEndian(b[1..]);
    }
  }

  lemma {:induction false} LittleEndianBound(b: Bytes)
    ensures LittleEndian(b) < Pow256(|b|)
  {
    if |b| > 0 {
      LittleEndianBound(b[1..]);
    }
  }

  /** The low bits of a number are those of its first byte. */
  lemma LowBits(b: Bytes)
    requires |b| > 0
    ensures LittleEndian(b) % 4 == b[0] % 4
  {
    var rest := LittleEndian(b[1..]);
    assert LittleEndian(b) == b[0] + 4 * (64 * rest);
  }

  lemma MultiByteCanonical(b: Bytes, mode: nat)
    requires |b| > 0 && b[0] % 4 == mode
    ensures ToLittleEndian(4 * (LittleEndian(b) / 4) + mode, |b|) == b
  {
    LowBits(b);
    LittleEndianUnique(b);
  }

  /** Only canonical lengths are read: what was decoded is written back as the very bytes that were read. */
  lemma CompactCanonical(b: Bytes)
    requires DecodeCompact(b).Some?
    ensures var (n, used) := DecodeCompact(b).value; n <= U32_MAX && EncodeCompact(n) == b[..used]
  {
    PowValues();
    var (n, used) := DecodeCompact(b).value;
    if used == 2 {
      MultiByteCanonical(b[..2], 1);
      LittleEndianBound(b[..2]);
    } else if used == 4 {
      MultiByteCanonical(b[..4], 2);
      LittleEndianBound(b[..4]);
    } else if used == 5 {
      LittleEndianUnique(b[1..5]);
      LittleEndianBound(b[1..5]);
      assert b[..5] == [3] + b[1..5];
    } else {
      assert b[..1] == [b[0]];
    }
  }

  /** The four forms of a length on the wire: two low mode bits below the value, least significant byte first. */
  lemma CompactBytes()
    ensures EncodeCompact(0) == [0] && EncodeCompact(1) == [4] && EncodeCompact(0x3F) == [0xFC]
    ensures EncodeCompact(0x40) == [0x01, 0x01] && EncodeCompact(0x3FFF) == [0xFD, 0xFF]
    ensures EncodeCompact(0x4000) == [0x02, 0x00, 0x01, 0x00]
    ensures EncodeCompact(0x3FFF_FFFF) == [0xFE, 0xFF, 0xFF, 0xFF]
    ensures EncodeCompact(0x4000_0000) == [0x03, 0x00, 0x00, 0x00, 0x40]
  {
    ToBytes2(0x101);
    ToBytes2(0xFFFD);
    ToBytes4(0x10002);
    ToBytes4(0xFFFF_FFFE);
    ToBytes4(0x4000_0000);
  }

  lemma ToBytes2(n: nat)
    ensures ToLittleEndian(n, 2) == [n % 256, n / 256 % 256]
  {
    assert ToLittleEndian(n / 256, 1) == [n / 256 % 256] + ToLittleEndian(n / 256 / 256, 0);
  }

  lemma ToBytes4(n: nat)
    ensures ToLittleEndian(n, 4) == [n % 256, n / 256 % 256, n / 65536 % 256, n / 16777216 % 256]
  {
    ToBytes2(n / 65536);
    assert ToLittleEndian(n / 256, 3) == [n / 256 % 256] + ToLittleEndian(n / 256 / 256, 2);
    assert n / 256 / 256 == n / 65536 && n / 65536 / 256 == n / 16777216;
  }

  /** The bytes of a one-entry list: the length 1 as the byte 4, then the hash. */
  lemma SingletonBytes(h: Hash32)
    ensures EncodeVec([h]) == [4] + h
  {
    assert Flat([h]) == h + Flat([]);
  }

  /** A raw 32-byte value never decodes to a non-empty list: a length byte leaves too few bytes for one hash. */
  lemma RawHashNeverDecodes(v: Bytes)
    requires |v| == 32
    ensures DecodeVec(v) == None || DecodeVec(v) == Some([])
  {
  }

  // One entry

  /** The client: a block's number, and the canonical hash at a number. */
  datatype Client = Client(number: Hash32 -> Option<nat>, hash: nat -> Option<Hash32>)

  function CanonicalFor(client: Client, h: Hash32): Option<Hash32> {
    match client.number(h)
    case None => None
    case Some(n) => client.hash(n)
  }

  predicate IsVersion2(v: Bytes) {
    DecodeVec(v).Some? && |DecodeVec(v).value| > 0
  }

  /** A value the migration can read: version 2, or long enough to hold a raw hash; on any other it panics. */
  predicate Readable(v: Bytes) {
    IsVersion2(v) || |v| >= 32
  }

  /** What a value becomes: version 2 stays, and a raw hash with a canonical block is rewritten. */
  function NewValue(client: Client, v: Bytes): Bytes {
    if IsVersion2(v) || |v| < 32 then v
    else
      match CanonicalFor(client, v[..32])
      case None => v
      case Some(hash) => EncodeVec([hash])
  }

  datatype Kind = RocksDb | ParityDb

  /** RocksDB counts version-2 data as a success; ParityDB has no branch for it, so it counts it as an error. */
  predicate Success(kind: Kind, client: Client, v: Bytes) {
    if IsVersion2(v) then kind == RocksDb else |v| >= 32 && CanonicalFor(client, v[..32]).Some?
  }

  lemma NewValueSettles(client: Client, v: Bytes)
    ensures Readable(NewValue(client, v)) <==> Readable(v)
    ensures !IsVersion2(v) && |v| >= 32 && CanonicalFor(client, v[..32]).Some? ==>
              DecodeVec(NewValue(client, v)) == Some([CanonicalFor(client, v[..32]).value])
    ensures NewValue(client, NewValue(client, v)) == NewValue(client, v)
    ensures Success(RocksDb, client, NewValue(client, v)) == Success(RocksDb, client, v)
    ensures !Success(ParityDb, client, NewValue(client, v))
  {
    if !IsVersion2(v) && |v| >= 32 && CanonicalFor(client, v[..32]).Some? {
      VecRoundTrip([CanonicalFor(client, v[..32]).value]);
    }
  }

  /**
   * What becomes of a version-1 value, in terms of the client alone: with a canonical block at the number of its hash
   * it is the one-entry list of that block and a success; otherwise it stays and is an error.
   */
  lemma Version1Rewritten(kind: Kind, client: Client, v: Bytes)
    requires |v| == 32
    ensures match client.number(v)
            case None => NewValue(client, v) == v && !Success(kind, client, v)
            case Some(n) =>
              match client.hash(n)
              case None => NewValue(client, v) == v && !Success(kind, client, v)
              case Some(x) => && NewValue(client, v) == [4] + x && DecodeVec(NewValue(client, v)) == Some([x])
                              && Success(kind, client, v)
  {
    RawHashNeverDecodes(v);
    assert v[..32] == v;
    match client.number(v) {
      case None =>
      case Some(n) =>
        match client.hash(n) {
          case None =>
          case Some(x) =>
            VecRoundTrip([x]);
            SingletonBytes(x);
        }
    }
  }

  /** A version-2 value is read and kept; RocksDB counts it as a success, ParityDB as an error. */
  lemma Version2Kept(client: Client, v: Bytes, hashes: seq<Hash32>)
    requires DecodeVec(v) == Some(hashes) && hashes != []
    ensures Readable(v) && NewValue(client, v) == v && Success(RocksDb, client, v) && !Success(ParityDb, client, v)
  {
  }

  // The column

  type Key = Hash32
  type Column = map<Key, Bytes>

  /** None of the keys has a value that would make the migration panic. */
  predicate AllReadable(column: Column, keys: seq<Key>) {
    forall k :: k in keys && k in column ==> Readable(column[k])
  }

  /** The column once the entries in `done` have been processed. */
  ghost function Migrated(client: Client, column: Column, done: set<Key>): Column {
    map k | k in column :: if k in done then NewValue(client, column[k]) else column[k]
  }

  function KeySet(keys: seq<Key>): set<Key> {
    set k | k in keys
  }

  datatype Summary = Summary(success: nat, error: seq<Key>)

  /** One entry added to a summary; a missing key is an error. */
  function Tally(kind: Kind, client: Client, column: Column, key: Key, res: Summary): Summary {
    if key in column && Success(kind, client, column[key]) then Summary(res.success + 1, res.error)
    else Summary(res.success, res.error + [key])
  }

  function TallyFrom(kind: Kind, client: Client, column: Column, keys: seq<Key>, res: Summary): Summary {
    if |keys| == 0 then res
    else Tally(kind, client, column, keys[|keys| - 1], TallyFrom(kind, client, column, keys[..|keys| - 1], res))
  }

  /** What a pass over `keys` reports, each entry read as it was when the pass reached it. */
  function Report(kind: Kind, client: Client, column: Column, keys: seq<Key>): Summary {
    TallyFrom(kind, client, column, keys, Summary(0, []))
  }

  /** The report is exact: every key is a success or an error, and the errors are the keys that fail, in order. */
  lemma {:induction false} ReportExact(kind: Kind, client: Client, column: Column, keys: seq<Key>)
    ensures var r := Report(kind, client, column, keys);
            && r.success + |r.error| == |keys|
            && r.error == Failing(kind, client, column, keys)
            && forall k :: k in r.error <==> k in keys && !(k in column && Success(kind, client, column[k]))
  {
    if |keys| > 0 {
      var n := |keys| - 1;
      ReportExact(kind, client, column, keys[..n]);
      assert keys == keys[..n] + [keys[n]];
    }
  }

  function Failing(kind: Kind, client: Client, column: Column, keys: seq<Key>): seq<Key> {
    if |keys| == 0 then []
    else
      var n := |keys| - 1;
      Failing(kind, client, column, keys[..n]) +
      if keys[n] in column && Success(kind, client, column[keys[n]]) then [] else [keys[n]]
  }

  /** The batch holds the rewritten entries among `keys`: each that changes, with its new value. */
  ghost predicate BatchHolds(client: Client, column: Column, batch: Column, keys: seq<Key>) {
    && batch.Keys <= column.Keys
    && (forall k :: k in batch ==> k in keys && batch[k] == NewValue(client, column[k]))
    && (forall k :: k in keys && k in column && k !in batch ==> NewValue(client, column[k]) == column[k])
  }

  /** The batch with one entry's rewrite added, if it has one. */
  function Batched(client: Client, column: Column, batch: Column, key: Key): Column {
    if key in column && Success(ParityDb, client, column[key])
    then batch[key := NewValue(client, column[key])] else batch
  }

  lemma BatchedHolds(client: Client, column: Column, batch: Column, keys: seq<Key>, key: Key)
    requires BatchHolds(client, column, batch, keys)
    ensures BatchHolds(client, column, Batched(client, column, batch, key), keys + [key])
  {
  }

  const CHUNK_SIZE: nat := 10_000

  const CURRENT_VERSION: nat := 2

  /** `Panicked` lists the failed entries; `Crashed` is the panic on a value too short to hold a hash. */
  datatype UpgradeResult =
    Upgraded | UnsupportedVersion(version: nat) | FutureVersion(version: nat) | Panicked(failed: seq<Key>) | Crashed

  /** How many entries the first `chunks` chunks hold. */
  function EndOf(keys: seq<Key>, chunks: nat): nat {
    Min(|keys|, chunks * CHUNK_SIZE)
  }

  class Database {
    var version: nat
    var column: Column

    constructor (v: nat, c: Column)
      ensures version == v && column == c
    {
      version, column := v, c;
    }

    /** `upgrade_db`, `keys` being the column's keys in iteration order; a panic leaves the version file alone. */
    method UpgradeDb(kind: Kind, client: Client, keys: seq<Key>) returns (r: UpgradeResult)
      requires Distinct(keys)
      modifies this
      ensures old(version) == 1 && AllReadable(old(column), keys) ==>
                && column == Migrated(client, old(column), KeySet(keys))
                && var failed := Report(kind, client, old(column), keys).error;
                   if failed == [] then r == Upgraded && version == 2
                   else r == Panicked(failed) && version == 1
      ensures old(version) == 1 && !AllReadable(old(column), keys) ==>
                && r == Crashed && version == 1
                && exists done :: 0 <= done < |keys| && column == Migrated(client, old(column), KeySet(keys[..done]))
      ensures old(version) != 1 ==> version == old(version) && column == old(column)
      ensures old(version) == 0 ==> r == UnsupportedVersion(0)
      ensures old(version) == 2 ==> r == Upgraded
      ensures old(version) > 2 ==> r == FutureVersion(version)
    {
      if version == 0 {
        return UnsupportedVersion(0);
      } else if version > CURRENT_VERSION {
        return FutureVersion(version);
      } else if version == 1 {
        var crashed, summary, finished := Migrate(kind, client, keys, (|keys| + CHUNK_SIZE - 1) / CHUNK_SIZE);
        assert keys[..|keys|] == keys;
        if crashed {
          assert forall k :: k in keys[EndOf(keys, finished)..EndOf(keys, finished + 1)] ==> k in keys;
          assert column == Migrated(client, old(column), KeySet(keys[..EndOf(keys, finished)]));
          return Crashed;
        }
        if summary.error != [] {
          return Panicked(summary.error);
        }
      }
      version := CURRENT_VERSION;
      return Upgraded;
    }

    /** The loop body of `process_chunk`, for an entry that can be read. */
    method ProcessEntry(kind: Kind, client: Client, key: Key, batch: Column, res: Summary)
      returns (batch': Column, res': Summary)
      requires key in column ==> Readable(column[key])
      ensures batch' == Batched(client, column, batch, key)
      ensures res' == Tally(kind, client, column, key, res)
    {
      batch' := batch;
      var maybeError := true;
      if key in column {
        var value := column[key];
        if !IsVersion2(value) {
          var canonical := CanonicalFor(client, value[..32]);
          if canonical.Some? {
            batch' := batch[key := EncodeVec([canonical.value])];
            maybeError := false;
          }
        } else if kind == RocksDb {
          maybeError := false;
        }
      }
      res' := if maybeError then Summary(res.success, res.error + [key]) else Summary(res.success + 1, res.error);
    }

    /** `process_chunk`: reads the database as it was, and commits one batch of rewrites unless it panics first. */
    method ProcessChunk(kind: Kind, client: Client, keys: seq<Key>, res: Summary)
      returns (crashed: bool, summary: Summary)
      modifies this`column
      ensures crashed <==> !AllReadable(old(column), keys)
      ensures crashed ==> column == old(column)
      ensures !crashed ==> column == Migrated(client, old(column), KeySet(keys))
      ensures !crashed ==> summary == TallyFrom(kind, client, old(column), keys, res)
    {
      summary := res;
      var batch: Column := map[];
      for i := 0 to |keys|
        invariant column == old(column)
        invariant AllReadable(column, keys[..i])
        invariant BatchHolds(client, column, batch, keys[..i])
        invariant summary == TallyFrom(kind, client, column, keys[..i], res)
      {
        if keys[i] in column && !Readable(column[keys[i]]) {
          return true, summary;
        }
        BatchedHolds(client, column, batch, keys[..i], keys[i]);
        assert keys[..i + 1] == keys[..i] + [keys[i]] && keys[..i + 1][..i] == keys[..i];
        batch, summary := ProcessEntry(kind, client, keys[i], batch, summary);
      }
      assert keys[..|keys|] == keys;
      BatchCommits(client, column, batch, keys);
      column := column + batch;
      return false, summary;
    }

    /** One round of the chunk loop. */
    method NextChunk(kind: Kind, client: Client, keys: seq<Key>, done: nat, next: nat, summary: Summary,
                     ghost start: Column)
      returns (crashed: bool, summary': Summary)
      requires Distinct(keys) && done <= next <= |keys|
      requires ReachedUpTo(kind, client, start, keys, done, column, summary)
      modifies this`column
      ensures crashed <==> !AllReadable(start, keys[done..next])
      ensures ReachedUpTo(kind, client, start, keys, if crashed then done else next, column, summary')
    {
      ghost var before := column;
      ChunkReadable(client, start, keys, done, next);
      crashed, summary' := ProcessChunk(kind, client, keys[done..next], summary);
      if crashed {
        summary' := summary;
      } else {
        ChunkDone(kind, client, start, keys, done, next, before, summary, column, summary');
      }
    }

    /**
     * The chunk loop, stopped (by a crash of the node, say) before its chunk number `chunks`, or by the first chunk
     * with a value too short to read.
     */
    method Migrate(kind: Kind, client: Client, keys: seq<Key>, chunks: nat)
      returns (crashed: bool, summary: Summary, finished: nat)
      requires Distinct(keys)
      modifies this`column
      ensures finished <= chunks && (crashed <==> finished < chunks)
      ensures ReachedUpTo(kind, client, old(column), keys, Min(|keys|, finished * 10_000), column, summary)
      ensures crashed ==> var at: nat := Min(|keys|, finished * 10_000);
                          !AllReadable(old(column), keys[at..Min(|keys|, at + 10_000)])
    {
      summary := Summary(0, []);
      finished := 0;
      ghost var start := column;
      MigratedNone(client, column);
      while finished < chunks
        invariant finished <= chunks
        invariant ReachedUpTo(kind, client, start, keys, EndOf(keys, finished), column, summary)
      {
        var from, to := EndOf(keys, finished), EndOf(keys, finished + 1);
        crashed, summary := NextChunk(kind, client, keys, from, to, summary, start);
        if crashed {
          return;
        }
        finished := finished + 1;
      }
      crashed := false;
    }
  }

  /** A batch that holds every changed entry turns the column into the migrated one. */
  lemma BatchCommits(client: Client, column: Column, batch: Column, keys: seq<Key>)
    requires BatchHolds(client, column, batch, keys)
    ensures column + batch == Migrated(client, column, KeySet(keys))
  {
    var want := Migrated(client, column, KeySet(keys));
    assert (column + batch).Keys == want.Keys;
    forall k | k in column
      ensures (column + batch)[k] == want[k]
    {
    }
  }

  lemma MigratedNone(client: Client, column: Column)
    ensures Migrated(client, column, KeySet([])) == column
  {
  }

  /** No pass makes a value readable or unreadable, or adds or removes a key. */
  lemma MigratedReadable(client: Client, column: Column, done: set<Key>, keys: seq<Key>)
    ensures AllReadable(Migrated(client, column, done), keys) <==> AllReadable(column, keys)
    ensures Migrated(client, column, done).Keys == column.Keys
  {
    var after := Migrated(client, column, done);
    forall k | k in column
      ensures Readable(after[k]) <==> Readable(column[k])
    {
      NewValueSettles(client, column[k]);
    }
    assert forall k :: k in column <==> k in after;
  }

  /** Processing more entries of a partly migrated column is processing them of the original. */
  lemma MigratedTwice(client: Client, column: Column, a: set<Key>, b: set<Key>)
    ensures Migrated(client, Migrated(client, column, a), b) == Migrated(client, column, a + b)
  {
    forall k | k in column
      ensures Migrated(client, Migrated(client, column, a), b)[k] == Migrated(client, column, a + b)[k]
    {
      NewValueSettles(client, column[k]);
    }
  }

  /** Tallying on from the summary of `a` is tallying `a` and `b` in one go. */
  lemma {:induction false} TallyConcat(kind: Kind, client: Client, column: Column, a: seq<Key>, b: seq<Key>,
                                       res: Summary)
    ensures TallyFrom(kind, client, column, b, TallyFrom(kind, client, column, a, res)) ==
            TallyFrom(kind, client, column, a + b, res)
    decreases |b|
  {
    if |b| == 0 {
      assert a + b == a;
    } else {
      var n := |b| - 1;
      assert (a + b)[..|a + b| - 1] == a + b[..n];
      assert (a + b)[|a + b| - 1] == b[n];
      TallyConcat(kind, client, column, a, b[..n], res);
    }
  }

  /** Entries that a pass has not reached yet report as they would have at the start. */
  lemma {:induction false} TallyUntouched(kind: Kind, client: Client, column: Column, done: set<Key>, keys: seq<Key>,
                                          res: Summary)
    requires forall k :: k in keys ==> k !in done
    ensures TallyFrom(kind, client, Migrated(client, column, done), keys, res) ==
            TallyFrom(kind, client, column, keys, res)
  {
    if |keys| > 0 {
      TallyUntouched(kind, client, column, done, keys[..|keys| - 1], res);
    }
  }

  /** The next chunk can be read exactly when it could at the start, and with it all entries up to its end. */
  lemma ChunkReadable(client: Client, start: Column, keys: seq<Key>, at: nat, next: nat)
    requires at <= next <= |keys| && AllReadable(start, keys[..at])
    ensures AllReadable(Migrated(client, start, KeySet(keys[..at])), keys[at..next]) <==>
            AllReadable(start, keys[at..next])
    ensures AllReadable(start, keys[at..next]) ==> AllReadable(start, keys[..next])
  {
    MigratedReadable(client, start, KeySet(keys[..at]), keys[at..next]);
    assert keys[..next] == keys[..at] + keys[at..next];
  }

  lemma ChunkColumn(client: Client, start: Column, keys: seq<Key>, at: nat, next: nat)
    requires at <= next <= |keys|
    ensures Migrated(client, Migrated(client, start, KeySet(keys[..at])), KeySet(keys[at..next]))
            == Migrated(client, start, KeySet(keys[..next]))
  {
    var done, more := KeySet(keys[..at]), KeySet(keys[at..next]);
    assert keys[..next] == keys[..at] + keys[at..next];
    assert KeySet(keys[..next]) == done + more;
    MigratedTwice(client, start, done, more);
  }

  lemma ChunkReport(kind: Kind, client: Client, start: Column, keys: seq<Key>, at: nat, next: nat, done: set<Key>)
    requires Distinct(keys) && at <= next <= |keys| && done == KeySet(keys[..at])
    ensures var before := Report(kind, client, start, keys[..at]);
            TallyFrom(kind, client, Migrated(client, start, done), keys[at..next], before) ==
            Report(kind, client, start, keys[..next])
  {
    assert keys[..next] == keys[..at] + keys[at..next];
    forall k | k in keys[at..next]
      ensures k !in done
    {
      var j :| at <= j < next && keys[j] == k;
    }
    TallyUntouched(kind, client, start, done, keys[at..next], Report(kind, client, start, keys[..at]));
    TallyConcat(kind, client, start, keys[..at], keys[at..next], Summary(0, []));
  }

  /** The first `done` entries are migrated and reported, and all of them could be read. */
  ghost predicate ReachedUpTo(kind: Kind, client: Client, start: Column, keys: seq<Key>, done: nat,
                              column: Column, summary: Summary)
  {
    && done <= |keys|
    && column == Migrated(client, start, KeySet(keys[..done])) && AllReadable(start, keys[..done])
    && summary == Report(kind, client, start, keys[..done])
  }

  lemma ChunkDone(kind: Kind, client: Client, start: Column, keys: seq<Key>, at: nat, next: nat,
                  before: Column, summary: Summary, after: Column, summary': Summary)
    requires Distinct(keys) && at <= next <= |keys| && ReachedUpTo(kind, client, start, keys, at, before, summary)
    requires AllReadable(before, keys[at..next]) && after == Migrated(client, before, KeySet(keys[at..next]))
    requires summary' == TallyFrom(kind, client, before, keys[at..next], summary)
    ensures ReachedUpTo(kind, client, start, keys, next, after, summary')
  {
    ChunkReadable(client, start, keys, at, next);
    ChunkColumn(client, start, keys, at, next);
    ChunkReport(kind, client, start, keys, at, next, KeySet(keys[..at]));
  }

  // Interruption

  /** The column after any number of interrupted passes, each of which reached some of the keys. */
  ghost function AfterPasses(client: Client, column: Column, passes: seq<set<Key>>): Column {
    if |passes| == 0 then column
    else Migrated(client, AfterPasses(client, column, passes[..|passes| - 1]), passes[|passes| - 1])
  }

  lemma {:induction false} PassesMerge(client: Client, column: Column, passes: seq<set<Key>>)
    ensures exists done :: AfterPasses(client, column, passes) == Migrated(client, column, done)
  {
    if |passes| == 0 {
      assert AfterPasses(client, column, passes) == Migrated(client, column, {});
    } else {
      var n := |passes| - 1;
      PassesMerge(client, column, passes[..n]);
      var done :| AfterPasses(client, column, passes[..n]) == Migrated(client, column, done);
      MigratedTwice(client, column, done, passes[n]);
    }
  }

  lemma {:induction false} RocksReportStable(client: Client, column: Column, done: set<Key>, keys: seq<Key>)
    ensures Report(RocksDb, client, Migrated(client, column, done), keys) == Report(RocksDb, client, column, keys)
  {
    if |keys| > 0 {
      RocksReportStable(client, column, done, keys[..|keys| - 1]);
      var last := keys[|keys| - 1];
      if last in column {
        NewValueSettles(client, column[last]);
      }
    }
  }

  /**
   * RocksDB resumes: after any interrupted passes, one full pass panics on a short value exactly when the first
   * would have, and leaves the same column and reports the same summary as a single uninterrupted pass.
   */
  lemma RocksResumes(client: Client, column: Column, passes: seq<set<Key>>, keys: seq<Key>)
    ensures var mid := AfterPasses(client, column, passes);
            && mid.Keys == column.Keys
            && (AllReadable(mid, keys) <==> AllReadable(column, keys))
            && Migrated(client, mid, mid.Keys) == Migrated(client, column, column.Keys)
            && Report(RocksDb, client, mid, keys) == Report(RocksDb, client, column, keys)
  {
    PassesMerge(client, column, passes);
    var done :| AfterPasses(client, column, passes) == Migrated(client, column, done);
    MigratedReadable(client, column, done, keys);
    FullPassAfter(client, column, done);
    RocksReportStable(client, column, done, keys);
  }

  lemma FullPassAfter(client: Client, column: Column, done: set<Key>)
    ensures Migrated(client, Migrated(client, column, done), column.Keys) == Migrated(client, column, column.Keys)
  {
    MigratedTwice(client, column, done, column.Keys);
    var all := column.Keys;
    assert forall k :: k in column ==> k in done + all;
    assert Migrated(client, column, done + all) == Migrated(client, column, all);
  }

  ghost predicate AllVersion1(column: Column) {
    forall k :: k in column ==> |column[k]| == 32
  }

  lemma Version1IsNotVersion2(column: Column)
    requires AllVersion1(column)
    ensures forall k :: k in column ==> !IsVersion2(column[k])
  {
    forall k | k in column
      ensures !IsVersion2(column[k])
    {
      RawHashNeverDecodes(column[k]);
    }
  }

  /** On version-1 data the two databases report alike; the column they leave is the same function already. */
  lemma {:induction false} ParityAgreesOnVersion1(client: Client, column: Column, keys: seq<Key>)
    requires AllVersion1(column)
    ensures Report(ParityDb, client, column, keys) == Report(RocksDb, client, column, keys)
  {
    Version1IsNotVersion2(column);
    if |keys| > 0 {
      ParityAgreesOnVersion1(client, column, keys[..|keys| - 1]);
    }
  }

  lemma {:induction false} NoErrors(kind: Kind, client: Client, column: Column, keys: seq<Key>)
    ensures Report(kind, client, column, keys).error == [] <==>
            forall k :: k in keys ==> k in column && Success(kind, client, column[k])
  {
    if |keys| > 0 {
      var n := |keys| - 1;
      NoErrors(kind, client, column, keys[..n]);
      assert forall k :: k in keys <==> k in keys[..n] || k == keys[n];
    }
  }

  /**
   * A whole pass over version-1 data, in terms of the client alone: every entry whose block has a canonical block at
   * its number becomes the list of that one block; every other entry stays, and exactly these are reported.
   */
  lemma FullPassRewrites(kind: Kind, client: Client, column: Column, keys: seq<Key>, k: Key)
    requires AllVersion1(column) && (forall x :: x in keys <==> x in column) && k in column
    ensures var after := Migrated(client, column, KeySet(keys));
            && AllReadable(column, keys) && k in after
            && match client.number(column[k])
               case None => after[k] == column[k] && k in Report(kind, client, column, keys).error
               case Some(n) =>
                 match client.hash(n)
                 case None => after[k] == column[k] && k in Report(kind, client, column, keys).error
                 case Some(x) => DecodeVec(after[k]) == Some([x]) && k !in Report(kind, client, column, keys).error
  {
    Version1Rewritten(kind, client, column[k]);
    ReportExact(kind, client, column, keys);
  }

  /**
   * ParityDB does not resume: rerun after a pass over `done` on version-1 data, it reports no error (and so does
   * not panic) exactly when that pass had reached no entry and every entry has a canonical block.
   */
  lemma ParityResumesExactly(client: Client, column: Column, done: set<Key>, keys: seq<Key>)
    requires AllVersion1(column) && (forall k :: k in keys <==> k in column) && done <= column.Keys
    ensures Report(ParityDb, client, Migrated(client, column, done), keys).error == [] <==>
            done == {} && forall k :: k in column ==> CanonicalFor(client, column[k][..32]).Some?
  {
    var mid := Migrated(client, column, done);
    Version1IsNotVersion2(column);
    NoErrors(ParityDb, client, mid, keys);
    forall k | k in column
      ensures Success(ParityDb, client, mid[k]) <==> k !in done && CanonicalFor(client, column[k][..32]).Some?
    {
      NewValueSettles(client, column[k]);
    }
    if k :| k in done {
      assert k in keys && !Success(ParityDb, client, mid[k]);
    }
  }
}
