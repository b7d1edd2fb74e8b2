/** The decoders of `tools/disassemble.py`, which undo the run-length
    compression, the pool encoding and the LOAD_NAME operands. */
module Disassemble {
  import opened Wrappers
  import opened Slices
  import opened Bytes
  import opened Compressor
  import opened Codegen

  /** What `decompress` builds: each complete two-byte chunk `(count, byte)`
      expanded, and a trailing odd byte kept as it is. */
  function Decompressed(source: seq<byte>): seq<byte>
  {
    if |source| >= 2 then seq(source[0] as nat, _ => source[1]) + Decompressed(source[2..]) else source
  }

  /** `decompress`: walks the input two bytes at a time, collecting the pieces
      and joining them at the end. */
  method Decompress(source: seq<byte>) returns (out: seq<byte>)
    ensures out == Decompressed(source)
  {
    var pieces: seq<seq<byte>> := [];
    var currentIndex := 0;
    var currentChunk := Take(source, 2);
    assert source[0..] == source;
    while |currentChunk| == 2
      invariant currentIndex <= |source|
      invariant currentChunk == Take(source[currentIndex..], 2)
      invariant Join(pieces) + Decompressed(source[currentIndex..]) == Decompressed(source)
      decreases |source| - currentIndex
    {
      var piece := Repeat(currentChunk[0], currentChunk[1]);
      DecompressTurn(source, currentIndex, pieces, currentChunk);
      pieces := pieces + [piece];
      currentIndex := currentIndex + 2;
      currentChunk := Take(source[currentIndex..], 2);
    }
    DecompressLast(source, currentIndex, pieces, currentChunk);
    if |currentChunk| > 0 {
      pieces := pieces + [currentChunk];
    }
    out := Join(pieces);
  }

  /** `bytes([chunk[1]]) * chunk[0]`. */
  function Repeat(count: byte, octet: byte): (r: seq<byte>)
    ensures |r| == count as nat && forall i :: 0 <= i < |r| ==> r[i] == octet
  {
    seq(count as nat, _ => octet)
  }

  lemma DecompressTurn(source: seq<byte>, i: nat, pieces: seq<seq<byte>>, chunk: seq<byte>)
    requires i <= |source| && chunk == Take(source[i..], 2) && |chunk| == 2
    requires Join(pieces) + Decompressed(source[i..]) == Decompressed(source)
    ensures Join(pieces + [Repeat(chunk[0], chunk[1])]) + Decompressed(source[i + 2..]) == Decompressed(source)
  {
    assert chunk[0] == source[i] && chunk[1] == source[i + 1];
    DecompressStep(source, i);
    JoinStep(pieces, Repeat(chunk[0], chunk[1]), Decompressed(source[i + 2..]), Decompressed(source));
  }

  lemma JoinStep(pieces: seq<seq<byte>>, piece: seq<byte>, rest: seq<byte>, whole: seq<byte>)
    requires Join(pieces) + (piece + rest) == whole
    ensures Join(pieces + [piece]) + rest == whole
  {
    JoinAppend(pieces, piece);
    assert (Join(pieces) + piece) + rest == Join(pieces) + (piece + rest);
  }

  lemma DecompressLast(source: seq<byte>, i: nat, pieces: seq<seq<byte>>, chunk: seq<byte>)
    requires i <= |source| && chunk == Take(source[i..], 2) && |chunk| != 2
    requires Join(pieces) + Decompressed(source[i..]) == Decompressed(source)
    ensures (if |chunk| > 0 then Join(pieces + [chunk]) else Join(pieces)) == Decompressed(source)
  {
    assert chunk == source[i..];
    JoinAppend(pieces, chunk);
    if |chunk| == 0 {
      assert Join(pieces) + chunk == Join(pieces);
    }
  }

  lemma DecompressStep(source: seq<byte>, i: nat)
    requires i + 2 <= |source|
    ensures Decompressed(source[i..]) == Repeat(source[i], source[i + 1]) + Decompressed(source[i + 2..])
  {
    assert source[i..][2..] == source[i + 2..];
    assert source[i..][0] == source[i] && source[i..][1] == source[i + 1];
  }

  /** `b"".join(pieces)`. */
  function Join(pieces: seq<seq<byte>>): seq<byte> {
    if pieces == [] then [] else Join(pieces[..|pieces| - 1]) + pieces[|pieces| - 1]
  }

  lemma JoinAppend(pieces: seq<seq<byte>>, piece: seq<byte>)
    ensures Join(pieces + [piece]) == Join(pieces) + piece
  {
    assert (pieces + [piece])[..|pieces|] == pieces;
  }

  /** Decompression undoes the encoding of any stream of runs of at most 255. */
  lemma {:induction false} DecompressPairs(runs: seq<Run>)
    requires forall i :: 0 <= i < |runs| ==> runs[i].amount <= 0xFF
    ensures Decompressed(Pairs(runs)) == Expand(runs)
  {
    if runs != [] {
      var p := Pairs(runs);
      assert p[2..] == Pairs(runs[1..]);
      DecompressPairs(runs[1..]);
    }
  }

  /** `decompress(rebuild_stream(generate_lengths(x))) == x`. */
  lemma DecompressRebuild(source: seq<byte>)
    ensures Decompressed(RebuildStream(RunsOf(source))) == source
  {
    NormalisedCorrect(RunsOf(source));
    DecompressPairs(Normalised(RunsOf(source)));
    RunsOfCorrect(source);
  }

  /** Whatever `compress` chose, the original can be recovered: either it was
      returned unchanged or it decompresses back. */
  lemma CompressRecoverable(original: seq<byte>)
    ensures Compress(original) == original || Decompressed(Compress(original)) == original
  {
    DecompressRebuild(original);
  }

  /** The entries `get_func_pool` (and `get_str_pool`) read from `bytes`, the
      input from the loop's current index on, while `remaining`, the pool
      size less that index, is positive: a four-byte length and then that
      many bytes, both clamped at the end of the input. */
  function PoolEntries(bytes: seq<byte>, remaining: int): seq<seq<byte>>
    decreases if remaining > 0 then remaining else 0
  {
    if remaining <= 0 then []
    else
      var size := FromBytes(Take(bytes, 4));
      [Take(Drop(bytes, 4), size)] + PoolEntries(Drop(bytes, 4 + size), remaining - 4 - size)
  }

  /** `get_func_pool`: the entries of a pool of `poolSize` bytes, and the input
      after the pool. `get_str_pool` runs the same loop. */
  method GetPool(source: seq<byte>, poolSize: nat) returns (entries: seq<seq<byte>>, remainder: seq<byte>)
    ensures entries == PoolEntries(source, poolSize)
    ensures remainder == Drop(source, poolSize)
  {
    remainder := Drop(source, poolSize);
    entries := [];
    var currentIndex := 0;
    DropNone(source);
    while currentIndex < poolSize
      invariant entries + PoolEntries(Drop(source, currentIndex), poolSize - currentIndex) == PoolEntries(source, poolSize)
      decreases poolSize - currentIndex
    {
      var sizeBytes := Take(Drop(source, currentIndex), 4);
      var entrySize := FromBytes(sizeBytes);
      ghost var start, before := currentIndex, entries;
      currentIndex := currentIndex + 4;
      var endPoint := currentIndex + entrySize;
      entries := entries + [Take(Drop(source, currentIndex), entrySize)];
      currentIndex := endPoint;
      ReadEntry(source, poolSize, start, entrySize, before, currentIndex, entries);
    }
    PoolEntriesDone(source, poolSize, currentIndex, entries);
  }

  lemma PoolEntriesDone(source: seq<byte>, poolSize: nat, index: nat, entries: seq<seq<byte>>)
    requires poolSize <= index
    requires entries + PoolEntries(Drop(source, index), poolSize - index) == PoolEntries(source, poolSize)
    ensures entries == PoolEntries(source, poolSize)
  {
    assert PoolEntries(Drop(source, index), poolSize - index) == [];
    assert entries + [] == entries;
  }

  /** One turn of the loop of `get_func_pool`, read from the whole input. */
  lemma ReadEntry(source: seq<byte>, poolSize: nat, index: nat, size: nat, entries: seq<seq<byte>>,
                  next: nat, entries': seq<seq<byte>>)
    requires index < poolSize && size == FromBytes(Take(Drop(source, index), 4))
    requires next == index + 4 + size && entries' == entries + [Take(Drop(source, index + 4), size)]
    ensures entries' + PoolEntries(Drop(source, next), poolSize - next)
         == entries + PoolEntries(Drop(source, index), poolSize - index)
  {
    var remaining := poolSize - index;
    PoolEntriesAt(source, index, remaining, size);
    assert index + 4 + size == next && remaining - 4 - size == poolSize - next;
    AppendEntry(entries, Take(Drop(source, index + 4), size), PoolEntries(Drop(source, index + 4 + size), remaining - 4 - size),
                entries', PoolEntries(Drop(source, index), remaining));
  }

  /** Reading a pool from an index of the whole input is reading the entry there, then the rest. */
  lemma PoolEntriesAt(source: seq<byte>, index: nat, remaining: int, size: nat)
    requires remaining > 0 && size == FromBytes(Take(Drop(source, index), 4))
    ensures PoolEntries(Drop(source, index), remaining)
         == [Take(Drop(source, index + 4), size)] + PoolEntries(Drop(source, index + 4 + size), remaining - 4 - size)
  {
    PoolEntriesStep(Drop(source, index), remaining, size);
    DropDrop(source, index, 4);
    DropDrop(source, index, 4 + size);
  }

  /** Moving the entry just read from the pool still to read to the entries read. */
  lemma AppendEntry(entries: seq<seq<byte>>, head: seq<byte>, tail: seq<seq<byte>>,
                    entries': seq<seq<byte>>, rest: seq<seq<byte>>)
    requires entries' == entries + [head] && rest == [head] + tail
    ensures entries' + tail == entries + rest
  {
    assert entries + ([head] + tail) == (entries + [head]) + tail;
  }

  lemma DropNone(s: seq<byte>)
    ensures Drop(s, 0) == s
  {
  }

  lemma DropDrop(s: seq<byte>, i: nat, k: nat)
    ensures Drop(Drop(s, i), k) == Drop(s, i + k)
  {
  }

  lemma EncodePoolCons(pool: seq<seq<byte>>)
    requires EncodePool(pool).Ok? && pool != []
    ensures ToBytes(|pool[0]|, 4, false).Ok? && EncodePool(pool[1..]).Ok?
    ensures EncodePool(pool).value
         == ToBytes(|pool[0]|, 4, false).value + pool[0] + EncodePool(pool[1..]).value
    ensures PoolSize(pool) == 4 + |pool[0]| + PoolSize(pool[1..])
  {}

  /** Reading back an encoded pool gives the entries, whatever follows it. */
  lemma {:induction false} PoolRoundTrip(pool: seq<seq<byte>>, rest: seq<byte>)
    requires EncodePool(pool).Ok?
    ensures PoolEntries(EncodePool(pool).value + rest, PoolSize(pool)) == pool
  {
    if pool != [] {
      EncodePoolCons(pool);
      var n := |pool[0]|;
      var size := ToBytes(n, 4, false).value;
      var tail := EncodePool(pool[1..]).value;
      var bytes := EncodePool(pool).value + rest;
      assert bytes == size + pool[0] + (tail + rest);
      assert FromBytes(size) == n;
      assert PoolEntries(bytes, PoolSize(pool)) == [pool[0]] + PoolEntries(tail + rest, PoolSize(pool[1..])) by {
        PoolParts(bytes, size, pool[0], tail + rest);
        PoolHead(bytes, PoolSize(pool), size, pool[0], tail + rest, PoolSize(pool[1..]));
      }
      assert PoolEntries(tail + rest, PoolSize(pool[1..])) == pool[1..] by { PoolRoundTrip(pool[1..], rest); }
      assert [pool[0]] + pool[1..] == pool;
    }
  }

  /** Reading one entry at the front of a pool. */
  lemma PoolHead(bytes: seq<byte>, remaining: int, size: seq<byte>, entry: seq<byte>, after: seq<byte>, remaining': int)
    requires Take(bytes, 4) == size && FromBytes(size) == |entry|
    requires Take(Drop(bytes, 4), |entry|) == entry && Drop(bytes, 4 + |entry|) == after
    requires remaining > 0 && remaining' == remaining - 4 - |entry|
    ensures PoolEntries(bytes, remaining) == [entry] + PoolEntries(after, remaining')
  {
    PoolEntriesStep(bytes, remaining, |entry|);
  }

  /** Where the length, the entry and what follows lie in an encoded entry. */
  lemma PoolParts(bytes: seq<byte>, size: seq<byte>, entry: seq<byte>, after: seq<byte>)
    requires bytes == size + entry + after && |size| == 4
    ensures Take(bytes, 4) == size
    ensures Take(Drop(bytes, 4), |entry|) == entry
    ensures Drop(bytes, 4 + |entry|) == after
  {
    assert Drop(bytes, 4) == entry + after;
  }

  lemma PoolEntriesStep(bytes: seq<byte>, remaining: int, size: nat)
    requires remaining > 0 && size == FromBytes(Take(bytes, 4))
    ensures PoolEntries(bytes, remaining)
         == [Take(Drop(bytes, 4), size)] + PoolEntries(Drop(bytes, 4 + size), remaining - 4 - size)
  {
  }

  /** `get_func_pool` inverts `encode_pool`: the entries come back and the
      remainder is what followed the pool. */
  lemma GetPoolInvertsEncodePool(pool: seq<seq<byte>>, rest: seq<byte>)
    requires EncodePool(pool).Ok?
    ensures PoolEntries(EncodePool(pool).value + rest, PoolSize(pool)) == pool
    ensures Drop(EncodePool(pool).value + rest, PoolSize(pool)) == rest
  {
    PoolRoundTrip(pool, rest);
    assert (EncodePool(pool).value + rest)[PoolSize(pool)..] == rest;
  }

  /** `get_name_args`: a three-byte depth and then the index. */
  function GetNameArgs(argSpace: seq<byte>): (r: (nat, nat))
    ensures r.0 < Pow256(3)
  {
    (FromBytes(Take(argSpace, 3)), FromBytes(Drop(argSpace, 3)))
  }

  /** `get_name_args` inverts the LOAD_NAME operand bytes of `encode_operands`. */
  lemma GetNameArgsInvertsLoadName(depth: int, index: int, pools: Pools)
    requires EncodeOperands(LoadName(depth, index), pools).Ok?
    ensures GetNameArgs(EncodeOperands(LoadName(depth, index), pools).value.0) == (depth, index)
  {
    var bytes := EncodeOperands(LoadName(depth, index), pools).value.0;
    assert Take(bytes, 3) == ToBytes(depth, 3, false).value;
    assert Drop(bytes, 3) == ToBytes(index, 4, false).value;
  }
}
