/**
 * The rank packs: `main` of scripts/generate-hot-and-cold-data.ts deals the rank
 * tables of the targets over sixteen files, and readers find a rank through the
 * recorded file and offset.
 */
module RankPacks {
  import opened RankTable

  const PACK_COUNT := 16
  /** Pack lengths are kept in a Uint32Array. */
  const U32 := 0x1_0000_0000

  newtype byte = b: int | 0 <= b < 256

  datatype Location = Location(file: nat, offset: nat)

  /** The little-endian bytes of a Uint16Array. */
  function Bytes(table: seq<nat>): (bytes: seq<byte>)
    ensures |bytes| == 2 * |table|
  {
    seq(2 * |table|, k requires 0 <= k < 2 * |table| =>
      (if k % 2 == 0 then table[k / 2] % 256 else (table[k / 2] / 256) % 256) as byte)
  }

  /** Buffer.readUInt16LE */
  function ReadU16(bytes: seq<byte>, offset: nat): nat
    requires offset + 1 < |bytes|
  {
    bytes[offset] as nat + 256 * bytes[offset + 1] as nat
  }

  lemma ReadBack(table: seq<nat>, i: nat)
    requires i < |table| && table[i] < U16
    ensures ReadU16(Bytes(table), 2 * i) == table[i]
    ensures Bytes(table)[2 * i] as nat + 256 * Bytes(table)[2 * i + 1] as nat == table[i]
  {
    assert (2 * i) / 2 == i && (2 * i + 1) / 2 == i;
  }

  /** The length of `k` tables of `n` two-byte ranks. */
  function Size(k: nat, n: nat): nat {
    if k == 0 then 0 else Size(k - 1, n) + 2 * n
  }

  /** Where the table of target `i` really starts in its file. */
  function Start(i: nat, n: nat): nat {
    Size(i / PACK_COUNT, n)
  }

  /** A cell of a Uint32Array. */
  function Wrap(length: nat): nat {
    length % U32
  }

  lemma WrapAdd(a: nat, b: nat)
    ensures Wrap(Wrap(a) + b) == Wrap(a + b)
  {
    assert a + b == (a / U32) * U32 + (a % U32 + b);
  }

  /** How many of the first `count` targets are dealt to file `p`. */
  function Dealt(count: nat, p: nat): nat
    requires p < PACK_COUNT
  {
    if count <= p then 0 else (count - 1 - p) / PACK_COUNT + 1
  }

  ghost predicate AllTables(tables: seq<seq<nat>>, n: nat) {
    forall i :: 0 <= i < |tables| ==> |tables[i]| == n
  }

  ghost predicate BlockAt(pack: seq<byte>, table: seq<nat>, start: nat) {
    && start + 2 * |table| <= |pack|
    && pack[start..start + 2 * |table|] == Bytes(table)
  }

  /** Each file is as long as the tables dealt to it. */
  ghost predicate PackSizes(packs: seq<seq<byte>>, count: nat, n: nat) {
    && |packs| == PACK_COUNT
    && forall p :: 0 <= p < PACK_COUNT ==> |packs[p]| == Size(Dealt(count, p), n)
  }

  /** Each of the first `count` targets has its table in its file. */
  ghost predicate PackBlocks(packs: seq<seq<byte>>, tables: seq<seq<nat>>, count: nat, n: nat)
    requires count <= |tables| && |packs| == PACK_COUNT
  {
    forall i :: 0 <= i < count ==> BlockAt(packs[i % PACK_COUNT], tables[i], Start(i, n))
  }

  lemma DealtNext(count: nat, p: nat)
    requires p < PACK_COUNT
    ensures Dealt(count + 1, p) == Dealt(count, p) + (if count % PACK_COUNT == p then 1 else 0)
    ensures count % PACK_COUNT == p ==> Dealt(count, p) == count / PACK_COUNT
  {}

  /** The files and their lengths once the first `count` tables are packed. */
  ghost predicate Packed(chunks: seq<seq<byte>>, lengths: seq<nat>, tables: seq<seq<nat>>, count: nat, n: nat) {
    && count <= |tables| && |lengths| == PACK_COUNT
    && PackSizes(chunks, count, n) && PackBlocks(chunks, tables, count, n)
    && forall p :: 0 <= p < PACK_COUNT ==> lengths[p] == Wrap(|chunks[p]|)
  }

  method PackTable(chunks: array<seq<byte>>, lengths: array<nat>, tables: seq<seq<nat>>, index: nat, n: nat)
    returns (location: Location)
    requires AllTables(tables, n) && index < |tables|
    requires chunks.Length == lengths.Length == PACK_COUNT
    requires Packed(chunks[..], lengths[..], tables, index, n)
    modifies chunks, lengths
    ensures Packed(chunks[..], lengths[..], tables, index + 1, n)
    ensures location == Location(index % PACK_COUNT, Wrap(Start(index, n)))
  {
    var p := index % PACK_COUNT;
    var bytes := Bytes(tables[index]);
    ghost var before, was := chunks[..], lengths[..];
    SizesNext(before, bytes, index, n);
    BlocksNext(before, tables, index, n);
    location := Location(p, lengths[p]);
    chunks[p] := chunks[p] + bytes;
    lengths[p] := Wrap(lengths[p] + |bytes|);
    WrapAdd(|before[p]|, |bytes|);
    assert chunks[..] == before[p := before[p] + bytes] && lengths[..] == was[p := Wrap(was[p] + |bytes|)];
  }

  method PackTables(tables: seq<seq<nat>>, n: nat) returns (packs: seq<seq<byte>>, locations: seq<Location>)
    requires AllTables(tables, n)
    ensures PackSizes(packs, |tables|, n) && PackBlocks(packs, tables, |tables|, n)
    ensures |locations| == |tables|
    ensures forall i :: 0 <= i < |tables| ==> locations[i] == Location(i % PACK_COUNT, Wrap(Start(i, n)))
    ensures forall i :: 0 <= i < |tables| ==>
      locations[i].file == i % 16 && locations[i].offset == ((i / 16) * (2 * n)) % 0x1_0000_0000
  {
    var chunks := new seq<byte>[PACK_COUNT](_ => []);
    var lengths := new nat[PACK_COUNT](_ => 0);
    locations := [];
    for index := 0 to |tables|
      invariant Packed(chunks[..], lengths[..], tables, index, n)
      invariant |locations| == index
      invariant forall i :: 0 <= i < index ==> locations[i] == Location(i % PACK_COUNT, Wrap(Start(i, n)))
    {
      var location := PackTable(chunks, lengths, tables, index, n);
      locations := locations + [location];
    }
    packs := chunks[..];
    forall i | 0 <= i < |tables|
      ensures Start(i, n) == (i / 16) * (2 * n)
    {
      SizeIsProduct(i / 16, n);
    }
  }

  lemma SizesNext(before: seq<seq<byte>>, bytes: seq<byte>, index: nat, n: nat)
    requires PackSizes(before, index, n) && |bytes| == 2 * n
    ensures PackSizes(before[index % PACK_COUNT := before[index % PACK_COUNT] + bytes], index + 1, n)
    ensures |before[index % PACK_COUNT]| == Start(index, n)
  {
    forall q | 0 <= q < PACK_COUNT
      ensures Dealt(index + 1, q) == Dealt(index, q) + (if index % PACK_COUNT == q then 1 else 0)
    {
      DealtNext(index, q);
    }
    DealtNext(index, index % PACK_COUNT);
  }

  lemma BlocksNext(before: seq<seq<byte>>, tables: seq<seq<nat>>, index: nat, n: nat)
    requires index < |tables| && |before| == PACK_COUNT && PackBlocks(before, tables, index, n)
    requires |before[index % PACK_COUNT]| == Start(index, n)
    ensures PackBlocks(before[index % PACK_COUNT := before[index % PACK_COUNT] + Bytes(tables[index])],
                       tables, index + 1, n)
  {
    var p, bytes := index % PACK_COUNT, Bytes(tables[index]);
    var after := before[p := before[p] + bytes];
    forall i | 0 <= i < index + 1
      ensures BlockAt(after[i % PACK_COUNT], tables[i], Start(i, n))
    {
      if i < index {
        BlockStays(before[i % PACK_COUNT], bytes, tables[i], Start(i, n));
      } else {
        assert after[p][Start(index, n)..Start(index, n) + |bytes|] == bytes;
      }
    }
  }

  lemma BlockStays(pack: seq<byte>, more: seq<byte>, table: seq<nat>, start: nat)
    requires BlockAt(pack, table, start)
    ensures BlockAt(pack + more, table, start)
  {
    assert (pack + more)[start..start + 2 * |table|] == pack[start..start + 2 * |table|];
  }

  // ---- What a reader finds ----

  lemma {:induction false} SizeMonotone(k: nat, l: nat, n: nat)
    requires k <= l
    ensures Size(k, n) <= Size(l, n)
    ensures k < l ==> Size(k, n) + 2 * n <= Size(l, n)
    decreases l - k
  {
    if k < l {
      SizeMonotone(k, l - 1, n);
    }
  }

  lemma {:induction false} SizeIsProduct(k: nat, n: nat)
    ensures Size(k, n) == k * (2 * n)
  {
    if k > 0 {
      SizeIsProduct(k - 1, n);
    }
  }

  lemma {:induction false} SizeIsEven(k: nat, n: nat)
    ensures Size(k, n) % 2 == 0
  {
    if k > 0 {
      SizeIsEven(k - 1, n);
    }
  }

  lemma {:induction false} SizeBound(k: nat, n: nat)
    requires n <= U16
    ensures Size(k, n) <= k * (2 * U16)
  {
    if k > 0 {
      SizeBound(k - 1, n);
    }
  }

  /** The recorded offset is the true start exactly while it fits the length counter,
      as it does for half a million targets. */
  lemma OffsetIsStart(i: nat, n: nat)
    ensures Wrap(Start(i, n)) == Start(i, n) <==> Start(i, n) < U32
    ensures i < PACK_COUNT * 0x8000 && n <= U16 ==> Start(i, n) < U32
  {
    if n <= U16 {
      SizeBound(i / PACK_COUNT, n);
    }
  }

  /** Reading through the recorded location returns the target's own rank of every word. */
  lemma PacksRoundTrip(packs: seq<seq<byte>>, tables: seq<seq<nat>>, n: nat, i: nat)
    requires AllTables(tables, n) && i < |tables|
    requires PackSizes(packs, |tables|, n) && PackBlocks(packs, tables, |tables|, n)
    requires forall r <- tables[i] :: r < U16
    requires Start(i, n) < U32
    ensures Wrap(Start(i, n)) % 2 == 0 && |tables[i]| == n
    ensures ReadsBack(packs[i % PACK_COUNT], Wrap(Start(i, n)), tables[i])
    ensures Wrap(Start(i, n)) == (i / 16) * (2 * n)
  {
    var pack, table, start := packs[i % PACK_COUNT], tables[i], Start(i, n);
    assert BlockAt(pack, table, start) && |table| == n && Wrap(start) == start;
    BlockReadsBack(pack, table, start);
    SizeIsEven(i / PACK_COUNT, n);
    SizeIsProduct(i / PACK_COUNT, n);
  }

  /** The table is in bounds at this offset, and each two bytes from there are its rank, low byte first. */
  ghost predicate ReadsBack(pack: seq<byte>, offset: nat, table: seq<nat>) {
    && offset + 2 * |table| <= |pack|
    && forall w :: 0 <= w < |table| ==>
         table[w] == pack[offset + 2 * w] as nat + 256 * pack[offset + 2 * w + 1] as nat
  }

  lemma BlockReadsBack(pack: seq<byte>, table: seq<nat>, start: nat)
    requires BlockAt(pack, table, start) && forall r <- table :: r < U16
    ensures ReadsBack(pack, start, table)
  {
    forall w | 0 <= w < |table|
      ensures ReadU16(pack, start + 2 * w) == table[w]
    {
      assert table[w] in table;
      BlockReads(pack, table, start, w);
    }
  }

  lemma BlockReads(pack: seq<byte>, table: seq<nat>, start: nat, w: nat)
    requires BlockAt(pack, table, start) && w < |table| && table[w] < U16
    ensures ReadU16(pack, start + 2 * w) == table[w]
  {
    ReadBack(table, w);
    var block := pack[start..start + 2 * |table|];
    assert block[2 * w] == pack[start + 2 * w] && block[2 * w + 1] == pack[start + 2 * w + 1];
  }

  /** Two targets of one file have disjoint blocks. */
  lemma BlocksAreDisjoint(i: nat, j: nat, n: nat)
    requires i < j && i % PACK_COUNT == j % PACK_COUNT
    ensures Start(i, n) + 2 * n <= Start(j, n)
    ensures Start(i, n) % 2 == 0 && Start(j, n) % 2 == 0
  {
    SizeMonotone(i / PACK_COUNT, j / PACK_COUNT, n);
    SizeIsEven(i / PACK_COUNT, n);
    SizeIsEven(j / PACK_COUNT, n);
  }

  /** Every byte of a file belongs to the block of some target dealt to it. */
  lemma BlocksCoverFile(packs: seq<seq<byte>>, count: nat, n: nat, p: nat, b: nat) returns (i: nat)
    requires PackSizes(packs, count, n) && p < PACK_COUNT && b < |packs[p]|
    ensures i < count && i % PACK_COUNT == p
    ensures Start(i, n) <= b < Start(i, n) + 2 * n
  {
    var k := BlockIndex(Dealt(count, p), n, b);
    i := k * PACK_COUNT + p;
    assert i / PACK_COUNT == k && i % PACK_COUNT == p;
  }

  lemma {:induction false} BlockIndex(blocks: nat, n: nat, b: nat) returns (k: nat)
    requires b < Size(blocks, n)
    ensures k < blocks && Size(k, n) <= b < Size(k, n) + 2 * n
  {
    if b >= Size(blocks - 1, n) {
      k := blocks - 1;
    } else {
      k := BlockIndex(blocks - 1, n, b);
    }
  }
}
