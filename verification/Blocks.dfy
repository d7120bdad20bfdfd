// The part of fs/file.c and fs/inode.c that is about blocks: where a file's bytes are on the disk,
// through 12 direct sectors and the table in the indirect one, and which bits of the block bitmap
// belong to the file.
module Blocks {
  const BLOCK_SIZE := 512
  const DIRECT := 12
  const MAX_BLOCKS := 140       // 12 direct ones and 512 / 4 through the indirect block

  type Byte = x: int | 0 <= x < 256
  type Block = seq<Byte>

  function Zero(): (b: Block)
    ensures |b| == BLOCK_SIZE && forall p :: 0 <= p < BLOCK_SIZE ==> b[p] == 0
  {
    seq(BLOCK_SIZE, p => 0)
  }

  // A partition: sector contents by LBA, and the in-memory block bitmap, bit i standing for the
  // data sector base + i. base is data_start_lba; the tables in front of it take far more than 12
  // sectors.
  datatype Vol = Vol(disk: map<nat, Block>, used: seq<bool>, base: nat)

  function At(v: Vol, lba: nat): (b: Block)
    ensures |b| == BLOCK_SIZE
  {
    if lba in v.disk && |v.disk[lba]| == BLOCK_SIZE then v.disk[lba] else Zero()
  }

  // ---- the indirect block: 128 little-endian words ----

  function WordAt(b: Block, i: nat): nat
    requires i < 128 && |b| == BLOCK_SIZE
  {
    var b0: nat, b1: nat, b2: nat, b3: nat := b[4 * i], b[4 * i + 1], b[4 * i + 2], b[4 * i + 3];
    b0 + 256 * (b1 + 256 * (b2 + 256 * b3))
  }

  function Low(x: nat): Byte {
    x % 256
  }

  function High(x: nat): nat {
    x / 256
  }

  function ByteOf(x: nat, j: nat): Byte {
    if j == 0 then Low(x) else if j == 1 then Low(High(x)) else if j == 2 then Low(High(High(x)))
        else Low(High(High(High(x))))
  }

  // all_blocks_lba + 12 as the bytes that ide_write stores.
  function TableBlock(lbas: seq<nat>): (b: Block)
    requires |lbas| == 128
    ensures |b| == BLOCK_SIZE
  {
    seq(512, p requires 0 <= p < 512 => ByteOf(lbas[p / 4], p % 4))
  }

  lemma TableRoundTrip(lbas: seq<nat>, i: nat)
    requires |lbas| == 128 && i < 128 && lbas[i] < 0x1_0000_0000
    ensures WordAt(TableBlock(lbas), i) == lbas[i]
  {
    assert (4 * i) / 4 == i && (4 * i + 1) / 4 == i && (4 * i + 2) / 4 == i && (4 * i + 3) / 4 == i;
    assert (4 * i) % 4 == 0 && (4 * i + 1) % 4 == 1 && (4 * i + 2) % 4 == 2 && (4 * i + 3) % 4 == 3;
    assert High(High(High(lbas[i]))) < 256;
  }

  // ---- the blocks of a file ----

  predicate IsSectors(sectors: seq<nat>) {
    |sectors| == 13
  }

  // The sector of block i of a file, 0 if there is none.
  function Lba(v: Vol, sectors: seq<nat>, i: nat): nat
    requires IsSectors(sectors) && i < MAX_BLOCKS
  {
    if i < DIRECT then sectors[i]
    else if sectors[DIRECT] == 0 then 0
    else WordAt(At(v, sectors[DIRECT]), i - DIRECT)
  }

  // lba is a data sector that the bitmap has marked used, other than the root directory's.
  predicate Allocated(v: Vol, lba: nat) {
    v.base < lba < v.base + |v.used| && v.used[lba - v.base]
  }

  // The file has blocks 0..n, allocated and distinct, and no others.
  ghost predicate Owns(v: Vol, sectors: seq<nat>, n: nat) {
    && IsSectors(sectors) && 1 <= n <= MAX_BLOCKS
    && (forall i :: 0 <= i < n ==> Allocated(v, Lba(v, sectors, i)))
    && (forall i :: n <= i < MAX_BLOCKS ==> Lba(v, sectors, i) == 0)
    && (sectors[DIRECT] == 0 <==> n <= DIRECT)
    && (n > DIRECT ==> Allocated(v, sectors[DIRECT]))
    && (forall i :: 0 <= i < n ==> Lba(v, sectors, i) != sectors[DIRECT])
    && (forall i, j :: 0 <= i < j < n ==> Lba(v, sectors, i) != Lba(v, sectors, j))
  }

  // A file before its first write, and one that has been written.
  ghost predicate FileFits(v: Vol, sectors: seq<nat>, size: nat) {
    && IsSectors(sectors) && size < MAX_BLOCKS * BLOCK_SIZE
    && (if sectors[0] == 0 then size == 0 && forall i :: 0 <= i < 13 ==> sectors[i] == 0
        else Owns(v, sectors, size / BLOCK_SIZE + 1))
  }

  ghost predicate VolFits(v: Vol) {
    v.base >= DIRECT && v.base + |v.used| < 0x1_0000_0000 && |v.used| > 0 && v.used[0]
  }

  // The bytes of a file of this size.
  ghost function Contents(v: Vol, sectors: seq<nat>, size: nat): (c: seq<Byte>)
    requires IsSectors(sectors) && size <= MAX_BLOCKS * BLOCK_SIZE
    ensures |c| == size
  {
    seq(size, p requires 0 <= p < size => At(v, Lba(v, sectors, p / BLOCK_SIZE))[p % BLOCK_SIZE])
  }

  // ---- one sector written ----

  // Writing a data block of the file moves no block.
  lemma DataWriteKeepsLbas(v: Vol, sectors: seq<nat>, n: nat, k: nat, b: Block)
    requires Owns(v, sectors, n) && k < n && |b| == BLOCK_SIZE
    ensures var v' := v.(disk := v.disk[Lba(v, sectors, k) := b]);
      (forall i :: 0 <= i < MAX_BLOCKS ==> Lba(v', sectors, i) == Lba(v, sectors, i)) && Owns(v', sectors, n)
  {
    var v' := v.(disk := v.disk[Lba(v, sectors, k) := b]);
    assert Lba(v, sectors, k) != sectors[DIRECT];
    assert forall i :: 0 <= i < MAX_BLOCKS ==> Lba(v', sectors, i) == Lba(v, sectors, i);
  }

  // Writing chunk at the end of a file of size cur, into a sector that keeps what was before it.
  lemma ChunkAppends(v: Vol, sectors: seq<nat>, n: nat, cur: nat, b: Block, chunk: seq<Byte>)
    requires Owns(v, sectors, n) && cur / BLOCK_SIZE < n && |b| == BLOCK_SIZE
    requires var off := cur % BLOCK_SIZE;
      && off + |chunk| <= BLOCK_SIZE
      && (forall p :: 0 <= p < off ==> b[p] == At(v, Lba(v, sectors, cur / BLOCK_SIZE))[p])
      && (forall p :: 0 <= p < |chunk| ==> b[off + p] == chunk[p])
    ensures cur + |chunk| <= MAX_BLOCKS * BLOCK_SIZE
    ensures var v' := v.(disk := v.disk[Lba(v, sectors, cur / BLOCK_SIZE) := b]);
      Contents(v', sectors, cur + |chunk|) == Contents(v, sectors, cur) + chunk
  {
    var k := cur / BLOCK_SIZE;
    var v' := v.(disk := v.disk[Lba(v, sectors, k) := b]);
    DataWriteKeepsLbas(v, sectors, n, k, b);
    forall p | 0 <= p < cur + |chunk|
      ensures Contents(v', sectors, cur + |chunk|)[p] == (Contents(v, sectors, cur) + chunk)[p]
    {
      var i := p / BLOCK_SIZE;
      if p < cur {
        assert i <= k;
      } else {
        assert i == k && p % BLOCK_SIZE == cur % BLOCK_SIZE + (p - cur);
      }
    }
  }

  // ---- ownership as a list of block numbers ----

  ghost function Lbas(v: Vol, sectors: seq<nat>): (t: seq<nat>)
    requires IsSectors(sectors)
    ensures |t| == MAX_BLOCKS
  {
    seq(MAX_BLOCKS, i requires 0 <= i < MAX_BLOCKS => Lba(v, sectors, i))
  }

  // t lists n blocks, allocated and distinct, and ind is the sector of the indirect block.
  ghost predicate Held(v: Vol, t: seq<nat>, ind: nat, n: nat) {
    && |t| == MAX_BLOCKS && 1 <= n <= MAX_BLOCKS
    && (forall i :: 0 <= i < n ==> Allocated(v, t[i]) && t[i] != ind)
    && (forall i :: n <= i < MAX_BLOCKS ==> t[i] == 0)
    && (n > DIRECT ==> Allocated(v, ind))
    && (forall i, j :: 0 <= i < j < n ==> t[i] != t[j])
  }

  lemma OwnsIsHeld(v: Vol, sectors: seq<nat>, n: nat)
    requires IsSectors(sectors)
    ensures Owns(v, sectors, n) <==>
      Held(v, Lbas(v, sectors), sectors[DIRECT], n) && (sectors[DIRECT] == 0 <==> n <= DIRECT)
  {
    var t := Lbas(v, sectors);
    assert forall i :: 0 <= i < MAX_BLOCKS ==> t[i] == Lba(v, sectors, i);
  }

  // A sector whose bit was clear.
  predicate Free(v: Vol, lba: nat) {
    v.base < lba < v.base + |v.used| && !v.used[lba - v.base]
  }

  function Marked(v: Vol, lba: nat): Vol
    requires v.base <= lba < v.base + |v.used|
  {
    v.(used := v.used[lba - v.base := true])
  }

  // One block more, on a sector that was free.
  lemma HoldOneMore(v: Vol, t: seq<nat>, ind: nat, n: nat, lba: nat)
    requires Held(v, t, ind, n) && n < MAX_BLOCKS && Free(v, lba) && lba != ind
    requires n + 1 > DIRECT ==> Allocated(v, ind)
    ensures Held(Marked(v, lba), t[n := lba], ind, n + 1)
  {
  }

  // The inode and its indirect block record the list.
  ghost predicate Records(v: Vol, sectors: seq<nat>, t: seq<nat>) {
    && IsSectors(sectors) && |t| == MAX_BLOCKS
    && (forall i :: 0 <= i < DIRECT ==> sectors[i] == t[i])
    && (forall i :: DIRECT <= i < MAX_BLOCKS ==>
          t[i] == if sectors[DIRECT] == 0 then 0 else WordAt(At(v, sectors[DIRECT]), i - DIRECT))
  }

  lemma RecordsIsLbas(v: Vol, sectors: seq<nat>, t: seq<nat>)
    requires IsSectors(sectors)
    ensures Records(v, sectors, t) <==> t == Lbas(v, sectors)
  {
    assert forall i :: 0 <= i < MAX_BLOCKS ==> Lbas(v, sectors)[i] == Lba(v, sectors, i);
  }

  // Writing the table to the indirect block records the part of the list it is for.
  lemma TableRecords(v: Vol, sectors: seq<nat>, t: seq<nat>, table: seq<nat>)
    requires IsSectors(sectors) && |t| == MAX_BLOCKS && |table| == 128 && sectors[DIRECT] != 0
    requires forall i :: 0 <= i < DIRECT ==> sectors[i] == t[i]
    requires forall i :: 0 <= i < 128 ==> table[i] == t[i + DIRECT]
    requires forall i :: 0 <= i < 128 ==> table[i] < 0x1_0000_0000
    ensures Records(v.(disk := v.disk[sectors[DIRECT] := TableBlock(table)]), sectors, t)
  {
    var v' := v.(disk := v.disk[sectors[DIRECT] := TableBlock(table)]);
    WholeTable(table);
    forall i | DIRECT <= i < MAX_BLOCKS
      ensures t[i] == WordAt(At(v', sectors[DIRECT]), i - DIRECT)
    {
      assert table[i - DIRECT] == t[i - DIRECT + DIRECT];
    }
  }

  lemma WholeTable(table: seq<nat>)
    requires |table| == 128 && forall i :: 0 <= i < 128 ==> table[i] < 0x1_0000_0000
    ensures forall i :: 0 <= i < 128 ==> WordAt(TableBlock(table), i) == table[i]
  {
    forall i | 0 <= i < 128
      ensures WordAt(TableBlock(table), i) == table[i]
    {
      TableRoundTrip(table, i);
    }
  }

  ghost predicate Among(t: seq<nat>, n: nat, lba: nat)
    requires n <= |t|
  {
    exists j :: 0 <= j < n && t[j] == lba
  }

  // The bitmap is the file's own sectors and, apart from them, those of others.
  ghost predicate Accounts(v: Vol, t: seq<nat>, ind: nat, n: nat, others: seq<bool>)
    requires n <= |t|
  {
    && |others| == |v.used|
    && (forall i: nat :: i < |v.used| ==> BitAccounted(v, t, ind, n, others, i))
  }

  ghost predicate BitAccounted(v: Vol, t: seq<nat>, ind: nat, n: nat, others: seq<bool>, i: nat)
    requires n <= |t| && i < |v.used| == |others|
  {
    var mine := Among(t, n, v.base + i) || v.base + i == ind;
    (v.used[i] <==> others[i] || mine) && !(others[i] && mine)
  }

  lemma AmongOneMore(t: seq<nat>, n: nat, lba: nat, x: nat)
    requires n < |t|
    ensures Among(t[n := lba], n + 1, x) <==> Among(t, n, x) || x == lba
  {
    var t' := t[n := lba];
    if Among(t, n, x) {
      var j :| 0 <= j < n && t[j] == x;
      assert t'[j] == x;
    }
    assert t'[n] == lba;
  }

  lemma AccountOneMore(v: Vol, t: seq<nat>, ind: nat, n: nat, lba: nat, others: seq<bool>)
    requires n < |t| && Accounts(v, t, ind, n, others) && Free(v, lba)
    ensures Accounts(Marked(v, lba), t[n := lba], ind, n + 1, others)
  {
    var v', t', n' := Marked(v, lba), t[n := lba], n + 1;
    forall i: nat | i < |v'.used|
      ensures BitAccounted(v', t', ind, n', others, i)
    {
      assert BitAccounted(v, t, ind, n, others, i);
      AmongOneMore(t, n, lba, v.base + i);
    }
  }

  lemma AccountIndirect(v: Vol, t: seq<nat>, n: nat, ind: nat, others: seq<bool>)
    requires n <= |t| && v.base > 0 && Accounts(v, t, 0, n, others) && Free(v, ind)
    ensures Accounts(Marked(v, ind), t, ind, n, others)
  {
    var v' := Marked(v, ind);
    forall i: nat | i < |v'.used|
      ensures BitAccounted(v', t, ind, n, others, i)
    {
      assert BitAccounted(v, t, 0, n, others, i);
    }
  }

  // The contents only depend on the sectors they are on.
  lemma ContentsKept(v: Vol, sectors: seq<nat>, v': Vol, sectors': seq<nat>, size: nat, n: nat)
    requires IsSectors(sectors) && IsSectors(sectors') && n <= MAX_BLOCKS && size <= n * BLOCK_SIZE
    requires forall i :: 0 <= i < n ==> Lba(v', sectors', i) == Lba(v, sectors, i)
    requires forall i :: 0 <= i < n ==> At(v', Lba(v, sectors, i)) == At(v, Lba(v, sectors, i))
    ensures Contents(v', sectors', size) == Contents(v, sectors, size)
  {
    forall p | 0 <= p < size
      ensures Contents(v', sectors', size)[p] == Contents(v, sectors, size)[p]
    {
      assert p / BLOCK_SIZE < n;
    }
  }
}
