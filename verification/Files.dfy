// fs/file.c and fs/inode.c: file_write, file_read and inode_release.
module Files {
  import opened Options
  import opened Bits
  import opened Blocks

  class Partition {
    var disk: map<nat, Block>
    var used: seq<bool>
    const base: nat

    ghost function V(): Vol
      reads this
    {
      Vol(disk, used, base)
    }

    constructor (disk: map<nat, Block>, used: seq<bool>, base: nat)
      ensures V() == Vol(disk, used, base)
    {
      this.disk, this.used, this.base := disk, used, base;
    }

    // block_bitmap_alloc; None is the failing ASSERT of bitmap_scan on a full bitmap.
    method BlockBitmapAlloc() returns (lba: Option<nat>)
      requires VolFits(V())
      modifies this`used
      ensures lba.None? <==> CountClear(old(used)) == 0
      ensures lba.None? ==> used == old(used)
      ensures lba.Some? ==> Free(old(V()), lba.value) && V() == Marked(old(V()), lba.value) && VolFits(V())
      ensures lba.Some? ==> forall i :: 0 <= i < lba.value - base ==> old(used)[i]
      ensures lba.Some? ==> CountClear(used) == CountClear(old(used)) - 1
    {
      var i := FirstClear(used);    // bitmap_scan
      if i == |used| {
        NoneClear(used);
        return None;
      }
      ClearOneLess(used, i);
      used := used[i := true];
      return Some(base + i);
    }

    method IdeRead(lba: nat) returns (b: Block)
      ensures b == At(V(), lba)
    {
      b := if lba in disk && |disk[lba]| == BLOCK_SIZE then disk[lba] else Zero();
    }

    method IdeWrite(lba: nat, b: Block)
      modifies this`disk
      ensures disk == old(disk)[lba := b]
    {
      disk := disk[lba := b];
    }
  }

  class Inode {
    var size: nat
    var sectors: seq<nat>

    // inode_init.
    constructor ()
      ensures size == 0 && IsSectors(sectors) && forall i :: 0 <= i < 13 ==> sectors[i] == 0
    {
      size := 0;
      sectors := seq<nat>(13, i => 0);
    }
  }

  // The part of a file_desc_t that is not the inode.
  class FileDesc {
    var pos: nat

    constructor ()
      ensures pos == 0
    {
      pos := 0;
    }
  }

  // uint32_t arithmetic.
  function Wrap(x: int): (r: nat)
    ensures r < 0x1_0000_0000 && (r - x) % 0x1_0000_0000 == 0
    ensures 0 <= x < 0x1_0000_0000 ==> r == x
  {
    x % 0x1_0000_0000
  }

  // The list of a file with blocks 0..n, for a bitmap in which others is what is not the file's.
  ghost predicate Listed(v: Vol, sectors: seq<nat>, n: nat, others: seq<bool>) {
    && Owns(v, sectors, n) && Accounts(v, Lbas(v, sectors), sectors[DIRECT], n, others)
  }

  // What a call has built up by block n: the list t is held and accounted for, the file still reads
  // the same, and the part of all_blocks_lba from block low on agrees with t.
  ghost predicate Building(v: Vol, t: seq<nat>, ind: nat, n: nat, others: seq<bool>, all: seq<nat>, low: nat) {
    && Held(v, t, ind, n) && Accounts(v, t, ind, n, others)
    && |all| == MAX_BLOCKS && low <= n && forall i :: low <= i < n ==> all[i] == t[i]
  }

  lemma BuildOneMore(v: Vol, t: seq<nat>, ind: nat, n: nat, others: seq<bool>, all: seq<nat>, low: nat, lba: nat)
    requires Building(v, t, ind, n, others, all, low) && n < MAX_BLOCKS && Free(v, lba)
    requires (n + 1 > DIRECT ==> Allocated(v, ind)) && (ind == 0 || Allocated(v, ind))
    ensures Building(Marked(v, lba), t[n := lba], ind, n + 1, others, all[n := lba], low)
    ensures ind == 0 || Allocated(Marked(v, lba), ind)
  {
    HoldOneMore(v, t, ind, n, lba);
    AccountOneMore(v, t, ind, n, lba, others);
  }

  lemma BuildStarts(v: Vol, sectors: seq<nat>, n: nat, others: seq<bool>, all: seq<nat>, low: nat)
    requires Listed(v, sectors, n, others) && |all| == MAX_BLOCKS && low <= n
    requires forall i :: low <= i < n ==> all[i] == Lba(v, sectors, i)
    ensures Building(v, Lbas(v, sectors), sectors[DIRECT], n, others, all, low)
    ensures Records(v, sectors, Lbas(v, sectors))
  {
    OwnsIsHeld(v, sectors, n);
    RecordsIsLbas(v, sectors, Lbas(v, sectors));
  }

  lemma BuildEnds(v: Vol, sectors: seq<nat>, t: seq<nat>, n: nat, others: seq<bool>, all: seq<nat>, low: nat)
    requires IsSectors(sectors) && Building(v, t, sectors[DIRECT], n, others, all, low) && Records(v, sectors, t)
    requires sectors[DIRECT] == 0 <==> n <= DIRECT
    ensures Listed(v, sectors, n, others)
    ensures forall i :: low <= i < n ==> all[i] == Lba(v, sectors, i)
  {
    RecordsIsLbas(v, sectors, t);
    OwnsIsHeld(v, sectors, n);
  }

  // What is held and accounted for does not depend on sector contents.
  lemma SameBits(v: Vol, v': Vol, t: seq<nat>, ind: nat, n: nat, others: seq<bool>)
    requires Held(v, t, ind, n) && Accounts(v, t, ind, n, others) && v'.used == v.used && v'.base == v.base
    ensures Held(v', t, ind, n) && Accounts(v', t, ind, n, others)
  {
    forall i: nat | i < |v'.used|
      ensures BitAccounted(v', t, ind, n, others, i)
    {
      assert BitAccounted(v, t, ind, n, others, i);
    }
  }

  // all_blocks_lba, zeroed by sys_malloc.
  function NoBlocks(): (all: seq<nat>)
    ensures |all| == MAX_BLOCKS && forall i :: 0 <= i < MAX_BLOCKS ==> all[i] == 0
  {
    seq<nat>(MAX_BLOCKS, i => 0)
  }

  // Situation 1 of file_write: blocks from..upTo are new and direct.
  method AddDirect(p: Partition, f: Inode, from: nat, upTo: nat, ghost others: seq<bool>)
    returns (ok: bool, all: seq<nat>)
    requires VolFits(p.V()) && Listed(p.V(), f.sectors, from, others) && from <= upTo <= DIRECT
    requires f.size <= from * BLOCK_SIZE
    modifies p`used, f`sectors
    ensures ok <==> CountClear(old(p.used)) >= upTo - from
    ensures ok ==> CountClear(p.used) == CountClear(old(p.used)) - (upTo - from)
    ensures ok ==> VolFits(p.V()) && Listed(p.V(), f.sectors, upTo, others) && |all| == MAX_BLOCKS
    ensures ok ==> forall i :: from - 1 <= i < upTo ==> all[i] == Lba(p.V(), f.sectors, i)
    ensures ok ==> Contents(p.V(), f.sectors, f.size) == old(Contents(p.V(), f.sectors, f.size))
  {
    all := NoBlocks();
    assert f.sectors[from - 1] == Lba(p.V(), f.sectors, from - 1) != 0;
    all := all[from - 1 := f.sectors[from - 1]];
    ghost var t: seq<nat> := Lbas(p.V(), f.sectors);
    BuildStarts(p.V(), f.sectors, from, others, all, from - 1);
    var k := from;
    while k < upTo
      invariant from <= k <= upTo && VolFits(p.V()) && p.disk == old(p.disk)
      invariant Building(p.V(), t, 0, k, others, all, from - 1) && Records(p.V(), f.sectors, t)
          && f.sectors[DIRECT] == 0
      invariant forall i :: 0 <= i < from ==> f.sectors[i] == old(f.sectors)[i]
      invariant CountClear(p.used) == CountClear(old(p.used)) - (k - from)
    {
      ghost var v := p.V();
      var lba := p.BlockBitmapAlloc();
      if lba.None? {
        return false, all;
      }
      assert f.sectors[k] == 0;
      BuildOneMore(v, t, 0, k, others, all, from - 1, lba.value);
      f.sectors := f.sectors[k := lba.value];
      all := all[k := lba.value];
      t := t[k := lba.value];
      k := k + 1;
    }
    BuildEnds(p.V(), f.sectors, t, upTo, others, all, from - 1);
    ContentsKept(old(p.V()), old(f.sectors), p.V(), f.sectors, f.size, from);
    return true, all;
  }

  // Reading the indirect block into all_blocks_lba + 12.
  function WithTable(all: seq<nat>, b: Block): (r: seq<nat>)
    requires |all| == MAX_BLOCKS && |b| == BLOCK_SIZE
    ensures |r| == MAX_BLOCKS && forall i :: 0 <= i < MAX_BLOCKS ==>
        r[i] == if i < DIRECT then all[i] else WordAt(b, i - DIRECT)
  {
    all[..DIRECT] + seq(MAX_BLOCKS - DIRECT, i requires 0 <= i < MAX_BLOCKS - DIRECT => WordAt(b, i))
  }

  // Situation 3: the file is past its direct blocks already; blocks from..upTo go into the table.
  method AddIndirect(p: Partition, f: Inode, from: nat, upTo: nat, ghost others: seq<bool>)
    returns (ok: bool, all: seq<nat>)
    requires VolFits(p.V()) && Listed(p.V(), f.sectors, from, others) && DIRECT < from <= upTo <= MAX_BLOCKS
    requires f.size <= from * BLOCK_SIZE
    modifies p`used, p`disk
    ensures ok <==> CountClear(old(p.used)) >= upTo - from
    ensures ok ==> CountClear(p.used) == CountClear(old(p.used)) - (upTo - from)
    ensures ok ==> VolFits(p.V()) && Listed(p.V(), f.sectors, upTo, others) && |all| == MAX_BLOCKS
    ensures ok ==> forall i :: from - 1 <= i < upTo ==> all[i] == Lba(p.V(), f.sectors, i)
    ensures ok ==> Contents(p.V(), f.sectors, f.size) == old(Contents(p.V(), f.sectors, f.size))
  {
    ghost var v0 := p.V();
    assert f.sectors[DIRECT] != 0;
    var table := f.sectors[DIRECT];
    var b := p.IdeRead(table);
    all := WithTable(NoBlocks(), b);
    ghost var t: seq<nat> := Lbas(p.V(), f.sectors);
    BuildStarts(p.V(), f.sectors, from, others, all, DIRECT);
    ok, all, t := FillIndirect(p, table, from, upTo, all, t, others);
    if ok {
      StoreTable(p, f, t, upTo, all, others);
      TableKept(v0, p.V(), f.sectors, f.size, from, TableBlock(all[DIRECT..]));
    }
  }

  // Storing the table changes no byte of the file.
  lemma TableKept(v: Vol, v': Vol, sectors: seq<nat>, size: nat, n: nat, b: Block)
    requires Owns(v, sectors, n) && size <= n * BLOCK_SIZE && |b| == BLOCK_SIZE
    requires v'.disk == v.disk[sectors[DIRECT] := b]
    requires forall i :: 0 <= i < n ==> Lba(v', sectors, i) == Lba(v, sectors, i)
    ensures Contents(v', sectors, size) == Contents(v, sectors, size)
  {
    ContentsKept(v, sectors, v', sectors, size, n);
  }

  // The loop of situation 3.
  method FillIndirect(p: Partition, ghost table: nat, from: nat, upTo: nat, all0: seq<nat>, ghost t0: seq<nat>,
      ghost others: seq<bool>)
    returns (ok: bool, all: seq<nat>, ghost t: seq<nat>)
    requires VolFits(p.V()) && DIRECT < from <= upTo <= MAX_BLOCKS && Allocated(p.V(), table)
    requires Building(p.V(), t0, table, from, others, all0, DIRECT)
    requires forall i :: DIRECT <= i < MAX_BLOCKS ==> all0[i] == t0[i]
    modifies p`used
    ensures VolFits(p.V()) && (ok <==> CountClear(old(p.used)) >= upTo - from)
    ensures ok ==> CountClear(p.used) == CountClear(old(p.used)) - (upTo - from)
    ensures ok ==> Building(p.V(), t, table, upTo, others, all, DIRECT)
    ensures ok ==> (forall i :: 0 <= i < from ==> t[i] == t0[i]) && forall i :: DIRECT <= i < MAX_BLOCKS ==>
        all[i] == t[i]
  {
    all, t := all0, t0;
    var k := from;
    while k < upTo
      invariant from <= k <= upTo && VolFits(p.V()) && p.disk == old(p.disk)
      invariant Building(p.V(), t, table, k, others, all, DIRECT) && Allocated(p.V(), table)
      invariant (forall i :: 0 <= i < from ==> t[i] == t0[i]) && forall i :: DIRECT <= i < MAX_BLOCKS ==> all[i] == t[i]
      invariant CountClear(p.used) == CountClear(old(p.used)) - (k - from)
    {
      ghost var v := p.V();
      var lba := p.BlockBitmapAlloc();
      if lba.None? {
        return false, all, t;
      }
      BuildOneMore(v, t, table, k, others, all, DIRECT, lba.value);
      all := all[k := lba.value];
      t := t[k := lba.value];
      k := k + 1;
    }
    ok := true;
  }

  // The end of situations 2 and 3: the table is stored in the indirect block.
  method StoreTable(p: Partition, f: Inode, ghost t: seq<nat>, ghost upTo: nat, all: seq<nat>, ghost others: seq<bool>)
    requires VolFits(p.V()) && IsSectors(f.sectors) && f.sectors[DIRECT] != 0 && upTo > DIRECT
    requires Building(p.V(), t, f.sectors[DIRECT], upTo, others, all, DIRECT)
    requires forall i :: 0 <= i < DIRECT ==> f.sectors[i] == t[i]
    requires forall i :: DIRECT <= i < MAX_BLOCKS ==> all[i] == t[i]
    modifies p`disk
    ensures p.disk == old(p.disk)[f.sectors[DIRECT] := TableBlock(all[DIRECT..])]
    ensures Listed(p.V(), f.sectors, upTo, others)
    ensures forall i :: DIRECT <= i < upTo ==> all[i] == Lba(p.V(), f.sectors, i)
    ensures forall i :: 0 <= i < upTo ==> t[i] == Lba(p.V(), f.sectors, i) && t[i] != f.sectors[DIRECT]
  {
    ghost var v := p.V();
    assert forall i :: 0 <= i < MAX_BLOCKS ==> t[i] < 0x1_0000_0000;
    TableRecords(v, f.sectors, t, all[DIRECT..]);
    p.IdeWrite(f.sectors[DIRECT], TableBlock(all[DIRECT..]));
    assert p.V() == v.(disk := v.disk[f.sectors[DIRECT] := TableBlock(all[DIRECT..])]);
    assert Building(p.V(), t, f.sectors[DIRECT], upTo, others, all, DIRECT) by {
      SameBits(v, p.V(), t, f.sectors[DIRECT], upTo, others);
    }
    BuildEnds(p.V(), f.sectors, t, upTo, others, all, DIRECT);
    RecordsIsLbas(p.V(), f.sectors, t);
  }

  // Situation 2: the last block so far is direct, and the call ends past the direct blocks. A new
  // sector number is compared with 12 where the block index is meant; sector numbers are never
  // that small, so no new block is put into the inode. That is right when none is direct.
  method AddAcross(p: Partition, f: Inode, from: nat, upTo: nat, ghost others: seq<bool>)
    returns (ok: bool, all: seq<nat>)
    requires VolFits(p.V()) && Listed(p.V(), f.sectors, from, others) && from <= DIRECT < upTo <= MAX_BLOCKS
    requires f.size <= from * BLOCK_SIZE
    modifies p`used, p`disk, f`sectors
    ensures ok <==> CountClear(old(p.used)) >= upTo - from + 1
    ensures ok ==> CountClear(p.used) == CountClear(old(p.used)) - (upTo - from + 1)
    ensures ok ==> VolFits(p.V()) && |all| == MAX_BLOCKS && IsSectors(f.sectors)
    ensures ok && from == DIRECT ==> Listed(p.V(), f.sectors, upTo, others)
    ensures ok && from == DIRECT ==> forall i :: from - 1 <= i < upTo ==> all[i] == Lba(p.V(), f.sectors, i)
    ensures ok && from == DIRECT ==> Contents(p.V(), f.sectors, f.size) == old(Contents(p.V(), f.sectors, f.size))
    ensures ok && from < DIRECT ==> f.sectors[from] == 0 && f.sectors[0] == old(f.sectors)[0]
  {
    all := NoBlocks();
    assert f.sectors[from - 1] == Lba(p.V(), f.sectors, from - 1) != 0;
    all := all[from - 1 := f.sectors[from - 1]];
    ghost var t: seq<nat> := Lbas(p.V(), f.sectors);
    BuildStarts(p.V(), f.sectors, from, others, all, from - 1);
    ok := TakeIndirect(p, f, from, all, t, others);
    if !ok {
      return;
    }
    ok, all, t := FillAcross(p, f, from, upTo, all, t, others);
    if !ok {
      return;
    }
    if from == DIRECT {
      StoreTable(p, f, t, upTo, all, others);
      ContentsKept(old(p.V()), old(f.sectors), p.V(), f.sectors, f.size, from);
    } else {
      p.IdeWrite(f.sectors[DIRECT], TableBlock(all[DIRECT..]));
    }
  }

  // The start of situation 2: a sector for the indirect block.
  method TakeIndirect(p: Partition, f: Inode, ghost n: nat, ghost all: seq<nat>, ghost t: seq<nat>,
      ghost others: seq<bool>) returns (ok: bool)
    requires VolFits(p.V()) && IsSectors(f.sectors) && f.sectors[DIRECT] == 0 && 1 <= n <= DIRECT
    requires Building(p.V(), t, 0, n, others, all, n - 1)
    modifies p`used, f`sectors
    ensures ok <==> CountClear(old(p.used)) >= 1
    ensures ok ==> CountClear(p.used) == CountClear(old(p.used)) - 1 && VolFits(p.V())
    ensures ok ==> IsSectors(f.sectors) && f.sectors == old(f.sectors)[DIRECT := f.sectors[DIRECT]]
    ensures ok ==> Free(old(p.V()), f.sectors[DIRECT]) && Allocated(p.V(), f.sectors[DIRECT])
    ensures ok ==> Building(p.V(), t, f.sectors[DIRECT], n, others, all, n - 1)
  {
    ghost var v := p.V();
    var ind := p.BlockBitmapAlloc();
    if ind.None? {
      return false;
    }
    AccountIndirect(v, t, n, ind.value, others);
    f.sectors := f.sectors[DIRECT := ind.value];
    return true;
  }

  // The loop of situation 2.
  method FillAcross(p: Partition, f: Inode, from: nat, upTo: nat, all0: seq<nat>, ghost t0: seq<nat>,
      ghost others: seq<bool>)
    returns (ok: bool, all: seq<nat>, ghost t: seq<nat>)
    requires VolFits(p.V()) && IsSectors(f.sectors) && 1 <= from <= DIRECT < upTo <= MAX_BLOCKS
    requires Building(p.V(), t0, f.sectors[DIRECT], from, others, all0, from - 1) && Allocated(p.V(), f.sectors[DIRECT])
    requires forall i :: DIRECT <= i < MAX_BLOCKS ==> all0[i] == t0[i]
    modifies p`used, f`sectors
    ensures VolFits(p.V()) && f.sectors == old(f.sectors)
    ensures ok <==> CountClear(old(p.used)) >= upTo - from
    ensures ok ==> CountClear(p.used) == CountClear(old(p.used)) - (upTo - from)
    ensures ok ==> Building(p.V(), t, f.sectors[DIRECT], upTo, others, all, from - 1)
    ensures ok ==> t[..from] == t0[..from] && forall i :: DIRECT <= i < MAX_BLOCKS ==> all[i] == t[i]
  {
    all, t := all0, t0;
    ghost var ind := f.sectors[DIRECT];
    var k := from;
    while k < upTo
      invariant from <= k <= upTo && VolFits(p.V()) && f.sectors == old(f.sectors)
      invariant Building(p.V(), t, ind, k, others, all, from - 1) && Allocated(p.V(), ind)
      invariant t[..from] == t0[..from] && forall i :: DIRECT <= i < MAX_BLOCKS ==> all[i] == t[i]
      invariant CountClear(p.used) == CountClear(old(p.used)) - (k - from)
    {
      ghost var v := p.V();
      var lba := p.BlockBitmapAlloc();
      if lba.None? {
        return false, all, t;
      }
      BuildOneMore(v, t, ind, k, others, all, from - 1, lba.value);
      assert lba.value >= DIRECT;   // so the test of line 451 always takes its else branch
      all := all[k := lba.value];
      t := t[k := lba.value];
      k := k + 1;
    }
    ok := true;
  }

  // ---- writing the bytes ----

  // io_buf with chunk copied to off.
  function Overlay(b: Block, off: nat, chunk: seq<Byte>): (r: Block)
    requires |b| == BLOCK_SIZE && off + |chunk| <= BLOCK_SIZE
    ensures |r| == BLOCK_SIZE && forall p :: 0 <= p < BLOCK_SIZE ==>
        r[p] == if off <= p < off + |chunk| then chunk[p - off] else b[p]
  {
    b[..off] + chunk + b[off + |chunk|..]
  }

  // The file owns n blocks, t lists them, and all_blocks_lba is right from block low on.
  ghost predicate Ready(v: Vol, sectors: seq<nat>, t: seq<nat>, n: nat, all: seq<nat>, low: nat) {
    && Owns(v, sectors, n) && t == Lbas(v, sectors)
    && |all| == MAX_BLOCKS && forall i :: low <= i < n ==> all[i] == t[i]
  }

  // One pass of the loop of file_write: one sector.
  method WriteChunk(p: Partition, f: Inode, all: seq<nat>, chunk: seq<Byte>, first: bool,
      ghost t: seq<nat>, ghost n: nat, ghost low: nat, ghost sound: bool)
    requires |all| == MAX_BLOCKS && IsSectors(f.sectors) && low <= f.size / BLOCK_SIZE < n <= MAX_BLOCKS
    requires f.size % BLOCK_SIZE + |chunk| <= BLOCK_SIZE && (first || f.size % BLOCK_SIZE == 0)
    requires sound ==> Ready(p.V(), f.sectors, t, n, all, low)
    modifies p`disk, f`size
    ensures f.size == old(f.size) + |chunk| && f.size <= MAX_BLOCKS * BLOCK_SIZE
    ensures sound ==> Ready(p.V(), f.sectors, t, n, all, low)
    ensures sound ==> Contents(p.V(), f.sectors, f.size) == old(Contents(p.V(), f.sectors, f.size)) + chunk
  {
    var ioBuf := Zero();
    var secIdx := f.size / BLOCK_SIZE;
    var lba := all[secIdx];
    if first {
      ioBuf := p.IdeRead(lba);
    }
    ioBuf := Overlay(ioBuf, f.size % BLOCK_SIZE, chunk);
    if sound {
      assert lba == t[secIdx] == Lba(p.V(), f.sectors, secIdx);
      ChunkAppends(p.V(), f.sectors, n, f.size, ioBuf, chunk);
      DataWriteKeepsLbas(p.V(), f.sectors, n, secIdx, ioBuf);
    }
    p.IdeWrite(lba, ioBuf);
    f.size := f.size + |chunk|;
  }

  // The loop of file_write. sound says that all_blocks_lba is right for the blocks written.
  method WriteData(p: Partition, f: Inode, all: seq<nat>, buf: seq<Byte>, ghost t: seq<nat>, ghost n: nat,
      ghost sound: bool)
    requires |all| == MAX_BLOCKS && IsSectors(f.sectors) && f.size + |buf| < n * BLOCK_SIZE && n <= MAX_BLOCKS
    requires sound ==> Ready(p.V(), f.sectors, t, n, all, f.size / BLOCK_SIZE)
    modifies p`disk, f`size
    ensures f.size == old(f.size) + |buf|
    ensures sound ==> Ready(p.V(), f.sectors, t, n, all, old(f.size) / BLOCK_SIZE)
    ensures sound ==> Contents(p.V(), f.sectors, f.size) == old(Contents(p.V(), f.sectors, f.size)) + buf
  {
    var written := 0;
    var first := true;
    while written < |buf|
      invariant 0 <= written <= |buf| && f.size == old(f.size) + written
      invariant first || written == |buf| || f.size % BLOCK_SIZE == 0
      invariant sound ==> Ready(p.V(), f.sectors, t, n, all, old(f.size) / BLOCK_SIZE)
      invariant sound ==> Contents(p.V(), f.sectors, f.size) == old(Contents(p.V(), f.sectors, f.size)) + buf[..written]
    {
      var secLeft := BLOCK_SIZE - f.size % BLOCK_SIZE;
      var chunkSize := if |buf| - written < secLeft then |buf| - written else secLeft;
      var chunk := buf[written..written + chunkSize];
      WriteChunk(p, f, all, chunk, first, t, n, old(f.size) / BLOCK_SIZE, sound);
      first := false;
      assert buf[..written] + chunk == buf[..written + chunkSize];
      written := written + chunkSize;
    }
    assert buf[..written] == buf;
  }

  // ---- file_write ----

  function BlocksFor(size: nat): nat {
    size / BLOCK_SIZE + 1
  }

  // True when the call does not start below block 12 and end past it.
  predicate KeepsFile(size: nat, count: nat) {
    BlocksFor(size) >= DIRECT || BlocksFor(size + count) <= DIRECT
  }

  // The sectors the call takes: the first block of an empty file, the new blocks, the indirect block.
  function Needed(empty: bool, size: nat, count: nat): nat {
    (if empty then 1 else 0) + (BlocksFor(size + count) - BlocksFor(size)) +
    (if BlocksFor(size) <= DIRECT && BlocksFor(size + count) > DIRECT then 1 else 0)
  }

  // others is the bitmap without the file.
  ghost predicate Mine(v: Vol, sectors: seq<nat>, size: nat, others: seq<bool>) {
    && FileFits(v, sectors, size)
    && (if sectors[0] == 0 then others == v.used
        else Accounts(v, Lbas(v, sectors), sectors[DIRECT], BlocksFor(size), others))
  }

  lemma FirstBlock(v: Vol, sectors: seq<nat>, lba: nat)
    requires VolFits(v) && FileFits(v, sectors, 0) && sectors[0] == 0 && Free(v, lba)
    ensures Listed(Marked(v, lba), sectors[0 := lba], 1, v.used)
    ensures Contents(Marked(v, lba), sectors[0 := lba], 0) == []
  {
    var v', s' := Marked(v, lba), sectors[0 := lba];
    var t: seq<nat> := Lbas(v', s');
    assert t[0] == lba && forall i :: 1 <= i < MAX_BLOCKS ==> t[i] == 0;
    OwnsIsHeld(v', s', 1);
    forall i: nat | i < |v'.used|
      ensures BitAccounted(v', t, s'[DIRECT], 1, v.used, i)
    {
      assert Among(t, 1, v.base + i) <==> v.base + i == lba;
    }
  }

  // The choice between the situations.
  method Prepare(p: Partition, f: Inode, n0: nat, n1: nat, ghost others: seq<bool>) returns (ok: bool, all: seq<nat>)
    requires VolFits(p.V()) && Listed(p.V(), f.sectors, n0, others) && n0 <= n1 <= MAX_BLOCKS
    requires f.size < n0 * BLOCK_SIZE
    modifies p`used, p`disk, f`sectors
    ensures ok <==> CountClear(old(p.used)) >= n1 - n0 + (if n0 <= DIRECT && n1 > DIRECT then 1 else 0)
    ensures ok ==>
        CountClear(p.used) == CountClear(old(p.used)) - (n1 - n0 + (if n0 <= DIRECT && n1 > DIRECT then 1 else 0))
    ensures ok ==> VolFits(p.V()) && |all| == MAX_BLOCKS && IsSectors(f.sectors)
    ensures ok && (n0 >= DIRECT || n1 <= DIRECT) ==> Listed(p.V(), f.sectors, n1, others)
    ensures ok && (n0 >= DIRECT || n1 <= DIRECT) ==> Ready(p.V(), f.sectors, Lbas(p.V(), f.sectors), n1, all, n0 - 1)
    ensures ok && (n0 >= DIRECT || n1 <= DIRECT) ==>
        Contents(p.V(), f.sectors, f.size) == old(Contents(p.V(), f.sectors, f.size))
    ensures ok && n0 < DIRECT < n1 ==> f.sectors[n0] == 0 && f.sectors[0] != 0
  {
    if n1 - n0 == 0 {
      all := NoBlocks();
      if n1 <= DIRECT {
        all := all[n0 - 1 := f.sectors[n0 - 1]];
      } else {
        assert f.sectors[DIRECT] != 0;
        var b := p.IdeRead(f.sectors[DIRECT]);
        all := WithTable(all, b);
      }
      ok := true;
    } else if n1 <= DIRECT {
      ok, all := AddDirect(p, f, n0, n1, others);
    } else if n0 <= DIRECT {
      assert Lba(p.V(), f.sectors, 0) != 0;
      ok, all := AddAcross(p, f, n0, n1, others);
    } else {
      ok, all := AddIndirect(p, f, n0, n1, others);
    }
  }

  // TooBig is the -1 of a file that would be too large. Panic is an ASSERT: the file would end
  // exactly at the last byte a file may have, or there is no free sector left.
  datatype WriteResult = TooBig | Panic | Written(count: nat)

  // A file that has just been written up to n blocks is whole again.
  lemma WriteEnds(v: Vol, v': Vol, sectors: seq<nat>, size: nat, n: nat, others: seq<bool>)
    requires Listed(v, sectors, n, others) && n == BlocksFor(size) && size < MAX_BLOCKS * BLOCK_SIZE
    requires Owns(v', sectors, n) && Lbas(v', sectors) == Lbas(v, sectors) && v'.used == v.used && v'.base == v.base
    ensures Mine(v', sectors, size, others) && sectors[0] != 0
  {
    OwnsIsHeld(v, sectors, n);
    SameBits(v, v', Lbas(v, sectors), sectors[DIRECT], n, others);
    assert Lba(v', sectors, 0) == sectors[0] != 0;
  }

  // A hole among the direct blocks is no file.
  lemma HoleIsNoFile(v: Vol, sectors: seq<nat>, size: nat, k: nat)
    requires IsSectors(sectors) && k < DIRECT && k < BlocksFor(size) && sectors[k] == 0 && sectors[0] != 0
    requires v.base > 0
    ensures !FileFits(v, sectors, size)
  {
    assert Lba(v, sectors, k) == 0;
  }

  // The first block of a file that has none.
  method FirstWrite(p: Partition, f: Inode, ghost others: seq<bool>) returns (ok: bool)
    requires VolFits(p.V()) && Mine(p.V(), f.sectors, f.size, others)
    modifies p`used, f`sectors
    ensures ok <==> old(f.sectors)[0] != 0 || CountClear(old(p.used)) >= 1
    ensures ok ==> VolFits(p.V()) && Listed(p.V(), f.sectors, BlocksFor(f.size), others)
    ensures ok ==> CountClear(p.used) == CountClear(old(p.used)) - (if old(f.sectors)[0] == 0 then 1 else 0)
    ensures ok ==> Contents(p.V(), f.sectors, f.size) == old(Contents(p.V(), f.sectors, f.size))
  {
    if f.sectors[0] == 0 {
      ghost var v := p.V();
      var lba := p.BlockBitmapAlloc();
      if lba.None? {
        return false;
      }
      FirstBlock(v, f.sectors, lba.value);
      f.sectors := f.sectors[0 := lba.value];
      assert lba.value - p.base != 0;
    }
    return true;
  }

  // file_write from line 375 on: the file has a block, and n1 blocks will do.
  method WriteBlocks(p: Partition, f: Inode, fd: FileDesc, buf: seq<Byte>, ghost others: seq<bool>) returns (ok: bool)
    requires VolFits(p.V()) && Listed(p.V(), f.sectors, BlocksFor(f.size), others)
    requires f.size + |buf| < MAX_BLOCKS * BLOCK_SIZE
    modifies p`used, p`disk, f, fd
    ensures ok <==> CountClear(old(p.used)) >= Needed(false, old(f.size), |buf|)
    ensures ok ==> CountClear(p.used) == CountClear(old(p.used)) - Needed(false, old(f.size), |buf|)
    ensures ok ==> fd.pos == Wrap(old(f.size) + |buf| - 1)
    ensures ok ==> f.size == old(f.size) + |buf| && VolFits(p.V()) && IsSectors(f.sectors) && f.sectors[0] != 0
    ensures ok ==> (FileFits(p.V(), f.sectors, f.size) <==> KeepsFile(old(f.size), |buf|))
    ensures ok && KeepsFile(old(f.size), |buf|) ==> Mine(p.V(), f.sectors, f.size, others)
    ensures ok && KeepsFile(old(f.size), |buf|) ==>
        Contents(p.V(), f.sectors, f.size) == old(Contents(p.V(), f.sectors, f.size)) + buf
  {
    var n0 := f.size / BLOCK_SIZE + 1;
    var n1 := (f.size + |buf|) / BLOCK_SIZE + 1;
    var all;
    ok, all := Prepare(p, f, n0, n1, others);
    if !ok {
      return;
    }
    PutBytes(p, f, fd, all, buf, others);
  }

  // file_write from line 496 on.
  method PutBytes(p: Partition, f: Inode, fd: FileDesc, all: seq<nat>, buf: seq<Byte>, ghost others: seq<bool>)
    requires VolFits(p.V()) && IsSectors(f.sectors) && |all| == MAX_BLOCKS && f.size + |buf| < MAX_BLOCKS * BLOCK_SIZE
    requires KeepsFile(f.size, |buf|) ==>
        && Listed(p.V(), f.sectors, BlocksFor(f.size + |buf|), others)
        && Ready(p.V(), f.sectors, Lbas(p.V(), f.sectors), BlocksFor(f.size + |buf|), all, BlocksFor(f.size) - 1)
    requires !KeepsFile(f.size, |buf|) ==> f.sectors[BlocksFor(f.size)] == 0 && f.sectors[0] != 0
    modifies p`disk, f`size, fd
    ensures fd.pos == Wrap(old(f.size) + |buf| - 1) && f.size == old(f.size) + |buf|
    ensures FileFits(p.V(), f.sectors, f.size) <==> KeepsFile(old(f.size), |buf|)
    ensures f.sectors[0] != 0
    ensures KeepsFile(old(f.size), |buf|) ==> Mine(p.V(), f.sectors, f.size, others)
    ensures KeepsFile(old(f.size), |buf|) ==>
        Contents(p.V(), f.sectors, f.size) == old(Contents(p.V(), f.sectors, f.size)) + buf
  {
    ghost var v, n := p.V(), BlocksFor(f.size + |buf|);
    ghost var sound := KeepsFile(f.size, |buf|);
    fd.pos := Wrap(f.size - 1);
    WriteData(p, f, all, buf, Lbas(v, f.sectors), n, sound);
    WriteVerdict(v, p.V(), f.sectors, old(f.size), |buf|, others);
    PosAfter(old(f.size), |buf|);
    fd.pos := Wrap(fd.pos + |buf|);
  }

  // fd_pos is i_size - 1 before the loop and goes up by each chunk.
  lemma PosAfter(size: nat, count: nat)
    ensures Wrap(Wrap(size - 1) + count) == Wrap(size + count - 1)
  {
    if size > 0 {
      assert (size - 1 + count) % 0x1_0000_0000 == ((size - 1) % 0x1_0000_0000 + count) % 0x1_0000_0000;
    }
  }

  lemma WriteVerdict(v: Vol, v': Vol, sectors: seq<nat>, size: nat, count: nat, others: seq<bool>)
    requires size + count < MAX_BLOCKS * BLOCK_SIZE && IsSectors(sectors) && v'.base > 0
    requires KeepsFile(size, count) ==>
        && Listed(v, sectors, BlocksFor(size + count), others) && Owns(v', sectors, BlocksFor(size + count))
        && Lbas(v', sectors) == Lbas(v, sectors) && v'.used == v.used && v'.base == v.base
    requires !KeepsFile(size, count) ==> sectors[BlocksFor(size)] == 0 && sectors[0] != 0
    ensures FileFits(v', sectors, size + count) <==> KeepsFile(size, count)
    ensures KeepsFile(size, count) ==> Mine(v', sectors, size + count, others)
    ensures sectors[0] != 0
  {
    if KeepsFile(size, count) {
      WriteEnds(v, v', sectors, size + count, BlocksFor(size + count), others);
    } else {
      HoleIsNoFile(v', sectors, size + count, BlocksFor(size));
    }
  }

  method FileWrite(p: Partition, f: Inode, fd: FileDesc, buf: seq<Byte>, ghost others: seq<bool>)
    returns (r: WriteResult)
    requires VolFits(p.V()) && Mine(p.V(), f.sectors, f.size, others)
    modifies p`used, p`disk, f, fd
    ensures r.TooBig? <==> old(f.size) + |buf| > MAX_BLOCKS * BLOCK_SIZE
    ensures r.TooBig? ==>
        p.V() == old(p.V()) && f.size == old(f.size) && f.sectors == old(f.sectors) && fd.pos == old(fd.pos)
    ensures r.Panic? <==>
        old(f.size) + |buf| == MAX_BLOCKS * BLOCK_SIZE ||
        (old(f.size) + |buf| < MAX_BLOCKS * BLOCK_SIZE
            && CountClear(old(p.used)) < Needed(old(f.sectors)[0] == 0, old(f.size), |buf|))
    ensures r.Written? ==>
      CountClear(p.used) == CountClear(old(p.used)) - Needed(old(f.sectors)[0] == 0, old(f.size), |buf|)
    ensures r.Written? ==> r.count == |buf| && fd.pos == Wrap(old(f.size) + |buf| - 1)
    ensures r.Written? ==> f.size == old(f.size) + |buf| && VolFits(p.V()) && IsSectors(f.sectors) && f.sectors[0] != 0
    ensures r.Written? ==> (FileFits(p.V(), f.sectors, f.size) <==> KeepsFile(old(f.size), |buf|))
    ensures r.Written? && KeepsFile(old(f.size), |buf|) ==> Mine(p.V(), f.sectors, f.size, others)
    ensures r.Written? && KeepsFile(old(f.size), |buf|) ==>
        Contents(p.V(), f.sectors, f.size) == old(Contents(p.V(), f.sectors, f.size)) + buf
  {
    if f.size + |buf| > MAX_BLOCKS * BLOCK_SIZE {
      return TooBig;
    }
    var ok := FirstWrite(p, f, others);
    if !ok || (f.size + |buf|) / BLOCK_SIZE + 1 > MAX_BLOCKS {
      return Panic;
    }
    ok := WriteBlocks(p, f, fd, buf, others);
    return if ok then Written(|buf|) else Panic;
  }

  // ---- file_read ----

  // Number of bytes a call reads.
  function Clip(size: nat, pos: nat, count: nat): nat
    requires pos <= size
  {
    if pos + count > size then size - pos else count
  }

  // The table of block sectors that file_read builds, by its branches.
  function ReadTable(v: Vol, sectors: seq<nat>, start: nat, end: nat): (all: seq<nat>)
    requires IsSectors(sectors)
    ensures |all| == MAX_BLOCKS
  {
    if start == end then
      if end < DIRECT then NoBlocks()[end := sectors[end]] else WithTable(NoBlocks(), At(v, sectors[DIRECT]))
    else if end <= DIRECT then Copied(sectors, start, end + 1)
    else if start < DIRECT then WithTable(Copied(sectors, start, DIRECT), At(v, sectors[DIRECT]))
    else NoBlocks()
  }

  // all_blocks_lba after sectors from..upTo have been copied into it.
  function Copied(sectors: seq<nat>, from: nat, upTo: nat): (all: seq<nat>)
    requires IsSectors(sectors) && upTo <= 13
    ensures |all| == MAX_BLOCKS
    ensures forall i :: 0 <= i < MAX_BLOCKS ==> all[i] == if from <= i < upTo then sectors[i] else 0
  {
    seq<nat>(MAX_BLOCKS, i requires 0 <= i < MAX_BLOCKS => if from <= i < upTo then sectors[i] else 0)
  }

  method BuildReadTable(p: Partition, f: Inode, start: nat, end: nat) returns (all: seq<nat>)
    requires IsSectors(f.sectors) && start <= end < MAX_BLOCKS
    ensures all == ReadTable(p.V(), f.sectors, start, end)
  {
    all := NoBlocks();
    if end - start == 0 {
      if end < DIRECT {
        all := all[end := f.sectors[end]];
      } else {
        var b := p.IdeRead(f.sectors[DIRECT]);
        all := WithTable(all, b);
      }
    } else if end <= DIRECT {
      all := CopySectors(f, start, end + 1);
    } else if start < DIRECT {
      all := CopySectors(f, start, DIRECT);
      var b := p.IdeRead(f.sectors[DIRECT]);
      all := WithTable(all, b);
    }
  }

  method CopySectors(f: Inode, from: nat, upTo: nat) returns (all: seq<nat>)
    requires IsSectors(f.sectors) && from <= upTo <= 13
    ensures all == Copied(f.sectors, from, upTo)
  {
    all := NoBlocks();
    var k := from;
    while k < upTo
      invariant from <= k <= upTo && all == Copied(f.sectors, from, k)
    {
      all := all[k := f.sectors[k]];
      k := k + 1;
    }
  }

  // What is read through a table of sectors.
  ghost function Through(v: Vol, all: seq<nat>, pos: nat, n: nat): (c: seq<Byte>)
    requires |all| == MAX_BLOCKS && pos + n <= MAX_BLOCKS * BLOCK_SIZE
    ensures |c| == n
  {
    seq(n, i requires 0 <= i < n => At(v, all[(pos + i) / BLOCK_SIZE])[(pos + i) % BLOCK_SIZE])
  }

  // The call touches block i.
  ghost predicate Touches(pos: nat, n: nat, i: nat) {
    n > 0 && pos / BLOCK_SIZE <= i <= (pos + n - 1) / BLOCK_SIZE
  }

  ghost predicate TableRight(v: Vol, sectors: seq<nat>, all: seq<nat>, pos: nat, n: nat)
    requires IsSectors(sectors) && |all| == MAX_BLOCKS
  {
    forall i: nat :: i < MAX_BLOCKS && Touches(pos, n, i) ==> all[i] == Lba(v, sectors, i)
  }

  // The ranges for which some branch of file_read fills the table.
  predicate Covered(pos: nat, n: nat) {
    var start, end := pos / BLOCK_SIZE, (pos + n) / BLOCK_SIZE;
    || start == end
    || end < DIRECT
    || (end == DIRECT && (pos + n) % BLOCK_SIZE == 0)
    || (start < DIRECT && end > DIRECT)
  }

  lemma ReadCovers(v: Vol, sectors: seq<nat>, pos: nat, n: nat)
    requires IsSectors(sectors) && Covered(pos, n) && pos + n < MAX_BLOCKS * BLOCK_SIZE
    requires sectors[DIRECT] != 0 || (pos + n) / BLOCK_SIZE < DIRECT || n == 0 || (pos + n) == DIRECT * BLOCK_SIZE
    ensures TableRight(v, sectors, ReadTable(v, sectors, pos / BLOCK_SIZE, (pos + n) / BLOCK_SIZE), pos, n)
  {
    var start, end := pos / BLOCK_SIZE, (pos + n) / BLOCK_SIZE;
    var all := ReadTable(v, sectors, start, end);
    forall i: nat | i < MAX_BLOCKS && Touches(pos, n, i)
      ensures all[i] == Lba(v, sectors, i)
    {
      assert i <= end;
      if end == DIRECT && (pos + n) % BLOCK_SIZE == 0 {
        assert i < DIRECT;
      }
    }
  }

  lemma ReadMisses(v: Vol, sectors: seq<nat>, size: nat, pos: nat, n: nat)
    requires FileFits(v, sectors, size) && !Covered(pos, n) && pos + n <= size && v.base > 0
    ensures !TableRight(v, sectors, ReadTable(v, sectors, pos / BLOCK_SIZE, (pos + n) / BLOCK_SIZE), pos, n)
  {
    var start, end := pos / BLOCK_SIZE, (pos + n) / BLOCK_SIZE;
    assert start < end <= size / BLOCK_SIZE && sectors[0] != 0;
    var all := ReadTable(v, sectors, start, end);
    if end == DIRECT {
      assert Touches(pos, n, DIRECT);
      assert Lba(v, sectors, DIRECT) != sectors[DIRECT] == all[DIRECT];
    } else {
      assert Touches(pos, n, start);
      assert Lba(v, sectors, start) != 0 == all[start];
    }
  }

  // file_read looks at the right sectors exactly for the covered ranges.
  lemma ReadIsRight(v: Vol, sectors: seq<nat>, size: nat, pos: nat, n: nat)
    requires FileFits(v, sectors, size) && pos + n <= size && v.base > 0
    ensures TableRight(v, sectors, ReadTable(v, sectors, pos / BLOCK_SIZE, (pos + n) / BLOCK_SIZE), pos, n) <==>
        Covered(pos, n)
  {
    if Covered(pos, n) {
      assert (pos + n) / BLOCK_SIZE <= size / BLOCK_SIZE;
      assert sectors[0] != 0 || n == 0;
      ReadCovers(v, sectors, pos, n);
    } else {
      ReadMisses(v, sectors, size, pos, n);
    }
  }

  // What is read through the right sectors is that part of the file.
  lemma RightIsContents(v: Vol, sectors: seq<nat>, all: seq<nat>, size: nat, pos: nat, n: nat)
    requires IsSectors(sectors) && |all| == MAX_BLOCKS && pos + n <= size < MAX_BLOCKS * BLOCK_SIZE
    requires TableRight(v, sectors, all, pos, n)
    ensures Through(v, all, pos, n) == Contents(v, sectors, size)[pos..pos + n]
  {
    forall i | 0 <= i < n
      ensures Through(v, all, pos, n)[i] == Contents(v, sectors, size)[pos + i]
    {
      assert Touches(pos, n, (pos + i) / BLOCK_SIZE);
    }
  }

  // What a call reads, for a table built by its branches.
  ghost function BytesRead(v: Vol, sectors: seq<nat>, pos: nat, n: nat): (c: seq<Byte>)
    requires IsSectors(sectors) && pos + n <= MAX_BLOCKS * BLOCK_SIZE
    ensures |c| == n
  {
    Through(v, ReadTable(v, sectors, pos / BLOCK_SIZE, (pos + n) / BLOCK_SIZE), pos, n)
  }

  lemma CoveredReads(v: Vol, sectors: seq<nat>, size: nat, pos: nat, n: nat)
    requires FileFits(v, sectors, size) && pos + n <= size && v.base > 0 && Covered(pos, n)
    ensures BytesRead(v, sectors, pos, n) == Contents(v, sectors, size)[pos..pos + n]
  {
    ReadIsRight(v, sectors, size, pos, n);
    RightIsContents(v, sectors, ReadTable(v, sectors, pos / BLOCK_SIZE, (pos + n) / BLOCK_SIZE), size, pos, n);
  }

  // AtEnd is the -1 at the end of the file; Stop is a failing ASSERT.
  datatype ReadResult = AtEnd | Stop | Got(bytes: seq<Byte>)

  const LAST: nat := 0xFFFF_FFFF    // fd_pos after nothing has been written to an empty file

  method FileRead(p: Partition, f: Inode, fd: FileDesc, count: nat) returns (r: ReadResult)
    requires VolFits(p.V()) && FileFits(p.V(), f.sectors, f.size) && (fd.pos <= f.size || fd.pos == LAST)
    requires count < 0x1_0000_0000 && (fd.pos <= f.size ==> fd.pos + count < 0x1_0000_0000)
    modifies fd
    ensures r.AtEnd? <==> old(fd.pos) == f.size && count > 0
    ensures r.Stop? <==> !r.AtEnd? && PastTheTable(f.size, old(fd.pos), count)
    ensures r.Got? ==> |r.bytes| == Clip(f.size, old(fd.pos), count) && fd.pos == old(fd.pos) + |r.bytes|
    ensures r.Got? ==> fd.pos <= f.size && |r.bytes| <= count && (|r.bytes| == count || fd.pos == f.size)
    ensures r.Got? ==> r.bytes == BytesRead(p.V(), f.sectors, old(fd.pos), |r.bytes|)
    ensures r.Got? && Covered(old(fd.pos), |r.bytes|) ==>
        r.bytes == Contents(p.V(), f.sectors, f.size)[old(fd.pos)..fd.pos]
    ensures !r.Got? ==> fd.pos == old(fd.pos)
  {
    var size := SizeToRead(f.size, fd.pos, count);
    if size.None? {
      return AtEnd;
    }
    PastTheTableIs(f.size, fd.pos, count, size.value);
    if fd.pos / BLOCK_SIZE >= 139 || Wrap(fd.pos + size.value) / BLOCK_SIZE >= 139 {
      return Stop;
    }
    var buf := ReadRange(p, f, fd, size.value);
    return Got(buf);
  }

  // The ASSERT that blocks 139 and later are not read.
  predicate PastTheTable(size: nat, pos: nat, count: nat) {
    pos > size || (pos + Clip(size, pos, count)) / BLOCK_SIZE >= MAX_BLOCKS - 1
  }

  lemma PastTheTableIs(size: nat, pos: nat, count: nat, n: nat)
    requires size < MAX_BLOCKS * BLOCK_SIZE && (pos <= size || pos == LAST)
    requires pos <= size ==> n == Clip(size, pos, count)
    ensures PastTheTable(size, pos, count) <==> pos / BLOCK_SIZE >= 139 || Wrap(pos + n) / BLOCK_SIZE >= 139
  {
  }

  // The first lines of file_read.
  method SizeToRead(fileSize: nat, pos: nat, count: nat) returns (size: Option<nat>)
    requires fileSize < MAX_BLOCKS * BLOCK_SIZE && (pos <= fileSize || pos == LAST)
    requires count < 0x1_0000_0000 && (pos <= fileSize ==> pos + count < 0x1_0000_0000)
    ensures size.None? <==> pos == fileSize && count > 0
    ensures size.Some? && pos <= fileSize ==> size.value == Clip(fileSize, pos, count)
  {
    if Wrap(pos + count) > fileSize {
      var left := Wrap(fileSize - pos);
      return if left == 0 then None else Some(left);
    }
    return Some(count);
  }

  lemma RangeFacts(v: Vol, sectors: seq<nat>, size: nat, pos: nat, n: nat)
    requires FileFits(v, sectors, size) && pos + n <= size && v.base > 0
    ensures (pos + n) / BLOCK_SIZE > DIRECT ==> sectors[DIRECT] != 0
    ensures Covered(pos, n) ==> BytesRead(v, sectors, pos, n) == Contents(v, sectors, size)[pos..pos + n]
  {
    if Covered(pos, n) {
      CoveredReads(v, sectors, size, pos, n);
    }
  }

  // file_read from line 590 on.
  method ReadRange(p: Partition, f: Inode, fd: FileDesc, size: nat) returns (buf: seq<Byte>)
    requires VolFits(p.V()) && FileFits(p.V(), f.sectors, f.size) && fd.pos + size <= f.size
    requires (fd.pos + size) / BLOCK_SIZE < MAX_BLOCKS - 1
    modifies fd
    ensures |buf| == size && fd.pos == old(fd.pos) + size
    ensures buf == BytesRead(p.V(), f.sectors, old(fd.pos), size)
    ensures Covered(old(fd.pos), size) ==> buf == Contents(p.V(), f.sectors, f.size)[old(fd.pos)..fd.pos]
  {
    var start := fd.pos / BLOCK_SIZE;
    var end := (fd.pos + size) / BLOCK_SIZE;
    RangeFacts(p.V(), f.sectors, f.size, fd.pos, size);
    assert end > DIRECT ==> f.sectors[DIRECT] != 0;    // the ASSERT of line 624
    var all := BuildReadTable(p, f, start, end);
    buf := ReadData(p, fd, all, size);
  }

  // The loop of file_read.
  method ReadData(p: Partition, fd: FileDesc, all: seq<nat>, size: nat) returns (buf: seq<Byte>)
    requires |all| == MAX_BLOCKS && fd.pos + size <= MAX_BLOCKS * BLOCK_SIZE
    modifies fd
    ensures fd.pos == old(fd.pos) + size
    ensures buf == Through(p.V(), all, old(fd.pos), size)
  {
    buf := [];
    while |buf| < size
      invariant |buf| <= size && fd.pos == old(fd.pos) + |buf|
      invariant buf == Through(p.V(), all, old(fd.pos), |buf|)
    {
      ThroughChunk(p.V(), all, old(fd.pos), |buf|, ChunkSize(fd.pos, size - |buf|));
      var chunk := ReadChunk(p, fd, all, size - |buf|);
      buf := buf + chunk;
    }
  }

  // What is left to read, or what is left of the sector.
  function ChunkSize(pos: nat, left: nat): (n: nat)
    ensures pos % BLOCK_SIZE + n <= BLOCK_SIZE && n <= left && (left > 0 ==> n > 0)
  {
    var secLeft := BLOCK_SIZE - pos % BLOCK_SIZE;
    if left < secLeft then left else secLeft
  }

  method ReadChunk(p: Partition, fd: FileDesc, all: seq<nat>, left: nat) returns (chunk: seq<Byte>)
    requires |all| == MAX_BLOCKS && fd.pos + left <= MAX_BLOCKS * BLOCK_SIZE && left > 0
    modifies fd
    ensures var n := ChunkSize(old(fd.pos), left); var off := old(fd.pos) % BLOCK_SIZE;
      fd.pos == old(fd.pos) + n && chunk == At(p.V(), all[old(fd.pos) / BLOCK_SIZE])[off..off + n]
  {
    var secIdx := fd.pos / BLOCK_SIZE;
    var off := fd.pos % BLOCK_SIZE;
    var chunkSize := ChunkSize(fd.pos, left);
    var ioBuf := p.IdeRead(all[secIdx]);
    chunk := ioBuf[off..off + chunkSize];
    fd.pos := fd.pos + chunkSize;
  }

  lemma ThroughChunk(v: Vol, all: seq<nat>, pos: nat, n: nat, chunk: nat)
    requires |all| == MAX_BLOCKS && pos + n + chunk <= MAX_BLOCKS * BLOCK_SIZE && pos + n < MAX_BLOCKS * BLOCK_SIZE
    requires (pos + n) % BLOCK_SIZE + chunk <= BLOCK_SIZE
    ensures var off := (pos + n) % BLOCK_SIZE;
      Through(v, all, pos, n + chunk) == Through(v, all, pos, n) + At(v, all[(pos + n) / BLOCK_SIZE])[off..off + chunk]
  {
    var off := (pos + n) % BLOCK_SIZE;
    var whole := Through(v, all, pos, n + chunk);
    var parts := Through(v, all, pos, n) + At(v, all[(pos + n) / BLOCK_SIZE])[off..off + chunk];
    forall i | 0 <= i < n + chunk
      ensures whole[i] == parts[i]
    {
      if i >= n {
        assert (pos + i) / BLOCK_SIZE == (pos + n) / BLOCK_SIZE && (pos + i) % BLOCK_SIZE == off + (i - n);
      }
    }
  }

  // ---- inode_release ----

  // The bits of the file that the first k blocks of the table account for are clear, the others as before.
  ghost predicate Cleared(used: seq<bool>, before: seq<bool>, base: nat, t: seq<nat>, k: nat, ind: nat)
    requires k <= |t|
  {
    && |used| == |before|
    && forall i: nat :: i < |used| ==> BitCleared(used, before, base, t, k, ind, i)
  }

  ghost predicate BitCleared(used: seq<bool>, before: seq<bool>, base: nat, t: seq<nat>, k: nat, ind: nat, i: nat)
    requires k <= |t| && i < |used| == |before|
  {
    used[i] <==> before[i] && !Among(t, k, base + i) && base + i != ind
  }

  method ClearBit(p: Partition, lba: nat)
    requires p.base < lba < p.base + |p.used|
    modifies p`used
    ensures p.used == old(p.used)[lba - p.base := false]
  {
    p.used := p.used[lba - p.base := false];
  }

  // Every sector the inode or its indirect block names is a data sector in use.
  ghost predicate Releasable(v: Vol, sectors: seq<nat>) {
    && IsSectors(sectors) && (sectors[DIRECT] != 0 ==> Allocated(v, sectors[DIRECT]))
    && forall i :: 0 <= i < MAX_BLOCKS && Lba(v, sectors, i) != 0 ==> Allocated(v, Lba(v, sectors, i))
  }

  // Exactly those sectors are free now.
  ghost predicate Released(v: Vol, sectors: seq<nat>, used: seq<bool>)
    requires IsSectors(sectors)
  {
    |used| == |v.used| && Cleared(used, v.used, v.base, Lbas(v, sectors), MAX_BLOCKS, sectors[DIRECT])
  }

  // Any inode, also one that a crossing call of file_write has left; for a whole file the bitmap is then
  // what it was without it.
  method InodeRelease(p: Partition, f: Inode, ghost others: seq<bool>)
    requires VolFits(p.V()) && Releasable(p.V(), f.sectors)
    modifies p`used
    ensures Released(old(p.V()), f.sectors, p.used)
    ensures old(Mine(p.V(), f.sectors, f.size, others)) ==> p.used == others
  {
    ghost var v := p.V();
    ghost var t := Lbas(v, f.sectors);
    var all := CopySectors(f, 0, DIRECT);
    var cnt := DIRECT;
    if f.sectors[DIRECT] != 0 {
      var b := p.IdeRead(f.sectors[DIRECT]);
      all := WithTable(all, b);
      cnt := MAX_BLOCKS;
      ClearBit(p, f.sectors[DIRECT]);
    }
    ClearBlocks(p, all, cnt, v, t, f.sectors[DIRECT]);
    ClearedAll(v, f.sectors, p.used, cnt);
    if Mine(v, f.sectors, f.size, others) {
      ReleaseEnds(v, f.sectors, f.size, others, p.used, cnt);
    }
  }

  lemma ClearedAll(v: Vol, sectors: seq<nat>, used: seq<bool>, cnt: nat)
    requires v.base > 0 && IsSectors(sectors) && cnt == (if sectors[DIRECT] == 0 then DIRECT else MAX_BLOCKS)
    requires Cleared(used, v.used, v.base, Lbas(v, sectors), cnt, sectors[DIRECT])
    ensures Released(v, sectors, used)
  {
    var t := Lbas(v, sectors);
    forall i: nat | i < |used|
      ensures BitCleared(used, v.used, v.base, t, MAX_BLOCKS, sectors[DIRECT], i)
    {
      assert BitCleared(used, v.used, v.base, t, cnt, sectors[DIRECT], i);
      assert Among(t, MAX_BLOCKS, v.base + i) <==> Among(t, cnt, v.base + i);
    }
  }

  lemma MineIsReleasable(v: Vol, sectors: seq<nat>, size: nat, others: seq<bool>)
    requires Mine(v, sectors, size, others)
    ensures Releasable(v, sectors)
  {
  }

  // The last loop of inode_release.
  method ClearBlocks(p: Partition, all: seq<nat>, cnt: nat, ghost v: Vol, ghost t: seq<nat>, ghost ind: nat)
    requires |all| == |t| == MAX_BLOCKS && cnt <= MAX_BLOCKS && p.base == v.base
    requires forall i :: 0 <= i < cnt ==> all[i] == t[i] && (t[i] != 0 ==> Allocated(v, t[i]))
    requires v.base > 0 && Cleared(p.used, v.used, p.base, t, 0, ind)
    modifies p`used
    ensures Cleared(p.used, v.used, p.base, t, cnt, ind)
  {
    var k := 0;
    while k < cnt
      invariant 0 <= k <= cnt && Cleared(p.used, v.used, p.base, t, k, ind)
    {
      ghost var used: seq<bool> := p.used;
      if all[k] != 0 {
        assert Allocated(v, t[k]);
        ClearBit(p, all[k]);
      }
      ClearedOneMore(used, v.used, p.base, t, k, ind, p.used);
      k := k + 1;
    }
  }

  lemma ClearedOneMore(used: seq<bool>, before: seq<bool>, base: nat, t: seq<nat>, k: nat, ind: nat, used': seq<bool>)
    requires k < |t| && base > 0 && Cleared(used, before, base, t, k, ind)
    requires if t[k] == 0 then used' == used else base <= t[k] < base + |used| && used' == used[t[k] - base := false]
    ensures Cleared(used', before, base, t, k + 1, ind)
  {
    var next := k + 1;
    forall i: nat | i < |used'|
      ensures BitCleared(used', before, base, t, next, ind, i)
    {
      assert BitCleared(used, before, base, t, k, ind, i);
      assert Among(t, next, base + i) <==> Among(t, k, base + i) || t[k] == base + i;
    }
  }

  lemma ReleaseEnds(v: Vol, sectors: seq<nat>, size: nat, others: seq<bool>, used: seq<bool>, cnt: nat)
    requires v.base > 0 && Mine(v, sectors, size, others)
    requires cnt == (if sectors[DIRECT] == 0 then DIRECT else MAX_BLOCKS)
    requires Cleared(used, v.used, v.base, Lbas(v, sectors), cnt, sectors[DIRECT])
    ensures used == others
  {
    var t := Lbas(v, sectors);
    if sectors[0] == 0 {
      forall i: nat | i < |used|
        ensures used[i] == others[i]
      {
        assert BitCleared(used, v.used, v.base, t, cnt, sectors[DIRECT], i);
        assert !Among(t, cnt, v.base + i);
      }
    } else {
      var n := BlocksFor(size);
      forall i: nat | i < |used|
        ensures used[i] == others[i]
      {
        assert BitCleared(used, v.used, v.base, t, cnt, sectors[DIRECT], i);
        assert BitAccounted(v, t, sectors[DIRECT], n, others, i);
        if Among(t, cnt, v.base + i) {
          var j :| 0 <= j < cnt && t[j] == v.base + i;
          assert j < n;
        }
        if Among(t, n, v.base + i) {
          assert n <= cnt;
        }
      }
    }
  }

  // ---- a file from its inode_init to its inode_release ----

  function Concat(bufs: seq<seq<Byte>>): seq<Byte> {
    if bufs == [] then [] else Concat(bufs[..|bufs| - 1]) + bufs[|bufs| - 1]
  }

  lemma ConcatNext(c: seq<Byte>, bufs: seq<seq<Byte>>, n: nat)
    requires n < |bufs|
    ensures c + Concat(bufs[..n + 1]) == c + Concat(bufs[..n]) + bufs[n]
  {
    assert bufs[..n + 1][..n] == bufs[..n];
  }

  // A call of file_write succeeds and keeps the file whole, with so many free sectors.
  predicate Works(empty: bool, size: nat, clear: nat, count: nat) {
    size + count < MAX_BLOCKS * BLOCK_SIZE && Needed(empty, size, count) <= clear && KeepsFile(size, count)
  }

  // So do all calls of a run.
  predicate RunWorks(empty: bool, size: nat, clear: nat, bufs: seq<seq<Byte>>)
    decreases |bufs|
  {
    bufs == [] ||
    (Works(empty, size, clear, |bufs[0]|) &&
     RunWorks(false, size + |bufs[0]|, clear - Needed(empty, size, |bufs[0]|), bufs[1..]))
  }

  lemma RunNext(empty: bool, size: nat, clear: nat, bufs: seq<seq<Byte>>, n: nat)
    requires n < |bufs|
    ensures RunWorks(empty, size, clear, bufs[n..]) <==>
      Works(empty, size, clear, |bufs[n]|) &&
      RunWorks(false, size + |bufs[n]|, clear - Needed(empty, size, |bufs[n]|), bufs[n + 1..])
  {
    assert bufs[n..][0] == bufs[n] && bufs[n..][1..] == bufs[n + 1..];
  }

  // A whole file with contents c.
  ghost predicate FileHolds(v: Vol, sectors: seq<nat>, size: nat, others: seq<bool>, c: seq<Byte>) {
    VolFits(v) && Mine(v, sectors, size, others) && Contents(v, sectors, size) == c
  }

  method KeepingWrite(p: Partition, f: Inode, fd: FileDesc, buf: seq<Byte>, ghost others: seq<bool>, ghost c: seq<Byte>)
    returns (kept: bool)
    requires FileHolds(p.V(), f.sectors, f.size, others, c)
    modifies p`used, p`disk, f, fd
    ensures kept <==> Works(old(f.sectors)[0] == 0, old(f.size), CountClear(old(p.used)), |buf|)
    ensures kept ==> f.size == old(f.size) + |buf| && IsSectors(f.sectors) && f.sectors[0] != 0
    ensures kept ==>
      CountClear(p.used) == CountClear(old(p.used)) - Needed(old(f.sectors)[0] == 0, old(f.size), |buf|)
    ensures kept ==> FileHolds(p.V(), f.sectors, f.size, others, c + buf)
  {
    var size := f.size;
    var r := FileWrite(p, f, fd, buf, others);
    kept := r.Written? && KeepsFile(size, |buf|);
  }

  // The file can take the calls from n on.
  ghost predicate CanTake(p: Partition, f: Inode, bufs: seq<seq<Byte>>, n: nat)
    requires n <= |bufs| && IsSectors(f.sectors)
    reads p, f
  {
    RunWorks(f.sectors[0] == 0, f.size, CountClear(p.used), bufs[n..])
  }

  // A run of calls of file_write, up to the first that fails or crosses block 12 the wrong way.
  method WriteRun(p: Partition, f: Inode, fd: FileDesc, bufs: seq<seq<Byte>>, ghost others: seq<bool>) returns (n: nat)
    requires VolFits(p.V()) && Mine(p.V(), f.sectors, f.size, others)
    modifies p`used, p`disk, f, fd
    ensures n <= |bufs|
    ensures n == |bufs| <==> RunWorks(old(f.sectors)[0] == 0, old(f.size), CountClear(old(p.used)), bufs)
    ensures n == |bufs| ==> VolFits(p.V()) && Mine(p.V(), f.sectors, f.size, others)
    ensures n == |bufs| ==>
      Contents(p.V(), f.sectors, f.size) == old(Contents(p.V(), f.sectors, f.size)) + Concat(bufs)
  {
    ghost var c: seq<Byte> := Contents(p.V(), f.sectors, f.size);
    ghost var works := CanTake(p, f, bufs, 0);
    assert bufs[0..] == bufs && c + Concat(bufs[..0]) == c;
    n := 0;
    while n < |bufs|
      invariant n <= |bufs| && FileHolds(p.V(), f.sectors, f.size, others, c + Concat(bufs[..n]))
      invariant works <==> CanTake(p, f, bufs, n)
    {
      var kept := WriteNext(p, f, fd, bufs, n, others, c);
      if !kept {
        return;
      }
      n := n + 1;
    }
    assert bufs[..n] == bufs;
  }

  method WriteNext(p: Partition, f: Inode, fd: FileDesc, bufs: seq<seq<Byte>>, n: nat, ghost others: seq<bool>,
      ghost c: seq<Byte>) returns (kept: bool)
    requires n < |bufs| && FileHolds(p.V(), f.sectors, f.size, others, c + Concat(bufs[..n]))
    modifies p`used, p`disk, f, fd
    ensures kept ==> FileHolds(p.V(), f.sectors, f.size, others, c + Concat(bufs[..n + 1]))
    ensures kept && CanTake(p, f, bufs, n + 1) <==> old(CanTake(p, f, bufs, n))
  {
    RunNext(f.sectors[0] == 0, f.size, CountClear(p.used), bufs, n);
    ConcatNext(c, bufs, n);
    kept := KeepingWrite(p, f, fd, bufs[n], others, c + Concat(bufs[..n]));
  }

  // Whatever has been written to a new file, releasing it gives back exactly the sectors it took.
  method WriteRunThenRelease(p: Partition, bufs: seq<seq<Byte>>) returns (done: bool)
    requires VolFits(p.V())
    modifies p`used, p`disk
    ensures done <==> RunWorks(true, 0, CountClear(old(p.used)), bufs)
    ensures done ==> p.used == old(p.used)
  {
    var f := new Inode();
    var fd := new FileDesc();
    ghost var others := p.used;
    var n := WriteRun(p, f, fd, bufs, others);
    if n == |bufs| {
      MineIsReleasable(p.V(), f.sectors, f.size, others);
      InodeRelease(p, f, others);
    }
    done := n == |bufs|;
  }

  // What file_write has appended, file_read gives back from there on.
  method WriteThenRead(p: Partition, f: Inode, fd: FileDesc, buf: seq<Byte>, ghost others: seq<bool>)
    returns (bytes: seq<Byte>)
    requires VolFits(p.V()) && Mine(p.V(), f.sectors, f.size, others) && buf != []
    requires Works(f.sectors[0] == 0, f.size, CountClear(p.used), |buf|)
    requires (f.size + |buf|) / BLOCK_SIZE < MAX_BLOCKS - 1 && Covered(f.size, |buf|)
    modifies p`used, p`disk, f, fd
    ensures bytes == buf && fd.pos == f.size == old(f.size) + |buf|
  {
    var start := f.size;
    ghost var c := Contents(p.V(), f.sectors, f.size);
    var r := FileWrite(p, f, fd, buf, others);
    assert r.Written?;
    fd.pos := start;    // sys_lseek
    var got := FileRead(p, f, fd, |buf|);
    assert Contents(p.V(), f.sectors, f.size)[start..start + |buf|] == buf;
    bytes := got.bytes;
  }

  // ---- where the code falls short, at an input ----

  // A first call that writes 12 blocks of bytes to a new file ends past block 12: it succeeds, and what
  // it leaves is no file. The second block is missing.
  method HoleAfterFirstWrite(p: Partition, buf: seq<Byte>) returns (f: Inode)
    requires VolFits(p.V()) && |buf| == DIRECT * BLOCK_SIZE && CountClear(p.used) >= 14
    modifies p`used, p`disk
    ensures f.size == |buf| && !FileFits(p.V(), f.sectors, f.size)
  {
    f := new Inode();
    var fd := new FileDesc();
    var r := FileWrite(p, f, fd, buf, p.used);
    assert r.Written?;
  }

  // Of a file with 13 blocks and more, the whole first block behind the direct ones is not covered: for
  // all of it the call reads sector 0, which is not the file's.
  lemma BehindTheDirectBlocks(v: Vol, sectors: seq<nat>, size: nat)
    requires FileFits(v, sectors, size) && size >= (DIRECT + 1) * BLOCK_SIZE && v.base > 0
    ensures !Covered(DIRECT * BLOCK_SIZE, BLOCK_SIZE)
    ensures BytesRead(v, sectors, DIRECT * BLOCK_SIZE, BLOCK_SIZE) == At(v, 0) && Lba(v, sectors, DIRECT) != 0
  {
    var pos := DIRECT * BLOCK_SIZE;
    assert pos / BLOCK_SIZE == DIRECT && (pos + BLOCK_SIZE) / BLOCK_SIZE == DIRECT + 1;
    forall i | 0 <= i < BLOCK_SIZE
      ensures BytesRead(v, sectors, pos, BLOCK_SIZE)[i] == At(v, 0)[i]
    {
      assert (pos + i) / BLOCK_SIZE == DIRECT && (pos + i) % BLOCK_SIZE == i;
    }
  }

  // Such a file: 11 blocks of bytes and then 2 blocks of bytes written to a new one.
  method MissedRead(p: Partition, first: seq<Byte>, second: seq<Byte>) returns (bytes: seq<Byte>)
    requires VolFits(p.V()) && CountClear(p.used) >= 15
    requires |first| == 11 * BLOCK_SIZE && |second| == 2 * BLOCK_SIZE
    modifies p`used, p`disk
    ensures bytes == At(p.V(), 0)
  {
    var f := new Inode();
    var fd := new FileDesc();
    var r := FileWrite(p, f, fd, first, p.used);
    assert r.Written?;
    ghost var others := old(p.used);
    r := FileWrite(p, f, fd, second, others);
    assert r.Written?;
    fd.pos := DIRECT * BLOCK_SIZE;    // sys_lseek
    BehindTheDirectBlocks(p.V(), f.sectors, f.size);
    var got := FileRead(p, f, fd, BLOCK_SIZE);
    bytes := got.bytes;
  }
}
