// kernel/memory.c: page frames, virtual pages and two-level page tables, below the arenas.
module Paging {
  import opened Options
  import opened Bits

  // A word of physical memory as the processor reads a page table entry: the top 20 bits, bit 0 and
  // bits 1 to 11. Any 32-bit word is one.
  datatype Word = Word(frame: nat, present: bool, rest: nat)

  const NONE := Word(0, false, 0)

  type Page = seq<Word>

  function ZeroPage(): (p: Page)
    ensures |p| == 1024 && forall i :: 0 <= i < 1024 ==> p[i] == NONE
  {
    seq<Word>(1024, i => NONE)
  }

  // Physical memory by frame number, the current page directory, and the bitmaps of the two pools.
  datatype Space = Space(mem: map<nat, Page>, dir: nat, kpool: seq<bool>, upool: seq<bool>)

  // Which half of the address space is meant, and the first frames of the two pools.
  datatype Area = Area(user: bool, kstart: nat, ustart: nat) {
    // The directory entries of this half; the last one is the self-map.
    function Lo(): nat {
      if user then 0 else 768
    }

    function Hi(): nat {
      if user then 768 else 1023
    }

    // The first page that the virtual bitmap stands for: USER_VADDR_START or K_HEAP_START.
    function First(): nat {
      if user then 0x8048 else 0xC0100
    }
  }

  function At(s: Space, f: nat): (p: Page)
    ensures |p| == 1024
  {
    if f in s.mem && |s.mem[f]| == 1024 then s.mem[f] else ZeroPage()
  }

  // ---- the two pools ----

  predicate InUser(s: Space, a: Area, f: nat) {
    a.ustart <= f < a.ustart + |s.upool|
  }

  predicate InKernel(s: Space, a: Area, f: nat) {
    a.kstart <= f < a.kstart + |s.kpool| && f < a.ustart
  }

  predicate Used(s: Space, a: Area, f: nat) {
    (InUser(s, a, f) && s.upool[f - a.ustart]) || (InKernel(s, a, f) && s.kpool[f - a.kstart])
  }

  predicate Free(s: Space, a: Area, f: nat) {
    (InUser(s, a, f) && !s.upool[f - a.ustart]) || (InKernel(s, a, f) && !s.kpool[f - a.kstart])
  }

  // pfree, and the bitmap_set of palloc: the pool is told by the address.
  function SetUsed(s: Space, a: Area, f: nat, b: bool): Space
    requires InUser(s, a, f) || InKernel(s, a, f)
  {
    if a.ustart <= f then s.(upool := s.upool[f - a.ustart := b]) else s.(kpool := s.kpool[f - a.kstart := b])
  }

  lemma SetUsedIs(s: Space, a: Area, f: nat, b: bool, g: nat)
    requires InUser(s, a, f) || InKernel(s, a, f)
    ensures var s' := SetUsed(s, a, f, b);
      && (Used(s', a, g) <==> if g == f then b else Used(s, a, g))
      && (Free(s', a, g) <==> if g == f then !b else Free(s, a, g))
  {
  }

  // ---- page tables ----

  function PdIdx(vp: nat): nat {
    vp / 1024
  }

  function PtIdx(vp: nat): (i: nat)
    ensures i < 1024
  {
    vp % 1024
  }

  predicate Covers(a: Area, vp: nat) {
    a.Lo() <= PdIdx(vp) < a.Hi()
  }

  // *pde_addr(vp).
  function Pde(s: Space, d: nat): Word
    requires d < 1024
  {
    At(s, s.dir)[d]
  }

  predicate HasTable(s: Space, a: Area, vp: nat)
    requires Covers(a, vp)
  {
    Pde(s, PdIdx(vp)).present
  }

  // *pte_addr(vp), where there is one.
  function Entry(s: Space, a: Area, vp: nat): Word
    requires Covers(a, vp)
  {
    if HasTable(s, a, vp) then At(s, Pde(s, PdIdx(vp)).frame)[PtIdx(vp)] else NONE
  }

  // Different directory entries of the half name different tables, and none names the directory.
  ghost predicate TablesOk(s: Space, a: Area) {
    && (forall d :: a.Lo() <= d < a.Hi() && Pde(s, d).present ==> Pde(s, d).frame != s.dir)
    && (forall d, e :: a.Lo() <= d < e < a.Hi() && Pde(s, d).present && Pde(s, e).present ==>
        Pde(s, d).frame != Pde(s, e).frame)
  }

  ghost predicate IsTable(s: Space, a: Area, f: nat) {
    exists d :: a.Lo() <= d < a.Hi() && Pde(s, d).present && Pde(s, d).frame == f
  }

  // *pte_addr(vp) = w
  function PutEntry(s: Space, a: Area, vp: nat, w: Word): Space
    requires Covers(a, vp)
  {
    var table := Pde(s, PdIdx(vp)).frame;
    s.(mem := s.mem[table := At(s, table)[PtIdx(vp) := w]])
  }

  // *pde_addr(vp) = table, and the table is zeroed through the self-map.
  function PutTable(s: Space, a: Area, vp: nat, table: nat): Space
    requires Covers(a, vp)
  {
    s.(mem := s.mem[s.dir := At(s, s.dir)[PdIdx(vp) := Word(table, true, 3)]][table := ZeroPage()])
  }

  // The page tables seen as one map from pages to entries, the directory being what it was.
  ghost predicate SameTables(s: Space, s': Space, a: Area) {
    s'.dir == s.dir && forall d :: a.Lo() <= d < a.Hi() ==> Pde(s', d) == Pde(s, d)
  }

  lemma PutEntryIs(s: Space, a: Area, vp: nat, w: Word, x: nat)
    requires Covers(a, vp) && TablesOk(s, a) && HasTable(s, a, vp) && Covers(a, x)
    ensures Entry(PutEntry(s, a, vp, w), a, x) == if x == vp then w else Entry(s, a, x)
  {
  }

  lemma PutTableKeepsTables(s: Space, a: Area, vp: nat, table: nat)
    requires Covers(a, vp) && TablesOk(s, a) && !HasTable(s, a, vp) && table != s.dir && !IsTable(s, a, table)
    ensures var s' := PutTable(s, a, vp, table);
      && TablesOk(s', a) && s'.dir == s.dir
      && (forall d :: a.Lo() <= d < a.Hi() ==> Pde(s', d) == if d == PdIdx(vp) then Word(table, true, 3) else Pde(s, d))
  {
    var s' := PutTable(s, a, vp, table);
    assert At(s', s'.dir) == At(s, s.dir)[PdIdx(vp) := Word(table, true, 3)];
    assert forall d :: a.Lo() <= d < a.Hi() ==>
        Pde(s', d) == if d == PdIdx(vp) then Word(table, true, 3) else Pde(s, d);
    assert forall d :: a.Lo() <= d < a.Hi() && Pde(s, d).present ==> Pde(s, d).frame != table;
    forall d | a.Lo() <= d < a.Hi() && Pde(s', d).present
      ensures Pde(s', d).frame != s'.dir
    {
    }
    forall d, e | a.Lo() <= d < e < a.Hi() && Pde(s', d).present && Pde(s', e).present
      ensures Pde(s', d).frame != Pde(s', e).frame
    {
    }
  }

  lemma PutTableIs(s: Space, a: Area, vp: nat, table: nat, x: nat)
    requires Covers(a, vp) && TablesOk(s, a) && !HasTable(s, a, vp) && table != s.dir && !IsTable(s, a, table)
    requires Covers(a, x)
    ensures Entry(PutTable(s, a, vp, table), a, x) == Entry(s, a, x)
  {
    PutTableKeepsTables(s, a, vp, table);
    var d := PdIdx(x);
    if Pde(s, d).present {
      assert Pde(s, d).frame != table && Pde(s, d).frame != s.dir;
    }
  }

  lemma PutTableAddsOne(s: Space, a: Area, vp: nat, table: nat, f: nat)
    requires Covers(a, vp) && TablesOk(s, a) && !HasTable(s, a, vp) && table != s.dir && !IsTable(s, a, table)
    ensures IsTable(PutTable(s, a, vp, table), a, f) <==> IsTable(s, a, f) || f == table
  {
    var s' := PutTable(s, a, vp, table);
    PutTableKeepsTables(s, a, vp, table);
    assert Pde(s', PdIdx(vp)) == Word(table, true, 3);
    if IsTable(s, a, f) {
      var d :| a.Lo() <= d < a.Hi() && Pde(s, d).present && Pde(s, d).frame == f;
      assert Pde(s', d).frame == f;
    }
  }

  // ---- who owns which frame ----

  function Vp(a: Area, i: nat): nat {
    a.First() + i
  }

  // The n pages from the first on lie in this half.
  ghost predicate Fits(a: Area, n: nat) {
    forall i: nat :: i < n ==> Covers(a, Vp(a, i))
  }

  function EntryAt(s: Space, a: Area, i: nat): Word
    requires Covers(a, Vp(a, i))
  {
    Entry(s, a, Vp(a, i))
  }

  // Tables and the directory are in use and nobody else's. others are the frames of everybody else.
  ghost predicate TabInv(s: Space, a: Area, others: set<nat>) {
    && TablesOk(s, a) && !Free(s, a, s.dir) && s.dir !in others
    && (forall d :: a.Lo() <= d < a.Hi() && Pde(s, d).present ==>
        !Free(s, a, Pde(s, d).frame) && Pde(s, d).frame !in others)
    && (forall f :: f in others ==> !Free(s, a, f))
  }

  // A frame that malloc_page has given out.
  ghost predicate Given(s: Space, a: Area, others: set<nat>, f: nat) {
    Used(s, a, f) && RightPool(s, a, f) && f !in others && !IsTable(s, a, f) && f != s.dir
  }

  // m says which pages are mapped: to frames given out, each to its own.
  ghost predicate PageInv(s: Space, a: Area, m: seq<bool>, others: set<nat>) {
    && Fits(a, |m|)
    && (forall i: nat :: i < |m| ==> (EntryAt(s, a, i).present <==> m[i]))
    && (forall i: nat :: i < |m| && m[i] ==> Given(s, a, others, EntryAt(s, a, i).frame))
    && (forall i: nat, j: nat :: i < j < |m| && m[i] && m[j] ==> EntryAt(s, a, i).frame != EntryAt(s, a, j).frame)
  }

  ghost predicate Mapped(s: Space, a: Area, m: seq<bool>, f: nat)
    requires Fits(a, |m|)
  {
    exists i: nat :: i < |m| && m[i] && EntryAt(s, a, i).frame == f
  }

  // Every frame in use has one owner.
  ghost predicate ExactInv(s: Space, a: Area, m: seq<bool>, others: set<nat>)
    requires Fits(a, |m|)
  {
    forall f :: Used(s, a, f) ==> f in others || f == s.dir || IsTable(s, a, f) || Mapped(s, a, m, f)
  }

  ghost predicate Inv(s: Space, a: Area, m: seq<bool>, others: set<nat>) {
    TabInv(s, a, others) && PageInv(s, a, m, others) && ExactInv(s, a, m, others)
  }

  // ---- palloc and pfree ----

  // A bitmap bit changes no memory.
  lemma SameMemory(s: Space, a: Area, f: nat, b: bool)
    requires InUser(s, a, f) || InKernel(s, a, f)
    ensures var s' := SetUsed(s, a, f, b);
      && s'.dir == s.dir && s'.mem == s.mem
      && (forall d :: 0 <= d < 1024 ==> Pde(s', d) == Pde(s, d))
      && (forall x: nat :: Covers(a, x) ==> Entry(s', a, x) == Entry(s, a, x))
      && (forall g :: IsTable(s', a, g) <==> IsTable(s, a, g))
      && (forall g :: InUser(s', a, g) <==> InUser(s, a, g)) && (forall g :: InKernel(s', a, g) <==> InKernel(s, a, g))
  {
    var s' := SetUsed(s, a, f, b);
    assert forall g :: At(s', g) == At(s, g);
    assert forall d :: 0 <= d < 1024 ==> Pde(s', d) == Pde(s, d);
  }

  lemma SetUsedAll(s: Space, a: Area, f: nat, b: bool)
    requires InUser(s, a, f) || InKernel(s, a, f)
    ensures var s' := SetUsed(s, a, f, b);
      && (forall g :: Used(s', a, g) <==> if g == f then b else Used(s, a, g))
      && (forall g :: Free(s', a, g) <==> if g == f then !b else Free(s, a, g))
  {
    forall g
      ensures var s' := SetUsed(s, a, f, b);
        && (Used(s', a, g) <==> if g == f then b else Used(s, a, g))
        && (Free(s', a, g) <==> if g == f then !b else Free(s, a, g))
    {
      SetUsedIs(s, a, f, b, g);
    }
  }

  lemma TakeTabs(s: Space, a: Area, others: set<nat>, f: nat)
    requires TabInv(s, a, others) && Free(s, a, f)
    ensures TabInv(SetUsed(s, a, f, true), a, others + {f}) && f !in others && f != s.dir && !IsTable(s, a, f)
  {
    SameMemory(s, a, f, true);
    SetUsedAll(s, a, f, true);
  }

  lemma TakePages(s: Space, a: Area, m: seq<bool>, others: set<nat>, f: nat)
    requires PageInv(s, a, m, others) && Free(s, a, f)
    ensures PageInv(SetUsed(s, a, f, true), a, m, others + {f})
  {
    var s' := SetUsed(s, a, f, true);
    SameMemory(s, a, f, true);
    SetUsedAll(s, a, f, true);
    assert forall i: nat :: i < |m| ==> EntryAt(s', a, i) == EntryAt(s, a, i);
    forall i: nat | i < |m| && m[i]
      ensures Given(s', a, others + {f}, EntryAt(s', a, i).frame)
    {
      assert Given(s, a, others, EntryAt(s, a, i).frame);
    }
  }

  // Whoever owned a frame still owns it when a bit of a bitmap has changed.
  lemma OwnedStill(s: Space, a: Area, m: seq<bool>, f: nat, b: bool, g: nat)
    requires Fits(a, |m|) && (InUser(s, a, f) || InKernel(s, a, f))
    requires g == s.dir || IsTable(s, a, g) || Mapped(s, a, m, g)
    ensures var s' := SetUsed(s, a, f, b); g == s'.dir || IsTable(s', a, g) || Mapped(s', a, m, g)
  {
    SameMemory(s, a, f, b);
    if Mapped(s, a, m, g) {
      var i: nat :| i < |m| && m[i] && EntryAt(s, a, i).frame == g;
      assert EntryAt(SetUsed(s, a, f, b), a, i).frame == g;
    }
  }

  lemma BitExact(s: Space, a: Area, m: seq<bool>, others: set<nat>, others': set<nat>, f: nat, b: bool)
    requires Fits(a, |m|) && ExactInv(s, a, m, others) && (InUser(s, a, f) || InKernel(s, a, f))
    requires others + {f} == others' + {f} && (b ==> f in others')
    ensures ExactInv(SetUsed(s, a, f, b), a, m, others')
  {
    var s' := SetUsed(s, a, f, b);
    SetUsedAll(s, a, f, b);
    forall g | Used(s', a, g)
      ensures g in others' || g == s'.dir || IsTable(s', a, g) || Mapped(s', a, m, g)
    {
      if g !in others' {
        assert g != f && Used(s, a, g) && g !in others;
        OwnedStill(s, a, m, f, b, g);
      }
    }
  }

  lemma TakeKeeps(s: Space, a: Area, m: seq<bool>, others: set<nat>, f: nat)
    requires Inv(s, a, m, others) && Free(s, a, f)
    ensures Inv(SetUsed(s, a, f, true), a, m, others + {f}) && f !in others
    ensures f != s.dir && !IsTable(s, a, f)
  {
    TakeTabs(s, a, others, f);
    TakePages(s, a, m, others, f);
    BitExact(s, a, m, others, others + {f}, f, true);
  }

  lemma GivePages(s: Space, a: Area, m: seq<bool>, others: set<nat>, f: nat)
    requires PageInv(s, a, m, others + {f}) && (InUser(s, a, f) || InKernel(s, a, f))
    ensures PageInv(SetUsed(s, a, f, false), a, m, others)
  {
    var s' := SetUsed(s, a, f, false);
    SameMemory(s, a, f, false);
    SetUsedAll(s, a, f, false);
    assert forall i: nat :: i < |m| ==> EntryAt(s', a, i) == EntryAt(s, a, i);
    forall i: nat | i < |m| && m[i]
      ensures Given(s', a, others, EntryAt(s', a, i).frame)
    {
      assert Given(s, a, others + {f}, EntryAt(s, a, i).frame);
    }
  }

  lemma GiveKeeps(s: Space, a: Area, m: seq<bool>, others: set<nat>, f: nat)
    requires Inv(s, a, m, others + {f}) && f !in others && (InUser(s, a, f) || InKernel(s, a, f))
    ensures Inv(SetUsed(s, a, f, false), a, m, others)
  {
    SameMemory(s, a, f, false);
    SetUsedAll(s, a, f, false);
    GivePages(s, a, m, others, f);
    BitExact(s, a, m, others + {f}, others, f, false);
  }

  // ---- page_table_add and page_table_pte_remove ----

  lemma SamePools(s: Space, s': Space, a: Area)
    requires s'.kpool == s.kpool && s'.upool == s.upool
    ensures forall f :: Used(s', a, f) <==> Used(s, a, f)
    ensures forall f :: Free(s', a, f) <==> Free(s, a, f)
  {
  }

  lemma TableKeeps(s: Space, a: Area, m: seq<bool>, others: set<nat>, vp: nat, table: nat)
    requires Inv(s, a, m, others + {table}) && table !in others
    requires Covers(a, vp) && !HasTable(s, a, vp)
    ensures Inv(PutTable(s, a, vp, table), a, m, others)
  {
    var s' := PutTable(s, a, vp, table);
    PutTableKeepsTables(s, a, vp, table);
    SamePools(s, s', a);
    forall x: nat | Covers(a, x)
      ensures Entry(s', a, x) == Entry(s, a, x)
    {
      PutTableIs(s, a, vp, table, x);
    }
    forall f
      ensures IsTable(s', a, f) <==> IsTable(s, a, f) || f == table
    {
      PutTableAddsOne(s, a, vp, table, f);
    }
    assert forall i: nat :: i < |m| ==> EntryAt(s', a, i) == EntryAt(s, a, i);
    forall g | Used(s', a, g)
      ensures g in others || g == s'.dir || IsTable(s', a, g) || Mapped(s', a, m, g)
    {
      if Mapped(s, a, m, g) {
        var i: nat :| i < |m| && m[i] && EntryAt(s, a, i).frame == g;
        assert EntryAt(s', a, i).frame == g;
      }
    }
  }

  // Same pools, same tables; and entry i is the only one that differs.
  ghost predicate OneEntry(s: Space, s': Space, a: Area, n: nat, i: nat, w: Word) {
    && s'.dir == s.dir && s'.kpool == s.kpool && s'.upool == s.upool && SameTables(s, s', a) && TablesOk(s', a)
    && (forall f :: IsTable(s', a, f) <==> IsTable(s, a, f))
    && Fits(a, n) && forall j: nat :: j < n ==> EntryAt(s', a, j) == if j == i then w else EntryAt(s, a, j)
  }

  lemma PutIsOneEntry(s: Space, a: Area, n: nat, i: nat, w: Word)
    requires TablesOk(s, a) && Fits(a, n) && Covers(a, Vp(a, i)) && HasTable(s, a, Vp(a, i))
    ensures OneEntry(s, PutEntry(s, a, Vp(a, i), w), a, n, i, w)
  {
    var s' := PutEntry(s, a, Vp(a, i), w);
    forall j: nat | j < n
      ensures EntryAt(s', a, j) == if j == i then w else EntryAt(s, a, j)
    {
      PutEntryIs(s, a, Vp(a, i), w, Vp(a, j));
    }
  }

  lemma OneEntryTabs(s: Space, s': Space, a: Area, n: nat, i: nat, w: Word, others: set<nat>)
    requires OneEntry(s, s', a, n, i, w) && TabInv(s, a, others)
    ensures TabInv(s', a, others)
  {
  }

  predicate RightPool(s: Space, a: Area, f: nat) {
    if a.user then InUser(s, a, f) else InKernel(s, a, f)
  }

  lemma MapPages(s: Space, s': Space, a: Area, m: seq<bool>, others: set<nat>, i: nat, f: nat)
    requires PageInv(s, a, m, others + {f}) && f !in others && i < |m| && !m[i]
    requires Used(s, a, f) && RightPool(s, a, f) && !IsTable(s, a, f) && f != s.dir
    requires OneEntry(s, s', a, |m|, i, Word(f, true, 3))
    ensures PageInv(s', a, m[i := true], others)
  {
    var m' := m[i := true];
    forall j: nat | j < |m'| && m'[j]
      ensures Given(s', a, others, EntryAt(s', a, j).frame) && (j != i ==> EntryAt(s', a, j).frame != f)
    {
      assert j != i ==> Given(s, a, others + {f}, EntryAt(s, a, j).frame);
    }
  }

  lemma MapExact(s: Space, s': Space, a: Area, m: seq<bool>, others: set<nat>, i: nat, f: nat)
    requires Fits(a, |m|) && ExactInv(s, a, m, others + {f}) && i < |m| && !m[i]
    requires OneEntry(s, s', a, |m|, i, Word(f, true, 3))
    ensures ExactInv(s', a, m[i := true], others)
  {
    var m' := m[i := true];
    assert m'[i] && EntryAt(s', a, i).frame == f;
    forall g | Used(s', a, g)
      ensures g in others || g == s'.dir || IsTable(s', a, g) || Mapped(s', a, m', g)
    {
      assert Used(s, a, g);
      if Mapped(s, a, m, g) {
        var j: nat :| j < |m| && m[j] && EntryAt(s, a, j).frame == g;
        assert EntryAt(s', a, j).frame == g && m'[j];
      }
    }
  }

  // The page of index i gets a frame that palloc has just marked.
  lemma MapKeeps(s: Space, a: Area, m: seq<bool>, others: set<nat>, i: nat, f: nat)
    requires Inv(s, a, m, others + {f}) && f !in others && Used(s, a, f) && RightPool(s, a, f)
    requires i < |m| && !m[i] && Covers(a, Vp(a, i)) && HasTable(s, a, Vp(a, i))
    ensures Inv(PutEntry(s, a, Vp(a, i), Word(f, true, 3)), a, m[i := true], others)
  {
    var w := Word(f, true, 3);
    var s' := PutEntry(s, a, Vp(a, i), w);
    PutIsOneEntry(s, a, |m|, i, w);
    MapPages(s, s', a, m, others, i, f);
    MapExact(s, s', a, m, others, i, f);
    OneEntryTabs(s, s', a, |m|, i, w, others);
  }

  function Absent(w: Word): Word {
    Word(w.frame, false, w.rest)
  }

  lemma UnmapPages(s: Space, s': Space, a: Area, m: seq<bool>, others: set<nat>, i: nat)
    requires PageInv(s, a, m, others) && i < |m| && m[i]
    requires OneEntry(s, s', a, |m|, i, Absent(EntryAt(s, a, i)))
    ensures PageInv(s', a, m[i := false], others + {EntryAt(s, a, i).frame})
  {
    var m', f := m[i := false], EntryAt(s, a, i).frame;
    forall j: nat | j < |m'| && m'[j]
      ensures Given(s', a, others + {f}, EntryAt(s', a, j).frame)
    {
      assert Given(s, a, others, EntryAt(s, a, j).frame) && EntryAt(s, a, j).frame != f;
    }
  }

  // The page of index i loses its present bit, and nobody maps its frame any more.
  lemma UnmapKeeps(s: Space, a: Area, m: seq<bool>, others: set<nat>, i: nat)
    requires Inv(s, a, m, others) && i < |m| && m[i] && Covers(a, Vp(a, i))
    ensures HasTable(s, a, Vp(a, i)) && Given(s, a, others, EntryAt(s, a, i).frame)
    ensures Inv(PutEntry(s, a, Vp(a, i), Absent(EntryAt(s, a, i))), a, m[i := false], others + {EntryAt(s, a, i).frame})
  {
    var w, f := Absent(EntryAt(s, a, i)), EntryAt(s, a, i).frame;
    assert EntryAt(s, a, i).present && Given(s, a, others, f);
    var s' := PutEntry(s, a, Vp(a, i), w);
    PutIsOneEntry(s, a, |m|, i, w);
    UnmapPages(s, s', a, m, others, i);
    OneEntryTabs(s, s', a, |m|, i, w, others + {f});
  }

  // The page of index i unmapped and its frame back in its pool.
  function Unmapped(s: Space, a: Area, i: nat): Space
    requires Covers(a, Vp(a, i)) && (InUser(s, a, EntryAt(s, a, i).frame) || InKernel(s, a, EntryAt(s, a, i).frame))
  {
    SetUsed(PutEntry(s, a, Vp(a, i), Absent(EntryAt(s, a, i))), a, EntryAt(s, a, i).frame, false)
  }

  lemma UnmapEffect(s: Space, a: Area, m: seq<bool>, others: set<nat>, i: nat)
    requires Inv(s, a, m, others) && i < |m| && m[i] && Covers(a, Vp(a, i))
    ensures HasTable(s, a, Vp(a, i)) && Given(s, a, others, EntryAt(s, a, i).frame)
    ensures var s' := Unmapped(s, a, i);
      && Inv(s', a, m[i := false], others) && SameRanges(s, s') && LeavesAlone(s, s', a, others)
      && (forall j: nat :: j < |m| && j != i ==> EntryAt(s', a, j) == EntryAt(s, a, j))
      && Free(s', a, EntryAt(s, a, i).frame) && EntryAt(s', a, i) == EntryAt(s, a, i).(present := false)
  {
    var w, f := Absent(EntryAt(s, a, i)), EntryAt(s, a, i).frame;
    UnmapKeeps(s, a, m, others, i);
    PutIsOneEntry(s, a, |m|, i, w);
    var s1 := PutEntry(s, a, Vp(a, i), w);
    GiveKeeps(s1, a, m[i := false], others, f);
    SameMemory(s1, a, f, false);
    SetUsedIs(s1, a, f, false, f);
  }

  // ---- what a call leaves alone ----

  // Every frame that is neither the directory nor a page table of this half keeps its contents, and
  // tables stay where they are.
  ghost predicate LeavesAlone(s: Space, s': Space, a: Area, others: set<nat>) {
    && s'.dir == s.dir
    && (forall f :: f in others ==> At(s', f) == At(s, f))
    && (forall d :: a.Lo() <= d < a.Hi() && Pde(s, d).present ==> Pde(s', d) == Pde(s, d))
  }

  // The pages mapped before keep their frames and those their contents.
  ghost predicate PagesKept(s: Space, s': Space, a: Area, m: seq<bool>)
    requires Fits(a, |m|)
  {
    forall i: nat :: i < |m| && m[i] ==>
        EntryAt(s', a, i) == EntryAt(s, a, i) && At(s', EntryAt(s, a, i).frame) == At(s, EntryAt(s, a, i).frame)
  }

  lemma PutEntryPages(s: Space, a: Area, m: seq<bool>, others: set<nat>, i: nat, w: Word)
    requires TabInv(s, a, others) && PageInv(s, a, m, others) && i < |m| && !m[i] && Covers(a, Vp(a, i))
    requires HasTable(s, a, Vp(a, i))
    ensures PagesKept(s, PutEntry(s, a, Vp(a, i), w), a, m)
  {
    var s' := PutEntry(s, a, Vp(a, i), w);
    PutIsOneEntry(s, a, |m|, i, w);
    var table := Pde(s, PdIdx(Vp(a, i))).frame;
    assert IsTable(s, a, table);
    forall j: nat | j < |m| && m[j]
      ensures At(s', EntryAt(s, a, j).frame) == At(s, EntryAt(s, a, j).frame)
    {
      assert Given(s, a, others, EntryAt(s, a, j).frame);
    }
  }

  lemma PutTablePages(s: Space, a: Area, m: seq<bool>, others: set<nat>, vp: nat, table: nat)
    requires TabInv(s, a, others) && PageInv(s, a, m, others) && Covers(a, vp) && !HasTable(s, a, vp) && table in others
    ensures PagesKept(s, PutTable(s, a, vp, table), a, m)
  {
    var s' := PutTable(s, a, vp, table);
    forall j: nat | j < |m| && m[j]
      ensures EntryAt(s', a, j) == EntryAt(s, a, j) && At(s', EntryAt(s, a, j).frame) == At(s, EntryAt(s, a, j).frame)
    {
      PutTableIs(s, a, vp, table, Vp(a, j));
      assert Given(s, a, others, EntryAt(s, a, j).frame);
    }
  }

  // A call that starts with a bitmap bit leaves alone what the rest of it does.
  lemma BitLeaves(s: Space, s1: Space, s2: Space, a: Area, m: seq<bool>, others: set<nat>, f: nat, i: nat)
    requires (InUser(s, a, f) || InKernel(s, a, f)) && s1 == SetUsed(s, a, f, true) && Fits(a, |m|)
    requires LeavesAlone(s1, s2, a, others) && PagesKept(s1, s2, a, m)
    requires forall j: nat :: j < |m| && j != i ==> EntryAt(s2, a, j) == EntryAt(s1, a, j)
    ensures LeavesAlone(s, s2, a, others) && PagesKept(s, s2, a, m)
    ensures forall j: nat :: j < |m| && j != i ==> EntryAt(s2, a, j) == EntryAt(s, a, j)
  {
    SameMemory(s, a, f, true);
    assert forall g :: At(s1, g) == At(s, g);
    assert forall j: nat :: j < |m| ==> EntryAt(s1, a, j) == EntryAt(s, a, j);
  }

  // ---- how many frames a call needs ----

  // The directory entries that the pages of w still need a table for.
  ghost function NewTables(s: Space, a: Area, w: set<nat>): set<nat>
    requires forall i :: i in w ==> Covers(a, Vp(a, i))
  {
    set i | i in w && !HasTable(s, a, Vp(a, i)) :: PdIdx(Vp(a, i))
  }

  // The free frames suffice for the pages of w: one each, and one kernel frame for each new table.
  ghost predicate Enough(s: Space, a: Area, w: set<nat>)
    requires forall i :: i in w ==> Covers(a, Vp(a, i))
  {
    if a.user then |w| <= CountClear(s.upool) && |NewTables(s, a, w)| <= CountClear(s.kpool)
    else |w| + |NewTables(s, a, w)| <= CountClear(s.kpool)
  }

  function TableCost(s: Space, a: Area, vp: nat): nat
    requires Covers(a, vp)
  {
    if HasTable(s, a, vp) then 0 else 1
  }

  // From s to s' the page of index i got a table if it had none.
  ghost predicate TableAdded(s: Space, s': Space, a: Area, i: nat)
    requires Covers(a, Vp(a, i))
  {
    forall d :: a.Lo() <= d < a.Hi() ==> (Pde(s', d).present <==> Pde(s, d).present || d == PdIdx(Vp(a, i)))
  }

  // And a kernel frame for it was taken.
  ghost predicate TableTaken(s: Space, s': Space, a: Area, i: nat)
    requires Covers(a, Vp(a, i))
  {
    && TableAdded(s, s', a, i) && s'.upool == s.upool && |s'.kpool| == |s.kpool|
    && CountClear(s.kpool) == CountClear(s'.kpool) + TableCost(s, a, Vp(a, i))
  }

  // And so were the frames for the page and its table.
  ghost predicate Charged(s: Space, s': Space, a: Area, i: nat)
    requires Covers(a, Vp(a, i))
  {
    && TableAdded(s, s', a, i)
    && CountClear(s.upool) == CountClear(s'.upool) + (if a.user then 1 else 0)
    && CountClear(s.kpool) == CountClear(s'.kpool) + (if a.user then 0 else 1) + TableCost(s, a, Vp(a, i))
  }

  lemma EnoughForOne(s: Space, a: Area, i: nat)
    requires Covers(a, Vp(a, i))
    ensures |NewTables(s, a, {i})| == TableCost(s, a, Vp(a, i))
  {
    if HasTable(s, a, Vp(a, i)) {
      assert NewTables(s, a, {i}) == {};
    } else {
      assert NewTables(s, a, {i}) == {PdIdx(Vp(a, i))};
    }
  }

  lemma EnoughForAny(s: Space, a: Area, w: set<nat>, i: nat)
    requires (forall j :: j in w ==> Covers(a, Vp(a, j))) && i in w && Enough(s, a, w)
    ensures Enough(s, a, {i})
  {
    assert w == {i} + (w - {i});
    var x, y := NewTables(s, a, {i}), NewTables(s, a, w);
    assert x <= y;
    assert y == x + (y - x);
  }

  lemma NewTablesNext(s: Space, s': Space, a: Area, w: set<nat>, i: nat)
    requires (forall j :: j in w ==> Covers(a, Vp(a, j))) && i in w && TableAdded(s, s', a, i)
    ensures NewTables(s', a, w - {i}) == NewTables(s, a, w) - {PdIdx(Vp(a, i))}
    ensures PdIdx(Vp(a, i)) in NewTables(s, a, w) <==> !HasTable(s, a, Vp(a, i))
  {
    forall d
      ensures d in NewTables(s, a, w) - {PdIdx(Vp(a, i))} ==> d in NewTables(s', a, w - {i})
    {
      if d in NewTables(s, a, w) && d != PdIdx(Vp(a, i)) {
        var j :| j in w && !HasTable(s, a, Vp(a, j)) && PdIdx(Vp(a, j)) == d;
        assert j in w - {i} && !HasTable(s', a, Vp(a, j));
      }
    }
  }

  // What suffices for w suffices for the rest of it once one of its pages is mapped.
  lemma EnoughNext(s: Space, s': Space, a: Area, w: set<nat>, i: nat)
    requires (forall j :: j in w ==> Covers(a, Vp(a, j))) && i in w && Charged(s, s', a, i)
    ensures Enough(s, a, w) <==> Enough(s', a, w - {i})
  {
    NewTablesNext(s, s', a, w, i);
    assert w == (w - {i}) + {i};
    var x, d := NewTables(s, a, w), PdIdx(Vp(a, i));
    assert d in x ==> x == (x - {d}) + {d};
    assert d !in x ==> x == x - {d};
  }

  function Run(first: nat, cnt: nat): (w: set<nat>)
    ensures forall i: nat :: i in w <==> first <= i < first + cnt
    ensures |w| == cnt
    decreases cnt
  {
    if cnt == 0 then {} else {first} + Run(first + 1, cnt - 1)
  }

  // The frames suffice for a run of pages, and user space does not end before it.
  ghost predicate CanMap(s: Space, a: Area, b: seq<bool>, cnt: nat, first: nat)
    requires Fits(a, |b|)
  {
    && 0 < cnt < 3840 && FirstFit(b, cnt, Start(first)) && InSpace(a, first)
    && Enough(s, a, Run(first, cnt))
  }

  ghost predicate CanAllocate(s: Space, a: Area, b: seq<bool>, cnt: nat)
    requires Fits(a, |b|)
  {
    exists first: nat :: CanMap(s, a, b, cnt, first)
  }

  // No run of pages is clear, and none ends in the bit behind the bitmap.
  ghost predicate NoFit(b: seq<bool>, next: bool, cnt: nat) {
    0 < cnt < 3840 && !AllSet(b) && FirstFit(b + [next], cnt, NoRun)
  }

  // None is clear, but one ends in the bit behind the bitmap.
  ghost predicate FitsBehind(b: seq<bool>, next: bool, cnt: nat) {
    0 < cnt < 3840 && !AllSet(b) && RunsOffTheEnd(b + [next], cnt)
  }

  // The ASSERT of vaddr_get.
  predicate InSpace(a: Area, first: nat) {
    a.user ==> a.First() + first < 0xBFFFF
  }

  // ---- the memory manager ----

  datatype PageResult = Null | Panic | OffTheEnd | Pages(first: nat)

  class Pager {
    var mem: map<nat, Page>
    var dir: nat
    var kpool: seq<bool>
    var upool: seq<bool>
    var vbits: seq<bool>     // the virtual bitmap of the half in use
    const a: Area

    function S(): Space
      reads this
    {
      Space(mem, dir, kpool, upool)
    }

    // mem_pool_init: the kernel pool starts at 2 MB, and the user pool comes after it.
    ghost predicate PoolsApart()
      reads this
    {
      a.kstart == 0x200 && a.kstart + |kpool| <= a.ustart
    }

    constructor (mem: map<nat, Page>, dir: nat, kpool: seq<bool>, upool: seq<bool>, vbits: seq<bool>, a: Area)
      ensures S() == Space(mem, dir, kpool, upool) && this.vbits == vbits && this.a == a
    {
      this.mem, this.dir, this.kpool, this.upool, this.vbits, this.a := mem, dir, kpool, upool, vbits, a;
    }

    // palloc; None is the failing ASSERT of bitmap_scan, so its NULL never comes back.
    method Palloc(user: bool) returns (f: Option<nat>)
      requires PoolsApart()
      modifies `kpool, `upool
      ensures f.None? <==> CountClear(if user then old(upool) else old(kpool)) == 0
      ensures f.None? ==> S() == old(S())
      ensures f.Some? ==> Free(old(S()), a, f.value) && S() == SetUsed(old(S()), a, f.value, true) && PoolsApart()
      ensures f.Some? ==> if user then InUser(S(), a, f.value) else InKernel(S(), a, f.value)
      ensures f.Some? ==> forall g: nat :: g < f.value ==>
        !Free(old(S()), a, g) || (if user then InKernel(S(), a, g) else InUser(S(), a, g))
      ensures f.Some? ==> CountClear(upool) == CountClear(old(upool)) - (if user then 1 else 0)
      ensures f.Some? ==> CountClear(kpool) == CountClear(old(kpool)) - (if user then 0 else 1)
    {
      var pool := if user then upool else kpool;
      var i := FirstClear(pool);    // bitmap_scan
      if i == |pool| {
        NoneClear(pool);
        return None;
      }
      ClearOneLess(pool, i);
      if user {
        upool := upool[i := true];
        f := Some(a.ustart + i);
      } else {
        kpool := kpool[i := true];
        f := Some(a.kstart + i);
      }
    }

    // page_table_add for the page of index i; false is the ASSERT in the palloc of a page table.
    method PageTableAdd(i: nat, f: nat, ghost m: seq<bool>, ghost others: set<nat>) returns (ok: bool)
      requires PoolsApart() && Inv(S(), a, m, others + {f}) && f !in others
      requires Used(S(), a, f) && RightPool(S(), a, f) && i < |m| && !m[i]
      modifies `mem, `kpool, `upool
      ensures ok <==> TableCost(old(S()), a, Vp(a, i)) <= CountClear(old(kpool))
      ensures ok ==> Inv(S(), a, m[i := true], others) && PoolsApart() && EntryAt(S(), a, i) == Word(f, true, 3)
      ensures ok ==> LeavesAlone(old(S()), S(), a, others) && PagesKept(old(S()), S(), a, m)
      ensures ok ==> forall j: nat :: j < |m| && j != i ==> EntryAt(S(), a, j) == EntryAt(old(S()), a, j)
      ensures ok ==> TableTaken(old(S()), S(), a, i)
    {
      ok := EnsureTable(i, m, others + {f});
      if ok {
        ghost var s := S();
        assert !EntryAt(s, a, i).present;    // the ASSERT that the entry is not in use
        MapKeeps(s, a, m, others, i, f);
        PutIsOneEntry(s, a, |m|, i, Word(f, true, 3));
        PutEntryPages(s, a, m, others + {f}, i, Word(f, true, 3));
        mem := PutEntry(S(), a, Vp(a, i), Word(f, true, 3)).mem;
      }
    }

    // The page table of the page of index i, added to the directory when there is none.
    method EnsureTable(i: nat, ghost m: seq<bool>, ghost others: set<nat>) returns (ok: bool)
      requires PoolsApart() && Inv(S(), a, m, others) && i < |m|
      modifies `mem, `kpool, `upool
      ensures ok <==> TableCost(old(S()), a, Vp(a, i)) <= CountClear(old(kpool))
      ensures ok ==> Inv(S(), a, m, others) && HasTable(S(), a, Vp(a, i)) && PoolsApart()
      ensures ok ==> LeavesAlone(old(S()), S(), a, others) && PagesKept(old(S()), S(), a, m)
      ensures ok ==> forall j: nat :: j < |m| ==> EntryAt(S(), a, j) == EntryAt(old(S()), a, j)
      ensures ok ==> forall f :: Used(old(S()), a, f) ==> Used(S(), a, f)
      ensures ok ==> TableTaken(old(S()), S(), a, i)
    {
      if HasTable(S(), a, Vp(a, i)) {
        return true;
      }
      ghost var s := S();
      var table := Palloc(false);
      if table.None? {
        return false;
      }
      ghost var t, s1 := table.value, S();
      TableEnters(s, s1, a, m, others, i, t);
      mem := PutTable(S(), a, Vp(a, i), table.value).mem;
      return true;
    }

    // One page of the loop of malloc_page.
    method MapOne(i: nat, ghost m: seq<bool>, ghost others: set<nat>) returns (ok: bool)
      requires PoolsApart() && Inv(S(), a, m, others) && i < |m| && !m[i]
      modifies `mem, `kpool, `upool
      ensures ok <==> Enough(old(S()), a, {i})
      ensures ok ==> Inv(S(), a, m[i := true], others) && PoolsApart() && SameRanges(old(S()), S())
      ensures ok ==> LeavesAlone(old(S()), S(), a, others) && PagesKept(old(S()), S(), a, m)
      ensures ok ==> forall j: nat :: j < |m| && j != i ==> EntryAt(S(), a, j) == EntryAt(old(S()), a, j)
      ensures ok ==> Free(old(S()), a, EntryAt(S(), a, i).frame)
      ensures ok ==> Charged(old(S()), S(), a, i)
    {
      ghost var s := S();
      EnoughForOne(s, a, i);
      var f := Palloc(a.user);
      if f.None? {
        return false;
      }
      TakeKeeps(s, a, m, others, f.value);
      ghost var s1 := S();
      SetUsedIs(s, a, f.value, true, f.value);
      SameMemory(s, a, f.value, true);
      ok := PageTableAdd(i, f.value, m, others);
      if ok {
        BitLeaves(s, s1, S(), a, m, others, f.value, i);
      }
    }

    // vaddr_get: the run of bits is marked. next is the bit after the bitmap, which bitmap_scan also reads.
    method VaddrGet(cnt: nat, next: bool) returns (r: PageResult)
      requires cnt >= 1
      modifies `vbits
      ensures forall first: nat :: r == Pages(first) <==> FirstFit(old(vbits), cnt, Start(first)) && InSpace(a, first)
      ensures r.Null? <==> !AllSet(old(vbits)) && FirstFit(old(vbits) + [next], cnt, NoRun)
      ensures r.OffTheEnd? <==> !AllSet(old(vbits)) && RunsOffTheEnd(old(vbits) + [next], cnt)
      ensures r.Null? ==> vbits == old(vbits)
      ensures r.Pages? ==> r.first + cnt <= |old(vbits)| && vbits == Mark(old(vbits), r.first, cnt, true)
    {
      var scan := ScanOf(vbits, next, cnt);
      ScanMeans(vbits, next, cnt);
      match scan {
        case Full => return PageResult.Panic;
        case NoRun => return Null;
        case Start(first) =>
          if first + cnt > |vbits| {
            return OffTheEnd;
          }
          vbits := Mark(vbits, first, cnt, true);
          if !InSpace(a, first) {
            return PageResult.Panic;
          }
          return Pages(first);
      }
    }

    // malloc_page. Panic is a failing ASSERT: the count, a full bitmap or pool, or the end of user space.
    method MallocPage(cnt: nat, next: bool, ghost others: set<nat>) returns (r: PageResult)
      requires PoolsApart() && Inv(S(), a, vbits, others)
      modifies this
      ensures forall first: nat :: r == Pages(first) <==> CanMap(old(S()), a, old(vbits), cnt, first)
      ensures r.Null? <==> NoFit(old(vbits), next, cnt)
      ensures r.OffTheEnd? <==> FitsBehind(old(vbits), next, cnt)
      ensures r.Null? ==> vbits == old(vbits) && S() == old(S())
      ensures r.Pages? ==> r.first + cnt <= |old(vbits)| && vbits == Mark(old(vbits), r.first, cnt, true)
      ensures r.Pages? ==> Inv(S(), a, vbits, others) && PoolsApart()
      ensures r.Pages? ==> Grown(old(S()), S(), a, |vbits|, r.first, cnt, others)
    {
      if cnt == 0 || cnt >= 3840 {
        return PageResult.Panic;
      }
      ghost var m := vbits;
      r := VaddrGet(cnt, next);
      if !r.Pages? {
        return;
      }
      OneStart(m, cnt, r.first);
      var ok := MapRun(r.first, cnt, m, others);
      if !ok {
        return PageResult.Panic;
      }
    }

    // The page of index i, when w are the pages still to map.
    method MapFirst(i: nat, ghost w: set<nat>, ghost m: seq<bool>, ghost others: set<nat>) returns (ok: bool)
      requires PoolsApart() && Inv(S(), a, m, others) && i in w && !(i < |m| && m[i])
      requires Within(w, |m|)
      modifies `mem, `kpool, `upool
      ensures ok && Enough(S(), a, w - {i}) <==> Enough(old(S()), a, w)
      ensures ok ==> Inv(S(), a, m[i := true], others) && PoolsApart()
      ensures ok ==> LeavesAlone(old(S()), S(), a, others) && SameRanges(old(S()), S())
      ensures ok ==> forall j: nat :: j < |m| && j != i ==> EntryAt(S(), a, j) == EntryAt(old(S()), a, j)
    {
      ghost var s := S();
      ok := MapOne(i, m, others);
      FirstOfMany(s, S(), a, |m|, w, i, ok);
    }

    // The mapping of a run.
    method MapRun(first: nat, cnt: nat, ghost m: seq<bool>, ghost others: set<nat>) returns (ok: bool)
      requires PoolsApart() && Inv(S(), a, m, others) && ClearRun(m, first, cnt)
      modifies `mem, `kpool, `upool
      ensures ok <==> Enough(old(S()), a, Run(first, cnt))
      ensures ok ==> Inv(S(), a, Mark(m, first, cnt, true), others) && PoolsApart()
      ensures ok ==> Grown(old(S()), S(), a, |m|, first, cnt, others)
    {
      ghost var s0, w := S(), Run(first, cnt);
      ghost var b;
      ok, b := MapPages(first, cnt, m, s0, w, Enough(s0, a, w), others);
      if ok {
        NothingNeeded(S(), a, {});
        MarkedIsMark(b, m, first, cnt);
      }
    }

    // The loop of malloc_page.
    method MapPages(first: nat, cnt: nat, ghost m: seq<bool>, ghost s0: Space, ghost w0: set<nat>, ghost enough: bool,
        ghost others: set<nat>) returns (ok: bool, ghost b: seq<bool>)
      requires PoolsApart() && ClearRun(m, first, cnt) && IsRest(w0, first, cnt, 0)
      requires MappedUpTo(s0, S(), a, m, first, cnt, w0, enough, others)
      modifies `mem, `kpool, `upool
      ensures if ok then PoolsApart() && IsMarked(b, m, first, cnt)
        && MappedUpTo(s0, S(), a, b, first, cnt, {}, enough, others) else !enough
    {
      b := m;
      ghost var w := w0;
      var k := 0;
      while k < cnt
        invariant k <= cnt && PoolsApart() && MappedUpTo(s0, S(), a, b, first, cnt, w, enough, others)
        invariant IsMarked(b, m, first, k) && IsRest(w, first, cnt, k)
      {
        MarkedNext(b, w, m, first, cnt, k);
        ok := MapNext(first, k, cnt, b, s0, w, enough, others);
        if !ok {
          return;
        }
        w, b := w - {first + k}, b[first + k := true];
        k := k + 1;
      }
      RestIsEmpty(w, first, cnt);
      return true, b;
    }

    method MapNext(first: nat, k: nat, ghost cnt: nat, ghost b: seq<bool>, ghost s0: Space, ghost w: set<nat>,
        ghost enough: bool, ghost others: set<nat>) returns (ok: bool)
      requires k < cnt && first + cnt <= |b| && !b[first + k] && IsRest(w, first, cnt, k)
      requires PoolsApart() && MappedUpTo(s0, S(), a, b, first, cnt, w, enough, others)
      modifies `mem, `kpool, `upool
      ensures if ok then PoolsApart()
        && MappedUpTo(s0, S(), a, b[first + k := true], first, cnt, w - {first + k}, enough, others) else !enough
    {
      ghost var s := S();
      ok := MapFirst(first + k, w, b, others);
      if ok {
        GrownOne(s0, s, S(), a, |b|, first, cnt, others, first + k);
      }
    }

    // addr_v2p of the page of index i.
    method AddrV2P(i: nat) returns (f: nat)
      requires Covers(a, Vp(a, i))
      ensures HasTable(S(), a, Vp(a, i)) ==> f == EntryAt(S(), a, i).frame
    {
      f := At(S(), Pde(S(), PdIdx(Vp(a, i))).frame)[PtIdx(Vp(a, i))].frame;
    }

    // One page of the loops of mfree_page: pfree, and then page_table_pte_remove.
    method UnmapOne(i: nat, ghost m: seq<bool>, ghost others: set<nat>)
      requires PoolsApart() && Inv(S(), a, m, others) && i < |m| && m[i]
      modifies `mem, `kpool, `upool
      ensures Inv(S(), a, m[i := false], others) && PoolsApart() && SameRanges(old(S()), S())
      ensures LeavesAlone(old(S()), S(), a, others)
      ensures forall j: nat :: j < |m| && j != i ==> EntryAt(S(), a, j) == EntryAt(old(S()), a, j)
      ensures Free(S(), a, EntryAt(old(S()), a, i).frame)
      ensures EntryAt(S(), a, i) == EntryAt(old(S()), a, i).(present := false)
    {
      ghost var s := S();
      UnmapEffect(s, a, m, others, i);
      var f := AddrV2P(i);
      assert RightPool(S(), a, f);    // the ASSERTs on the pool
      var pools := SetUsed(S(), a, f, false);
      kpool, upool := pools.kpool, pools.upool;
      var tables := PutEntry(S(), a, Vp(a, i), Absent(EntryAt(S(), a, i)));
      mem := tables.mem;
      SameMemory(s, a, f, false);
      assert S() == Unmapped(s, a, i);
    }

    method MfreePage(first: nat, cnt: nat, ghost others: set<nat>) returns (ok: bool)
      requires PoolsApart() && Inv(S(), a, vbits, others) && first + cnt <= |vbits|
      requires forall j :: first <= j < first + cnt ==> vbits[j]
      modifies this
      ensures ok <==> cnt >= 1
      ensures ok ==> vbits == Mark(old(vbits), first, cnt, false) && Inv(S(), a, vbits, others) && PoolsApart()
      ensures ok ==> Grown(old(S()), S(), a, |vbits|, first, cnt, others)
    {
      if cnt < 1 {
        return false;
      }
      assert vbits[first] && Given(S(), a, others, EntryAt(S(), a, first).frame);
      var f := AddrV2P(first);
      assert f >= 0x102;    // the ASSERT that the frame is not the kernel's, its directory or its first table
      UnmapRun(first, cnt, vbits, others);
      vbits := Mark(vbits, first, cnt, false);    // vaddr_remove
      return true;
    }

    // The loops of mfree_page.
    method UnmapRun(first: nat, cnt: nat, ghost m: seq<bool>, ghost others: set<nat>)
      requires PoolsApart() && Inv(S(), a, m, others) && first + cnt <= |m|
      requires forall j :: first <= j < first + cnt ==> m[j]
      modifies `mem, `kpool, `upool
      ensures Inv(S(), a, Mark(m, first, cnt, false), others) && PoolsApart()
      ensures Grown(old(S()), S(), a, |m|, first, cnt, others)
    {
      ghost var s0 := S();
      var k := 0;
      while k < cnt
        invariant k <= cnt && PoolsApart() && Inv(S(), a, Mark(m, first, k, false), others)
        invariant Grown(s0, S(), a, |m|, first, cnt, others)
      {
        UnmapNext(first, k, cnt, m, s0, others);
        k := k + 1;
      }
    }

    method UnmapNext(first: nat, k: nat, ghost cnt: nat, ghost m: seq<bool>, ghost s0: Space, ghost others: set<nat>)
      requires k < cnt && first + cnt <= |m| && m[first + k]
      requires PoolsApart() && Inv(S(), a, Mark(m, first, k, false), others)
      requires Grown(s0, S(), a, |m|, first, cnt, others)
      modifies `mem, `kpool, `upool
      ensures Inv(S(), a, Mark(m, first, k + 1, false), others) && PoolsApart()
      ensures Grown(s0, S(), a, |m|, first, cnt, others)
    {
      ghost var s := S();
      UnmarkNext(m, first, k);
      UnmapOne(first + k, Mark(m, first, k, false), others);
      GrownOne(s0, s, S(), a, |m|, first, cnt, others, first + k);
    }
  }

  // A page table taken from the kernel pool and put into the directory.
  lemma TableEnters(s: Space, s1: Space, a: Area, m: seq<bool>, others: set<nat>, i: nat, t: nat)
    requires Inv(s, a, m, others) && i < |m| && Covers(a, Vp(a, i)) && !HasTable(s, a, Vp(a, i))
    requires Free(s, a, t) && s1 == SetUsed(s, a, t, true)
    ensures var s2 := PutTable(s1, a, Vp(a, i), t);
      && Inv(s2, a, m, others) && HasTable(s2, a, Vp(a, i)) && TableAdded(s, s2, a, i)
      && LeavesAlone(s, s2, a, others) && PagesKept(s, s2, a, m)
      && (forall j: nat :: j < |m| ==> EntryAt(s2, a, j) == EntryAt(s, a, j))
      && (forall f :: Used(s, a, f) ==> Used(s2, a, f))
  {
    TakeKeeps(s, a, m, others, t);
    SameMemory(s, a, t, true);
    SetUsedAll(s, a, t, true);
    TableKeeps(s1, a, m, others, Vp(a, i), t);
    PutTablePages(s1, a, m, others + {t}, Vp(a, i), t);
    PutTableKeepsTables(s1, a, Vp(a, i), t);
    forall j: nat | j < |m|
      ensures EntryAt(PutTable(s1, a, Vp(a, i), t), a, j) == EntryAt(s, a, j)
    {
      PutTableIs(s1, a, Vp(a, i), t, Vp(a, j));
    }
  }

  // w are indices of pages of the half.
  ghost predicate Within(w: set<nat>, n: nat) {
    forall i :: i in w ==> i < n
  }

  lemma NothingNeeded(s: Space, a: Area, w: set<nat>)
    requires w == {}
    ensures Enough(s, a, w)
  {
    assert NewTables(s, a, w) == {};
  }

  // One of the pages of w is mapped, or there was not enough for w.
  lemma FirstOfMany(s: Space, s': Space, a: Area, n: nat, w: set<nat>, i: nat, ok: bool)
    requires Within(w, n) && i in w && Fits(a, n)
    requires (ok <==> Enough(s, a, {i})) && (ok ==> Charged(s, s', a, i))
    ensures Enough(s, a, w) <==> ok && Enough(s', a, w - {i})
  {
    if Enough(s, a, w) {
      EnoughForAny(s, a, w, i);
    }
    if ok {
      EnoughNext(s, s', a, w, i);
    }
  }

  ghost predicate SameRanges(s: Space, s': Space) {
    |s'.kpool| == |s.kpool| && |s'.upool| == |s.upool|
  }

  // Entries outside the run are what they were.
  ghost predicate OutsideKept(s: Space, s': Space, a: Area, n: nat, first: nat, cnt: nat) {
    Fits(a, n) && forall j: nat :: j < n && !(first <= j < first + cnt) ==> EntryAt(s', a, j) == EntryAt(s, a, j)
  }

  // What a call on the run first..first+cnt may change at most.
  ghost predicate Grown(s: Space, s': Space, a: Area, n: nat, first: nat, cnt: nat, others: set<nat>) {
    LeavesAlone(s, s', a, others) && SameRanges(s, s') && OutsideKept(s, s', a, n, first, cnt)
  }

  // The pages of a run but for the first k.
  ghost predicate IsRest(w: set<nat>, first: nat, cnt: nat, k: nat) {
    forall i :: i in w <==> first + k <= i < first + cnt
  }

  // The state of a call of malloc_page that has mapped the pages that b marks, and has those of w before it.
  // enough says that there were frames for all.
  ghost predicate MappedUpTo(s0: Space, s: Space, a: Area, b: seq<bool>, first: nat, cnt: nat, w: set<nat>,
      enough: bool, others: set<nat>)
  {
    && Inv(s, a, b, others) && Grown(s0, s, a, |b|, first, cnt, others)
    && Within(w, |b|) && (enough <==> Enough(s, a, w))
  }

  lemma GrownOne(s: Space, s': Space, s'': Space, a: Area, n: nat, first: nat, cnt: nat, others: set<nat>, i: nat)
    requires Grown(s, s', a, n, first, cnt, others) && LeavesAlone(s', s'', a, others) && SameRanges(s', s'')
    requires first <= i < first + cnt && forall j: nat :: j < n && j != i ==> EntryAt(s'', a, j) == EntryAt(s', a, j)
    ensures Grown(s, s'', a, n, first, cnt, others)
  {
  }

  // b is m with the first k bits from first on set.
  ghost predicate IsMarked(b: seq<bool>, m: seq<bool>, first: nat, k: nat) {
    |b| == |m| && forall i :: 0 <= i < |b| ==> (b[i] <==> m[i] || first <= i < first + k)
  }

  lemma MarkedNext(b: seq<bool>, w: set<nat>, m: seq<bool>, first: nat, cnt: nat, k: nat)
    requires IsMarked(b, m, first, k) && IsRest(w, first, cnt, k) && k < cnt && ClearRun(m, first, cnt)
    ensures first + k < |b| && !b[first + k] && IsMarked(b[first + k := true], m, first, k + 1)
    ensures IsRest(w - {first + k}, first, cnt, k + 1)
  {
  }

  lemma RestIsEmpty(w: set<nat>, first: nat, cnt: nat)
    requires IsRest(w, first, cnt, cnt)
    ensures w == {}
  {
    assert forall i :: i in w ==> first + cnt <= i < first + cnt;
  }

  lemma MarkedIsMark(b: seq<bool>, m: seq<bool>, first: nat, k: nat)
    requires IsMarked(b, m, first, k) && first + k <= |m|
    ensures b == Mark(m, first, k, true)
  {
  }

  lemma UnmarkNext(b: seq<bool>, first: nat, k: nat)
    requires first + k < |b|
    ensures Mark(b, first, k, false)[first + k := false] == Mark(b, first, k + 1, false)
    ensures b[first + k] == Mark(b, first, k, false)[first + k]
  {
  }

  // ---- malloc_page and mfree_page undo each other ----

  ghost predicate SameEntries(s: Space, s': Space, a: Area, m: seq<bool>)
    requires Fits(a, |m|)
  {
    forall i: nat :: i < |m| && m[i] ==> EntryAt(s', a, i) == EntryAt(s, a, i)
  }

  // Two states in which the same pages are mapped to the same frames, and in between only tables were
  // added, have the same frames in use but for those tables.
  lemma SameUse(s: Space, s': Space, a: Area, m: seq<bool>, others: set<nat>, f: nat)
    requires Inv(s, a, m, others) && Inv(s', a, m, others)
    requires LeavesAlone(s, s', a, others) && SameRanges(s, s') && SameEntries(s, s', a, m)
    ensures Used(s', a, f) <==>
        Used(s, a, f) || (IsTable(s', a, f) && !IsTable(s, a, f) && (InUser(s, a, f) || InKernel(s, a, f)))
  {
    if Used(s, a, f) {
      UseStays(s, s', a, m, others, f);
    } else if Used(s', a, f) {
      UseIsOld(s, s', a, m, others, f);
    }
    if IsTable(s', a, f) {
      assert !Free(s', a, f);
    }
  }

  lemma UseStays(s: Space, s': Space, a: Area, m: seq<bool>, others: set<nat>, f: nat)
    requires Inv(s, a, m, others) && Inv(s', a, m, others) && Used(s, a, f)
    requires LeavesAlone(s, s', a, others) && SameRanges(s, s') && SameEntries(s, s', a, m)
    ensures !Free(s', a, f)
  {
    if IsTable(s, a, f) {
      assert !Free(s', a, f);
    } else if Mapped(s, a, m, f) {
      var i: nat :| i < |m| && m[i] && EntryAt(s, a, i).frame == f;
      assert Given(s', a, others, EntryAt(s', a, i).frame);
    }
  }

  lemma UseIsOld(s: Space, s': Space, a: Area, m: seq<bool>, others: set<nat>, f: nat)
    requires Inv(s, a, m, others) && Inv(s', a, m, others) && Used(s', a, f) && !Used(s, a, f)
    requires LeavesAlone(s, s', a, others) && SameRanges(s, s') && SameEntries(s, s', a, m)
    ensures IsTable(s', a, f)
    ensures !IsTable(s, a, f)
  {
    assert Free(s, a, f);
    forall i: nat | i < |m| && m[i]
      ensures EntryAt(s', a, i).frame != f
    {
      assert Given(s, a, others, EntryAt(s, a, i).frame);
    }
  }

  // A successful malloc_page and the mfree_page of its result: the bitmaps are what they were, but for
  // frames that now hold page tables, and so is the set of present entries.
  method MallocThenFree(p: Pager, cnt: nat, next: bool, ghost others: set<nat>) returns (done: bool)
    requires p.PoolsApart() && Inv(p.S(), p.a, p.vbits, others)
    modifies p
    ensures done <==> CanAllocate(old(p.S()), p.a, old(p.vbits), cnt)
    ensures done ==> p.vbits == old(p.vbits) && Inv(p.S(), p.a, p.vbits, others)
    ensures done ==> forall f ::
      Used(p.S(), p.a, f) <==> Used(old(p.S()), p.a, f) || NewTable(old(p.S()), p.S(), p.a, f)
    ensures done ==> forall i: nat :: i < |p.vbits| ==>
      (EntryAt(p.S(), p.a, i).present <==> EntryAt(old(p.S()), p.a, i).present)
  {
    ghost var s0, m := p.S(), p.vbits;
    var r := p.MallocPage(cnt, next, others);
    if !r.Pages? {
      assert forall first: nat :: r != Pages(first);
      return false;
    }
    ghost var s1 := p.S();
    assert CanMap(s0, p.a, m, cnt, r.first) && cnt >= 1 && ClearRun(m, r.first, cnt);
    done := p.MfreePage(r.first, cnt, others);
    assert p.vbits == m;
    BackAgain(s0, s1, p.S(), p.a, m, others, r.first, cnt);
  }

  ghost predicate NewTable(s: Space, s': Space, a: Area, f: nat) {
    IsTable(s', a, f) && !IsTable(s, a, f) && (InUser(s, a, f) || InKernel(s, a, f))
  }

  lemma BackAgain(s0: Space, s1: Space, s2: Space, a: Area, m: seq<bool>, others: set<nat>, first: nat, cnt: nat)
    requires Inv(s0, a, m, others) && Inv(s2, a, m, others) && ClearRun(m, first, cnt)
    requires Grown(s0, s1, a, |m|, first, cnt, others) && Grown(s1, s2, a, |m|, first, cnt, others)
    ensures forall f :: Used(s2, a, f) <==> Used(s0, a, f) || NewTable(s0, s2, a, f)
    ensures forall i: nat :: i < |m| ==> (EntryAt(s2, a, i).present <==> EntryAt(s0, a, i).present)
  {
    forall f
      ensures Used(s2, a, f) <==> Used(s0, a, f) || NewTable(s0, s2, a, f)
    {
      SameUse(s0, s2, a, m, others, f);
    }
  }
}
