// kernel/memory.c, lines 625-842: the arena allocator behind sys_malloc and sys_free, in one context.
module Heap {
  import opened Options
  import opened Seqs

  const PG_SIZE := 4096
  const ARENA_SIZE := 12        // sizeof(arena_t)
  const MEM_UNIT_CNT := 7
  const MAX_UNIT := 1024

  // block_desc_init: block_size and blocks_per_arena of each class.
  function BlockSize(k: nat): nat
    requires k < MEM_UNIT_CNT
  {
    if k == 0 then 16 else if k == 1 then 32 else if k == 2 then 64 else if k == 3 then 128
    else if k == 4 then 256 else if k == 5 then 512 else 1024
  }

  function Blocks(k: nat): nat
    requires k < MEM_UNIT_CNT
  {
    (PG_SIZE - ARENA_SIZE) / BlockSize(k)
  }

  // The first class whose blocks hold size bytes.
  function ClassOf(size: nat): (k: nat)
    requires size <= MAX_UNIT
    ensures k < MEM_UNIT_CNT && size <= BlockSize(k) && (k > 0 ==> BlockSize(k - 1) < size)
  {
    if size <= 16 then 0 else if size <= 32 then 1 else if size <= 64 then 2 else if size <= 128 then 3
    else if size <= 256 then 4 else if size <= 512 then 5 else 6
  }

  // The classes are the powers of two from 16 to 1024, and an arena has as many blocks as fit behind its
  // header.
  lemma ClassSizes(k: nat)
    requires k < MEM_UNIT_CNT
    ensures BlockSize(0) == 16 && BlockSize(MEM_UNIT_CNT - 1) == MAX_UNIT
    ensures k > 0 ==> BlockSize(k) == 2 * BlockSize(k - 1)
    ensures ARENA_SIZE + Blocks(k) * BlockSize(k) <= PG_SIZE < ARENA_SIZE + (Blocks(k) + 1) * BlockSize(k)
  {
    assert k == 0 || k == 1 || k == 2 || k == 3 || k == 4 || k == 5 || k == 6;
  }

  // The blocks of class k hold size bytes, and those of the class before do not.
  predicate SmallestClass(k: nat, size: nat) {
    k < MEM_UNIT_CNT && size <= BlockSize(k) && (k > 0 ==> BlockSize(k - 1) < size)
  }

  // n pages hold size bytes behind an arena header, and n - 1 do not.
  predicate LeastPages(n: nat, size: nat) {
    (n - 1) * PG_SIZE < size + ARENA_SIZE <= n * PG_SIZE
  }

  // A 32-bit address, as its page number and the offset in the page.
  datatype Addr = Addr(page: nat, off: nat)

  function Linear(b: Addr): nat {
    b.page * PG_SIZE + b.off
  }

  // arena2block. Arenas are named by their page.
  function BlockAt(a: nat, k: nat, i: nat): Addr
    requires k < MEM_UNIT_CNT
  {
    Addr(a, ARENA_SIZE + i * BlockSize(k))
  }

  // block2arena: the address with its low 12 bits cleared.
  lemma ArenaOfBlock(b: Addr)
    requires b.off < PG_SIZE
    ensures Linear(b) / PG_SIZE == b.page && Linear(b) - Linear(b) % PG_SIZE == Linear(Addr(b.page, 0))
  {
  }

  predicate IsBlock(a: nat, k: nat, b: Addr)
    requires k < MEM_UNIT_CNT
  {
    exists i :: 0 <= i < Blocks(k) && b == BlockAt(a, k, i)
  }

  // Blocks of one arena stay inside its page, behind the header, and do not overlap.
  lemma BlockGeometry(a: nat, k: nat, i: nat, j: nat)
    requires k < MEM_UNIT_CNT && i < j < Blocks(k)
    ensures BlockAt(a, k, i).off + BlockSize(k) <= BlockAt(a, k, j).off
    ensures BlockAt(a, k, j).off + BlockSize(k) <= PG_SIZE
  {
  }

  lemma BlockInArena(a: nat, k: nat, b: Addr)
    requires k < MEM_UNIT_CNT && IsBlock(a, k, b)
    ensures b.page == a && ARENA_SIZE <= b.off && b.off + BlockSize(k) <= PG_SIZE
  {
  }

  // Small: one page of blocks of class desc. Large: pageCnt whole pages for one allocation, with a
  // NULL desc and pageCnt in free_cnt.
  datatype Arena = Small(desc: nat, freeCnt: nat) | Large(pageCnt: nat)

  function PagesOf(a: Arena): nat {
    if a.Small? then 1 else a.pageCnt
  }

  // free are the class free lists, arenas the arenas in use by their address. live is history: what
  // has been handed out and not freed, with the sizes asked for.
  datatype Heap = Heap(free: seq<seq<Addr>>, arenas: map<nat, Arena>, live: map<Addr, nat>)

  ghost function FreeOf(list: seq<Addr>, a: nat): set<Addr> {
    set b | b in list && b.page == a
  }

  // ---- the invariant ----

  // A block on a class list belongs to a small arena of that class and is not handed out.
  ghost predicate FreeFits(h: Heap, k: nat)
    requires |h.free| == MEM_UNIT_CNT && k < MEM_UNIT_CNT
  {
    && Distinct(h.free[k])
    && forall b :: b in h.free[k] ==>
         b.page in h.arenas && h.arenas[b.page].Small? && h.arenas[b.page].desc == k
         && IsBlock(b.page, k, b) && b !in h.live
  }

  // free_cnt counts the arena's blocks on the list, and every block is on the list or handed out.
  ghost predicate ArenaFits(h: Heap, a: nat)
    requires |h.free| == MEM_UNIT_CNT && a in h.arenas
  {
    match h.arenas[a]
    case Small(k, n) =>
      && k < MEM_UNIT_CNT && n == |FreeOf(h.free[k], a)| && n <= Blocks(k)
      && forall b :: IsBlock(a, k, b) ==> b in h.free[k] || b in h.live
    case Large(n) => n >= 1 && Addr(a, ARENA_SIZE) in h.live
  }

  // An allocation has the room it asked for, inside its arena and past the header, and no class or number
  // of pages smaller than its own would do.
  ghost predicate LiveFits(h: Heap, b: Addr)
    requires b in h.live
  {
    var a := b.page;
    a in h.arenas && h.live[b] > 0 &&
    match h.arenas[a]
    case Small(k, _) => SmallestClass(k, h.live[b]) && IsBlock(a, k, b)
    case Large(n) => b == Addr(a, ARENA_SIZE) && h.live[b] > MAX_UNIT && LeastPages(n, h.live[b])
  }

  ghost predicate Apart(h: Heap) {
    forall a, c :: a in h.arenas && c in h.arenas && a < c ==> a + PagesOf(h.arenas[a]) <= c
  }

  // Holds even inside sys_malloc, after a new arena has been cut into blocks.
  ghost predicate Core(h: Heap) {
    && |h.free| == MEM_UNIT_CNT
    && (forall k :: 0 <= k < MEM_UNIT_CNT ==> FreeFits(h, k))
    && (forall a :: a in h.arenas ==> ArenaFits(h, a))
    && (forall b :: b in h.live ==> LiveFits(h, b))
    && Apart(h)
  }

  // No arena stays fully free between calls.
  ghost predicate InUse(h: Heap, a: nat) {
    a in h.arenas && h.arenas[a].Small? && h.arenas[a].desc < MEM_UNIT_CNT ==>
        h.arenas[a].freeCnt < Blocks(h.arenas[a].desc)
  }

  ghost predicate Inv(h: Heap) {
    Core(h) && forall a :: a in h.arenas ==> InUse(h, a)
  }

  // ---- sys_malloc and sys_free ----

  // What malloc_page may return: pages that no arena holds.
  ghost predicate IsGrant(h: Heap, a: nat, pageCnt: nat) {
    forall c :: c in h.arenas ==> a + pageCnt <= c || c + PagesOf(h.arenas[c]) <= a
  }

  function DivCeiling(x: nat, y: nat): nat
    requires y > 0
  {
    (x + y - 1) / y
  }

  // The blocks of a new arena from index i on, in address order.
  function BlocksFrom(a: nat, k: nat, i: nat): seq<Addr>
    requires k < MEM_UNIT_CNT && i <= Blocks(k)
    decreases Blocks(k) - i
  {
    if i == Blocks(k) then [] else [BlockAt(a, k, i)] + BlocksFrom(a, k, i + 1)
  }

  // How many pages a call asks malloc_page for; none when a free block of the class is at hand.
  function PagesWanted(h: Heap, size: nat): nat
    requires |h.free| == MEM_UNIT_CNT
  {
    if size > MAX_UNIT then DivCeiling(size + ARENA_SIZE, PG_SIZE)
    else if h.free[ClassOf(size)] == [] then 1
    else 0
  }

  function NewArena(h: Heap, k: nat, a: nat): Heap
    requires |h.free| == MEM_UNIT_CNT && k < MEM_UNIT_CNT
  {
    h.(arenas := h.arenas[a := Small(k, Blocks(k))], free := h.free[k := h.free[k] + BlocksFrom(a, k, 0)])
  }

  // The front block of class k is handed out.
  function Take(h: Heap, k: nat, size: nat): (Heap, Option<Addr>)
    requires |h.free| == MEM_UNIT_CNT && k < MEM_UNIT_CNT && h.free[k] != []
  {
    var b := h.free[k][0];
    var a := b.page;
    var n := if a in h.arenas && h.arenas[a].Small? && h.arenas[a].freeCnt > 0 then h.arenas[a].freeCnt - 1 else 0;
    (h.(free := h.free[k := h.free[k][1..]], arenas := h.arenas[a := Small(k, n)], live := h.live[b := size]), Some(b))
  }

  // sys_malloc; grant is what malloc_page returns when it is called.
  function Malloc(h: Heap, size: nat, poolSize: nat, grant: Option<nat>): (Heap, Option<Addr>)
    requires |h.free| == MEM_UNIT_CNT
  {
    if size == 0 || poolSize <= size then (h, None)
    else if PagesWanted(h, size) > 0 && grant == None then (h, None)
    else if size > MAX_UNIT then
      var a := grant.value;
      (h.(arenas := h.arenas[a := Large(PagesWanted(h, size))], live := h.live[Addr(a, ARENA_SIZE) := size]),
          Some(Addr(a, ARENA_SIZE)))
    else
      var k := ClassOf(size);
      if h.free[k] != [] then Take(h, k, size)
      else
        var h1 := NewArena(h, k, grant.value);
        if h1.free[k] == [] then (h1, None) else Take(h1, k, size)
  }

  function WithoutArena(list: seq<Addr>, a: nat): (r: seq<Addr>)
    ensures forall b :: b in r <==> b in list && b.page != a
    ensures Distinct(list) ==> Distinct(r)
  {
    if list == [] then []
    else if list[0].page == a then WithoutArena(list[1..], a)
    else [list[0]] + WithoutArena(list[1..], a)
  }

  // The blocks of other arenas stay in their order.
  lemma {:induction false} WithoutConcat(x: seq<Addr>, y: seq<Addr>, a: nat)
    ensures WithoutArena(x + y, a) == WithoutArena(x, a) + WithoutArena(y, a)
  {
    if x == [] {
      assert x + y == y;
    } else {
      assert (x + y)[1..] == x[1..] + y;
      WithoutConcat(x[1..], y, a);
    }
  }

  // sys_free of a pointer that sys_malloc returned.
  function Free(h: Heap, ptr: Addr): Heap
    requires |h.free| == MEM_UNIT_CNT && ptr.page in h.arenas
    requires h.arenas[ptr.page].Small? ==> h.arenas[ptr.page].desc < MEM_UNIT_CNT
  {
    var a := ptr.page;
    match h.arenas[a]
    case Large(_) => h.(arenas := h.arenas - {a}, live := h.live - {ptr})
    case Small(k, n) =>
      var list := h.free[k] + [ptr];
      if n + 1 == Blocks(k) then
        h.(free := h.free[k := WithoutArena(list, a)], arenas := h.arenas - {a}, live := h.live - {ptr})
      else
        h.(free := h.free[k := list], arenas := h.arenas[a := Small(k, n + 1)], live := h.live - {ptr})
  }

  // ---- counting blocks ----

  lemma {:induction false} BlocksFromAre(a: nat, k: nat, i: nat)
    requires k < MEM_UNIT_CNT && i <= Blocks(k)
    ensures var s := BlocksFrom(a, k, i);
      && |s| == Blocks(k) - i
      && (forall j :: 0 <= j < |s| ==> s[j] == BlockAt(a, k, i + j))
    decreases Blocks(k) - i
  {
    if i < Blocks(k) {
      BlocksFromAre(a, k, i + 1);
    }
  }

  ghost function SetOf(s: seq<Addr>): set<Addr> {
    set b | b in s
  }

  lemma {:induction false} CardOfDistinct(s: seq<Addr>)
    requires Distinct(s)
    ensures |SetOf(s)| == |s|
  {
    if s == [] {
      assert SetOf(s) == {};
    } else {
      CardOfDistinct(s[1..]);
      assert s == [s[0]] + s[1..];
      assert SetOf(s) == SetOf(s[1..]) + {s[0]};
    }
  }

  lemma ConcatDistinct(x: seq<Addr>, y: seq<Addr>)
    requires Distinct(x) && Distinct(y) && forall b :: b in x ==> b !in y
    ensures Distinct(x + y)
  {
    forall i, j | 0 <= i < j < |x + y|
      ensures (x + y)[i] != (x + y)[j]
    {
      if i < |x| <= j {
        assert x[i] in x && y[j - |x|] in y;
      }
    }
  }

  // All blocks of a arena: Blocks(k) of them, distinct.
  lemma AllBlocks(a: nat, k: nat)
    requires k < MEM_UNIT_CNT
    ensures var s := BlocksFrom(a, k, 0);
      && Distinct(s) && |s| == Blocks(k) > 0 && |SetOf(s)| == Blocks(k)
      && forall b :: b in s <==> IsBlock(a, k, b)
    ensures forall b :: IsBlock(a, k, b) ==> b.page == a
  {
    var s := BlocksFrom(a, k, 0);
    BlocksFromAre(a, k, 0);
    forall i, j | 0 <= i < j < |s|
      ensures s[i] != s[j]
    {
      BlockGeometry(a, k, i, j);
    }
    CardOfDistinct(s);
    forall b | IsBlock(a, k, b)
      ensures b in s && b.page == a
    {
      var i :| 0 <= i < Blocks(k) && b == BlockAt(a, k, i);
      assert s[i] == b;
      BlockInArena(a, k, b);
    }
    forall b | b in s
      ensures IsBlock(a, k, b)
    {
      var i :| 0 <= i < |s| && s[i] == b;
      assert b == BlockAt(a, k, i);
    }
  }

  // If every block is counted as free, every block is on the list.
  lemma AllFree(h: Heap, a: nat, k: nat)
    requires |h.free| == MEM_UNIT_CNT && k < MEM_UNIT_CNT && FreeFits(h, k)
    requires |FreeOf(h.free[k], a)| == Blocks(k)
    ensures forall b :: IsBlock(a, k, b) ==> b in h.free[k]
  {
    AllBlocks(a, k);
    var all := SetOf(BlocksFrom(a, k, 0));
    var out := FreeOf(h.free[k], a);
    forall b | b in out
      ensures b in all
    {
      assert IsBlock(a, k, b);
    }
    SubsetOfSize(out, all);
    forall b | IsBlock(a, k, b)
      ensures b in h.free[k]
    {
      assert b in all;
    }
  }

  lemma SubsetIsSmaller<T>(x: set<T>, y: set<T>)
    ensures x <= y ==> |x| <= |y|
  {
    assert x <= y ==> y == x + (y - x);
  }

  lemma SubsetOfSize<T>(x: set<T>, y: set<T>)
    requires x <= y && |x| == |y|
    ensures x == y
  {
    assert y == x + (y - x);
  }

  // An arena keeps what ArenaFits says of it when its own blocks stay where they are.
  lemma ArenaKept(h: Heap, h': Heap, c: nat)
    requires |h.free| == MEM_UNIT_CNT && |h'.free| == MEM_UNIT_CNT && c in h.arenas && c in h'.arenas
    requires ArenaFits(h, c) && h'.arenas[c] == h.arenas[c]
    requires h.arenas[c].Small? ==> FreeOf(h'.free[h.arenas[c].desc], c) == FreeOf(h.free[h.arenas[c].desc], c)
    requires forall b :: b in h.live && b.page == c ==> b in h'.live
    ensures ArenaFits(h', c)
  {
    match h.arenas[c]
    case Large(_) =>
      assert Addr(c, ARENA_SIZE) in h.live;
    case Small(k, _) =>
      forall b | IsBlock(c, k, b)
        ensures b in h'.free[k] || b in h'.live
      {
        BlockInArena(c, k, b);
        assert b in h.free[k] ==> b in FreeOf(h'.free[k], c);
      }
  }

  // A class list keeps what FreeFits says when it only loses blocks and their arenas stay.
  lemma FreeKept(h: Heap, h': Heap, k: nat)
    requires |h.free| == MEM_UNIT_CNT && |h'.free| == MEM_UNIT_CNT && k < MEM_UNIT_CNT && FreeFits(h, k)
    requires Distinct(h'.free[k]) && (forall b :: b in h'.free[k] ==> b in h.free[k])
    requires forall b :: b in h'.free[k] ==>
        b.page in h.arenas && b.page in h'.arenas && h'.arenas[b.page] == h.arenas[b.page]
    requires forall b :: b in h'.live ==> b in h.live
    ensures FreeFits(h', k)
  {
  }

  lemma LiveKept(h: Heap, h': Heap, b: Addr)
    requires b in h.live && b in h'.live && LiveFits(h, b) && h'.live[b] == h.live[b]
    requires b.page in h'.arenas
    requires var x, y := h.arenas[b.page], h'.arenas[b.page];
      x == y || (x.Small? && y.Small? && x.desc == y.desc)
    ensures LiveFits(h', b)
  {
  }

  // ---- sys_malloc keeps the invariant ----

  lemma {:induction false} FreeOfAppend(list: seq<Addr>, more: seq<Addr>, a: nat)
    ensures FreeOf(list + more, a) == FreeOf(list, a) + FreeOf(more, a)
  {
  }

  // A granted page is nobody's arena, so nothing free or live lies in it.
  lemma GrantIsNew(h: Heap, a: nat, pageCnt: nat)
    requires Core(h) && IsGrant(h, a, pageCnt) && pageCnt >= 1
    ensures a !in h.arenas
    ensures forall b :: b in h.live ==> b.page in h.arenas && b.page != a
  {
    assert a in h.arenas ==> ArenaFits(h, a);
    assert forall b :: b in h.live ==> LiveFits(h, b);
  }

  // The class list with the blocks of a new arena behind it.
  lemma NewBlocksFit(list: seq<Addr>, a: nat, k: nat)
    requires k < MEM_UNIT_CNT && Distinct(list)
    requires forall b :: b in list ==> b.page != a
    ensures Distinct(list + BlocksFrom(a, k, 0))
    ensures forall b :: b in list + BlocksFrom(a, k, 0) <==> b in list || IsBlock(a, k, b)
  {
    AllBlocks(a, k);
    var s := BlocksFrom(a, k, 0);
    ConcatDistinct(list, s);
    assert forall b :: b in list + s <==> b in list || b in s;
  }

  lemma NewArenaFree(h: Heap, k: nat, a: nat, j: nat)
    requires Core(h) && k < MEM_UNIT_CNT && j < MEM_UNIT_CNT && IsGrant(h, a, 1)
    ensures FreeFits(NewArena(h, k, a), j)
  {
    GrantIsNew(h, a, 1);
    assert FreeFits(h, j);
    if j == k {
      NewBlocksFit(h.free[k], a, k);
      AllBlocks(a, k);
    }
  }

  lemma NewArenaArenas(h: Heap, k: nat, a: nat, c: nat)
    requires Core(h) && k < MEM_UNIT_CNT && IsGrant(h, a, 1) && c in NewArena(h, k, a).arenas
    ensures ArenaFits(NewArena(h, k, a), c)
  {
    GrantIsNew(h, a, 1);
    AllBlocks(a, k);
    var more := BlocksFrom(a, k, 0);
    FreeOfAppend(h.free[k], more, c);
    assert FreeFits(h, k);
    if c == a {
      assert FreeOf(h.free[k], a) == {};
      assert FreeOf(more, a) == SetOf(more);
    } else {
      assert ArenaFits(h, c);
      assert FreeOf(more, c) == {};
    }
  }

  lemma NewArenaKeeps(h: Heap, k: nat, a: nat)
    requires Core(h) && k < MEM_UNIT_CNT && IsGrant(h, a, 1)
    ensures Core(NewArena(h, k, a)) && NewArena(h, k, a).free[k] != []
  {
    var h' := NewArena(h, k, a);
    GrantIsNew(h, a, 1);
    AllBlocks(a, k);
    forall j | 0 <= j < MEM_UNIT_CNT
      ensures FreeFits(h', j)
    {
      NewArenaFree(h, k, a, j);
    }
    forall c | c in h'.arenas
      ensures ArenaFits(h', c)
    {
      NewArenaArenas(h, k, a, c);
    }
    forall b | b in h'.live
      ensures LiveFits(h', b)
    {
      assert LiveFits(h, b);
    }
  }

  lemma FreeOfTail(list: seq<Addr>, a: nat)
    requires list != [] && Distinct(list)
    ensures FreeOf(list[1..], a) == FreeOf(list, a) - {list[0]}
    ensures |FreeOf(list[1..], a)| == if list[0].page == a then |FreeOf(list, a)| - 1 else |FreeOf(list, a)|
  {
    assert list == [list[0]] + list[1..];
    FreeOfAppend([list[0]], list[1..], a);
  }

  // Taking the front block of class k keeps the rest, and leaves its arena with a block out.
  lemma TakeKeeps(h: Heap, k: nat, size: nat)
    requires Core(h) && k < MEM_UNIT_CNT && h.free[k] != [] && 0 < size && SmallestClass(k, size)
    ensures Core(Take(h, k, size).0) && InUse(Take(h, k, size).0, h.free[k][0].page)
    ensures Take(h, k, size).0.live == h.live[h.free[k][0] := size] && h.free[k][0] !in h.live
    ensures forall c :: c in h.arenas && c != h.free[k][0].page ==> Take(h, k, size).0.arenas[c] == h.arenas[c]
    ensures Take(h, k, size).0.arenas.Keys == h.arenas.Keys
  {
    var b := h.free[k][0];
    var h' := Take(h, k, size).0;
    assert FreeFits(h, k) && b in h.free[k];
    assert ArenaFits(h, b.page);
    TakeFrame(h, k, size, h.arenas[b.page].freeCnt);
    forall j | 0 <= j < MEM_UNIT_CNT
      ensures FreeFits(h', j)
    {
      TakeFree(h, k, size, j);
    }
    forall c | c in h'.arenas
      ensures ArenaFits(h', c)
    {
      TakeArenas(h, k, size, c);
    }
    forall c | c in h'.live
      ensures LiveFits(h', c)
    {
      TakeLive(h, k, size, c);
    }
  }

  // What a take changes: the arena of the front block loses one free block.
  lemma TakeFrame(h: Heap, k: nat, size: nat, n: nat)
    requires |h.free| == MEM_UNIT_CNT && k < MEM_UNIT_CNT && h.free[k] != [] && Distinct(h.free[k])
    requires h.free[k][0].page in h.arenas && h.arenas[h.free[k][0].page] == Small(k, n)
    requires ArenaFits(h, h.free[k][0].page)
    requires Apart(h)
    ensures var a := h.free[k][0].page; var h' := Take(h, k, size).0;
      && n > 0 && h'.arenas == h.arenas[a := Small(k, n - 1)] && InUse(h', a) && Apart(h')
  {
    var b := h.free[k][0];
    assert b in FreeOf(h.free[k], b.page);
  }

  lemma TakeLive(h: Heap, k: nat, size: nat, c: Addr)
    requires Core(h) && k < MEM_UNIT_CNT && h.free[k] != [] && c in Take(h, k, size).0.live
    requires 0 < size && SmallestClass(k, size)
    ensures LiveFits(Take(h, k, size).0, c)
  {
    var b := h.free[k][0];
    assert FreeFits(h, k) && b in h.free[k];
    if c != b {
      LiveKept(h, Take(h, k, size).0, c);
    }
  }

  lemma TakeFree(h: Heap, k: nat, size: nat, j: nat)
    requires Core(h) && k < MEM_UNIT_CNT && h.free[k] != [] && j < MEM_UNIT_CNT
    ensures FreeFits(Take(h, k, size).0, j)
  {
    assert FreeFits(h, j) && FreeFits(h, k);
    var b := h.free[k][0];
    assert b in h.free[k] && b !in h.free[k][1..];
  }

  lemma TakeArenas(h: Heap, k: nat, size: nat, c: nat)
    requires Core(h) && k < MEM_UNIT_CNT && h.free[k] != [] && c in h.arenas
    ensures ArenaFits(Take(h, k, size).0, c)
  {
    assert FreeFits(h, k) && ArenaFits(h, c);
    var b := h.free[k][0];
    assert b in h.free[k];
    if c == b.page {
      TakeOwn(h, k, size, h.arenas[c].freeCnt);
    } else {
      TakeOther(h, k, size, c);
    }
  }

  // The arena of the front block.
  lemma TakeOwn(h: Heap, k: nat, size: nat, n: nat)
    requires |h.free| == MEM_UNIT_CNT && k < MEM_UNIT_CNT && h.free[k] != [] && Distinct(h.free[k])
    requires h.free[k][0].page in h.arenas && h.arenas[h.free[k][0].page] == Small(k, n)
    requires ArenaFits(h, h.free[k][0].page)
    ensures ArenaFits(Take(h, k, size).0, h.free[k][0].page)
  {
    var b := h.free[k][0];
    FreeOfTail(h.free[k], b.page);
    assert b in FreeOf(h.free[k], b.page);
    assert h.free[k] == [b] + h.free[k][1..];
  }

  lemma TakeOther(h: Heap, k: nat, size: nat, c: nat)
    requires |h.free| == MEM_UNIT_CNT && k < MEM_UNIT_CNT && h.free[k] != [] && Distinct(h.free[k])
    requires c in h.arenas && c != h.free[k][0].page && ArenaFits(h, c)
    ensures ArenaFits(Take(h, k, size).0, c)
  {
    FreeOfTail(h.free[k], c);
    ArenaKept(h, Take(h, k, size).0, c);
  }

  ghost predicate GrantFits(h: Heap, size: nat, grant: Option<nat>)
    requires |h.free| == MEM_UNIT_CNT
  {
    grant.Some? && PagesWanted(h, size) > 0 ==> IsGrant(h, grant.value, PagesWanted(h, size))
  }

  lemma LargeKeeps(h: Heap, size: nat, a: nat)
    requires Inv(h) && size > MAX_UNIT && IsGrant(h, a, PagesWanted(h, size))
    ensures var h' :=
        h.(arenas := h.arenas[a := Large(PagesWanted(h, size))], live := h.live[Addr(a, ARENA_SIZE) := size]);
      Inv(h') && Addr(a, ARENA_SIZE) !in h.live
  {
    var n := PagesWanted(h, size);
    var h' := h.(arenas := h.arenas[a := Large(n)], live := h.live[Addr(a, ARENA_SIZE) := size]);
    assert n >= 1 && LeastPages(n, size);
    GrantIsNew(h, a, n);
    forall k | 0 <= k < MEM_UNIT_CNT
      ensures FreeFits(h', k)
    {
      assert FreeFits(h, k);
    }
    forall c | c in h'.arenas
      ensures ArenaFits(h', c) && InUse(h', c)
    {
      if c != a {
        assert ArenaFits(h, c) && InUse(h, c);
      }
    }
    forall b | b in h'.live
      ensures LiveFits(h', b)
    {
      if b != Addr(a, ARENA_SIZE) {
        assert LiveFits(h, b);
      }
    }
  }

  lemma SmallKeeps(h: Heap, size: nat, grant: Option<nat>)
    requires Inv(h) && 0 < size <= MAX_UNIT && GrantFits(h, size, grant)
    requires PagesWanted(h, size) > 0 ==> grant.Some?
    ensures var k := ClassOf(size);
      var h1 := if h.free[k] == [] then NewArena(h, k, grant.value) else h;
      Core(h1) && h1.free[k] != [] && h1.live == h.live && Inv(Take(h1, k, size).0) && h1.free[k][0] !in h.live
      && Take(h1, k, size).0.live == h.live[h1.free[k][0] := size]
  {
    var k := ClassOf(size);
    if h.free[k] == [] {
      NewArenaKeeps(h, k, grant.value);
      NewArenaFront(h, k, grant.value);
      TakeGivesInv(h, NewArena(h, k, grant.value), k, size);
    } else {
      TakeGivesInv(h, h, k, size);
    }
  }

  // The front block of a new arena, when the class list was empty.
  lemma NewArenaFront(h: Heap, k: nat, a: nat)
    requires |h.free| == MEM_UNIT_CNT && k < MEM_UNIT_CNT && h.free[k] == []
    ensures var h1 := NewArena(h, k, a);
      h1.free[k] != [] && h1.free[k][0].page == a && forall c :: c in h1.arenas && c != a ==> c in h.arenas
  {
    AllBlocks(a, k);
    assert NewArena(h, k, a).free[k] == BlocksFrom(a, k, 0);
    assert BlocksFrom(a, k, 0)[0] in BlocksFrom(a, k, 0);
  }

  // Every arena of h1 other than the front block's is one of h, so none is fully free afterwards.
  lemma TakeGivesInv(h: Heap, h1: Heap, k: nat, size: nat)
    requires Core(h1) && k < MEM_UNIT_CNT && h1.free[k] != [] && 0 < size && SmallestClass(k, size)
    requires forall c :: c in h.arenas ==> InUse(h, c)
    requires forall c :: c in h1.arenas && c != h1.free[k][0].page ==> c in h.arenas && h1.arenas[c] == h.arenas[c]
    ensures Inv(Take(h1, k, size).0) && h1.free[k][0] !in h1.live
    ensures Take(h1, k, size).0.live == h1.live[h1.free[k][0] := size]
  {
    TakeKeeps(h1, k, size);
    var h2 := Take(h1, k, size).0;
    forall c | c in h2.arenas
      ensures InUse(h2, c)
    {
      assert c in h1.arenas.Keys;
    }
  }

  // sys_malloc: the invariant holds again, and a successful call hands out what was not out before.
  lemma MallocKeeps(h: Heap, size: nat, poolSize: nat, grant: Option<nat>)
    requires Inv(h) && GrantFits(h, size, grant)
    ensures var (h', r) := Malloc(h, size, poolSize, grant);
      && Inv(h')
      && (r == None ==> h' == h)
      && (r.Some? ==> r.value !in h.live && h'.live == h.live[r.value := size])
    ensures Malloc(h, size, poolSize, grant).1 == None <==>
      size == 0 || poolSize <= size || (PagesWanted(h, size) > 0 && grant == None)
  {
    if 0 < size < poolSize && (PagesWanted(h, size) > 0 ==> grant.Some?) {
      if size > MAX_UNIT {
        LargeKeeps(h, size, grant.value);
      } else {
        SmallKeeps(h, size, grant);
      }
    }
  }

  // How many pages a call takes, of the size alone and of whether a block of its class is free.
  lemma PagesWantedIs(h: Heap, size: nat, n: nat, k: nat)
    requires |h.free| == MEM_UNIT_CNT
    ensures size > MAX_UNIT ==> (LeastPages(n, size) <==> n == PagesWanted(h, size))
    ensures size <= MAX_UNIT && SmallestClass(k, size) ==>
      (n == PagesWanted(h, size) <==> n == if h.free[k] == [] then 1 else 0)
  {
    if size <= MAX_UNIT && SmallestClass(k, size) {
      ClassIsSmallest(size, k);
    }
  }

  lemma ClassIsSmallest(size: nat, k: nat)
    requires size <= MAX_UNIT
    ensures SmallestClass(k, size) <==> k == ClassOf(size)
  {
  }

  // What sys_malloc does to arenas and lists when it hands out ptr. A large allocation is a new arena of
  // its own with as few pages as will do; a small one is the front block of its class list, or the first
  // block of a new arena, whose other blocks are on the list then.
  lemma MallocIs(h: Heap, size: nat, poolSize: nat, grant: Option<nat>, k: nat)
    requires Inv(h) && GrantFits(h, size, grant) && Malloc(h, size, poolSize, grant).1.Some?
    ensures size > MAX_UNIT ==> grant.Some? && TookPages(h, Malloc(h, size, poolSize, grant), size, grant.value)
    ensures size <= MAX_UNIT && SmallestClass(k, size) && h.free[k] != [] ==>
      TookFront(h, Malloc(h, size, poolSize, grant), k)
    ensures size <= MAX_UNIT && SmallestClass(k, size) && h.free[k] == [] ==>
      grant.Some? && TookFirst(h, Malloc(h, size, poolSize, grant), k, grant.value)
  {
    if size > MAX_UNIT {
      LargeTook(h, size, poolSize, grant);
    } else if SmallestClass(k, size) {
      ClassIsSmallest(size, k);
      if h.free[k] == [] {
        SmallTookFirst(h, size, poolSize, grant);
      } else {
        FrontIs(h, k);
        SmallTookFront(h, size, poolSize, grant);
      }
    }
  }

  lemma LargeTook(h: Heap, size: nat, poolSize: nat, grant: Option<nat>)
    requires |h.free| == MEM_UNIT_CNT && size > MAX_UNIT && Malloc(h, size, poolSize, grant).1.Some?
    ensures grant.Some? && TookPages(h, Malloc(h, size, poolSize, grant), size, grant.value)
  {
    PagesWantedIs(h, size, PagesWanted(h, size), 0);
  }

  lemma SmallTookFront(h: Heap, size: nat, poolSize: nat, grant: Option<nat>)
    requires |h.free| == MEM_UNIT_CNT && size <= MAX_UNIT && Malloc(h, size, poolSize, grant).1.Some?
    requires h.free[ClassOf(size)] != [] && h.free[ClassOf(size)][0].page in h.arenas
    requires var x := h.arenas[h.free[ClassOf(size)][0].page]; x.Small? && x.desc == ClassOf(size) && x.freeCnt > 0
    ensures TookFront(h, Malloc(h, size, poolSize, grant), ClassOf(size))
  {
  }

  lemma SmallTookFirst(h: Heap, size: nat, poolSize: nat, grant: Option<nat>)
    requires |h.free| == MEM_UNIT_CNT && size <= MAX_UNIT && Malloc(h, size, poolSize, grant).1.Some?
    requires h.free[ClassOf(size)] == []
    ensures grant.Some? && TookFirst(h, Malloc(h, size, poolSize, grant), ClassOf(size), grant.value)
  {
    FirstTaken(h, ClassOf(size), size, grant.value);
  }

  lemma FirstTaken(h: Heap, k: nat, size: nat, a: nat)
    requires |h.free| == MEM_UNIT_CNT && k < MEM_UNIT_CNT && h.free[k] == []
    ensures NewArena(h, k, a).free[k] != [] && TookFirst(h, Take(NewArena(h, k, a), k, size), k, a)
  {
    var h1, s := NewArena(h, k, a), BlocksFrom(a, k, 0);
    BlocksFromAre(a, k, 0);
    assert h1.free[k] == s && s[0] == BlockAt(a, k, 0) && h1.arenas[a] == Small(k, Blocks(k));
    var h2 := Take(h1, k, size).0;
    assert h2.free[k] == s[1..] && h2.free == h.free[k := s[1..]];
    assert h2.arenas == h.arenas[a := Small(k, Blocks(k) - 1)];
  }

  ghost predicate TookPages(h: Heap, r: (Heap, Option<Addr>), size: nat, a: nat) {
    var h' := r.0;
    && r.1 == Some(Addr(a, ARENA_SIZE)) && h'.free == h.free
    && a in h'.arenas && h'.arenas[a].Large? && LeastPages(h'.arenas[a].pageCnt, size)
    && h'.arenas == h.arenas[a := h'.arenas[a]]
  }

  ghost predicate TookFront(h: Heap, r: (Heap, Option<Addr>), k: nat)
    requires k < |h.free| && h.free[k] != []
  {
    var h', b := r.0, h.free[k][0];
    && r.1 == Some(b) && h'.free == h.free[k := h.free[k][1..]]
    && b.page in h.arenas && h.arenas[b.page].Small? && h.arenas[b.page].freeCnt > 0
    && h'.arenas == h.arenas[b.page := h.arenas[b.page].(freeCnt := h.arenas[b.page].freeCnt - 1)]
  }

  ghost predicate TookFirst(h: Heap, r: (Heap, Option<Addr>), k: nat, a: nat)
    requires |h.free| == MEM_UNIT_CNT && k < MEM_UNIT_CNT
  {
    var h' := r.0;
    && r.1 == Some(Addr(a, ARENA_SIZE)) && h'.arenas == h.arenas[a := Small(k, Blocks(k) - 1)]
    && |h'.free| == MEM_UNIT_CNT && h'.free == h.free[k := h'.free[k]] && |h'.free[k]| == Blocks(k) - 1
    && forall i :: 0 <= i < Blocks(k) - 1 ==> h'.free[k][i] == BlockAt(a, k, i + 1)
  }

  lemma FrontIs(h: Heap, k: nat)
    requires Core(h) && k < MEM_UNIT_CNT && h.free[k] != []
    ensures var a := h.free[k][0].page;
      a in h.arenas && h.arenas[a].Small? && h.arenas[a].desc == k && h.arenas[a].freeCnt > 0
  {
    var b := h.free[k][0];
    assert FreeFits(h, k) && b in h.free[k];
    assert ArenaFits(h, b.page) && b in FreeOf(h.free[k], b.page);
  }

  // ---- sys_free keeps the invariant ----

  lemma LiveArena(h: Heap, ptr: Addr)
    requires Core(h) && ptr in h.live
    ensures var a := ptr.page;
      && a in h.arenas && ArenaFits(h, a) && LiveFits(h, ptr)
      && (h.arenas[a].Small? ==> h.arenas[a].desc < MEM_UNIT_CNT && ptr !in h.free[h.arenas[a].desc])
  {
    assert LiveFits(h, ptr);
    var a := ptr.page;
    assert ArenaFits(h, a);
    if h.arenas[a].Small? {
      assert FreeFits(h, h.arenas[a].desc);
    }
  }

  lemma FreeLargeKeeps(h: Heap, ptr: Addr)
    requires Inv(h) && ptr in h.live && ptr.page in h.arenas && h.arenas[ptr.page].Large?
    ensures Inv(Free(h, ptr))
  {
    var a := ptr.page;
    var h' := Free(h, ptr);
    assert LiveFits(h, ptr);
    forall k | 0 <= k < MEM_UNIT_CNT
      ensures FreeFits(h', k)
    {
      FreeKept(h, h', k);
    }
    forall c | c in h'.arenas
      ensures ArenaFits(h', c) && InUse(h', c)
    {
      assert InUse(h, c);
      ArenaKept(h, h', c);
    }
    forall b | b in h'.live
      ensures LiveFits(h', b)
    {
      assert LiveFits(h, b);
      assert b.page == a ==> b == ptr;
      LiveKept(h, h', b);
    }
  }

  // The heap with ptr back on its list and counted, whether or not its arena is now fully free.
  function Returned(h: Heap, ptr: Addr, k: nat, n: nat): Heap
    requires |h.free| == MEM_UNIT_CNT && k < MEM_UNIT_CNT
  {
    h.(free := h.free[k := h.free[k] + [ptr]], arenas := h.arenas[ptr.page := Small(k, n + 1)], live := h.live - {ptr})
  }

  lemma ReturnedKeeps(h: Heap, ptr: Addr, k: nat, n: nat)
    requires Core(h) && ptr in h.live && ptr.page in h.arenas && h.arenas[ptr.page] == Small(k, n)
    requires k < MEM_UNIT_CNT && n < Blocks(k)
    ensures Core(Returned(h, ptr, k, n))
  {
    var h' := Returned(h, ptr, k, n);
    LiveArena(h, ptr);
    forall j | 0 <= j < MEM_UNIT_CNT
      ensures FreeFits(h', j)
    {
      ReturnedFree(h, ptr, k, n, j);
    }
    forall c | c in h'.arenas
      ensures ArenaFits(h', c)
    {
      if c == ptr.page {
        ReturnedArena(h, ptr, k, n);
      } else {
        FreeOfAppend(h.free[k], [ptr], c);
        assert FreeOf([ptr], c) == {};
        ArenaKept(h, h', c);
      }
    }
    forall b | b in h'.live
      ensures LiveFits(h', b)
    {
      ReturnedLive(h, ptr, k, n, b);
    }
  }

  lemma ReturnedLive(h: Heap, ptr: Addr, k: nat, n: nat, b: Addr)
    requires |h.free| == MEM_UNIT_CNT && ptr.page in h.arenas && h.arenas[ptr.page] == Small(k, n)
    requires k < MEM_UNIT_CNT && b in h.live && b != ptr && LiveFits(h, b)
    ensures LiveFits(Returned(h, ptr, k, n), b)
  {
    LiveKept(h, Returned(h, ptr, k, n), b);
  }

  lemma ReturnedFree(h: Heap, ptr: Addr, k: nat, n: nat, j: nat)
    requires |h.free| == MEM_UNIT_CNT && ptr in h.live && ptr.page in h.arenas && h.arenas[ptr.page] == Small(k, n)
    requires k < MEM_UNIT_CNT && j < MEM_UNIT_CNT && FreeFits(h, j) && LiveFits(h, ptr) && ptr !in h.free[k]
    ensures FreeFits(Returned(h, ptr, k, n), j)
  {
    if j == k {
      ConcatDistinct(h.free[k], [ptr]);
    }
  }

  lemma ReturnedArena(h: Heap, ptr: Addr, k: nat, n: nat)
    requires |h.free| == MEM_UNIT_CNT && ptr in h.live && ptr.page in h.arenas && h.arenas[ptr.page] == Small(k, n)
    requires k < MEM_UNIT_CNT && n < Blocks(k) && ptr !in h.free[k] && ArenaFits(h, ptr.page)
    ensures ArenaFits(Returned(h, ptr, k, n), ptr.page)
  {
    var a := ptr.page;
    FreeOfAppend(h.free[k], [ptr], a);
    assert FreeOf([ptr], a) == {ptr} && ptr !in FreeOf(h.free[k], a);
  }

  // The heap without the page of a fully free arena.
  function Released(h: Heap, a: nat, k: nat): Heap
    requires |h.free| == MEM_UNIT_CNT && k < MEM_UNIT_CNT
  {
    h.(free := h.free[k := WithoutArena(h.free[k], a)], arenas := h.arenas - {a})
  }

  lemma ReleaseKeeps(h: Heap, a: nat, k: nat)
    requires Core(h) && a in h.arenas && k < MEM_UNIT_CNT && h.arenas[a] == Small(k, Blocks(k))
    requires forall c :: c in h.arenas && c != a ==> InUse(h, c)
    ensures Inv(Released(h, a, k))
  {
    var h' := Released(h, a, k);
    ReleaseFree(h, a, k);
    forall c | c in h'.arenas
      ensures ArenaFits(h', c) && InUse(h', c)
    {
      ReleaseOther(h, a, k, c);
    }
  }

  lemma ReleaseOther(h: Heap, a: nat, k: nat, c: nat)
    requires |h.free| == MEM_UNIT_CNT && k < MEM_UNIT_CNT && c in h.arenas && c != a && ArenaFits(h, c) && InUse(h, c)
    ensures ArenaFits(Released(h, a, k), c) && InUse(Released(h, a, k), c)
  {
    ArenaKept(h, Released(h, a, k), c);
  }

  lemma ReleaseFree(h: Heap, a: nat, k: nat)
    requires Core(h) && a in h.arenas && k < MEM_UNIT_CNT && h.arenas[a] == Small(k, Blocks(k))
    ensures forall j :: 0 <= j < MEM_UNIT_CNT ==> FreeFits(Released(h, a, k), j)
    ensures forall b :: b in h.live ==> b.page != a
  {
    assert ArenaFits(h, a) && FreeFits(h, k);
    AllFree(h, a, k);
    assert forall b :: b in h.live ==> LiveFits(h, b);
    forall j | 0 <= j < MEM_UNIT_CNT
      ensures FreeFits(Released(h, a, k), j)
    {
      FreeKept(h, Released(h, a, k), j);
    }
  }

  // sys_free of a live pointer: the invariant holds again and exactly that allocation is gone.
  lemma FreeKeeps(h: Heap, ptr: Addr)
    requires Inv(h) && ptr in h.live
    ensures ptr.page in h.arenas && (h.arenas[ptr.page].Small? ==> h.arenas[ptr.page].desc < MEM_UNIT_CNT)
    ensures Inv(Free(h, ptr)) && Free(h, ptr).live == h.live - {ptr}
  {
    var a := ptr.page;
    LiveArena(h, ptr);
    match h.arenas[a]
    case Large(_) => FreeLargeKeeps(h, ptr);
    case Small(k, n) => FreeSmallKeeps(h, ptr, k, n);
  }

  lemma FreeSmallKeeps(h: Heap, ptr: Addr, k: nat, n: nat)
    requires Inv(h) && ptr in h.live && ptr.page in h.arenas && h.arenas[ptr.page] == Small(k, n) && k < MEM_UNIT_CNT
    ensures Inv(Free(h, ptr))
  {
    var a := ptr.page;
    var h1 := Returned(h, ptr, k, n);
    assert InUse(h, a);
    ReturnedKeeps(h, ptr, k, n);
    forall c | c in h1.arenas && c != a
      ensures InUse(h1, c)
    {
      assert InUse(h, c);
    }
    if n + 1 == Blocks(k) {
      ReleaseKeeps(h1, a, k);
      FreeReleases(h, ptr, k, n);
    }
  }

  lemma FreeReleases(h: Heap, ptr: Addr, k: nat, n: nat)
    requires |h.free| == MEM_UNIT_CNT && ptr.page in h.arenas && h.arenas[ptr.page] == Small(k, n) && k < MEM_UNIT_CNT
    requires n + 1 == Blocks(k)
    ensures var a := ptr.page; var h1 := Returned(h, ptr, k, n);
      Free(h, ptr) == Released(h1, a, k)
  {
    var a := ptr.page;
    assert Returned(h, ptr, k, n).arenas - {a} == h.arenas - {a};
  }

  // ---- what the invariant means ----

  // What sys_free does to arenas and lists. A small block goes to the end of its class list, unless it is
  // the last of its arena to come back: then the arena is gone with all its blocks.
  ghost predicate GaveBack(h: Heap, h': Heap, ptr: Addr)
    requires |h.free| == MEM_UNIT_CNT && ptr.page in h.arenas
    requires h.arenas[ptr.page].Small? ==> h.arenas[ptr.page].desc < MEM_UNIT_CNT
  {
    match h.arenas[ptr.page]
    case Large(_) => h'.arenas == h.arenas - {ptr.page} && h'.free == h.free
    case Small(k, n) =>
      if |FreeOf(h.free[k], ptr.page)| + 1 < Blocks(k) then
        h'.arenas == h.arenas[ptr.page := Small(k, n + 1)] && h'.free == h.free[k := h.free[k] + [ptr]]
      else
        && h'.arenas == h.arenas - {ptr.page} && |h'.free| == MEM_UNIT_CNT && h'.free == h.free[k := h'.free[k]]
        && Distinct(h'.free[k]) && forall b :: b in h'.free[k] <==> b in h.free[k] && b.page != ptr.page
  }

  lemma FreeIs(h: Heap, ptr: Addr)
    requires Inv(h) && ptr in h.live && ptr.page in h.arenas
    requires h.arenas[ptr.page].Small? ==> h.arenas[ptr.page].desc < MEM_UNIT_CNT
    ensures GaveBack(h, Free(h, ptr), ptr) && Free(h, ptr).live == h.live - {ptr}
  {
    LiveArena(h, ptr);
    match h.arenas[ptr.page]
    case Large(_) =>
    case Small(k, n) =>
      assert FreeFits(h, k) && InUse(h, ptr.page);
      ConcatDistinct(h.free[k], [ptr]);
  }

  // The bytes of an allocation as a range of linear addresses.
  ghost predicate DisjointRanges(b: Addr, m: nat, c: Addr, n: nat) {
    Linear(b) + m <= Linear(c) || Linear(c) + n <= Linear(b)
  }

  // Live allocations are as large as asked for, inside the pages of their arena and past its header,
  // and any two of them are disjoint. A large one has as few pages as hold it and the header, a small one
  // a block of the smallest class that holds it.
  lemma LiveIsSound(h: Heap, b: Addr)
    requires Inv(h) && b in h.live
    ensures b.page in h.arenas && b.off >= ARENA_SIZE
    ensures Linear(b) + h.live[b] <= (b.page + PagesOf(h.arenas[b.page])) * PG_SIZE
    ensures if h.live[b] > MAX_UNIT then h.arenas[b.page].Large? && LeastPages(h.arenas[b.page].pageCnt, h.live[b])
      else h.arenas[b.page].Small? && SmallestClass(h.arenas[b.page].desc, h.live[b])
    ensures forall c :: c in h.live && c != b ==> DisjointRanges(b, h.live[b], c, h.live[c])
  {
    assert LiveFits(h, b);
    LiveInArena(h, b);
    forall c | c in h.live && c != b
      ensures DisjointRanges(b, h.live[b], c, h.live[c])
    {
      assert LiveFits(h, c);
      if c.page == b.page {
        SamePageDisjoint(h, b, c);
      } else {
        LiveInArena(h, c);
      }
    }
  }

  lemma LiveInArena(h: Heap, b: Addr)
    requires Inv(h) && b in h.live
    ensures b.page in h.arenas && b.off >= ARENA_SIZE
    ensures Linear(b) + h.live[b] <= (b.page + PagesOf(h.arenas[b.page])) * PG_SIZE
  {
    assert LiveFits(h, b);
    match h.arenas[b.page]
    case Small(k, _) => BlockInArena(b.page, k, b);
    case Large(_) =>
  }

  lemma SamePageDisjoint(h: Heap, b: Addr, c: Addr)
    requires b in h.live && c in h.live && b != c && b.page == c.page && LiveFits(h, b) && LiveFits(h, c)
    ensures DisjointRanges(b, h.live[b], c, h.live[c])
  {
    match h.arenas[b.page]
    case Large(_) =>
    case Small(k, _) =>
      var i :| 0 <= i < Blocks(k) && b == BlockAt(b.page, k, i);
      var j :| 0 <= j < Blocks(k) && c == BlockAt(c.page, k, j);
      if i < j {
        BlockGeometry(b.page, k, i, j);
      } else {
        BlockGeometry(b.page, k, j, i);
      }
  }

  // When nothing is live no page is held.
  lemma NothingLiveNothingHeld(h: Heap)
    requires Inv(h) && h.live == map[]
    ensures h.arenas == map[] && forall k :: 0 <= k < MEM_UNIT_CNT ==> h.free[k] == []
  {
    forall a
      ensures a !in h.arenas
    {
      if a in h.arenas {
        SomeBlockIsLive(h, a);
      }
    }
    forall k: nat | k < MEM_UNIT_CNT
      ensures h.free[k] == []
    {
      FreeNeedsArena(h, k);
    }
  }

  lemma FreeNeedsArena(h: Heap, k: nat)
    requires |h.free| == MEM_UNIT_CNT && k < MEM_UNIT_CNT && FreeFits(h, k)
    ensures h.free[k] == [] || h.free[k][0].page in h.arenas
  {
    assert h.free[k] == [] || h.free[k][0] in h.free[k];
  }

  lemma SomeBlockIsLive(h: Heap, a: nat)
    requires Inv(h) && a in h.arenas
    ensures exists b :: b in h.live && b.page == a
  {
    assert ArenaFits(h, a) && InUse(h, a);
    match h.arenas[a]
    case Large(_) => assert Addr(a, ARENA_SIZE) in h.live;
    case Small(k, n) =>
      AllBlocks(a, k);
      var all := SetOf(BlocksFrom(a, k, 0));
      SubsetIsSmaller(all, FreeOf(h.free[k], a));
      var b :| b in all && b !in FreeOf(h.free[k], a);
      assert IsBlock(a, k, b) && b.page == a;
  }

  const EMPTY := Heap([[], [], [], [], [], [], []], map[], map[])

  // Any two allocations are disjoint.
  ghost predicate LiveApart(h: Heap) {
    forall b, c :: b in h.live && c in h.live && b != c ==> DisjointRanges(b, h.live[b], c, h.live[c])
  }

  // free_cnt is the number of the arena's blocks on its class list, and not all of them are there.
  ghost predicate CountsRight(h: Heap) {
    && |h.free| == MEM_UNIT_CNT
    && forall a :: a in h.arenas && h.arenas[a].Small? ==> CountRight(h, a, h.arenas[a].desc, h.arenas[a].freeCnt)
  }

  ghost predicate CountRight(h: Heap, a: nat, k: nat, n: nat)
    requires |h.free| == MEM_UNIT_CNT
  {
    k < MEM_UNIT_CNT && n == |FreeOf(h.free[k], a)| && n < Blocks(k)
  }

  lemma HeapNow(h: Heap)
    requires Inv(h)
    ensures LiveApart(h) && CountsRight(h)
  {
    forall b, c | b in h.live && c in h.live && b != c
      ensures DisjointRanges(b, h.live[b], c, h.live[c])
    {
      LiveIsSound(h, b);
    }
    forall a | a in h.arenas && h.arenas[a].Small?
      ensures CountRight(h, a, h.arenas[a].desc, h.arenas[a].freeCnt)
    {
      assert ArenaFits(h, a) && InUse(h, a);
    }
  }

  // ---- the pages that arenas hold ----

  ghost predicate Holds(h: Heap, v: nat) {
    exists c :: c in h.arenas && c <= v < c + PagesOf(h.arenas[c])
  }

  // The pages that sys_free of ptr hands to mfree_page, from the arena's first on.
  function PagesBack(h: Heap, ptr: Addr): nat {
    if ptr.page !in h.arenas then 0
    else match h.arenas[ptr.page]
      case Large(n) => n
      case Small(k, n) => if k < MEM_UNIT_CNT && n + 1 == Blocks(k) then 1 else 0
  }

  // The arenas of h' are those of h, and pageCnt pages from a on.
  lemma OneArenaMore(h: Heap, h': Heap, a: nat, pageCnt: nat)
    requires a !in h.arenas && a in h'.arenas && PagesOf(h'.arenas[a]) == pageCnt
    requires h'.arenas.Keys == h.arenas.Keys + {a}
    requires forall c :: c in h.arenas ==> PagesOf(h'.arenas[c]) == PagesOf(h.arenas[c])
    ensures forall v: nat :: Holds(h', v) <==> Holds(h, v) || a <= v < a + pageCnt
  {
    forall v: nat
      ensures Holds(h', v) <==> Holds(h, v) || a <= v < a + pageCnt
    {
      if Holds(h, v) {
        var c :| c in h.arenas && c <= v < c + PagesOf(h.arenas[c]);
        assert c in h'.arenas;
      }
      if Holds(h', v) {
        var c :| c in h'.arenas && c <= v < c + PagesOf(h'.arenas[c]);
        assert c in h.arenas.Keys + {a};
      }
    }
  }

  lemma SameArenas(h: Heap, h': Heap)
    requires h'.arenas.Keys == h.arenas.Keys
    requires forall c :: c in h.arenas ==> PagesOf(h'.arenas[c]) == PagesOf(h.arenas[c])
    ensures forall v: nat :: Holds(h', v) <==> Holds(h, v)
  {
    forall v: nat
      ensures Holds(h', v) <==> Holds(h, v)
    {
      if Holds(h, v) {
        var c :| c in h.arenas && c <= v < c + PagesOf(h.arenas[c]);
        assert c in h'.arenas.Keys;
      }
      if Holds(h', v) {
        var c :| c in h'.arenas && c <= v < c + PagesOf(h'.arenas[c]);
        assert c in h.arenas.Keys;
      }
    }
  }

  lemma OneArenaLess(h: Heap, h': Heap, a: nat)
    requires Apart(h) && a in h.arenas && h'.arenas == h.arenas - {a}
    ensures forall v: nat :: Holds(h', v) <==> Holds(h, v) && !(a <= v < a + PagesOf(h.arenas[a]))
  {
    forall v: nat
      ensures Holds(h', v) <==> Holds(h, v) && !(a <= v < a + PagesOf(h.arenas[a]))
    {
      if Holds(h', v) {
        var c :| c in h'.arenas && c <= v < c + PagesOf(h'.arenas[c]);
        assert c in h.arenas && c != a;
      }
      if Holds(h, v) && !(a <= v < a + PagesOf(h.arenas[a])) {
        var c :| c in h.arenas && c <= v < c + PagesOf(h.arenas[c]);
        assert c in h'.arenas;
      }
    }
  }

  // Taking a block off a list moves no page.
  lemma TakeHolds(h: Heap, k: nat, size: nat)
    requires |h.free| == MEM_UNIT_CNT && k < MEM_UNIT_CNT && h.free[k] != []
    requires h.free[k][0].page in h.arenas && h.arenas[h.free[k][0].page].Small?
    ensures forall v: nat :: Holds(Take(h, k, size).0, v) <==> Holds(h, v)
  {
    SameArenas(h, Take(h, k, size).0);
  }

  // sys_malloc holds the pages it held and those it was granted.
  lemma MallocHolds(h: Heap, size: nat, poolSize: nat, grant: Option<nat>)
    requires Inv(h) && GrantFits(h, size, grant) && Malloc(h, size, poolSize, grant).1.Some?
    ensures PagesWanted(h, size) > 0 ==> grant.Some?
    ensures forall v: nat :: Holds(Malloc(h, size, poolSize, grant).0, v) <==>
      Holds(h, v) || (PagesWanted(h, size) > 0 && grant.value <= v < grant.value + PagesWanted(h, size))
  {
    var h' := Malloc(h, size, poolSize, grant).0;
    if size > MAX_UNIT {
      GrantIsNew(h, grant.value, PagesWanted(h, size));
      OneArenaMore(h, h', grant.value, PagesWanted(h, size));
    } else {
      var k := ClassOf(size);
      if h.free[k] == [] {
        NewArenaHolds(h, k, size, grant.value);
      } else {
        TakeHoldsCore(h, k, size);
      }
    }
  }

  lemma NewArenaHolds(h: Heap, k: nat, size: nat, a: nat)
    requires Core(h) && k < MEM_UNIT_CNT && h.free[k] == [] && IsGrant(h, a, 1)
    ensures var h1 := NewArena(h, k, a);
      h1.free[k] != [] && forall v: nat :: Holds(Take(h1, k, size).0, v) <==> Holds(h, v) || v == a
  {
    NewArenaKeeps(h, k, a);
    GrantIsNew(h, a, 1);
    OneArenaMore(h, NewArena(h, k, a), a, 1);
    TakeHoldsCore(NewArena(h, k, a), k, size);
  }

  lemma TakeHoldsCore(h: Heap, k: nat, size: nat)
    requires Core(h) && k < MEM_UNIT_CNT && h.free[k] != []
    ensures forall v: nat :: Holds(Take(h, k, size).0, v) <==> Holds(h, v)
  {
    assert FreeFits(h, k) && h.free[k][0] in h.free[k];
    TakeHolds(h, k, size);
  }

  // sys_free gives up the pages of an arena that is all free, and no others.
  lemma FreeHolds(h: Heap, ptr: Addr)
    requires Inv(h) && ptr in h.live
    requires ptr.page in h.arenas && (h.arenas[ptr.page].Small? ==> h.arenas[ptr.page].desc < MEM_UNIT_CNT)
    ensures forall v: nat :: Holds(Free(h, ptr), v) <==>
      Holds(h, v) && !(ptr.page <= v < ptr.page + PagesBack(h, ptr))
    ensures forall v: nat :: ptr.page <= v < ptr.page + PagesBack(h, ptr) ==> Holds(h, v)
  {
    var a := ptr.page;
    if PagesBack(h, ptr) > 0 {
      OneArenaLess(h, Free(h, ptr), a);
    } else {
      LargeIsSome(h, a);
      SameArenas(h, Free(h, ptr));
    }
  }

  lemma LargeIsSome(h: Heap, a: nat)
    requires Core(h) && a in h.arenas
    ensures PagesOf(h.arenas[a]) >= 1
  {
    assert ArenaFits(h, a);
  }

  // ---- what one call undoes ----

  // Freeing what sys_malloc has just returned gives back the page if one was taken, restores every
  // counter, and leaves each class list with the blocks it had.
  lemma FreeUndoesMalloc(h: Heap, size: nat, poolSize: nat, grant: Option<nat>)
    requires Inv(h) && GrantFits(h, size, grant) && Malloc(h, size, poolSize, grant).1.Some?
    ensures var (h1, r) := Malloc(h, size, poolSize, grant);
      Inv(h1) && r.value in h1.live && Restored(h, h1, r.value)
  {
    MallocKeeps(h, size, poolSize, grant);
    if size > MAX_UNIT {
      GrantIsNew(h, grant.value, PagesWanted(h, size));
      UndoLarge(h, size, grant.value);
    } else {
      var k := ClassOf(size);
      SmallKeeps(h, size, grant);
      if h.free[k] == [] {
        GrantIsNew(h, grant.value, 1);
        AllBlocks(grant.value, k);
        assert h.free[k] + BlocksFrom(grant.value, k, 0) == BlocksFrom(grant.value, k, 0);
        UndoNewArena(h, NewArena(h, k, grant.value), k, size, grant.value, BlocksFrom(grant.value, k, 0));
      } else {
        var b := h.free[k][0];
        assert FreeFits(h, k) && b in h.free[k];
        assert ArenaFits(h, b.page) && InUse(h, b.page) && b in FreeOf(h.free[k], b.page);
        UndoTake(h, k, size);
      }
    }
  }

  // Freeing b in h1 leads back to h, up to the order of the class lists.
  ghost predicate Restored(h: Heap, h1: Heap, b: Addr)
    requires |h.free| == MEM_UNIT_CNT
  {
    && |h1.free| == MEM_UNIT_CNT && b.page in h1.arenas
    && (h1.arenas[b.page].Small? ==> h1.arenas[b.page].desc < MEM_UNIT_CNT)
    && (var h2 := Free(h1, b);
        && h2.arenas == h.arenas && h2.live == h.live
        && forall k :: 0 <= k < MEM_UNIT_CNT ==> multiset(h2.free[k]) == multiset(h.free[k]))
  }

  lemma UndoLarge(h: Heap, size: nat, a: nat)
    requires |h.free| == MEM_UNIT_CNT && a !in h.arenas && Addr(a, ARENA_SIZE) !in h.live
    ensures Restored(h,
        h.(arenas := h.arenas[a := Large(PagesWanted(h, size))], live := h.live[Addr(a, ARENA_SIZE) := size]),
      Addr(a, ARENA_SIZE))
  {
  }

  lemma UndoTake(h: Heap, k: nat, size: nat)
    requires |h.free| == MEM_UNIT_CNT && k < MEM_UNIT_CNT && h.free[k] != [] && h.free[k][0] !in h.live
    requires h.free[k][0].page in h.arenas && h.arenas[h.free[k][0].page].Small?
    requires h.arenas[h.free[k][0].page].desc == k
    requires 0 < h.arenas[h.free[k][0].page].freeCnt < Blocks(k)
    ensures Restored(h, Take(h, k, size).0, h.free[k][0])
  {
    assert h.free[k] == [h.free[k][0]] + h.free[k][1..];
  }

  lemma UndoNewArena(h: Heap, h0: Heap, k: nat, size: nat, a: nat, s: seq<Addr>)
    requires |h.free| == MEM_UNIT_CNT && k < MEM_UNIT_CNT && h.free[k] == [] && a !in h.arenas
    requires forall b :: b in h.live ==> b.page != a
    requires s != [] && forall b :: b in s ==> b.page == a
    requires h0 == h.(arenas := h.arenas[a := Small(k, Blocks(k))], free := h.free[k := s])
    ensures Restored(h, Take(h0, k, size).0, s[0])
  {
    assert s[0] in s;
    assert forall c :: c in s[1..] + [s[0]] ==> c in s;
    WithoutAll(s[1..] + [s[0]], a);
    assert h0.arenas - {a} == h.arenas;
    var h2 := Free(Take(h0, k, size).0, s[0]);
    assert h2.arenas == h.arenas && h2.live == h.live && h2.free == h.free;
  }

  lemma {:induction false} WithoutAll(list: seq<Addr>, a: nat)
    requires forall b :: b in list ==> b.page == a
    ensures WithoutArena(list, a) == []
  {
    if list != [] {
      WithoutAll(list[1..], a);
    }
  }

  // ---- the two calls as the kernel runs them; each assert is an ASSERT of the source ----

  // list_remove of a block from its class list.
  function RemoveOne(list: seq<Addr>, b: Addr): seq<Addr> {
    if list == [] then [] else if list[0] == b then list[1..] else [list[0]] + RemoveOne(list[1..], b)
  }

  function Minus(list: seq<Addr>, s: set<Addr>): (r: seq<Addr>)
    ensures forall b :: b in r <==> b in list && b !in s
  {
    if list == [] then [] else if list[0] in s then Minus(list[1..], s) else [list[0]] + Minus(list[1..], s)
  }

  lemma {:induction false} RemoveFromMinus(list: seq<Addr>, s: set<Addr>, b: Addr)
    requires Distinct(list)
    ensures RemoveOne(Minus(list, s), b) == Minus(list, s + {b})
  {
    if list != [] {
      RemoveFromMinus(list[1..], s, b);
      assert list[0] !in list[1..];
      if list[0] == b {
        MinusAbsent(list[1..], s, b);
      }
    }
  }

  lemma {:induction false} MinusAbsent(list: seq<Addr>, s: set<Addr>, b: Addr)
    requires b !in list
    ensures Minus(list, s + {b}) == Minus(list, s)
  {
    if list != [] {
      MinusAbsent(list[1..], s, b);
    }
  }

  lemma {:induction false} MinusArena(list: seq<Addr>, s: set<Addr>, a: nat)
    requires forall b :: b in list ==> (b in s <==> b.page == a)
    ensures Minus(list, s) == WithoutArena(list, a)
  {
    if list != [] {
      MinusArena(list[1..], s, a);
    }
  }

  // The loop of sys_malloc over a new arena: list_append of each block.
  method AppendBlocks(list: seq<Addr>, a: nat, k: nat) returns (r: seq<Addr>)
    requires k < MEM_UNIT_CNT && forall b :: b in list ==> b.page != a
    ensures r == list + BlocksFrom(a, k, 0)
  {
    ghost var s := BlocksFrom(a, k, 0);
    AllBlocks(a, k);
    BlocksFromAre(a, k, 0);
    r := list;
    var i := 0;
    while i < Blocks(k)
      invariant 0 <= i <= |s| && r == list + s[..i]
    {
      var b := BlockAt(a, k, i);
      assert b == s[i] && b !in s[..i];
      assert b.page == a && b !in r;
      r := r + [b];
      assert s[..i + 1] == s[..i] + [b];
      i := i + 1;
    }
    assert s[..i] == s;
  }

  lemma BlocksOfList(list: seq<Addr>, a: nat, k: nat)
    requires k < MEM_UNIT_CNT && forall b :: b in list && b.page == a <==> IsBlock(a, k, b)
    ensures var s := BlocksFrom(a, k, 0);
      Distinct(s) && (forall b :: b in s ==> b in list) && (forall b :: b in list ==> (b in SetOf(s) <==> b.page == a))
  {
    AllBlocks(a, k);
  }

  // The loop of sys_free over a fully free arena: list_remove of each block.
  method RemoveBlocks(list: seq<Addr>, a: nat, k: nat) returns (r: seq<Addr>)
    requires k < MEM_UNIT_CNT && Distinct(list) && forall b :: b in list && b.page == a <==> IsBlock(a, k, b)
    ensures r == WithoutArena(list, a)
  {
    BlocksOfList(list, a, k);
    BlocksFromAre(a, k, 0);
    r := RemoveEach(list, a, k, BlocksFrom(a, k, 0));
  }

  method RemoveEach(list: seq<Addr>, a: nat, k: nat, ghost s: seq<Addr>) returns (r: seq<Addr>)
    requires k < MEM_UNIT_CNT && Distinct(list) && Distinct(s) && |s| == Blocks(k)
    requires (forall i :: 0 <= i < |s| ==> s[i] == BlockAt(a, k, i)) && (forall b :: b in s ==> b in list)
    requires forall b :: b in list ==> (b in SetOf(s) <==> b.page == a)
    ensures r == WithoutArena(list, a)
  {
    MinusNothing(list);
    assert SetOf(s[..0]) == {};
    r := list;
    var i := 0;
    while i < Blocks(k)
      invariant 0 <= i <= |s| && r == Minus(list, SetOf(s[..i]))
    {
      OneLess(list, s, i);
      var b := BlockAt(a, k, i);
      assert b == s[i] && b in r;
      r := RemoveOne(r, b);
      i := i + 1;
    }
    assert s[..i] == s;
    MinusArena(list, SetOf(s), a);
  }

  lemma OneLess(list: seq<Addr>, s: seq<Addr>, i: nat)
    requires Distinct(list) && Distinct(s) && i < |s| && forall b :: b in s ==> b in list
    ensures RemoveOne(Minus(list, SetOf(s[..i])), s[i]) == Minus(list, SetOf(s[..i + 1]))
    ensures s[i] in Minus(list, SetOf(s[..i]))
  {
    RemoveFromMinus(list, SetOf(s[..i]), s[i]);
    assert s[..i + 1] == s[..i] + [s[i]];
    assert SetOf(s[..i + 1]) == SetOf(s[..i]) + {s[i]};
    assert s[i] in s;
  }

  lemma {:induction false} MinusNothing(list: seq<Addr>)
    ensures Minus(list, {}) == list
  {
    if list != [] {
      MinusNothing(list[1..]);
    }
  }

  // When the last block of an arena comes back, its blocks on the list are all its blocks.
  lemma FullyFree(h: Heap, ptr: Addr, k: nat, n: nat)
    requires Inv(h) && ptr in h.live && ptr.page in h.arenas && h.arenas[ptr.page] == Small(k, n) && k < MEM_UNIT_CNT
    ensures ptr !in h.free[k] && Distinct(h.free[k] + [ptr])
    ensures n + 1 == Blocks(k) ==> forall b :: b in h.free[k] + [ptr] && b.page == ptr.page <==> IsBlock(ptr.page, k, b)
  {
    assert InUse(h, ptr.page);
    LiveArena(h, ptr);
    ReturnedKeeps(h, ptr, k, n);
    var h1 := Returned(h, ptr, k, n);
    assert ArenaFits(h1, ptr.page) && FreeFits(h1, k);
    if n + 1 == Blocks(k) {
      AllFree(h1, ptr.page, k);
      AllBlocks(ptr.page, k);
    }
  }
}
