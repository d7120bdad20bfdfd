// kernel/memory.c, lines 554-842, tied together: sys_malloc and sys_free on malloc_page and mfree_page.
module Memory {
  import opened Options
  import opened Bits
  import opened Heap
  import opened Seqs
  import P = Paging

  // The class lists and arenas of a context, physical memory with the two pools, and the bitmap of the
  // context's virtual pages.
  datatype World = World(heap: Heap, space: P.Space, vbits: seq<bool>)

  // ---- the joint invariant ----

  // The heap and the page tables are in order, and the virtual pages in use are those of base, which are
  // not the heap's, and those that arenas hold.
  ghost predicate Joint(w: World, a: P.Area, base: seq<bool>, others: set<nat>) {
    Inv(w.heap) && P.Inv(w.space, a, w.vbits, others) && PagesAgree(w.heap, w.vbits, a, base)
  }

  ghost predicate PagesAgree(h: Heap, b: seq<bool>, a: P.Area, base: seq<bool>) {
    && |b| == |base|
    && (forall i: nat {:trigger b[i]} :: i < |base| ==> (b[i] <==> base[i] || Holds(h, P.Vp(a, i))))
    && (forall v: nat :: Holds(h, v) ==> HeapPage(v, a, base))
  }

  ghost predicate HeapPage(v: nat, a: P.Area, base: seq<bool>) {
    a.First() <= v < a.First() + |base| && !base[v - a.First()]
  }

  lemma HeldIsMarked(h: Heap, b: seq<bool>, a: P.Area, base: seq<bool>, v: nat)
    requires PagesAgree(h, b, a, base) && Holds(h, v)
    ensures HeapPage(v, a, base) && b[v - a.First()]
  {
    assert P.Vp(a, v - a.First()) == v;
  }

  // Every byte of a live allocation lies in a page that is marked and mapped to a frame given out for it.
  lemma LiveIsMapped(w: World, a: P.Area, base: seq<bool>, others: set<nat>, b: Addr, x: nat)
    requires Joint(w, a, base, others) && b in w.heap.live && Linear(b) <= x < Linear(b) + w.heap.live[b]
    ensures HeapPage(x / PG_SIZE, a, base)
    ensures var i := x / PG_SIZE - a.First();
      w.vbits[i] && P.EntryAt(w.space, a, i).present && P.Given(w.space, a, others, P.EntryAt(w.space, a, i).frame)
  {
    LiveIsSound(w.heap, b);
    var v := x / PG_SIZE;
    PageOfByte(b, PagesOf(w.heap.arenas[b.page]), w.heap.live[b], x);
    HeldIsMarked(w.heap, w.vbits, a, base, v);
  }

  lemma PageOfByte(b: Addr, pageCnt: nat, size: nat, x: nat)
    requires Linear(b) + size <= (b.page + pageCnt) * PG_SIZE && Linear(b) <= x < Linear(b) + size
    ensures b.page <= x / PG_SIZE < b.page + pageCnt
  {
  }

  // ---- what malloc_page gives and mfree_page takes ----

  // The pages that a call asks malloc_page for.
  function AsksFor(h: Heap, size: nat, poolSize: nat): nat
    requires |h.free| == MEM_UNIT_CNT
  {
    if size == 0 || poolSize <= size then 0 else PagesWanted(h, size)
  }

  // The page that malloc_page returns for n pages: the first fit.
  function GrantOf(b: seq<bool>, a: P.Area, n: nat): Option<nat> {
    if n == 0 then None
    else
      var r := FirstRun(b, n, 0);
      if r.Start? then Some(P.Vp(a, r.idx)) else None
  }

  // A run of pages was marked and mapped, and nothing else changed.
  ghost predicate Taken(w: World, w': World, a: P.Area, first: nat, n: nat, others: set<nat>) {
    && first + n <= |w.vbits| && w'.vbits == Mark(w.vbits, first, n, true)
    && P.Inv(w'.space, a, w'.vbits, others) && P.Grown(w.space, w'.space, a, |w.vbits|, first, n, others)
  }

  // A run of pages was unmapped and unmarked, and nothing else changed.
  ghost predicate Given(w: World, w': World, a: P.Area, first: nat, n: nat, others: set<nat>) {
    && first + n <= |w.vbits| && w'.vbits == Mark(w.vbits, first, n, false)
    && P.Inv(w'.space, a, w'.vbits, others) && P.Grown(w.space, w'.space, a, |w.vbits|, first, n, others)
  }

  ghost predicate SamePages(w: World, w': World) {
    w'.space == w.space && w'.vbits == w.vbits
  }

  // A first fit of clear bits is a run of pages that no arena holds.
  lemma GrantIsFresh(w: World, a: P.Area, base: seq<bool>, first: nat, n: nat)
    requires Inv(w.heap) && PagesAgree(w.heap, w.vbits, a, base) && ClearRun(w.vbits, first, n) && n > 0
    ensures IsGrant(w.heap, P.Vp(a, first), n)
  {
    var g := P.Vp(a, first);
    forall c | c in w.heap.arenas
      ensures g + n <= c || c + PagesOf(w.heap.arenas[c]) <= g
    {
      LargeIsSome(w.heap, c);
      if c < g + n && g < c + PagesOf(w.heap.arenas[c]) {
        var v := if g <= c then c else g;
        HeldIsMarked(w.heap, w.vbits, a, base, v);
      }
    }
  }

  // ---- sys_malloc ----

  // A call that hands out ptr.
  ghost predicate Allocated(w: World, w': World, a: P.Area, size: nat, poolSize: nat, ptr: Addr, others: set<nat>)
    requires |w.heap.free| == MEM_UNIT_CNT
  {
    var n := AsksFor(w.heap, size, poolSize);
    && (w'.heap, Some(ptr)) == Malloc(w.heap, size, poolSize, GrantOf(w.vbits, a, n))
    && if n == 0 then SamePages(w, w') else
         var r := FirstRun(w.vbits, n, 0); r.Start? && Taken(w, w', a, r.idx, n, others)
  }

  // sys_malloc returns NULL.
  ghost predicate Refused(w: World, size: nat, poolSize: nat, next: bool)
    requires |w.heap.free| == MEM_UNIT_CNT
  {
    size == 0 || poolSize <= size || P.NoFit(w.vbits, next, AsksFor(w.heap, size, poolSize))
  }

  // sys_malloc hands out a block: a free one is at hand, or malloc_page has the pages and frames.
  ghost predicate Granted(w: World, a: P.Area, size: nat, poolSize: nat)
    requires |w.heap.free| == MEM_UNIT_CNT && P.Fits(a, |w.vbits|)
  {
    var n := AsksFor(w.heap, size, poolSize);
    0 < size < poolSize && (n == 0 || P.CanAllocate(w.space, a, w.vbits, n))
  }

  lemma AllocatedKeeps(w: World, w': World, a: P.Area, size: nat, poolSize: nat, ptr: Addr, base: seq<bool>,
      others: set<nat>)
    requires Joint(w, a, base, others) && Allocated(w, w', a, size, poolSize, ptr, others)
    ensures Joint(w', a, base, others)
    ensures ptr !in w.heap.live && w'.heap.live == w.heap.live[ptr := size]
  {
    var n := AsksFor(w.heap, size, poolSize);
    var grant := GrantOf(w.vbits, a, n);
    if n > 0 {
      GrantIsFresh(w, a, base, FirstRun(w.vbits, n, 0).idx, n);
    }
    MallocKeeps(w.heap, size, poolSize, grant);
    MallocHolds(w.heap, size, poolSize, grant);
    if n > 0 {
      TakenAgrees(w, w', a, base, FirstRun(w.vbits, n, 0).idx, n);
    }
  }

  // The same of the new heap's fields: which block, of which arena, and what is left on the class list.
  ghost predicate HandsOut(h: Heap, h': Heap, size: nat, ptr: Addr)
    requires |h.free| == MEM_UNIT_CNT
  {
    && (size > MAX_UNIT ==> TookPages(h, (h', Some(ptr)), size, ptr.page))
    && (forall k: nat :: size <= MAX_UNIT && SmallestClass(k, size) ==>
          if h.free[k] == [] then TookFirst(h, (h', Some(ptr)), k, ptr.page) else TookFront(h, (h', Some(ptr)), k))
  }

  lemma AllocatedIs(w: World, w': World, a: P.Area, size: nat, poolSize: nat, ptr: Addr, base: seq<bool>,
      others: set<nat>)
    requires Joint(w, a, base, others) && Allocated(w, w', a, size, poolSize, ptr, others)
    ensures HandsOut(w.heap, w'.heap, size, ptr)
  {
    var n := AsksFor(w.heap, size, poolSize);
    var grant := GrantOf(w.vbits, a, n);
    if n > 0 {
      GrantIsFresh(w, a, base, FirstRun(w.vbits, n, 0).idx, n);
    }
    MallocIs(w.heap, size, poolSize, grant, 0);
    forall k: nat | size <= MAX_UNIT && SmallestClass(k, size)
      ensures if w.heap.free[k] == [] then TookFirst(w.heap, (w'.heap, Some(ptr)), k, ptr.page)
        else TookFront(w.heap, (w'.heap, Some(ptr)), k)
    {
      MallocIs(w.heap, size, poolSize, grant, k);
    }
  }

  // A large allocation fails exactly when the least number of pages that holds it finds no run, and is
  // made exactly when malloc_page can allocate that many.
  ghost predicate LargeVerdict(w: World, a: P.Area, size: nat, next: bool, r: Result)
    requires P.Fits(a, |w.vbits|)
  {
    forall n: nat :: LeastPages(n, size) ==>
      (r == Null <==> P.NoFit(w.vbits, next, n)) && (r.Block? <==> P.CanAllocate(w.space, a, w.vbits, n))
  }

  // A small one asks for one page, and only when its class list is empty.
  ghost predicate SmallVerdict(w: World, a: P.Area, size: nat, next: bool, r: Result)
    requires P.Fits(a, |w.vbits|) && |w.heap.free| == MEM_UNIT_CNT
  {
    forall k: nat :: SmallestClass(k, size) ==>
      if w.heap.free[k] != [] then r.Block?
      else (r == Null <==> P.NoFit(w.vbits, next, 1)) && (r.Block? <==> P.CanAllocate(w.space, a, w.vbits, 1))
  }

  lemma VerdictIs(w: World, a: P.Area, size: nat, poolSize: nat, next: bool, r: Result)
    requires Inv(w.heap) && P.Fits(a, |w.vbits|) && 0 < size < poolSize
    requires r == Null <==> Refused(w, size, poolSize, next)
    requires r.Block? <==> Granted(w, a, size, poolSize)
    ensures if size > MAX_UNIT then LargeVerdict(w, a, size, next, r) else SmallVerdict(w, a, size, next, r)
  {
    forall n: nat | size > MAX_UNIT && LeastPages(n, size)
      ensures n == AsksFor(w.heap, size, poolSize) > 0
    {
      PagesWantedIs(w.heap, size, n, 0);
    }
    forall k: nat | size <= MAX_UNIT && SmallestClass(k, size)
      ensures AsksFor(w.heap, size, poolSize) == if w.heap.free[k] == [] then 1 else 0
    {
      PagesWantedIs(w.heap, size, AsksFor(w.heap, size, poolSize), k);
    }
  }

  lemma TakenAgrees(w: World, w': World, a: P.Area, base: seq<bool>, first: nat, n: nat)
    requires PagesAgree(w.heap, w.vbits, a, base) && ClearRun(w.vbits, first, n)
    requires w'.vbits == Mark(w.vbits, first, n, true)
    requires forall v: nat :: Holds(w'.heap, v) <==> Holds(w.heap, v) || P.Vp(a, first) <= v < P.Vp(a, first) + n
    ensures PagesAgree(w'.heap, w'.vbits, a, base)
  {
    forall v: nat | Holds(w'.heap, v)
      ensures HeapPage(v, a, base)
    {
      if !Holds(w.heap, v) {
        assert !w.vbits[v - a.First()];
      }
    }
  }

  // ---- sys_free ----

  ghost predicate Freed(w: World, w': World, a: P.Area, ptr: Addr, others: set<nat>)
    requires Inv(w.heap) && ptr in w.heap.live
  {
    FreeKeeps(w.heap, ptr);
    var n := PagesBack(w.heap, ptr);
    && w'.heap == Free(w.heap, ptr)
    && if n == 0 then SamePages(w, w') else
         ptr.page >= a.First() && Given(w, w', a, ptr.page - a.First(), n, others)
  }

  // The same of the new heap's fields.
  ghost predicate HandsBack(h: Heap, h': Heap, ptr: Addr)
    requires |h.free| == MEM_UNIT_CNT
  {
    && h'.live == h.live - {ptr} && ptr.page in h.arenas
    && (h.arenas[ptr.page].Small? ==> h.arenas[ptr.page].desc < MEM_UNIT_CNT) && GaveBack(h, h', ptr)
  }

  lemma FreedKeeps(w: World, w': World, a: P.Area, ptr: Addr, base: seq<bool>, others: set<nat>)
    requires Joint(w, a, base, others) && ptr in w.heap.live && Freed(w, w', a, ptr, others)
    ensures Joint(w', a, base, others)
    ensures w'.heap.live == w.heap.live - {ptr}
  {
    FreeKeeps(w.heap, ptr);
    FreeHolds(w.heap, ptr);
    if PagesBack(w.heap, ptr) > 0 {
      GivenAgrees(w, w', a, base, ptr.page, PagesBack(w.heap, ptr));
    }
  }

  lemma GivenAgrees(w: World, w': World, a: P.Area, base: seq<bool>, page: nat, n: nat)
    requires PagesAgree(w.heap, w.vbits, a, base) && page >= a.First() && page - a.First() + n <= |w.vbits|
    requires w'.vbits == Mark(w.vbits, page - a.First(), n, false)
    requires forall v: nat :: Holds(w'.heap, v) <==> Holds(w.heap, v) && !(page <= v < page + n)
    requires forall v: nat :: page <= v < page + n ==> Holds(w.heap, v)
    ensures PagesAgree(w'.heap, w'.vbits, a, base)
  {
    forall i: nat | i < |base|
      ensures w'.vbits[i] <==> base[i] || Holds(w'.heap, P.Vp(a, i))
    {
      assert Holds(w.heap, P.Vp(a, i)) ==> HeapPage(P.Vp(a, i), a, base);
    }
  }

  // The pages that mfree_page gets are an arena's, and so all in use.
  lemma BackIsInUse(w: World, a: P.Area, base: seq<bool>, others: set<nat>, ptr: Addr)
    requires Joint(w, a, base, others) && ptr in w.heap.live && PagesBack(w.heap, ptr) > 0
    ensures var n := PagesBack(w.heap, ptr);
      ptr.page >= a.First() && ptr.page - a.First() + n <= |w.vbits|
      && forall i :: ptr.page - a.First() <= i < ptr.page - a.First() + n ==> w.vbits[i]
  {
    FreeKeeps(w.heap, ptr);
    FreeHolds(w.heap, ptr);
    BackIsMarked(w.heap, w.vbits, a, base, ptr.page, PagesBack(w.heap, ptr));
  }

  lemma BackIsMarked(h: Heap, b: seq<bool>, a: P.Area, base: seq<bool>, page: nat, n: nat)
    requires PagesAgree(h, b, a, base) && n > 0 && forall v: nat :: page <= v < page + n ==> Holds(h, v)
    ensures page >= a.First() && page - a.First() + n <= |b|
    ensures forall i :: page - a.First() <= i < page - a.First() + n ==> b[i]
  {
    HeldIsMarked(h, b, a, base, page);
    HeldIsMarked(h, b, a, base, page + n - 1);
    forall i | page - a.First() <= i < page - a.First() + n
      ensures b[i]
    {
      HeldIsMarked(h, b, a, base, P.Vp(a, i));
    }
  }

  // ---- the two calls as the kernel runs them; each assert is an ASSERT of the source ----

  // Stopped is a failing ASSERT in malloc_page; OffTheEnd a virtual page behind the bitmap.
  datatype Result = Null | Stopped | OffTheEnd | Block(ptr: Addr)

  class Allocator {
    var free: seq<seq<Addr>>
    var arenas: map<nat, Arena>
    ghost var live: map<Addr, nat>
    const pager: P.Pager

    ghost function Abs(): Heap
      reads this
    {
      Heap(free, arenas, live)
    }

    ghost function W(): World
      reads this, pager
    {
      World(Abs(), pager.S(), pager.vbits)
    }

    ghost predicate Ready(base: seq<bool>, others: set<nat>)
      reads this, pager
    {
      pager.PoolsApart() && Joint(W(), pager.a, base, others)
    }

    // block_desc_init.
    constructor (pager: P.Pager, ghost others: set<nat>)
      requires pager.PoolsApart() && P.Inv(pager.S(), pager.a, pager.vbits, others)
      ensures this.pager == pager && W() == World(EMPTY, pager.S(), pager.vbits) && Ready(pager.vbits, others)
    {
      free := [[], [], [], [], [], [], []];
      arenas := map[];
      live := map[];
      this.pager := pager;
    }

    // malloc_page, called with this heap as it is.
    method GetPages(n: nat, next: bool, ghost base: seq<bool>, ghost others: set<nat>) returns (r: P.PageResult)
      requires Ready(base, others) && n > 0
      modifies pager
      ensures r.Pages? <==> P.CanAllocate(old(pager.S()), pager.a, old(pager.vbits), n)
      ensures r.Null? <==> P.NoFit(old(pager.vbits), next, n)
      ensures r.OffTheEnd? <==> P.FitsBehind(old(pager.vbits), next, n)
      ensures r.Null? ==> W() == old(W())
      ensures r.Pages? ==> FirstRun(old(pager.vbits), n, 0) == Start(r.first) && pager.PoolsApart()
      ensures r.Pages? ==>
          Taken(old(W()), W(), pager.a, r.first, n, others) && IsGrant(Abs(), P.Vp(pager.a, r.first), n)
    {
      ghost var w := W();
      r := pager.MallocPage(n, next, others);
      if r.Pages? {
        assert P.CanMap(w.space, pager.a, w.vbits, n, r.first);
        OneFirstFit(w.vbits, n, Start(r.first), FirstRun(w.vbits, n, 0));
        GrantIsFresh(w, pager.a, base, r.first, n);
      } else {
        assert forall first: nat :: r != P.Pages(first);
      }
    }

    // Cut the page of a new arena into blocks, each at the end of the class list.
    method Split(a: nat, k: nat)
      requires Inv(Abs()) && k < MEM_UNIT_CNT && IsGrant(Abs(), a, 1)
      modifies this`free, this`arenas
      ensures Abs() == NewArena(old(Abs()), k, a)
    {
      GrantIsNew(Abs(), a, 1);
      assert FreeFits(Abs(), k);
      arenas := arenas[a := Small(k, Blocks(k))];
      var list := AppendBlocks(free[k], a, k);
      free := free[k := list];
    }

    // The classes are tried in order.
    method FindClass(size: nat) returns (k: nat)
      requires size <= MAX_UNIT
      ensures k == ClassOf(size)
    {
      k := 0;
      while k < MEM_UNIT_CNT
        invariant k <= ClassOf(size)
        decreases MEM_UNIT_CNT - k
      {
        if size <= BlockSize(k) {
          return;
        }
        k := k + 1;
      }
    }

    // The front block of a class list is handed out.
    method TakeFront(k: nat, size: nat) returns (b: Addr)
      requires Core(Abs()) && k < MEM_UNIT_CNT && free[k] != []
      modifies this
      ensures (Abs(), Some(b)) == Take(old(Abs()), k, size)
    {
      FrontIs(Abs(), k);
      b := free[k][0];
      free := free[k := free[k][1..]];
      var a := b.page;
      arenas := arenas[a := Small(k, arenas[a].freeCnt - 1)];
      live := live[b := size];
    }

    // It fails on a size of 0 or of the whole pool, or when malloc_page finds no room; it stops where
    // malloc_page does; and otherwise it hands out a block.
    method SysMalloc(size: nat, poolSize: nat, next: bool, ghost base: seq<bool>, ghost others: set<nat>)
      returns (r: Result)
      requires Ready(base, others)
      modifies this, pager
      ensures r == Null <==> Refused(old(W()), size, poolSize, next)
      ensures r == OffTheEnd <==> P.FitsBehind(old(pager.vbits), next, AsksFor(old(Abs()), size, poolSize))
      ensures r.Block? <==> Granted(old(W()), pager.a, size, poolSize)
      ensures r.Null? ==> W() == old(W())
      ensures r.Block? ==> Allocated(old(W()), W(), pager.a, size, poolSize, r.ptr, others)
      ensures r.Null? || r.Block? ==> Ready(base, others)
      ensures r.Block? ==> HandsOut(old(Abs()), Abs(), size, r.ptr)
      ensures size == 0 || poolSize <= size ==> r == Null
      ensures MAX_UNIT < size < poolSize ==> LargeVerdict(old(W()), pager.a, size, next, r)
      ensures 0 < size < poolSize && size <= MAX_UNIT ==> SmallVerdict(old(W()), pager.a, size, next, r)
    {
      if size <= 0 || poolSize <= size {
        return Null;
      }
      ghost var w := W();
      if size > MAX_UNIT {
        r := MallocLarge(size, poolSize, next, base, others);
      } else {
        r := MallocSmall(size, poolSize, next, base, others);
      }
      if r.Block? {
        AllocatedKeeps(w, W(), pager.a, size, poolSize, r.ptr, base, others);
        AllocatedIs(w, W(), pager.a, size, poolSize, r.ptr, base, others);
      }
      VerdictIs(w, pager.a, size, poolSize, next, r);
    }

    // Whole pages.
    method MallocLarge(size: nat, poolSize: nat, next: bool, ghost base: seq<bool>, ghost others: set<nat>)
      returns (r: Result)
      requires Ready(base, others) && MAX_UNIT < size < poolSize
      modifies this, pager
      ensures r == Null <==> Refused(old(W()), size, poolSize, next)
      ensures r == OffTheEnd <==> P.FitsBehind(old(pager.vbits), next, AsksFor(old(Abs()), size, poolSize))
      ensures r.Block? <==> Granted(old(W()), pager.a, size, poolSize)
      ensures r.Null? ==> W() == old(W())
      ensures r.Block? ==>
        Allocated(old(W()), W(), pager.a, size, poolSize, r.ptr, others) && pager.PoolsApart()
    {
      var pageCnt := DivCeiling(size + ARENA_SIZE, PG_SIZE);
      var pages := GetPages(pageCnt, next, base, others);
      if !pages.Pages? {
        return Failure(pages);
      }
      var a := P.Vp(pager.a, pages.first);
      arenas := arenas[a := Large(pageCnt)];
      live := live[Addr(a, ARENA_SIZE) := size];
      r := Block(Addr(a, ARENA_SIZE));
    }

    // A block of the class, from a new arena when its list is empty.
    method MallocSmall(size: nat, poolSize: nat, next: bool, ghost base: seq<bool>, ghost others: set<nat>)
      returns (r: Result)
      requires Ready(base, others) && 0 < size <= MAX_UNIT && size < poolSize
      modifies this, pager
      ensures r == Null <==> Refused(old(W()), size, poolSize, next)
      ensures r == OffTheEnd <==> P.FitsBehind(old(pager.vbits), next, AsksFor(old(Abs()), size, poolSize))
      ensures r.Block? <==> Granted(old(W()), pager.a, size, poolSize)
      ensures r.Null? ==> W() == old(W())
      ensures r.Block? ==>
        Allocated(old(W()), W(), pager.a, size, poolSize, r.ptr, others) && pager.PoolsApart()
    {
      var k := FindClass(size);
      if free[k] == [] {
        var pages := GetPages(1, next, base, others);
        if !pages.Pages? {
          return Failure(pages);
        }
        var a := P.Vp(pager.a, pages.first);
        NewArenaKeeps(Abs(), k, a);
        Split(a, k);
      }
      var b := TakeFront(k, size);
      r := Block(b);
    }

    // Take every block of a fully free arena off its class list.
    method Unlink(a: nat, k: nat)
      requires |free| == MEM_UNIT_CNT && k < MEM_UNIT_CNT && Distinct(free[k])
      requires forall b :: b in free[k] && b.page == a <==> IsBlock(a, k, b)
      modifies this`free
      ensures free == old(free)[k := WithoutArena(old(free)[k], a)]
    {
      var list := RemoveBlocks(free[k], a, k);
      free := free[k := list];
    }

    // ptr is a pointer that sys_malloc returned and nobody freed since.
    method SysFree(ptr: Addr, ghost base: seq<bool>, ghost others: set<nat>)
      requires Ready(base, others) && ptr in live
      modifies this, pager
      ensures Freed(old(W()), W(), pager.a, ptr, others) && Ready(base, others)
      ensures HandsBack(old(Abs()), Abs(), ptr)
    {
      ghost var w := W();
      InHeapArea(w, pager.a, base, others, ptr);
      assert !pager.a.user ==> Linear(ptr) >= 0xC0100000;    // the ASSERT on K_HEAP_START
      var pageCnt := TakeBack(ptr);
      if pageCnt > 0 {
        BackIsInUse(w, pager.a, base, others, ptr);
        var ok := pager.MfreePage(ptr.page - pager.a.First(), pageCnt, others);
        assert ok;
      }
      FreedKeeps(w, W(), pager.a, ptr, base, others);
      FreeIs(w.heap, ptr);
    }

    // What sys_free does to arenas and lists; the result is what it hands to mfree_page.
    method TakeBack(ptr: Addr) returns (pageCnt: nat)
      requires Inv(Abs()) && ptr in live && ptr.page in arenas
      requires arenas[ptr.page].Small? ==> arenas[ptr.page].desc < MEM_UNIT_CNT
      modifies this
      ensures Abs() == Free(old(Abs()), ptr) && pageCnt == PagesBack(old(Abs()), ptr)
    {
      var a := ptr.page;
      match arenas[a] {
        case Large(n) =>
          live := live - {ptr};
          arenas := arenas - {a};
          return n;
        case Small(k, n) =>
          FullyFree(Abs(), ptr, k, n);
          FreeSmall(ptr, k, n);
          return if n + 1 == Blocks(k) then 1 else 0;
      }
    }

    // The list and the counter of a small block's class; a fully free arena leaves the lists.
    method FreeSmall(ptr: Addr, k: nat, n: nat)
      requires |free| == MEM_UNIT_CNT && k < MEM_UNIT_CNT && ptr.page in arenas && arenas[ptr.page] == Small(k, n)
      requires ptr !in free[k] && Distinct(free[k] + [ptr])
      requires n + 1 == Blocks(k) ==>
        forall b :: b in free[k] + [ptr] && b.page == ptr.page <==> IsBlock(ptr.page, k, b)
      modifies this
      ensures Abs() == Free(old(Abs()), ptr)
    {
      var a := ptr.page;
      live := live - {ptr};
      free := free[k := free[k] + [ptr]];
      arenas := arenas[a := Small(k, n + 1)];
      if n + 1 == Blocks(k) {
        Unlink(a, k);
        arenas := arenas - {a};
      }
    }
  }

  function Failure(r: P.PageResult): Result
    requires !r.Pages?
  {
    match r
    case Null => Null
    case OffTheEnd => OffTheEnd
    case _ => Stopped
  }

  lemma InHeapArea(w: World, a: P.Area, base: seq<bool>, others: set<nat>, ptr: Addr)
    requires Joint(w, a, base, others) && ptr in w.heap.live
    ensures ptr.page in w.heap.arenas && ptr.page >= a.First()
    ensures w.heap.arenas[ptr.page].Small? ==> w.heap.arenas[ptr.page].desc < MEM_UNIT_CNT
  {
    FreeKeeps(w.heap, ptr);
    LargeIsSome(w.heap, ptr.page);
    assert Holds(w.heap, ptr.page);
    HeldIsMarked(w.heap, w.vbits, a, base, ptr.page);
  }

  // ---- runs ----

  datatype Call = MallocCall(size: nat, next: bool) | FreeCall(ptr: Addr)

  // One call that returns: sys_malloc with a block or with NULL, sys_free of a live pointer.
  ghost predicate Step(w: World, c: Call, w': World, a: P.Area, poolSize: nat, others: set<nat>)
    requires Inv(w.heap)
  {
    match c
    case MallocCall(size, next) =>
      || (w' == w && Refused(w, size, poolSize, next))
      || exists ptr :: Allocated(w, w', a, size, poolSize, ptr, others)
    case FreeCall(ptr) => ptr in w.heap.live && Freed(w, w', a, ptr, others)
  }

  lemma StepKeeps(w: World, c: Call, w': World, a: P.Area, poolSize: nat, base: seq<bool>, others: set<nat>)
    requires Joint(w, a, base, others) && Step(w, c, w', a, poolSize, others)
    ensures Joint(w', a, base, others) && Kept(w.space, w'.space, a, base, others)
  {
    match c
    case MallocCall(size, next) =>
      if w' != w {
        var ptr :| Allocated(w, w', a, size, poolSize, ptr, others);
        AllocatedKeeps(w, w', a, size, poolSize, ptr, base, others);
        AllocatedLeaves(w, w', a, size, poolSize, ptr, base, others);
      }
    case FreeCall(ptr) =>
      FreedKeeps(w, w', a, ptr, base, others);
      FreedLeaves(w, w', a, ptr, base, others);
  }

  // Pages that are not the heap's keep their entries, foreign frames their contents, and tables stay.
  ghost predicate Kept(s: P.Space, s': P.Space, a: P.Area, base: seq<bool>, others: set<nat>) {
    && P.Fits(a, |base|) && P.LeavesAlone(s, s', a, others) && P.SameRanges(s, s')
    && forall i: nat :: i < |base| && base[i] ==> P.EntryAt(s', a, i) == P.EntryAt(s, a, i)
  }

  lemma AllocatedLeaves(w: World, w': World, a: P.Area, size: nat, poolSize: nat, ptr: Addr, base: seq<bool>,
      others: set<nat>)
    requires Joint(w, a, base, others) && Allocated(w, w', a, size, poolSize, ptr, others)
    ensures Kept(w.space, w'.space, a, base, others)
  {
    var n := AsksFor(w.heap, size, poolSize);
    if n > 0 {
      var first := FirstRun(w.vbits, n, 0).idx;
      forall i: nat | i < |base| && base[i]
        ensures !(first <= i < first + n)
      {
        assert w.vbits[i];
      }
    }
  }

  lemma FreedLeaves(w: World, w': World, a: P.Area, ptr: Addr, base: seq<bool>, others: set<nat>)
    requires Joint(w, a, base, others) && ptr in w.heap.live && Freed(w, w', a, ptr, others)
    ensures Kept(w.space, w'.space, a, base, others)
  {
    FreeKeeps(w.heap, ptr);
    FreeHolds(w.heap, ptr);
    var n := PagesBack(w.heap, ptr);
    if n > 0 {
      forall i: nat | i < |base| && base[i]
        ensures !(ptr.page - a.First() <= i < ptr.page - a.First() + n)
      {
        if ptr.page - a.First() <= i < ptr.page - a.First() + n {
          NotHeapPage(w.heap, w.vbits, a, base, i);
        }
      }
    }
  }

  lemma NotHeapPage(h: Heap, b: seq<bool>, a: P.Area, base: seq<bool>, i: nat)
    requires PagesAgree(h, b, a, base) && i < |base| && base[i]
    ensures !Holds(h, P.Vp(a, i))
  {
  }

  // ws are the states of a run, calls the calls between them.
  ghost predicate IsRun(ws: seq<World>, calls: seq<Call>, a: P.Area, poolSize: nat, base: seq<bool>, others: set<nat>) {
    && |ws| == |calls| + 1 && Joint(ws[0], a, base, others)
    && forall i {:trigger calls[i]} :: 0 <= i < |calls| ==>
         Inv(ws[i].heap) && Step(ws[i], calls[i], ws[i + 1], a, poolSize, others)
  }

  // Over every run of calls from a state in order: arenas, counters, class lists, bitmaps and page tables
  // agree in each state, and what is not the heap's is left alone.
  lemma {:induction false} RunIsSafe(ws: seq<World>, calls: seq<Call>, a: P.Area, poolSize: nat, base: seq<bool>,
      others: set<nat>, i: nat)
    requires IsRun(ws, calls, a, poolSize, base, others) && i < |ws|
    ensures Sound(ws[0], ws[i], a, base, others)
  {
    if i == 0 {
      KeptAtFirst(ws[0], a, base, others);
    } else {
      RunIsSafe(ws, calls, a, poolSize, base, others, i - 1);
      var c := calls[i - 1];
      SoundOn(ws[0], ws[i - 1], c, ws[i], a, poolSize, base, others);
    }
  }

  // A state of a run from w0: in order, and nobody else's pages changed.
  ghost predicate Sound(w0: World, w: World, a: P.Area, base: seq<bool>, others: set<nat>) {
    Joint(w, a, base, others) && Kept(w0.space, w.space, a, base, others)
  }

  lemma KeptAtFirst(w: World, a: P.Area, base: seq<bool>, others: set<nat>)
    requires Joint(w, a, base, others)
    ensures Sound(w, w, a, base, others)
  {
  }

  lemma SoundOn(w0: World, w: World, c: Call, w': World, a: P.Area, poolSize: nat, base: seq<bool>, others: set<nat>)
    requires Sound(w0, w, a, base, others) && Step(w, c, w', a, poolSize, others)
    ensures Sound(w0, w', a, base, others)
  {
    StepKeeps(w, c, w', a, poolSize, base, others);
    KeptOn(w0.space, w.space, w'.space, a, base, others);
  }

  // What that means: allocations are disjoint, free_cnt counts the arena's blocks on its class list and
  // not all of them are there, and every page of an arena is marked and present.
  lemma HeapSafe(ws: seq<World>, calls: seq<Call>, a: P.Area, poolSize: nat, base: seq<bool>, others: set<nat>, i: nat)
    requires IsRun(ws, calls, a, poolSize, base, others) && i < |ws|
    ensures LiveApart(ws[i].heap) && CountsRight(ws[i].heap) && HeldIsPresent(ws[i], a)
  {
    RunIsSafe(ws, calls, a, poolSize, base, others, i);
    HeapNow(ws[i].heap);
    forall v: nat | Holds(ws[i].heap, v)
      ensures PresentPage(ws[i], a, v)
    {
      HeldIsMarked(ws[i].heap, ws[i].vbits, a, base, v);
    }
  }

  ghost predicate HeldIsPresent(w: World, a: P.Area) {
    forall v: nat :: Holds(w.heap, v) ==> PresentPage(w, a, v)
  }

  ghost predicate PresentPage(w: World, a: P.Area, v: nat) {
    && a.First() <= v < a.First() + |w.vbits| && w.vbits[v - a.First()]
    && P.Covers(a, P.Vp(a, v - a.First())) && P.EntryAt(w.space, a, v - a.First()).present
  }

  lemma KeptOn(s0: P.Space, s1: P.Space, s2: P.Space, a: P.Area, base: seq<bool>, others: set<nat>)
    requires Kept(s0, s1, a, base, others) && Kept(s1, s2, a, base, others)
    ensures Kept(s0, s2, a, base, others)
  {
  }

  // A run that started with an empty heap, at any point where everything has been freed again: the
  // virtual bitmap is what it was, the same pages are present, and the same frames are in use, but for
  // those that have become page tables.
  lemma NothingLiveNothingChanged(ws: seq<World>, calls: seq<Call>, a: P.Area, poolSize: nat, base: seq<bool>,
      others: set<nat>, i: nat)
    requires IsRun(ws, calls, a, poolSize, base, others) && i < |ws|
    requires ws[0].heap.live == map[] && ws[i].heap.live == map[]
    ensures ws[i].vbits == ws[0].vbits && ws[i].heap.arenas == map[]
    ensures forall j: nat :: j < |base| ==>
      (P.EntryAt(ws[i].space, a, j).present <==> P.EntryAt(ws[0].space, a, j).present)
    ensures forall f ::
      P.Used(ws[i].space, a, f) <==> P.Used(ws[0].space, a, f) || P.NewTable(ws[0].space, ws[i].space, a, f)
  {
    RunIsSafe(ws, calls, a, poolSize, base, others, i);
    EmptyIsBase(ws[0], a, base, others);
    EmptyIsBase(ws[i], a, base, others);
    forall f
      ensures P.Used(ws[i].space, a, f) <==> P.Used(ws[0].space, a, f) || P.NewTable(ws[0].space, ws[i].space, a, f)
    {
      P.SameUse(ws[0].space, ws[i].space, a, base, others, f);
    }
  }

  lemma EmptyIsBase(w: World, a: P.Area, base: seq<bool>, others: set<nat>)
    requires Joint(w, a, base, others) && w.heap.live == map[]
    ensures w.vbits == base && w.heap.arenas == map[]
  {
    NothingLiveNothingHeld(w.heap);
    assert forall v: nat :: !Holds(w.heap, v);
    assert forall i: nat :: i < |base| ==> w.vbits[i] == base[i];
  }
}
