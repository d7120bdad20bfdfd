// userprog/fork.c, copy_body_stack3: the child's copy of the parent's pages.
module ForkSpace {
  import opened Bits
  import opened Paging

  // The same memory through another directory: page_dir_activate.
  function Through(s: Space, dir: nat): Space {
    s.(dir := dir)
  }

  // ---- writing to a mapped page ----

  // The two states have the same tables and pools, whatever the pages hold.
  ghost predicate SameMaps(s: Space, s': Space, a: Area, n: nat) {
    && s'.kpool == s.kpool && s'.upool == s.upool && SameTables(s, s', a)
    && (forall f :: IsTable(s', a, f) <==> IsTable(s, a, f))
    && Fits(a, n) && forall j: nat :: j < n ==> EntryAt(s', a, j) == EntryAt(s, a, j)
  }

  lemma SameMapsInv(s: Space, s': Space, a: Area, m: seq<bool>, others: set<nat>)
    requires SameMaps(s, s', a, |m|) && Inv(s, a, m, others)
    ensures Inv(s', a, m, others)
  {
    SamePools(s, s', a);
    forall f | Used(s', a, f)
      ensures f in others || f == s'.dir || IsTable(s', a, f) || Mapped(s', a, m, f)
    {
      if Mapped(s, a, m, f) {
        var i: nat :| i < |m| && m[i] && EntryAt(s, a, i).frame == f;
        assert EntryAt(s', a, i).frame == f;
      }
    }
  }

  function PutPage(s: Space, f: nat, page: Page): Space {
    s.(mem := s.mem[f := page])
  }

  lemma PutPageIs(s: Space, a: Area, n: nat, f: nat, page: Page)
    requires Fits(a, n) && f != s.dir && !IsTable(s, a, f)
    ensures SameMaps(s, PutPage(s, f, page), a, n)
    ensures forall g :: g != f ==> At(PutPage(s, f, page), g) == At(s, g)
  {
    var s' := PutPage(s, f, page);
    assert SameTables(s, s', a);
    forall j: nat | j < n
      ensures EntryAt(s', a, j) == EntryAt(s, a, j)
    {
      var d := PdIdx(Vp(a, j));
      assert Covers(a, Vp(a, j));
      assert Pde(s', d) == Pde(s, d) && (Pde(s, d).present ==> Pde(s, d).frame != f);
    }
  }

  // ---- the child before the copy ----

  // Everything the parent has, seen from the child.
  ghost function OthersOf(s: Space, a: Area, m: seq<bool>, others: set<nat>): set<nat>
    requires Fits(a, |m|)
  {
    others + {s.dir} +
    (set d | a.Lo() <= d < a.Hi() && Pde(s, d).present :: Pde(s, d).frame) +
    (set i: nat | i < |m| && m[i] :: EntryAt(s, a, i).frame)
  }

  function NoPages(n: nat): (m: seq<bool>)
    ensures |m| == n && forall i :: 0 <= i < n ==> !m[i]
  {
    seq(n, i => false)
  }

  // create_page_dir has left the lower part of the child's directory empty.
  ghost predicate Blank(s: Space, a: Area, child: nat) {
    forall d :: a.Lo() <= d < a.Hi() ==> !At(s, child)[d].present
  }

  lemma ChildStarts(s: Space, a: Area, m: seq<bool>, others: set<nat>, child: nat)
    requires Inv(s, a, m, others + {child}) && child !in others && Blank(s, a, child)
    ensures Inv(Through(s, child), a, NoPages(|m|), OthersOf(s, a, m, others))
  {
    var c, oc := Through(s, child), OthersOf(s, a, m, others);
    assert At(c, child) == At(s, child);
    assert forall d :: a.Lo() <= d < a.Hi() ==> !Pde(c, d).present;
    SamePools(s, c, a);
    assert forall i: nat :: i < |m| && m[i] ==> Given(s, a, others + {child}, EntryAt(s, a, i).frame);
    forall f
      ensures f in oc ==> !Free(c, a, f)
      ensures Used(c, a, f) ==> f in oc || f == child
    {
      if f in oc {
        ChildOthers(s, a, m, others + {child}, f);
      }
    }
  }

  lemma ChildOthers(s: Space, a: Area, m: seq<bool>, others: set<nat>, f: nat)
    requires Inv(s, a, m, others) && (f in others || f == s.dir || IsTable(s, a, f) || Mapped(s, a, m, f))
    ensures !Free(s, a, f)
  {
    if Mapped(s, a, m, f) {
      var i: nat :| i < |m| && m[i] && EntryAt(s, a, i).frame == f;
      assert Given(s, a, others, f);
    }
  }

  // ---- the copy ----

  // The pages of m are in the child, on frames of its own, with what the parent's pages held.
  ghost predicate Copied(s0: Space, s: Space, a: Area, child: nat, m: seq<bool>)
    requires Fits(a, |m|)
  {
    forall i: nat :: i < |m| && m[i] ==>
        At(s, EntryAt(Through(s, child), a, i).frame) == At(s0, EntryAt(s0, a, i).frame)
  }

  ghost predicate Untouched(s: Space, s': Space, frames: set<nat>) {
    forall f :: f in frames ==> At(s', f) == At(s, f)
  }

  // A page whose entry and directory entry are untouched is still reached.
  lemma StillReached(s: Space, s': Space, a: Area, m: seq<bool>, others: set<nat>)
    requires Fits(a, |m|) && s'.dir == s.dir && Untouched(s, s', OthersOf(s, a, m, others))
    ensures forall i: nat :: i < |m| ==> EntryAt(s', a, i) == EntryAt(s, a, i)
    ensures forall i: nat :: i < |m| && m[i] ==> At(s', EntryAt(s, a, i).frame) == At(s, EntryAt(s, a, i).frame)
  {
    forall i: nat | i < |m|
      ensures EntryAt(s', a, i) == EntryAt(s, a, i)
      ensures m[i] ==> At(s', EntryAt(s, a, i).frame) == At(s, EntryAt(s, a, i).frame)
    {
      assert Covers(a, Vp(a, i));
      var d := PdIdx(Vp(a, i));
      assert Pde(s', d) == Pde(s, d);
      if Pde(s, d).present {
        assert IsTable(s, a, Pde(s, d).frame);
      }
      if m[i] {
        assert Mapped(s, a, m, EntryAt(s, a, i).frame);
      }
    }
  }

  // ---- frames for the copy ----

  // The pages that are marked from bit n on.
  ghost function Left(b: seq<bool>, n: nat): set<nat> {
    set i: nat | n <= i < |b| && b[i]
  }

  lemma LeftNext(b: seq<bool>, n: nat)
    requires n < |b|
    ensures n !in Left(b, n + 1) && Left(b, n) - {n} == Left(b, n + 1)
    ensures b[n] <==> n in Left(b, n)
    ensures !b[n] ==> Left(b, n) == Left(b, n + 1)
  {
  }

  // enough: there were frames for the whole copy, and so there are for what is left of it.
  ghost predicate EnoughLeft(s: Space, a: Area, child: nat, b: seq<bool>, n: nat, enough: bool)
    requires Fits(a, |b|)
  {
    enough <==> Enough(Through(s, child), a, Left(b, n))
  }

  lemma LeftNothing(s: Space, a: Area, child: nat, b: seq<bool>, enough: bool)
    requires Fits(a, |b|) && EnoughLeft(s, a, child, b, |b|, enough)
    ensures enough
  {
    assert Left(b, |b|) == {};
    assert NewTables(Through(s, child), a, {}) == {};
  }

  lemma LeftCopied(s: Space, s': Space, a: Area, child: nat, b: seq<bool>, n: nat, enough: bool, ok: bool)
    requires Fits(a, |b|) && n < |b| && b[n] && EnoughLeft(s, a, child, b, n, enough)
    requires ok <==> Enough(Through(s, child), a, {n})
    requires ok ==> Charged(Through(s, child), Through(s', child), a, n)
    ensures if ok then EnoughLeft(s', a, child, b, n + 1, enough) else !enough
  {
    LeftNext(b, n);
    if enough {
      EnoughForAny(Through(s, child), a, Left(b, n), n);
    }
    if ok {
      EnoughNext(Through(s, child), Through(s', child), a, Left(b, n), n);
    }
  }

  // The directory entries that the pages of w lie under.
  ghost function Tables(a: Area, w: set<nat>): set<nat> {
    set i | i in w :: PdIdx(Vp(a, i))
  }

  // A free user frame for each marked page, and a free kernel frame for each table over them.
  ghost predicate FramesSuffice(s: Space, a: Area, b: seq<bool>) {
    |Left(b, 0)| <= CountClear(s.upool) && |Tables(a, Left(b, 0))| <= CountClear(s.kpool)
  }

  // A blank directory needs a table for each of them.
  lemma BlankNeeds(s: Space, a: Area, child: nat, b: seq<bool>)
    requires a.user && Fits(a, |b|) && Blank(s, a, child)
    ensures Enough(Through(s, child), a, Left(b, 0)) <==> FramesSuffice(s, a, b)
  {
    var c := Through(s, child);
    assert At(c, child) == At(s, child);
    forall i | i in Left(b, 0)
      ensures Covers(a, Vp(a, i)) && !HasTable(c, a, Vp(a, i))
    {
      assert !At(s, child)[PdIdx(Vp(a, i))].present;
    }
    assert NewTables(c, a, Left(b, 0)) == Tables(a, Left(b, 0));
  }

  // ---- the loops ----

  // One page: it is read through the parent's directory and written through the child's.
  method CopyPage(p: Pager, i: nat, child: nat, ghost m: seq<bool>, ghost oc: set<nat>) returns (ok: bool)
    requires p.PoolsApart() && Inv(Through(p.S(), child), p.a, m, oc) && i < |m| && !m[i] && Covers(p.a, Vp(p.a, i))
    requires HasTable(p.S(), p.a, Vp(p.a, i))
    modifies p
    ensures p.vbits == old(p.vbits) && p.dir == old(p.dir)
    ensures ok <==> Enough(Through(old(p.S()), child), p.a, {i})
    ensures ok ==> Charged(Through(old(p.S()), child), Through(p.S(), child), p.a, i)
    ensures ok ==> p.PoolsApart() && Inv(Through(p.S(), child), p.a, m[i := true], oc)
    ensures ok ==> Untouched(old(p.S()), p.S(), oc)
    ensures ok ==> PagesKept(Through(old(p.S()), child), Through(p.S(), child), p.a, m)
    ensures ok ==>
        At(p.S(), EntryAt(Through(p.S(), child), p.a, i).frame) == old(At(p.S(), EntryAt(p.S(), p.a, i).frame))
  {
    var parent := p.dir;
    var frame := p.AddrV2P(i);
    var bufPage := At(p.S(), frame);
    p.dir := child;
    ghost var s0 := p.S();
    assert s0 == Through(old(p.S()), child);
    ok := MapAndCopy(p, i, bufPage, m, oc);
    ghost var s1 := p.S();
    p.dir := parent;
    assert s1.dir == child ==> Through(p.S(), child) == s1;
  }

  // What happens while the child's directory is in use.
  method MapAndCopy(p: Pager, i: nat, bufPage: Page, ghost m: seq<bool>, ghost oc: set<nat>) returns (ok: bool)
    requires p.PoolsApart() && Inv(p.S(), p.a, m, oc) && i < |m| && !m[i] && |bufPage| == 1024
    modifies p`mem, p`kpool, p`upool
    ensures ok <==> Enough(old(p.S()), p.a, {i})
    ensures ok ==> Charged(old(p.S()), p.S(), p.a, i)
    ensures ok ==> p.PoolsApart() && Inv(p.S(), p.a, m[i := true], oc)
    ensures ok ==> Untouched(old(p.S()), p.S(), oc) && PagesKept(old(p.S()), p.S(), p.a, m)
    ensures ok ==> At(p.S(), EntryAt(p.S(), p.a, i).frame) == bufPage
  {
    ok := p.MapOne(i, m, oc);
    if ok {
      WriteCopy(p, i, bufPage, m, oc);
    }
  }

  // The memcpy into the page just mapped.
  method WriteCopy(p: Pager, i: nat, bufPage: Page, ghost m: seq<bool>, ghost oc: set<nat>)
    requires |bufPage| == 1024 && i < |m| && Inv(p.S(), p.a, m[i := true], oc) && Covers(p.a, Vp(p.a, i))
    modifies p`mem
    ensures Inv(p.S(), p.a, m[i := true], oc) && Untouched(old(p.S()), p.S(), oc)
    ensures forall d :: p.a.Lo() <= d < p.a.Hi() ==> Pde(p.S(), d) == Pde(old(p.S()), d)
    ensures forall j: nat :: j < |m| && j != i && m[j] ==>
        EntryAt(p.S(), p.a, j) == EntryAt(old(p.S()), p.a, j) &&
        At(p.S(), EntryAt(old(p.S()), p.a, j).frame) == At(old(p.S()), EntryAt(old(p.S()), p.a, j).frame)
    ensures At(p.S(), EntryAt(p.S(), p.a, i).frame) == bufPage
  {
    ghost var s := p.S();
    ghost var m' := m[i := true];
    assert m'[i] && EntryAt(s, p.a, i).present;
    var frame := p.AddrV2P(i);
    assert Given(s, p.a, oc, frame);
    PutPageIs(s, p.a, |m|, frame, bufPage);
    SameMapsInv(s, PutPage(s, frame, bufPage), p.a, m', oc);
    p.mem := p.mem[frame := bufPage];
    assert p.S() == PutPage(s, frame, bufPage);
  }

  // The first n pages that the bitmap marks.
  function UpTo(b: seq<bool>, n: nat): (m: seq<bool>)
    requires n <= |b|
    ensures |m| == |b| && forall i :: 0 <= i < |b| ==> m[i] == (i < n && b[i])
  {
    b[..n] + NoPages(|b| - n)
  }

  lemma UpToNext(b: seq<bool>, n: nat)
    requires n < |b|
    ensures UpTo(b, n + 1) == if b[n] then UpTo(b, n)[n := true] else UpTo(b, n)
  {
  }

  // What is known after the first n bits.
  ghost predicate CopiedUpTo(s0: Space, s: Space, a: Area, child: nat, b: seq<bool>, n: nat, oc: set<nat>)
    requires n <= |b|
  {
    Inv(Through(s, child), a, UpTo(b, n), oc) && Untouched(s0, s, oc) && Copied(s0, s, a, child, UpTo(b, n))
  }

  lemma CopiedOne(s0: Space, s: Space, s': Space, a: Area, child: nat, b: seq<bool>, n: nat, oc: set<nat>)
    requires n < |b| && b[n] && CopiedUpTo(s0, s, a, child, b, n, oc)
    requires Inv(Through(s', child), a, UpTo(b, n)[n := true], oc) && Untouched(s, s', oc)
    requires PagesKept(Through(s, child), Through(s', child), a, UpTo(b, n))
    requires At(s', EntryAt(Through(s', child), a, n).frame) == At(s0, EntryAt(s0, a, n).frame)
    ensures CopiedUpTo(s0, s', a, child, b, n + 1, oc)
  {
    UpToNext(b, n);
    var m := UpTo(b, n);
    forall i: nat | i < |b| && m[i]
      ensures At(s', EntryAt(Through(s', child), a, i).frame) == At(s0, EntryAt(s0, a, i).frame)
    {
      assert EntryAt(Through(s', child), a, i) == EntryAt(Through(s, child), a, i);
    }
  }

  ghost predicate Copying(s0: Space, s: Space, a: Area, child: nat, b: seq<bool>, n: nat, enough: bool, oc: set<nat>)
    requires n <= |b| && Fits(a, |b|)
  {
    CopiedUpTo(s0, s, a, child, b, n, oc) && EnoughLeft(s, a, child, b, n, enough)
  }

  // What the loops need to know of the parent: its marked pages are mapped, and oc covers all it has.
  ghost predicate Parent(s0: Space, a: Area, b: seq<bool>, others: set<nat>, oc: set<nat>) {
    && Fits(a, |b|) && oc == OthersOf(s0, a, b, others)
    && forall i: nat :: i < |b| && b[i] ==> EntryAt(s0, a, i).present
  }

  // One bit of the bitmap of copy_body_stack3.
  method CopyBit(p: Pager, i: nat, child: nat, ghost s0: Space, ghost enough: bool,
      ghost others: set<nat>, ghost oc: set<nat>) returns (ok: bool)
    requires Parent(s0, p.a, p.vbits, others, oc) && s0.dir == p.dir
    requires i < |p.vbits| && p.PoolsApart() && Copying(s0, p.S(), p.a, child, p.vbits, i, enough, oc)
    modifies p
    ensures p.vbits == old(p.vbits) && p.dir == old(p.dir)
    ensures if ok then p.PoolsApart() && Copying(s0, p.S(), p.a, child, p.vbits, i + 1, enough, oc) else !enough
  {
    ghost var s := p.S();
    UpToNext(p.vbits, i);
    if !p.vbits[i] {
      LeftNext(p.vbits, i);
      return true;
    }
    StillReached(s0, s, p.a, p.vbits, others);
    assert EntryAt(s0, p.a, i).present;
    assert EntryAt(s, p.a, i) == EntryAt(s0, p.a, i);
    ok := CopyPage(p, i, child, UpTo(p.vbits, i), oc);
    LeftCopied(s, p.S(), p.a, child, p.vbits, i, enough, ok);
    if ok {
      CopiedOne(s0, s, p.S(), p.a, child, p.vbits, i, oc);
    }
  }

  // One byte of the bitmap, from bit lo on.
  method CopyByte(p: Pager, lo: nat, child: nat, ghost s0: Space, ghost enough: bool,
      ghost others: set<nat>, ghost oc: set<nat>) returns (ok: bool)
    requires Parent(s0, p.a, p.vbits, others, oc) && s0.dir == p.dir
    requires lo + 8 <= |p.vbits| && p.PoolsApart() && Copying(s0, p.S(), p.a, child, p.vbits, lo, enough, oc)
    modifies p
    ensures p.vbits == old(p.vbits) && p.dir == old(p.dir)
    ensures if ok then p.PoolsApart() && Copying(s0, p.S(), p.a, child, p.vbits, lo + 8, enough, oc) else !enough
  {
    var bit := lo;
    while bit < lo + 8
      invariant lo <= bit <= lo + 8 && p.vbits == old(p.vbits) && p.dir == old(p.dir) && p.PoolsApart()
      invariant Copying(s0, p.S(), p.a, child, p.vbits, bit, enough, oc)
    {
      ok := CopyBit(p, bit, child, s0, enough, others, oc);
      if !ok {
        return;
      }
      bit := bit + 1;
    }
    return true;
  }

  predicate ByteIsZero(b: seq<bool>, lo: nat)
    requires lo + 8 <= |b|
  {
    !b[lo] && !b[lo + 1] && !b[lo + 2] && !b[lo + 3] && !b[lo + 4] && !b[lo + 5] && !b[lo + 6] && !b[lo + 7]
  }

  lemma ZeroByte(b: seq<bool>, lo: nat)
    requires lo + 8 <= |b| && ByteIsZero(b, lo)
    ensures UpTo(b, lo + 8) == UpTo(b, lo)
  {
  }

  // The child has every page of the parent with the same contents, each on a frame that nothing of
  // the parent is on.
  ghost predicate Isolated(s0: Space, s: Space, a: Area, child: nat, b: seq<bool>)
    requires Fits(a, |b|)
  {
    && (forall i: nat :: i < |b| ==> (EntryAt(Through(s, child), a, i).present <==> b[i]))
    && (forall i: nat :: i < |b| && b[i] ==>
        At(s, EntryAt(Through(s, child), a, i).frame) == At(s0, EntryAt(s0, a, i).frame))
    && (forall i: nat, j: nat :: i < |b| && j < |b| && b[i] && b[j] ==>
        EntryAt(Through(s, child), a, i).frame != EntryAt(s, a, j).frame)
  }

  // The parent's entries and the contents of its pages are what they were.
  ghost predicate ParentKept(s0: Space, s: Space, a: Area, b: seq<bool>)
    requires Fits(a, |b|)
  {
    s.dir == s0.dir && PagesKept(s0, s, a, b) && forall i: nat :: i < |b| ==> EntryAt(s, a, i) == EntryAt(s0, a, i)
  }

  lemma CopyEnds(s0: Space, s: Space, a: Area, child: nat, b: seq<bool>, others: set<nat>, oc: set<nat>)
    requires Inv(s0, a, b, others + {child}) && oc == OthersOf(s0, a, b, others) && s.dir == s0.dir
    requires CopiedUpTo(s0, s, a, child, b, |b|, oc)
    ensures Isolated(s0, s, a, child, b) && ParentKept(s0, s, a, b)
  {
    assert UpTo(b, |b|) == b;
    StillReached(s0, s, a, b, others);
    forall i: nat, j: nat | i < |b| && j < |b| && b[i] && b[j]
      ensures EntryAt(Through(s, child), a, i).frame != EntryAt(s, a, j).frame
    {
      assert Given(Through(s, child), a, oc, EntryAt(Through(s, child), a, i).frame);
      assert Mapped(s0, a, b, EntryAt(s0, a, j).frame);
    }
  }

  // copy_body_stack3, byte by byte over the bitmap, skipping bytes that are 0. It ends with false when
  // a pool runs out of frames, where the kernel stops.
  method CopyBodyStack3(p: Pager, child: nat, ghost others: set<nat>) returns (ok: bool)
    requires p.a.user && p.PoolsApart() && |p.vbits| % 8 == 0
    requires Inv(p.S(), p.a, p.vbits, others + {child}) && child !in others && Blank(p.S(), p.a, child)
    modifies p
    ensures p.vbits == old(p.vbits)
    ensures ok <==> FramesSuffice(old(p.S()), p.a, p.vbits)
    ensures ok ==> Isolated(old(p.S()), p.S(), p.a, child, p.vbits) && ParentKept(old(p.S()), p.S(), p.a, p.vbits)
    ensures ok ==> Inv(Through(p.S(), child), p.a, p.vbits, old(OthersOf(p.S(), p.a, p.vbits, others)))
  {
    ghost var s0 := p.S();
    ghost var oc := OthersOf(s0, p.a, p.vbits, others);
    ChildStarts(s0, p.a, p.vbits, others, child);
    assert UpTo(p.vbits, 0) == NoPages(|p.vbits|);
    ghost var enough := Enough(Through(s0, child), p.a, Left(p.vbits, 0));
    BlankNeeds(s0, p.a, child, p.vbits);
    ok := CopyBytes(p, child, s0, enough, others, oc);
    if ok {
      CopyEnds(s0, p.S(), p.a, child, p.vbits, others, oc);
    }
  }

  // The loops of copy_body_stack3.
  method CopyBytes(p: Pager, child: nat, ghost s0: Space, ghost enough: bool,
      ghost others: set<nat>, ghost oc: set<nat>) returns (ok: bool)
    requires Parent(s0, p.a, p.vbits, others, oc) && s0.dir == p.dir
    requires |p.vbits| % 8 == 0 && p.PoolsApart() && Copying(s0, p.S(), p.a, child, p.vbits, 0, enough, oc)
    modifies p
    ensures p.vbits == old(p.vbits) && p.dir == old(p.dir)
    ensures ok <==> enough
    ensures ok ==> CopiedUpTo(s0, p.S(), p.a, child, p.vbits, |p.vbits|, oc)
  {
    var idxByte := 0;
    while idxByte < |p.vbits| / 8
      invariant 0 <= idxByte <= |p.vbits| / 8 && p.vbits == old(p.vbits) && p.dir == old(p.dir) && p.PoolsApart()
      invariant Copying(s0, p.S(), p.a, child, p.vbits, 8 * idxByte, enough, oc)
    {
      ok := CopyIfAny(p, 8 * idxByte, child, s0, enough, others, oc);
      if !ok {
        return;
      }
      idxByte := idxByte + 1;
    }
    assert 8 * idxByte == |p.vbits|;
    LeftNothing(p.S(), p.a, child, p.vbits, enough);
    return true;
  }

  method CopyIfAny(p: Pager, lo: nat, child: nat, ghost s0: Space, ghost enough: bool,
      ghost others: set<nat>, ghost oc: set<nat>) returns (ok: bool)
    requires Parent(s0, p.a, p.vbits, others, oc) && s0.dir == p.dir
    requires lo + 8 <= |p.vbits| && p.PoolsApart() && Copying(s0, p.S(), p.a, child, p.vbits, lo, enough, oc)
    modifies p
    ensures p.vbits == old(p.vbits) && p.dir == old(p.dir)
    ensures if ok then p.PoolsApart() && Copying(s0, p.S(), p.a, child, p.vbits, lo + 8, enough, oc) else !enough
  {
    if ByteIsZero(p.vbits, lo) {
      ZeroByte(p.vbits, lo);
      assert Left(p.vbits, lo + 8) == Left(p.vbits, lo);
      return true;
    }
    ok := CopyByte(p, lo, child, s0, enough, others, oc);
  }
}
