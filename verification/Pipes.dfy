// shell/pipe.c, fs/fs.c, userprog/fork.c and userprog/wait_exit.c: the reference count of a pipe, in fd_pos.
module Pipes {
  import opened Options

  const MAX_FILE_OPEN := 32
  const PER_PROC := 8
  const UINT_MAX: nat := 0xFFFF_FFFF

  // file_desc_t: fd_inode != NULL, fd_flag == PIPE_FLAG, fd_pos, and which buffer page a pipe has.
  datatype Desc = Desc(open: bool, pipe: bool, pos: nat, page: nat)

  predicate OpenPipe(f: Desc) {
    f.open && f.pipe
  }

  type Fds = seq<int>     // fd_table of a process, -1 being free

  // file_table, the descriptor tables of the processes that have not exited, the buffer pages given
  // back, and the number of buffer pages ever taken.
  datatype Sys = Sys(files: seq<Desc>, procs: seq<Fds>, freed: multiset<nat>, taken: nat)

  predicate Shaped(s: Sys) {
    && |s.files| == MAX_FILE_OPEN
    && forall p :: 0 <= p < |s.procs| ==> FdsFit(s.procs[p])
  }

  // Slots from 3 on are free or name a slot of file_table that get_free_slot_in_global can return.
  predicate FdsFit(fds: Fds) {
    |fds| == PER_PROC && forall k :: 3 <= k < PER_PROC ==> fds[k] == -1 || 3 <= fds[k] < MAX_FILE_OPEN
  }

  // ---- counting names ----

  function NamedFrom(fds: Fds, g: int, k: nat): nat
    requires k <= |fds|
    decreases |fds| - k
  {
    if k == |fds| then 0 else (if fds[k] == g then 1 else 0) + NamedFrom(fds, g, k + 1)
  }

  // The slots >= 3 of a process that name g.
  function Named(fds: Fds, g: int): nat {
    if |fds| < 3 then 0 else NamedFrom(fds, g, 3)
  }

  ghost function SlotsNaming(fds: Fds, g: int, k: nat): set<nat> {
    set i: nat | k <= i < |fds| && fds[i] == g
  }

  // Counting one by one gives the number of those slots.
  lemma {:induction false} NamedIsSize(fds: Fds, g: int, k: nat)
    requires k <= |fds|
    ensures NamedFrom(fds, g, k) == |SlotsNaming(fds, g, k)|
    decreases |fds| - k
  {
    if k == |fds| {
      assert SlotsNaming(fds, g, k) == {};
    } else {
      NamedIsSize(fds, g, k + 1);
      assert SlotsNaming(fds, g, k) == SlotsNaming(fds, g, k + 1) + if fds[k] == g then {k} else {};
    }
  }

  function Count(procs: seq<Fds>, g: int): nat {
    if procs == [] then 0 else Count(procs[..|procs| - 1], g) + Named(procs[|procs| - 1], g)
  }

  lemma {:induction false} NamedSet(fds: Fds, g: int, k: nat, i: nat, v: int)
    requires k <= i < |fds|
    ensures NamedFrom(fds[i := v], g, k) == NamedFrom(fds, g, k) - (if fds[i] == g then 1 else 0) +
        (if v == g then 1 else 0)
    ensures fds[i] == g ==> NamedFrom(fds, g, k) > 0
    decreases i - k
  {
    if k == i {
      NamedSame(fds, fds[i := v], g, k + 1);
    } else {
      NamedSet(fds, g, k + 1, i, v);
    }
  }

  lemma {:induction false} NamedSame(fds: Fds, fds': Fds, g: int, k: nat)
    requires k <= |fds| == |fds'| && fds[k..] == fds'[k..]
    ensures NamedFrom(fds', g, k) == NamedFrom(fds, g, k)
    decreases |fds| - k
  {
    if k < |fds| {
      assert fds[k] == fds[k..][0] == fds'[k..][0] == fds'[k];
      assert fds[k + 1..] == fds[k..][1..] == fds'[k..][1..] == fds'[k + 1..];
      NamedSame(fds, fds', g, k + 1);
    }
  }

  lemma {:induction false} CountSet(procs: seq<Fds>, p: nat, fds: Fds, g: int)
    requires p < |procs|
    ensures Count(procs[p := fds], g) == Count(procs, g) - Named(procs[p], g) + Named(fds, g)
    ensures Named(procs[p], g) <= Count(procs, g)
  {
    var n := |procs| - 1;
    if p == n {
      assert procs[p := fds][..n] == procs[..n];
    } else {
      assert procs[p := fds][..n] == procs[..n][p := fds];
      CountSet(procs[..n], p, fds, g);
    }
  }

  lemma {:induction false} CountConcat(a: seq<Fds>, b: seq<Fds>, g: int)
    ensures Count(a + b, g) == Count(a, g) + Count(b, g)
  {
    if b == [] {
      assert a + b == a;
    } else {
      var n := |b| - 1;
      assert (a + b)[..|a + b| - 1] == a + b[..n];
      CountConcat(a, b[..n], g);
    }
  }

  function Without(procs: seq<Fds>, p: nat): seq<Fds>
    requires p < |procs|
  {
    procs[..p] + procs[p + 1..]
  }

  lemma CountWithout(procs: seq<Fds>, p: nat, g: int)
    requires p < |procs|
    ensures Count(Without(procs, p), g) == Count(procs, g) - Named(procs[p], g)
  {
    var a, b := procs[..p], procs[p + 1..];
    CountConcat(a, b, g);
    assert procs == a + [procs[p]] + b;
    CountConcat(a + [procs[p]], b, g);
  }

  // ---- the invariant ----

  ghost predicate DescOk(s: Sys, g: nat)
    requires Shaped(s) && g < MAX_FILE_OPEN
  {
    var f := s.files[g];
    && (f.open && f.pipe ==> f.pos == Count(s.procs, g) && f.pos > 0 && f.page < s.taken && s.freed[f.page] == 0)
    && (!f.open ==> Count(s.procs, g) == 0)
  }

  // The buffer page has been given back once, or some open pipe still has it.
  ghost predicate PageOk(s: Sys, page: nat)
    requires Shaped(s)
  {
    s.freed[page] == 1 || (s.freed[page] == 0 && exists g :: 3 <= g < MAX_FILE_OPEN && HasPage(s, g, page))
  }

  ghost predicate HasPage(s: Sys, g: nat, page: nat)
    requires Shaped(s) && g < MAX_FILE_OPEN
  {
    s.files[g].open && s.files[g].pipe && s.files[g].page == page
  }

  ghost predicate Inv(s: Sys) {
    && Shaped(s)
    && (forall g: nat :: 3 <= g < MAX_FILE_OPEN ==> DescOk(s, g))
    && (forall g: nat, h: nat :: 3 <= g < h < MAX_FILE_OPEN && OpenPipe(s.files[g]) && OpenPipe(s.files[h]) ==>
          s.files[g].page != s.files[h].page)
    && (forall page: nat :: if page < s.taken then PageOk(s, page) else s.freed[page] == 0)
    && (forall p: nat, g: nat :: p < |s.procs| && 3 <= g < MAX_FILE_OPEN && !s.files[g].pipe ==>
        Named(s.procs[p], g) <= 1)
  }

  // ---- closing ----

  // sys_close on what slot k of process p names: the count goes down, and at 0 the page is given
  // back; a regular file is closed outright, however many slots name it.
  function Dropped(s: Sys, g: nat): Sys
    requires g < |s.files|
  {
    var f := s.files[g];
    if f.pipe then
      var pos := if f.pos == 0 then UINT_MAX else f.pos - 1;
      if pos == 0 then s.(files := s.files[g := f.(pos := 0, open := false)], freed := s.freed + multiset{f.page})
      else s.(files := s.files[g := f.(pos := pos)])
    else s.(files := s.files[g := f.(open := false)])
  }

  function Closed(s: Sys, p: nat, k: nat): (r: Sys)
    requires Shaped(s) && p < |s.procs| && 3 <= k < PER_PROC && s.procs[p][k] != -1
    ensures Shaped(r) && |r.procs| == |s.procs|
  {
    Dropped(s, s.procs[p][k]).(procs := s.procs[p := s.procs[p][k := -1]])
  }

  lemma ClosedCounts(s: Sys, p: nat, k: nat, g: int)
    requires Shaped(s) && p < |s.procs| && 3 <= k < PER_PROC && s.procs[p][k] != -1 && g >= 0
    ensures Count(Closed(s, p, k).procs, g) == Count(s.procs, g) - (if g == s.procs[p][k] then 1 else 0)
    ensures Count(s.procs, s.procs[p][k]) > 0
  {
    var fds := s.procs[p];
    NamedSet(fds, g, 3, k, -1);
    NamedSet(fds, fds[k], 3, k, -1);
    CountSet(s.procs, p, fds[k := -1], g);
    CountSet(s.procs, p, fds[k := -1], fds[k]);
  }

  // Closing keeps the books if and only if what is closed is a pipe or a file that no other slot names.
  lemma CloseKeeps(s: Sys, p: nat, k: nat)
    requires Inv(s) && p < |s.procs| && 3 <= k < PER_PROC && s.procs[p][k] != -1
    ensures var g := s.procs[p][k];
      Inv(Closed(s, p, k)) <==> s.files[g].pipe || Count(s.procs, g) == 1
  {
    var g := s.procs[p][k];
    var s' := Closed(s, p, k);
    forall h: nat
      ensures Count(s'.procs, h) == Count(s.procs, h) - (if h == g then 1 else 0)
    {
      ClosedCounts(s, p, k, h);
    }
    ClosedCounts(s, p, k, g);
    assert DescOk(s, g);
    if s.files[g].pipe || Count(s.procs, g) == 1 {
      CloseDescs(s, p, k);
      ClosePages(s, p, k);
      CloseOnce(s, p, k);
    } else {
      assert !DescOk(s', g);
    }
  }

  lemma CloseOnce(s: Sys, p: nat, k: nat)
    requires Inv(s) && p < |s.procs| && 3 <= k < PER_PROC && s.procs[p][k] != -1
    ensures var s' := Closed(s, p, k);
      forall q: nat, h: nat :: q < |s'.procs| && 3 <= h < MAX_FILE_OPEN && !s'.files[h].pipe ==>
          Named(s'.procs[q], h) <= 1
  {
    var s' := Closed(s, p, k);
    forall q: nat, h: nat | q < |s'.procs| && 3 <= h < MAX_FILE_OPEN && !s'.files[h].pipe
      ensures Named(s'.procs[q], h) <= 1
    {
      NamedSet(s.procs[p], h, 3, k, -1);
      assert Named(s.procs[q], h) <= 1;
    }
  }

  lemma CloseDescs(s: Sys, p: nat, k: nat)
    requires Inv(s) && p < |s.procs| && 3 <= k < PER_PROC && s.procs[p][k] != -1
    requires s.files[s.procs[p][k]].pipe || Count(s.procs, s.procs[p][k]) == 1
    ensures forall h: nat :: 3 <= h < MAX_FILE_OPEN ==> DescOk(Closed(s, p, k), h)
  {
    var g := s.procs[p][k];
    var s' := Closed(s, p, k);
    assert DescOk(s, g);
    ClosedCounts(s, p, k, g);
    forall h: nat | 3 <= h < MAX_FILE_OPEN
      ensures DescOk(s', h)
    {
      assert DescOk(s, h);
      ClosedCounts(s, p, k, h);
    }
  }

  lemma ClosePages(s: Sys, p: nat, k: nat)
    requires Inv(s) && p < |s.procs| && 3 <= k < PER_PROC && s.procs[p][k] != -1
    ensures forall page: nat :: page < s.taken ==> PageOk(Closed(s, p, k), page)
  {
    var g := s.procs[p][k];
    var s' := Closed(s, p, k);
    assert DescOk(s, g);
    ClosedCounts(s, p, k, g);
    forall page: nat | page < s.taken
      ensures PageOk(s', page)
    {
      assert PageOk(s, page);
      if s.freed[page] == 0 {
        var h :| 3 <= h < MAX_FILE_OPEN && HasPage(s, h, page);
        if h != g || s'.files[g].open {
          assert HasPage(s', h, page);
        }
      }
    }
  }

  // ---- exit ----

  // The loop of release_prog_resource over the descriptors, as closing one slot after the other.
  function CloseAll(s: Sys, p: nat, k: nat): (r: Sys)
    requires Shaped(s) && p < |s.procs| && 3 <= k <= PER_PROC
    ensures Shaped(r) && |r.procs| == |s.procs|
    decreases PER_PROC - k
  {
    if k == PER_PROC then s else CloseAll(if s.procs[p][k] == -1 then s else Closed(s, p, k), p, k + 1)
  }

  function Exited(s: Sys, p: nat): Sys
    requires Shaped(s) && p < |s.procs|
  {
    var t := CloseAll(s, p, 3);
    t.(procs := Without(t.procs, p))
  }

  // The files among the slots from k on have no other name.
  ghost predicate SoleFrom(s: Sys, p: nat, k: nat)
    requires Shaped(s) && p < |s.procs|
  {
    forall j :: 3 <= k <= j < PER_PROC && s.procs[p][j] != -1 && !s.files[s.procs[p][j]].pipe ==>
        Count(s.procs, s.procs[p][j]) == 1
  }

  // A file that is closed stays so, and what slot j names, when it is a file, gets closed.
  lemma {:induction false} CloseAllCloses(s: Sys, p: nat, k: nat, g: nat)
    requires Shaped(s) && p < |s.procs| && 3 <= k <= PER_PROC && g < MAX_FILE_OPEN && !s.files[g].pipe
    ensures !CloseAll(s, p, k).files[g].pipe
    ensures !s.files[g].open || (exists j :: k <= j < PER_PROC && s.procs[p][j] == g) ==>
        !CloseAll(s, p, k).files[g].open
    decreases PER_PROC - k
  {
    if k < PER_PROC {
      var t := if s.procs[p][k] == -1 then s else Closed(s, p, k);
      CloseAllCloses(t, p, k + 1, g);
      if exists j :: k <= j < PER_PROC && s.procs[p][j] == g {
        var j :| k <= j < PER_PROC && s.procs[p][j] == g;
        assert j > k ==> t.procs[p][j] == g;
      }
    }
  }

  // Closing slot k leaves the later slots as they were.
  lemma SoleNext(s: Sys, p: nat, k: nat)
    requires Inv(s) && p < |s.procs| && 3 <= k < PER_PROC && s.procs[p][k] != -1 && SoleFrom(s, p, k)
    ensures SoleFrom(Closed(s, p, k), p, k + 1)
  {
    var t := Closed(s, p, k);
    forall j | k + 1 <= j < PER_PROC && t.procs[p][j] != -1 && !t.files[t.procs[p][j]].pipe
      ensures Count(t.procs, t.procs[p][j]) == 1
    {
      var g := s.procs[p][j];
      ClosedCounts(s, p, k, g);
      ClosedCounts(t, p, j, g);
    }
  }

  lemma {:induction false} CloseAllKeeps(s: Sys, p: nat, k: nat)
    requires Inv(s) && p < |s.procs| && 3 <= k <= PER_PROC && SoleFrom(s, p, k)
    requires forall j :: 3 <= j < k ==> s.procs[p][j] == -1
    ensures var t := CloseAll(s, p, k);
      Inv(t) && forall j :: 3 <= j < PER_PROC ==> t.procs[p][j] == -1
    decreases PER_PROC - k
  {
    if k < PER_PROC {
      if s.procs[p][k] == -1 {
        CloseAllKeeps(s, p, k + 1);
      } else {
        CloseKeeps(s, p, k);
        SoleNext(s, p, k);
        CloseAllKeeps(Closed(s, p, k), p, k + 1);
      }
    }
  }

  lemma {:induction false} NamedNone(fds: Fds, g: nat, k: nat)
    requires k <= |fds| && forall j :: k <= j < |fds| ==> fds[j] != g
    ensures NamedFrom(fds, g, k) == 0
    decreases |fds| - k
  {
    if k < |fds| {
      NamedNone(fds, g, k + 1);
    }
  }

  lemma WithoutKeeps(s: Sys, p: nat)
    requires Inv(s) && p < |s.procs| && forall j :: 3 <= j < PER_PROC ==> s.procs[p][j] == -1
    ensures Inv(s.(procs := Without(s.procs, p)))
  {
    var s' := s.(procs := Without(s.procs, p));
    forall g: nat
      ensures Count(s'.procs, g) == Count(s.procs, g)
    {
      CountWithout(s.procs, p, g);
      NamedNone(s.procs[p], g, 3);
    }
    forall g: nat | 3 <= g < MAX_FILE_OPEN
      ensures DescOk(s', g)
    {
      assert DescOk(s, g);
    }
    forall page: nat | page < s.taken
      ensures PageOk(s', page)
    {
      assert PageOk(s, page);
      if s.freed[page] == 0 {
        var h :| 3 <= h < MAX_FILE_OPEN && HasPage(s, h, page);
        assert HasPage(s', h, page);
      }
    }
  }

  // An exit keeps the books if and only if no file of the process has a name elsewhere.
  lemma ExitKeeps(s: Sys, p: nat)
    requires Inv(s) && p < |s.procs|
    ensures Inv(Exited(s, p)) <==> SoleFrom(s, p, 3)
  {
    if SoleFrom(s, p, 3) {
      CloseAllKeeps(s, p, 3);
      WithoutKeeps(CloseAll(s, p, 3), p);
    } else {
      var j :| 3 <= j < PER_PROC && s.procs[p][j] != -1 && !s.files[s.procs[p][j]].pipe
          && Count(s.procs, s.procs[p][j]) != 1;
      assert Named(s.procs[p], s.procs[p][j]) <= 1;
      SharedExit(s, p, j);
    }
  }

  lemma SharedExit(s: Sys, p: nat, j: nat)
    requires Shaped(s) && p < |s.procs| && 3 <= j < PER_PROC && s.procs[p][j] != -1
    requires !s.files[s.procs[p][j]].pipe && Count(s.procs, s.procs[p][j]) != 1 && Named(s.procs[p], s.procs[p][j]) <= 1
    ensures !DescOk(Exited(s, p), s.procs[p][j])
  {
    var g: nat := s.procs[p][j];
    CloseAllCloses(s, p, 3, g);
    CountWithout(s.procs, p, g);
    ClosedCounts(s, p, j, g);
  }

  // ---- fork ----

  // update_inode_open_cnts, as far as pipes go, from slot k on.
  function Counted(files: seq<Desc>, fds: Fds, k: nat): (r: seq<Desc>)
    requires |files| == MAX_FILE_OPEN && FdsFit(fds) && 3 <= k <= PER_PROC
    ensures |r| == |files|
    decreases PER_PROC - k
  {
    if k == PER_PROC then files
    else if fds[k] != -1 && files[fds[k]].pipe then
      Counted(files[fds[k] := files[fds[k]].(pos := files[fds[k]].pos + 1)], fds, k + 1)
    else Counted(files, fds, k + 1)
  }

  lemma {:induction false} CountedIs(files: seq<Desc>, fds: Fds, k: nat, g: nat)
    requires |files| == MAX_FILE_OPEN && FdsFit(fds) && 3 <= k <= PER_PROC && g < MAX_FILE_OPEN
    ensures Counted(files, fds, k)[g] == if files[g].pipe then files[g].(pos := files[g].pos + NamedFrom(fds, g, k))
        else files[g]
    decreases PER_PROC - k
  {
    if k < PER_PROC {
      if fds[k] != -1 && files[fds[k]].pipe {
        CountedIs(files[fds[k] := files[fds[k]].(pos := files[fds[k]].pos + 1)], fds, k + 1, g);
      } else {
        CountedIs(files, fds, k + 1, g);
      }
    }
  }

  function Forked(s: Sys, p: nat): Sys
    requires Shaped(s) && p < |s.procs|
  {
    s.(files := Counted(s.files, s.procs[p], 3), procs := s.procs + [s.procs[p]])
  }

  // The child has the parent's slots, and every pipe counts one more for each of the slots from 3 on that
  // name it.
  ghost predicate Inherits(s: Sys, s': Sys, p: nat)
    requires p < |s.procs|
  {
    && s'.procs == s.procs + [s.procs[p]] && |s'.files| == |s.files| && s'.freed == s.freed && s'.taken == s.taken
    && forall g: nat :: g < |s.files| ==>
         s'.files[g] == if s.files[g].pipe then s.files[g].(pos := s.files[g].pos + |SlotsNaming(s.procs[p], g, 3)|)
             else s.files[g]
  }

  lemma ForkIs(s: Sys, p: nat)
    requires Shaped(s) && p < |s.procs|
    ensures Inherits(s, Forked(s, p), p)
  {
    forall g: nat | g < |s.files|
      ensures Forked(s, p).files[g] == if s.files[g].pipe then
            s.files[g].(pos := s.files[g].pos + |SlotsNaming(s.procs[p], g, 3)|)
          else s.files[g]
    {
      CountedIs(s.files, s.procs[p], 3, g);
      NamedIsSize(s.procs[p], g, 3);
    }
  }

  lemma ForkKeeps(s: Sys, p: nat)
    requires Inv(s) && p < |s.procs|
    ensures Inv(Forked(s, p))
  {
    var s' := Forked(s, p);
    forall g: nat | g < MAX_FILE_OPEN
      ensures s'.files[g] == if s.files[g].pipe then s.files[g].(pos := s.files[g].pos + Named(s.procs[p], g))
          else s.files[g]
    {
      CountedIs(s.files, s.procs[p], 3, g);
    }
    forall g: nat | 3 <= g < MAX_FILE_OPEN
      ensures DescOk(s', g)
    {
      assert DescOk(s, g);
      CountSet(s.procs, p, s.procs[p], g);
    }
    forall page: nat | page < s.taken
      ensures PageOk(s', page)
    {
      assert PageOk(s, page);
      if s.freed[page] == 0 {
        var h :| 3 <= h < MAX_FILE_OPEN && HasPage(s, h, page);
        assert HasPage(s', h, page);
      }
    }
  }

  // ---- opening ----

  // pcb_fd_install looks for the first free slot from 3 on.
  function FreeSlot(fds: Fds, k: nat): (r: nat)
    requires k <= |fds|
    ensures k <= r <= |fds| && (r < |fds| ==> fds[r] == -1)
    ensures forall j :: k <= j < r ==> fds[j] != -1
    decreases |fds| - k
  {
    if k == |fds| || fds[k] == -1 then k else FreeSlot(fds, k + 1)
  }

  function Installed(fds: Fds, g: nat): (r: Fds)
    requires |fds| == PER_PROC
    ensures |r| == PER_PROC
  {
    var k := FreeSlot(fds, 3);
    if k < PER_PROC then fds[k := g] else fds
  }

  lemma InstalledCounts(fds: Fds, g: nat, h: nat)
    requires |fds| == PER_PROC
    ensures Named(Installed(fds, g), h) == Named(fds, h) + (if h == g && FreeSlot(fds, 3) < PER_PROC then 1 else 0)
  {
    var k := FreeSlot(fds, 3);
    if k < PER_PROC {
      NamedSet(fds, h, 3, k, g);
    }
  }

  // get_free_slot_in_global: the first slot of file_table from k on whose fd_inode is NULL.
  function FreeGlobal(files: seq<Desc>, k: nat): (r: nat)
    requires k <= |files|
    ensures k <= r <= |files| && (r < |files| ==> !files[r].open)
    ensures forall j :: k <= j < r ==> files[j].open
    decreases |files| - k
  {
    if k == |files| || !files[k].open then k else FreeGlobal(files, k + 1)
  }

  // sys_pipe with the slot of file_table it found.
  function Piped(s: Sys, p: nat, g: nat): Sys
    requires Shaped(s) && p < |s.procs| && 3 <= g < MAX_FILE_OPEN
  {
    var fds := Installed(Installed(s.procs[p], g), g);
    s.(files := s.files[g := Desc(true, true, 2, s.taken)], procs := s.procs[p := fds], taken := s.taken + 1)
  }

  // file_open with the slot of file_table it found.
  function Opened(s: Sys, p: nat, g: nat): Sys
    requires Shaped(s) && p < |s.procs| && 3 <= g < MAX_FILE_OPEN
  {
    s.(files := s.files[g := Desc(true, false, 0, 0)], procs := s.procs[p := Installed(s.procs[p], g)])
  }

  // A second free slot after the first.
  predicate TwoFree(fds: Fds)
    requires |fds| == PER_PROC
  {
    var k := FreeSlot(fds, 3);
    k < PER_PROC && FreeSlot(fds, k + 1) < PER_PROC
  }

  lemma SecondInstall(fds: Fds, g: nat)
    requires |fds| == PER_PROC
    ensures FreeSlot(fds, 3) < PER_PROC && FreeSlot(Installed(fds, g), 3) < PER_PROC <==> TwoFree(fds)
  {
    var k := FreeSlot(fds, 3);
    if k < PER_PROC {
      var r, q := FreeSlot(Installed(fds, g), 3), FreeSlot(fds, k + 1);
      if r < PER_PROC {
        assert fds[r] == -1 && r > k;
      }
      if q < PER_PROC {
        assert Installed(fds, g)[q] == -1;
      }
    }
  }

  // The two ends are the first two free slots from 3 on, -1 where there is none; they name g now, and the
  // other slots are as before.
  ghost predicate EndsAt(fds: Fds, fds': Fds, reader: int, writer: int, g: nat)
    requires |fds| == PER_PROC
  {
    && |fds'| == PER_PROC && IsFreeSlot(fds, 3, reader)
    && (if reader == -1 then writer == -1 else IsFreeSlot(fds, reader + 1, writer))
    && forall k :: 0 <= k < PER_PROC ==> fds'[k] == if k == reader || k == writer then g else fds[k]
  }

  predicate IsFreeSlot(fds: Fds, k: int, r: int)
    requires |fds| == PER_PROC && k >= 0
  {
    && (r == -1 || (k <= r < PER_PROC && fds[r] == -1))
    && forall j :: k <= j < (if r == -1 then PER_PROC else r) ==> fds[j] != -1
  }

  function SlotOrNone(fds: Fds): int
    requires |fds| == PER_PROC
  {
    if FreeSlot(fds, 3) < PER_PROC then FreeSlot(fds, 3) else -1
  }

  lemma EndsAre(fds: Fds, g: nat)
    requires |fds| == PER_PROC
    ensures var fds1 := Installed(fds, g);
      EndsAt(fds, Installed(fds1, g), SlotOrNone(fds), SlotOrNone(fds1), g)
  {
    var fds1 := Installed(fds, g);
    var r := SlotOrNone(fds);
    assert r != -1 ==> fds1 == fds[r := g];
  }

  // Pages and files other than g are as before; g was closed.
  lemma NewDesc(s: Sys, s': Sys, g: nat)
    requires Inv(s) && Shaped(s') && 3 <= g < MAX_FILE_OPEN && !s.files[g].open && s'.freed == s.freed
    requires s'.taken >= s.taken
    requires forall h: nat :: h < MAX_FILE_OPEN && h != g ==> s'.files[h] == s.files[h]
    ensures forall page: nat :: page < s.taken ==> PageOk(s', page)
  {
    forall page: nat | page < s.taken
      ensures PageOk(s', page)
    {
      assert PageOk(s, page);
      if s.freed[page] == 0 {
        var h :| 3 <= h < MAX_FILE_OPEN && HasPage(s, h, page);
        assert HasPage(s', h, page);
      }
    }
  }

  // A new pipe has the count 2: right exactly when both ends got a slot.
  lemma PipeKeeps(s: Sys, p: nat, g: nat)
    requires Inv(s) && p < |s.procs| && 3 <= g < MAX_FILE_OPEN && !s.files[g].open
    ensures Inv(Piped(s, p, g)) <==> TwoFree(s.procs[p])
  {
    var s', fds := Piped(s, p, g), s.procs[p];
    var fds1 := Installed(fds, g);
    SecondInstall(fds, g);
    assert DescOk(s, g);
    forall h: nat
      ensures Named(s'.procs[p], h) == Named(fds, h) + (if h == g then Ends(fds, g) else 0)
      ensures Count(s'.procs, h) == Count(s.procs, h) + (if h == g then Ends(fds, g) else 0)
    {
      InstalledCounts(fds, g, h);
      InstalledCounts(fds1, g, h);
      CountSet(s.procs, p, s'.procs[p], h);
    }
    if TwoFree(fds) {
      NewPipeDescs(s, p, g);
      NewDesc(s, s', g);
      NewPipeRest(s, p, g);
    } else {
      assert !DescOk(s', g);
    }
  }

  lemma NewPipeRest(s: Sys, p: nat, g: nat)
    requires Inv(s) && p < |s.procs| && 3 <= g < MAX_FILE_OPEN && !s.files[g].open
    requires forall h: nat :: h != g ==> Named(Piped(s, p, g).procs[p], h) == Named(s.procs[p], h)
    ensures var s' := Piped(s, p, g);
      && PageOk(s', s.taken)
      && (forall h: nat, i: nat :: 3 <= h < i < MAX_FILE_OPEN && OpenPipe(s'.files[h]) && OpenPipe(s'.files[i]) ==>
            s'.files[h].page != s'.files[i].page)
      && (forall q: nat, h: nat :: q < |s'.procs| && 3 <= h < MAX_FILE_OPEN && !s'.files[h].pipe ==>
          Named(s'.procs[q], h) <= 1)
  {
    var s' := Piped(s, p, g);
    assert HasPage(s', g, s.taken);
    forall h: nat | 3 <= h < MAX_FILE_OPEN && h != g && s.files[h].open && s.files[h].pipe
      ensures s.files[h].page < s.taken
    {
      assert DescOk(s, h);
    }
    forall q: nat, h: nat | q < |s'.procs| && 3 <= h < MAX_FILE_OPEN && !s'.files[h].pipe
      ensures Named(s'.procs[q], h) <= 1
    {
      assert Named(s.procs[q], h) <= 1;
    }
  }

  // How many of the two installs of sys_pipe succeed.
  function Ends(fds: Fds, g: nat): nat
    requires |fds| == PER_PROC
  {
    (if FreeSlot(fds, 3) < PER_PROC then 1 else 0) + (if FreeSlot(Installed(fds, g), 3) < PER_PROC then 1 else 0)
  }

  lemma NewPipeDescs(s: Sys, p: nat, g: nat)
    requires Inv(s) && p < |s.procs| && 3 <= g < MAX_FILE_OPEN && !s.files[g].open
    requires Count(Piped(s, p, g).procs, g) == 2
    requires forall h: nat :: h != g ==> Count(Piped(s, p, g).procs, h) == Count(s.procs, h)
    ensures forall h: nat :: 3 <= h < MAX_FILE_OPEN ==> DescOk(Piped(s, p, g), h)
  {
    forall h: nat | 3 <= h < MAX_FILE_OPEN
      ensures DescOk(Piped(s, p, g), h)
    {
      assert DescOk(s, h);
    }
  }

  lemma OpenKeeps(s: Sys, p: nat, g: nat)
    requires Inv(s) && p < |s.procs| && 3 <= g < MAX_FILE_OPEN && !s.files[g].open
    ensures Inv(Opened(s, p, g))
  {
    var s', fds := Opened(s, p, g), s.procs[p];
    assert DescOk(s, g);
    CountSet(s.procs, p, fds, g);
    forall h: nat
      ensures Named(s'.procs[p], h) <= Named(fds, h) + (if h == g then 1 else 0)
      ensures h != g ==> Count(s'.procs, h) == Count(s.procs, h) && Named(s'.procs[p], h) == Named(fds, h)
    {
      InstalledCounts(fds, g, h);
      CountSet(s.procs, p, s'.procs[p], h);
    }
    forall h: nat | 3 <= h < MAX_FILE_OPEN
      ensures DescOk(s', h)
    {
      assert DescOk(s, h);
    }
    NewDesc(s, s', g);
    OpenOnce(s, p, g);
  }

  lemma OpenOnce(s: Sys, p: nat, g: nat)
    requires Inv(s) && p < |s.procs| && 3 <= g < MAX_FILE_OPEN && !s.files[g].open
    ensures var s' := Opened(s, p, g);
      forall q: nat, h: nat :: q < |s'.procs| && 3 <= h < MAX_FILE_OPEN && !s'.files[h].pipe ==>
          Named(s'.procs[q], h) <= 1
  {
    var s' := Opened(s, p, g);
    forall q: nat, h: nat | q < |s'.procs| && 3 <= h < MAX_FILE_OPEN && !s'.files[h].pipe
      ensures Named(s'.procs[q], h) <= 1
    {
      assert DescOk(s, h);
      InstalledCounts(s.procs[p], g, h);
      CountSet(s.procs, q, s.procs[q], h);
      assert h != g ==> Named(s.procs[q], h) <= 1;
    }
  }

  // A file_open for writing while another has the file: -1, with the slot of file_table taken and no
  // descriptor that names it.
  function Denied(s: Sys, g: nat): Sys
    requires g < |s.files|
  {
    s.(files := s.files[g := Desc(true, false, 0, 0)])
  }

  lemma DeniedKeeps(s: Sys, g: nat)
    requires Inv(s) && 3 <= g < MAX_FILE_OPEN && !s.files[g].open
    ensures Inv(Denied(s, g))
  {
    var s' := Denied(s, g);
    forall h: nat | 3 <= h < MAX_FILE_OPEN
      ensures DescOk(s', h)
    {
      assert DescOk(s, h);
    }
    NewDesc(s, s', g);
    NamesOnce(s, s', g);
  }

  lemma NamesOnce(s: Sys, s': Sys, g: nat)
    requires Inv(s) && 3 <= g < MAX_FILE_OPEN && !s.files[g].open && s'.procs == s.procs
    requires |s'.files| == |s.files| && forall h: nat :: h < |s.files| && h != g ==> s'.files[h] == s.files[h]
    ensures forall q: nat, h: nat :: q < |s'.procs| && 3 <= h < MAX_FILE_OPEN && !s'.files[h].pipe ==>
        Named(s'.procs[q], h) <= 1
  {
    forall q: nat, h: nat | q < |s'.procs| && 3 <= h < MAX_FILE_OPEN && !s'.files[h].pipe
      ensures Named(s'.procs[q], h) <= 1
    {
      assert DescOk(s, g);
      CountSet(s.procs, q, s.procs[q], h);
    }
  }

  // ---- redirecting ----

  function Redirected(fds: Fds, oldFd: nat, newFd: nat): Fds
    requires |fds| == PER_PROC && oldFd < PER_PROC && newFd < PER_PROC
  {
    fds[oldFd := if newFd < 3 then newFd else fds[newFd]]
  }

  // Redirecting a standard slot and then back to itself undoes the redirection.
  lemma RedirectUndone(fds: Fds, oldFd: nat, newFd: nat)
    requires |fds| == PER_PROC && oldFd < 3 && newFd < PER_PROC && fds[oldFd] == oldFd
    ensures Redirected(Redirected(fds, oldFd, newFd), oldFd, oldFd) == fds
    ensures Redirected(fds, oldFd, newFd)[oldFd] == if newFd < 3 then newFd else fds[newFd]
  {
  }

  lemma RedirectKeeps(s: Sys, p: nat, oldFd: nat, newFd: nat)
    requires Inv(s) && p < |s.procs| && oldFd < 3 && newFd < PER_PROC
    ensures Inv(s.(procs := s.procs[p := Redirected(s.procs[p], oldFd, newFd)]))
  {
    var fds := Redirected(s.procs[p], oldFd, newFd);
    var s' := s.(procs := s.procs[p := fds]);
    forall g: nat
      ensures Named(fds, g) == Named(s.procs[p], g) && Count(s'.procs, g) == Count(s.procs, g)
    {
      assert fds[3..] == s.procs[p][3..];
      NamedSame(s.procs[p], fds, g, 3);
      CountSet(s.procs, p, fds, g);
    }
    forall g: nat | 3 <= g < MAX_FILE_OPEN
      ensures DescOk(s', g)
    {
      assert DescOk(s, g);
    }
    forall page: nat | page < s.taken
      ensures PageOk(s', page)
    {
      assert PageOk(s, page);
      if s.freed[page] == 0 {
        var h :| 3 <= h < MAX_FILE_OPEN && HasPage(s, h, page);
        assert HasPage(s', h, page);
      }
    }
  }

  // ---- runs ----

  // The calls that matter to pipes, by the process that makes them.
  datatype Act = Pipe(p: nat) | Open(p: nat, denied: bool) | Close(p: nat, k: nat)
      | Redirect(p: nat, oldFd: nat, newFd: nat) | Fork(p: nat) | Exit(p: nat)

  // The call is made by a live process, does not run into an ASSERT or out of file_table, and keeps to
  // the conditions under which the count is kept.
  ghost predicate Allowed(s: Sys, act: Act)
    requires Shaped(s)
  {
    && act.p < |s.procs|
    && match act
       case Pipe(p) => FreeGlobal(s.files, 3) < MAX_FILE_OPEN && TwoFree(s.procs[p])
       case Open(p, denied) => FreeGlobal(s.files, 3) < MAX_FILE_OPEN
       case Close(p, k) => 3 <= k < PER_PROC && s.procs[p][k] != -1
           && (s.files[s.procs[p][k]].pipe || Count(s.procs, s.procs[p][k]) == 1)
       case Redirect(p, oldFd, newFd) => oldFd < 3 && newFd < PER_PROC
       case Fork(p) => true
       case Exit(p) => SoleFrom(s, p, 3)
  }

  ghost function Step(s: Sys, act: Act): Sys
    requires Shaped(s) && Allowed(s, act)
  {
    match act
    case Pipe(p) => Piped(s, p, FreeGlobal(s.files, 3))
    case Open(p, denied) => if denied then Denied(s, FreeGlobal(s.files, 3)) else Opened(s, p, FreeGlobal(s.files, 3))
    case Close(p, k) => Closed(s, p, k)
    case Redirect(p, oldFd, newFd) => s.(procs := s.procs[p := Redirected(s.procs[p], oldFd, newFd)])
    case Fork(p) => Forked(s, p)
    case Exit(p) => Exited(s, p)
  }

  lemma StepKeeps(s: Sys, act: Act)
    requires Inv(s) && Allowed(s, act)
    ensures Inv(Step(s, act))
  {
    match act
    case Pipe(p) => PipeKeeps(s, p, FreeGlobal(s.files, 3));
    case Open(p, denied) =>
      if denied {
        DeniedKeeps(s, FreeGlobal(s.files, 3));
      } else {
        OpenKeeps(s, p, FreeGlobal(s.files, 3));
      }
    case Close(p, k) => CloseKeeps(s, p, k);
    case Redirect(p, oldFd, newFd) => RedirectKeeps(s, p, oldFd, newFd);
    case Fork(p) => ForkKeeps(s, p);
    case Exit(p) => ExitKeeps(s, p);
  }

  // The states of a run.
  ghost predicate Run(states: seq<Sys>, acts: seq<Act>) {
    && |states| == |acts| + 1
    && forall n :: 0 <= n < |acts| ==> Follows(states, acts, n)
  }

  ghost predicate Follows(states: seq<Sys>, acts: seq<Act>, n: nat)
    requires n < |acts| && |states| == |acts| + 1
  {
    var next := n + 1;
    Shaped(states[n]) && Allowed(states[n], acts[n]) && states[next] == Step(states[n], acts[n])
  }

  // fd_pos of an open pipe is the number of slots >= 3 that name it, and its page is not given back.
  ghost predicate CountsRight(s: Sys)
    requires Shaped(s)
  {
    forall g: nat :: 3 <= g < MAX_FILE_OPEN && OpenPipe(s.files[g]) ==>
      s.files[g].pos == Count(s.procs, g) && s.files[g].pos > 0 && s.freed[s.files[g].page] == 0
  }

  // A page that no open pipe has any more has been given back once.
  ghost predicate PagesReturned(s: Sys)
    requires Shaped(s)
  {
    forall page: nat :: page < s.taken && (forall g :: 3 <= g < MAX_FILE_OPEN ==> !HasPage(s, g, page)) ==>
      s.freed[page] == 1
  }

  // In every state of a run from an orderly one, an open pipe's fd_pos is the number of slots >= 3
  // that name it, and its page has been given back no time while that is so and once afterwards.
  lemma {:induction false} PipesBalance(states: seq<Sys>, acts: seq<Act>, n: nat)
    requires Run(states, acts) && Inv(states[0]) && n < |states|
    ensures Inv(states[n])
    ensures CountsRight(states[n]) && PagesReturned(states[n])
  {
    if n > 0 {
      PipesBalance(states, acts, n - 1);
      assert Follows(states, acts, n - 1);
      StepKeeps(states[n - 1], acts[n - 1]);
    }
    BalanceNow(states[n]);
  }

  lemma BalanceNow(s: Sys)
    requires Inv(s)
    ensures CountsRight(s) && PagesReturned(s)
  {
    forall g: nat | 3 <= g < MAX_FILE_OPEN && s.files[g].open && s.files[g].pipe
      ensures s.files[g].pos == Count(s.procs, g) && s.files[g].pos > 0 && s.freed[s.files[g].page] == 0
    {
      assert DescOk(s, g);
    }
    forall page: nat | page < s.taken && (forall g :: 3 <= g < MAX_FILE_OPEN ==> !HasPage(s, g, page))
      ensures s.freed[page] == 1
    {
      assert PageOk(s, page);
    }
  }

  // file_table and the descriptors of the first process as the kernel starts.
  function Boot(): (s: Sys)
    ensures Shaped(s)
  {
    Sys(seq<Desc>(MAX_FILE_OPEN, i => Desc(false, false, 0, 0)), [[0, 1, 2, -1, -1, -1, -1, -1]], multiset{}, 0)
  }

  lemma BootInv()
    ensures Inv(Boot())
  {
    var s := Boot();
    forall g: nat
      ensures Count(s.procs, g) == 0 && (g >= 3 ==> Named(s.procs[0], g) == 0)
    {
      NamedNone(s.procs[0], g, 3);
      assert s.procs[..0] == [];
    }
  }

  // A file shared by a fork and closed by one of the two leaves a name behind: the next pipe gets its
  // slot in file_table and three names for a count of 2.
  lemma SharedFileBreaksPipe()
    ensures var s1 := Forked(Opened(Boot(), 0, 3), 0);
      var s2 := Piped(Closed(s1, 0, 3), 0, 3);
      Inv(s1) && Shaped(s2) && s2.files[3].open && s2.files[3].pipe && s2.files[3].pos == 2 && Count(s2.procs, 3) == 3
  {
    BootInv();
    var s0 := Opened(Boot(), 0, 3);
    OpenKeeps(Boot(), 0, 3);
    ForkKeeps(s0, 0);
    var free: Fds := [0, 1, 2, -1, -1, -1, -1, -1];
    var one: Fds := [0, 1, 2, 3, -1, -1, -1, -1];
    var two: Fds := [0, 1, 2, 3, 3, -1, -1, -1];
    InstallsTwice(free, one, two);
    assert s0.procs == [free][0 := one] == [one];
    var s1 := Forked(s0, 0);
    assert s1.procs == [one] + [one] == [one, one];
    CountedIs(s0.files, one, 3, 3);
    var s2 := Closed(s1, 0, 3);
    assert one[3 := -1] == free;
    assert s2.procs == [one, one][0 := free] == [free, one];
    var s3 := Piped(s2, 0, 3);
    assert s3.procs == [free, one][0 := two] == [two, one];
    CountTwo(two, one, 3);
    NamedTwo(two);
    NamedTwo(one);
  }

  lemma InstallsTwice(free: Fds, one: Fds, two: Fds)
    requires free == [0, 1, 2, -1, -1, -1, -1, -1] && one == [0, 1, 2, 3, -1, -1, -1, -1]
    requires two == [0, 1, 2, 3, 3, -1, -1, -1]
    ensures Installed(free, 3) == one && Installed(one, 3) == two
  {
    assert free[3] == -1 && one[3] != -1 && one[4] == -1;
    assert FreeSlot(free, 3) == 3;
    assert FreeSlot(one, 3) == FreeSlot(one, 4) == 4;
    assert free[3 := 3] == one && one[4 := 3] == two;
  }

  lemma CountTwo(a: Fds, b: Fds, g: int)
    ensures Count([a, b], g) == Named(a, g) + Named(b, g)
  {
    var both, one := [a, b], [a];
    assert both[..1] == one && one[..0] == [];
    assert Count(both, g) == Count(one, g) + Named(b, g);
    assert Count(one, g) == Named(a, g);
  }

  lemma NamedTwo(fds: Fds)
    requires |fds| == PER_PROC && fds[5] != 3 && fds[6] != 3 && fds[7] != 3
    ensures Named(fds, 3) == (if fds[3] == 3 then 1 else 0) + (if fds[4] == 3 then 1 else 0)
  {
    NamedNone(fds, 3, 5);
    assert NamedFrom(fds, 3, 4) == (if fds[4] == 3 then 1 else 0) + NamedFrom(fds, 3, 5);
  }

  // While process p exits: s is the state as it is, t the one with the slots before k cleared.
  ghost predicate Tracks(s: Sys, t: Sys, p: nat, k: nat) {
    && Shaped(s) && Shaped(t) && p < |s.procs| == |t.procs|
    && s.files == t.files && s.freed == t.freed && s.taken == t.taken
    && (forall j :: 3 <= k <= j < PER_PROC ==> s.procs[p][j] == t.procs[p][j])
    && Without(s.procs, p) == Without(t.procs, p)
  }

  lemma TracksNext(s: Sys, t: Sys, p: nat, k: nat)
    requires Tracks(s, t, p, k) && 3 <= k < PER_PROC && s.procs[p][k] != -1
    ensures Tracks(Dropped(s, s.procs[p][k]), Closed(t, p, k), p, k + 1)
    ensures Tracks(Closed(s, p, k), Closed(t, p, k), p, k + 1)
  {
    assert Without(Closed(s, p, k).procs, p) == Without(s.procs, p);
    assert Without(Closed(t, p, k).procs, p) == Without(t.procs, p);
  }

  // ---- the calls ----

  datatype PipeResult = NoSlot | NoPage | Ends(reader: int, writer: int)

  class FdTables {
    var files: seq<Desc>
    var procs: seq<Fds>
    var freed: multiset<nat>
    var taken: nat

    ghost function S(): Sys
      reads this
    {
      Sys(files, procs, freed, taken)
    }

    constructor ()
      ensures S() == Boot()
    {
      files, procs, freed, taken := Boot().files, Boot().procs, multiset{}, 0;
    }

    method GetFreeSlotInGlobal() returns (g: Option<nat>)
      requires Shaped(S())
      ensures g == if FreeGlobal(files, 3) < MAX_FILE_OPEN then Some(FreeGlobal(files, 3)) else None
    {
      var i := 3;
      while i < MAX_FILE_OPEN && files[i].open
        invariant 3 <= i <= |files| && FreeGlobal(files, 3) == FreeGlobal(files, i)
      {
        i := i + 1;
      }
      return if i == MAX_FILE_OPEN then None else Some(i);
    }

    method PcbFdInstall(p: nat, g: nat) returns (k: int)
      requires Shaped(S()) && p < |procs| && 3 <= g < MAX_FILE_OPEN
      modifies `procs
      ensures procs == old(procs)[p := Installed(old(procs)[p], g)]
      ensures k == if FreeSlot(old(procs)[p], 3) < PER_PROC then FreeSlot(old(procs)[p], 3) else -1
    {
      var fds := procs[p];
      var i := 3;
      while i < PER_PROC && fds[i] != -1
        invariant 3 <= i <= |fds| && FreeSlot(fds, 3) == FreeSlot(fds, i)
      {
        i := i + 1;
      }
      if i == PER_PROC {
        assert procs[p := fds] == procs;
        return -1;
      }
      procs := procs[p := fds[i := g]];
      return i;
    }

    // sys_pipe. hasPage says whether get_kernel_pages has a page for the buffer; NoSlot is a full
    // file_table, which the source does not test for.
    method SysPipe(p: nat, hasPage: bool) returns (r: PipeResult)
      requires Shaped(S()) && p < |procs|
      modifies this
      ensures r.NoSlot? <==> FreeGlobal(old(files), 3) == MAX_FILE_OPEN
      ensures r.NoPage? <==> !r.NoSlot? && !hasPage
      ensures r.Ends? ==> S() == Piped(old(S()), p, FreeGlobal(old(files), 3))
      ensures r.Ends? ==> (TwoFree(old(procs)[p]) <==> r.reader != -1 && r.writer != -1)
      ensures r.Ends? ==> EndsAt(old(procs)[p], procs[p], r.reader, r.writer, FreeGlobal(old(files), 3))
      ensures !r.Ends? ==> S() == old(S())
    {
      var g := GetFreeSlotInGlobal();
      if g.None? {
        return NoSlot;
      }
      if !hasPage {
        return NoPage;
      }
      SecondInstall(procs[p], g.value);
      EndsAre(procs[p], g.value);
      files := files[g.value := Desc(true, true, 2, taken)];
      taken := taken + 1;
      var reader := PcbFdInstall(p, g.value);
      var writer := PcbFdInstall(p, g.value);
      return Ends(reader, writer);
    }

    // file_open; denied says that the file is opened for writing and its write_deny is set.
    method FileOpen(p: nat, denied: bool) returns (k: int)
      requires Shaped(S()) && p < |procs|
      modifies this
      ensures var g := FreeGlobal(old(files), 3);
        && (g == MAX_FILE_OPEN ==> k == -1 && S() == old(S()))
        && (g < MAX_FILE_OPEN && denied ==> k == -1 && S() == Denied(old(S()), g))
        && (g < MAX_FILE_OPEN && !denied ==> S() == Opened(old(S()), p, g))
        && (g < MAX_FILE_OPEN && !denied ==>
              k == if FreeSlot(old(procs)[p], 3) < PER_PROC then FreeSlot(old(procs)[p], 3) else -1)
    {
      var g := GetFreeSlotInGlobal();
      if g.None? {
        return -1;
      }
      files := files[g.value := Desc(true, false, 0, 0)];
      if denied {
        return -1;
      }
      k := PcbFdInstall(p, g.value);
    }

    // is_pipe, and the ASSERT of fd_local2global as the precondition.
    method IsPipe(p: nat, k: nat) returns (b: bool)
      requires Shaped(S()) && p < |procs| && k < PER_PROC && 0 <= procs[p][k] < MAX_FILE_OPEN
      ensures b == files[procs[p][k]].pipe
    {
      b := files[procs[p][k]].pipe;
    }

    // One name of a pipe less.
    method DropPipe(g: nat)
      requires Shaped(S()) && g < MAX_FILE_OPEN && files[g].pipe
      modifies `files, `freed
      ensures S() == Dropped(old(S()), g)
    {
      var f := files[g];
      var pos := if f.pos == 0 then UINT_MAX else f.pos - 1;
      files := files[g := f.(pos := pos)];
      if pos == 0 {
        freed := freed + multiset{f.page};
        files := files[g := f.(pos := 0, open := false)];
      }
    }

    // file_close.
    method FileClose(g: nat)
      requires Shaped(S()) && g < MAX_FILE_OPEN && !files[g].pipe
      modifies `files
      ensures S() == Dropped(old(S()), g)
    {
      files := files[g := files[g].(open := false)];
    }

    method SysClose(p: nat, k: nat) returns (ret: int)
      requires Shaped(S()) && p < |procs| && k < PER_PROC && (k > 2 ==> procs[p][k] != -1)
      modifies this
      ensures k <= 2 ==> ret == -1 && S() == old(S())
      ensures k > 2 ==> ret == 0 && S() == Closed(old(S()), p, k)
      ensures k > 2 ==> procs == old(procs)[p := old(procs)[p][k := -1]]
      ensures k > 2 ==> forall g :: 0 <= g < MAX_FILE_OPEN && g != old(procs)[p][k] ==> files[g] == old(files)[g]
    {
      ret := -1;
      if k > 2 {
        var isPipe := IsPipe(p, k);
        if isPipe {
          DropPipe(procs[p][k]);
        } else {
          FileClose(procs[p][k]);
        }
        procs := procs[p := procs[p][k := -1]];
        ret := 0;
      }
    }

    method SysFdRedirect(p: nat, oldFd: nat, newFd: nat)
      requires Shaped(S()) && p < |procs| && oldFd < PER_PROC && newFd < PER_PROC
      modifies `procs
      ensures procs == old(procs)[p := Redirected(old(procs)[p], oldFd, newFd)]
      ensures newFd < 3 ==> procs[p][oldFd] == newFd
      ensures newFd >= 3 ==> procs[p][oldFd] == old(procs)[p][newFd]
      ensures forall k :: 0 <= k < PER_PROC && k != oldFd ==> procs[p][k] == old(procs)[p][k]
    {
      if newFd < 3 {
        procs := procs[p := procs[p][oldFd := newFd]];
      } else {
        procs := procs[p := procs[p][oldFd := procs[p][newFd]]];
      }
    }

    // update_inode_open_cnts, and the copy of the descriptor table that fork makes.
    method Fork(p: nat)
      requires Shaped(S()) && p < |procs|
      modifies this
      ensures S() == Forked(old(S()), p) && Inherits(old(S()), S(), p)
    {
      ForkIs(S(), p);
      var fds := procs[p];
      var k := 3;
      while k < PER_PROC
        invariant 3 <= k <= PER_PROC && |files| == MAX_FILE_OPEN
        invariant Counted(old(files), fds, 3) == Counted(files, fds, k)
        invariant procs == old(procs) && freed == old(freed) && taken == old(taken)
      {
        var g := fds[k];
        if g != -1 && files[g].pipe {
          files := files[g := files[g].(pos := files[g].pos + 1)];
        }
        k := k + 1;
      }
      procs := procs + [fds];
    }

    method ReleaseSlot(p: nat, k: nat)
      requires Shaped(S()) && p < |procs| && 3 <= k < PER_PROC && procs[p][k] != -1
      modifies this
      ensures S() == if old(files)[old(procs)[p][k]].pipe then Dropped(old(S()), old(procs)[p][k])
          else Closed(old(S()), p, k)
    {
      var isPipe := IsPipe(p, k);
      if isPipe {
        DropPipe(procs[p][k]);
      } else {
        var ret := SysClose(p, k);
      }
    }

    // The last loop of release_prog_resource: the slots of pipes are not cleared, but the process is on
    // its way out.
    method ReleaseDescriptors(p: nat)
      requires Shaped(S()) && p < |procs|
      modifies this
      ensures S() == Exited(old(S()), p)
    {
      ghost var t := S();
      ghost var want := CloseAll(t, p, 3);
      var k := 3;
      while k < PER_PROC
        invariant 3 <= k <= PER_PROC && Tracks(S(), t, p, k) && want == CloseAll(t, p, k)
      {
        if procs[p][k] != -1 {
          TracksNext(S(), t, p, k);
          t := Closed(t, p, k);
          ReleaseSlot(p, k);
        }
        k := k + 1;
      }
      procs := Without(procs, p);
    }
  }
}
