// fs/dir.c: sync_dir_entry, search_dir_entry, delete_dir_entry, dir_read and dir_is_empty on a
// directory within its direct blocks.
module Directories {
  import opened Options
  import opened Bits
  import opened Blocks
  import opened Slots
  import opened Files

  // ---- what a directory must look like ----

  // Free slots are zeroed, used ones have a name, and blocks are whole.
  predicate Clean(e: Slot) {
    Storable(e) && (if e.ftype == 0 then e == EMPTY else e.name != [])
  }

  ghost predicate CleanTable(t: Table) {
    && (forall k :: 0 <= k < |t| ==> |t[k]| == 0 || |t[k]| == PER_SECTOR)
    && (forall k, j :: 0 <= k < |t| && 0 <= j < |t[k]| ==> Clean(t[k][j]))
  }

  // The size of n entries, and the entry at a position.
  function Bytes(n: nat): nat {
    24 * n
  }

  function Index(pos: nat): nat {
    pos / 24
  }

  ghost predicate DirOk(t: Table, size: nat) {
    && |t| == DIRECT && CleanTable(t) && Unique(Entries(t))
    && size == Bytes(|Entries(t)|)
  }

  // ---- adding ----

  function FirstFree(s: seq<Slot>): (j: nat)
    ensures j <= |s| && (j < |s| ==> s[j].ftype == 0)
    ensures forall i :: 0 <= i < j ==> s[i].ftype != 0
  {
    if s == [] || s[0].ftype == 0 then 0 else FirstFree(s[1..]) + 1
  }

  datatype Place = NewBlock(k: nat) | InBlock(k: nat, j: nat) | Beyond

  // The first place for an entry from block k on: a block without a sector, or a free slot.
  function PlaceFor(t: Table, k: nat): (p: Place)
    requires k <= |t|
    ensures p.NewBlock? ==> k <= p.k < |t| && t[p.k] == []
    ensures p.InBlock? ==> k <= p.k < |t| && p.j < |t[p.k]| && t[p.k][p.j].ftype == 0
    decreases |t| - k
  {
    if k == |t| then Beyond
    else if t[k] == [] then NewBlock(k)
    else if FirstFree(t[k]) < |t[k]| then InBlock(k, FirstFree(t[k]))
    else PlaceFor(t, k + 1)
  }

  function NewSector(e: Slot): (s: seq<Slot>)
    ensures |s| == PER_SECTOR && s[0] == e && forall j :: 0 < j < PER_SECTOR ==> s[j] == EMPTY
  {
    seq(PER_SECTOR, j => EMPTY)[0 := e]
  }

  function Added(t: Table, p: Place, e: Slot): Table
    requires p.NewBlock? ==> p.k < |t|
    requires p.InBlock? ==> p.k < |t| && p.j < |t[p.k]|
  {
    match p
    case NewBlock(k) => t[k := NewSector(e)]
    case InBlock(k, j) => t[k := t[k][j := e]]
    case Beyond => t
  }

  lemma {:induction false} NothingValid(s: seq<Slot>)
    requires forall i :: 0 <= i < |s| ==> s[i].ftype == 0
    ensures Valid(s) == []
  {
    if s != [] {
      NothingValid(s[1..]);
    }
  }

  lemma NewSectorValid(e: Slot)
    requires e.ftype != 0
    ensures Valid(NewSector(e)) == [e]
  {
    var s := seq(PER_SECTOR, j => EMPTY);
    SlotReplaced(s, 0, e);
    NothingValid(s[..0]);
    NothingValid(s[1..]);
    assert Valid([e]) == [e];
  }

  // The entries in use before and after an addition: one more, somewhere.
  lemma AddedEntries(t: Table, p: Place, e: Slot) returns (a: seq<Slot>, b: seq<Slot>)
    requires !p.Beyond? && p.k < |t| && e.ftype != 0
    requires p.NewBlock? ==> t[p.k] == []
    requires p.InBlock? ==> p.j < |t[p.k]| && t[p.k][p.j].ftype == 0
    ensures Entries(t) == a + b && Entries(Added(t, p, e)) == a + [e] + b
  {
    var k := p.k;
    assert t[k := t[k]] == t;
    BlockReplaced(t, k, t[k]);
    assert Valid([e]) == [e];
    if p.NewBlock? {
      a, b := Entries(t[..k]), Entries(t[k + 1..]);
      BlockReplaced(t, k, NewSector(e));
      NewSectorValid(e);
      assert a + [] + b == a + b;
    } else {
      var s, j := t[k], p.j;
      a, b := Entries(t[..k]) + Valid(s[..j]), Valid(s[j + 1..]) + Entries(t[k + 1..]);
      assert s[j := s[j]] == s;
      SlotReplaced(s, j, s[j]);
      assert Valid([s[j]]) == [];
      SlotReplaced(s, j, e);
      BlockReplaced(t, k, s[j := e]);
      Regroup(Entries(t[..k]), Valid(s[..j]), [], Valid(s[j + 1..]), Entries(t[k + 1..]));
      Regroup(Entries(t[..k]), Valid(s[..j]), [e], Valid(s[j + 1..]), Entries(t[k + 1..]));
    }
  }

  lemma Regroup(p: seq<Slot>, a: seq<Slot>, m: seq<Slot>, b: seq<Slot>, q: seq<Slot>)
    ensures p + (a + m + b) + q == (p + a) + m + (b + q)
    ensures m == [] ==> p + (a + m + b) + q == (p + a) + (b + q)
  {
  }

  lemma AddedClean(t: Table, p: Place, e: Slot)
    requires CleanTable(t) && !p.Beyond? && p.k < |t| && Clean(e)
    requires p.InBlock? ==> p.j < |t[p.k]|
    ensures CleanTable(Added(t, p, e))
  {
  }

  // Adding an entry of a new name adds that key to the map and nothing else, and the directory
  // stays in order; and an entry whose name is taken never leaves it in order.
  lemma AddIsInsert(t: Table, size: nat, e: Slot)
    requires DirOk(t, size) && Clean(e) && e.ftype != 0 && !PlaceFor(t, 0).Beyond?
    ensures var t' := Added(t, PlaceFor(t, 0), e);
      && (DirOk(t', size + ENTRY_SIZE) <==> e.name !in View(Entries(t)))
      && (e.name !in View(Entries(t)) ==> View(Entries(t')) == View(Entries(t))[e.name := e])
  {
    var a, b := AddedEntries(t, PlaceFor(t, 0), e);
    AddedClean(t, PlaceFor(t, 0), e);
    UniqueAdd(a, b, e);
    if e.name !in View(a + b) {
      ViewAdd(a, b, e);
    }
  }

  // All slots of the blocks from k up to m are there and in use.
  ghost predicate FullFrom(t: Table, k: nat, m: nat)
    requires m <= |t|
  {
    forall i :: k <= i < m ==> t[i] != [] && forall j :: 0 <= j < |t[i]| ==> t[i][j].ftype != 0
  }

  // The place is the first: every block before it is full, and in its own block every slot before it in use.
  lemma {:induction false} PlaceIsFirst(t: Table, k: nat)
    requires k <= |t|
    ensures match PlaceFor(t, k)
      case NewBlock(b) => b < |t| && FullFrom(t, k, b) && t[b] == []
      case InBlock(b, j) =>
        && b < |t| && j < |t[b]| && FullFrom(t, k, b) && t[b][j].ftype == 0
        && forall i :: 0 <= i < j ==> t[b][i].ftype != 0
      case Beyond => FullFrom(t, k, |t|)
    decreases |t| - k
  {
    if k < |t| && t[k] != [] && FirstFree(t[k]) == |t[k]| {
      PlaceIsFirst(t, k + 1);
    }
  }

  // There is no room among the direct blocks exactly when all their slots are in use.
  lemma {:induction false} BeyondIsFull(t: Table, k: nat)
    requires CleanTable(t) && k <= |t|
    ensures PlaceFor(t, k).Beyond? <==>
      forall i :: k <= i < |t| ==> |t[i]| == PER_SECTOR && forall j :: 0 <= j < PER_SECTOR ==> t[i][j].ftype != 0
    decreases |t| - k
  {
    if k < |t| {
      BeyondIsFull(t, k + 1);
      assert FirstFree(t[k]) < |t[k]| ==> t[k][FirstFree(t[k])].ftype == 0;
    }
  }

  // ---- searching ----

  // search_dir_entry does not look at types, but for a name that is not empty it finds the entry in use.
  lemma {:induction false} SearchSkipsFree(s: seq<Slot>, name: Name)
    requires name != [] && forall j :: 0 <= j < |s| ==> Clean(s[j])
    ensures FirstNamed(s, name) == FirstNamed(Valid(s), name)
  {
    if s != [] {
      SearchSkipsFree(s[1..], name);
      var head := if s[0].ftype != 0 then [s[0]] else [];
      FirstNamedConcat(head, Valid(s[1..]), name);
      assert s[0].ftype == 0 ==> s[0].name == [];
    }
  }

  lemma {:induction false} FlatClean(t: Table)
    requires CleanTable(t)
    ensures forall j :: 0 <= j < |Flat(t)| ==> Clean(Flat(t)[j])
  {
    if t != [] {
      assert forall k :: 0 <= k < |t[1..]| ==> t[1..][k] == t[k + 1];
      FlatClean(t[1..]);
    }
  }

  lemma SearchIsLookup(t: Table, name: Name)
    requires CleanTable(t) && name != []
    ensures FirstNamed(Flat(t), name).Some? <==> name in View(Entries(t))
    ensures name in View(Entries(t)) ==> FirstNamed(Flat(t), name).value == View(Entries(t))[name]
  {
    FlatClean(t);
    SearchSkipsFree(Flat(t), name);
    ViewAt(Entries(t), name);
  }

  // ---- deleting ----

  predicate IsDot(e: Slot) {
    e.ftype != 0 && e.name == DOT
  }

  // In use, and neither "." nor "..".
  predicate Named(e: Slot) {
    e.ftype != 0 && e.name != DOT && e.name != DOT_DOT
  }

  predicate Deletable(e: Slot, ino: nat) {
    Named(e) && e.ino == ino
  }

  function FindIno(s: seq<Slot>, ino: nat): (j: nat)
    ensures j <= |s| && (j < |s| ==> Deletable(s[j], ino))
    ensures forall i :: 0 <= i < j ==> !Deletable(s[i], ino)
  {
    if s == [] || Deletable(s[0], ino) then 0 else FindIno(s[1..], ino) + 1
  }

  // The block of the first entry to delete, from block k on.
  function FindBlock(t: Table, ino: nat, k: nat): (b: nat)
    requires k <= |t|
    ensures k <= b <= |t| && (b < |t| ==> FindIno(t[b], ino) < |t[b]|)
    ensures forall i :: k <= i < b ==> FindIno(t[i], ino) == |t[i]|
    decreases |t| - k
  {
    if k == |t| || FindIno(t[k], ino) < |t[k]| then k else FindBlock(t, ino, k + 1)
  }

  lemma FindStep(t: Table, ino: nat, k: nat)
    ensures k < |t| ==> FindBlock(t, ino, k) == if FindIno(t[k], ino) < |t[k]| then k else FindBlock(t, ino, k + 1)
    ensures k == |t| ==> FindBlock(t, ino, k) == |t|
  {
  }

  // What delete_dir_entry counts in the first n slots: entries in use that are not dots.
  function CountNamed(s: seq<Slot>, n: nat): nat
    requires n <= |s|
  {
    if n == 0 then 0 else CountNamed(s, n - 1) + (if Named(s[n - 1]) then 1 else 0)
  }

  predicate SeesDot(s: seq<Slot>, n: nat)
    requires n <= |s|
  {
    n > 0 && (SeesDot(s, n - 1) || IsDot(s[n - 1]))
  }

  // The test for dropping the whole block, on the count and the flag as they stand at the entry.
  predicate Drops(s: seq<Slot>, j: nat)
    requires j < |s|
  {
    CountNamed(s, j + 1) == 1 && !SeesDot(s, j + 1)
  }

  // No slot before j is in use, but for "..".
  predicate FirstInBlock(s: seq<Slot>, j: nat)
    requires j <= |s|
  {
    forall i :: 0 <= i < j ==> s[i].ftype == 0 || s[i].name == DOT_DOT
  }

  // Counting stops at the entry found, so the block goes exactly when no entry but ".." comes before it.
  lemma DropsIs(s: seq<Slot>, j: nat)
    requires j < |s| && Named(s[j])
    ensures Drops(s, j) <==> FirstInBlock(s, j)
  {
    NamedAre(s, j);
    DotsAre(s, j);
  }

  lemma {:induction false} NamedAre(s: seq<Slot>, n: nat)
    requires n <= |s|
    ensures CountNamed(s, n) == 0 <==> forall i :: 0 <= i < n ==> !Named(s[i])
  {
    if n > 0 {
      NamedAre(s, n - 1);
    }
  }

  lemma {:induction false} DotsAre(s: seq<Slot>, n: nat)
    requires n <= |s|
    ensures SeesDot(s, n) <==> exists i :: 0 <= i < n && IsDot(s[i])
  {
    if n > 0 {
      DotsAre(s, n - 1);
    }
  }

  // The table after the deletion of entry j of block k.
  function Deleted(t: Table, k: nat, j: nat): Table
    requires k < |t| && j < |t[k]|
  {
    if FirstInBlock(t[k], j) then t[k := []] else t[k := t[k][j := EMPTY]]
  }

  // No other slot is in use.
  predicate OnlyEntry(s: seq<Slot>, j: nat) {
    forall i :: 0 <= i < |s| && i != j ==> s[i].ftype == 0
  }

  lemma {:induction false} NoneValid(s: seq<Slot>)
    ensures |Valid(s)| == 0 <==> forall i :: 0 <= i < |s| ==> s[i].ftype == 0
  {
    if s != [] {
      NoneValid(s[1..]);
      assert forall i :: 0 < i < |s| ==> s[i] == s[1..][i - 1];
    }
  }

  lemma OneValid(s: seq<Slot>, j: nat)
    requires j < |s| && s[j].ftype != 0
    ensures |Valid(s)| == 1 <==> OnlyEntry(s, j)
  {
    assert s[j := s[j]] == s && Valid([s[j]]) == [s[j]];
    SlotReplaced(s, j, s[j]);
    NoneValid(s[..j]);
    NoneValid(s[j + 1..]);
    assert forall i :: j < i < |s| ==> s[i] == s[j + 1..][i - j - 1];
    assert forall i :: 0 <= i < j ==> s[i] == s[..j][i];
  }

  lemma DeletedEntries(t: Table, k: nat, j: nat) returns (p: seq<Slot>, a: seq<Slot>, b: seq<Slot>, q: seq<Slot>)
    requires k < |t| && j < |t[k]| && t[k][j].ftype != 0
    ensures var x := t[k][j];
      && Valid(t[k]) == a + [x] + b && Entries(t) == (p + a) + [x] + (b + q)
      && Entries(Deleted(t, k, j)) == if FirstInBlock(t[k], j) then p + q else (p + a) + (b + q)
  {
    var s := t[k];
    p, a, b, q := Entries(t[..k]), Valid(s[..j]), Valid(s[j + 1..]), Entries(t[k + 1..]);
    assert t[k := s] == t && s[j := s[j]] == s;
    BlockReplaced(t, k, s);
    SlotReplaced(s, j, s[j]);
    assert Valid([s[j]]) == [s[j]];
    Regroup(p, a, [s[j]], b, q);
    if FirstInBlock(s, j) {
      BlockReplaced(t, k, []);
    } else {
      BlockReplaced(t, k, s[j := EMPTY]);
      SlotReplaced(s, j, EMPTY);
      assert Valid([EMPTY]) == [];
      Regroup(p, a, [], b, q);
    }
  }

  // Deleting takes exactly the entry found out of the map if and only if some entry other than ".." comes
  // before it in its block, so that the block is kept, or the block has no other entry at all.
  ghost predicate LosesNoOther(s: seq<Slot>, j: nat)
    requires j < |s|
  {
    (exists i :: 0 <= i < j && s[i].ftype != 0 && s[i].name != DOT_DOT) || OnlyEntry(s, j)
  }

  lemma DeleteIsRemove(t: Table, size: nat, k: nat, j: nat)
    requires DirOk(t, size) && k < |t| && j < |t[k]| && t[k][j].ftype != 0
    ensures var t' := Deleted(t, k, j);
      LosesNoOther(t[k], j) <==> View(Entries(t')) == View(Entries(t)) - {t[k][j].name}
  {
    var p, a, b, q := DeletedEntries(t, k, j);
    var x := t[k][j];
    UniqueAdd(p + a, b + q, x);
    ViewRemove(p + a, b + q, x);
    OneValid(t[k], j);
    if FirstInBlock(t[k], j) {
      DropVerdict(p, a, b, q);
    }
  }

  // And it leaves the directory in order, its size with it, in the same cases.
  lemma DeleteKeepsOrder(t: Table, size: nat, k: nat, j: nat)
    requires DirOk(t, size) && k < |t| && j < |t[k]| && t[k][j].ftype != 0
    ensures var t' := Deleted(t, k, j);
      size >= ENTRY_SIZE && (LosesNoOther(t[k], j) <==> DirOk(t', size - ENTRY_SIZE))
  {
    DeletedCount(t, k, j);
  }

  lemma DeletedCount(t: Table, k: nat, j: nat)
    requires Unique(Entries(t)) && k < |t| && j < |t[k]| && t[k][j].ftype != 0
    ensures var t' := Deleted(t, k, j);
      && (LosesNoOther(t[k], j) ==> Unique(Entries(t')))
      && |Entries(t)| > 0 && (LosesNoOther(t[k], j) <==> |Entries(t)| == |Entries(t')| + 1)
  {
    var p, a, b, q := DeletedEntries(t, k, j);
    UniqueLess(p + a, b + q, t[k][j]);
    Counts(p, a, b, q, t[k][j]);
    OneValid(t[k], j);
  }

  lemma Counts(p: seq<Slot>, a: seq<Slot>, b: seq<Slot>, q: seq<Slot>, x: Slot)
    ensures |(p + a) + [x] + (b + q)| == |(p + a) + (b + q)| + 1
    ensures |p + q| == |(p + a) + (b + q)| - |a| - |b|
    ensures |a + [x] + b| == |a| + |b| + 1
    ensures |a| + |b| == 0 ==> p + q == (p + a) + (b + q)
  {
  }

  lemma ViewRemove(a: seq<Slot>, b: seq<Slot>, x: Slot)
    requires x.name !in View(a + b)
    ensures View(a + [x] + b) - {x.name} == View(a + b)
  {
    ViewAdd(a, b, x);
  }

  lemma DropVerdict(p: seq<Slot>, a: seq<Slot>, b: seq<Slot>, q: seq<Slot>)
    requires Unique((p + a) + (b + q))
    ensures |a| + |b| == 0 <==> View(p + q) == View((p + a) + (b + q))
    ensures |a| + |b| == 0 ==> p + q == (p + a) + (b + q)
  {
    if |a| + |b| == 0 {
      assert (p + a) + (b + q) == p + q;
    } else {
      DroppedLoses(p, a, b, q);
    }
  }

  lemma DroppedLoses(p: seq<Slot>, a: seq<Slot>, b: seq<Slot>, q: seq<Slot>)
    requires Unique((p + a) + (b + q)) && |a| + |b| > 0
    ensures View(p + q) != View((p + a) + (b + q))
  {
    var es := (p + a) + (b + q);
    var y := if |a| > 0 then es[|p|] else es[|p| + |a|];
    var at := if |a| > 0 then |p| else |p| + |a|;
    forall i | 0 <= i < |p + q|
      ensures (p + q)[i].name != y.name
    {
      var i' := if i < |p| then i else i + |a| + |b|;
      assert (p + q)[i] == es[i'] && i' != at;
    }
    ViewAt(p + q, y.name);
    ViewAt(es, y.name);
    assert y in es;
  }

  // A sector with two entries and nothing else in it.
  function Pair(a: Slot, b: Slot): (s: seq<Slot>)
    ensures |s| == PER_SECTOR
  {
    NewSector(a)[1 := b]
  }

  lemma PairValid(a: Slot, b: Slot)
    requires a.ftype != 0 && b.ftype != 0
    ensures Valid(Pair(a, b)) == [a, b]
  {
    var s := NewSector(a);
    SlotReplaced(s, 1, b);
    SlotReplaced(s, 0, a);
    NewSectorValid(a);
    NothingValid(s[2..]);
    assert s[..1] == [a] && Valid([a]) == [a] && Valid([b]) == [b];
  }

  lemma {:induction false} NoEntries(t: Table)
    requires forall k :: 0 <= k < |t| ==> t[k] == []
    ensures Entries(t) == []
  {
    if t != [] {
      NoEntries(t[1..]);
      assert Flat(t) == Flat(t[1..]);
    }
  }

  // "." and ".." in the first block, a and b in the second.
  function TwoBlocks(dot: Slot, dotDot: Slot, a: Slot, b: Slot): (t: Table)
    ensures |t| == DIRECT
  {
    [Pair(dot, dotDot), Pair(a, b)] + seq(DIRECT - 2, k => [])
  }

  lemma TwoBlocksEntries(dot: Slot, dotDot: Slot, a: Slot, b: Slot)
    requires dot.ftype != 0 && dotDot.ftype != 0 && a.ftype != 0 && b.ftype != 0
    ensures Entries(TwoBlocks(dot, dotDot, a, b)) == [dot, dotDot, a, b]
    ensures Entries(TwoBlocks(dot, dotDot, a, b)[1 := []]) == [dot, dotDot]
  {
    var t := TwoBlocks(dot, dotDot, a, b);
    PairValid(dot, dotDot);
    PairValid(a, b);
    OneBlock(Pair(dot, dotDot));
    assert t[..1] == [Pair(dot, dotDot)] && t[1 := Pair(a, b)] == t;
    NoEntries(t[2..]);
    BlockReplaced(t, 1, Pair(a, b));
    BlockReplaced(t, 1, []);
  }

  // Deleting the first of two entries of the second block takes the other one with it.
  lemma DropLosesTheOther(dot: Slot, dotDot: Slot, a: Slot, b: Slot)
    requires Clean(dot) && Clean(dotDot) && Clean(a) && Clean(b) && Named(a) && Named(b) && a.name != b.name
    requires IsDot(dot) && dotDot.ftype != 0 && dotDot.name == DOT_DOT
    ensures var t := TwoBlocks(dot, dotDot, a, b);
      && DirOk(t, Bytes(4)) && Entries(t) == [dot, dotDot, a, b]
      && Entries(Deleted(t, 1, 0)) == [dot, dotDot] && !DirOk(Deleted(t, 1, 0), Bytes(3))
  {
    TwoBlocksEntries(dot, dotDot, a, b);
  }

  // Deleting the second keeps the first.
  lemma DropKeepsTheFirst(dot: Slot, dotDot: Slot, a: Slot, b: Slot)
    requires Clean(dot) && Clean(dotDot) && Clean(a) && Clean(b) && Named(a) && Named(b) && a.name != b.name
    requires IsDot(dot) && dotDot.ftype != 0 && dotDot.name == DOT_DOT
    ensures var t := TwoBlocks(dot, dotDot, a, b);
      t[1][1] == b && Entries(Deleted(t, 1, 1)) == [dot, dotDot, a] && DirOk(Deleted(t, 1, 1), Bytes(3))
  {
    var t := TwoBlocks(dot, dotDot, a, b);
    SecondDeleted(t, a, b);
    ThreeEntries(dot, dotDot, a, b);
    assert forall i :: 0 <= i < PER_SECTOR ==> Clean(NewSector(a)[i]);
  }

  lemma ThreeEntries(dot: Slot, dotDot: Slot, a: Slot, b: Slot)
    requires dot.ftype != 0 && dotDot.ftype != 0 && a.ftype != 0
    ensures Entries(TwoBlocks(dot, dotDot, a, b)[1 := NewSector(a)]) == [dot, dotDot, a]
  {
    var t := TwoBlocks(dot, dotDot, a, b);
    assert t[..1] == [Pair(dot, dotDot)];
    PairValid(dot, dotDot);
    OneBlock(Pair(dot, dotDot));
    NoEntries(t[2..]);
    NewSectorValid(a);
    BlockReplaced(t, 1, NewSector(a));
  }

  lemma SecondDeleted(t: Table, a: Slot, b: Slot)
    requires |t| > 1 && t[1] == Pair(a, b) && Named(a) && Named(b)
    ensures Deleted(t, 1, 1) == t[1 := NewSector(a)] && t[1][1] == b
  {
    assert t[1][0] == a && !FirstInBlock(t[1], 1);
    assert Pair(a, b)[1 := EMPTY] == NewSector(a);
  }

  // In the first block, where "." is the first entry, the block is always kept.
  lemma FirstBlockKept(s: seq<Slot>, j: nat)
    requires 0 < j < |s| && IsDot(s[0])
    ensures !Drops(s, j)
  {
    DotSeen(s, j + 1);
  }

  lemma {:induction false} DotSeen(s: seq<Slot>, n: nat)
    requires 0 < n <= |s| && IsDot(s[0])
    ensures SeesDot(s, n)
  {
    if n > 1 {
      DotSeen(s, n - 1);
    }
  }

  // ---- emptiness ----

  // dir_is_empty is right: two entries, and those are the dots.
  lemma EmptyIsDots(t: Table, size: nat)
    requires DirOk(t, size) && DOT in View(Entries(t)) && DOT_DOT in View(Entries(t))
    ensures size == 2 * ENTRY_SIZE <==> View(Entries(t)).Keys == {DOT, DOT_DOT}
  {
    ViewSize(Entries(t));
    TwoDots(View(Entries(t)).Keys);
  }

  lemma TwoDots(names: set<Name>)
    requires DOT in names && DOT_DOT in names
    ensures |names| == 2 <==> names == {DOT, DOT_DOT}
  {
    assert names == {DOT, DOT_DOT} + (names - {DOT, DOT_DOT});
    assert |{DOT, DOT_DOT}| == 2;
  }

  // ---- the directory on the disk ----

  // The sectors of a directory within its direct blocks.
  ghost predicate DirSectors(v: Vol, sectors: seq<nat>) {
    && IsSectors(sectors) && sectors[DIRECT] == 0
    && (forall k :: 0 <= k < DIRECT && sectors[k] != 0 ==> Allocated(v, sectors[k]))
    && (forall k, l :: 0 <= k < l < DIRECT && sectors[k] != 0 ==> sectors[k] != sectors[l])
  }

  ghost function TableOf(v: Vol, sectors: seq<nat>): (t: Table)
    requires IsSectors(sectors)
    ensures |t| == DIRECT
  {
    seq(DIRECT, k requires 0 <= k < DIRECT => if sectors[k] == 0 then [] else SlotsOf(At(v, sectors[k])))
  }

  // Writing one of the directory's sectors replaces that block of the table.
  lemma WriteReplaces(v: Vol, sectors: seq<nat>, k: nat, b: Block)
    requires DirSectors(v, sectors) && k < DIRECT && sectors[k] != 0 && |b| == BLOCK_SIZE
    ensures TableOf(v.(disk := v.disk[sectors[k] := b]), sectors) == TableOf(v, sectors)[k := SlotsOf(b)]
  {
  }

  lemma FreeIsNew(v: Vol, sectors: seq<nat>, lba: nat)
    requires DirSectors(v, sectors) && Free(v, lba)
    ensures lba !in sectors && lba != 0
  {
    forall i | 0 <= i < |sectors|
      ensures sectors[i] != lba
    {
      assert i < DIRECT && sectors[i] != 0 ==> Allocated(v, sectors[i]);
    }
  }

  datatype SyncResult = Synced | NoSector | PastDirect

  // The directory after an entry has been put at a place.
  ghost predicate AddedAt(v: Vol, sectors: seq<nat>, v': Vol, sectors': seq<nat>, place: Place, e: Slot)
    requires IsSectors(sectors)
  {
    var t := TableOf(v, sectors);
    && (place.NewBlock? ==> place.k < |t|)
    && (place.InBlock? ==> place.k < |t| && place.j < |t[place.k]|)
    && VolFits(v') && DirSectors(v', sectors') && TableOf(v', sectors') == Added(t, place, e)
  }

  // sync_dir_entry. NoSector is the failing ASSERT of bitmap_scan when no sector is free; PastDirect is
  // where the search leaves the direct blocks.
  method SyncDirEntry(p: Partition, d: Inode, e: Slot) returns (r: SyncResult)
    requires VolFits(p.V()) && DirSectors(p.V(), d.sectors) && d.size % 24 == 0 && Storable(e)
    modifies p`used, p`disk, d
    ensures var place := PlaceFor(old(TableOf(p.V(), d.sectors)), 0);
      && (r.PastDirect? <==> place.Beyond?)
      && (r.NoSector? <==> place.NewBlock? && CountClear(old(p.used)) == 0)
      && (r.Synced? ==> AddedAt(old(p.V()), old(d.sectors), p.V(), d.sectors, place, e))
    ensures r.Synced? ==> d.size == old(d.size) + ENTRY_SIZE
    ensures !r.Synced? ==> d.size == old(d.size) && d.sectors == old(d.sectors) && p.V() == old(p.V())
  {
    ghost var v := p.V();
    ghost var t := TableOf(v, d.sectors);
    var k := 0;
    while k < DIRECT
      invariant 0 <= k <= |t| && d.size == old(d.size) && d.sectors == old(d.sectors) && p.V() == v
      invariant PlaceFor(t, 0) == PlaceFor(t, k)
    {
      PlaceStep(t, k);
      var done := SyncBlock(p, d, k, e);
      if done.Some? {
        return done.value;
      }
      k := k + 1;
    }
    return PastDirect;
  }

  // Where an entry would go in block k.
  function PlaceIn(s: seq<Slot>, k: nat): Place {
    if s == [] then NewBlock(k) else if FirstFree(s) < |s| then InBlock(k, FirstFree(s)) else Beyond
  }

  lemma PlaceStep(t: Table, k: nat)
    requires k < |t|
    ensures PlaceFor(t, k) == if PlaceIn(t[k], k).Beyond? then PlaceFor(t, k + 1) else PlaceIn(t[k], k)
  {
  }

  // One pass of the loop of sync_dir_entry; None when the block is full.
  method SyncBlock(p: Partition, d: Inode, k: nat, e: Slot) returns (r: Option<SyncResult>)
    requires VolFits(p.V()) && DirSectors(p.V(), d.sectors) && Storable(e) && k < DIRECT
    modifies p`used, p`disk, d
    ensures var place := PlaceIn(old(TableOf(p.V(), d.sectors))[k], k);
      && (r.None? <==> place.Beyond?)
      && (r.Some? ==> r.value == if place.NewBlock? && CountClear(old(p.used)) == 0 then NoSector else Synced)
      && (r == Some(Synced) ==> AddedAt(old(p.V()), old(d.sectors), p.V(), d.sectors, place, e))
    ensures r == Some(Synced) ==> d.size == old(d.size) + ENTRY_SIZE
    ensures r != Some(Synced) ==> d.size == old(d.size) && d.sectors == old(d.sectors) && p.V() == old(p.V())
  {
    if d.sectors[k] == 0 {
      var added := AddBlock(p, d, k, e);
      return Some(added);
    }
    var done := AddInBlock(p, d, k, e);
    return if done then Some(Synced) else None;
  }

  // Block k has a sector: the entry goes into its first free slot.
  method AddInBlock(p: Partition, d: Inode, k: nat, e: Slot) returns (done: bool)
    requires VolFits(p.V()) && DirSectors(p.V(), d.sectors) && k < DIRECT && d.sectors[k] != 0 && Storable(e)
    modifies p`disk, d`size
    ensures var s := old(TableOf(p.V(), d.sectors))[k];
      && |s| == PER_SECTOR && (done <==> FirstFree(s) < PER_SECTOR)
      && (done ==> AddedAt(old(p.V()), old(d.sectors), p.V(), d.sectors, InBlock(k, FirstFree(s)), e))
    ensures done ==> d.size == old(d.size) + ENTRY_SIZE
    ensures !done ==> d.size == old(d.size) && p.disk == old(p.disk)
  {
    var ioBuf := p.IdeRead(d.sectors[k]);
    var j := FreeSlotIn(SlotsOf(ioBuf));
    done := j < PER_SECTOR;
    if done {
      WriteReplaces(p.V(), d.sectors, k, PutSlot(ioBuf, j, e));
      PutSlotIsUpdate(ioBuf, j, e);
      p.IdeWrite(d.sectors[k], PutSlot(ioBuf, j, e));
      d.size := d.size + ENTRY_SIZE;
    }
  }

  // In this and the next scans de is the sector cast to its entries.
  method FreeSlotIn(de: seq<Slot>) returns (j: nat)
    requires |de| == PER_SECTOR
    ensures j == FirstFree(de)
  {
    j := 0;
    while j < PER_SECTOR && de[j].ftype != 0
      invariant 0 <= j <= |de| && forall i :: 0 <= i < j ==> de[i].ftype != 0
    {
      j := j + 1;
    }
    assert j < |de| ==> de[j].ftype == 0;
  }

  // Block k has no sector: a fresh one with the entry in its first slot.
  method AddBlock(p: Partition, d: Inode, k: nat, e: Slot) returns (r: SyncResult)
    requires VolFits(p.V()) && DirSectors(p.V(), d.sectors) && k < DIRECT && d.sectors[k] == 0 && Storable(e)
    modifies p`used, p`disk, d
    ensures r == if CountClear(old(p.used)) == 0 then NoSector else Synced
    ensures r.NoSector? ==> d.size == old(d.size) && d.sectors == old(d.sectors) && p.V() == old(p.V())
    ensures r.Synced? ==> d.size == old(d.size) + ENTRY_SIZE
    ensures r.Synced? ==> AddedAt(old(p.V()), old(d.sectors), p.V(), d.sectors, NewBlock(k), e)
  {
    ghost var v := p.V();
    var lba := p.BlockBitmapAlloc();
    if lba.None? {
      return NoSector;
    }
    var ioBuf := PutSlot(Zero(), 0, e);
    NewBlockAdded(v, d.sectors, k, lba.value, ioBuf, e);
    d.sectors := d.sectors[k := lba.value];
    p.IdeWrite(lba.value, ioBuf);
    d.size := d.size + ENTRY_SIZE;
    return Synced;
  }

  // A fresh sector with one entry as block k.
  lemma NewBlockAdded(v: Vol, sectors: seq<nat>, k: nat, lba: nat, b: Block, e: Slot)
    requires VolFits(v) && DirSectors(v, sectors) && k < DIRECT && sectors[k] == 0 && Free(v, lba) && Storable(e)
    requires b == PutSlot(Zero(), 0, e)
    ensures AddedAt(v, sectors, Marked(v, lba).(disk := v.disk[lba := b]), sectors[k := lba], NewBlock(k), e)
  {
    var v', sectors' := Marked(v, lba).(disk := v.disk[lba := b]), sectors[k := lba];
    FreeIsNew(v, sectors, lba);
    PutSlotIsUpdate(Zero(), 0, e);
    ZeroSlots();
    assert SlotsOf(b) == NewSector(e);
    NewBlockTable(v, v', sectors, k, lba, b);
  }

  lemma NewBlockTable(v: Vol, v': Vol, sectors: seq<nat>, k: nat, lba: nat, b: Block)
    requires IsSectors(sectors) && k < DIRECT && lba !in sectors && lba != 0 && |b| == BLOCK_SIZE
    requires v'.disk == v.disk[lba := b]
    ensures TableOf(v', sectors[k := lba]) == TableOf(v, sectors)[k := SlotsOf(b)]
  {
    forall i | 0 <= i < DIRECT && i != k
      ensures TableOf(v', sectors[k := lba])[i] == TableOf(v, sectors)[i]
    {
      assert sectors[i] in sectors;
    }
  }

  lemma SearchStep(t: Table, k: nat, name: Name)
    requires k < |t|
    ensures var here := FirstNamed(t[k], name);
      FirstNamed(Flat(t[k..]), name) == if here.Some? then here else FirstNamed(Flat(t[k + 1..]), name)
  {
    assert t[k..][1..] == t[k + 1..];
    FirstNamedConcat(t[k], Flat(t[k + 1..]), name);
  }

  method SearchDirEntry(p: Partition, d: Inode, name: Name) returns (r: Option<Slot>)
    requires DirSectors(p.V(), d.sectors)
    ensures r == FirstNamed(Flat(TableOf(p.V(), d.sectors)), name)
  {
    ghost var t := TableOf(p.V(), d.sectors);
    var all := CopySectors(d, 0, DIRECT);
    var k := 0;
    while k < MAX_BLOCKS
      invariant 0 <= k <= MAX_BLOCKS
      invariant k < DIRECT ==> FirstNamed(Flat(t), name) == FirstNamed(Flat(t[k..]), name)
      invariant k >= DIRECT ==> FirstNamed(Flat(t), name).None?
    {
      if all[k] != 0 {
        var buf := p.IdeRead(all[k]);
        assert t[k] == SlotsOf(buf);
        SearchStep(t, k, name);
        r := SearchSector(SlotsOf(buf), name);
        if r.Some? {
          return;
        }
      } else if k < DIRECT {
        assert t[k] == [];
        SearchStep(t, k, name);
      }
      k := k + 1;
    }
    return None;
  }

  method SearchSector(de: seq<Slot>, name: Name) returns (r: Option<Slot>)
    requires |de| == PER_SECTOR
    ensures r == FirstNamed(de, name)
  {
    var j := 0;
    while j < PER_SECTOR
      invariant 0 <= j <= |de| && FirstNamed(de, name) == FirstNamed(de[j..], name)
    {
      if de[j].name == name {
        return Some(de[j]);
      }
      assert de[j..][0] == de[j] && de[j..][1..] == de[j + 1..];
      j := j + 1;
    }
    return None;
  }

  // The scan of one sector in delete_dir_entry: the entry, and what the count and the flag are then.
  method ScanToDelete(de: seq<Slot>, ino: nat) returns (j: nat, count: nat, sawDot: bool)
    requires |de| == PER_SECTOR
    ensures j == FindIno(de, ino)
    ensures j < PER_SECTOR ==> count == CountNamed(de, j + 1) && (sawDot <==> SeesDot(de, j + 1))
  {
    j, count, sawDot := 0, 0, false;
    while j < PER_SECTOR
      invariant 0 <= j <= |de| && forall i :: 0 <= i < j ==> !Deletable(de[i], ino)
      invariant count == CountNamed(de, j)
      invariant sawDot <==> SeesDot(de, j)
    {
      if IsDot(de[j]) {
        sawDot := true;
      } else if Named(de[j]) {
        count := count + 1;
        if de[j].ino == ino {
          return;
        }
      }
      j := j + 1;
    }
  }

  // Entry j of block k is in use under another name than "." and "..", and has that inode.
  predicate IsTarget(t: Table, k: int, j: int, ino: nat) {
    && 0 <= k < |t| && 0 <= j < |t[k]|
    && t[k][j].ftype != 0 && t[k][j].name != DOT && t[k][j].name != DOT_DOT && t[k][j].ino == ino
  }

  // No such entry comes before it.
  ghost predicate IsFirstTarget(t: Table, k: int, j: int, ino: nat) {
    IsTarget(t, k, j, ino) && forall x, y :: IsTarget(t, x, y, ino) ==> k < x || (k == x && j <= y)
  }

  lemma TargetIs(t: Table, ino: nat)
    ensures var k := FindBlock(t, ino, 0);
      if k < |t| then IsFirstTarget(t, k, FindIno(t[k], ino), ino) else forall x, y :: !IsTarget(t, x, y, ino)
  {
    var k := FindBlock(t, ino, 0);
    forall x, y | IsTarget(t, x, y, ino)
      ensures k <= x && (k == x ==> FindIno(t[k], ino) <= y)
    {
      assert Deletable(t[x][y], ino) && FindIno(t[x], ino) <= y;
    }
  }

  // The directory and the bitmap after entry j of block k has been deleted: the block is dropped if no entry
  // but ".." comes before it there, and otherwise that one slot is zeroed.
  ghost predicate DeletedAt(v: Vol, sectors: seq<nat>, v': Vol, sectors': seq<nat>, k: nat, j: nat, bitmapLba: nat)
    requires IsSectors(sectors)
  {
    var t := TableOf(v, sectors);
    && k < DIRECT && j < |t[k]| && IsSectors(sectors')
    && TableOf(v', sectors') == Deleted(t, k, j)
    && (if FirstInBlock(t[k], j) then
          sectors' == sectors[k := 0] && v'.used == WithoutBit(v.used, sectors[k] - bitmapLba)
        else sectors' == sectors && v'.used == v.used)
  }

  // delete_dir_entry. Where it drops a block it clears the bit that the block number has counted
  // from the bitmap's own first sector, bitmapLba, instead of from the first data sector.
  method DeleteDirEntry(p: Partition, d: Inode, ino: nat, bitmapLba: nat) returns (found: bool)
    requires DirSectors(p.V(), d.sectors) && bitmapLba < p.base && d.size >= ENTRY_SIZE
    modifies p`used, p`disk, d
    ensures var t := old(TableOf(p.V(), d.sectors));
      && (found <==> exists k, j :: IsTarget(t, k, j, ino))
      && (forall k, j :: found && IsFirstTarget(t, k, j, ino) ==>
            DeletedAt(old(p.V()), old(d.sectors), p.V(), d.sectors, k, j, bitmapLba))
    ensures found ==> d.size == old(d.size) - ENTRY_SIZE
    ensures !found ==> d.size == old(d.size) && d.sectors == old(d.sectors) && p.V() == old(p.V())
  {
    ghost var t := TableOf(p.V(), d.sectors);
    TargetIs(t, ino);
    found := DeleteInBlocks(p, d, ino, bitmapLba);
    assert forall k, j :: IsFirstTarget(t, k, j, ino) ==>
        k == FindBlock(t, ino, 0) && j == FindIno(t[FindBlock(t, ino, 0)], ino);
  }

  // The loop of delete_dir_entry over the blocks.
  method DeleteInBlocks(p: Partition, d: Inode, ino: nat, bitmapLba: nat) returns (found: bool)
    requires DirSectors(p.V(), d.sectors) && bitmapLba < p.base && d.size >= ENTRY_SIZE
    modifies p`used, p`disk, d
    ensures var t := old(TableOf(p.V(), d.sectors)); var k := FindBlock(t, ino, 0);
      && (found <==> k < DIRECT)
      && (found ==> DeletedAt(old(p.V()), old(d.sectors), p.V(), d.sectors, k, FindIno(t[k], ino), bitmapLba))
    ensures found ==> d.size == old(d.size) - ENTRY_SIZE
    ensures !found ==> d.size == old(d.size) && d.sectors == old(d.sectors) && p.V() == old(p.V())
  {
    ghost var t := TableOf(p.V(), d.sectors);
    var all := CopySectors(d, 0, DIRECT);
    var k := 0;
    while k < MAX_BLOCKS
      invariant 0 <= k <= MAX_BLOCKS && d.size == old(d.size) && d.sectors == old(d.sectors) && p.V() == old(p.V())
      invariant FindBlock(t, ino, 0) == if k < DIRECT then FindBlock(t, ino, k) else DIRECT
    {
      FindStep(t, ino, k);
      if all[k] != 0 {
        found := DeleteInBlock(p, d, k, ino, bitmapLba);
        if found {
          assert d.size >= ENTRY_SIZE;
          d.size := d.size - ENTRY_SIZE;
          return;
        }
      }
      k := k + 1;
    }
    return false;
  }

  function WithoutBit(used: seq<bool>, i: int): seq<bool> {
    if 0 <= i < |used| then used[i := false] else used
  }

  // Block k has a sector: the entry is deleted if it is there.
  method DeleteInBlock(p: Partition, d: Inode, k: nat, ino: nat, bitmapLba: nat) returns (found: bool)
    requires DirSectors(p.V(), d.sectors) && bitmapLba < p.base && k < DIRECT && d.sectors[k] != 0
    modifies p`used, p`disk, d`sectors
    ensures var s := old(TableOf(p.V(), d.sectors))[k];
      && (found <==> FindIno(s, ino) < |s|)
      && (found ==> DeletedAt(old(p.V()), old(d.sectors), p.V(), d.sectors, k, FindIno(s, ino), bitmapLba))
    ensures !found ==> p.V() == old(p.V()) && d.sectors == old(d.sectors)
  {
    var ioBuf := p.IdeRead(d.sectors[k]);
    assert TableOf(p.V(), d.sectors)[k] == SlotsOf(ioBuf);
    var j, count, sawDot := ScanToDelete(SlotsOf(ioBuf), ino);
    found := j < PER_SECTOR;
    if found {
      assert count >= 1;
      DropsIs(SlotsOf(ioBuf), j);
      DeleteSlot(p, d, k, j, ioBuf, count == 1 && !sawDot, bitmapLba);
    }
  }

  method DeleteSlot(p: Partition, d: Inode, k: nat, j: nat, ioBuf: Block, drop: bool, bitmapLba: nat)
    requires DirSectors(p.V(), d.sectors) && bitmapLba < p.base && k < DIRECT && d.sectors[k] != 0
    requires ioBuf == At(p.V(), d.sectors[k]) && j < PER_SECTOR && drop == FirstInBlock(SlotsOf(ioBuf), j)
    modifies p`used, p`disk, d`sectors
    ensures DeletedAt(old(p.V()), old(d.sectors), p.V(), d.sectors, k, j, bitmapLba)
  {
    if drop {
      var bit := d.sectors[k] - bitmapLba;
      p.used := WithoutBit(p.used, bit);    // past the end of the bitmap it is another variable that loses a bit
      d.sectors := d.sectors[k := 0];
    } else {
      WriteReplaces(p.V(), d.sectors, k, PutSlot(ioBuf, j, EMPTY));
      PutSlotIsUpdate(ioBuf, j, EMPTY);
      p.IdeWrite(d.sectors[k], PutSlot(ioBuf, j, EMPTY));
    }
  }

  // The bit that goes with a dropped block is not its own: it is that of the sector as far behind it as
  // the data sectors are behind the bitmap. Every other sector stays as it was, the dropped one too.
  lemma DroppedBlockLeaks(v: Vol, lba: nat, bitmapLba: nat, x: nat)
    requires Allocated(v, lba) && bitmapLba < v.base
    ensures var v' := v.(used := WithoutBit(v.used, lba - bitmapLba)); var wrong := lba + (v.base - bitmapLba);
      (Allocated(v', x) <==> Allocated(v, x) && x != wrong) && wrong != lba && Allocated(v', lba)
  {
  }

  // ---- reading ----

  class Dir {
    const inode: Inode
    var pos: nat

    // dir_open, and sys_rewinddir.
    constructor (inode: Inode)
      ensures this.inode == inode && pos == 0
    {
      this.inode, pos := inode, 0;
    }
  }

  // The entry a call of dir_read returns.
  function NextEntry(es: seq<Slot>, pos: nat): Option<Slot> {
    if Index(pos) < |es| then Some(es[Index(pos)]) else None
  }

  // A directory in order, with these entries.
  ghost predicate Holds(v: Vol, d: Inode, es: seq<Slot>)
    reads d
  {
    DirSectors(v, d.sectors) && DirOk(TableOf(v, d.sectors), d.size) && es == Entries(TableOf(v, d.sectors))
  }

  // dir_read: the entry at dir_pos among those in use, and then the next.
  method DirRead(p: Partition, dir: Dir, ghost es: seq<Slot>) returns (r: Option<Slot>)
    requires Holds(p.V(), dir.inode, es) && dir.pos == Bytes(Index(dir.pos))
    modifies dir
    ensures r == NextEntry(es, old(dir.pos))
    ensures dir.pos == old(dir.pos) + (if r.Some? then ENTRY_SIZE else 0)
  {
    ghost var t := TableOf(p.V(), dir.inode.sectors);
    if dir.pos >= dir.inode.size {
      return None;
    }
    var all := CopySectors(dir.inode, 0, DIRECT);
    assert Lists(p.V(), all, t);
    CountBefore(t, |t|);
    r := ReadBlocks(p, dir, all, t, Index(dir.pos));
  }

  // all_blocks_lba has the sectors of the table.
  ghost predicate Lists(v: Vol, all: seq<nat>, t: Table) {
    && |t| <= |all|
    && forall k :: 0 <= k < |t| ==> BlockListed(v, all[k], t[k])
  }

  ghost predicate BlockListed(v: Vol, lba: nat, s: seq<Slot>) {
    s == if lba == 0 then [] else SlotsOf(At(v, lba))
  }

  // The number of entries in use in the first k blocks.
  function Before(t: Table, k: nat): nat
    requires k <= |t|
  {
    if k == 0 then 0 else Before(t, k - 1) + |Valid(t[k - 1])|
  }

  lemma {:induction false} CountBefore(t: Table, k: nat)
    requires k <= |t|
    ensures Before(t, k) == |Entries(t[..k])|
    ensures k == |t| ==> Before(t, k) == |Entries(t)|
  {
    if k > 0 {
      CountBefore(t, k - 1);
      assert t[..k] == t[..k - 1] + [t[k - 1]];
      EntriesConcat(t[..k - 1], [t[k - 1]]);
      OneBlock(t[k - 1]);
    }
    assert k == |t| ==> t[..k] == t;
  }

  // Where entry i is.
  lemma EntryIn(t: Table, k: nat, i: nat)
    requires k < |t| && Before(t, k) <= i < Before(t, k) + |Valid(t[k])|
    ensures i < |Entries(t)| && Entries(t)[i] == Valid(t[k])[i - Before(t, k)]
  {
    CountBefore(t, k);
    assert t[k := t[k]] == t;
    BlockReplaced(t, k, t[k]);
  }

  // The loop of dir_read, which only ends at an entry: the i-th.
  method ReadBlocks(p: Partition, dir: Dir, all: seq<nat>, ghost t: Table, ghost i: nat) returns (r: Option<Slot>)
    requires Lists(p.V(), all, t) && dir.pos == Bytes(i) && i < Before(t, |t|)
    modifies dir
    ensures i < |Entries(t)| && r == Some(Entries(t)[i]) && dir.pos == old(dir.pos) + ENTRY_SIZE
  {
    var k, cur := 0, 0;
    while true
      invariant 0 <= k <= |t| && dir.pos == old(dir.pos)
      invariant Before(t, k) <= i && cur == Bytes(Before(t, k))
      decreases |t| - k
    {
      assert BlockListed(p.V(), all[k], t[k]);
      if all[k] != 0 {
        cur, r := ReadBlock(p, dir, all[k], cur, t, k, i);
        if r.Some? {
          return;
        }
      }
      k := k + 1;
    }
  }

  // Block k has a sector: entry i of the directory, if it is there.
  method ReadBlock(p: Partition, dir: Dir, lba: nat, cur0: nat, ghost t: Table, ghost k: nat, ghost i: nat)
    returns (cur: nat, r: Option<Slot>)
    requires k < |t| && lba != 0 && BlockListed(p.V(), lba, t[k])
    requires dir.pos == Bytes(i) && Before(t, k) <= i && cur0 == Bytes(Before(t, k))
    modifies dir
    ensures if i < Before(t, k + 1) then i < |Entries(t)| && r == Some(Entries(t)[i])
        && dir.pos == old(dir.pos) + ENTRY_SIZE
      else r == None && dir.pos == old(dir.pos) && cur == Bytes(Before(t, k + 1))
  {
    var buf := p.IdeRead(lba);
    cur, r := ReadEntries(dir, SlotsOf(buf), cur0, t, k, i);
  }

  method ReadEntries(dir: Dir, de: seq<Slot>, cur0: nat, ghost t: Table, ghost k: nat, ghost i: nat)
    returns (cur: nat, r: Option<Slot>)
    requires k < |t| && |de| == PER_SECTOR && de == t[k]
    requires dir.pos == Bytes(i) && Before(t, k) <= i && cur0 == Bytes(Before(t, k))
    modifies dir
    ensures if i < Before(t, k + 1) then i < |Entries(t)| && r == Some(Entries(t)[i])
        && dir.pos == old(dir.pos) + ENTRY_SIZE
      else r == None && dir.pos == old(dir.pos) && cur == Bytes(Before(t, k + 1))
  {
    if i < Before(t, k) + |Valid(de)| {
      EntryIn(t, k, i);
    }
    cur, r := ReadSector(dir, de, cur0, Before(t, k), i);
  }

  // The scan of one sector in dir_read, n entries in use having been passed before it.
  method ReadSector(dir: Dir, de: seq<Slot>, cur0: nat, ghost n: nat, ghost i: nat) returns (cur: nat, r: Option<Slot>)
    requires |de| == PER_SECTOR && cur0 == Bytes(n) && n <= i && dir.pos == Bytes(i)
    modifies dir
    ensures var here := Valid(de);
      if i < n + |here| then r == Some(here[i - n]) && dir.pos == old(dir.pos) + ENTRY_SIZE
      else r == None && dir.pos == old(dir.pos) && cur == Bytes(n + |here|)
  {
    var j := 0;
    cur := cur0;
    while j < PER_SECTOR
      invariant 0 <= j <= |de| && dir.pos == old(dir.pos)
      invariant n + InUse(de, j) <= i && cur == Bytes(n + InUse(de, j))
    {
      InUseIs(de, j);
      if de[j].ftype != 0 {
        if cur < dir.pos {
          cur := cur + ENTRY_SIZE;
        } else {
          assert cur == dir.pos;    // the ASSERT of line 497
          dir.pos := dir.pos + ENTRY_SIZE;
          return cur, Some(de[j]);
        }
      }
      j := j + 1;
    }
    InUseIs(de, j);
    return cur, None;
  }

  // The number of entries in use in the first n slots.
  function InUse(s: seq<Slot>, n: nat): nat
    requires n <= |s|
  {
    if n == 0 then 0 else InUse(s, n - 1) + (if s[n - 1].ftype != 0 then 1 else 0)
  }

  lemma InUseIs(s: seq<Slot>, n: nat)
    requires n <= |s|
    ensures n == |s| ==> InUse(s, n) == |Valid(s)|
    ensures n < |s| && s[n].ftype != 0 ==> InUse(s, n) < |Valid(s)| && Valid(s)[InUse(s, n)] == s[n]
  {
    InUseCounts(s, n);
    if n < |s| {
      assert s[n := s[n]] == s;
      SlotReplaced(s, n, s[n]);
      assert Valid([s[n]]) == if s[n].ftype != 0 then [s[n]] else [];
    } else {
      assert s[..n] == s;
    }
  }

  lemma {:induction false} InUseCounts(s: seq<Slot>, n: nat)
    requires n <= |s|
    ensures InUse(s, n) == |Valid(s[..n])|
  {
    if n > 0 {
      InUseCounts(s, n - 1);
      assert s[..n] == s[..n - 1] + [s[n - 1]];
      ValidConcat(s[..n - 1], [s[n - 1]]);
    }
  }

  // Repeated dir_read from the start: every entry once, in order, and then NULL.
  method ReadAll(p: Partition, dir: Dir, ghost all: seq<Slot>) returns (es: seq<Slot>)
    requires Holds(p.V(), dir.inode, all)
    modifies dir
    ensures es == all && dir.pos == dir.inode.size
  {
    SizeIsAll(p.V(), dir.inode, all);
    dir.pos := 0;
    es := [];
    ghost var n := 0;
    var r := ReadNext(p, dir, all, n);
    while r.Some?
      invariant n <= |all| && IsPrefix(es, all, n) && r == EntryOrEnd(all, n)
      invariant dir.pos == Bytes(if n < |all| then n + 1 else n)
      decreases |all| - n
    {
      PrefixNext(es, all, n);
      es := es + [r.value];
      n := n + 1;
      r := ReadNext(p, dir, all, n);
    }
    PrefixIsAll(es, all, n);
  }

  lemma SizeIsAll(v: Vol, d: Inode, all: seq<Slot>)
    requires Holds(v, d, all)
    ensures d.size == Bytes(|all|)
  {
  }

  ghost predicate IsPrefix(es: seq<Slot>, all: seq<Slot>, n: nat) {
    n <= |all| && es == all[..n]
  }

  lemma PrefixNext(es: seq<Slot>, all: seq<Slot>, n: nat)
    requires IsPrefix(es, all, n) && n < |all|
    ensures IsPrefix(es + [all[n]], all, n + 1)
  {
  }

  lemma PrefixIsAll(es: seq<Slot>, all: seq<Slot>, n: nat)
    requires IsPrefix(es, all, n) && n >= |all|
    ensures es == all
  {
  }

  function EntryOrEnd(es: seq<Slot>, n: nat): Option<Slot> {
    if n < |es| then Some(es[n]) else None
  }

  // The call that comes after n entries have been read.
  method ReadNext(p: Partition, dir: Dir, ghost all: seq<Slot>, ghost n: nat) returns (r: Option<Slot>)
    requires Holds(p.V(), dir.inode, all) && n <= |all| && dir.pos == Bytes(n)
    modifies dir
    ensures r == EntryOrEnd(all, n) && dir.pos == Bytes(if n < |all| then n + 1 else n)
  {
    assert Index(Bytes(n)) == n;
    r := DirRead(p, dir, all);
  }
}
