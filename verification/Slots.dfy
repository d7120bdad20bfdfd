// The directory entries of fs/dir.c: dir_entry_t in a sector, and a directory as a table of them,
// one sequence of slots for each block. What the table means is the finite map from names to the
// entries in use.
module Slots {
  import opened Options
  import opened Blocks

  const PER_SECTOR := 21      // SECTOR_SIZE / dir_entry_size
  const ENTRY_SIZE := 24

  type Name = seq<Byte>

  datatype Slot = Slot(name: Name, ino: nat, ftype: nat)

  const EMPTY := Slot([], 0, 0)       // what memset leaves; type 0 is FT_UNKNOW
  const DOT: Name := [46]
  const DOT_DOT: Name := [46, 46]

  // ---- the 24 bytes of an entry ----

  // A name that leaves room for its terminating zero, and numbers that fit.
  predicate Storable(e: Slot) {
    |e.name| < 16 && e.ino < 0x1_0000_0000 && e.ftype < 0x1_0000_0000 && 0 !in e.name
  }

  // The bytes up to the first zero.
  function CString(b: seq<Byte>): (r: Name)
    ensures r <= b && 0 !in r && (|r| < |b| ==> b[|r|] == 0)
  {
    if b == [] || b[0] == 0 then [] else [b[0]] + CString(b[1..])
  }

  function Zeros(n: nat): (z: seq<Byte>)
    ensures |z| == n && forall i :: 0 <= i < n ==> z[i] == 0
  {
    seq<Byte>(n, i => 0)
  }

  function WordBytes(x: nat): (b: seq<Byte>)
    ensures |b| == 4
  {
    [ByteOf(x, 0), ByteOf(x, 1), ByteOf(x, 2), ByteOf(x, 3)]
  }

  function SlotBytes(e: Slot): (b: seq<Byte>)
    requires Storable(e)
    ensures |b| == ENTRY_SIZE
  {
    e.name + Zeros(16 - |e.name|) + WordBytes(e.ino) + WordBytes(e.ftype)
  }

  function SlotAt(b: Block, j: nat): Slot
    requires |b| == BLOCK_SIZE && j < PER_SECTOR
  {
    Slot(CString(b[24 * j..24 * j + 16]), WordAt(b, 6 * j + 4), WordAt(b, 6 * j + 5))
  }

  function SlotsOf(b: Block): (s: seq<Slot>)
    requires |b| == BLOCK_SIZE
    ensures |s| == PER_SECTOR
  {
    seq(PER_SECTOR, j requires 0 <= j < PER_SECTOR => SlotAt(b, j))
  }

  // Four bytes as a number, the lowest first.
  function LittleEndian(b0: nat, b1: nat, b2: nat, b3: nat): nat {
    b0 + 0x100 * b1 + 0x1_0000 * b2 + 0x100_0000 * b3
  }

  // Where the fields of entry j are: the name first, then the two numbers.
  lemma SlotLayout(b: Block, j: nat)
    requires |b| == BLOCK_SIZE && j < PER_SECTOR
    ensures var p := 24 * j; var e := SlotAt(b, j);
      && e.name <= b[p..p + 16]
      && e.ino == LittleEndian(b[p + 16], b[p + 17], b[p + 18], b[p + 19])
      && e.ftype == LittleEndian(b[p + 20], b[p + 21], b[p + 22], b[p + 23])
  {
    assert 4 * (6 * j + 4) == 24 * j + 16 && 4 * (6 * j + 5) == 24 * j + 20;
  }

  lemma {:induction false} CStringPadded(name: Name, pad: nat)
    requires 0 !in name && pad > 0
    ensures CString(name + Zeros(pad)) == name
  {
    var b := name + Zeros(pad);
    if name != [] {
      assert b[1..] == name[1..] + Zeros(pad);
      CStringPadded(name[1..], pad);
    }
  }

  lemma WordOfBytes(b: Block, i: nat, x: nat)
    requires |b| == BLOCK_SIZE && i < 128 && x < 0x1_0000_0000 && b[4 * i..4 * i + 4] == WordBytes(x)
    ensures WordAt(b, i) == x
  {
    var w := b[4 * i..4 * i + 4];
    assert b[4 * i] == w[0] && b[4 * i + 1] == w[1] && b[4 * i + 2] == w[2] && b[4 * i + 3] == w[3];
  }

  lemma Slice(b: seq<Byte>, p: nat, q: nat, x: nat, y: nat)
    requires p <= q <= |b| && x <= y <= q - p
    ensures b[p..q][x..y] == b[p + x..p + y]
  {
    var w, r := b[p..q], b[p + x..p + y];
    assert forall i :: 0 <= i < y - x ==> w[x..y][i] == r[i];
  }

  // The three fields of entry j, whose bytes are w.
  lemma Fields(b: Block, j: nat, w: seq<Byte>)
    requires |b| == BLOCK_SIZE && j < PER_SECTOR && w == b[24 * j..24 * j + 24]
    ensures b[24 * j..24 * j + 16] == w[..16]
    ensures b[4 * (6 * j + 4)..4 * (6 * j + 4) + 4] == w[16..20]
    ensures b[4 * (6 * j + 5)..4 * (6 * j + 5) + 4] == w[20..24]
  {
    assert w[..16] == w[0..16];
    Slice(b, 24 * j, 24 * j + 24, 0, 16);
    Slice(b, 24 * j, 24 * j + 24, 16, 20);
    Slice(b, 24 * j, 24 * j + 24, 20, 24);
    var p, q := 4 * (6 * j + 4), 4 * (6 * j + 5);
    assert p == 24 * j + 16 && q == 24 * j + 20;
    assert b[p..p + 4] == w[16..20];
    assert b[q..q + 4] == w[20..24];
  }

  lemma SlotRoundTrip(b: Block, j: nat, e: Slot)
    requires |b| == BLOCK_SIZE && j < PER_SECTOR && Storable(e) && b[24 * j..24 * j + 24] == SlotBytes(e)
    ensures SlotAt(b, j) == e
  {
    var w := SlotBytes(e);
    Fields(b, j, w);
    assert w[..16] == e.name + Zeros(16 - |e.name|);
    CStringPadded(e.name, 16 - |e.name|);
    WordOfBytes(b, 6 * j + 4, e.ino);
    WordOfBytes(b, 6 * j + 5, e.ftype);
  }

  lemma SameSlot(b: Block, b': Block, j: nat)
    requires |b| == |b'| == BLOCK_SIZE && j < PER_SECTOR && b[24 * j..24 * j + 24] == b'[24 * j..24 * j + 24]
    ensures SlotAt(b, j) == SlotAt(b', j)
  {
    Fields(b, j, b[24 * j..24 * j + 24]);
    Fields(b', j, b[24 * j..24 * j + 24]);
  }

  function PutSlot(b: Block, j: nat, e: Slot): (r: Block)
    requires |b| == BLOCK_SIZE && j < PER_SECTOR && Storable(e)
    ensures |r| == BLOCK_SIZE
  {
    b[..24 * j] + SlotBytes(e) + b[24 * j + 24..]
  }

  // Storing an entry changes that entry of the sector and no other.
  lemma PutSlotIsUpdate(b: Block, j: nat, e: Slot)
    requires |b| == BLOCK_SIZE && j < PER_SECTOR && Storable(e)
    ensures SlotsOf(PutSlot(b, j, e)) == SlotsOf(b)[j := e]
  {
    var r := PutSlot(b, j, e);
    forall i | 0 <= i < PER_SECTOR
      ensures SlotAt(r, i) == SlotsOf(b)[j := e][i]
    {
      PutBytes(b, j, e, i);
      if i == j {
        SlotRoundTrip(r, j, e);
      } else {
        SameSlot(b, r, i);
      }
    }
  }

  // The bytes of entry i after entry j has been stored.
  lemma PutBytes(b: Block, j: nat, e: Slot, i: nat)
    requires |b| == BLOCK_SIZE && j < PER_SECTOR && i < PER_SECTOR && Storable(e)
    ensures PutSlot(b, j, e)[24 * i..24 * i + 24] == if i == j then SlotBytes(e) else b[24 * i..24 * i + 24]
  {
    var r, p := PutSlot(b, j, e), 24 * i;
    assert forall x :: 0 <= x < 24 * j || 24 * j + 24 <= x < BLOCK_SIZE ==> r[x] == b[x];
    assert forall x :: 0 <= x < 24 ==> r[24 * j + x] == SlotBytes(e)[x];
    if i < j {
      assert p + 24 <= 24 * j;
    } else if i > j {
      assert p >= 24 * j + 24;
    }
  }

  lemma ZeroSlots()
    ensures forall j :: 0 <= j < PER_SECTOR ==> SlotsOf(Zero())[j] == EMPTY
  {
    forall j | 0 <= j < PER_SECTOR
      ensures SlotAt(Zero(), j) == EMPTY
    {
    }
  }

  // ---- a directory as a table: 12 blocks of entries, a block without a sector being empty ----

  type Table = seq<seq<Slot>>

  function Flat(t: Table): seq<Slot> {
    if t == [] then [] else t[0] + Flat(t[1..])
  }

  // The entries in use, in the order of the table.
  function Valid(s: seq<Slot>): (r: seq<Slot>)
    ensures |r| <= |s| && forall i :: 0 <= i < |r| ==> r[i].ftype != 0 && r[i] in s
  {
    if s == [] then [] else (if s[0].ftype != 0 then [s[0]] else []) + Valid(s[1..])
  }

  function Entries(t: Table): seq<Slot> {
    Valid(Flat(t))
  }

  lemma {:induction false} FlatConcat(a: Table, b: Table)
    ensures Flat(a + b) == Flat(a) + Flat(b)
  {
    if a == [] {
      assert a + b == b;
    } else {
      assert (a + b)[1..] == a[1..] + b;
      FlatConcat(a[1..], b);
    }
  }

  lemma {:induction false} ValidConcat(a: seq<Slot>, b: seq<Slot>)
    ensures Valid(a + b) == Valid(a) + Valid(b)
  {
    if a == [] {
      assert a + b == b;
    } else {
      assert (a + b)[1..] == a[1..] + b;
      ValidConcat(a[1..], b);
    }
  }

  lemma EntriesConcat(a: Table, b: Table)
    ensures Entries(a + b) == Entries(a) + Entries(b)
  {
    FlatConcat(a, b);
    ValidConcat(Flat(a), Flat(b));
  }

  lemma OneBlock(s: seq<Slot>)
    ensures Flat([s]) == s && Entries([s]) == Valid(s)
  {
    assert [s][1..] == [];
    assert Flat([s]) == s + Flat([]);
  }

  // The entries with one block replaced.
  lemma BlockReplaced(t: Table, k: nat, s: seq<Slot>)
    requires k < |t|
    ensures Entries(t[k := s]) == Entries(t[..k]) + Valid(s) + Entries(t[k + 1..])
  {
    var t' := t[k := s];
    assert t' == t[..k] + [s] + t[k + 1..];
    EntriesConcat(t[..k] + [s], t[k + 1..]);
    EntriesConcat(t[..k], [s]);
    OneBlock(s);
  }

  // The entries in use of a block with one slot replaced.
  lemma SlotReplaced(s: seq<Slot>, j: nat, e: Slot)
    requires j < |s|
    ensures Valid(s[j := e]) == Valid(s[..j]) + Valid([e]) + Valid(s[j + 1..])
  {
    assert s[j := e] == s[..j] + [e] + s[j + 1..];
    ValidConcat(s[..j] + [e], s[j + 1..]);
    ValidConcat(s[..j], [e]);
  }

  // ---- the table as a finite map from names ----

  function FirstNamed(s: seq<Slot>, name: Name): (r: Option<Slot>)
    ensures r.Some? ==> r.value in s && r.value.name == name
    ensures r.None? ==> forall e :: e in s ==> e.name != name
  {
    if s == [] then None else if s[0].name == name then Some(s[0]) else FirstNamed(s[1..], name)
  }

  lemma {:induction false} FirstNamedConcat(a: seq<Slot>, b: seq<Slot>, name: Name)
    ensures FirstNamed(a + b, name) == if FirstNamed(a, name).Some? then FirstNamed(a, name) else FirstNamed(b, name)
  {
    if a == [] {
      assert a + b == b;
    } else {
      assert (a + b)[1..] == a[1..] + b;
      FirstNamedConcat(a[1..], b, name);
    }
  }

  ghost function Names(es: seq<Slot>): set<Name> {
    set e | e in es :: e.name
  }

  ghost function View(es: seq<Slot>): map<Name, Slot> {
    map n | n in Names(es) :: FirstNamed(es, n).value
  }

  ghost predicate Unique(es: seq<Slot>) {
    forall i, j :: 0 <= i < j < |es| ==> es[i].name != es[j].name
  }

  lemma ViewAt(es: seq<Slot>, n: Name)
    ensures n in View(es) <==> FirstNamed(es, n).Some?
    ensures n in View(es) ==> View(es)[n] == FirstNamed(es, n).value
  {
    if FirstNamed(es, n).Some? {
      assert FirstNamed(es, n).value.name in Names(es);
    }
  }

  // One entry more, wherever it is put, is one key more.
  lemma ViewAdd(a: seq<Slot>, b: seq<Slot>, e: Slot)
    requires e.name !in View(a + b)
    ensures View(a + [e] + b) == View(a + b)[e.name := e]
  {
    forall n
      ensures n in View(a + [e] + b) <==> n in View(a + b)[e.name := e]
      ensures n in View(a + [e] + b) ==> View(a + [e] + b)[n] == View(a + b)[e.name := e][n]
    {
      ViewAt(a + b, n);
      ViewAt(a + [e] + b, n);
      FirstNamedConcat(a, b, n);
      FirstNamedConcat(a + [e], b, n);
      FirstNamedConcat(a, [e], n);
      ViewAt(a + b, e.name);
    }
  }

  lemma UniqueAdd(a: seq<Slot>, b: seq<Slot>, e: Slot)
    ensures Unique(a + [e] + b) <==> Unique(a + b) && e.name !in View(a + b)
  {
    if Unique(a + [e] + b) {
      UniqueLess(a, b, e);
    }
    if Unique(a + b) && e.name !in View(a + b) {
      UniqueMore(a, b, e);
    }
  }

  lemma UniqueLess(a: seq<Slot>, b: seq<Slot>, e: Slot)
    requires Unique(a + [e] + b)
    ensures Unique(a + b) && e.name !in View(a + b)
  {
    var es, es' := a + b, a + [e] + b;
    forall i, j | 0 <= i < j < |es|
      ensures es[i].name != es[j].name
    {
      var i', j' := if i < |a| then i else i + 1, if j < |a| then j else j + 1;
      assert es[i] == es'[i'] && es[j] == es'[j'];
    }
    forall i | 0 <= i < |es|
      ensures es[i].name != e.name
    {
      var i' := if i < |a| then i else i + 1;
      assert es[i] == es'[i'] && es'[|a|] == e;
    }
    ViewAt(es, e.name);
  }

  lemma UniqueMore(a: seq<Slot>, b: seq<Slot>, e: Slot)
    requires Unique(a + b) && e.name !in View(a + b)
    ensures Unique(a + [e] + b)
  {
    var es, es' := a + b, a + [e] + b;
    ViewAt(es, e.name);
    forall i, j | 0 <= i < j < |es'|
      ensures es'[i].name != es'[j].name
    {
      assert i != |a| ==> es'[i] == es[if i < |a| then i else i - 1] && es'[i] in es;
      assert j != |a| ==> es'[j] == es[if j < |a| then j else j - 1] && es'[j] in es;
    }
  }

  // The view of a unique list has one key for each entry.
  lemma {:induction false} ViewSize(es: seq<Slot>)
    requires Unique(es)
    ensures |View(es)| == |es|
  {
    if es == [] {
      assert View(es) == map[];
    } else {
      var b := es[1..];
      assert [] + b == b && [] + [es[0]] + b == es;
      UniqueAdd([], b, es[0]);
      ViewAdd([], b, es[0]);
      ViewSize(b);
    }
  }
}
