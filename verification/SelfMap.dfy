// kernel/memory.c: pte_addr, pde_addr and addr_v2p, when directory entry 1023 points to the directory itself.
module SelfMap {
  import opened Options
  import P = Paging

  // A 32-bit word of a page table: the top 20 bits and the rest.
  datatype Word = Word(frame: bv20, flags: bv12)

  // A physical address by frame and offset, and physical memory by the words of each frame. An
  // absent word reads as 0.
  datatype Phys = Phys(frame: bv20, offset: bv12)
  type Memory = map<(bv20, bv10), Word>

  function Load(m: Memory, frame: bv20, i: bv10): Word {
    if (frame, i) in m then m[(frame, i)] else Word(0, 0)
  }

  predicate Present(w: Word) {
    w.flags & 1 == 1
  }

  // The byte offset of word i of a page.
  function ByteOffset(i: bv10): bv12 {
    (i as bv12) << 2
  }

  // ---- addresses ----

  function PdeIdx(v: bv32): bv10 {
    (v >> 22) as bv10
  }

  function PteIdx(v: bv32): bv10 {
    ((v >> 12) & 0x3FF) as bv10
  }

  function Offset(v: bv32): bv12 {
    (v & 0xFFF) as bv12
  }

  function PteAddr(v: bv32): bv32 {
    0xFFC00000 + ((v & 0xFFC00000) >> 10) + ((v & 0x003FF000) >> 12) * 4
  }

  function PdeAddr(v: bv32): bv32 {
    0xFFFFF000 + ((v & 0xFFC00000) >> 22) * 4
  }

  lemma PteAddrParts(v: bv32)
    ensures PdeIdx(PteAddr(v)) == 1023 && PteIdx(PteAddr(v)) == PdeIdx(v) && Offset(PteAddr(v)) == ByteOffset(PteIdx(v))
  {
  }

  lemma PdeAddrParts(v: bv32)
    ensures PdeIdx(PdeAddr(v)) == 1023 && PteIdx(PdeAddr(v)) == 1023 && Offset(PdeAddr(v)) == ByteOffset(PdeIdx(v))
  {
  }

  // ---- the walk of 32-bit paging (section 4.3 of Intel SDM Volume 3A) ----

  // The walk for the three parts of an address, from the directory in frame cr3; None is a page fault.
  function WalkParts(m: Memory, cr3: bv20, d: bv10, t: bv10, offset: bv12): Option<Phys> {
    var pde := Load(m, cr3, d);
    if !Present(pde) then None
    else
      var pte := Load(m, pde.frame, t);
      if !Present(pte) then None else Some(Phys(pte.frame, offset))
  }

  function Walk(m: Memory, cr3: bv20, v: bv32): Option<Phys> {
    WalkParts(m, cr3, PdeIdx(v), PteIdx(v), Offset(v))
  }

  predicate MapsItself(m: Memory, cr3: bv20) {
    Present(Load(m, cr3, 1023)) && Load(m, cr3, 1023).frame == cr3
  }

  // The places of v's two entries.
  function PdePlace(cr3: bv20, v: bv32): Phys {
    Phys(cr3, ByteOffset(PdeIdx(v)))
  }

  function PtePlace(m: Memory, cr3: bv20, v: bv32): Phys {
    Phys(Load(m, cr3, PdeIdx(v)).frame, ByteOffset(PteIdx(v)))
  }

  // Through the self-map pte_addr(v) reaches v's page table entry, exactly when v has a page table.
  lemma PteAddrReaches(m: Memory, cr3: bv20, v: bv32)
    requires MapsItself(m, cr3)
    ensures Walk(m, cr3, PteAddr(v)) == if Present(Load(m, cr3, PdeIdx(v))) then Some(PtePlace(m, cr3, v)) else None
  {
    PteAddrParts(v);
  }

  // And pde_addr(v) reaches v's directory entry whatever it holds.
  lemma PdeAddrReaches(m: Memory, cr3: bv20, v: bv32)
    requires MapsItself(m, cr3)
    ensures Walk(m, cr3, PdeAddr(v)) == Some(PdePlace(cr3, v))
  {
    PdeAddrParts(v);
  }

  // The word at a place.
  function WordAt(m: Memory, p: Phys): Word {
    Load(m, p.frame, (p.offset >> 2) as bv10)
  }

  // addr_v2p reads *pte_addr(v) through the same walk.
  function AddrV2P(m: Memory, cr3: bv20, v: bv32): Option<Phys> {
    var pte := Walk(m, cr3, PteAddr(v));
    if pte == None then None else Some(Phys(WordAt(m, pte.value).frame, Offset(v)))
  }

  lemma OffsetRoundTrip(i: bv10)
    ensures (ByteOffset(i) >> 2) as bv10 == i
  {
  }

  // It agrees with the processor wherever the processor translates v; where only the page itself is
  // missing it still answers, since it does not look at the present bit.
  lemma V2PIsWalk(m: Memory, cr3: bv20, v: bv32)
    requires MapsItself(m, cr3)
    ensures Walk(m, cr3, v).Some? ==> AddrV2P(m, cr3, v) == Walk(m, cr3, v)
    ensures AddrV2P(m, cr3, v).None? <==> !Present(Load(m, cr3, PdeIdx(v)))
  {
    PteAddrReaches(m, cr3, v);
    OffsetRoundTrip(PteIdx(v));
  }

  // create_page_dir: the kernel's quarter of the directory is copied and the last entry points back.
  function NewDirectory(kernel: seq<Word>, frame: bv20): (d: seq<Word>)
    requires |kernel| == 1024
    ensures |d| == 1024
  {
    seq<Word>(768, i => Word(0, 0)) + kernel[768..1023] + [Word(frame, 7)]
  }

  // A directory made so maps itself, translates the kernel's addresses as before and no others.
  lemma NewDirectoryWalks(m: Memory, old3: bv20, new3: bv20, v: bv32, kernel: seq<Word>)
    requires |kernel| == 1024 && forall i: bv10 :: Load(m, old3, i) == kernel[i as nat]
    requires forall i: bv10 :: Load(m, new3, i) == NewDirectory(kernel, new3)[i as nat]
    ensures MapsItself(m, new3)
    ensures 768 <= PdeIdx(v) as nat < 1023 ==> Walk(m, new3, v) == Walk(m, old3, v)
    ensures PdeIdx(v) as nat < 768 ==> Walk(m, new3, v) == None
  {
    var last: bv10 := 1023;
    assert last as nat == 1023;
    assert Load(m, new3, last) == Word(new3, 7);
  }

  // ---- the entries that Paging.dfy works on ----

  // The same memory, seen as pages of entries.
  ghost predicate Represents(m: Memory, s: P.Space) {
    forall f: bv20, i: bv10 :: Matches(Load(m, f, i), P.At(s, f as nat)[i as nat])
  }

  ghost predicate Matches(w: Word, e: P.Word) {
    w.frame as nat == e.frame && (Present(w) <==> e.present)
  }

  // v lies in the page of number vp.
  predicate InPage(v: bv32, vp: nat) {
    vp == 1024 * (PdeIdx(v) as nat) + PteIdx(v) as nat
  }

  lemma PlaceHolds(m: Memory, cr3: bv20, v: bv32)
    ensures WordAt(m, PtePlace(m, cr3, v)) == Load(m, Load(m, cr3, PdeIdx(v)).frame, PteIdx(v))
  {
    OffsetRoundTrip(PteIdx(v));
  }

  lemma PageIndices(vp: nat, d: nat, t: nat)
    requires vp == 1024 * d + t && t < 1024
    ensures P.PdIdx(vp) == d && P.PtIdx(vp) == t
  {
  }

  lemma EntryMatches(m: Memory, s: P.Space, a: P.Area, cr3: bv20, d: bv10, t: bv10, vp: nat)
    requires Represents(m, s) && s.dir == cr3 as nat && P.Covers(a, vp)
    requires P.PdIdx(vp) == d as nat && P.PtIdx(vp) == t as nat
    ensures P.HasTable(s, a, vp) <==> Present(Load(m, cr3, d))
    ensures P.HasTable(s, a, vp) ==> Matches(Load(m, Load(m, cr3, d).frame, t), P.Entry(s, a, vp))
  {
    var pde := Load(m, cr3, d);
    assert Matches(pde, P.At(s, cr3 as nat)[d as nat]);
    assert Matches(Load(m, pde.frame, t), P.At(s, pde.frame as nat)[t as nat]);
  }

  // What Paging.dfy calls the entry of a page is what the processor reaches through pte_addr, and there
  // is none exactly when the walk of pte_addr faults.
  lemma EntryIsWhatIsReached(m: Memory, cr3: bv20, v: bv32, s: P.Space, a: P.Area, vp: nat)
    requires MapsItself(m, cr3) && Represents(m, s) && s.dir == cr3 as nat && InPage(v, vp) && P.Covers(a, vp)
    ensures Walk(m, cr3, PteAddr(v)).Some? <==> P.HasTable(s, a, vp)
    ensures P.HasTable(s, a, vp) ==> Matches(WordAt(m, Walk(m, cr3, PteAddr(v)).value), P.Entry(s, a, vp))
  {
    PteAddrReaches(m, cr3, v);
    PlaceHolds(m, cr3, v);
    IndicesOf(v, vp);
    EntryMatches(m, s, a, cr3, PdeIdx(v), PteIdx(v), vp);
  }

  lemma IndicesOf(v: bv32, vp: nat)
    requires InPage(v, vp)
    ensures P.PdIdx(vp) == PdeIdx(v) as nat && P.PtIdx(vp) == PteIdx(v) as nat
  {
    PageIndices(vp, PdeIdx(v) as nat, PteIdx(v) as nat);
  }
}
