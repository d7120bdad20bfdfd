// lib/kernel/bitmap.c: what a scan of a bitmap promises, on the map as a sequence of bits.
module Bits {
  // cnt clear bits in a row, starting at s and ending inside b.
  predicate ClearRun(b: seq<bool>, s: nat, cnt: nat) {
    s + cnt <= |b| && forall i :: s <= i < s + cnt ==> !b[i]
  }

  // Full: the ASSERT of line 46 fails. NoRun: -1. Start: the index returned.
  datatype Scan = Full | NoRun | Start(idx: nat)

  // First fit over b: the answer a caller of bitmap_scan is promised.
  ghost predicate FirstFit(b: seq<bool>, cnt: nat, r: Scan) {
    match r
    case Full => forall i :: 0 <= i < |b| ==> b[i]
    case NoRun => forall s: nat :: !ClearRun(b, s, cnt)
    case Start(idx) => ClearRun(b, idx, cnt) && forall s: nat :: s < idx ==> !ClearRun(b, s, cnt)
  }

  ghost predicate AllSet(b: seq<bool>) {
    forall i :: 0 <= i < |b| ==> b[i]
  }

  // The first clear bit, or the length of a full map.
  function FirstClear(b: seq<bool>): (i: nat)
    ensures i <= |b| && (forall j :: 0 <= j < i ==> b[j]) && (i < |b| ==> !b[i])
    ensures i < |b| <==> false in b
  {
    if b == [] || !b[0] then 0 else 1 + FirstClear(b[1..])
  }

  lemma FirstOfOne(b: seq<bool>, first: nat)
    requires first < |b| && !b[first] && forall i :: 0 <= i < first ==> b[i]
    ensures FirstFit(b, 1, Start(first))
  {
    forall s: nat | s < first
      ensures !ClearRun(b, s, 1)
    {
      assert b[s];
    }
  }

  // The first run of cnt clear bits that starts at from or later.
  function FirstRun(b: seq<bool>, cnt: nat, from: nat): (r: Scan)
    ensures r.NoRun? ==> forall s: nat :: from <= s ==> !ClearRun(b, s, cnt)
    ensures r.Start? ==> from <= r.idx && ClearRun(b, r.idx, cnt)
    ensures r.Start? ==> forall s: nat :: from <= s < r.idx ==> !ClearRun(b, s, cnt)
    ensures !r.Full?
    decreases |b| - from
  {
    if from + cnt > |b| then NoRun
    else if ClearRun(b, from, cnt) then Start(from)
    else FirstRun(b, cnt, from + 1)
  }

  // bitmap_scan on a map followed in memory by the bit next.
  function ScanOf(b: seq<bool>, next: bool, cnt: nat): (r: Scan)
    requires cnt >= 1
    ensures r.Full? <==> AllSet(b)
    ensures !r.Full? ==> FirstFit(if cnt == 1 then b else b + [next], cnt, r)
    ensures cnt == 1 ==> r == if AllSet(b) then Full else Start(FirstClear(b))
  {
    if FirstClear(b) == |b| then Full
    else if cnt == 1 then FirstOfOne(b, FirstClear(b)); Start(FirstClear(b))
    else FirstRun(b + [next], cnt, 0)
  }

  lemma {:induction false} FirstClearIs(b: seq<bool>, i: nat)
    requires i < |b| && !b[i] && forall j :: 0 <= j < i ==> b[j]
    ensures FirstClear(b) == i
  {
    var first := FirstClear(b);
    assert !(first < i) && !(i < first);
  }

  lemma OneFirstFit(b: seq<bool>, cnt: nat, r: Scan, r': Scan)
    requires FirstFit(b, cnt, r) && FirstFit(b, cnt, r') && !r.Full? && !r'.Full?
    ensures r == r'
  {
    if r.Start? && r'.Start? {
      assert !(r.idx < r'.idx) && !(r'.idx < r.idx);
    }
  }

  // ---- the bit behind the map ----

  // Answers of a scan over the map and over the map plus the one bit after it differ in exactly
  // this case: the map has no run, its last cnt - 1 bits are clear and so is the bit past its end.
  ghost predicate RunsOffTheEnd(ext: seq<bool>, cnt: nat)
    requires |ext| > 0
  {
    var b := ext[..|ext| - 1];
    && (forall s: nat :: !ClearRun(b, s, cnt))
    && cnt <= |ext| && ClearRun(ext, |ext| - cnt, cnt)
  }

  lemma {:induction false} FirstFitPastTheEnd(ext: seq<bool>, cnt: nat, r: Scan)
    requires |ext| > 0 && cnt >= 1 && FirstFit(ext, cnt, r) && !r.Full?
    ensures FirstFit(ext[..|ext| - 1], cnt, r) <==> !RunsOffTheEnd(ext, cnt)
  {
    var b := ext[..|ext| - 1];
    forall s: nat | ClearRun(ext, s, cnt) && s + cnt <= |b|
      ensures ClearRun(b, s, cnt)
    {
    }
    forall s: nat | ClearRun(b, s, cnt)
      ensures ClearRun(ext, s, cnt)
    {
      assert forall i :: s <= i < s + cnt ==> ext[i] == b[i];
    }
    if RunsOffTheEnd(ext, cnt) {
      assert r.Start?;
      assert !ClearRun(b, r.idx, cnt);
    }
  }

  // One clear bit is left at the end of the map and the bit behind it is clear too: a run of two is
  // reported that the map does not have.
  lemma PastTheEndExample(used: seq<bool>)
    requires AllSet(used)
    ensures var b := used + [false];
      ScanOf(b, false, 2) == Start(|used|) && RunsOffTheEnd(b + [false], 2) && FirstFit(b, 2, NoRun)
  {
    var b := used + [false];
    var ext := b + [false];
    assert ext[..|ext| - 1] == b;
    forall s: nat
      ensures s < |used| ==> !ClearRun(ext, s, 2)
      ensures !ClearRun(b, s, 2)
    {
      assert s < |used| ==> used[s] && ext[s] && b[s];
    }
    assert ClearRun(ext, |used|, 2);
    assert !b[|used|];
    OneFirstFit(ext, 2, Start(|used|), ScanOf(b, false, 2));
  }

  lemma OneStart(b: seq<bool>, cnt: nat, first: nat)
    requires FirstFit(b, cnt, Start(first))
    ensures forall x: nat :: FirstFit(b, cnt, Start(x)) ==> x == first
  {
    forall x: nat | FirstFit(b, cnt, Start(x))
      ensures x == first
    {
      OneFirstFit(b, cnt, Start(x), Start(first));
    }
  }

  // A scan that also reads the bit behind the map: a run inside the map, one that ends behind it, or none.
  lemma ScanMeans(b: seq<bool>, next: bool, cnt: nat)
    requires cnt >= 1
    ensures var r := ScanOf(b, next, cnt);
      && (forall first: nat :: FirstFit(b, cnt, Start(first)) <==> r == Start(first) && first + cnt <= |b|)
      && (r.NoRun? <==> !AllSet(b) && FirstFit(b + [next], cnt, NoRun))
      && (r.Start? && r.idx + cnt > |b| <==> !AllSet(b) && RunsOffTheEnd(b + [next], cnt))
  {
    var r, ext := ScanOf(b, next, cnt), b + [next];
    forall first: nat
      ensures FirstFit(b, cnt, Start(first)) <==> r == Start(first) && first + cnt <= |b|
    {
      ScanIs(b, next, cnt, first);
    }
    InTheMap(b, next, cnt);
    assert ext[..|ext| - 1] == b;
    if cnt == 1 && r.Start? {
      assert ClearRun(b, r.idx, 1) && ClearRun(ext, r.idx, 1);
    } else if r.Start? {
      FirstFitPastTheEnd(ext, cnt, r);
    }
  }

  lemma ScanIs(b: seq<bool>, next: bool, cnt: nat, first: nat)
    requires cnt >= 1
    ensures FirstFit(b, cnt, Start(first)) <==> ScanOf(b, next, cnt) == Start(first) && first + cnt <= |b|
  {
    var r := ScanOf(b, next, cnt);
    InTheMap(b, next, cnt);
    if FirstFit(b, cnt, Start(first)) {
      assert !b[first];
      OneFirstFit(if cnt == 1 then b else b + [next], cnt, r, Start(first));
    }
  }

  // A first fit in the map is one in the map and the bit behind it, and the other way round.
  lemma InTheMap(b: seq<bool>, next: bool, cnt: nat)
    requires cnt >= 1
    ensures forall first: nat :: first + cnt <= |b| ==> (ClearRun(b, first, cnt) <==> ClearRun(b + [next], first, cnt))
    ensures forall first: nat :: first + cnt <= |b| ==>
      (FirstFit(b, cnt, Start(first)) <==> FirstFit(b + [next], cnt, Start(first)))
  {
    forall first: nat | first + cnt <= |b|
      ensures ClearRun(b, first, cnt) <==> ClearRun(b + [next], first, cnt)
    {
      assert forall i :: first <= i < first + cnt ==> (b + [next])[i] == b[i];
    }
  }

  // ---- the counting loop ----

  // What the counting loop knows after nextBit bits: count clear bits end there, no run of cnt did.
  ghost predicate Counted(b: seq<bool>, nextBit: nat, count: nat, cnt: nat)
    requires nextBit <= |b|
  {
    && count <= nextBit
    && (forall i :: nextBit - count <= i < nextBit ==> !b[i])
    && (nextBit == count || b[nextBit - count - 1])
    && (forall s: nat :: s + cnt <= nextBit ==> !ClearRun(b, s, cnt))
  }

  lemma CountFromFirstClear(b: seq<bool>, first: nat, cnt: nat)
    requires first < |b| && !b[first] && cnt > 1
    requires forall i :: 0 <= i < first ==> b[i]
    ensures Counted(b, first + 1, 1, cnt)
  {
    forall s: nat | s + cnt <= first + 1
      ensures !ClearRun(b, s, cnt)
    {
      assert b[s];
    }
  }

  lemma CountOneMore(b: seq<bool>, nextBit: nat, count: nat, cnt: nat)
    requires nextBit < |b| && count < cnt && Counted(b, nextBit, count, cnt)
    ensures !b[nextBit] && count + 1 == cnt ==> FirstFit(b, cnt, Start(nextBit - cnt + 1))
    ensures !b[nextBit] && count + 1 < cnt ==> Counted(b, nextBit + 1, count + 1, cnt)
    ensures b[nextBit] ==> Counted(b, nextBit + 1, 0, cnt)
  {
    forall s: nat | s + cnt == nextBit + 1 && (b[nextBit] || count + 1 < cnt)
      ensures !ClearRun(b, s, cnt)
    {
      if !b[nextBit] {
        assert b[nextBit - count - 1];
      }
    }
  }

  // ---- counting ----

  function CountClear(b: seq<bool>): nat {
    if b == [] then 0 else (if b[0] then 0 else 1) + CountClear(b[1..])
  }

  lemma {:induction false} ClearOneLess(b: seq<bool>, i: nat)
    requires i < |b| && !b[i]
    ensures CountClear(b) > 0 && CountClear(b[i := true]) == CountClear(b) - 1
  {
    if i == 0 {
      assert b[0 := true][1..] == b[1..];
    } else {
      ClearOneLess(b[1..], i - 1);
      assert b[i := true][1..] == b[1..][i - 1 := true];
    }
  }

  lemma {:induction false} NoneClear(b: seq<bool>)
    requires AllSet(b)
    ensures CountClear(b) == 0
  {
    if b != [] {
      NoneClear(b[1..]);
    }
  }

  // Setting a first-fit run makes exactly that run used.
  function Mark(b: seq<bool>, s: nat, cnt: nat, v: bool): (r: seq<bool>)
    requires s + cnt <= |b|
    ensures |r| == |b| && forall i :: 0 <= i < |b| ==> r[i] == if s <= i < s + cnt then v else b[i]
  {
    b[..s] + seq(cnt, i => v) + b[s + cnt..]
  }
}
