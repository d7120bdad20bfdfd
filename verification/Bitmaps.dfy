// lib/kernel/bitmap.c: bitmaps packed eight to a byte. The bits of a map are the first ones of an
// array of bytes, and whatever memory follows the map is there too, since a scan for more than one
// bit reads the first bit of it.
module Bitmaps {
  import opened Bits

  const BITMAP_MASK: bv8 := 1

  function Mask(odd: nat): bv8
    requires odd < 8
  {
    BITMAP_MASK << odd
  }

  // The bit at position i of a byte sequence, as bitmap_scan_test reads it.
  predicate BitAt(bytes: seq<bv8>, i: nat)
    requires i / 8 < |bytes|
  {
    bytes[i / 8] & Mask(i % 8) != 0
  }

  // The first n bits of a byte sequence.
  ghost function View(bytes: seq<bv8>, n: nat): seq<bool>
    requires n <= 8 * |bytes|
  {
    seq(n, i requires 0 <= i < n => BitAt(bytes, i))
  }

  lemma NotFullHasClearBit(b: bv8)
    ensures b != 0xFF <==> exists k: nat :: k < 8 && b & Mask(k) == 0
  {
    assert Mask(0) == 1 && Mask(1) == 2 && Mask(2) == 4 && Mask(3) == 8;
    assert Mask(4) == 16 && Mask(5) == 32 && Mask(6) == 64 && Mask(7) == 128;
  }

  lemma NotFullByte(bytes: seq<bv8>, idx: nat) returns (k: nat)
    requires idx < |bytes| && bytes[idx] != 0xFF
    ensures k < 8 && !BitAt(bytes, 8 * idx + k)
  {
    NotFullHasClearBit(bytes[idx]);
    k :| k < 8 && bytes[idx] & Mask(k) == 0;
    assert (8 * idx + k) / 8 == idx && (8 * idx + k) % 8 == k;
  }

  // The first n bits are all set.
  ghost predicate SetUpTo(bytes: seq<bv8>, n: nat)
    requires n <= 8 * |bytes|
  {
    forall i :: 0 <= i < n ==> BitAt(bytes, i)
  }

  lemma BitOfByte(bytes: seq<bv8>, idx: nat, k: nat)
    requires idx < |bytes| && k < 8
    ensures BitAt(bytes, 8 * idx + k) <==> (BITMAP_MASK << k) & bytes[idx] != 0
  {
    assert (8 * idx + k) / 8 == idx && (8 * idx + k) % 8 == k;
  }

  lemma FullByte(bytes: seq<bv8>, idx: nat)
    requires idx < |bytes| && bytes[idx] == 0xFF && SetUpTo(bytes, 8 * idx)
    ensures SetUpTo(bytes, 8 * (idx + 1))
  {
    forall i | 8 * idx <= i < 8 * (idx + 1)
      ensures BitAt(bytes, i)
    {
      NotFullHasClearBit(bytes[idx]);
      BitOfByte(bytes, idx, i - 8 * idx);
    }
  }

  // What bitmap_set stores in a byte.
  function Masked(b: bv8, odd: nat, value: bool): bv8
    requires odd < 8
  {
    if value then b | Mask(odd) else b & !Mask(odd)
  }

  // One byte masked as bitmap_set does it: that bit of the map is set and no other.
  lemma SetBit(was: seq<bv8>, now: seq<bv8>, bitIdx: nat, value: bool, n: nat)
    requires bitIdx < n <= 8 * |was| && |now| == |was|
    requires now == was[bitIdx / 8 := Masked(was[bitIdx / 8], bitIdx % 8, value)]
    ensures View(now, n) == View(was, n)[bitIdx := value]
  {
    forall i | 0 <= i < n
      ensures BitAt(now, i) == if i == bitIdx then value else BitAt(was, i)
    {
      SetOneBit(was, now, bitIdx, value, i);
    }
  }

  lemma SetOneBit(was: seq<bv8>, now: seq<bv8>, bitIdx: nat, value: bool, i: nat)
    requires bitIdx < 8 * |was| && i < 8 * |was| && |now| == |was|
    requires now == was[bitIdx / 8 := Masked(was[bitIdx / 8], bitIdx % 8, value)]
    ensures BitAt(now, i) == if i == bitIdx then value else BitAt(was, i)
  {
    if i / 8 == bitIdx / 8 {
      assert i == bitIdx <==> i % 8 == bitIdx % 8;
      MaskedBit(was[bitIdx / 8], bitIdx % 8, value, i % 8);
    }
  }

  lemma MaskedBit(b: bv8, odd: nat, value: bool, j: nat)
    requires odd < 8 && j < 8
    ensures Masked(b, odd, value) & Mask(j) != 0 <==> if odd == j then value else b & Mask(j) != 0
  {
  }

  class Bitmap {
    // The bytes of the map are bits[..byteLen]; whatever memory follows the map comes after them.
    const bits: array<bv8>
    const byteLen: nat

    ghost predicate Valid() {
      byteLen < bits.Length
    }

    // The bits of the map.
    ghost function Bits(): seq<bool>
      requires Valid()
      reads bits
    {
      View(bits[..], 8 * byteLen)
    }

    // The bits of the map and the one bit after it.
    ghost function BitsAndNext(): seq<bool>
      requires Valid()
      reads bits
    {
      View(bits[..], 8 * byteLen + 1)
    }

    constructor (memory: array<bv8>, byteLen: nat)
      requires byteLen < memory.Length
      ensures Valid() && bits == memory && this.byteLen == byteLen
    {
      bits := memory;
      this.byteLen := byteLen;
    }

    method ScanTest(bitIdx: nat) returns (r: bool)
      requires Valid() && bitIdx <= 8 * byteLen
      ensures r == BitsAndNext()[bitIdx]
    {
      var byteIdx := bitIdx / 8;
      var bitOdd := bitIdx % 8;
      r := bits[byteIdx] & (BITMAP_MASK << bitOdd) != 0;
    }

    method Set(bitIdx: nat, value: bool)
      requires Valid() && bitIdx < 8 * byteLen
      modifies bits
      ensures BitsAndNext() == old(BitsAndNext())[bitIdx := value]
      ensures bits[byteLen..] == old(bits[byteLen..])
    {
      var byteIdx := bitIdx / 8;
      var bitOdd := bitIdx % 8;
      bits[byteIdx] := Masked(bits[byteIdx], bitOdd, value);
      assert bits[..] == old(bits[..])[byteIdx := Masked(old(bits[..])[byteIdx], bitOdd, value)];
      SetBit(old(bits[..]), bits[..], bitIdx, value, 8 * byteLen + 1);
    }

    // Lines 43-58: the first clear bit, byte by byte and then bit by bit.
    method FindClear() returns (full: bool, start: nat)
      requires Valid()
      ensures full <==> AllSet(Bits())
      ensures !full ==> start == FirstClear(Bits()) < 8 * byteLen
    {
      ghost var m := bits[..];
      var idxByte := 0;
      while bits[idxByte] == 0xFF && idxByte < byteLen
        invariant 0 <= idxByte <= byteLen
        invariant SetUpTo(m, 8 * idxByte)
        decreases byteLen - idxByte
      {
        FullByte(m, idxByte);
        idxByte := idxByte + 1;
      }
      if !(idxByte < byteLen) {
        return true, 0;
      }
      var idxBit := FindInByte(idxByte);
      start := idxByte * 8 + idxBit;
      full := false;
      FirstClearIs(Bits(), start);
    }

    // Lines 49-57: the first clear bit of a byte that is not full.
    method FindInByte(idxByte: nat) returns (idxBit: nat)
      requires Valid() && idxByte < byteLen && bits[idxByte] != 0xFF && SetUpTo(bits[..], 8 * idxByte)
      ensures idxBit < 8 && SetUpTo(bits[..], 8 * idxByte + idxBit) && !BitAt(bits[..], 8 * idxByte + idxBit)
    {
      ghost var m := bits[..];
      ghost var k := NotFullByte(m, idxByte);
      idxBit := 0;
      while (BITMAP_MASK << idxBit) & bits[idxByte] != 0
        invariant 0 <= idxBit <= k && SetUpTo(m, 8 * idxByte + idxBit)
        decreases k - idxBit
      {
        BitOfByte(m, idxByte, idxBit);
        idxBit := idxBit + 1;
      }
      BitOfByte(m, idxByte, idxBit);
    }

    method Scan(cnt: nat) returns (r: Scan)
      requires Valid() && cnt >= 1
      ensures r == ScanOf(Bits(), BitsAndNext()[8 * byteLen], cnt)
    {
      ghost var b, ext := Bits(), BitsAndNext();
      assert ext == b + [ext[8 * byteLen]];
      var full, bitIdxStart := FindClear();
      if full {
        return Full;
      }
      if cnt == 1 {
        return Start(bitIdxStart);
      }
      assert forall i :: 0 <= i < |b| ==> ext[i] == b[i];
      r := ScanRun(bitIdxStart, cnt);
      OneFirstFit(ext, cnt, r, ScanOf(b, ext[8 * byteLen], cnt));
    }

    // Lines 60-81: from the first clear bit on, count clear bits until cnt of them are in a row.
    method ScanRun(first: nat, cnt: nat) returns (r: Scan)
      requires Valid() && cnt > 1
      requires first < 8 * byteLen && !BitsAndNext()[first]
      requires forall i :: 0 <= i < first ==> BitsAndNext()[i]
      ensures !r.Full? && FirstFit(BitsAndNext(), cnt, r)
    {
      ghost var b := BitsAndNext();
      CountFromFirstClear(b, first, cnt);
      var bitLeft := byteLen * 8 - first;
      var nextBit := first + 1;
      var count := 1;
      while bitLeft > 0
        invariant 0 <= bitLeft && nextBit + bitLeft == 8 * byteLen + 1
        invariant count < cnt && Counted(b, nextBit, count, cnt)
      {
        bitLeft := bitLeft - 1;
        CountOneMore(b, nextBit, count, cnt);
        var isSet := ScanTest(nextBit);
        if !isSet {
          count := count + 1;
        } else {
          count := 0;
        }
        if count == cnt {
          return Start(nextBit - cnt + 1);
        }
        nextBit := nextBit + 1;
      }
      return NoRun;
    }
  }
}
