/**
  lib/kernel/bitmap.c.  A bitmap is a sequence of bits; the class keeps it packed
  in bytes, and scanning skips full bytes and leading set bits.
 */
module Bitmaps {
  import opened Outcomes

  // ----- Bits as a sequence ---------------------------------------------------

  ghost predicate ClearRun(s: seq<bool>, i: int, cnt: nat) {
    0 <= i && i + cnt <= |s| && forall j :: i <= j < i + cnt ==> !s[j]
  }

  function Clear(n: nat): (s: seq<bool>)
    ensures |s| == n && forall i :: 0 <= i < n ==> !s[i]
  {
    seq(n, _ => false)
  }

  predicate Full(s: seq<bool>) {
    forall i :: 0 <= i < |s| ==> s[i]
  }

  /** r is the least start of cnt clear bits, or -1 when there is no such run. */
  ghost predicate IsFirstFit(s: seq<bool>, cnt: nat, r: int) {
    && (r == -1 ==> forall i :: !ClearRun(s, i, cnt))
    && (r != -1 ==> ClearRun(s, r, cnt) && forall i :: 0 <= i < r ==> !ClearRun(s, i, cnt))
  }

  /** The reference: try every start in turn. */
  function FirstFitFrom(s: seq<bool>, cnt: nat, i: nat): (r: int)
    requires forall k :: 0 <= k < i ==> !ClearRun(s, k, cnt)
    ensures IsFirstFit(s, cnt, r)
    decreases |s| - i
  {
    if |s| < i + cnt then
      assert forall k :: i <= k ==> !ClearRun(s, k, cnt);
      -1
    else if forall j :: i <= j < i + cnt ==> !s[j] then
      assert ClearRun(s, i, cnt);
      i
    else
      FirstFitFrom(s, cnt, i + 1)
  }

  function FirstFit(s: seq<bool>, cnt: nat): (r: int)
    ensures IsFirstFit(s, cnt, r)
    ensures r == -1 || 0 <= r <= |s| - cnt
  {
    FirstFitFrom(s, cnt, 0)
  }

  /** What a scan amounts to: it stops the machine on a full bitmap. */
  function ScanResult(s: seq<bool>, cnt: nat): Outcome<int> {
    if Full(s) then Panic(BitmapFull) else Ok(FirstFit(s, cnt))
  }

  /** r is the place after the first set bit that has a clear one before it, or -1 when there is none. */
  ghost predicate IsAfterSet(s: seq<bool>, r: int) {
    && (r == -1 ==> forall i, j :: 0 <= i < j < |s| && s[j] ==> s[i])
    && (r != -1 ==>
          && 1 <= r <= |s| && s[r - 1] && (exists i :: 0 <= i < r - 1 && !s[i])
          && forall i, j :: 0 <= i < j < r - 1 && s[j] ==> s[i])
  }

  lemma FirstFitUnique(s: seq<bool>, cnt: nat, r: int, q: int)
    requires IsFirstFit(s, cnt, r) && IsFirstFit(s, cnt, q)
    ensures r == q
  {
  }

  /** One bit is all a bitmap needs to be able to give: a scan for one bit never answers -1. */
  lemma ScanOne(s: seq<bool>)
    requires !Full(s)
    ensures 0 <= FirstFit(s, 1) < |s| && !s[FirstFit(s, 1)] && forall i :: 0 <= i < FirstFit(s, 1) ==> s[i]
  {
    var i :| 0 <= i < |s| && !s[i];
    assert ClearRun(s, i, 1);
    forall j | 0 <= j < FirstFit(s, 1)
      ensures s[j]
    {
      assert !ClearRun(s, j, 1);
    }
  }

  // ----- Bits packed in bytes ---------------------------------------------------

  /** BITMAP_MASK << off */
  function Mask(off: nat): bv8
    requires off < 8
  {
    if off == 0 then 1 else Mask(off - 1) << 1
  }

  predicate BitOf(b: bv8, off: nat)
    requires off < 8
  {
    b & Mask(off) != 0
  }

  lemma MaskValues()
    ensures Mask(0) == 1 && Mask(1) == 2 && Mask(2) == 4 && Mask(3) == 8
    ensures Mask(4) == 16 && Mask(5) == 32 && Mask(6) == 64 && Mask(7) == 128
  {
    assert Mask(3) == 8;
    assert Mask(5) == 32;
  }

  predicate OneHot(m: bv8) {
    m == 1 || m == 2 || m == 4 || m == 8 || m == 16 || m == 32 || m == 64 || m == 128
  }

  lemma MaskOneHot(off: nat, k: nat)
    requires off < 8 && k < 8
    ensures OneHot(Mask(off)) && (Mask(off) == Mask(k) <==> off == k)
  {
    MaskValues();
  }

  lemma FullByte(b: bv8)
    ensures b == 0xff <==> forall off :: 0 <= off < 8 ==> BitOf(b, off)
  {
    if forall off :: 0 <= off < 8 ==> BitOf(b, off) {
      MaskValues();
      assert BitOf(b, 0) && BitOf(b, 1) && BitOf(b, 2) && BitOf(b, 3);
      assert BitOf(b, 4) && BitOf(b, 5) && BitOf(b, 6) && BitOf(b, 7);
    }
    if b == 0xff {
      forall off | 0 <= off < 8
        ensures BitOf(b, off)
      {
        MaskOneHot(off, off);
      }
    }
  }

  lemma OneHotSet(b: bv8, m: bv8, n: bv8)
    requires OneHot(m) && OneHot(n)
    ensures ((b | m) & n != 0) == (m == n || b & n != 0)
    ensures ((b & !m) & n != 0) == (m != n && b & n != 0)
  {
  }

  /** The assignment of bitmap_set. */
  function WithBit(b: bv8, off: nat, value: bool): bv8
    requires off < 8
  {
    if value then b | Mask(off) else b & !Mask(off)
  }

  /** Setting or clearing one bit of a byte leaves the other seven. */
  lemma SetBit(b: bv8, off: nat, value: bool, k: nat)
    requires off < 8 && k < 8
    ensures BitOf(WithBit(b, off, value), k) == if k == off then value else BitOf(b, k)
  {
    MaskOneHot(off, k);
    MaskOneHot(k, off);
    OneHotSet(b, Mask(off), Mask(k));
  }

  function Unpack(bytes: seq<bv8>): (s: seq<bool>)
    ensures |s| == |bytes| * 8
  {
    seq(|bytes| * 8, i requires 0 <= i < |bytes| * 8 => BitOf(bytes[i / 8], i % 8))
  }

  lemma UnpackByte(bytes: seq<bv8>, i: nat, b: bv8, value: bool)
    requires i < |bytes| * 8
    requires forall k :: 0 <= k < 8 ==> BitOf(b, k) == if k == i % 8 then value else BitOf(bytes[i / 8], k)
    ensures Unpack(bytes[i / 8 := b]) == Unpack(bytes)[i := value]
  {
    var s, t := Unpack(bytes[i / 8 := b]), Unpack(bytes)[i := value];
    forall j | 0 <= j < |bytes| * 8
      ensures s[j] == t[j]
    {
      if j / 8 == i / 8 {
        assert BitOf(b, j % 8) == if j % 8 == i % 8 then value else BitOf(bytes[i / 8], j % 8);
      }
    }
  }

  lemma BitIs(bytes: seq<bv8>, k: nat, off: nat)
    requires k < |bytes|
    ensures off < 8 ==> Unpack(bytes)[8 * k + off] == BitOf(bytes[k], off)
  {
  }

  /** Skipping a full byte skips eight set bits. */
  lemma SkipByte(bytes: seq<bv8>, k: nat)
    requires k < |bytes|
    ensures bytes[k] == 0xff <==> forall i :: 8 * k <= i < 8 * k + 8 ==> Unpack(bytes)[i]
  {
    var s := Unpack(bytes);
    FullByte(bytes[k]);
    assert forall off :: 0 <= off < 8 ==> s[8 * k + off] == BitOf(bytes[k], off);
    assert forall i :: 8 * k <= i < 8 * k + 8 ==> 0 <= i - 8 * k < 8 && s[i] == BitOf(bytes[k], i - 8 * k);
  }

  /** The scan's counter: no run starts at or before a set bit that follows count clear ones. */
  lemma RunBroken(s: seq<bool>, cnt: nat, i: nat, count: nat)
    requires i < |s| && s[i] && count < cnt && count <= i
    requires forall m :: 0 <= m < i - count ==> !ClearRun(s, m, cnt)
    ensures forall m :: 0 <= m <= i ==> !ClearRun(s, m, cnt)
  {
    forall m | i - count <= m <= i
      ensures !ClearRun(s, m, cnt)
    {
      assert m + cnt > i;
    }
  }

  lemma NoRunBefore(s: seq<bool>, cnt: nat, i: nat)
    requires i <= |s| && cnt >= 1 && forall m :: 0 <= m < i ==> s[m]
    ensures forall m :: 0 <= m < i ==> !ClearRun(s, m, cnt)
  {
    forall m | 0 <= m < i
      ensures !ClearRun(s, m, cnt)
    {
      assert s[m];
    }
  }

  class Bitmap {
    const bits: array<bv8>

    constructor (bytes: nat)
      ensures bits.Length == bytes && fresh(bits)
    {
      bits := new bv8[bytes];
    }

    ghost function Contents(): (s: seq<bool>)
      reads bits
    {
      Unpack(bits[..])
    }

    /** bitmap_init */
    method Init()
      modifies bits
      ensures Contents() == Clear(bits.Length * 8)
    {
      for k := 0 to bits.Length
        invariant forall j :: 0 <= j < k ==> bits[j] == 0
      {
        bits[k] := 0;
      }
    }

    /** bitmap_scan_test */
    method Test(i: nat) returns (b: bool)
      requires i < |Contents()|
      ensures b == Contents()[i]
    {
      b := bits[i / 8] & Mask(i % 8) != 0;
    }

    /** bitmap_set */
    method Set(i: nat, value: bool)
      requires i < |Contents()|
      modifies bits
      ensures Contents() == old(Contents())[i := value]
    {
      ghost var bytes := bits[..];
      forall k | 0 <= k < 8
        ensures BitOf(WithBit(bytes[i / 8], i % 8, value), k) == if k == i % 8 then value else BitOf(bytes[i / 8], k)
      {
        SetBit(bytes[i / 8], i % 8, value, k);
      }
      UnpackByte(bytes, i, WithBit(bytes[i / 8], i % 8, value), value);
      bits[i / 8] := WithBit(bits[i / 8], i % 8, value);
      assert bits[..] == bytes[i / 8 := bits[i / 8]];
    }

    /** The first two loops of bitmap_scan: the first clear bit, found byte by byte. */
    method FirstClear() returns (r: Outcome<nat>)
      ensures r.Panic? <==> Full(Contents())
      ensures r.Panic? ==> r.fault == BitmapFull
      ensures r.Ok? ==> r.value < |Contents()| && !Contents()[r.value] && Full(Contents()[..r.value])
    {
      hide Unpack, BitOf;
      ghost var s := Contents();
      var k := 0;
      while k < bits.Length && bits[k] == 0xff
        invariant 0 <= k <= bits.Length
        invariant forall i :: 0 <= i < 8 * k ==> s[i]
      {
        SkipByte(bits[..], k);
        k := k + 1;
      }
      if k >= bits.Length {
        return Panic(BitmapFull);
      }
      SkipByte(bits[..], k);
      ghost var free :| 8 * k <= free < 8 * k + 8 && !s[free];
      assert !Contents()[free];
      var off := FirstInByte(k);
      assert forall m :: 0 <= m < 8 * k + off ==> s[m];
      return Ok(8 * k + off);
    }

    /** The second loop: the first clear bit of a byte that is not full. */
    method FirstInByte(k: nat) returns (off: nat)
      requires k < bits.Length && exists i :: 8 * k <= i < 8 * k + 8 && !Contents()[i]
      ensures off < 8 && !Contents()[8 * k + off] && forall i :: 8 * k <= i < 8 * k + off ==> Contents()[i]
    {
      hide Unpack, BitOf;
      ghost var s := Contents();
      ghost var free :| 8 * k <= free < 8 * k + 8 && !s[free];
      off := 0;
      BitIs(bits[..], k, 0);
      while BitOf(bits[k], off)
        invariant 0 <= off < 8 && 8 * k + off <= free && s[8 * k + off] == BitOf(bits[k], off)
        invariant forall i :: 8 * k <= i < 8 * k + off ==> s[i]
        decreases 8 - off
      {
        off := off + 1;
        BitIs(bits[..], k, off);
      }
    }

    /**
      bitmap_scan: exact first fit.  Asked for no bits, it answers the place after the first set
      bit that follows a clear one.
     */
    method Scan(cnt: nat) returns (r: Outcome<int>)
      ensures cnt >= 1 ==> r == ScanResult(Contents(), cnt)
      ensures cnt == 0 ==>
                match r case Panic(e) => e == BitmapFull && Full(Contents()) case Ok(k) => !Full(Contents()) && IsAfterSet(Contents(), k)
    {
      hide Unpack, FirstFit, BitOf, Mask;
      ghost var s := Contents();
      var first := FirstClear();
      if first.Panic? {
        return Panic(first.fault);
      }
      var i, end := first.value, bits.Length * 8;
      assert forall m :: 0 <= m < i ==> s[..i][m];
      if cnt >= 1 {
        NoRunBefore(s, cnt, i);
      }
      var count, start := 0, -1;
      while i < end
        invariant first.value <= i <= end
        invariant 0 <= count <= i && (cnt >= 1 ==> count < cnt)
        invariant forall j :: i - count <= j < i ==> !s[j]
        invariant cnt >= 1 ==> forall m :: 0 <= m < i - count ==> !ClearRun(s, m, cnt)
        invariant cnt == 0 ==> forall j :: first.value <= j < i ==> !s[j]
      {
        var taken := Test(i);
        if !taken {
          count := count + 1;
        } else {
          if cnt >= 1 {
            RunBroken(s, cnt, i, count);
          }
          count := 0;
        }
        if count == cnt {
          start := i - cnt + 1;
          break;
        }
        i := i + 1;
      }
      assert !s[first.value];
      if cnt >= 1 {
        FirstFitUnique(s, cnt, start, FirstFit(s, cnt));
      }
      return Ok(start);
    }
  }
}
