/** Arrays of bits packed into 64-bit elements (bitmap.c). */
module Bitmaps {
  import opened Sectors
  import opened FirstFit
  import opened Masks

  const BITMAP_ERROR := 0xFFFF_FFFF

  // elem_cnt and byte_cnt
  function ElemCnt(bitCnt: nat): nat {
    DivRoundUp(bitCnt, ELEM_BITS)
  }

  function ByteCnt(bitCnt: nat): nat {
    BYTES_PER_ELEM * ElemCnt(bitCnt)
  }

  // Bit I of an array of elements.
  predicate BitOf(ws: seq<Elem>, i: nat)
    requires i < ELEM_BITS * |ws|
  {
    HasBit(ws[i / ELEM_BITS], i)
  }

  /** The elements hold exactly BITS; the unused bits of the last one are clear. */
  ghost predicate Packs(ws: seq<Elem>, bits: seq<bool>) {
    && |ws| == ElemCnt(|bits|)
    && forall i :: 0 <= i < ELEM_BITS * |ws| ==> (BitOf(ws, i) <==> i < |bits| && bits[i])
  }

  /** BYTES is a stored copy of BITS: bit I is bit I % 8 of byte I / 8. */
  ghost predicate Stores(bytes: seq<Byte>, bits: seq<bool>) {
    && |bytes| == ByteCnt(|bits|)
    && forall i :: 0 <= i < |bits| ==> (ByteBit(bytes, i) <==> bits[i])
  }

  lemma StoredElems(bytes: seq<Byte>, bits: seq<bool>)
    requires |bytes| == ByteCnt(|bits|)
    ensures |ToElems(bytes)| == ElemCnt(|bits|)
    ensures forall i :: 0 <= i < |bits| ==> (BitOf(ToElems(bytes), i) <==> ByteBit(bytes, i))
  {
    hide HasBit, ByteBit, ToElems;
    forall i | 0 <= i < |bits|
      ensures BitOf(ToElems(bytes), i) <==> ByteBit(bytes, i)
    {
      MemoryAgrees(bytes, i);
    }
  }

  // Setting or clearing bit I of its element changes bit I only.
  lemma SetOneBit(ws: seq<Elem>, bits: seq<bool>, i: nat, v: bool)
    requires Packs(ws, bits) && i < |bits|
    ensures Packs(ws[i / ELEM_BITS := Put(ws[i / ELEM_BITS], BitMask(i), v)], bits[i := v])
  {
    hide HasBit, Put, BitMask;
    var e := i / ELEM_BITS;
    var ws' := ws[e := Put(ws[e], BitMask(i), v)];
    forall j | 0 <= j < ELEM_BITS * |ws|
      ensures BitOf(ws', j) <==> j < |bits| && bits[i := v][j]
    {
      assert BitOf(ws, j) <==> j < |bits| && bits[j];
      if j / ELEM_BITS == e {
        BitAfter(ws[e], i, v, j);
      }
    }
  }

  // What a bitmap holds is what its elements say.
  lemma PacksUnique(ws: seq<Elem>, a: seq<bool>, b: seq<bool>)
    requires Packs(ws, a) && Packs(ws, b) && |a| == |b|
    ensures a == b
  {
    forall i | 0 <= i < |a|
      ensures a[i] == b[i]
    {
      assert BitOf(ws, i) <==> a[i];
    }
  }

  // Masking the last element of stored bits gives a packed bitmap again.
  lemma MaskLast(ws: seq<Elem>, bits: seq<bool>)
    requires |bits| > 0 && |ws| == ElemCnt(|bits|)
    requires forall i :: 0 <= i < |bits| ==> BitOf(ws, i) == bits[i]
    ensures Packs(ws[|ws| - 1 := And(ws[|ws| - 1], LastMask(|bits|))], bits)
  {
    hide HasBit, And, LastMask;
    var e := |ws| - 1;
    var ws' := ws[e := And(ws[e], LastMask(|bits|))];
    forall j | 0 <= j < ELEM_BITS * |ws|
      ensures BitOf(ws', j) <==> j < |bits| && bits[j]
    {
      if j < |bits| {
        assert BitOf(ws, j) == bits[j];
      }
      if j / ELEM_BITS == e {
        BitMasked(ws[e], |bits|, j);
      }
    }
  }

  // ----- runs -----

  ghost predicate RunAt(bits: seq<bool>, i: nat, cnt: nat, v: bool) {
    i + cnt <= |bits| && forall j :: i <= j < i + cnt ==> bits[j] == v
  }

  // I starts the first run of CNT bits equal to V at or after START.
  ghost predicate FirstRun(bits: seq<bool>, start: nat, cnt: nat, v: bool, i: nat) {
    start <= i && RunAt(bits, i, cnt, v) && forall j :: start <= j < i ==> !RunAt(bits, j, cnt, v)
  }

  ghost predicate NoRun(bits: seq<bool>, start: nat, cnt: nat, v: bool) {
    forall j :: start <= j ==> !RunAt(bits, j, cnt, v)
  }

  function SetRange(bits: seq<bool>, start: nat, cnt: nat, v: bool): (r: seq<bool>)
    ensures |r| == |bits|
  {
    seq(|bits|, i requires 0 <= i < |bits| => if start <= i < start + cnt then v else bits[i])
  }

  // A run of one clear bit is the first free sector.
  lemma SingleRun(bits: seq<bool>, i: nat)
    ensures FirstRun(bits, 0, 1, false, i) <==> i == FirstFree(bits, 0) < |bits|
    ensures NoRun(bits, 0, 1, false) <==> FirstFree(bits, 0) == |bits|
    ensures i < |bits| ==> SetRange(bits, i, 1, true) == bits[i := true]
  {
    var f := FirstFree(bits, 0);
    assert f < |bits| ==> RunAt(bits, f, 1, false);
    forall j | 0 <= j < f
      ensures !RunAt(bits, j, 1, false)
    {
      assert bits[j];
    }
  }

  class Bitmap {
    const bitCnt: nat
    const elems: array<Elem>
    ghost var bits: seq<bool>

    ghost predicate Valid()
      reads this, elems
    {
      |bits| == bitCnt && Packs(elems[..], bits)
    }

    // bitmap_create
    constructor (cnt: nat)
      ensures Valid() && fresh(elems) && bitCnt == cnt
      ensures bits == seq(cnt, _ => false)
    {
      bitCnt := cnt;
      elems := new Elem[ElemCnt(cnt)](_ => 0);
      bits := seq(cnt, _ => false);
      new;
      forall j | 0 <= j < ELEM_BITS * |elems[..]|
        ensures !BitOf(elems[..], j)
      {
        NoBit(j);
      }
    }

    static lemma NoBit(j: nat)
      ensures !HasBit(0, j)
    {
      hide BitMask;
    }

    // bitmap_mark and bitmap_reset, chosen between by bitmap_set
    method Set(i: nat, value: bool)
      requires Valid() && i < bitCnt
      modifies this, elems
      ensures Valid() && bits == old(bits)[i := value]
    {
      SetOneBit(elems[..], bits, i, value);
      ghost var was := elems[..];
      var idx, mask := i / ELEM_BITS, BitMask(i);
      elems[idx] := Put(elems[idx], mask, value);
      assert elems[..] == was[idx := elems[idx]];
      bits := bits[i := value];
    }

    // bitmap_test
    method IsSet(i: nat) returns (r: bool)
      requires Valid() && i < bitCnt
      ensures r == bits[i]
    {
      assert BitOf(elems[..], i) == bits[i];
      r := HasBit(elems[i / ELEM_BITS], i);
    }

    // bitmap_set_multiple
    method SetMultiple(start: nat, cnt: nat, value: bool)
      requires Valid() && start + cnt <= bitCnt
      modifies this, elems
      ensures Valid() && bits == SetRange(old(bits), start, cnt, value)
    {
      for i := 0 to cnt
        invariant Valid() && bits == SetRange(old(bits), start, i, value)
      {
        Set(start + i, value);
      }
    }

    static lemma OneMore(bits: seq<bool>, start: nat, i: nat, value: bool)
      requires start + i < |bits|
      ensures multiset(bits[start..start + i + 1])[value]
           == multiset(bits[start..start + i])[value] + if bits[start + i] == value then 1 else 0
    {
      assert bits[start..start + i + 1] == bits[start..start + i] + [bits[start + i]];
    }

    // bitmap_count
    method Count(start: nat, cnt: nat, value: bool) returns (n: nat)
      requires Valid() && start + cnt <= bitCnt
      ensures n == multiset(bits[start..start + cnt])[value]
    {
      hide Packs, BitOf;
      n := 0;
      for i := 0 to cnt
        invariant n == multiset(bits[start..start + i])[value]
      {
        var b := IsSet(start + i);
        OneMore(bits, start, i, value);
        if b == value {
          n := n + 1;
        }
      }
    }

    // bitmap_contains
    method Contains(start: nat, cnt: nat, value: bool) returns (r: bool)
      requires Valid() && start + cnt <= bitCnt
      ensures r <==> !RunAt(bits, start, cnt, !value)
    {
      for i := 0 to cnt
        invariant RunAt(bits, start, i, !value)
      {
        var b := IsSet(start + i);
        if b == value {
          return true;
        }
      }
      return false;
    }

    // bitmap_scan
    method Scan(start: nat, cnt: nat, value: bool) returns (idx: nat)
      requires Valid() && start <= bitCnt < BITMAP_ERROR
      ensures idx == BITMAP_ERROR ==> NoRun(bits, start, cnt, value)
      ensures idx != BITMAP_ERROR ==> FirstRun(bits, start, cnt, value, idx)
    {
      if cnt <= bitCnt {
        var last := bitCnt - cnt;
        var i := start;
        while i <= last
          invariant start <= i
          invariant forall j :: start <= j < i ==> !RunAt(bits, j, cnt, value)
        {
          var c := Contains(i, cnt, !value);
          if !c {
            return i;
          }
          i := i + 1;
        }
      }
      return BITMAP_ERROR;
    }

    // bitmap_scan_and_flip
    method ScanAndFlip(start: nat, cnt: nat, value: bool) returns (idx: nat)
      requires Valid() && start <= bitCnt < BITMAP_ERROR
      modifies this, elems
      ensures Valid()
      ensures idx == BITMAP_ERROR ==> NoRun(old(bits), start, cnt, value) && bits == old(bits)
      ensures idx != BITMAP_ERROR ==>
                FirstRun(old(bits), start, cnt, value, idx) && bits == SetRange(old(bits), idx, cnt, !value)
    {
      idx := Scan(start, cnt, value);
      if idx != BITMAP_ERROR {
        SetMultiple(idx, cnt, !value);
      }
    }

    // The memory of the elements, as bitmap_write hands it to the file.
    method Image() returns (bytes: seq<Byte>)
      requires Valid()
      ensures Stores(bytes, bits)
    {
      hide HasBit, ByteBit, ToElems, ToBytes;
      bytes := ToBytes(elems[..]);
      ElemsRoundTrip(elems[..]);
      StoredElems(bytes, bits);
      assert forall i :: 0 <= i < |bits| ==> BitOf(elems[..], i) == bits[i];
    }

    // bitmap_read, with BYTES what the file delivered.
    method Load(bytes: seq<Byte>, ghost stored: seq<bool>)
      requires Valid() && |stored| == bitCnt && Stores(bytes, stored)
      modifies this, elems
      ensures Valid() && bits == stored
    {
      if bitCnt > 0 {
        var ws := ToElems(bytes);
        StoredElems(bytes, stored);
        forall e | 0 <= e < elems.Length {
          elems[e] := ws[e];
        }
        assert elems[..] == ws;
        MaskLast(ws, stored);
        var last := ElemCnt(bitCnt) - 1;
        elems[last] := And(elems[last], LastMask(bitCnt));
        assert elems[..] == ws[last := elems[last]];
      }
      bits := stored;
    }
  }
}
