/** Single-bit masks of 64-bit elements: what OR-ing in, AND-ing out and testing
    one bit does to every bit, and elements as eight little-endian bytes. */
module Masks {
  import opened Sectors

  const ELEM_BITS := 64
  const BYTES_PER_ELEM := 8

  type Elem = bv64

  function Twice(m: Elem): Elem {
    m << 1
  }

  // 1 << K, one place at a time.
  function OneShifted(k: nat): Elem {
    if k == 0 then 1 else Twice(OneShifted(k - 1))
  }

  // bit_mask
  function BitMask(i: nat): Elem {
    OneShifted(i % ELEM_BITS)
  }

  function Below(m: Elem): Elem {
    m - 1
  }

  // last_mask: the bits of the last element that a bitmap of BIT_CNT bits uses.
  function LastMask(bitCnt: nat): Elem {
    if bitCnt % ELEM_BITS == 0 then !0 else Below(BitMask(bitCnt))
  }

  function And(w: Elem, m: Elem): Elem {
    w & m
  }

  predicate Test(w: Elem, m: Elem) {
    And(w, m) != 0
  }

  // Bits under mask M set or cleared.
  function Put(w: Elem, m: Elem, v: bool): Elem {
    if v then w | m else w & !m
  }

  // Bit I (counted across elements) of the element W that contains it.
  predicate HasBit(w: Elem, i: nat) {
    Test(w, BitMask(i))
  }

  ghost predicate Apart(m: Elem, n: Elem) {
    m & n == 0
  }

  ghost predicate Within(n: Elem, m: Elem) {
    And(m, n) == n
  }

  // ----- masks -----

  lemma ApartUp(m: Elem, n: Elem)
    requires Apart(m, n)
    ensures Apart(Twice(m), Twice(n))
  {}

  lemma OddBelow(m: Elem)
    ensures Below(Twice(m)) == Twice(Below(m)) | 1
  {}

  lemma OddApart(m: Elem, n: Elem, x: Elem)
    requires Apart(m, n) && x == Twice(m) | 1
    ensures Apart(x, Twice(n))
  {}

  lemma BelowUp(m: Elem, n: Elem)
    requires Apart(Below(m), n)
    ensures Apart(Below(Twice(m)), Twice(n))
  {
    OddBelow(m);
    OddApart(Below(m), n, Below(Twice(m)));
  }

  lemma OddWithin(m: Elem, n: Elem, x: Elem)
    requires Within(n, m) && x == Twice(m) | 1
    ensures Within(Twice(n), x)
  {}

  lemma WithinUp(m: Elem, n: Elem)
    requires Within(n, Below(m))
    ensures Within(Twice(n), Below(Twice(m)))
  {
    OddBelow(m);
    OddWithin(Below(m), n, Below(Twice(m)));
  }

  lemma FirstMask(n: Elem)
    ensures Apart(1, Twice(n)) && Within(1, Below(Twice(n))) && Apart(Below(1), n)
  {}

  lemma {:induction false} MasksApart(i: nat, j: nat)
    requires i < j
    ensures Apart(OneShifted(i), OneShifted(j))
  {
    hide Apart, Twice;
    if i == 0 {
      FirstMask(OneShifted(j - 1));
    } else {
      MasksApart(i - 1, j - 1);
      ApartUp(OneShifted(i - 1), OneShifted(j - 1));
    }
  }

  lemma {:induction false} BelowApart(i: nat, j: nat)
    requires i <= j
    ensures Apart(Below(OneShifted(i)), OneShifted(j))
  {
    hide Apart, Below, Twice;
    if i == 0 {
      FirstMask(OneShifted(j));
    } else {
      BelowApart(i - 1, j - 1);
      BelowUp(OneShifted(i - 1), OneShifted(j - 1));
    }
  }

  lemma {:induction false} BelowWithin(i: nat, j: nat)
    requires i < j
    ensures Within(OneShifted(i), Below(OneShifted(j)))
  {
    hide Within, Below, Twice;
    if i == 0 {
      FirstMask(OneShifted(j - 1));
    } else {
      BelowWithin(i - 1, j - 1);
      WithinUp(OneShifted(j - 1), OneShifted(i - 1));
    }
  }

  // No bit is shifted out before place 64.
  lemma {:induction false} ZeroStays(k: nat, j: nat)
    requires k <= j && OneShifted(k) == 0
    ensures OneShifted(j) == 0
    decreases j
  {
    if k < j {
      ZeroStays(k, j - 1);
    }
  }

  lemma FourPlaces(k: nat, m: Elem)
    requires OneShifted(k) == m
    ensures OneShifted(k + 4) == m << 4
  {
    var m1 := Twice(m);
    assert OneShifted(k + 1) == m1;
    var m2 := Twice(m1);
    assert OneShifted(k + 2) == m2;
    var m3 := Twice(m2);
    assert OneShifted(k + 3) == m3;
    assert OneShifted(k + 4) == Twice(m3);
  }

  lemma EightPlaces(k: nat, m: Elem)
    requires OneShifted(k) == m
    ensures OneShifted(k + 8) == m << 8
  {
    FourPlaces(k, m);
    FourPlaces(k + 4, m << 4);
  }

  lemma MaskNonZero(k: nat)
    requires k < ELEM_BITS
    ensures OneShifted(k) != 0
  {
    EightPlaces(0, 1);
    EightPlaces(8, 0x100);
    EightPlaces(16, 0x1_0000);
    EightPlaces(24, 0x100_0000);
    EightPlaces(32, 0x1_0000_0000);
    EightPlaces(40, 0x100_0000_0000);
    EightPlaces(48, 0x1_0000_0000_0000);
    FourPlaces(56, 0x100_0000_0000_0000);
    LastPlaces(0x1000_0000_0000_0000);
    if OneShifted(k) == 0 {
      ZeroStays(k, 63);
    }
  }

  lemma LastPlaces(m: Elem)
    requires OneShifted(60) == m == 0x1000_0000_0000_0000
    ensures OneShifted(63) == 0x8000_0000_0000_0000
  {
    assert OneShifted(61) == Twice(m);
    assert OneShifted(62) == Twice(Twice(m));
    assert OneShifted(63) == Twice(Twice(Twice(m)));
  }

  // ----- one bit of an element -----

  lemma PutOwn(w: Elem, m: Elem, v: bool)
    requires m != 0
    ensures Test(Put(w, m, v), m) == v
  {}

  lemma OrOther(w: Elem, m: Elem, n: Elem)
    requires Apart(m, n)
    ensures Test(w | m, n) == Test(w, n)
  {}

  lemma AndOther(w: Elem, m: Elem, n: Elem)
    requires Apart(m, n)
    ensures Test(w & !m, n) == Test(w, n)
  {}

  lemma PutOther(w: Elem, m: Elem, n: Elem, v: bool)
    requires Apart(m, n)
    ensures Test(Put(w, m, v), n) == Test(w, n)
  {
    hide Test, Apart;
    if v {
      OrOther(w, m, n);
    } else {
      AndOther(w, m, n);
    }
  }

  lemma ApartSwaps(m: Elem, n: Elem)
    requires Apart(m, n)
    ensures Apart(n, m)
  {}

  /** Writing bit I of an element leaves its 63 other bits alone. */
  lemma BitAfter(w: Elem, i: nat, v: bool, j: nat)
    ensures HasBit(Put(w, BitMask(i), v), j) == if i % ELEM_BITS == j % ELEM_BITS then v else HasBit(w, j)
  {
    hide Put, Test, Apart, OneShifted;
    if i % ELEM_BITS == j % ELEM_BITS {
      MaskNonZero(i % ELEM_BITS);
      PutOwn(w, BitMask(i), v);
    } else {
      if i % ELEM_BITS < j % ELEM_BITS {
        MasksApart(i % ELEM_BITS, j % ELEM_BITS);
      } else {
        MasksApart(j % ELEM_BITS, i % ELEM_BITS);
        ApartSwaps(BitMask(j), BitMask(i));
      }
      PutOther(w, BitMask(i), BitMask(j), v);
    }
  }

  lemma AndAssociates(w: Elem, m: Elem, n: Elem)
    ensures And(And(w, m), n) == And(w, And(m, n))
  {}

  lemma AndWithin(w: Elem, m: Elem, n: Elem)
    requires Within(n, m)
    ensures Test(And(w, m), n) == Test(w, n)
  {
    hide And;
    AndAssociates(w, m, n);
  }

  lemma AndApart(w: Elem, m: Elem, n: Elem)
    requires Apart(m, n)
    ensures !Test(And(w, m), n)
  {}

  lemma AllOnes(w: Elem)
    ensures And(w, !0) == w
  {}

  /** Masking the last element keeps its used bits and clears the others. */
  lemma BitMasked(w: Elem, bitCnt: nat, j: nat)
    ensures HasBit(And(w, LastMask(bitCnt)), j)
         == (HasBit(w, j) && (bitCnt % ELEM_BITS == 0 || j % ELEM_BITS < bitCnt % ELEM_BITS))
  {
    var k, n := j % ELEM_BITS, bitCnt % ELEM_BITS;
    if n == 0 {
      AllOnes(w);
    } else {
      MaskedBelow(w, n, k);
    }
  }

  lemma MaskedBelow(w: Elem, n: nat, k: nat)
    ensures Test(And(w, Below(OneShifted(n))), OneShifted(k)) == (Test(w, OneShifted(k)) && k < n)
  {
    hide Test, And, Apart, Within, Below, OneShifted;
    if k < n {
      BelowWithin(k, n);
      AndWithin(w, Below(OneShifted(n)), OneShifted(k));
    } else {
      BelowApart(n, k);
      AndApart(w, Below(OneShifted(n)), OneShifted(k));
    }
  }

  // ----- elements in memory -----

  // An element's lowest eight bits, and a byte as an element.
  function Low(w: Elem): bv8 {
    (w & 0xFF) as bv8
  }

  function Wide(b: bv8): Elem {
    b as Elem
  }

  // The bits from place 8 * K on.
  function Drop(w: Elem, k: nat): Elem
    requires k < BYTES_PER_ELEM
  {
    if k == 0 then w else if k == 1 then w >> 8 else if k == 2 then w >> 16 else if k == 3 then w >> 24
    else if k == 4 then w >> 32 else if k == 5 then w >> 40 else if k == 6 then w >> 48 else w >> 56
  }

  function Join(a: bv8, b: bv8, c: bv8, d: bv8, e: bv8, f: bv8, g: bv8, h: bv8): Elem {
    Wide(a) | (Wide(b) << 8) | (Wide(c) << 16) | (Wide(d) << 24) | (Wide(e) << 32) | (Wide(f) << 40) | (Wide(g) << 48) | (Wide(h) << 56)
  }

  function ToByte(b: bv8): Byte {
    b as nat
  }

  // The value of bit R of a byte.
  function Place(r: nat): nat
    requires r < 8
  {
    if r == 0 then 1 else if r == 1 then 2 else if r == 2 then 4 else if r == 3 then 8
    else if r == 4 then 16 else if r == 5 then 32 else if r == 6 then 64 else 128
  }

  predicate ByteHas(n: Byte, r: nat)
    requires r < 8
  {
    n / Place(r) % 2 == 1
  }

  function SmallMask(r: nat): bv8
    requires r < 8
  {
    if r == 0 then 1 else if r == 1 then 2 else if r == 2 then 4 else if r == 3 then 8
    else if r == 4 then 16 else if r == 5 then 32 else if r == 6 then 64 else 128
  }

  predicate Meets(b: bv8, m: bv8) {
    b & m != 0
  }

  predicate SmallTest(b: bv8, r: nat)
    requires r < 8
  {
    Meets(b, SmallMask(r))
  }

  lemma LowBit(b: bv8)
    ensures b & 1 != 0 <==> ToByte(b) % 2 == 1
  {}

  function HalfByte(b: bv8): bv8 {
    b >> 1
  }

  lemma HalfOf(b: bv8)
    ensures ToByte(HalfByte(b)) == ToByte(b) / 2
  {}

  lemma HalfTest(b: bv8, r: nat)
    requires 0 < r < 8
    ensures SmallTest(b, r) <==> SmallTest(HalfByte(b), r - 1)
  {}

  lemma HalfPlace(n: Byte, r: nat)
    requires 0 < r < 8
    ensures ByteHas(n, r) <==> ByteHas(n / 2, r - 1)
  {}

  lemma {:induction false} SmallBit(b: bv8, r: nat)
    requires r < 8
    ensures SmallTest(b, r) <==> ByteHas(ToByte(b), r)
    decreases r
  {
    if r == 0 {
      LowBit(b);
    } else {
      hide SmallTest, ByteHas, HalfByte, ToByte;
      SmallBit(HalfByte(b), r - 1);
      HalfTest(b, r);
      HalfOf(b);
      HalfPlace(ToByte(b), r);
    }
  }

  // Eight bits as a byte.
  function Bit(c: bool, m: bv8): bv8 {
    if c then m else 0
  }

  function Gather(a: bool, b: bool, c: bool, d: bool, e: bool, f: bool, g: bool, h: bool): bv8 {
    Bit(a, 1) | Bit(b, 2) | Bit(c, 4) | Bit(d, 8) | Bit(e, 16) | Bit(f, 32) | Bit(g, 64) | Bit(h, 128)
  }

  function OfByte(n: Byte): bv8 {
    Gather(ByteHas(n, 0), ByteHas(n, 1), ByteHas(n, 2), ByteHas(n, 3), ByteHas(n, 4), ByteHas(n, 5), ByteHas(n, 6), ByteHas(n, 7))
  }

  lemma GatherBit(a: bool, b: bool, c: bool, d: bool, e: bool, f: bool, g: bool, h: bool)
    ensures var x := Gather(a, b, c, d, e, f, g, h);
            && Meets(x, 1) == a && Meets(x, 2) == b && Meets(x, 4) == c && Meets(x, 8) == d
            && Meets(x, 16) == e && Meets(x, 32) == f && Meets(x, 64) == g && Meets(x, 128) == h
  {}

  lemma OfByteBit(n: Byte, r: nat)
    requires r < 8
    ensures SmallTest(OfByte(n), r) <==> ByteHas(n, r)
  {
    hide Gather, Meets, ByteHas;
    GatherBit(ByteHas(n, 0), ByteHas(n, 1), ByteHas(n, 2), ByteHas(n, 3), ByteHas(n, 4), ByteHas(n, 5), ByteHas(n, 6), ByteHas(n, 7));
  }

  lemma GatherAll(x: bv8)
    ensures Gather(Meets(x, 1), Meets(x, 2), Meets(x, 4), Meets(x, 8), Meets(x, 16), Meets(x, 32), Meets(x, 64), Meets(x, 128)) == x
  {}

  lemma ByteTrip(b: bv8)
    ensures OfByte(ToByte(b)) == b
  {
    hide Gather, Meets, ByteHas, ToByte;
    SmallBit(b, 0);
    SmallBit(b, 1);
    SmallBit(b, 2);
    SmallBit(b, 3);
    SmallBit(b, 4);
    SmallBit(b, 5);
    SmallBit(b, 6);
    SmallBit(b, 7);
    GatherAll(b);
  }

  lemma JoinSplit(w: Elem)
    ensures Join(Low(w), Low(Drop(w, 1)), Low(Drop(w, 2)), Low(Drop(w, 3)),
                 Low(Drop(w, 4)), Low(Drop(w, 5)), Low(Drop(w, 6)), Low(Drop(w, 7))) == w
  {}

  lemma SplitJoin(a: bv8, b: bv8, c: bv8, d: bv8, e: bv8, f: bv8, g: bv8, h: bv8)
    ensures var w := Join(a, b, c, d, e, f, g, h);
            && Low(w) == a && Low(Drop(w, 1)) == b && Low(Drop(w, 2)) == c && Low(Drop(w, 3)) == d
            && Low(Drop(w, 4)) == e && Low(Drop(w, 5)) == f && Low(Drop(w, 6)) == g && Low(Drop(w, 7)) == h
  {}

  function ElemBytes(w: Elem): (s: seq<Byte>)
    ensures |s| == BYTES_PER_ELEM
  {
    seq(BYTES_PER_ELEM, k requires 0 <= k < BYTES_PER_ELEM => ToByte(Low(Drop(w, k))))
  }

  function BytesElem(s: seq<Byte>): Elem
    requires |s| == BYTES_PER_ELEM
  {
    Join(OfByte(s[0]), OfByte(s[1]), OfByte(s[2]), OfByte(s[3]), OfByte(s[4]), OfByte(s[5]), OfByte(s[6]), OfByte(s[7]))
  }

  lemma ElemRoundTrip(w: Elem)
    ensures BytesElem(ElemBytes(w)) == w
  {
    hide Low, Join, ToByte, OfByte;
    forall k | 0 <= k < BYTES_PER_ELEM
      ensures OfByte(ElemBytes(w)[k]) == Low(Drop(w, k))
    {
      ByteTrip(Low(Drop(w, k)));
    }
    JoinSplit(w);
    assert Drop(w, 0) == w;
  }

  // ----- where a bit is among the bytes -----

  // Mask K of an element is mask K % 8 of its byte K / 8.
  lemma ByteOfMask(w: Elem, k: nat)
    requires k < ELEM_BITS
    ensures Test(w, OneShifted(k)) <==> SmallTest(Low(Drop(w, k / 8)), k % 8)
  {
    hide Test, SmallTest, Low, Drop;
    MaskPlace(k / 8, k % 8);
    WideMask(w, k / 8, k % 8);
  }

  // A mask of one byte moved to byte Q.
  function Raised(m: bv8, q: nat): Elem
    requires q < 8
  {
    if q == 0 then Wide(m) else if q == 1 then Wide(m) << 8 else if q == 2 then Wide(m) << 16 else if q == 3 then Wide(m) << 24
    else if q == 4 then Wide(m) << 32 else if q == 5 then Wide(m) << 40 else if q == 6 then Wide(m) << 48 else Wide(m) << 56
  }

  function WideSmall(q: nat, r: nat): Elem
    requires q < 8 && r < 8
  {
    Raised(SmallMask(r), q)
  }

  lemma RaisedMeets(w: Elem, m: bv8, q: nat)
    requires q < 8
    ensures Test(w, Raised(m, q)) <==> Meets(Low(Drop(w, q)), m)
  {
    if q == 0 { Meets0(w, m); }
    else if q == 1 { Meets1(w, m); }
    else if q == 2 { Meets2(w, m); }
    else if q == 3 { Meets3(w, m); }
    else if q == 4 { Meets4(w, m); }
    else if q == 5 { Meets5(w, m); }
    else if q == 6 { Meets6(w, m); }
    else { Meets7(w, m); }
    hide Test, Meets, Low, Wide;
  }

  lemma Meets0(w: Elem, m: bv8)
    ensures Test(w, Wide(m)) <==> Meets(Low(w), m)
  {}

  lemma Meets1(w: Elem, m: bv8)
    ensures Test(w, Wide(m) << 8) <==> Meets(Low(w >> 8), m)
  {}

  lemma Meets2(w: Elem, m: bv8)
    ensures Test(w, Wide(m) << 16) <==> Meets(Low(w >> 16), m)
  {}

  lemma Meets3(w: Elem, m: bv8)
    ensures Test(w, Wide(m) << 24) <==> Meets(Low(w >> 24), m)
  {}

  lemma Meets4(w: Elem, m: bv8)
    ensures Test(w, Wide(m) << 32) <==> Meets(Low(w >> 32), m)
  {}

  lemma Meets5(w: Elem, m: bv8)
    ensures Test(w, Wide(m) << 40) <==> Meets(Low(w >> 40), m)
  {}

  lemma Meets6(w: Elem, m: bv8)
    ensures Test(w, Wide(m) << 48) <==> Meets(Low(w >> 48), m)
  {}

  lemma Meets7(w: Elem, m: bv8)
    ensures Test(w, Wide(m) << 56) <==> Meets(Low(w >> 56), m)
  {}

  lemma WideMask(w: Elem, q: nat, r: nat)
    requires q < 8 && r < 8
    ensures Test(w, WideSmall(q, r)) <==> SmallTest(Low(Drop(w, q)), r)
  {
    hide Test, Raised, Meets, Low, Drop, SmallMask;
    RaisedMeets(w, SmallMask(r), q);
  }

  lemma {:induction false} MaskPlace(q: nat, r: nat)
    requires q < 8 && r < 8
    ensures OneShifted(8 * q + r) == WideSmall(q, r)
    decreases q
  {
    hide WideSmall, OneShifted, ByteUp;
    if q > 0 {
      MaskPlace(q - 1, r);
      EightUp(8 * q - 8 + r, WideSmall(q - 1, r));
      NextByte(q - 1, r);
    } else {
      FirstByte(r);
    }
  }

  function ByteUp(w: Elem): Elem {
    w << 8
  }

  lemma EightUp(k: nat, m: Elem)
    requires OneShifted(k) == m
    ensures OneShifted(k + 8) == ByteUp(m)
  {
    hide OneShifted;
    EightPlaces(k, m);
  }

  lemma NextByte(q: nat, r: nat)
    requires q < 7 && r < 8
    ensures WideSmall(q + 1, r) == ByteUp(WideSmall(q, r))
  {}

  lemma FirstByte(k: nat)
    requires k < 8
    ensures OneShifted(k) == WideSmall(0, k)
  {
    assert OneShifted(1) == Twice(1);
    assert OneShifted(2) == Twice(Twice(1));
    assert OneShifted(3) == Twice(Twice(Twice(1)));
    FourPlaces(0, 1);
    FourPlaces(1, 2);
    FourPlaces(2, 4);
    FourPlaces(3, 8);
  }

  // Bit K of an element in memory.
  lemma MemoryBit(s: seq<Byte>, k: nat)
    requires |s| == BYTES_PER_ELEM && k < ELEM_BITS
    ensures Test(BytesElem(s), OneShifted(k)) <==> ByteHas(s[k / 8], k % 8)
  {
    hide Test, SmallTest, OneShifted, Low, Drop, Join, ByteHas, ToByte, OfByte;
    ByteOfMask(BytesElem(s), k);
    SplitJoin(OfByte(s[0]), OfByte(s[1]), OfByte(s[2]), OfByte(s[3]), OfByte(s[4]), OfByte(s[5]), OfByte(s[6]), OfByte(s[7]));
    DropNothing(BytesElem(s));
    OfByteBit(s[k / 8], k % 8);
  }

  lemma DropNothing(w: Elem)
    ensures Drop(w, 0) == w
  {}

  // An array of elements as the bytes of its memory, and back.
  function ToBytes(ws: seq<Elem>): (s: seq<Byte>)
    ensures |s| == BYTES_PER_ELEM * |ws|
  {
    seq(BYTES_PER_ELEM * |ws|, j requires 0 <= j < BYTES_PER_ELEM * |ws| => ElemBytes(ws[j / 8])[j % 8])
  }

  function ToElems(s: seq<Byte>): (ws: seq<Elem>)
    ensures |ws| == |s| / BYTES_PER_ELEM
  {
    seq(|s| / BYTES_PER_ELEM, e requires 0 <= e < |s| / BYTES_PER_ELEM => BytesElem(s[8 * e..8 * e + 8]))
  }

  lemma ElemsRoundTrip(ws: seq<Elem>)
    ensures ToElems(ToBytes(ws)) == ws
  {
    hide ElemBytes, BytesElem;
    var s := ToBytes(ws);
    forall e | 0 <= e < |ws|
      ensures ToElems(s)[e] == ws[e]
    {
      assert s[8 * e..8 * e + 8] == ElemBytes(ws[e]);
      ElemRoundTrip(ws[e]);
    }
  }

  // Bit I of bytes in memory.
  predicate ByteBit(s: seq<Byte>, i: nat)
    requires i < 8 * |s|
  {
    ByteHas(s[i / 8], i % 8)
  }

  /** Bit I of an array of elements is bit I % 8 of byte I / 8 of its memory. */
  lemma MemoryAgrees(s: seq<Byte>, i: nat)
    requires |s| % BYTES_PER_ELEM == 0 && i < 8 * |s|
    ensures i / ELEM_BITS < |ToElems(s)| && (HasBit(ToElems(s)[i / ELEM_BITS], i) <==> ByteBit(s, i))
  {
    hide Test, OneShifted, BytesElem, ByteHas;
    var e, k := i / ELEM_BITS, i % ELEM_BITS;
    assert 8 * e + 8 <= |s|;
    MemoryBit(s[8 * e..8 * e + 8], k);
    assert s[8 * e..8 * e + 8][k / 8] == s[i / 8] && k % 8 == i % 8;
  }
}
