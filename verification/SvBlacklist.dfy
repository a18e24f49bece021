// Satellite blacklists (gps/gnss/GnssAdapter.cpp): one 64-bit mask per constellation, or a list of
// satellite ids; 0 stands for every satellite of the constellation.
//
// A mask is a number below 2^64.  The source shifts the int constant 1, which is defined for bits
// 0 to 30 only; what a compiler makes of a wider shift is a parameter here.
module SvMasks {
  const ALL_BITS: nat := 0xffff_ffff_ffff_ffff

  // Numbers below this use bits 0 to 30 only
  const BIT_31: nat := 0x8000_0000

  // ----- Bits of a number -----

  predicate Bit(m: nat, i: nat) {
    if i == 0 then m % 2 == 1 else Bit(m / 2, i - 1)
  }

  function Or(a: nat, b: nat): nat {
    if a == 0 then b else if b == 0 then a
    else 2 * Or(a / 2, b / 2) + (if a % 2 == 1 || b % 2 == 1 then 1 else 0)
  }

  function Pow2(n: nat): (p: nat)
    ensures p > 0
  {
    if n == 0 then 1 else 2 * Pow2(n - 1)
  }

  lemma {:induction false} ZeroHasNoBits(i: nat)
    ensures !Bit(0, i)
  {
    if i > 0 { ZeroHasNoBits(i - 1); }
  }

  lemma {:induction false} OrBits(a: nat, b: nat, i: nat)
    ensures Bit(Or(a, b), i) <==> Bit(a, i) || Bit(b, i)
  {
    if a == 0 || b == 0 {
      ZeroHasNoBits(i);
    } else if i > 0 {
      OrBits(a / 2, b / 2, i - 1);
    }
  }

  lemma {:induction false} Pow2Bits(n: nat, i: nat)
    ensures Bit(Pow2(n), i) <==> i == n
  {
    if n == 0 && i > 0 {
      ZeroHasNoBits(i - 1);
    } else if i > 0 {
      Pow2Bits(n - 1, i - 1);
    }
  }

  // A number below 2^k has no bit at k or above
  lemma {:induction false} NoHighBits(m: nat, k: nat, i: nat)
    requires m < Pow2(k) && k <= i
    ensures !Bit(m, i)
  {
    if k == 0 { ZeroHasNoBits(i); } else { NoHighBits(m / 2, k - 1, i - 1); }
  }

  // Every bit below k is set in 2^k - 1
  lemma {:induction false} AllLowBits(k: nat, i: nat)
    requires i < k
    ensures Bit(Pow2(k) - 1, i)
  {
    if i > 0 {
      assert (Pow2(k) - 1) / 2 == Pow2(k - 1) - 1;
      AllLowBits(k - 1, i - 1);
    }
  }

  lemma {:induction false} OrBound(a: nat, b: nat, k: nat)
    requires a < Pow2(k) && b < Pow2(k)
    ensures Or(a, b) < Pow2(k)
  {
    if a != 0 && b != 0 { OrBound(a / 2, b / 2, k - 1); }
  }

  lemma {:induction false} Pow2Grows(a: nat, b: nat)
    requires a < b
    ensures Pow2(a) < Pow2(b)
    decreases b
  {
    if a < b - 1 { Pow2Grows(a, b - 1); }
  }

  // Numbers below 2^k with the same bits are equal
  lemma {:induction false} SameBits(a: nat, b: nat, k: nat)
    requires a < Pow2(k) && b < Pow2(k) && forall i :: 0 <= i < k ==> (Bit(a, i) <==> Bit(b, i))
    ensures a == b
  {
    if k > 0 {
      assert Bit(a, 0) <==> Bit(b, 0);
      forall i | 0 <= i < k - 1
        ensures Bit(a / 2, i) <==> Bit(b / 2, i)
      {
        assert Bit(a, i + 1) <==> Bit(b, i + 1);
      }
      SameBits(a / 2, b / 2, k - 1);
    }
  }

  lemma {:induction false} Pow2Sum(a: nat, b: nat)
    ensures Pow2(a + b) == Pow2(a) * Pow2(b)
  {
    if a > 0 { Pow2Sum(a - 1, b); }
  }

  lemma AllBitsIsPow2()
    ensures Pow2(64) == ALL_BITS + 1
  {
    assert Pow2(1) == 2 && Pow2(2) == 4;
    Pow2Sum(2, 2);
    Pow2Sum(4, 4);
    Pow2Sum(8, 8);
    Pow2Sum(16, 16);
    Pow2Sum(32, 32);
  }

  lemma Bit31IsPow2()
    ensures Pow2(31) == BIT_31
  {
    assert Pow2(3) == 8;
    Pow2Sum(4, 3);
    Pow2Sum(8, 7);
    Pow2Sum(16, 15);
  }
}

module SvBlacklist {
  import opened SvMasks

  datatype SvType = Unknown | Gps | Sbas | Glonass | Qzss | Beidou | Galileo | Navic

  datatype Source = Source(constellation: SvType, svId: nat)

  datatype Masks = Masks(glo: nat, bds: nat, qzss: nat, gal: nat)

  const NO_MASKS := Masks(0, 0, 0, 0)
  const GLO_INITIAL_SV_ID := 65
  const BDS_INITIAL_SV_ID := 201
  const QZSS_INITIAL_SV_ID := 193
  const GAL_INITIAL_SV_ID := 301

  // The constellations that have a mask
  predicate Masked(c: SvType) {
    c == Glonass || c == Beidou || c == Qzss || c == Galileo
  }

  function InitialSvId(c: SvType): nat
    requires Masked(c)
  {
    match c
    case Glonass => GLO_INITIAL_SV_ID
    case Beidou => BDS_INITIAL_SV_ID
    case Qzss => QZSS_INITIAL_SV_ID
    case Galileo => GAL_INITIAL_SV_ID
  }

  function MaskOf(m: Masks, c: SvType): nat
    requires Masked(c)
  {
    match c
    case Glonass => m.glo
    case Beidou => m.bds
    case Qzss => m.qzss
    case Galileo => m.gal
  }

  function WithMask(m: Masks, c: SvType, mask: nat): Masks
    requires Masked(c)
  {
    match c
    case Glonass => m.(glo := mask)
    case Beidou => m.(bds := mask)
    case Qzss => m.(qzss := mask)
    case Galileo => m.(gal := mask)
  }

  // ----- From a list to masks -----

  // What the compiler makes of 1 << n for an int 1 and n from 31 on, widened to 64 bits
  type WideShift = nat -> nat

  function Shift(n: nat, wide: WideShift): nat {
    if n <= 30 then Pow2(n) else wide(n) % (ALL_BITS + 1)
  }

  predicate InRange(s: Source)
    requires Masked(s.constellation)
  {
    InitialSvId(s.constellation) <= s.svId < InitialSvId(s.constellation) + 64
  }

  // The bits one list entry adds to the mask of constellation c
  function Contribution(s: Source, c: SvType, wide: WideShift): nat
    requires Masked(c)
  {
    if s.constellation != c then 0
    else if s.svId == 0 then ALL_BITS
    else if !InRange(s) then 0
    else Shift(s.svId - InitialSvId(c), wide)
  }

  // One turn of the list loop
  function AddSource(m: Masks, s: Source, wide: WideShift): Masks {
    if !Masked(s.constellation) then m
    else if s.svId == 0 then WithMask(m, s.constellation, ALL_BITS)
    else if !InRange(s) then m
    else WithMask(m, s.constellation,
                  Or(MaskOf(m, s.constellation), Shift(s.svId - InitialSvId(s.constellation), wide)))
  }

  function AddSources(m: Masks, list: seq<Source>, wide: WideShift): Masks
    decreases |list|
  {
    if list == [] then m else AddSources(AddSource(m, list[0], wide), list[1..], wide)
  }

  method ConvertToGnssSvIdConfig(list: seq<Source>, config: Masks, wide: WideShift) returns (r: Masks, valid: bool)
    ensures r == if list == [] then NO_MASKS else AddSources(config, list, wide)
    ensures valid == (list == [] || r != NO_MASKS)
  {
    if list == [] {
      return NO_MASKS, true;
    }
    r := config;
    ghost var rest := list;
    for k := 0 to |list|
      invariant rest == list[k..] && AddSources(r, rest, wide) == AddSources(config, list, wide)
    {
      var s := list[k];
      if Masked(s.constellation) {
        if s.svId == 0 {
          r := WithMask(r, s.constellation, ALL_BITS);
        } else if InRange(s) {
          r := WithMask(r, s.constellation,
                        Or(MaskOf(r, s.constellation), Shift(s.svId - InitialSvId(s.constellation), wide)));
        }
      }
      rest := rest[1..];
    }
    valid := r.glo != 0 || r.bds != 0 || r.gal != 0 || r.qzss != 0;
  }

  // ----- From masks to a list -----

  // The entries of the set bits of mask, the lowest being satellite id
  function BitSources(mask: nat, id: nat, c: SvType): seq<Source> {
    if mask == 0 then []
    else (if mask % 2 == 1 then [Source(c, id)] else []) + BitSources(mask / 2, id + 1, c)
  }

  function MaskSources(mask: nat, c: SvType): seq<Source>
    requires Masked(c)
  {
    if mask == ALL_BITS then [Source(c, 0)] else BitSources(mask, InitialSvId(c), c)
  }

  function ListOf(m: Masks): seq<Source> {
    MaskSources(m.bds, Beidou) + MaskSources(m.gal, Galileo) + MaskSources(m.glo, Glonass) + MaskSources(m.qzss, Qzss)
  }

  lemma NextBit(r: seq<Source>, mask: nat, id: nat, c: SvType)
    requires mask > 0
    ensures r + BitSources(mask, id, c) ==
            (if mask % 2 == 1 then r + [Source(c, id)] else r) + BitSources(mask / 2, id + 1, c)
  {
    var rest := BitSources(mask / 2, id + 1, c);
    assert BitSources(mask, id, c) == (if mask % 2 == 1 then [Source(c, id)] + rest else [] + rest);
    assert r + ([Source(c, id)] + rest) == (r + [Source(c, id)]) + rest;
  }

  method ConvertGnssSvIdMaskToList(svIdMask: nat, svIds: seq<Source>, c: SvType) returns (r: seq<Source>)
    requires Masked(c)
    ensures r == svIds + MaskSources(svIdMask, c)
  {
    if svIdMask == ALL_BITS {
      return svIds + [Source(c, 0)];
    }
    r := svIds;
    var mask, bitNumber := svIdMask, 0;
    var id := InitialSvId(c);
    while mask > 0
      invariant r + BitSources(mask, id + bitNumber, c) == svIds + BitSources(svIdMask, id, c)
      decreases mask
    {
      NextBit(r, mask, id + bitNumber, c);
      if mask % 2 == 1 {
        r := r + [Source(c, id + bitNumber)];
      }
      bitNumber := bitNumber + 1;
      mask := mask / 2;
    }
  }

  lemma ListOfAppended(svIds: seq<Source>, m: Masks)
    ensures svIds + MaskSources(m.bds, Beidou) + MaskSources(m.gal, Galileo) + MaskSources(m.glo, Glonass)
            + MaskSources(m.qzss, Qzss) == svIds + ListOf(m)
  {
  }

  method ConvertFromGnssSvIdConfig(m: Masks, svIds: seq<Source>) returns (list: seq<Source>)
    ensures list == svIds + ListOf(m)
  {
    list := svIds;
    if m.bds != 0 {
      list := ConvertGnssSvIdMaskToList(m.bds, list, Beidou);
    }
    if m.gal != 0 {
      list := ConvertGnssSvIdMaskToList(m.gal, list, Galileo);
    }
    if m.glo != 0 {
      list := ConvertGnssSvIdMaskToList(m.glo, list, Glonass);
    }
    if m.qzss != 0 {
      list := ConvertGnssSvIdMaskToList(m.qzss, list, Qzss);
    }
    ListOfAppended(svIds, m);
  }

  // ----- What the list-to-mask direction means -----

  predicate InMaskRange(m: Masks) {
    m.glo <= ALL_BITS && m.bds <= ALL_BITS && m.qzss <= ALL_BITS && m.gal <= ALL_BITS
  }

  lemma ContributionFits(s: Source, c: SvType, wide: WideShift)
    requires Masked(c)
    ensures Contribution(s, c, wide) <= ALL_BITS
  {
    AllBitsIsPow2();
    if s.constellation == c && s.svId != 0 && InRange(s) && s.svId - InitialSvId(c) <= 30 {
      Pow2Grows(s.svId - InitialSvId(c), 64);
    }
  }

  lemma WithMaskMeaning(m: Masks, d: SvType, mask: nat, c: SvType)
    requires Masked(c) && Masked(d)
    ensures MaskOf(WithMask(m, d, mask), c) == if c == d then mask else MaskOf(m, c)
    ensures InMaskRange(m) && mask <= ALL_BITS ==> InMaskRange(WithMask(m, d, mask))
  {
  }

  lemma OrFits(a: nat, b: nat)
    requires a <= ALL_BITS && b <= ALL_BITS
    ensures Or(a, b) <= ALL_BITS
  {
    AllBitsIsPow2();
    OrBound(a, b, 64);
  }

  lemma AllBitsSet(i: nat)
    requires i < 64
    ensures Bit(ALL_BITS, i)
  {
    AllBitsIsPow2();
    AllLowBits(64, i);
  }

  lemma AddSourceBits(m: Masks, s: Source, c: SvType, wide: WideShift, i: nat)
    requires Masked(c) && InMaskRange(m) && i < 64
    ensures InMaskRange(AddSource(m, s, wide))
    ensures Bit(MaskOf(AddSource(m, s, wide), c), i) <==> Bit(MaskOf(m, c), i) || Bit(Contribution(s, c, wide), i)
  {
    ZeroHasNoBits(i);
    var d := s.constellation;
    if Masked(d) {
      if s.svId == 0 {
        AllBitsSet(i);
        WithMaskMeaning(m, d, ALL_BITS, c);
      } else if InRange(s) {
        var was, add := MaskOf(m, d), Contribution(s, d, wide);
        ContributionFits(s, d, wide);
        OrFits(was, add);
        OrBits(was, add, i);
        WithMaskMeaning(m, d, Or(was, add), c);
      }
    }
  }

  /** A bit ends up set exactly when it was set or some list entry sets it: the result depends on
      which entries the list has, not on their order or repetition. */
  lemma {:induction false} AddSourcesBits(m: Masks, list: seq<Source>, c: SvType, wide: WideShift, i: nat)
    requires Masked(c) && InMaskRange(m) && i < 64
    ensures InMaskRange(AddSources(m, list, wide))
    ensures Bit(MaskOf(AddSources(m, list, wide), c), i) <==>
            Bit(MaskOf(m, c), i) || exists s :: s in list && Bit(Contribution(s, c, wide), i)
    decreases |list|
  {
    if list != [] {
      assert list == [list[0]] + list[1..];
      AddSourceBits(m, list[0], c, wide, i);
      AddSourcesBits(AddSource(m, list[0], wide), list[1..], c, wide, i);
      assert list[0] in list;
    }
  }

  lemma SameMasks(a: Masks, b: Masks)
    requires InMaskRange(a) && InMaskRange(b)
    requires forall c, i :: Masked(c) && 0 <= i < 64 ==> (Bit(MaskOf(a, c), i) <==> Bit(MaskOf(b, c), i))
    ensures a == b
  {
    AllBitsIsPow2();
    forall c | Masked(c)
      ensures MaskOf(a, c) == MaskOf(b, c)
    {
      SameBits(MaskOf(a, c), MaskOf(b, c), 64);
    }
    assert MaskOf(a, Glonass) == MaskOf(b, Glonass) && MaskOf(a, Beidou) == MaskOf(b, Beidou);
    assert MaskOf(a, Qzss) == MaskOf(b, Qzss) && MaskOf(a, Galileo) == MaskOf(b, Galileo);
  }

  /** Lists with the same entries give the same masks, on every compiler. */
  lemma OrderIrrelevant(m: Masks, list1: seq<Source>, list2: seq<Source>, wide: WideShift)
    requires InMaskRange(m) && forall s :: s in list1 <==> s in list2
    ensures AddSources(m, list1, wide) == AddSources(m, list2, wide)
  {
    AddSourcesBits(m, list1, Glonass, wide, 0);
    AddSourcesBits(m, list2, Glonass, wide, 0);
    forall c, i | Masked(c) && 0 <= i < 64
      ensures Bit(MaskOf(AddSources(m, list1, wide), c), i) <==> Bit(MaskOf(AddSources(m, list2, wide), c), i)
    {
      AddSourcesBits(m, list1, c, wide, i);
      AddSourcesBits(m, list2, c, wide, i);
    }
    SameMasks(AddSources(m, list1, wide), AddSources(m, list2, wide));
  }

  // ----- The round trip -----

  // All bits, or none above bit 30
  predicate Portable(mask: nat) {
    mask == ALL_BITS || mask < BIT_31
  }

  predicate AllPortable(m: Masks) {
    Portable(m.glo) && Portable(m.bds) && Portable(m.qzss) && Portable(m.gal)
  }

  lemma {:induction false} BitSourcesMeaning(mask: nat, id: nat, c: SvType, s: Source)
    ensures s in BitSources(mask, id, c) <==> s.constellation == c && s.svId >= id && Bit(mask, s.svId - id)
  {
    if mask == 0 {
      if s.svId >= id { ZeroHasNoBits(s.svId - id); }
    } else {
      BitSourcesMeaning(mask / 2, id + 1, c, s);
    }
  }

  // An entry of a mask's list stands for one set bit, and contributes exactly that bit up to 30
  lemma BitSourceContribution(mask: nat, c: SvType, wide: WideShift, i: nat, s: Source)
    requires Masked(c) && mask <= ALL_BITS && s in BitSources(mask, InitialSvId(c), c)
    ensures var n := s.svId - InitialSvId(c);
            && 0 <= n < 64 && Bit(mask, n)
            && Contribution(s, c, wide) == Shift(n, wide)
            && (n <= 30 ==> (Bit(Contribution(s, c, wide), i) <==> i == n))
  {
    AllBitsIsPow2();
    BitSourcesMeaning(mask, InitialSvId(c), c, s);
    var n := s.svId - InitialSvId(c);
    if n >= 64 { NoHighBits(mask, 64, n); }
    Pow2Bits(n, i);
  }

  lemma LowBitsOnly(mask: nat, n: nat)
    requires mask < BIT_31 && Bit(mask, n)
    ensures n <= 30
  {
    Bit31IsPow2();
    if n >= 31 { NoHighBits(mask, 31, n); }
  }

  lemma LowContribution(mask: nat, c: SvType, wide: WideShift, i: nat, s: Source)
    requires Masked(c) && mask <= ALL_BITS && mask < BIT_31 && s in BitSources(mask, InitialSvId(c), c)
    ensures s.svId >= InitialSvId(c) && Bit(mask, s.svId - InitialSvId(c))
    ensures Bit(Contribution(s, c, wide), i) <==> i == s.svId - InitialSvId(c)
  {
    BitSourceContribution(mask, c, wide, i, s);
    LowBitsOnly(mask, s.svId - InitialSvId(c));
  }

  lemma OwnIsListed(mask: nat, c: SvType, i: nat)
    requires Masked(c) && Bit(mask, i)
    ensures Source(c, InitialSvId(c) + i) in BitSources(mask, InitialSvId(c), c)
  {
    BitSourcesMeaning(mask, InitialSvId(c), c, Source(c, InitialSvId(c) + i));
  }

  lemma OwnContributes(mask: nat, c: SvType, wide: WideShift, i: nat, s: Source)
    requires Masked(c) && mask <= ALL_BITS && mask < BIT_31 && s in BitSources(mask, InitialSvId(c), c)
    requires s.svId == InitialSvId(c) + i
    ensures Bit(Contribution(s, c, wide), i)
  {
    LowContribution(mask, c, wide, i, s);
  }

  lemma OwnBitSource(mask: nat, c: SvType, wide: WideShift, i: nat)
    requires Masked(c) && mask <= ALL_BITS && mask < BIT_31 && Bit(mask, i)
    ensures exists s :: s in BitSources(mask, InitialSvId(c), c) && Bit(Contribution(s, c, wide), i)
  {
    OwnIsListed(mask, c, i);
    OwnContributes(mask, c, wide, i, Source(c, InitialSvId(c) + i));
  }

  lemma SetBitSource(mask: nat, c: SvType, wide: WideShift, i: nat, s: Source)
    requires Masked(c) && mask <= ALL_BITS && mask < BIT_31
    requires s in BitSources(mask, InitialSvId(c), c) && Bit(Contribution(s, c, wide), i)
    ensures Bit(mask, i)
  {
    LowContribution(mask, c, wide, i, s);
  }

  lemma BitSourcesBits(mask: nat, c: SvType, wide: WideShift, i: nat)
    requires Masked(c) && mask <= ALL_BITS && mask < BIT_31
    ensures (exists s :: s in BitSources(mask, InitialSvId(c), c) && Bit(Contribution(s, c, wide), i)) <==> Bit(mask, i)
  {
    if Bit(mask, i) {
      OwnBitSource(mask, c, wide, i);
    } else if s :| s in BitSources(mask, InitialSvId(c), c) && Bit(Contribution(s, c, wide), i) {
      SetBitSource(mask, c, wide, i, s);
    }
  }

  lemma MaskSourcesBits(mask: nat, c: SvType, wide: WideShift, i: nat)
    requires Masked(c) && mask <= ALL_BITS && i < 64 && Portable(mask)
    ensures (exists s :: s in MaskSources(mask, c) && Bit(Contribution(s, c, wide), i)) <==> Bit(mask, i)
  {
    if mask == ALL_BITS {
      AllBitsSet(i);
      assert Source(c, 0) in MaskSources(mask, c) && Bit(Contribution(Source(c, 0), c, wide), i);
    } else {
      BitSourcesBits(mask, c, wide, i);
    }
  }

  // Only a constellation's own part of the list touches its mask
  lemma ListOfBits(m: Masks, c: SvType, wide: WideShift, i: nat)
    requires Masked(c)
    ensures (exists s :: s in ListOf(m) && Bit(Contribution(s, c, wide), i)) <==>
            (exists s :: s in MaskSources(MaskOf(m, c), c) && Bit(Contribution(s, c, wide), i))
  {
    ZeroHasNoBits(i);
    forall s | s in ListOf(m) && s.constellation == c
      ensures s in MaskSources(MaskOf(m, c), c)
    {
      OwnPart(m, c, s);
    }
  }

  lemma OwnPart(m: Masks, c: SvType, s: Source)
    requires Masked(c) && s in ListOf(m) && s.constellation == c
    ensures s in MaskSources(MaskOf(m, c), c)
  {
    BitSourcesMeaning(m.bds, InitialSvId(Beidou), Beidou, s);
    BitSourcesMeaning(m.gal, InitialSvId(Galileo), Galileo, s);
    BitSourcesMeaning(m.glo, InitialSvId(Glonass), Glonass, s);
    BitSourcesMeaning(m.qzss, InitialSvId(Qzss), Qzss, s);
  }

  // What the two conversions in a row make of a configuration
  function RoundTrip(m: Masks, wide: WideShift): Masks {
    if ListOf(m) == [] then NO_MASKS else AddSources(NO_MASKS, ListOf(m), wide)
  }

  lemma RoundTripBits(m: Masks, c: SvType, wide: WideShift, i: nat)
    requires Masked(c) && InMaskRange(m) && i < 64
    ensures InMaskRange(RoundTrip(m, wide))
    ensures Bit(MaskOf(RoundTrip(m, wide), c), i) <==>
            exists s :: s in MaskSources(MaskOf(m, c), c) && Bit(Contribution(s, c, wide), i)
  {
    AddSourcesBits(NO_MASKS, ListOf(m), c, wide, i);
    ZeroHasNoBits(i);
    ListOfBits(m, c, wide, i);
  }

  lemma PortableRoundTrips(m: Masks, wide: WideShift)
    requires InMaskRange(m) && AllPortable(m)
    ensures RoundTrip(m, wide) == m
  {
    forall c, i | Masked(c) && 0 <= i < 64
      ensures Bit(MaskOf(RoundTrip(m, wide), c), i) <==> Bit(MaskOf(m, c), i)
    {
      RoundTripBits(m, c, wide, i);
      MaskSourcesBits(MaskOf(m, c), c, wide, i);
    }
    RoundTripBits(m, Glonass, wide, 0);
    SameMasks(RoundTrip(m, wide), m);
  }

  lemma {:induction false} HighBit(mask: nat, lo: nat, k: nat) returns (j: nat)
    requires Pow2(lo) <= mask < Pow2(k)
    ensures lo <= j < k && Bit(mask, j)
    decreases lo, mask
  {
    if mask == 1 {
      j := 0;
    } else if lo > 0 {
      j := HighBit(mask / 2, lo - 1, k - 1);
      j := j + 1;
    } else if mask % 2 == 1 {
      j := 0;
    } else {
      j := HighBit(mask / 2, 0, k - 1);
      j := j + 1;
    }
  }

  lemma TopBit(mask: nat) returns (j: nat)
    requires BIT_31 <= mask <= ALL_BITS
    ensures 31 <= j < 64 && Bit(mask, j)
  {
    Bit31IsPow2();
    AllBitsIsPow2();
    j := HighBit(mask, 31, 64);
  }

  lemma DroppedBit(mask: nat, c: SvType, j: nat, s: Source)
    requires Masked(c) && mask <= ALL_BITS && s in BitSources(mask, InitialSvId(c), c) && j >= 31
    ensures !Bit(Contribution(s, c, _ => 0), j)
  {
    BitSourceContribution(mask, c, _ => 0, j, s);
    ZeroHasNoBits(j);
  }

  // A compiler that makes nothing of a wide shift loses a bit above 30
  lemma UnportableLost(m: Masks, c: SvType)
    requires Masked(c) && InMaskRange(m) && !Portable(MaskOf(m, c))
    ensures RoundTrip(m, _ => 0) != m
  {
    var mask := MaskOf(m, c);
    var j := TopBit(mask);
    RoundTripBits(m, c, _ => 0, j);
    if RoundTrip(m, _ => 0) == m {
      var s :| s in MaskSources(mask, c) && Bit(Contribution(s, c, _ => 0), j);
      DroppedBit(mask, c, j, s);
    }
  }

  /** Mask to list to mask is the identity on every compiler if and only if each mask is all ones or
      uses only bits 0 to 30. */
  lemma RoundTripIff(m: Masks)
    requires InMaskRange(m)
    ensures (forall wide: WideShift :: RoundTrip(m, wide) == m) <==> AllPortable(m)
  {
    if AllPortable(m) {
      forall wide: WideShift
        ensures RoundTrip(m, wide) == m
      {
        PortableRoundTrips(m, wide);
      }
    } else {
      var c := if !Portable(m.glo) then Glonass else if !Portable(m.bds) then Beidou
               else if !Portable(m.qzss) then Qzss else Galileo;
      UnportableLost(m, c);
    }
  }

  // ----- Which satellite is which bit -----

  /** GLONASS satellite 65, BeiDou 201, QZSS 193 and Galileo 301 are bit 0 of their masks, and id 0 is every
      bit; up to bit 30 one entry sets exactly its own bit. */
  lemma DocumentedBits(n: nat, wide: WideShift)
    requires n <= 30
    ensures AddSources(NO_MASKS, [Source(Glonass, 65 + n)], wide) == Masks(Pow2(n), 0, 0, 0)
    ensures AddSources(NO_MASKS, [Source(Beidou, 201 + n)], wide) == Masks(0, Pow2(n), 0, 0)
    ensures AddSources(NO_MASKS, [Source(Qzss, 193 + n)], wide) == Masks(0, 0, Pow2(n), 0)
    ensures AddSources(NO_MASKS, [Source(Galileo, 301 + n)], wide) == Masks(0, 0, 0, Pow2(n))
  {
    GlonassBit(n, wide);
    BeidouBit(n, wide);
    QzssBit(n, wide);
    GalileoBit(n, wide);
  }

  lemma GlonassBit(n: nat, wide: WideShift)
    requires n <= 30
    ensures AddSources(NO_MASKS, [Source(Glonass, 65 + n)], wide) == Masks(Pow2(n), 0, 0, 0)
  {
    OneSource(Source(Glonass, 65 + n), wide);
  }

  lemma BeidouBit(n: nat, wide: WideShift)
    requires n <= 30
    ensures AddSources(NO_MASKS, [Source(Beidou, 201 + n)], wide) == Masks(0, Pow2(n), 0, 0)
  {
    OneSource(Source(Beidou, 201 + n), wide);
  }

  lemma QzssBit(n: nat, wide: WideShift)
    requires n <= 30
    ensures AddSources(NO_MASKS, [Source(Qzss, 193 + n)], wide) == Masks(0, 0, Pow2(n), 0)
  {
    OneSource(Source(Qzss, 193 + n), wide);
  }

  lemma GalileoBit(n: nat, wide: WideShift)
    requires n <= 30
    ensures AddSources(NO_MASKS, [Source(Galileo, 301 + n)], wide) == Masks(0, 0, 0, Pow2(n))
  {
    OneSource(Source(Galileo, 301 + n), wide);
  }

  lemma OneSource(s: Source, wide: WideShift)
    ensures AddSources(NO_MASKS, [s], wide) == AddSource(NO_MASKS, s, wide)
  {
    assert [s][1..] == [];
  }

  lemma DocumentedWholes(wide: WideShift)
    ensures AddSources(NO_MASKS, [Source(Glonass, 0)], wide) == Masks(0xffff_ffff_ffff_ffff, 0, 0, 0)
    ensures AddSources(NO_MASKS, [Source(Beidou, 0)], wide) == Masks(0, 0xffff_ffff_ffff_ffff, 0, 0)
    ensures AddSources(NO_MASKS, [Source(Qzss, 0)], wide) == Masks(0, 0, 0xffff_ffff_ffff_ffff, 0)
    ensures AddSources(NO_MASKS, [Source(Galileo, 0)], wide) == Masks(0, 0, 0, 0xffff_ffff_ffff_ffff)
  {
    OneSource(Source(Glonass, 0), wide);
    OneSource(Source(Beidou, 0), wide);
    OneSource(Source(Qzss, 0), wide);
    OneSource(Source(Galileo, 0), wide);
  }

  // The satellite is one the mask stands for, given the id of bit 0
  predicate Stands(mask: nat, first: nat, svId: nat) {
    if mask == 0xffff_ffff_ffff_ffff then svId == 0 else first <= svId && Bit(mask, svId - first)
  }

  /** The list names exactly the satellites whose bits are set, or 0 for a mask that is all ones. */
  lemma ListMeaning(m: Masks, s: Source)
    ensures s in ListOf(m) <==>
            match s.constellation
            case Glonass => Stands(m.glo, 65, s.svId)
            case Beidou => Stands(m.bds, 201, s.svId)
            case Qzss => Stands(m.qzss, 193, s.svId)
            case Galileo => Stands(m.gal, 301, s.svId)
            case _ => false
  {
    BitSourcesMeaning(m.bds, 201, Beidou, s);
    BitSourcesMeaning(m.gal, 301, Galileo, s);
    BitSourcesMeaning(m.glo, 65, Glonass, s);
    BitSourcesMeaning(m.qzss, 193, Qzss, s);
    InParts(MaskSources(m.bds, Beidou), MaskSources(m.gal, Galileo), MaskSources(m.glo, Glonass),
            MaskSources(m.qzss, Qzss), s);
  }

  lemma InParts(a: seq<Source>, b: seq<Source>, c: seq<Source>, d: seq<Source>, s: Source)
    ensures s in a + b + c + d <==> s in a || s in b || s in c || s in d
  {
  }

  // ----- The order of a list -----

  // BeiDou, Galileo, GLONASS, QZSS, and ascending ids within each
  predicate Before(s: Source, t: Source) {
    if s.constellation == t.constellation then s.svId < t.svId
    else
      match t.constellation
      case Galileo => s.constellation == Beidou
      case Glonass => s.constellation == Beidou || s.constellation == Galileo
      case Qzss => s.constellation == Beidou || s.constellation == Galileo || s.constellation == Glonass
      case _ => false
  }

  ghost predicate InOrder(list: seq<Source>) {
    forall i, j :: 0 <= i < j < |list| ==> Before(list[i], list[j])
  }

  lemma {:induction false} BitsInOrder(mask: nat, id: nat, c: SvType)
    ensures InOrder(BitSources(mask, id, c))
  {
    if mask != 0 {
      var later := BitSources(mask / 2, id + 1, c);
      BitsInOrder(mask / 2, id + 1, c);
      forall j | 0 <= j < |later|
        ensures Before(Source(c, id), later[j])
      {
        BitSourcesMeaning(mask / 2, id + 1, c, later[j]);
      }
    }
  }

  lemma MaskInOrder(mask: nat, c: SvType)
    requires Masked(c)
    ensures InOrder(MaskSources(mask, c)) && forall s :: s in MaskSources(mask, c) ==> s.constellation == c
  {
    BitsInOrder(mask, InitialSvId(c), c);
    forall s | s in BitSources(mask, InitialSvId(c), c)
      ensures s.constellation == c
    {
      BitSourcesMeaning(mask, InitialSvId(c), c, s);
    }
  }

  lemma JoinInOrder(a: seq<Source>, b: seq<Source>)
    requires InOrder(a) && InOrder(b) && forall s, t :: s in a && t in b ==> Before(s, t)
    ensures InOrder(a + b)
  {
    forall i, j | 0 <= i < j < |a + b|
      ensures Before((a + b)[i], (a + b)[j])
    {
      if i < |a| <= j { assert a[i] in a && b[j - |a|] in b; }
    }
  }

  /** The list is in order, and so names nothing twice. */
  lemma ListInOrder(m: Masks)
    ensures InOrder(ListOf(m))
  {
    var a, b := MaskSources(m.bds, Beidou), MaskSources(m.gal, Galileo);
    var c, d := MaskSources(m.glo, Glonass), MaskSources(m.qzss, Qzss);
    MaskInOrder(m.bds, Beidou);
    MaskInOrder(m.gal, Galileo);
    MaskInOrder(m.glo, Glonass);
    MaskInOrder(m.qzss, Qzss);
    JoinInOrder(a, b);
    JoinInOrder(a + b, c);
    JoinInOrder(a + b + c, d);
  }
}
