/**
 * qdFileOwner's CD information: an unsigned 32-bit mask with one bit per
 * game CD the owner's files are on. A mask of 0 means "no CD recorded" and
 * is read as if the files were on CD 0 only.
 *
 * The model keeps the mask as its 32 bits, least significant first, so
 * that bit `n` is the entry `n`; CD_info and set_CD_info convert between
 * the bits and the unsigned value.
 */
module FileOwners {
  import opened Wrappers

  /** The width of the mask. */
  const MaskWidth: nat := 32

  /** A CD number: `1 << n` on a 32-bit int is defined for n from 0 to 31 only. */
  predicate IsCd(n: int) {
    0 <= n < MaskWidth
  }

  /** A mask: its 32 bits, least significant first. */
  type Mask = b: seq<bool> | |b| == MaskWidth witness seq(MaskWidth, i => false)

  /** 2 to the power `k`. */
  function Pow2(k: nat): (p: nat)
    ensures p >= 1
  {
    if k == 0 then 1 else 2 * Pow2(k - 1)
  }

  /** 2^(a+b) is 2^a times 2^b. */
  lemma {:induction false} Pow2Add(a: nat, b: nat)
    ensures Pow2(a + b) == Pow2(a) * Pow2(b)
  {
    if a > 0 {
      Pow2Add(a - 1, b);
      assert Pow2(a + b) == 2 * (Pow2(a - 1) * Pow2(b));
    }
  }

  /** 32 bits hold exactly the unsigned 32-bit values. */
  lemma Pow2Width()
    ensures Pow2(MaskWidth) == Two32
  {
    assert Pow2(4) == 16;
    Pow2Add(4, 4);
    Pow2Add(8, 8);
    Pow2Add(16, 16);
  }

  /** The unsigned value of bits, least significant first. */
  function Value(b: seq<bool>): nat {
    if |b| == 0 then 0 else (if b[0] then 1 else 0) + 2 * Value(b[1..])
  }

  /** The lowest `k` bits of `v`, least significant first. */
  function BitsOf(v: nat, k: nat): (b: seq<bool>)
    ensures |b| == k
  {
    if k == 0 then [] else [v % 2 == 1] + BitsOf(v / 2, k - 1)
  }

  /** `k` bits hold a value below 2^k. */
  lemma {:induction false} ValueBelow(b: seq<bool>)
    ensures Value(b) < Pow2(|b|)
  {
    if |b| > 0 {
      ValueBelow(b[1..]);
    }
  }

  /** Bits read back from their value are the bits. */
  lemma {:induction false} BitsOfValue(b: seq<bool>)
    ensures BitsOf(Value(b), |b|) == b
  {
    if |b| > 0 {
      BitsOfValue(b[1..]);
      assert Value(b) % 2 == 1 <==> b[0];
      assert Value(b) / 2 == Value(b[1..]);
    }
  }

  /** A value below 2^k is the value of its `k` lowest bits. */
  lemma {:induction false} ValueOfBits(v: nat, k: nat)
    requires v < Pow2(k)
    ensures Value(BitsOf(v, k)) == v
  {
    if k > 0 {
      ValueOfBits(v / 2, k - 1);
      assert BitsOf(v, k)[1..] == BitsOf(v / 2, k - 1);
    }
  }

  /** A value is 0 exactly when none of its bits is set. */
  lemma {:induction false} ValueZero(b: seq<bool>)
    ensures Value(b) == 0 <==> forall i :: 0 <= i < |b| ==> !b[i]
  {
    if |b| > 0 {
      ValueZero(b[1..]);
      assert forall i :: 1 <= i < |b| ==> b[i] == b[1..][i - 1];
    }
  }

  /** The bits of 1: only bit 0 is set. */
  lemma {:induction false} BitsOfOne(k: nat, n: int)
    requires 0 <= n < k
    ensures BitsOf(1, k)[n] <==> n == 0
  {
    if n > 0 {
      ZeroBits(k - 1, n - 1);
    }
  }

  /** The bits of 0 are all clear. */
  lemma {:induction false} ZeroBits(k: nat, n: int)
    requires 0 <= n < k
    ensures !BitsOf(0, k)[n]
  {
    if n > 0 {
      ZeroBits(k - 1, n - 1);
    }
  }

  /** The mask of a value below 2^32. */
  function MaskOf(v: U32): Mask {
    BitsOf(v, MaskWidth)
  }

  /** The empty mask, value 0. */
  function NoCd(): (b: Mask)
    ensures Value(b) == 0
  {
    ValueOfBits(0, MaskWidth);
    MaskOf(0)
  }

  /** is_on_CD on a mask: bit `n`, an empty mask read as the value 1. */
  predicate OnCd(b: Mask, n: int)
    requires IsCd(n)
  {
    var inf := if Value(b) == 0 then MaskOf(1) else b;
    inf[n]
  }

  class FileOwner {
    var cdInfo: Mask
    var filesSize: U32

    /** The constructor: no files counted and no CD recorded. */
    constructor()
      ensures CdInfo() == 0 && filesSize == 0
    {
      cdInfo := NoCd();
      filesSize := 0;
    }

    /** add_to_CD: bit n is set. */
    method AddToCd(n: int)
      requires IsCd(n)
      modifies this
      ensures cdInfo == old(cdInfo)[n := true] && filesSize == old(filesSize)
    {
      cdInfo := cdInfo[n := true];
    }

    /** remove_from_CD: bit n is cleared. */
    method RemoveFromCd(n: int)
      requires IsCd(n)
      modifies this
      ensures cdInfo == old(cdInfo)[n := false] && filesSize == old(filesSize)
    {
      cdInfo := cdInfo[n := false];
    }

    /** is_on_CD; the source's default CD number is 1. */
    predicate IsOnCd(n: int)
      requires IsCd(n)
      reads this
      ensures IsOnCd(n) <==> if exists i :: 0 <= i < MaskWidth && cdInfo[i] then cdInfo[n] else n == 0
    {
      ValueZero(cdInfo);
      BitsOfOne(MaskWidth, n);
      OnCd(cdInfo, n)
    }

    /** clear_cd_info: afterwards CD_info() is 0. */
    method ClearCdInfo()
      modifies this
      ensures CdInfo() == 0 && filesSize == old(filesSize)
    {
      cdInfo := NoCd();
    }

    /** CD_info: the unsigned value of the mask. */
    function CdInfo(): (v: U32)
      reads this
      ensures MaskOf(v) == cdInfo
      ensures v == 0 <==> forall i :: 0 <= i < MaskWidth ==> !cdInfo[i]
    {
      ValueBelow(cdInfo);
      Pow2Width();
      BitsOfValue(cdInfo);
      ValueZero(cdInfo);
      Value(cdInfo)
    }

    /** set_CD_info: afterwards CD_info() is the value set. */
    method SetCdInfo(inf: U32)
      modifies this
      ensures CdInfo() == inf && filesSize == old(filesSize)
    {
      Pow2Width();
      ValueOfBits(inf, MaskWidth);
      cdInfo := MaskOf(inf);
    }
  }

  /** CD_info and set_CD_info are inverse: the mask of a mask's value is the mask. */
  lemma MaskValueRoundTrip(b: Mask)
    ensures Value(b) < Two32 && MaskOf(Value(b)) == b
  {
    ValueBelow(b);
    Pow2Width();
    BitsOfValue(b);
  }

  /** A mask with some bit set answers is_on_CD by its bits alone. */
  lemma OnCdIsBit(b: Mask, n: int)
    requires IsCd(n) && Value(b) != 0
    ensures OnCd(b, n) <==> b[n]
  {
  }

  /**
   * A new owner (mask 0) is on CD 0 and on no other CD; in particular
   * is_on_CD with its default argument 1 is false.
   */
  lemma FreshOwnerOnCdZeroOnly(n: int)
    requires IsCd(n)
    ensures OnCd(NoCd(), n) <==> n == 0
  {
    BitsOfOne(MaskWidth, n);
  }

  /** After add_to_CD(n) the owner is on CD n. */
  lemma AddedIsOnCd(b: Mask, n: int)
    requires IsCd(n)
    ensures OnCd(b[n := true], n)
  {
    var c := b[n := true];
    assert c[n];
    ValueZero(c);
  }

  /**
   * After remove_from_CD(n) the owner is on CD n only when n is 0 and no
   * other CD is left: the empty mask reads as CD 0.
   */
  lemma RemovedIsOnCdOnlyAsCdZero(b: Mask, n: int)
    requires IsCd(n)
    ensures OnCd(b[n := false], n) <==> n == 0 && Value(b[n := false]) == 0
  {
    BitsOfOne(MaskWidth, n);
  }

  /** Removing the only CD an owner is on leaves the empty mask, which reads as CD 0. */
  lemma RemovingLastCdMeansCdZero(n: int, m: int)
    requires IsCd(n) && IsCd(m)
    ensures Value(NoCd()[n := true][n := false]) == 0
    ensures OnCd(NoCd()[n := true][n := false], m) <==> m == 0
  {
    var b := NoCd();
    ValueZero(b);
    assert b[n := true][n := false] == b;
    FreshOwnerOnCdZeroOnly(m);
  }
}
