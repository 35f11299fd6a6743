/**
 * Packing a slot's bitmap (the comprehensions in `load_image`): grey values
 * are thresholded into 0/1 pixels, and every group of 8 pixels (the source's
 * `PIXEL_PER_COLUMN`) becomes one byte with the first pixel of the group in
 * its most significant bit.
 */
module Bitmap {
  import opened Bits

  /** `[1 if x > threshold else 0 for x in grey]`. */
  function Binarize(grey: seq<Byte>, threshold: int): (px: seq<nat>)
    ensures |px| == |grey| && IsFlags(px)
  {
    seq(|grey|, i requires 0 <= i < |grey| => if grey[i] > threshold then 1 else 0)
  }

  function Reverse(s: seq<nat>): (r: seq<nat>)
    ensures |r| == |s|
    ensures forall k :: 0 <= k < |s| ==> r[k] == s[|s| - 1 - k]
  {
    if s == [] then [] else Reverse(s[1..]) + [s[0]]
  }

  /**
   * `sum(x << i for i, x in enumerate(reversed(g)))`: the last pixel of the
   * group in bit 0, the first in bit |g| - 1, nothing above.
   */
  function GroupValue(g: seq<nat>): (v: Byte)
    requires |g| <= 8 && IsFlags(g)
    ensures v < Pow2(|g|)
    ensures forall k :: 0 <= k < |g| ==> Bit(v, |g| - 1 - k) == g[k]
    ensures forall i: nat :: i >= |g| ==> Bit(v, i) == 0
  {
    var f := Reverse(g);
    assert IsFlags(f);
    ShiftSumBits(f);
    PowMonotone(|g|, 8);
    assert Pow2(8) == 256;
    ShiftSum(f)
  }

  lemma {:induction false} PowMonotone(a: nat, b: nat)
    requires a <= b
    ensures Pow2(a) <= Pow2(b)
  {
    if a < b {
      PowMonotone(a, b - 1);
    }
  }

  /** Number of bytes n pixels take: ceil(n / 8). */
  function GroupCount(n: nat): nat {
    (n + 7) / 8
  }

  /** `px[8j : 8j + 8]`, shorter for the last group. */
  function Group(px: seq<nat>, j: nat): (g: seq<nat>)
    requires j < GroupCount(|px|)
    ensures |g| == Min(8, |px| - 8 * j) && 0 < |g|
  {
    px[8 * j .. Min(8 * j + 8, |px|)]
  }

  /** `[GroupValue(px[x:x + 8]) for x in range(0, len(px), 8)]`. */
  function Pack(px: seq<nat>): seq<Byte>
    requires IsFlags(px)
  {
    seq(GroupCount(|px|), j requires 0 <= j < GroupCount(|px|) => GroupValue(Group(px, j)))
  }

  /** The bitmap `load_image` builds from grey values already cropped to whole columns. */
  function PackGrey(grey: seq<Byte>, threshold: int): seq<Byte> {
    Pack(Binarize(grey, threshold))
  }

  /** Pixel k of group j is bit |group| - 1 - k of byte j. */
  lemma PackBit(px: seq<nat>, j: nat, k: nat)
    requires IsFlags(px) && j < GroupCount(|px|) && k < |Group(px, j)|
    ensures j < |Pack(px)| && 8 * j + k < |px|
    ensures Bit(Pack(px)[j], |Group(px, j)| - 1 - k) == px[8 * j + k]
  {
    var g := Group(px, j);
    assert Pack(px)[j] == GroupValue(g);
    assert g[k] == px[8 * j + k];
  }

  /** Pixel p is bit |group| - 1 - p % 8 of byte p / 8. */
  lemma PackGreyBit(grey: seq<Byte>, threshold: int, p: nat)
    requires p < |grey|
    ensures var b := PackGrey(grey, threshold);
      p / 8 < |b| && Bit(b[p / 8], Min(8, |grey| - 8 * (p / 8)) - 1 - p % 8) == (if grey[p] > threshold then 1 else 0)
  {
    var px := Binarize(grey, threshold);
    var j, k := p / 8, p % 8;
    assert p == 8 * j + k;
    assert j < GroupCount(|px|);
    assert |Group(px, j)| == Min(8, |grey| - 8 * j);
    PackBit(px, j, k);
    assert px[p] == if grey[p] > threshold then 1 else 0;
  }

  /**
   * The packed bitmap has ceil(n / 8) bytes; pixel p is bit
   * |group| - 1 - p % 8 of byte p / 8; a short last group fills only the
   * low bits.
   */
  lemma PackGreyLayout(grey: seq<Byte>, threshold: int)
    ensures var b := PackGrey(grey, threshold);
      && |b| == GroupCount(|grey|)
      && (forall p :: 0 <= p < |grey| ==>
            p / 8 < |b| && Bit(b[p / 8], Min(8, |grey| - 8 * (p / 8)) - 1 - p % 8) == (if grey[p] > threshold then 1 else 0))
      && (forall j :: 0 <= j < |b| ==> b[j] < Pow2(Min(8, |grey| - 8 * j)))
  {
    forall p | 0 <= p < |grey|
      ensures var b := PackGrey(grey, threshold);
        p / 8 < |b| && Bit(b[p / 8], Min(8, |grey| - 8 * (p / 8)) - 1 - p % 8) == (if grey[p] > threshold then 1 else 0)
    {
      PackGreyBit(grey, threshold, p);
    }
  }

  /** In a full group, pixel 8j + k is bit 7 - k of byte j. */
  lemma FullGroupBits(grey: seq<Byte>, threshold: int, j: nat, k: nat)
    requires 8 * j + 8 <= |grey| && k < 8
    ensures var b := PackGrey(grey, threshold);
      j < |b| && Bit(b[j], 7 - k) == (if grey[8 * j + k] > threshold then 1 else 0)
  {
    var p := 8 * j + k;
    PackGreyBit(grey, threshold, p);
    assert p / 8 == j && p % 8 == k;
    assert Min(8, |grey| - 8 * j) == 8;
  }
}
