/**
 * The 54-byte frame header (`_build_header`): magic number, brightness, the
 * eight mode bytes, the big-endian offset/length table and the Laser mask.
 */
module Header {
  import opened Bits
  import opened Slots
  import opened Wrappers

  /** The badge always has eight slots. */
  const SlotMax: nat := 8
  /** "Ahello" in ASCII. */
  const Magic: seq<Byte> := [0x41, 0x68, 0x65, 0x6c, 0x6c, 0x6f]
  const HeaderLength: nat := 54
  /** Largest value of a 16-bit table field. */
  const Max16: nat := 0xffff

  /** Why no header could be built; each carries the list it rejected. */
  datatype HeaderError =
    | ColumnsTooLarge(columns: seq<nat>)
    | OffsetTooLarge(offsets: seq<nat>)

  /**
   * `(slot_list + [Slot() for x in range(8)])[:8]`: a new list of exactly
   * eight slots, the caller's first and default slots after them.
   */
  function Padded(slots: seq<Slot>): (p: seq<Slot>)
    ensures |p| == SlotMax
    ensures forall i :: 0 <= i < SlotMax ==> p[i] == if i < |slots| then slots[i] else DefaultSlot
  {
    (slots + seq(SlotMax, _ => DefaultSlot))[..SlotMax]
  }

  /** `itertools.accumulate(cs)` started from `acc`: the running totals. */
  function Accumulate(cs: seq<nat>, acc: nat): (totals: seq<nat>)
    ensures |totals| == |cs|
  {
    if cs == [] then [] else [acc + cs[0]] + Accumulate(cs[1..], acc + cs[0])
  }

  /** `[0] + list(itertools.accumulate(cs))`. */
  function Offsets(cs: seq<nat>): (offs: seq<nat>)
    ensures |offs| == |cs| + 1 && offs[0] == 0
  {
    [0] + Accumulate(cs, 0)
  }

  lemma {:induction false} AccumulateAt(cs: seq<nat>, acc: nat)
    ensures |Accumulate(cs, acc)| == |cs|
    ensures forall i :: 0 <= i < |cs| ==> Accumulate(cs, acc)[i] == acc + Sum(cs[..i + 1])
  {
    if cs != [] {
      AccumulateAt(cs[1..], acc + cs[0]);
      forall i | 0 <= i < |cs| ensures Accumulate(cs, acc)[i] == acc + Sum(cs[..i + 1]) {
        assert cs[..i + 1][1..] == cs[1..][..i];
        if i > 0 {
          assert Accumulate(cs, acc)[i] == Accumulate(cs[1..], acc + cs[0])[i - 1];
        }
      }
    }
  }

  /** Offset i is the number of columns of all slots before slot i. */
  lemma OffsetsArePrefixSums(cs: seq<nat>)
    ensures |Offsets(cs)| == |cs| + 1
    ensures forall i :: 0 <= i <= |cs| ==> Offsets(cs)[i] == Sum(cs[..i])
  {
    AccumulateAt(cs, 0);
    forall i | 0 <= i <= |cs| ensures Offsets(cs)[i] == Sum(cs[..i]) {
      if i == 0 {
        assert cs[..0] == [];
      }
    }
  }

  /** The largest offset is the last one, the sum of every column count. */
  lemma OffsetsMax(cs: seq<nat>)
    ensures (exists o :: o in Offsets(cs) && o > Max16) <==> Sum(cs) > Max16
  {
    OffsetsArePrefixSums(cs);
    var offs := Offsets(cs);
    assert cs[..|cs|] == cs;
    assert offs[|cs|] in offs;
    forall o | o in offs ensures o <= Sum(cs) {
      var i :| 0 <= i < |offs| && offs[i] == o;
      SumPrefixBound(cs, i);
    }
  }

  /** One column count is at most the sum of all of them. */
  lemma {:induction false} ColumnBelowSum(cs: seq<nat>, i: nat)
    requires i < |cs|
    ensures cs[i] <= Sum(cs)
  {
    if i > 0 {
      ColumnBelowSum(cs[1..], i - 1);
    }
  }

  /** `[(off >> 8) & 0xff, off & 0xff, (c >> 8) & 0xff, c & 0xff]`. */
  function Entry(off: nat, c: nat): seq<Byte> {
    [(off / 256) % 256, off % 256, (c / 256) % 256, c % 256]
  }

  /** The entries of the first n slots, concatenated. */
  function Table(offs: seq<nat>, cs: seq<nat>, n: nat): (t: seq<Byte>)
    requires n <= |offs| && n <= |cs|
    ensures |t| == 4 * n
  {
    if n == 0 then [] else Table(offs, cs, n - 1) + Entry(offs[n - 1], cs[n - 1])
  }

  lemma {:induction false} TableAt(offs: seq<nat>, cs: seq<nat>, n: nat)
    requires n <= |offs| && n <= |cs|
    ensures forall x :: 0 <= x < n ==> Table(offs, cs, n)[4 * x .. 4 * x + 4] == Entry(offs[x], cs[x])
  {
    if n > 0 {
      TableAt(offs, cs, n - 1);
      var t := Table(offs, cs, n);
      assert t[..4 * (n - 1)] == Table(offs, cs, n - 1);
      forall x | 0 <= x < n ensures t[4 * x .. 4 * x + 4] == Entry(offs[x], cs[x]) {
        if x < n - 1 {
          assert t[4 * x .. 4 * x + 4] == t[..4 * (n - 1)][4 * x .. 4 * x + 4];
        }
      }
    }
  }

  /** `[m.get_mode() for m in p]`. */
  function Modes(p: seq<Slot>): seq<Byte> {
    seq(|p|, i requires 0 <= i < |p| => Mode(p[i]))
  }

  function LaserFlag(s: Slot): nat {
    if s.motion == Laser then 1 else 0
  }

  function LaserFlags(p: seq<Slot>): seq<nat> {
    seq(|p|, i requires 0 <= i < |p| => LaserFlag(p[i]))
  }

  /**
   * `sum(int(x.motion == LASER) << i for i, x in enumerate(p))`: bit i is set
   * exactly when slot i is a Laser slot, and no bit above the list's length.
   */
  function LaserMask(p: seq<Slot>): (m: nat)
    ensures m < Pow2(|p|)
    ensures forall i: nat :: Bit(m, i) == if i < |p| then LaserFlag(p[i]) else 0
  {
    var f := LaserFlags(p);
    ShiftSumBits(f);
    ShiftSum(f)
  }

  /**
   * `_build_header`: fails when some padded column count, or else some
   * running column offset, exceeds 16 bits; otherwise the header bytes.
   */
  function BuildHeader(brightness: Brightness, slots: seq<Slot>): (r: Result<seq<Byte>, HeaderError>)
    ensures r.Ok? ==> |r.value| == HeaderLength
  {
    var p := Padded(slots);
    var modes := Modes(p);
    assert Pow2(8) == 256;
    var laser: Byte := LaserMask(p);
    var cs := Columns(p);
    var offs := Offsets(cs);
    OffsetsArePrefixSums(cs);
    if exists c :: c in cs && c > Max16 then
      Err(ColumnsTooLarge(cs))
    else if exists o :: o in offs && o > Max16 then
      Err(OffsetTooLarge(offs))
    else
      Ok(Magic + [BrightnessCode(brightness), 0x00] + modes + [0x00]
         + Table(offs, cs, SlotMax) + [laser, 0x00, 0x00, 0x00, 0x00])
  }

  /** Every column count of the padded list fits in 16 bits. */
  predicate ColumnsFit(slots: seq<Slot>) {
    forall i :: 0 <= i < SlotMax ==> Padded(slots)[i].columns <= Max16
  }

  /** The column counts of the eight padded slots. */
  function PaddedColumns(slots: seq<Slot>): (cs: seq<nat>)
    ensures |cs| == SlotMax
    ensures forall i :: 0 <= i < SlotMax ==> cs[i] == if i < |slots| then slots[i].columns else 0
  {
    Columns(Padded(slots))
  }

  /**
   * The header fails exactly when a padded column count exceeds 0xffff
   * (reported first) or, failing that, when the total of all eight column
   * counts does, which is when some running offset does.
   */
  lemma HeaderOkIff(brightness: Brightness, slots: seq<Slot>)
    ensures BuildHeader(brightness, slots).Err? <==> !ColumnsFit(slots) || Sum(PaddedColumns(slots)) > Max16
    ensures BuildHeader(brightness, slots) == Err(ColumnsTooLarge(PaddedColumns(slots))) <==> !ColumnsFit(slots)
    ensures BuildHeader(brightness, slots) == Err(OffsetTooLarge(Offsets(PaddedColumns(slots))))
            <==> ColumnsFit(slots) && Sum(PaddedColumns(slots)) > Max16
  {
    var cs := PaddedColumns(slots);
    OffsetsMax(cs);
    if !ColumnsFit(slots) {
      var i :| 0 <= i < SlotMax && Padded(slots)[i].columns > Max16;
      assert cs[i] in cs;
      ColumnBelowSum(cs, i);
    }
  }

  /** 16-bit big-endian number at position at. */
  function Word(h: seq<Byte>, at: nat): nat
    requires at + 2 <= |h|
  {
    (h[at] as int) * 256 + h[at + 1]
  }

  /**
   * The layout of a successful header: magic, brightness code, reserved
   * zeros at 7, 16 and 50-53, the mode byte of padded slot i at 8 + i, its
   * table entry at 17 + 4i and its Laser flag in bit i of byte 49.
   */
  lemma HeaderLayout(brightness: Brightness, slots: seq<Slot>)
    requires BuildHeader(brightness, slots).Ok?
    ensures var h := BuildHeader(brightness, slots).value;
      && |h| == HeaderLength
      && h[..6] == Magic
      && h[6] == BrightnessCode(brightness) && h[6] <= 3
      && h[7] == 0 && h[16] == 0 && h[50..] == [0, 0, 0, 0]
      && (forall i :: 0 <= i < SlotMax ==> h[8 + i] == Mode(Padded(slots)[i]))
      && (forall i :: 0 <= i < SlotMax ==>
            h[17 + 4 * i .. 21 + 4 * i] == Entry(Sum(PaddedColumns(slots)[..i]), PaddedColumns(slots)[i]))
      && (forall i: nat :: Bit(h[49], i) == if i < SlotMax && Padded(slots)[i].motion == Laser then 1 else 0)
  {
    var h := BuildHeader(brightness, slots).value;
    var p := Padded(slots);
    var cs := Columns(p);
    var offs := Offsets(cs);
    OffsetsArePrefixSums(cs);
    TableAt(offs, cs, SlotMax);
    var t := Table(offs, cs, SlotMax);
    assert h[17..49] == t;
    forall i | 0 <= i < SlotMax
      ensures h[17 + 4 * i .. 21 + 4 * i] == Entry(Sum(cs[..i]), cs[i])
    {
      assert h[17 + 4 * i .. 21 + 4 * i] == t[4 * i .. 4 * i + 4];
    }
  }

  /**
   * Reading the table back: every offset and column count is recovered from
   * its two big-endian bytes, offset 0 is 0 and each offset is the previous
   * offset plus the previous slot's column count.
   */
  lemma TableReadBack(brightness: Brightness, slots: seq<Slot>)
    requires BuildHeader(brightness, slots).Ok?
    ensures var h := BuildHeader(brightness, slots).value;
      && |h| == HeaderLength
      && Word(h, 17) == 0
      && (forall i :: 0 <= i < SlotMax ==> Word(h, 19 + 4 * i) == PaddedColumns(slots)[i])
      && (forall i :: 0 <= i < SlotMax ==> Word(h, 17 + 4 * i) == Sum(PaddedColumns(slots)[..i]))
      && (forall i :: 1 <= i < SlotMax ==> Word(h, 17 + 4 * i) == Word(h, 17 + 4 * (i - 1)) + Word(h, 19 + 4 * (i - 1)))
  {
    var h := BuildHeader(brightness, slots).value;
    var cs := PaddedColumns(slots);
    HeaderLayout(brightness, slots);
    HeaderOkIff(brightness, slots);
    forall i | 0 <= i < SlotMax
      ensures Word(h, 19 + 4 * i) == cs[i] && Word(h, 17 + 4 * i) == Sum(cs[..i])
    {
      var e := h[17 + 4 * i .. 21 + 4 * i];
      assert e == Entry(Sum(cs[..i]), cs[i]);
      assert h[17 + 4 * i] == e[0] && h[18 + 4 * i] == e[1];
      assert h[19 + 4 * i] == e[2] && h[20 + 4 * i] == e[3];
      SumPrefixBound(cs, i);
      EntryDecodes(Sum(cs[..i]), cs[i]);
    }
    assert cs[..0] == [];
    forall i | 1 <= i < SlotMax
      ensures Word(h, 17 + 4 * i) == Word(h, 17 + 4 * (i - 1)) + Word(h, 19 + 4 * (i - 1))
    {
      var j := i - 1;
      assert 17 + 4 * (i - 1) == 17 + 4 * j && 19 + 4 * (i - 1) == 19 + 4 * j;
      assert Word(h, 17 + 4 * j) == Sum(cs[..j]) && Word(h, 19 + 4 * j) == cs[j];
      SumPrefixStep(cs, j);
    }
  }

  /** A table entry holds both 16-bit values, high byte first. */
  lemma EntryDecodes(off: nat, c: nat)
    requires off <= Max16 && c <= Max16
    ensures var e := Entry(off, c); (e[0] as int) * 256 + e[1] == off && (e[2] as int) * 256 + e[3] == c
  {
  }

  /** Two slots that agree on everything but the bitmap. */
  predicate SameAttributes(a: Slot, b: Slot) {
    a.columns == b.columns && a.border == b.border && a.blink == b.blink
    && a.speed == b.speed && a.motion == b.motion
  }

  /** The header never depends on the bitmaps, only on the slot attributes. */
  lemma HeaderIgnoresBitmaps(brightness: Brightness, slots: seq<Slot>, others: seq<Slot>)
    requires |slots| == |others|
    requires forall i :: 0 <= i < |slots| ==> SameAttributes(slots[i], others[i])
    ensures BuildHeader(brightness, slots) == BuildHeader(brightness, others)
  {
    var p, q := Padded(slots), Padded(others);
    assert forall i :: 0 <= i < SlotMax ==> SameAttributes(p[i], q[i]);
    assert Columns(p) == Columns(q);
    assert LaserFlags(p) == LaserFlags(q);
    assert Modes(p) == Modes(q);
  }

  /**
   * Slots past the eighth never reach the header: it is the header of the
   * first eight slots.
   */
  lemma HeaderTruncates(brightness: Brightness, slots: seq<Slot>)
    requires |slots| > SlotMax
    ensures BuildHeader(brightness, slots) == BuildHeader(brightness, slots[..SlotMax])
  {
    assert Padded(slots) == Padded(slots[..SlotMax]);
  }
}
