/** Concrete frames worked through the model. */
module Scenarios {
  import opened Bits
  import opened Wrappers
  import opened Slots
  import opened Header
  import opened Body
  import opened Payload

  /** Two one-column slots of two rows each are interleaved row by row. */
  lemma TwoSlotsInterleave()
    ensures BuildBody([Slot([0x01, 0x02], 1, false, false, 4, Left), Slot([0x03, 0x04], 1, false, false, 4, Left)])
         == [0x01, 0x03, 0x02, 0x04]
  {
    var slots := [Slot([0x01, 0x02], 1, false, false, 4, Left), Slot([0x03, 0x04], 1, false, false, 4, Left)];
    assert RowCount(slots) == 2;
    BodyIsInterleaved(slots);
    assert Line(slots, 0) == [0x01, 0x03];
    assert Line(slots, 1) == [0x02, 0x04];
  }

  /** The slot of the one-slot scenario: two columns, two rows, default attributes. */
  function ScenarioSlot(): Slot {
    Slot([0xAA, 0x55, 0x0F, 0xF0], 2, false, false, 4, Left)
  }

  lemma OneSlotBody()
    ensures BuildBody([ScenarioSlot()]) == [0xAA, 0x55, 0x0F, 0xF0]
  {
    var slots := [ScenarioSlot()];
    assert RowCount(slots) == 2;
    BodyIsInterleaved(slots);
    assert Line(slots, 0) == [0xAA, 0x55];
    assert Line(slots, 1) == [0x0F, 0xF0];
  }

  lemma OneSlotColumns()
    ensures Columns(Padded([ScenarioSlot()])) == [2, 0, 0, 0, 0, 0, 0, 0]
  {
    var p := Padded([ScenarioSlot()]);
    assert p == [ScenarioSlot()] + seq(7, _ => DefaultSlot);
  }

  lemma OneSlotOffsets()
    ensures Columns(Padded([ScenarioSlot()])) == [2, 0, 0, 0, 0, 0, 0, 0]
    ensures Offsets(Columns(Padded([ScenarioSlot()]))) == [0, 2, 2, 2, 2, 2, 2, 2, 2]
  {
    OneSlotColumns();
    TwoThenZerosOffsets();
  }

  lemma TwoThenZerosOffsets()
    ensures Offsets([2, 0, 0, 0, 0, 0, 0, 0]) == [0, 2, 2, 2, 2, 2, 2, 2, 2]
  {
    var cs: seq<nat> := [2, 0, 0, 0, 0, 0, 0, 0];
    var zeros: seq<nat> := [0, 0, 0, 0, 0, 0, 0];
    assert cs[1..] == zeros;
    assert Accumulate(zeros[6..], 2) == [2];
    assert Accumulate(zeros[5..], 2) == [2, 2];
    assert Accumulate(zeros[4..], 2) == [2, 2, 2];
    assert Accumulate(zeros[3..], 2) == [2, 2, 2, 2];
    assert Accumulate(zeros[2..], 2) == [2, 2, 2, 2, 2];
    assert Accumulate(zeros[1..], 2) == [2, 2, 2, 2, 2, 2];
    assert Accumulate(zeros, 2) == [2, 2, 2, 2, 2, 2, 2];
    assert Accumulate(cs, 0) == [2, 2, 2, 2, 2, 2, 2, 2];
  }

  /** Table entry 0 = 00 00 00 02, entries 1-7 = 00 02 00 00. */
  function ScenarioTable(): seq<Byte> {
    [0x00, 0x00, 0x00, 0x02]
    + [0x00, 0x02, 0x00, 0x00] + [0x00, 0x02, 0x00, 0x00] + [0x00, 0x02, 0x00, 0x00] + [0x00, 0x02, 0x00, 0x00]
    + [0x00, 0x02, 0x00, 0x00] + [0x00, 0x02, 0x00, 0x00] + [0x00, 0x02, 0x00, 0x00]
  }

  lemma OneSlotTable()
    ensures var p := Padded([ScenarioSlot()]);
      Table(Offsets(Columns(p)), Columns(p), SlotMax) == ScenarioTable()
  {
    var p := Padded([ScenarioSlot()]);
    assert p == [ScenarioSlot()] + seq(7, _ => DefaultSlot);
    var cs := Columns(p);
    assert cs == [2, 0, 0, 0, 0, 0, 0, 0];
    OneSlotOffsets();
    var offs := Offsets(cs);
    assert Table(offs, cs, 1) == [0x00, 0x00, 0x00, 0x02];
    assert Table(offs, cs, 2) == Table(offs, cs, 1) + [0x00, 0x02, 0x00, 0x00];
    assert Table(offs, cs, 3) == Table(offs, cs, 2) + [0x00, 0x02, 0x00, 0x00];
    assert Table(offs, cs, 4) == Table(offs, cs, 3) + [0x00, 0x02, 0x00, 0x00];
    assert Table(offs, cs, 5) == Table(offs, cs, 4) + [0x00, 0x02, 0x00, 0x00];
    assert Table(offs, cs, 6) == Table(offs, cs, 5) + [0x00, 0x02, 0x00, 0x00];
    assert Table(offs, cs, 7) == Table(offs, cs, 6) + [0x00, 0x02, 0x00, 0x00];
    assert Table(offs, cs, 8) == Table(offs, cs, 7) + [0x00, 0x02, 0x00, 0x00];
  }

  lemma OneSlotModes()
    ensures Modes(Padded([ScenarioSlot()])) == seq(8, _ => 0x40)
  {
    var p := Padded([ScenarioSlot()]);
    assert Mode(ScenarioSlot()) == 0x40 && Mode(DefaultSlot) == 0x40;
    assert forall i :: 0 <= i < 8 ==> Mode(p[i]) == 0x40;
  }

  lemma OneSlotLaserMask()
    ensures LaserMask(Padded([ScenarioSlot()])) == 0
  {
    var p := Padded([ScenarioSlot()]);
    assert p == [ScenarioSlot()] + seq(7, _ => DefaultSlot);
    var f := LaserFlags(p);
    assert f == [0, 0, 0, 0, 0, 0, 0, 0];
    assert ShiftSumFrom(f, 7) == 0;
    assert ShiftSumFrom(f, 6) == 0;
    assert ShiftSumFrom(f, 5) == 0;
    assert ShiftSumFrom(f, 4) == 0;
    assert ShiftSumFrom(f, 3) == 0;
    assert ShiftSumFrom(f, 2) == 0;
    assert ShiftSumFrom(f, 1) == 0;
  }

  /** The header bytes of the one-slot scenario. */
  function ScenarioHeader(): seq<Byte> {
    Magic + [0x00, 0x00] + seq(8, _ => 0x40) + [0x00] + ScenarioTable() + [0x00, 0x00, 0x00, 0x00, 0x00]
  }

  /**
   * One two-column slot at the brightest setting: default mode bytes 0x40,
   * table entry 0 = 00 00 00 02 and entries 1-7 = 00 02 00 00, no Laser bit.
   */
  lemma OneSlotHeader()
    ensures BuildHeader(Brightest, [ScenarioSlot()]) == Ok(ScenarioHeader())
  {
    var slots := [ScenarioSlot()];
    OneSlotTable();
    OneSlotLaserMask();
    var p := Padded(slots);
    assert p == [ScenarioSlot()] + seq(7, _ => DefaultSlot);
    var cs := Columns(p);
    assert cs == [2, 0, 0, 0, 0, 0, 0, 0];
    assert !(exists c :: c in cs && c > Max16);
    var offs := Offsets(cs);
    OneSlotOffsets();
    assert offs == [0, 2, 2, 2, 2, 2, 2, 2, 2];
    assert !(exists o :: o in offs && o > Max16);
    OneSlotModes();
    var modes := Modes(p);
    var table := Table(offs, cs, SlotMax);
    var h := Magic + [BrightnessCode(Brightest), 0x00] + modes + [0x00] + table + [LaserMask(p), 0x00, 0x00, 0x00, 0x00];
    assert BuildHeader(Brightest, slots) == Ok(h);
    assert h == ScenarioHeader();
  }

  /** The whole four-byte body of the one-slot scenario sits before the gap. */
  lemma OneSlotFrame()
    ensures Encode(Brightest, [ScenarioSlot()]) == Ok(ScenarioHeader() + [0xAA, 0x55, 0x0F, 0xF0] + Zeros(GapLength))
  {
    OneSlotHeader();
    OneSlotBody();
    var body: seq<Byte> := [0xAA, 0x55, 0x0F, 0xF0];
    assert body[..4] == body && body[4..] == [];
    assert Assemble(ScenarioHeader(), body) == ScenarioHeader() + body + Zeros(GapLength);
  }

  /** Nine one-column slots of one row each. */
  function NineSlots(): seq<Slot> {
    seq(9, _ => Slot([0x01], 1, false, false, 4, Left))
  }

  /** The header of nine one-column slots counts only the first eight columns. */
  lemma NineSlotsHeaderWidth()
    ensures BuildHeader(Brightest, NineSlots()).Ok?
    ensures var h := BuildHeader(Brightest, NineSlots()).value; Word(h, 45) + Word(h, 47) == 8
  {
    var first := NineSlots()[..SlotMax];
    HeaderTruncates(Brightest, NineSlots());
    OnesSum(Columns(first));
    assert BuildHeader(Brightest, first).Ok? by {
      assert PaddedColumns(first) == Columns(first);
      HeaderOkIff(Brightest, first);
    }
    TableWords(Brightest, first, BuildHeader(Brightest, first).value);
  }

  /** Each body line of nine one-column slots holds nine bytes, and there is one line. */
  lemma NineSlotsBodyWidth()
    ensures ColumnSum(NineSlots()) == 9 && |BuildBody(NineSlots())| == 9
  {
    var slots := NineSlots();
    OnesSum(Columns(slots));
    assert forall i :: 0 <= i < |slots| ==> RowsOf(slots[i]) == 1;
    RowCountZero(slots);
    RowCountBelow(slots, 0);
    BodyLength(slots);
  }

  /**
   * With more than eight slots the header no longer describes the body: its
   * line length (offset 7 plus columns 7) counts eight columns, but each
   * body line holds nine.
   */
  lemma NineSlotsMisalign()
    ensures BuildHeader(Brightest, NineSlots()).Ok?
    ensures var h := BuildHeader(Brightest, NineSlots()).value;
      Word(h, 45) + Word(h, 47) < ColumnSum(NineSlots()) && |BuildBody(NineSlots())| == ColumnSum(NineSlots())
  {
    NineSlotsHeaderWidth();
    NineSlotsBodyWidth();
  }
}
