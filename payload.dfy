/**
 * The frame sent to the badge (`write_payload`, without the serial write):
 * the header, the first 16 body bytes, a gap of 32 zero bytes the device
 * requires, and the rest of the body.
 */
module Payload {
  import opened Bits
  import opened Wrappers
  import opened Slots
  import opened Header
  import opened Body

  /** Body bytes placed before the gap. */
  const BodyHeadLength: nat := 16
  /** Zero bytes between the body's head and its tail. */
  const GapLength: nat := 32

  function Zeros(n: nat): seq<Byte> {
    seq(n, _ => 0)
  }

  /** `header + body[:16] + bytes([0 for x in range(32)]) + body[16:]`. */
  function Assemble(header: seq<Byte>, body: seq<Byte>): seq<Byte> {
    var k := Min(BodyHeadLength, |body|);
    header + body[..k] + Zeros(GapLength) + body[k..]
  }

  /**
   * Where everything sits in an assembled frame: the header first, then up
   * to 16 body bytes, then the 32 zeros, then the remaining body bytes.
   */
  lemma AssembleLayout(header: seq<Byte>, body: seq<Byte>)
    ensures var p, h, k := Assemble(header, body), |header|, Min(BodyHeadLength, |body|);
      && |p| == h + GapLength + |body|
      && p[..h] == header
      && p[h .. h + k] == body[..k]
      && (forall j :: h + k <= j < h + k + GapLength ==> p[j] == 0)
      && p[h + k + GapLength ..] == body[k..]
  {
  }

  /** The 32 bytes where an assembled frame has its gap are all zero. */
  predicate GapIsZero(p: seq<Byte>)
    requires |p| >= HeaderLength + GapLength
  {
    var k := Min(BodyHeadLength, |p| - HeaderLength - GapLength);
    forall j :: HeaderLength + k <= j < HeaderLength + k + GapLength ==> p[j] == 0
  }

  /**
   * Reading a frame back: the 54-byte header, and the body with the gap
   * cut out; nothing for a frame too short to hold a header and a gap.
   */
  function Unframe(p: seq<Byte>): (r: Option<(seq<Byte>, seq<Byte>)>)
    ensures r.Some? <==> |p| >= HeaderLength + GapLength
  {
    if |p| < HeaderLength + GapLength then None
    else
      var k := Min(BodyHeadLength, |p| - HeaderLength - GapLength);
      Some((p[..HeaderLength], p[HeaderLength .. HeaderLength + k] + p[HeaderLength + k + GapLength ..]))
  }

  /** Cutting the gap out of an assembled frame gives back its header and body. */
  lemma UnframeAssemble(header: seq<Byte>, body: seq<Byte>)
    requires |header| == HeaderLength
    ensures GapIsZero(Assemble(header, body))
    ensures Unframe(Assemble(header, body)) == Some((header, body))
  {
    AssembleLayout(header, body);
    var k := Min(BodyHeadLength, |body|);
    assert body[..k] + body[k..] == body;
  }

  /** Every frame with a zero gap is the assembly of what it reads back as. */
  lemma AssembleUnframe(p: seq<Byte>)
    requires |p| >= HeaderLength + GapLength && GapIsZero(p)
    ensures Assemble(Unframe(p).value.0, Unframe(p).value.1) == p
  {
    var (header, body) := Unframe(p).value;
    var k := Min(BodyHeadLength, |p| - HeaderLength - GapLength);
    assert |body| == |p| - HeaderLength - GapLength;
    assert body[..k] == p[HeaderLength .. HeaderLength + k];
    assert body[k..] == p[HeaderLength + k + GapLength ..];
    assert p[HeaderLength + k .. HeaderLength + k + GapLength] == Zeros(GapLength);
    assert p == p[..HeaderLength] + p[HeaderLength .. HeaderLength + k]
              + p[HeaderLength + k .. HeaderLength + k + GapLength] + p[HeaderLength + k + GapLength ..];
  }

  /**
   * The whole frame for a brightness and a slot list: the header is built
   * first and, when it fails, no frame is produced.
   */
  function Encode(brightness: Brightness, slots: seq<Slot>): Result<seq<Byte>, HeaderError> {
    match BuildHeader(brightness, slots)
    case Err(e) => Err(e)
    case Ok(header) => Ok(Assemble(header, BuildBody(slots)))
  }

  /**
   * A frame is produced exactly when the header can be built; it is 54 + 32
   * bytes longer than the body, and reading it back yields that header and body.
   */
  lemma EncodeSpec(brightness: Brightness, slots: seq<Slot>)
    ensures Encode(brightness, slots).Ok? <==> BuildHeader(brightness, slots).Ok?
    ensures Encode(brightness, slots).Err? ==> Encode(brightness, slots).error == BuildHeader(brightness, slots).error
    ensures Encode(brightness, slots).Ok? ==>
      var p := Encode(brightness, slots).value;
      && |p| == HeaderLength + GapLength + RowCount(slots) * ColumnSum(slots)
      && Unframe(p) == Some((BuildHeader(brightness, slots).value, BuildBody(slots)))
  {
    if BuildHeader(brightness, slots).Ok? {
      BodyLength(slots);
      UnframeAssemble(BuildHeader(brightness, slots).value, BuildBody(slots));
    }
  }

  /**
   * Table alignment: for each of the first eight slots, the offset the
   * header gives slot i is the number of columns of the slots before it,
   * which is where slot i's row starts within every body line.
   */
  lemma TableAligned(slots: seq<Slot>, i: nat)
    requires i <= |slots| && i <= SlotMax
    ensures Sum(PaddedColumns(slots)[..i]) == ColumnsBefore(slots, i)
  {
    assert PaddedColumns(slots)[..i] == Columns(slots[..i]);
  }

  /** For at most eight slots, the padded column counts add up to the line length. */
  lemma PaddedColumnSum(slots: seq<Slot>)
    requires |slots| <= SlotMax
    ensures Sum(PaddedColumns(slots)) == ColumnSum(slots)
  {
    var cs, n := PaddedColumns(slots), |slots|;
    assert cs == cs[..n] + cs[n..];
    SumAppend(cs[..n], cs[n..]);
    TableAligned(slots, n);
    assert slots[..n] == slots;
    SumZeros(cs[n..]);
  }

  /**
   * The table read back from a header, for at most eight slots: entry i
   * holds ColumnsBefore(i) and slot i's columns, and offset 7 plus columns 7
   * is ColumnSum, the length of a body line. With BodyAt this says that the
   * table locates every slot's rows in the body: byte k of row r of slot i
   * is body byte r * (offset 7 + columns 7) + offset i + k.
   */
  lemma TableWords(brightness: Brightness, slots: seq<Slot>, h: seq<Byte>)
    requires BuildHeader(brightness, slots) == Ok(h) && |slots| <= SlotMax
    ensures |h| == HeaderLength
    ensures Word(h, 45) + Word(h, 47) == ColumnSum(slots)
    ensures forall i :: 0 <= i < |slots| ==>
      Word(h, 17 + 4 * i) == ColumnsBefore(slots, i) && Word(h, 19 + 4 * i) == slots[i].columns
  {
    var cs := PaddedColumns(slots);
    TableReadBack(brightness, slots);
    assert Word(h, 17 + 4 * 7) == Sum(cs[..7]) && Word(h, 19 + 4 * 7) == cs[7];
    SumPrefixStep(cs, 7);
    assert cs[..8] == cs;
    PaddedColumnSum(slots);
    forall i | 0 <= i < |slots|
      ensures Word(h, 17 + 4 * i) == ColumnsBefore(slots, i) && Word(h, 19 + 4 * i) == slots[i].columns
    {
      TableAligned(slots, i);
    }
  }
}
