/**
 * The frame body (`_build_body`): each slot's bitmap cut into rows of
 * `columns` bytes, and the slots interleaved row by row, stopping at the
 * slot with the fewest rows.
 */
module Body {
  import opened Bits
  import opened Slots

  /**
   * `zip(*[iter(b)] * c)` for c > 0: consecutive groups of c bytes; a short
   * trailing group is dropped.
   */
  function Chunks(b: seq<Byte>, c: nat): seq<seq<Byte>>
    requires c > 0
    decreases |b|
  {
    if |b| < c then [] else [b[..c]] + Chunks(b[c..], c)
  }

  /** One more row of c bytes is one more multiple of c. */
  lemma DivStep(n: nat, c: nat)
    requires 0 < c <= n
    ensures n / c == 1 + (n - c) / c
  {
    var q := (n - c) / c;
    assert q * c <= n - c < q * c + c;
    assert (q + 1) * c == q * c + c;
    DivUnique(n, c, q + 1);
  }

  lemma LessThanDivisor(n: nat, c: nat)
    requires n < c
    ensures n / c == 0
  {
  }

  /** There are |b| / c chunks, and chunk r is bytes r * c .. r * c + c - 1 of b. */
  lemma {:induction false} ChunksShape(b: seq<Byte>, c: nat)
    requires c > 0
    ensures |Chunks(b, c)| == |b| / c
    ensures forall r :: 0 <= r < |Chunks(b, c)| ==> r * c + c <= |b| && Chunks(b, c)[r] == b[r * c .. r * c + c]
    decreases |b|
  {
    if |b| < c {
      LessThanDivisor(|b|, c);
    } else {
      var rest := b[c..];
      ChunksShape(rest, c);
      DivStep(|b|, c);
      forall r | 0 <= r < |Chunks(b, c)| ensures r * c + c <= |b| && Chunks(b, c)[r] == b[r * c .. r * c + c] {
        if r > 0 {
          assert Chunks(b, c)[r] == Chunks(rest, c)[r - 1];
          RowAfterFirst(r, c);
          assert rest[(r - 1) * c .. (r - 1) * c + c] == b[r * c .. r * c + c];
        }
      }
    }
  }

  /** Row r starts one row of c bytes after row r - 1 of what follows the first row. */
  lemma RowAfterFirst(r: nat, c: nat)
    requires r > 0
    ensures r * c == c + (r - 1) * c
  {
  }

  /** `zip(*[iter(s.bitmap)] * s.columns)`: no rows at all when columns is 0. */
  function SlotRows(s: Slot): seq<seq<Byte>> {
    if s.columns == 0 then [] else Chunks(s.bitmap, s.columns)
  }

  /** Some argument of a zip is already exhausted. */
  predicate AnyEmpty<T>(rs: seq<seq<T>>) {
    exists i :: 0 <= i < |rs| && |rs[i]| == 0
  }

  /**
   * Python's `zip(*rs)`: the tuple of first elements, then the zip of the
   * rest, until some argument runs out; with no arguments, nothing.
   */
  function Zip<T>(rs: seq<seq<T>>): seq<seq<T>>
    decreases if |rs| == 0 then 0 else |rs[0]|
  {
    if |rs| == 0 || AnyEmpty(rs) then []
    else
      [seq(|rs|, i requires 0 <= i < |rs| => rs[i][0])]
      + Zip(seq(|rs|, i requires 0 <= i < |rs| => rs[i][1..]))
  }

  /** The length of the shortest argument; 0 for no arguments, as zip yields nothing. */
  function MinLength<T>(rs: seq<seq<T>>): nat {
    if |rs| == 0 then 0
    else if |rs| == 1 then |rs[0]|
    else Min(|rs[0]|, MinLength(rs[1..]))
  }

  lemma {:induction false} MinLengthIsMin<T>(rs: seq<seq<T>>)
    ensures forall i :: 0 <= i < |rs| ==> MinLength(rs) <= |rs[i]|
    ensures |rs| > 0 ==> exists i :: 0 <= i < |rs| && MinLength(rs) == |rs[i]|
  {
    if |rs| > 1 {
      MinLengthIsMin(rs[1..]);
      assert forall i :: 1 <= i < |rs| ==> rs[1..][i - 1] == rs[i];
      if |rs[0]| > MinLength(rs[1..]) {
        var j :| 0 <= j < |rs| - 1 && MinLength(rs[1..]) == |rs[1..][j]|;
        assert MinLength(rs) == |rs[j + 1]|;
      }
    }
  }

  /** Any number that is at most every length and equal to one of them is the minimum. */
  lemma MinLengthUnique<T>(rs: seq<seq<T>>, m: nat)
    requires |rs| > 0
    requires forall i :: 0 <= i < |rs| ==> m <= |rs[i]|
    requires exists i :: 0 <= i < |rs| && m == |rs[i]|
    ensures MinLength(rs) == m
  {
    MinLengthIsMin(rs);
  }

  /** zip yields as many tuples as the shortest argument has elements; tuple r holds element r of each. */
  lemma {:induction false} ZipShape<T>(rs: seq<seq<T>>)
    ensures |Zip(rs)| == MinLength(rs)
    ensures forall r :: 0 <= r < |Zip(rs)| ==> |Zip(rs)[r]| == |rs|
    ensures forall r, i :: 0 <= r < |Zip(rs)| && 0 <= i < |rs| ==> r < |rs[i]| && Zip(rs)[r][i] == rs[i][r]
    decreases if |rs| == 0 then 0 else |rs[0]|
  {
    MinLengthIsMin(rs);
    if |rs| == 0 {
    } else if AnyEmpty(rs) {
      var i :| 0 <= i < |rs| && |rs[i]| == 0;
    } else {
      var tails := seq(|rs|, i requires 0 <= i < |rs| => rs[i][1..]);
      ZipShape(tails);
      MinLengthIsMin(tails);
      var j :| 0 <= j < |rs| && MinLength(rs) == |rs[j]|;
      assert |tails[j]| == MinLength(rs) - 1;
      MinLengthUnique(tails, MinLength(rs) - 1);
      forall r, i | 0 <= r < |Zip(rs)| && 0 <= i < |rs| ensures r < |rs[i]| && Zip(rs)[r][i] == rs[i][r] {
        if r > 0 {
          assert Zip(rs)[r] == Zip(tails)[r - 1];
          assert Zip(tails)[r - 1][i] == tails[i][r - 1];
        } else {
          assert Zip(rs)[0] == seq(|rs|, i requires 0 <= i < |rs| => rs[i][0]);
        }
      }
    }
  }

  /**
   * `_build_body`: the bytes of every tuple of rows that zip yields,
   * concatenated.
   */
  function BuildBody(slots: seq<Slot>): seq<Byte> {
    Flatten(Joined(Zip(AllRows(slots))))
  }

  /** `itertools.chain.from_iterable(x) for x in z`: each tuple's rows joined. */
  function Joined(z: seq<seq<seq<Byte>>>): seq<seq<Byte>> {
    seq(|z|, r requires 0 <= r < |z| => Flatten(z[r]))
  }

  /** The row lists zip is applied to, one per slot. */
  function AllRows(slots: seq<Slot>): seq<seq<seq<Byte>>> {
    seq(|slots|, i requires 0 <= i < |slots| => SlotRows(slots[i]))
  }

  /** The number of whole rows in a slot's bitmap: `len(bitmap) // columns`, 0 without columns. */
  function RowsOf(s: Slot): nat {
    if s.columns == 0 then 0 else |s.bitmap| / s.columns
  }

  /** The number of rows the body holds: the fewest rows of any slot, 0 without slots. */
  function RowCount(slots: seq<Slot>): nat {
    if |slots| == 0 then 0
    else if |slots| == 1 then RowsOf(slots[0])
    else Min(RowsOf(slots[0]), RowCount(slots[1..]))
  }

  /** Every slot has a row r. */
  predicate HasRow(slots: seq<Slot>, r: nat) {
    forall i :: 0 <= i < |slots| ==> r < RowsOf(slots[i])
  }

  /** Row r of a slot: bytes r * columns .. r * columns + columns - 1 of its bitmap. */
  function RowSlice(s: Slot, r: nat): seq<Byte> {
    var c := s.columns;
    if r * c + c <= |s.bitmap| then s.bitmap[r * c .. r * c + c] else []
  }

  /** Line r of the display: row r of every slot, in slot order. */
  function Line(slots: seq<Slot>, r: nat): seq<Byte> {
    if slots == [] then [] else RowSlice(slots[0], r) + Line(slots[1..], r)
  }

  /** The reference layout: lines 0 .. RowCount - 1, one after the other. */
  function Interleaved(slots: seq<Slot>): seq<Byte> {
    Flatten(Lines(slots))
  }

  function Lines(slots: seq<Slot>): seq<seq<Byte>> {
    seq(RowCount(slots), r requires 0 <= r < RowCount(slots) => Line(slots, r))
  }

  lemma SlotRowsShape(s: Slot)
    ensures |SlotRows(s)| == RowsOf(s)
    ensures forall r :: 0 <= r < RowsOf(s) ==> SlotRows(s)[r] == RowSlice(s, r)
  {
    if s.columns > 0 {
      ChunksShape(s.bitmap, s.columns);
    }
  }

  lemma {:induction false} RowCountIsMinLength(slots: seq<Slot>)
    ensures RowCount(slots) == MinLength(AllRows(slots))
  {
    var rs := AllRows(slots);
    if |slots| > 0 {
      SlotRowsShape(slots[0]);
    }
    if |slots| > 1 {
      RowCountIsMinLength(slots[1..]);
      assert rs[1..] == AllRows(slots[1..]);
    }
  }

  lemma {:induction false} RowCountBelow(slots: seq<Slot>, i: nat)
    requires i < |slots|
    ensures RowCount(slots) <= RowsOf(slots[i])
  {
    if i > 0 && |slots| > 1 {
      RowCountBelow(slots[1..], i - 1);
    }
  }

  lemma RowCountHasRow(slots: seq<Slot>, r: nat)
    requires r < RowCount(slots)
    ensures HasRow(slots, r)
  {
    forall i | 0 <= i < |slots| ensures r < RowsOf(slots[i]) {
      RowCountBelow(slots, i);
    }
  }

  lemma {:induction false} FlattenRowSlices(slots: seq<Slot>, r: nat)
    ensures Flatten(seq(|slots|, i requires 0 <= i < |slots| => RowSlice(slots[i], r))) == Line(slots, r)
  {
    if slots != [] {
      var rows := seq(|slots|, i requires 0 <= i < |slots| => RowSlice(slots[i], r));
      FlattenRowSlices(slots[1..], r);
      assert rows[1..] == seq(|slots[1..]|, i requires 0 <= i < |slots[1..]| => RowSlice(slots[1..][i], r));
    }
  }

  /** Tuple r that zip yields, concatenated, is line r. */
  lemma ZipLine(slots: seq<Slot>, r: nat)
    requires r < RowCount(slots)
    ensures r < |Zip(AllRows(slots))| && Flatten(Zip(AllRows(slots))[r]) == Line(slots, r)
  {
    var rs := AllRows(slots);
    ZipShape(rs);
    RowCountIsMinLength(slots);
    RowCountHasRow(slots, r);
    forall i | 0 <= i < |slots| ensures Zip(rs)[r][i] == RowSlice(slots[i], r) {
      SlotRowsShape(slots[i]);
    }
    assert Zip(rs)[r] == seq(|slots|, i requires 0 <= i < |slots| => RowSlice(slots[i], r));
    FlattenRowSlices(slots, r);
  }

  /** The body zip builds is exactly the reference interleaving. */
  lemma BodyIsInterleaved(slots: seq<Slot>)
    ensures BuildBody(slots) == Interleaved(slots)
  {
    var z := Zip(AllRows(slots));
    ZipShape(AllRows(slots));
    RowCountIsMinLength(slots);
    var n := RowCount(slots);
    assert |z| == n;
    forall r | 0 <= r < n ensures Flatten(z[r]) == Line(slots, r) {
      ZipLine(slots, r);
    }
    assert Joined(z) == Lines(slots);
  }

  /** The total column count of the slots: the length of one line. */
  function ColumnSum(slots: seq<Slot>): nat {
    Sum(Columns(slots))
  }

  lemma ColumnSumStep(slots: seq<Slot>)
    requires slots != []
    ensures ColumnSum(slots) == slots[0].columns + ColumnSum(slots[1..])
  {
    assert Columns(slots)[1..] == Columns(slots[1..]);
  }

  /** Columns of the slots before slot i: where slot i's row starts within a line. */
  function ColumnsBefore(slots: seq<Slot>, i: nat): nat
    requires i <= |slots|
  {
    ColumnSum(slots[..i])
  }

  /** A row below the row count is one whole row of the requested width. */
  lemma RowSliceFull(s: Slot, r: nat)
    requires r < RowsOf(s)
    ensures |RowSlice(s, r)| == s.columns
  {
    if s.columns > 0 {
      ChunksShape(s.bitmap, s.columns);
    }
  }

  /** Byte k of row r of a slot is byte r * columns + k of its bitmap. */
  lemma RowSliceAt(s: Slot, r: nat, k: nat)
    requires r < RowsOf(s) && k < s.columns
    ensures r * s.columns + k < |s.bitmap| && k < |RowSlice(s, r)|
    ensures RowSlice(s, r)[k] == s.bitmap[r * s.columns + k]
  {
    RowSliceFull(s, r);
  }

  /** A line holds the columns of every slot. */
  lemma {:induction false} LineLength(slots: seq<Slot>, r: nat)
    requires HasRow(slots, r)
    ensures |Line(slots, r)| == ColumnSum(slots)
  {
    if slots != [] {
      RowSliceFull(slots[0], r);
      assert HasRow(slots[1..], r) by {
        forall i | 0 <= i < |slots| - 1 ensures r < RowsOf(slots[1..][i]) {
          assert slots[1..][i] == slots[i + 1];
        }
      }
      LineLength(slots[1..], r);
      ColumnSumStep(slots);
    }
  }

  /** Within line r, slot i's row starts at ColumnsBefore(i). */
  lemma {:induction false} LineAt(slots: seq<Slot>, r: nat, i: nat, k: nat)
    requires HasRow(slots, r) && i < |slots| && k < slots[i].columns
    ensures ColumnsBefore(slots, i) + k < |Line(slots, r)| && k < |RowSlice(slots[i], r)|
    ensures Line(slots, r)[ColumnsBefore(slots, i) + k] == RowSlice(slots[i], r)[k]
  {
    var head, rest := RowSlice(slots[0], r), slots[1..];
    RowSliceFull(slots[0], r);
    assert Line(slots, r) == head + Line(rest, r);
    if i == 0 {
      assert slots[..0] == [];
    } else {
      assert HasRow(rest, r) by {
        forall j | 0 <= j < |rest| ensures r < RowsOf(rest[j]) {
          assert rest[j] == slots[j + 1];
        }
      }
      LineAt(rest, r, i - 1, k);
      ColumnsBeforeStep(slots, i);
      var x := ColumnsBefore(rest, i - 1) + k;
      assert ColumnsBefore(slots, i) + k == |head| + x;
      assert rest[i - 1] == slots[i];
    }
  }

  lemma ColumnsBeforeStep(slots: seq<Slot>, i: nat)
    requires 0 < i <= |slots|
    ensures ColumnsBefore(slots, i) == slots[0].columns + ColumnsBefore(slots[1..], i - 1)
  {
    assert slots[..i][1..] == slots[1..][..i - 1];
    ColumnSumStep(slots[..i]);
  }

  /** The lines the body is made of, each ColumnSum bytes long. */
  lemma LinesUniform(slots: seq<Slot>)
    ensures forall r :: 0 <= r < RowCount(slots) ==> |Line(slots, r)| == ColumnSum(slots)
  {
    forall r | 0 <= r < RowCount(slots) ensures |Line(slots, r)| == ColumnSum(slots) {
      RowCountHasRow(slots, r);
      LineLength(slots, r);
    }
  }

  /** The body holds RowCount lines of ColumnSum bytes each. */
  lemma BodyLength(slots: seq<Slot>)
    ensures |BuildBody(slots)| == RowCount(slots) * ColumnSum(slots)
  {
    BodyIsInterleaved(slots);
    LinesUniform(slots);
    FlattenUniformLength(Lines(slots), ColumnSum(slots));
  }

  /**
   * Where every bitmap byte lands: byte k of row r of slot i is body byte
   * r * ColumnSum + ColumnsBefore(i) + k, for every row below the row count.
   */
  lemma BodyAt(slots: seq<Slot>, r: nat, i: nat, k: nat)
    requires r < RowCount(slots) && i < |slots| && k < slots[i].columns
    ensures r * slots[i].columns + k < |slots[i].bitmap|
    ensures var at := r * ColumnSum(slots) + ColumnsBefore(slots, i) + k;
      at < |BuildBody(slots)| && BuildBody(slots)[at] == slots[i].bitmap[r * slots[i].columns + k]
  {
    InterleavedAt(slots, r, i, k);
    BodyIsInterleaved(slots);
  }

  lemma InterleavedAt(slots: seq<Slot>, r: nat, i: nat, k: nat)
    requires r < RowCount(slots) && i < |slots| && k < slots[i].columns
    ensures r * slots[i].columns + k < |slots[i].bitmap|
    ensures var at := r * ColumnSum(slots) + ColumnsBefore(slots, i) + k;
      at < |Interleaved(slots)| && Interleaved(slots)[at] == slots[i].bitmap[r * slots[i].columns + k]
  {
    var s, j := slots[i], ColumnsBefore(slots, i) + k;
    RowCountHasRow(slots, r);
    LineAt(slots, r, i, k);
    RowSliceAt(s, r, k);
    LinesUniform(slots);
    FlattenUniformAt(Lines(slots), ColumnSum(slots), r, j);
  }

  lemma {:induction false} RowCountZero(slots: seq<Slot>)
    ensures RowCount(slots) == 0 <==> |slots| == 0 || exists i :: 0 <= i < |slots| && RowsOf(slots[i]) == 0
  {
    if |slots| > 1 {
      RowCountZero(slots[1..]);
      assert forall i :: 1 <= i < |slots| ==> slots[1..][i - 1] == slots[i];
    }
    if |slots| > 0 {
      forall i | 0 <= i < |slots| ensures RowCount(slots) <= RowsOf(slots[i]) {
        RowCountBelow(slots, i);
      }
    }
  }

  lemma {:induction false} ColumnSumPositive(slots: seq<Slot>)
    requires |slots| > 0 && forall i :: 0 <= i < |slots| ==> slots[i].columns > 0
    ensures ColumnSum(slots) > 0
  {
    assert slots[0].columns > 0;
    ColumnSumStep(slots);
  }

  lemma RowsOfZero(s: Slot)
    ensures RowsOf(s) == 0 <==> s.columns == 0 || |s.bitmap| < s.columns
  {
    if s.columns > 0 && |s.bitmap| >= s.columns {
      DivStep(|s.bitmap|, s.columns);
    }
  }

  /**
   * The body is empty exactly when there are no slots, or some slot has no
   * columns, or some slot's bitmap is shorter than one row.
   */
  lemma EmptyBody(slots: seq<Slot>)
    ensures BuildBody(slots) == [] <==>
      |slots| == 0 || exists i :: 0 <= i < |slots| && (slots[i].columns == 0 || |slots[i].bitmap| < slots[i].columns)
  {
    BodyLength(slots);
    RowCountZero(slots);
    forall i | 0 <= i < |slots| ensures RowsOf(slots[i]) == 0 <==> slots[i].columns == 0 || |slots[i].bitmap| < slots[i].columns {
      RowsOfZero(slots[i]);
    }
    if RowCount(slots) > 0 {
      forall i | 0 <= i < |slots| ensures slots[i].columns > 0 {
        RowCountBelow(slots, i);
      }
      ColumnSumPositive(slots);
      assert RowCount(slots) * ColumnSum(slots) > 0;
    }
  }
}
