# M1-8 badge frame encoder, modelled in Dafny

This project models the frame encoder of `m1-8-writer`. The tool writes
bitmaps to an M1-8 matrix LED name badge over a serial link. The encoder
takes a brightness and a list of slots; the badge has eight. A slot is a packed bitmap
plus its playback attributes: border, blink, speed and motion. The encoder
turns them into the exact byte frame the badge expects:

- a 54-byte header: the magic number `Ahello`, the brightness code, one mode
  byte per slot, a big-endian offset/length table and a Laser bitmask;
- the body: the slots' rows interleaved line by line;
- a gap of 32 zero bytes, placed after the first 16 body bytes.

The step of `load_image` that thresholds grey pixels and packs them eight to
a byte is modelled too.

Everything in the core is a pure function in the source, so the model is
plain functions and lemmas, with no classes and no loops:

- `bits.dfy` (`Bits`): the `Byte` type (0..255, the values Python's `bytes()`
  accepts), powers of two, `Bit(x, i)` (proved equal to `(x >> i) & 1`), the
  idiom `sum(x << i for i, x in enumerate(f))` and its bit layout, and sums
  and concatenation of sequences.
- `slots.dfy` (`Slots`): `Brightness`, `Speed` (0..7), `Motion`, `Slot`,
  the default slot, and `Mode` (`Slot.get_mode`) with its decoder.
- `header.dfy` (`Header`): `_build_header`. This covers padding to eight
  slots, running offsets (`itertools.accumulate`), the 16-bit overflow errors,
  the table and the Laser mask.
- `body.dfy` (`Body`): `_build_body`, written as Python's `zip` over
  `zip(*[iter(b)] * c)` groupings. It is proved equal to an independent
  line-by-line interleaving.
- `payload.dfy` (`Payload`): the payload expression of `write_payload`, its
  inverse (cutting the gap back out), and the whole encoder `Encode`. It
  also proves table alignment: for at most eight slots, the offsets in the
  header point at where each slot's row sits in every body line.
- `bitmap.dfy` (`Bitmap`): thresholding and 8-pixel packing.
- `scenarios.dfy` (`Scenarios`): two concrete frames worked through the
  model, and a nine-slot list whose header no longer matches its body.
- `wrappers.dfy` (`Wrappers`): `Option` and `Result`.

Errors are values. `BuildHeader` returns `Err(ColumnsTooLarge(columns))` or
`Err(OffsetTooLarge(offsets))` where the source raises `RuntimeError` with
that list in the message. Python's `bytes()` would raise `ValueError` on a
value outside 0..255. The `Byte` subset type makes the verifier prove that
this never happens.

Three behaviours of the code are easy to get wrong; the model follows the
code:

- More than eight slots are not rejected. The header uses the first eight
  (`HeaderTruncates`). The body still interleaves every slot given
  (`BodyAt` holds for every slot index). The header then no longer describes
  the body: its offset 7 plus columns 7 is the sum of the first eight column
  counts, while every body line holds the columns of all slots; nine
  one-column slots give 8 against 9 (`NineSlotsMisalign`). The alignment
  lemmas `TableWords` and `PaddedColumnSum` hold for at most eight slots.
- A slot with zero columns does not just add zero bytes per line. It empties
  the whole body, because its `zip()` yields nothing and so the outer `zip`
  yields nothing (`EmptyBody`).
- A bitmap whose length is not a multiple of its column count is not
  rejected. Its partial last row is dropped.

## Model

| member | source | states |
|---|---|---|
| `Slots.Mode` | m18writer/writer.py:71-77 | `get_mode`: no contract beyond its result type `Byte` (the sum fits in 0..255); specified by `ModeRoundTrip`, `LaserModeIsLeftMode` and `ModeIgnoresBitmap` |
| `Slots.Columns` | m18writer/writer.py:86 | `[x.columns for x in slot_list]`: no contract of its own; specified by `PaddedColumns` |
| `Slots.ModeRoundTrip` | m18writer/writer.py:71-77 | decoding the mode byte gives back border (bit 7), speed (bits 6-4), blink (bit 3) and the motion code modulo 8 (bits 2-0); the sum always fits in a byte because the speed is 0..7 |
| `Slots.LaserModeIsLeftMode` | m18writer/writer.py:50-77 | LASER (0b1000) contributes 0 to the 3-bit motion field: a Laser slot's mode byte equals that of the same slot with motion LEFT |
| `Slots.ModeIgnoresBitmap` | m18writer/writer.py:62-77 | the mode byte does not depend on a slot's bitmap or column count |
| `Slots.DecodeMode` | m18writer/writer.py:71-77 | the reader of a mode byte; its motion field is below 8 |
| `Header.Padded` | m18writer/writer.py:81 | the padded list has exactly 8 slots; slot i is the caller's slot i when there is one and the default `Slot()` otherwise |
| `Header.PaddedColumns` | m18writer/writer.py:81-86 | the column counts of the padded list: the caller's counts, then 0 for the default slots |
| `Header.Accumulate` | m18writer/writer.py:87 | `itertools.accumulate` gives one running total per column count |
| `Header.AccumulateAt` | m18writer/writer.py:87 | running total i is the start value plus the sum of the first i + 1 column counts |
| `Header.Offsets` | m18writer/writer.py:87 | `[0] + accumulate(...)` has one entry more than the slot list and starts at 0 |
| `Header.OffsetsArePrefixSums` | m18writer/writer.py:87 | offset i is the sum of the column counts of slots 0 .. i-1 |
| `Header.OffsetsMax` | m18writer/writer.py:87-95 | some offset exceeds 0xffff iff the sum of all 8 column counts does, because the last offset is the largest |
| `Header.Modes` | m18writer/writer.py:83 | `[m.get_mode() for m in slot_list]`: no contract of its own; specified by `HeaderLayout` (byte 8+i is the mode of padded slot i) |
| `Header.LaserFlags` | m18writer/writer.py:85 | `int(x.motion == Motion.LASER)` per padded slot: no contract of its own; specified by `LaserMask` |
| `Header.LaserMask` | m18writer/writer.py:85 | bit i of the mask is set iff padded slot i has motion LASER; there are no bits above the list length, and the mask is below 2^len |
| `Header.Entry` | m18writer/writer.py:104-105 | one table entry: no contract of its own; specified by `EntryDecodes` and `TableAt` |
| `Header.Table` | m18writer/writer.py:103-107 | the table of n entries is 4n bytes long |
| `Header.TableAt` | m18writer/writer.py:103-107 | bytes 4x .. 4x+3 of the table are entry x: `[off >> 8, off & 0xff, col >> 8, col & 0xff]` |
| `Header.BuildHeader` | m18writer/writer.py:80-110 | a successful header is exactly 54 bytes |
| `Header.HeaderOkIff` | m18writer/writer.py:86-95 | the header fails iff some padded column count exceeds 0xffff (reported as ColumnsTooLarge with the column list) or the total of all 8 does (OffsetTooLarge with the offset list) |
| `Header.HeaderLayout` | m18writer/writer.py:97-110 | bytes 0-5 are the magic number; byte 6 is the brightness code (at most 3); bytes 7, 16 and 50-53 are 0; byte 8+i is the mode of padded slot i; bytes 17+4i .. 20+4i are the entry for offset_i and columns_i; bit i of byte 49 is set iff padded slot i is LASER, and no other bit of byte 49 is set |
| `Header.TableReadBack` | m18writer/writer.py:103-107 | the big-endian words read back give column i and offset i; offset 0 is 0, and offset i is offset i-1 plus columns i-1 |
| `Header.EntryDecodes` | m18writer/writer.py:104-105 | both 16-bit values of an entry are recovered from their high and low bytes |
| `Header.HeaderIgnoresBitmaps` | m18writer/writer.py:80-110 | two slot lists that differ only in their bitmaps give the same header |
| `Header.HeaderTruncates` | m18writer/writer.py:81 | a list of more than 8 slots gives the header of its first 8 slots |
| `Body.Chunks` | m18writer/writer.py:116 | `zip(*[iter(b)] * c)` for c > 0: no contract of its own; specified by `ChunksShape` |
| `Body.SlotRows` | m18writer/writer.py:116 | one slot's rows, none when columns is 0: no contract of its own; specified by `SlotRowsShape` |
| `Body.Zip` | m18writer/writer.py:116 | Python's `zip(*rs)`: no contract of its own; specified by `ZipShape` |
| `Body.BuildBody` | m18writer/writer.py:113-117 | `_build_body`: no contract of its own; specified by `BodyIsInterleaved`, `BodyLength`, `BodyAt` and `EmptyBody` |
| `Body.ChunksShape` | m18writer/writer.py:116 | `zip(*[iter(b)] * c)` yields len(b) // c groups; group r is bytes r·c .. r·c+c-1; a partial trailing group is dropped |
| `Body.ZipShape` | m18writer/writer.py:116 | `zip(*rs)` yields as many tuples as the shortest argument has elements (none without arguments); element i of tuple r is element r of argument i |
| `Body.SlotRowsShape` | m18writer/writer.py:116 | a slot yields len(bitmap) // columns rows (none when columns is 0); row r is bytes r·columns .. r·columns+columns-1 |
| `Body.RowCountIsMinLength` | m18writer/writer.py:116 | the body's row count is the fewest rows of any slot |
| `Body.BodyIsInterleaved` | m18writer/writer.py:113-117 | the body equals the reference layout: for r = 0 .. R-1, row r of every slot in slot order, with R the minimum over slots of len(bitmap) // columns |
| `Body.BodyLength` | m18writer/writer.py:113-117 | the body has R · Σcolumns bytes |
| `Body.BodyAt` | m18writer/writer.py:113-117 | byte k of row r of slot i is body byte r·Σcolumns + (columns of slots before i) + k, for every row below R and every slot, including slots past the eighth |
| `Body.EmptyBody` | m18writer/writer.py:113-117 | the body is empty iff there are no slots, or some slot has 0 columns, or some slot's bitmap is shorter than one row |
| `Payload.Assemble` | m18writer/writer.py:157 | `header + body[:16] + bytes(32) + body[16:]`: no contract of its own; specified by `AssembleLayout` and `UnframeAssemble` |
| `Payload.AssembleLayout` | m18writer/writer.py:157 | the payload is 32 bytes longer than header plus body; the header comes first, then body[:min(16, len)], then 32 zero bytes, then body[16:] |
| `Payload.Unframe` | m18writer/writer.py:157 | a frame can be read back iff it holds at least a header and the gap |
| `Payload.UnframeAssemble` | m18writer/writer.py:157 | cutting the gap out of an assembled payload gives back its 54-byte header and its body, and the gap is all zeros |
| `Payload.AssembleUnframe` | m18writer/writer.py:157 | every frame with a zero gap is the assembly of the header and body it reads back as |
| `Payload.Encode` | m18writer/writer.py:154-157 | `write_payload` up to the serial write: no contract of its own; specified by `EncodeSpec` |
| `Payload.EncodeSpec` | m18writer/writer.py:154-157 | a payload is produced iff the header builds (with the same error otherwise); its length is 54 + 32 + R·Σcolumns, and it reads back as that header and that body |
| `Payload.TableAligned` | m18writer/writer.py:87-107 | for i at most 8 and at most the list length, the table offset of slot i (the sum of the padded column counts before i) equals `ColumnsBefore(slots, i)`, where `BodyAt` places slot i's row within each body line |
| `Payload.PaddedColumnSum` | m18writer/writer.py:81-87 | for at most 8 slots, the padded column counts add up to `ColumnSum`, the length of one body line |
| `Payload.TableWords` | m18writer/writer.py:103-117 | for at most 8 slots, the words read back from a built header give, for each slot i, `ColumnsBefore(slots, i)` and its column count, and offset 7 plus columns 7 is the body line length; with `BodyAt`, byte k of row r of slot i is body byte r·(offset 7 + columns 7) + offset i + k |
| `Bits.ShiftSumBits` | m18writer/writer.py:85 | `sum(x << i for i, x in enumerate(f))` over 0/1 flags: bit i is flag i, higher bits are 0, and the sum is below 2^len(f) |
| `Bits.BitIsShift` | m18writer/writer.py:85 | `Bit(x, i)`, the bit reader used for the Laser mask built at line 85 and the packed bytes built at line 129, is `(x >> i) & 1` on naturals |
| `Bitmap.Binarize` | m18writer/writer.py:124-127 | `[1 if x > threshold else 0 ...]`: one 0/1 pixel per grey value; which value each pixel takes is stated by `PackGreyBit` |
| `Bitmap.GroupValue` | m18writer/writer.py:129 | a group of up to 8 pixels becomes a byte below 2^len: its pixel k is bit len-1-k, and no higher bit is set |
| `Bitmap.Group` | m18writer/writer.py:129-130 | group j is `pixels[8j : 8j+8]`: 8 pixels, or fewer (never none) for the last group |
| `Bitmap.Pack` | m18writer/writer.py:128-131 | the list of packed groups: no contract of its own; specified by `PackGreyLayout` through `PackGrey` |
| `Bitmap.PackGrey` | m18writer/writer.py:124-131 | thresholding then packing: no contract of its own; specified by `PackGreyBit`, `PackGreyLayout` and `FullGroupBits` |
| `Bitmap.PackGreyBit` | m18writer/writer.py:124-131 | pixel p is bit (group length - 1 - p % 8) of byte p // 8 and is 1 iff its grey value is above the threshold |
| `Bitmap.PackGreyLayout` | m18writer/writer.py:124-131 | the bitmap has ceil(n / 8) bytes; every pixel lands in its bit; a short last group packs only its own pixels, in the low bits |
| `Bitmap.FullGroupBits` | m18writer/writer.py:128-131 | in a full group, pixel 8j+k is bit 7-k of byte j |
| `Scenarios.TwoSlotsInterleave` | m18writer/writer.py:113-117 | two one-column slots [01 02] and [03 04] give the body 01 03 02 04 |
| `Scenarios.OneSlotHeader` | m18writer/writer.py:80-110 | one two-column slot at BRIGHTEST gives magic, 00 00, eight mode bytes 0x40, 00, entry 00 00 00 02, seven entries 00 02 00 00, mask 00 and four zero bytes |
| `Scenarios.OneSlotFrame` | m18writer/writer.py:154-157 | that slot's frame is the header, the four body bytes, then the 32 zero bytes, with no tail |
| `Scenarios.NineSlotsMisalign` | m18writer/writer.py:81-117 | nine one-column slots: the header's line length (offset 7 + columns 7) is 8, but `ColumnSum`, the length of a body line, is 9 |

## Left out

- Image handling in `load_image` is not modelled: opening the file, grey
  conversion, the bicubic resize by the float ratio `lines / height`, the
  column count `min(255, ceil(width / 8))`, and the crop to whole columns.
  These are library calls and floating point. The packing model takes the
  cropped grey values as input.
- `save_preview` is not modelled: it does numpy mask compositing and writes
  PNG files, which is image I/O.
- The serial transmission in `write_payload` (`serial.Serial(...)` and
  `.write`) is device I/O. The model stops at the payload, `Encode`.
- `main`: command-line parsing and the mapping from option strings to enum
  values, which is only table lookups.
- Logging setup, `setup.py` and `register.py`: side effects and packaging; no
  logic.
- A negative `columns` value is not modelled. Python accepts any int in the
  field, but here it is a `nat`. The source only ever sets it to a count.
- A speed outside 0..7, or a brightness or motion outside its enumeration,
  cannot be written in the model. In Python the effects differ by field. An
  integer motion is masked to its low three bits (`0b111 & self.motion`), so
  it never raises. A speed of 8..15 on a slot without a border gives a mode
  byte in 0x80..0xFF (bit 7 set, bits 6-4 holding speed - 8), which the badge
  reads as "border on": silent corruption. `bytes()` raises `ValueError` only
  when a mode or brightness value falls outside 0..255: above it (speed 8 with
  a border gives 0x100) or below it (speed -1 without a border gives -16).
- The model has no separate "malformed bitmap" error. The source has none:
  a bitmap whose length is not a multiple of its column count is truncated
  silently, as modelled.
- Python's `max()` on an empty list cannot occur in `_build_header` (the lists
  always have 8 and 9 entries), so that error is not modelled.
