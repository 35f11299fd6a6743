/**
 * Bytes, bits and the sequence arithmetic shared by the frame encoder:
 * powers of two, the i-th bit of a number, the Python idiom
 * `sum(x << i for i, x in enumerate(flags))`, sums and concatenation.
 */
module Bits {

  /** One byte of a frame: Python's `bytes(...)` accepts exactly these values. */
  type Byte = x: int | 0 <= x < 256

  function Min(a: int, b: int): int {
    if a <= b then a else b
  }

  function Pow2(n: nat): (r: nat)
    ensures r >= 1
  {
    if n == 0 then 1 else 2 * Pow2(n - 1)
  }

  /** Bit i of x, counting from the least significant bit: `(x >> i) & 1`. */
  function Bit(x: nat, i: nat): (b: nat)
    ensures b < 2
  {
    if i == 0 then x % 2 else Bit(x / 2, i - 1)
  }

  /** Every element is 0 or 1. */
  predicate IsFlags(f: seq<nat>) {
    forall i :: 0 <= i < |f| ==> f[i] <= 1
  }

  /** `sum(f[j] << j for j in range(i, len(f)))`. */
  function ShiftSumFrom(f: seq<nat>, i: nat): nat
    decreases |f| - i
  {
    if i >= |f| then 0 else f[i] * Pow2(i) + ShiftSumFrom(f, i + 1)
  }

  /** `sum(x << i for i, x in enumerate(f))`: flag i lands in bit i. */
  function ShiftSum(f: seq<nat>): nat {
    ShiftSumFrom(f, 0)
  }

  /** The same number read least significant flag first (Horner's scheme). */
  function FromFlags(f: seq<nat>): nat {
    if f == [] then 0 else f[0] + 2 * FromFlags(f[1..])
  }

  lemma {:induction false} ShiftSumFromIsHorner(f: seq<nat>, i: nat)
    requires i <= |f|
    ensures ShiftSumFrom(f, i) == Pow2(i) * FromFlags(f[i..])
    decreases |f| - i
  {
    if i < |f| {
      ShiftSumFromIsHorner(f, i + 1);
      assert f[i..][1..] == f[i + 1..];
      calc {
        ShiftSumFrom(f, i);
        f[i] * Pow2(i) + Pow2(i + 1) * FromFlags(f[i + 1..]);
        Pow2(i) * (f[i] + 2 * FromFlags(f[i + 1..]));
        Pow2(i) * FromFlags(f[i..]);
      }
    } else {
      assert f[i..] == [];
    }
  }

  lemma {:induction false} FromFlagsBits(f: seq<nat>, i: nat)
    requires IsFlags(f)
    ensures Bit(FromFlags(f), i) == if i < |f| then f[i] else 0
  {
    if f != [] {
      var rest := f[1..];
      assert IsFlags(rest) by {
        forall j | 0 <= j < |rest| ensures rest[j] <= 1 {
          assert rest[j] == f[j + 1];
        }
      }
      if i > 0 {
        assert FromFlags(f) / 2 == FromFlags(rest);
        FromFlagsBits(rest, i - 1);
      }
    } else if i > 0 {
      FromFlagsZero(i);
    }
  }

  lemma {:induction false} FromFlagsZero(i: nat)
    ensures Bit(0, i) == 0
  {
    if i > 0 {
      FromFlagsZero(i - 1);
    }
  }

  lemma {:induction false} FromFlagsBound(f: seq<nat>)
    requires IsFlags(f)
    ensures FromFlags(f) < Pow2(|f|)
  {
    if f != [] {
      var rest := f[1..];
      assert IsFlags(rest) by {
        forall j | 0 <= j < |rest| ensures rest[j] <= 1 {
          assert rest[j] == f[j + 1];
        }
      }
      FromFlagsBound(rest);
    }
  }

  /**
   * `sum(x << i for i, x in enumerate(f))` over 0/1 flags: bit i of the sum is
   * flag i, every higher bit is 0, and the sum stays below 2^|f|.
   */
  lemma ShiftSumBits(f: seq<nat>)
    requires IsFlags(f)
    ensures ShiftSum(f) < Pow2(|f|)
    ensures forall i: nat :: Bit(ShiftSum(f), i) == if i < |f| then f[i] else 0
  {
    ShiftSumFromIsHorner(f, 0);
    assert f[0..] == f;
    FromFlagsBound(f);
    forall i: nat ensures Bit(ShiftSum(f), i) == if i < |f| then f[i] else 0 {
      FromFlagsBits(f, i);
    }
  }

  function Sum(s: seq<nat>): nat {
    if s == [] then 0 else s[0] + Sum(s[1..])
  }

  lemma {:induction false} SumAppend(a: seq<nat>, b: seq<nat>)
    ensures Sum(a + b) == Sum(a) + Sum(b)
  {
    if a == [] {
      assert a + b == b;
    } else {
      assert (a + b)[1..] == a[1..] + b;
      SumAppend(a[1..], b);
    }
  }

  /** Sums of longer prefixes: `Sum(s[..i+1]) == Sum(s[..i]) + s[i]`. */
  lemma SumPrefixStep(s: seq<nat>, i: nat)
    requires i < |s|
    ensures Sum(s[..i + 1]) == Sum(s[..i]) + s[i]
  {
    assert s[..i + 1] == s[..i] + [s[i]];
    SumAppend(s[..i], [s[i]]);
  }

  /** A sequence of zeros sums to zero. */
  lemma {:induction false} SumZeros(s: seq<nat>)
    requires forall i :: 0 <= i < |s| ==> s[i] == 0
    ensures Sum(s) == 0
  {
    if s != [] {
      SumZeros(s[1..]);
    }
  }

  /** A sequence of ones sums to its length. */
  lemma {:induction false} OnesSum(s: seq<nat>)
    requires forall i :: 0 <= i < |s| ==> s[i] == 1
    ensures Sum(s) == |s|
  {
    if s != [] {
      OnesSum(s[1..]);
    }
  }

  /** Prefix sums never decrease, so none exceeds the total. */
  lemma {:induction false} SumPrefixBound(s: seq<nat>, i: nat)
    requires i <= |s|
    ensures Sum(s[..i]) <= Sum(s)
  {
    assert s == s[..i] + s[i..];
    SumAppend(s[..i], s[i..]);
  }

  function Flatten<T>(ss: seq<seq<T>>): seq<T> {
    if ss == [] then [] else ss[0] + Flatten(ss[1..])
  }

  /** Concatenating n pieces of length w gives n * w elements. */
  lemma {:induction false} FlattenUniformLength<T>(ss: seq<seq<T>>, w: nat)
    requires forall q :: 0 <= q < |ss| ==> |ss[q]| == w
    ensures |Flatten(ss)| == |ss| * w
  {
    if ss != [] {
      FlattenUniformLength(ss[1..], w);
      assert |ss| * w == w + (|ss| - 1) * w;
    }
  }

  /** In a concatenation of pieces of length w, piece q starts at q * w. */
  lemma {:induction false} FlattenUniformAt<T>(ss: seq<seq<T>>, w: nat, q: nat, j: nat)
    requires forall q :: 0 <= q < |ss| ==> |ss[q]| == w
    requires q < |ss| && j < w
    ensures q * w + j < |Flatten(ss)| && Flatten(ss)[q * w + j] == ss[q][j]
  {
    FlattenUniformLength(ss, w);
    if q > 0 {
      FlattenUniformLength(ss[1..], w);
      FlattenUniformAt(ss[1..], w, q - 1, j);
      assert q * w + j == w + ((q - 1) * w + j);
      assert ss[1..][q - 1] == ss[q];
    }
  }

  lemma MulAtLeast(a: int, c: nat)
    requires a >= 1
    ensures a * c >= c
  {
  }
  lemma DivUnique(n: nat, c: nat, q: nat)
    requires c > 0 && q * c <= n < q * c + c
    ensures n / c == q
  {
    var d, m := n / c, n % c;
    assert n == d * c + m;
    assert (d - q) * c == d * c - q * c;
    assert (q - d) * c == q * c - d * c;
    if d > q {
      MulAtLeast(d - q, c);
      assert false;
    } else if d < q {
      MulAtLeast(q - d, c);
      assert false;
    }
  }

  lemma MulAssociates(q: int, p: int)
    ensures (2 * p) * q == 2 * (q * p)
  {
  }

  /** Halving, then dividing by p, is dividing by 2p. */
  lemma HalveThenDivide(x: nat, p: nat)
    requires p > 0
    ensures (x / 2) / p == x / (2 * p)
  {
    var y := x / 2;
    var q, r := y / p, y % p;
    var qp := q * p;
    assert y == qp + r && r < p;
    assert x == 2 * y + x % 2;
    MulAssociates(q, p);
    assert (2 * p) * q <= x < (2 * p) * q + 2 * p;
    DivUnique(x, 2 * p, q);
  }

  /** Bit i of x is `(x >> i) & 1`, that is (x / 2^i) % 2. */
  lemma {:induction false} BitIsShift(x: nat, i: nat)
    ensures Bit(x, i) == (x / Pow2(i)) % 2
  {
    if i > 0 {
      BitIsShift(x / 2, i - 1);
      HalveThenDivide(x, Pow2(i - 1));
    }
  }
}
