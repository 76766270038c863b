/** Amounts trimmed to a number of decimals: rescaling, and the 72-bit packing. */
module TrimmedAmounts {
  import opened Basics
  import opened Decimals

  datatype TrimmedAmount = Trimmed(amount: int, decimals: int)

  datatype RangeError = DecimalsOutOfRange | AmountOutOfRange

  /** 2^64 */
  const AMOUNT_LIMIT: nat := 0x1_0000_0000_0000_0000

  // ---- Rescaling ----

  function Scale(amount: int, from: int, upto: int): int {
    if from == upto then amount
    else if from > upto then TruncDiv(amount, Pow10(from - upto))
    else amount * Pow10(upto - from)
  }

  function Untrim(t: TrimmedAmount, decimals: int): int {
    Scale(t.amount, t.decimals, decimals)
  }

  lemma ScaleUp(a: int, from: int, upto: int)
    requires from <= upto
    ensures Scale(a, from, upto) == a * Pow10(upto - from)
  {
  }

  lemma ScaleDown(a: int, from: int, upto: int)
    requires from >= upto
    ensures Scale(a, from, upto) == TruncDiv(a, Pow10(from - upto))
  {
  }

  lemma UpUp(a: int, f: int, m: int, t: int)
    requires f <= m <= t
    ensures Scale(Scale(a, f, m), m, t) == Scale(a, f, t)
  {
    PowAdd(m - f, t - m);
    assert a * Pow10(m - f) * Pow10(t - m) == a * Pow10(t - f);
  }

  lemma DownDown(a: int, f: int, m: int, t: int)
    requires f >= m >= t
    ensures Scale(Scale(a, f, m), m, t) == Scale(a, f, t)
  {
    PowAdd(f - m, m - t);
    TruncDivTwice(a, Pow10(f - m), Pow10(m - t));
    ScaleDown(a, f, m);
    ScaleDown(Scale(a, f, m), m, t);
    ScaleDown(a, f, t);
  }

  lemma UpBack(a: int, f: int, m: int)
    requires f <= m
    ensures Scale(Scale(a, f, m), m, f) == a
  {
    TruncDivUndoes(a, Pow10(m - f));
  }

  /** Through any m that keeps at least the coarser precision, the detour changes nothing. */
  lemma PathIndependent(a: int, f: int, m: int, t: int)
    requires m >= Min(f, t)
    ensures Scale(Scale(a, f, m), m, t) == Scale(a, f, t)
  {
    if f <= m <= t {
      UpUp(a, f, m, t);
    } else if f >= m >= t {
      DownDown(a, f, m, t);
    } else if f <= t {
      // up to t, up to m, back to t
      UpUp(a, f, t, m);
      UpBack(Scale(a, f, t), t, m);
    } else {
      // up to m, back to f, down to t
      DownDown(Scale(a, f, m), m, f, t);
      UpBack(a, f, m);
    }
  }

  lemma DownUp(a: int, f: int, m: int)
    requires m <= f
    ensures Scale(Scale(a, f, m), m, f) == a <==> a % Pow10(f - m) == 0
  {
    TruncDivRemainder(a, Pow10(f - m));
    ScaleDown(a, f, m);
    ScaleUp(Scale(a, f, m), m, f);
  }

  lemma {:induction false} CancelFactor(a: int, b: int, c: int)
    requires c > 0
    ensures a * c == b * c <==> a == b
  {
    if a < b {
      assert (b - a) * c > 0;
    } else if a > b {
      assert (a - b) * c > 0;
    }
  }

  /**
   * Through any m at all: the detour changes nothing exactly when the digits it drops
   * from the amount at the coarser precision are zeros.
   */
  lemma PathIndependentIff(a: int, f: int, m: int, t: int)
    ensures Scale(Scale(a, f, m), m, t) == Scale(a, f, t) <==>
      m >= Min(f, t) || Scale(a, f, Min(f, t)) % Pow10(Min(f, t) - m) == 0
  {
    if m >= Min(f, t) {
      PathIndependent(a, f, m, t);
    } else if f <= t {
      var back := Scale(Scale(a, f, m), m, f);
      UpUp(Scale(a, f, m), m, f, t);
      ScaleUp(back, f, t);
      ScaleUp(a, f, t);
      CancelFactor(back, a, Pow10(t - f));
      DownUp(a, f, m);
    } else {
      DownDown(a, f, t, m);
      DownUp(Scale(a, f, t), t, m);
    }
  }

  /** Down and up again: never a gain, and less than one coarse unit lost, on either side of zero. */
  lemma DownThenUpLoss(a: int, f: int, t: int)
    requires t <= f
    ensures var r := Scale(Scale(a, f, t), t, f);
      && (a >= 0 ==> 0 <= r <= a < r + Pow10(f - t))
      && (a <= 0 ==> r - Pow10(f - t) < a <= r <= 0)
  {
    TruncDivRemainder(a, Pow10(f - t));
    ScaleDown(a, f, t);
    ScaleUp(Scale(a, f, t), t, f);
  }

  // ---- The 72-bit packing ----

  function BitOr(x: nat, y: nat): nat {
    if x == 0 then y else if y == 0 then x
    else 2 * BitOr(x / 2, y / 2) + (if x % 2 == 1 || y % 2 == 1 then 1 else 0)
  }

  function Pow2(n: nat): (p: nat)
    ensures p > 0
  {
    if n == 0 then 1 else 2 * Pow2(n - 1)
  }

  /** Or-ing into bits that are clear adds. */
  lemma {:induction false} OrIntoClearBits(x: nat, k: nat, y: nat)
    requires y < Pow2(k)
    ensures BitOr(x * Pow2(k), y) == x * Pow2(k) + y
  {
    if k > 0 && x > 0 && y > 0 {
      var h := x * Pow2(k - 1);
      assert x * Pow2(k) == 2 * h;
      assert h > 0;
      OrIntoClearBits(x, k - 1, y / 2);
    }
  }

  function Encode(t: TrimmedAmount): (r: Result<nat, RangeError>)
  {
    if t.decimals < 0 || t.decimals > 255 then Err(DecimalsOutOfRange)
    else if t.amount < 0 || t.amount >= AMOUNT_LIMIT then Err(AmountOutOfRange)
    else Ok(BitOr(t.amount * Pow2(8), t.decimals))
  }

  /** Masking the low byte and shifting it out, on two's complement integers of any size. */
  function Decode(encoded: int): TrimmedAmount {
    Trimmed(encoded / 256, encoded % 256)
  }

  /** Decimals are checked first, then the amount; what is accepted is the amount followed by the decimals byte. */
  lemma EncodeIsSum(t: TrimmedAmount)
    ensures Encode(t).Ok? <==> 0 <= t.decimals <= 255 && 0 <= t.amount < 0x1_0000_0000_0000_0000
    ensures Encode(t) == Err(DecimalsOutOfRange) <==> !(0 <= t.decimals <= 255)
    ensures Encode(t).Ok? ==> Encode(t).value == t.amount * 256 + t.decimals
  {
    assert Pow2(8) == 256;
    if 0 <= t.decimals <= 255 && 0 <= t.amount {
      OrIntoClearBits(t.amount, 8, t.decimals);
    }
  }

  /** Decoding undoes encoding, and an encoding fits 72 bits. */
  lemma DecodeEncode(t: TrimmedAmount)
    requires Encode(t).Ok?
    ensures Encode(t).value < 0x100_0000_0000_0000_0000
    ensures Decode(Encode(t).value) == t
  {
    EncodeIsSum(t);
  }

  /** Encoding undoes decoding on the 72-bit values, and on no others. */
  lemma EncodeDecode(encoded: int)
    ensures Encode(Decode(encoded)) == Ok(encoded) <==> 0 <= encoded < 0x100_0000_0000_0000_0000
    ensures Encode(Decode(encoded)).Err? <==> !(0 <= encoded < 0x100_0000_0000_0000_0000)
  {
    EncodeIsSum(Decode(encoded));
  }

  /** Packed on one chain and untrimmed on another: the same amount as scaling it there directly. */
  lemma UntrimAfterTransport(amount: int, from: int, trimmed: int, upto: int)
    requires trimmed >= Min(from, upto)
    requires Encode(Trimmed(Scale(amount, from, trimmed), trimmed)).Ok?
    ensures var wire := Encode(Trimmed(Scale(amount, from, trimmed), trimmed)).value;
      Untrim(Decode(wire), upto) == Scale(amount, from, upto)
  {
    DecodeEncode(Trimmed(Scale(amount, from, trimmed), trimmed));
    PathIndependent(amount, from, trimmed, upto);
  }
}
