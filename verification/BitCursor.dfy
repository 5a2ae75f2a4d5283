/** Laws of the bit reader: composition, range, and agreement with whole-byte reads. */
module BitCursor {
  import opened Bytecode

  lemma {:induction false} BitsCompose(input: seq<Byte>, start: nat, m: nat, n: nat)
    ensures BitsValue(input, start, m + n) == BitsValue(input, start, m) * Pow2(n) + BitsValue(input, start + m, n)
  {
    if n > 0 {
      BitsCompose(input, start, m, n - 1);
      Distribute(BitsValue(input, start, m), Pow2(n - 1));
    }
  }

  lemma Distribute(a: int, p: int)
    ensures 2 * (a * p) == a * (2 * p)
  {
  }

  lemma {:induction false} BitsRange(input: seq<Byte>, start: nat, n: nat)
    ensures BitsValue(input, start, n) < Pow2(n)
  {
    if n > 0 { BitsRange(input, start, n - 1); }
  }

  /** Bits of one byte, as the shift-and-mask of the reader extracts them. */
  lemma {:induction false} BitsInByte(input: seq<Byte>, p: nat, b: nat, t: nat)
    requires p < |input| && b + t <= 8
    ensures BitsValue(input, 8 * p + b, t) == input[p] / Pow2(8 - b - t) % Pow2(t)
    decreases t
  {
    if t > 0 {
      BitsInByte(input, p, b, t - 1);
      BitPosition(p, b + t - 1);
      DigitStep(input[p], Pow2(8 - b - t), Pow2(t - 1));
    }
  }

  lemma BitPosition(p: nat, b: nat)
    requires b < 8
    ensures (8 * p + b) / 8 == p && (8 * p + b) % 8 == b
  {
  }

  lemma {:induction false} DigitStep(x: nat, d: nat, m: nat)
    requires d > 0 && m > 0
    ensures 2 * (x / (2 * d) % m) + x / d % 2 == x / d % (2 * m)
  {
    Halve(x, d);
    LowDigits(x / d, m);
  }

  lemma {:induction false} Halve(x: nat, d: nat)
    requires d > 0
    ensures x / (2 * d) == x / d / 2
  {
    var q := x / d;
    var r := x % d;
    assert x == q * d + r;
    var h := q / 2;
    var g := q % 2;
    assert q == 2 * h + g;
    assert x == h * (2 * d) + (g * d + r) by { Spread(h, g, d); }
    assert g * d + r < 2 * d;
    QuotientIs(x, 2 * d, h, g * d + r);
  }

  lemma {:induction false} HalveFirst(x: nat, d: nat)
    requires d > 0
    ensures x / (2 * d) == x / 2 / d
  {
    var h := x / 2;
    assert h == h / d * d + h % d;
    assert x == (h / d) * (2 * d) + (2 * (h % d) + x % 2) by { Spread2(h / d, d); }
    QuotientIs(x, 2 * d, h / d, 2 * (h % d) + x % 2);
  }

  lemma Spread(h: int, g: int, d: int)
    ensures (2 * h + g) * d == h * (2 * d) + g * d
  {
  }

  lemma {:induction false} QuotientIs(x: nat, d: nat, q: nat, r: nat)
    requires d > 0 && x == q * d + r && r < d
    ensures x / d == q && x % d == r
  {
    var e := x / d - q;
    assert x == (x / d) * d + x % d;
    assert e * d == r - x % d by { SpreadDifference(x / d, q, d); }
    if e > 0 { AtLeast(e, d); }
    if e < 0 { AtLeast(-e, d); NegateProduct(e, d); }
  }

  lemma SpreadDifference(a: int, b: int, d: int)
    ensures (a - b) * d == a * d - b * d
  {
  }

  lemma NegateProduct(e: int, d: int)
    ensures (-e) * d == -(e * d)
  {
  }

  lemma AtLeast(e: int, d: nat)
    requires e > 0
    ensures e * d >= d
  {
    assert e * d == d + (e - 1) * d;
  }

  lemma {:induction false} LowDigits(y: nat, p: nat)
    requires p > 0
    ensures y % (2 * p) == 2 * (y / 2 % p) + y % 2
  {
    var h := y / 2;
    assert h == h / p * p + h % p;
    assert y == (h / p) * (2 * p) + (2 * (h % p) + y % 2) by { Spread2(h / p, p); }
    QuotientIs(y, 2 * p, h / p, 2 * (h % p) + y % 2);
  }

  lemma Spread2(q: int, p: int)
    ensures 2 * (q * p) == q * (2 * p)
  {
  }

  lemma WholeByte(input: seq<Byte>, p: nat)
    requires p < |input|
    ensures BitsValue(input, 8 * p, 8) == input[p]
  {
    BitsInByte(input, p, 0, 8);
    Pow2Eight();
    ByteItself(input[p], Pow2(0), Pow2(8));
  }

  lemma ByteItself(x: Byte, d: nat, m: nat)
    requires d == 1 && m == 256
    ensures x / d % m == x
  {
  }

  lemma NoBits(input: seq<Byte>, start: nat)
    ensures BitsValue(input, start, 0) == 0
  {
  }

  lemma {:induction false} BitsAreBigEndian(input: seq<Byte>, at: nat, n: nat)
    requires at + n <= |input|
    ensures BitsValue(input, 8 * at, 8 * n) == BigEndian(input, at, n)
  {
    hide BitsValue, Pow2;
    if n == 0 {
      NoBits(input, 8 * at);
    } else {
      var start, m := 8 * at, 8 * (n - 1);
      BitsAreBigEndian(input, at, n - 1);
      BitsCompose(input, start, m, 8);
      Pow2Eight();
      WholeByte(input, at + n - 1);
      assert start + m == 8 * (at + n - 1);
    }
  }

  /** Aligned and with enough input, `ReadBits` of 8, 16, 24 or 32 bits is the big-endian
      `ReadU8/16/24/32`. */
  lemma ReadBitsIsReadFixed(vm: Vm, ip: nat, stream: bool, n: nat, slot: nat)
    requires 1 <= n <= 4 && vm.bit == 0 && vm.pos + n <= |vm.input| < U64_SIZE
    ensures ExecReadBits(vm, ip, stream, 8 * n, slot) == ReadFixed(vm, ip, stream, n, slot, false)
  {
    BitsAreBigEndian(vm.input, vm.pos, n);
    ModOfFixed(vm.input, vm.pos, n);
    assert BitsRemaining(vm) >= 8 * n;
    ByteCursor(vm.pos + n);
    assert MoveTo(vm, Cursor(vm) + 8 * n) == vm.(pos := vm.pos + n, bit := 0);
  }

  lemma ByteCursor(p: nat)
    ensures 8 * p / 8 == p && 8 * p % 8 == 0
  {
  }

  lemma ModOfFixed(input: seq<Byte>, at: nat, n: nat)
    requires at + n <= |input| && n <= 4
    ensures BigEndian(input, at, n) % U64_SIZE == FixedValue(input, at, n, false)
  {
  }

  /** Two reads of `m` and `n` bits are one read of `m + n` bits. */
  lemma {:induction false} ReadBitsCompose(vm: Vm, m: nat, n: nat)
    requires vm.bit < 8 && (vm.bit != 0 ==> vm.pos < |vm.input|)
    requires m + n <= 64 && BitsRemaining(vm) >= m + n
    ensures var mid := MoveTo(vm, Cursor(vm) + m);
            && BitsRemaining(mid) == BitsRemaining(vm) - m
            && MoveTo(mid, Cursor(mid) + n) == MoveTo(vm, Cursor(vm) + (m + n))
            && BitsValue(vm.input, Cursor(vm), m + n)
               == BitsValue(vm.input, Cursor(vm), m) * Pow2(n) + BitsValue(vm.input, Cursor(mid), n)
            && BitsValue(vm.input, Cursor(vm), m + n) < Pow2(64) == U64_SIZE
  {
    hide MoveTo, Cursor, BitsRemaining, BitsValue, Pow2;
    MovesCompose(vm, m, n);
    BitsCompose(vm.input, Cursor(vm), m, n);
    BitsRange(vm.input, Cursor(vm), m + n);
    Pow2Mono(m + n, 64);
    Pow2Sixty4();
  }

  lemma MovesCompose(vm: Vm, m: nat, n: nat)
    requires vm.bit < 8 && BitsRemaining(vm) >= m + n
    ensures var mid := MoveTo(vm, Cursor(vm) + m);
            && BitsRemaining(mid) == BitsRemaining(vm) - m && Cursor(mid) == Cursor(vm) + m
            && MoveTo(mid, Cursor(mid) + n) == MoveTo(vm, Cursor(vm) + (m + n))
  {
    hide BitsRemaining;
    var mid := MoveTo(vm, Cursor(vm) + m);
    assert Cursor(mid) == Cursor(vm) + m;
    RemainingIs(vm);
    RemainingIs(mid);
  }

  lemma RemainingIs(vm: Vm)
    requires vm.bit < 8
    ensures BitsRemaining(vm) == if Cursor(vm) <= 8 * |vm.input| then 8 * |vm.input| - Cursor(vm) else 0
  {
  }

  lemma NoSlice(input: seq<Byte>, at: nat)
    requires at <= |input|
    ensures SliceValue(input, at, 0) == BigEndian(input, at, 0) < Pow2(0)
  {
  }

  /** A slice of at most eight buffered bytes is their big-endian value. */
  lemma {:induction false} SliceIsBigEndian(input: seq<Byte>, at: nat, n: nat)
    requires n <= 8 && at + n <= |input| && at + n < U64_SIZE
    ensures SliceValue(input, at, n) == BigEndian(input, at, n) < Pow2(8 * n)
  {
    hide Pow2;
    if n == 0 {
      NoSlice(input, at);
    } else {
      SliceIsBigEndian(input, at, n - 1);
      EndianBound(input, at, n);
      Pow2Mono(8 * n, 64);
      Pow2Sixty4();
      SmallMod(at + n - 1);
      SmallMod(BigEndian(input, at, n - 1) * 256);
    }
  }
}
