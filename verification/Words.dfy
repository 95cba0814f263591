/** 64-bit words: the signed reading C gives a register, the raw reading the
    processor gives it, and the little-endian bytes both keep in memory. */
module Words {

  const TWO_63: int := 0x8000_0000_0000_0000
  const TWO_64: int := 0x1_0000_0000_0000_0000

  type byte = x: int | 0 <= x < 256
  type i64 = x: int | -0x8000_0000_0000_0000 <= x < 0x8000_0000_0000_0000
  type u64 = x: int | 0 <= x < 0x1_0000_0000_0000_0000

  // ----- the two readings of one word -----

  function ToU64(x: i64): (u: u64) {
    if x < 0 then x + TWO_64 else x
  }

  function ToI64(u: u64): (x: i64)
    ensures ToU64(x) == u
  {
    if u < TWO_63 then u else u - TWO_64
  }

  /** Two's-complement reduction of an exact result. */
  function Wrap(x: int): (r: i64) {
    ToI64(x % TWO_64)
  }

  predicate Fits(x: int) {
    -TWO_63 <= x < TWO_63
  }

  lemma WrapExact(x: int)
    requires Fits(x)
    ensures Wrap(x) == x
  {
    if x < 0 {
      assert x % TWO_64 == x + TWO_64;
    }
  }

  lemma WrapWord(u: u64)
    ensures Wrap(u) == ToI64(u)
  {
  }

  lemma {:induction false} ModShift(x: int, k: int)
    ensures (x + k * TWO_64) % TWO_64 == x % TWO_64
  {
    var q, r := x / TWO_64, x % TWO_64;
    assert x + k * TWO_64 == (q + k) * TWO_64 + r;
  }

  /** Wrapping forgets multiples of 2^64, so it may be postponed. */
  lemma WrapCongruent(x: int, y: int, k: int)
    requires x == y + k * TWO_64
    ensures Wrap(x) == Wrap(y)
  {
    ModShift(y, k);
  }

  lemma WrapWrap(x: int) returns (k: int)
    ensures Wrap(x) == x + k * TWO_64
  {
    k := -(x / TWO_64);
    if x % TWO_64 >= TWO_63 {
      k := k - 1;
    }
  }

  // ----- division that truncates toward zero -----

  function Abs(x: int): nat {
    if x < 0 then -x else x
  }

  function TruncDiv(x: int, y: int): int
    requires y != 0
  {
    var q := Abs(x) / Abs(y);
    if (x < 0) == (y < 0) then q else -q
  }

  function TruncMod(x: int, y: int): int
    requires y != 0
  {
    if x < 0 then -(Abs(x) % Abs(y)) else Abs(x) % Abs(y)
  }

  /** The C law a == (a/b)*b + a%b, with the remainder on the dividend's side. */
  lemma TruncDivMod(x: int, y: int)
    requires y != 0
    ensures x == TruncDiv(x, y) * y + TruncMod(x, y)
    ensures Abs(TruncMod(x, y)) < Abs(y)
    ensures x >= 0 ==> TruncMod(x, y) >= 0
    ensures x <= 0 ==> TruncMod(x, y) <= 0
  {
    var a, b := Abs(x), Abs(y);
    var q, r := Quotient(a, b);
    Signs(q, b);
  }

  lemma Signs(q: int, b: int)
    ensures q * (-b) == -(q * b) && (-q) * b == -(q * b) && (-q) * (-b) == q * b
  {
  }

  /** Only INT64_MIN / -1 leaves the 64-bit range. */
  lemma TruncDivFits(x: i64, y: i64)
    requires y != 0
    ensures Fits(TruncDiv(x, y)) <==> !(x == -TWO_63 && y == -1)
    ensures Fits(TruncMod(x, y))
  {
    var a, b := Abs(x), Abs(y);
    TruncDivMod(a, b);
    DivShrinks(a, b);
    if b == 1 {
      assert a / b == a;
    } else {
      DivHalves(a, b);
    }
  }

  lemma DivShrinks(a: nat, b: nat)
    requires b > 0
    ensures 0 <= a / b <= a && a % b <= a
  {
    var q: int := a / b;
    assert a == b * q + a % b;
    AtLeastOnce(b, q);
  }

  lemma {:induction false} ProductSign(x: nat, y: nat)
    ensures x * y >= 0
    decreases x
  {
    if x > 0 {
      ProductSign(x - 1, y);
      assert x * y == (x - 1) * y + y;
    }
  }

  lemma DivHalves(a: nat, b: nat)
    requires b >= 2
    ensures a / b <= a / 2
  {
    var q, r := Quotient(a, b);
    ProductSign(q, b - 2);
    assert q * b == q * 2 + q * (b - 2);
  }

  // ----- bitwise operations -----

  function Pow2(n: nat): (p: nat)
    ensures p >= 1
  {
    if n == 0 then 1 else 2 * Pow2(n - 1)
  }

  datatype BitOp = BitAnd | BitOr | BitXor

  function Combine(op: BitOp, x: nat, y: nat): nat
    requires x < 2 && y < 2
    ensures Combine(op, x, y) < 2
  {
    match op
    case BitAnd => if x == 1 && y == 1 then 1 else 0
    case BitOr => if x == 1 || y == 1 then 1 else 0
    case BitXor => if x != y then 1 else 0
  }

  /** The low `n` bits of `x` and `y` combined position by position. */
  function Bitwise(op: BitOp, x: nat, y: nat, n: nat): nat
    decreases x, n
  {
    if n == 0 then 0
    else Combine(op, x % 2, y % 2) + 2 * Bitwise(op, x / 2, y / 2, n - 1)
  }

  lemma {:induction false} BitwiseBound(op: BitOp, x: nat, y: nat, n: nat)
    ensures Bitwise(op, x, y, n) < Pow2(n)
    decreases n
  {
    if n > 0 {
      BitwiseBound(op, x / 2, y / 2, n - 1);
    }
  }

  function Bit(x: nat, k: nat): (b: nat)
    ensures b < 2
    decreases x, k
  {
    if k == 0 then x % 2 else Bit(x / 2, k - 1)
  }

  /** Bit k of x is its k-th digit in base 2. */
  lemma {:induction false} BitIsDigit(x: nat, k: nat)
    ensures Bit(x, k) == x / Pow2(k) % 2
    decreases k
  {
    if k > 0 {
      BitIsDigit(x / 2, k - 1);
      DivDiv(x, 2, Pow2(k - 1));
    }
  }

  /** Position by position AND is the product, OR the sum less the product, and
      XOR the sum modulo 2. */
  lemma {:induction false} BitwiseAtBit(x: nat, y: nat, n: nat, k: nat)
    requires k < n
    ensures Bit(Bitwise(BitAnd, x, y, n), k) == Bit(x, k) * Bit(y, k)
    ensures Bit(Bitwise(BitOr, x, y, n), k) == Bit(x, k) + Bit(y, k) - Bit(x, k) * Bit(y, k)
    ensures Bit(Bitwise(BitXor, x, y, n), k) == (Bit(x, k) + Bit(y, k)) % 2
    decreases n
  {
    BitwiseSplits(BitAnd, x, y, n);
    BitwiseSplits(BitOr, x, y, n);
    BitwiseSplits(BitXor, x, y, n);
    if k > 0 {
      BitwiseAtBit(x / 2, y / 2, n - 1, k - 1);
    }
    hide Bitwise;
  }

  /** The lowest bit of a combination, and the rest. */
  lemma BitwiseSplits(op: BitOp, x: nat, y: nat, n: nat)
    requires n > 0
    ensures Bitwise(op, x, y, n) % 2 == Combine(op, x % 2, y % 2)
    ensures Bitwise(op, x, y, n) / 2 == Bitwise(op, x / 2, y / 2, n - 1)
  {
    var rest := Bitwise(op, x / 2, y / 2, n - 1);
    var low := Combine(op, x % 2, y % 2);
    assert (low + 2 * rest) % 2 == low && (low + 2 * rest) / 2 == rest;
  }

  /** AND keeps the carries of a sum, OR and XOR what is left without them. */
  lemma {:induction false} BitwiseSums(x: nat, y: nat, n: nat)
    requires x < Pow2(n) && y < Pow2(n)
    ensures Bitwise(BitAnd, x, y, n) + Bitwise(BitOr, x, y, n) == x + y
    ensures Bitwise(BitXor, x, y, n) + 2 * Bitwise(BitAnd, x, y, n) == x + y
    decreases n
  {
    if n > 0 {
      BitwiseSums(x / 2, y / 2, n - 1);
    }
  }

  lemma Pow2At64()
    ensures Pow2(64) == TWO_64
  {
    Pow256IsPow2(8);
    Pow256Values();
  }

  function Bitwise64(op: BitOp, x: u64, y: u64): u64 {
    Pow2At64();
    BitwiseBound(op, x, y, 64);
    Bitwise(op, x, y, 64)
  }

  function Not64(x: u64): u64 {
    TWO_64 - 1 - x
  }

  /** Left by `count` positions, one position at a time, losing the top bit. */
  function Shl64(x: u64, count: nat): u64
    decreases count, x
  {
    if count == 0 then x else Shl64(2 * x % TWO_64, count - 1)
  }

  /** Right by `count` positions, zeros entering at the top. */
  function Shr64(x: u64, count: nat): u64
    decreases count, x
  {
    if count == 0 then x else Shr64(x / 2, count - 1)
  }

  lemma {:induction false} Shl64IsProduct(x: u64, count: nat)
    ensures Shl64(x, count) == x * Pow2(count) % TWO_64
    decreases count
  {
    if count > 0 {
      var p: int := Pow2(count - 1);
      var y := 2 * x % TWO_64;
      var k := 2 * x / TWO_64;
      Shl64IsProduct(y, count - 1);
      Rescale(x, p, y, k);
      ModShift(y * p, k * p);
    }
  }

  lemma Rescale(x: int, p: int, y: int, k: int)
    requires 2 * x == y + k * TWO_64
    ensures x * (2 * p) == y * p + (k * p) * TWO_64
  {
    assert x * (2 * p) == (y + k * TWO_64) * p;
  }

  lemma {:induction false} Shr64IsQuotient(x: u64, count: nat)
    ensures Shr64(x, count) == x / Pow2(count)
    decreases count
  {
    if count > 0 {
      Shr64IsQuotient(x / 2, count - 1);
      DivDiv(x, 2, Pow2(count - 1));
    }
  }

  lemma {:induction false} Pow2Add(m: nat, n: nat)
    ensures Pow2(m + n) == Pow2(m) * Pow2(n)
    decreases m
  {
    if m > 0 {
      Pow2Add(m - 1, n);
      assert Pow2(m) * Pow2(n) == 2 * (Pow2(m - 1) * Pow2(n));
    }
  }

  lemma OrEven(x: nat, y: nat, n: nat)
    requires n > 0
    ensures Bitwise(BitOr, x, 2 * y, n) == x % 2 + 2 * Bitwise(BitOr, x / 2, y, n - 1)
  {
    assert (2 * y) % 2 == 0 && (2 * y) / 2 == y;
  }

  lemma TimesPow2(y: nat, k: nat)
    requires k > 0
    ensures y * Pow2(k) == 2 * (y * Pow2(k - 1))
  {
    var p := Pow2(k - 1);
    assert y * (2 * p) == 2 * (y * p);
  }

  /** OR of two numbers that share no bit position adds them: this is how the
      byte loops assemble a word. */
  lemma {:induction false} OrDisjoint(x: nat, y: nat, k: nat, n: nat)
    requires k <= n && x < Pow2(k) && y < Pow2(n - k)
    ensures y * Pow2(k) >= 0 && Bitwise(BitOr, x, y * Pow2(k), n) == x + y * Pow2(k)
    decreases n
  {
    hide Bitwise;
    ProductSign(y, Pow2(k));
    if k == 0 {
      assert x == 0 && y * Pow2(k) == y;
      OrZero(y, n);
    } else {
      assert x / 2 < Pow2(k - 1);
      OrDisjoint(x / 2, y, k - 1, n - 1);
      TimesPow2(y, k);
      OrEven(x, y * Pow2(k - 1), n);
      hide Pow2;
    }
  }

  lemma {:induction false} OrZero(y: nat, n: nat)
    requires y < Pow2(n)
    ensures Bitwise(BitOr, 0, y, n) == y
    decreases n
  {
    if n > 0 {
      OrZero(y / 2, n - 1);
    }
  }

  lemma AndOdd(x: nat, m: nat, n: nat)
    requires n > 0 && m > 0
    ensures Bitwise(BitAnd, x, 2 * m - 1, n) == x % 2 + 2 * Bitwise(BitAnd, x / 2, m - 1, n - 1)
  {
    assert (2 * m - 1) % 2 == 1 && (2 * m - 1) / 2 == m - 1;
  }

  /** AND with a mask of k ones keeps the remainder modulo 2^k. */
  lemma {:induction false} AndMask(x: nat, k: nat, n: nat)
    requires k <= n
    ensures Bitwise(BitAnd, x, Pow2(k) - 1, n) == x % Pow2(k)
    decreases n
  {
    hide Bitwise;
    if k == 0 {
      assert Pow2(0) == 1;
      AndZero(x, n);
    } else {
      var m := Pow2(k - 1);
      AndMask(x / 2, k - 1, n - 1);
      AndOdd(x, m, n);
      HalfRemainder(x, m);
    }
  }

  lemma HalfRemainder(x: nat, m: nat)
    requires m > 0
    ensures x % (2 * m) == 2 * (x / 2 % m) + x % 2
  {
    var q, r := x / 2 / m, x / 2 % m;
    assert x / 2 == q * m + r;
    assert q * (2 * m) == 2 * (q * m);
    RemainderIs(x, 2 * m, q, 2 * r + x % 2);
  }

  lemma {:induction false} AndZero(x: nat, n: nat)
    ensures Bitwise(BitAnd, x, 0, n) == 0
    decreases n
  {
    if n > 0 {
      AndZero(x / 2, n - 1);
    }
  }

  lemma RemainderIs(x: nat, m: nat, q: nat, r: nat)
    requires x == q * m + r && r < m
    ensures x % m == r && x / m == q
  {
    var q', r' := x / m, x % m;
    assert x == q' * m + r';
    assert (q - q') * m == q * m - q' * m && (q' - q) * m == q' * m - q * m;
    if q > q' {
      AtLeastOnce(q - q', m);
    } else if q < q' {
      AtLeastOnce(q' - q, m);
    }
  }

  lemma AtLeastOnce(k: nat, m: nat)
    requires k >= 1
    ensures k * m >= m
  {
    assert k * m == m + (k - 1) * m;
  }

  /** NOT complements every bit: read as a signed number it is -x - 1. */
  lemma NotIsNegation(x: i64)
    ensures ToI64(Not64(ToU64(x))) as int == -(x as int) - 1
  {
  }

  // ----- little-endian bytes -----

  function Pow256(n: nat): (p: nat)
    ensures p >= 1
  {
    if n == 0 then 1 else 256 * Pow256(n - 1)
  }

  function Bytes(value: nat, n: nat): (b: seq<byte>)
    ensures |b| == n
    decreases value, n
  {
    if n == 0 then [] else [value % 256] + Bytes(value / 256, n - 1)
  }

  function Value(b: seq<byte>): (value: nat)
    ensures value < Pow256(|b|)
  {
    if b == [] then 0 else b[0] + 256 * Value(b[1..])
  }

  lemma {:induction false} ValueOfBytes(value: nat, n: nat)
    requires value < Pow256(n)
    ensures Value(Bytes(value, n)) == value
    decreases n
  {
    if n > 0 {
      ValueOfBytes(value / 256, n - 1);
      assert Bytes(value, n)[1..] == Bytes(value / 256, n - 1);
    }
  }

  lemma LowestByte(low: byte, v: nat)
    ensures (low + 256 * v) % 256 == low && (low + 256 * v) / 256 == v
  {
  }

  lemma {:induction false} BytesOfValue(b: seq<byte>)
    ensures Bytes(Value(b), |b|) == b
  {
    if b != [] {
      BytesOfValue(b[1..]);
      LowestByte(b[0], Value(b[1..]));
      assert b == [b[0]] + b[1..];
    }
  }

  lemma Pow256Values()
    ensures Pow256(2) == 0x1_0000 && Pow256(4) == 0x1_0000_0000 && Pow256(8) == TWO_64
  {
    assert Pow256(4) == 256 * (256 * (256 * (256 * Pow256(0))));
    assert Pow256(8) == 256 * (256 * (256 * (256 * Pow256(4))));
  }

  lemma {:induction false} Pow256IsPow2(n: nat)
    ensures Pow256(n) == Pow2(8 * n)
  {
    if n > 0 {
      Pow256IsPow2(n - 1);
      Pow2Add(8, 8 * n - 8);
      Pow2Add(4, 4);
      assert Pow2(4) == 2 * (2 * (2 * (2 * Pow2(0))));
    }
  }

  function ByteOf(value: nat, i: nat): byte {
    value / Pow256(i) % 256
  }

  /** The i-th byte of a word is what the shift-and-mask loops extract. */
  lemma {:induction false} ByteAt(value: nat, n: nat, i: nat)
    requires i < n
    ensures Bytes(value, n)[i] == ByteOf(value, i)
    decreases n
  {
    if i > 0 {
      ByteAt(value / 256, n - 1, i - 1);
      DivDiv(value, 256, Pow256(i - 1));
    }
  }

  lemma Quotient(x: nat, a: nat) returns (q: nat, r: nat)
    requires a > 0
    ensures q == x / a && r == x % a && x == q * a + r && r < a
  {
    q, r := x / a, x % a;
  }

  lemma DivDiv(x: nat, a: nat, b: nat)
    requires a > 0 && b > 0
    ensures a * b > 0 && x / a / b == x / (a * b)
  {
    var y, low := Quotient(x, a);
    var q, r := Quotient(y, b);
    Regroup(x, a, b, y, low, q, r);
    RemainderIs(x, a * b, q, a * r + low);
  }

  lemma Regroup(x: nat, a: nat, b: nat, y: nat, low: nat, q: nat, r: nat)
    requires x == y * a + low && y == q * b + r && low < a && r < b
    ensures x == q * (a * b) + (a * r + low) && a * r + low < a * b
  {
    Distribute(a, q, b, r);
    assert y * a == a * (q * b + r);
  }

  lemma Swap(a: nat, q: nat, b: nat)
    ensures a * (q * b) == q * (a * b)
  {
  }

  lemma Distribute(a: nat, q: nat, b: nat, r: nat)
    requires r < b
    ensures a * (q * b + r) == q * (a * b) + a * r
    ensures a * r <= a * b - a
  {
    Swap(a, q, b);
    Spread(a, q * b, r);
    var k := b - 1 - r;
    ProductSign(a, k);
    Spread(a, r + 1, k);
    Spread(a, r, 1);
  }

  lemma Spread(a: nat, x: nat, y: nat)
    ensures a * (x + y) == a * x + a * y
  {
  }

  /** A word grows by one byte at its most significant end. */
  lemma {:induction false} ValueSnoc(b: seq<byte>, x: byte)
    ensures Value(b + [x]) == Value(b) + x * Pow256(|b|)
  {
    if b == [] {
      assert Value([x]) == x + 256 * Value([]);
    } else {
      ValueSnoc(b[1..], x);
      assert (b + [x])[1..] == b[1..] + [x];
      assert 256 * (x * Pow256(|b| - 1)) == x * Pow256(|b|);
    }
  }

  lemma ByteAppended(raw: nat, b: byte, i: nat)
    requires i < 8 && raw < Pow256(i)
    ensures b * Pow2(8 * i) >= 0
    ensures Bitwise(BitOr, raw, b * Pow2(8 * i), 64) == raw + b * Pow256(i)
    ensures raw + b * Pow256(i) < Pow256(i + 1)
  {
    Pow256IsPow2(i);
    ByteBelow(b, i);
    OrDisjoint(raw, b, 8 * i, 64);
    ByteOnTop(raw, b, Pow256(i));
    hide Bitwise, Pow2;
  }

  /** `raw |= byte << (i * 8)` */
  function AppendByte(raw: nat, b: byte, i: nat): (r: nat)
    requires i < 8 && raw < Pow256(i)
    ensures r == raw + b * Pow256(i)
    ensures r < Pow256(i + 1)
  {
    ByteAppended(raw, b, i);
    Bitwise(BitOr, raw, b * Pow2(8 * i), 64)
  }

  lemma ByteBelow(b: byte, i: nat)
    requires i < 8
    ensures b < Pow2(64 - 8 * i)
  {
    Pow256IsPow2(8 - i);
    assert Pow256(8 - i) == 256 * Pow256(7 - i);
  }

  lemma ByteOnTop(raw: nat, b: byte, p: nat)
    requires raw < p
    ensures raw + b * p < 256 * p
  {
    ProductSign(255 - b, p);
    assert 255 * p == b * p + (255 - b) * p;
  }

  /** `(raw >> (i * 8)) & 0xff` */
  function ExtractByte(raw: u64, i: nat): (b: byte)
    requires i < 8
    ensures b == ByteOf(raw, i)
  {
    Pow256IsPow2(i);
    Pow256IsPow2(1);
    Shr64IsQuotient(raw, 8 * i);
    AndMask(Shr64(raw, 8 * i), 8, 64);
    Bitwise64(BitAnd, Shr64(raw, 8 * i), 0xff)
  }

  /** `before` with the first i of the bytes `b` written from `at` on. */
  function Written(before: seq<byte>, at: nat, b: seq<byte>, i: nat): (w: seq<byte>)
    requires i <= |b| && at + |b| <= |before|
    ensures |w| == |before|
  {
    before[..at] + b[..i] + before[at + i..]
  }

  lemma WrittenNext(before: seq<byte>, at: nat, b: seq<byte>, i: nat)
    requires i < |b| && at + |b| <= |before|
    ensures Written(before, at, b, i)[at + i := b[i]] == Written(before, at, b, i + 1)
  {
  }

  lemma WrittenEnds(before: seq<byte>, at: nat, b: seq<byte>)
    requires at + |b| <= |before|
    ensures Written(before, at, b, 0) == before
    ensures Written(before, at, b, |b|) == before[..at] + b + before[at + |b|..]
  {
    assert b[..|b|] == b;
  }

  function WordBytes(x: i64): (b: seq<byte>)
    ensures |b| == 8
  {
    Bytes(ToU64(x), 8)
  }

  function WordValue(b: seq<byte>): i64
    requires |b| == 8
  {
    Pow256Values();
    ToI64(Value(b))
  }

  lemma WordByte(x: i64, i: nat)
    requires i < 8
    ensures WordBytes(x)[i] == ByteOf(ToU64(x), i)
  {
    ByteAt(ToU64(x), 8, i);
  }

  lemma WordRoundTrip(x: i64)
    ensures WordValue(WordBytes(x)) == x
  {
    Pow256Values();
    ValueOfBytes(ToU64(x), 8);
  }

  lemma WordBytesRoundTrip(b: seq<byte>)
    requires |b| == 8
    ensures WordBytes(WordValue(b)) == b
  {
    Pow256Values();
    BytesOfValue(b);
  }
}
