/** Bytes, 32-byte words and base-256 numerals: what the serializer's integer codecs compute. */
module ByteStrings {

  type byte = b: int | 0 <= b < 256

  type Bytes = seq<byte>

  /** A `bytes32` value. */
  type Word = w: Bytes | |w| == 32 witness seq(32, _ => 0)

  /** The hash is left uninterpreted: whatever is proved holds for every function to 32-byte words. */
  type Keccak = Bytes -> Word

  const TWO_32 := 0x1_0000_0000
  const TWO_64 := 0x1_0000_0000_0000_0000

  type uint32 = n: int | 0 <= n < TWO_32
  type uint64 = n: int | 0 <= n < TWO_64

  function Zeros(n: nat): (z: Bytes)
    ensures |z| == n
  {
    seq(n, _ => 0)
  }

  function Pow256(k: nat): (p: nat)
    ensures p > 0
  {
    if k == 0 then 1 else 256 * Pow256(k - 1)
  }

  /** `n >> (8 * k)` */
  function Shr(n: nat, k: nat): nat {
    if k == 0 then n else Shr(n, k - 1) / 256
  }

  /** The `w` low-order bytes of `n`, most significant first. */
  function BigEndian(n: nat, w: nat): (bs: Bytes)
    ensures |bs| == w
  {
    if w == 0 then [] else BigEndian(n / 256, w - 1) + [n % 256]
  }

  /** The number a byte string denotes, most significant byte first. */
  function Value(bs: Bytes): nat {
    if bs == [] then 0 else 256 * Value(bs[..|bs| - 1]) + bs[|bs| - 1]
  }

  /** How many bytes `n` takes without a leading zero; zero takes none. */
  function ByteLength(n: nat): nat {
    if n == 0 then 0 else 1 + ByteLength(n / 256)
  }

  /** The shortest big-endian numeral. */
  function Minimal(n: nat): (bs: Bytes)
    ensures |bs| == ByteLength(n)
  {
    BigEndian(n, ByteLength(n))
  }

  function Flatten(words: seq<Bytes>): Bytes {
    if words == [] then [] else words[0] + Flatten(words[1..])
  }

  // ---- shifts ----

  /** A shift by whole bytes is division by a power of 256. */
  lemma {:induction false} ShrIsDivision(n: nat, k: nat)
    ensures Shr(n, k) == n / Pow256(k)
  {
    if k > 0 {
      ShrIsDivision(n, k - 1);
      DivDiv(n, Pow256(k - 1));
    }
  }

  lemma {:induction false} DivDiv(n: nat, p: nat)
    requires p > 0
    ensures n / p / 256 == n / (256 * p)
  {
    var q := n / p;
    DivUnique(n, 256 * p, q / 256, p * (q % 256) + n % p) by {
      Regroup(p, q / 256, q % 256, n % p);
      MulMono(p, q % 256, 255);
    }
  }

  lemma {:induction false} Regroup(p: int, a: int, b: int, r: int)
    ensures p * (256 * a + b) + r == (256 * p) * a + (p * b + r)
  {
  }

  lemma {:induction false} MulMono(d: int, x: int, y: int)
    requires 0 <= d && x <= y
    ensures d * x <= d * y
  {
  }

  lemma {:induction false} MulStep(d: int, x: int, y: int)
    requires 0 <= d && x < y
    ensures d * x + d <= d * y
  {
    MulMono(d, x + 1, y);
  }

  lemma {:induction false} DivUnique(n: int, d: int, q: int, r: int)
    requires d > 0 && 0 <= r < d && n == d * q + r
    ensures n / d == q && n % d == r
  {
    var q' := n / d;
    var r' := n % d;
    assert n == d * q' + r';
    if q' < q {
      MulStep(d, q', q);
    } else if q < q' {
      MulStep(d, q, q');
    }
  }

  // ---- numerals ----

  /** Writing a numeral in `w` bytes keeps the value modulo 256^w. */
  lemma {:induction false} ValueOfBigEndian(n: nat, w: nat)
    ensures Value(BigEndian(n, w)) == n % Pow256(w)
  {
    if w > 0 {
      ValueOfBigEndian(n / 256, w - 1);
      var bs := BigEndian(n, w);
      assert bs[..|bs| - 1] == BigEndian(n / 256, w - 1);
      ModStep(n, Pow256(w - 1));
    }
  }

  lemma {:induction false} ModStep(n: nat, p: nat)
    requires p > 0
    ensures n % (256 * p) == 256 * (n / 256 % p) + n % 256
  {
    var q := n / 256;
    DivUnique(n, 256 * p, q / p, 256 * (q % p) + n % 256) by {
      assert q == p * (q / p) + q % p;
      assert 256 * (p * (q / p)) == (256 * p) * (q / p);
    }
  }

  lemma {:induction false} ValueOfBigEndianExact(n: nat, w: nat)
    requires n < Pow256(w)
    ensures Value(BigEndian(n, w)) == n
  {
    ValueOfBigEndian(n, w);
    DivUnique(n, Pow256(w), 0, n);
  }

  lemma {:induction false} BigEndianOfValue(bs: Bytes)
    ensures BigEndian(Value(bs), |bs|) == bs
  {
    if bs != [] {
      var front := bs[..|bs| - 1];
      BigEndianOfValue(front);
      DivUnique(Value(bs), 256, Value(front), bs[|bs| - 1]);
      assert bs == front + [bs[|bs| - 1]];
    }
  }

  lemma {:induction false} ValueBound(bs: Bytes)
    ensures Value(bs) < Pow256(|bs|)
  {
    if bs != [] {
      ValueBound(bs[..|bs| - 1]);
    }
  }

  lemma {:induction false} ByteLengthBound(n: nat)
    ensures n < Pow256(ByteLength(n))
  {
    if n > 0 {
      ByteLengthBound(n / 256);
    }
  }

  /** The byte length is the least width that holds the number. */
  lemma {:induction false} ByteLengthLeast(n: nat, k: nat)
    ensures n < Pow256(k) <==> ByteLength(n) <= k
  {
    if n == 0 {
    } else if k == 0 {
    } else {
      ByteLengthLeast(n / 256, k - 1);
      var p := Pow256(k - 1);
      assert n == 256 * (n / 256) + n % 256;
      if n / 256 < p {
        assert n / 256 + 1 <= p;
        assert n < 256 * p;
      } else {
        assert n >= 256 * p;
      }
    }
  }

  lemma {:induction false} MinimalValue(n: nat)
    ensures Value(Minimal(n)) == n
  {
    ByteLengthBound(n);
    ValueOfBigEndianExact(n, ByteLength(n));
  }

  lemma {:induction false} MinimalNoLeadingZero(n: nat)
    ensures n > 0 ==> Minimal(n) != [] && Minimal(n)[0] != 0
  {
    if n >= 256 {
      MinimalNoLeadingZero(n / 256);
      assert Minimal(n) == Minimal(n / 256) + [n % 256];
    } else if n > 0 {
      assert ByteLength(n / 256) == 0;
      assert Minimal(n) == [n % 256];
    }
  }

  /** A numeral without a leading zero is the minimal numeral of its value. */
  lemma {:induction false} NoLeadingZeroIsMinimal(bs: Bytes)
    requires bs == [] || bs[0] != 0
    ensures Minimal(Value(bs)) == bs
  {
    if bs != [] {
      var front := bs[..|bs| - 1];
      DivUnique(Value(bs), 256, Value(front), bs[|bs| - 1]);
      NoLeadingZeroIsMinimal(front);
      assert bs == front + [bs[|bs| - 1]];
      if front == [] {
        assert Value(front) == 0;
      } else {
        assert Minimal(Value(front)) == front;
        assert ByteLength(Value(front)) == |front| > 0;
      }
      assert Value(bs) > 0;
      assert ByteLength(Value(bs)) == 1 + ByteLength(Value(front));
    }
  }

  lemma {:induction false} MinimalInjective(m: nat, n: nat)
    requires Minimal(m) == Minimal(n)
    ensures m == n
  {
    MinimalValue(m);
    MinimalValue(n);
  }

  lemma {:induction false} Pow256Eight()
    ensures Pow256(1) == 256
    ensures Pow256(4) == TWO_32
    ensures Pow256(8) == TWO_64
  {
    assert Pow256(1) == 256;
    assert Pow256(2) == 0x10000;
    assert Pow256(3) == 0x1000000;
    assert Pow256(4) == TWO_32;
    assert Pow256(5) == 0x100_0000_0000;
    assert Pow256(6) == 0x1_0000_0000_0000;
    assert Pow256(7) == 0x100_0000_0000_0000;
  }

  /** A sum kept in a 64-bit unsigned integer. */
  function WrapUint64(n: nat): uint64 {
    if n < TWO_64 then n else WrapUint64(n - TWO_64)
  }

  lemma {:induction false} WrapIsModulo(n: nat)
    ensures WrapUint64(n) == n % TWO_64
  {
    if n >= TWO_64 {
      WrapIsModulo(n - TWO_64);
    }
  }

  /** `static_cast<uint8_t>` */
  function ToByte(n: int): byte
    decreases n < 0, if n < 0 then -n else n
  {
    if n < 0 then ToByte(n + 256) else if n < 256 then n else ToByte(n - 256)
  }

  lemma {:induction false} ToByteIsModulo(n: int)
    ensures ToByte(n) == n % 256
    decreases n < 0, if n < 0 then -n else n
  {
    if n < 0 {
      ToByteIsModulo(n + 256);
      DivUnique(n, 256, (n + 256) / 256 - 1, (n + 256) % 256);
    } else if n >= 256 {
      ToByteIsModulo(n - 256);
      DivUnique(n, 256, (n - 256) / 256 + 1, (n - 256) % 256);
    }
  }

  lemma {:induction false} ByteLengthOfUint64(n: uint64)
    ensures ByteLength(n) <= 8
  {
    Pow256Eight();
    ByteLengthLeast(n, 8);
  }

  // ---- leading zeros ----

  lemma {:induction false} ValueConcat(a: Bytes, b: Bytes)
    ensures Value(a + b) == Value(a) * Pow256(|b|) + Value(b)
  {
    if b == [] {
      assert a + b == a;
    } else {
      var front := b[..|b| - 1];
      var ab := a + b;
      assert ab[..|ab| - 1] == a + front;
      ValueConcat(a, front);
      assert Value(ab) == 256 * (Value(a) * Pow256(|front|) + Value(front)) + b[|b| - 1];
      MulShuffle(Value(a), Pow256(|front|));
    }
  }

  lemma {:induction false} MulShuffle(x: int, p: int)
    ensures 256 * (x * p) == x * (256 * p)
  {
  }

  lemma {:induction false} ValueOfZeros(n: nat)
    ensures Value(Zeros(n)) == 0
  {
    if n > 0 {
      assert Zeros(n)[..n - 1] == Zeros(n - 1);
      ValueOfZeros(n - 1);
    }
  }

  lemma {:induction false} LeadingZeros(n: nat, bs: Bytes)
    ensures Value(Zeros(n) + bs) == Value(bs)
  {
    ValueConcat(Zeros(n), bs);
    ValueOfZeros(n);
  }

  /** Only zeros pad a numeral up to a larger width. */
  lemma {:induction false} BigEndianPadded(n: nat, w: nat, z: nat)
    requires n < Pow256(w)
    ensures BigEndian(n, z + w) == Zeros(z) + BigEndian(n, w)
  {
    var padded := Zeros(z) + BigEndian(n, w);
    LeadingZeros(z, BigEndian(n, w));
    ValueOfBigEndianExact(n, w);
    BigEndianOfValue(padded);
  }
}
