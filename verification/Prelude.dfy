/** Failure-compatible results, octets and big-endian packing shared by every module. */
module Prelude {

  datatype Option<+T> = None | Some(value: T)

  /** A call of the daemon either returns or raises ValueError. */
  datatype Result<+T> = Success(value: T) | Failure {
    predicate IsFailure() { Failure? }

    function PropagateFailure<U>(): Result<U>
      requires Failure?
    {
      Failure
    }

    function Extract(): T
      requires Success?
    {
      value
    }
  }

  type Byte = b: int | 0 <= b < 256
  type Bytes = seq<Byte>

  type U16 = n: int | 0 <= n <= 0xFFFF
  type U32 = n: int | 0 <= n <= 0xFFFF_FFFF
  type U64 = n: int | 0 <= n <= 0xFFFF_FFFF_FFFF_FFFF

  function Zeros(n: nat): (z: Bytes)
    ensures |z| == n
  {
    seq(n, i => 0)
  }

  function Flatten<T>(parts: seq<seq<T>>): seq<T> {
    if parts == [] then [] else parts[0] + Flatten(parts[1..])
  }

  lemma {:induction false} FlattenConcat<T>(left: seq<seq<T>>, right: seq<seq<T>>)
    ensures Flatten(left + right) == Flatten(left) + Flatten(right)
  {
    if left == [] {
      assert left + right == right;
    } else {
      FlattenConcat(left[1..], right);
      assert (left + right)[1..] == left[1..] + right;
      assert left[0] + (Flatten(left[1..]) + Flatten(right)) == left[0] + Flatten(left[1..]) + Flatten(right);
    }
  }

  /** Each signal is the opposite of the one before it, starting with `first`. */
  predicate Alternates(signals: seq<bool>, first: bool) {
    signals == [] || (signals[0] == first && Alternates(signals[1..], !first))
  }

  // ---- big-endian packing (struct "!H", "!I", "!Q") -----------------------

  function Pow256(width: nat): (p: nat)
    ensures p > 0
  {
    if width == 0 then 1 else 256 * Pow256(width - 1)
  }

  /** The low `width` octets of n, most significant first. */
  function Pack(n: nat, width: nat): (b: Bytes)
    ensures |b| == width
  {
    seq(width, i requires 0 <= i < width => (n / Pow256(width - 1 - i)) % 256)
  }

  function Unpack(b: Bytes): nat {
    if b == [] then 0 else 256 * Unpack(b[..|b| - 1]) + b[|b| - 1]
  }

  lemma Multiples(d: nat, k: int)
    ensures k > 0 ==> d * k >= d
    ensures k < 0 ==> d * k + d <= 0
  {
    if k > 0 {
      assert d * k == d * (k - 1) + d && d * (k - 1) >= 0;
    } else if k < 0 {
      assert d * k == -(d * (-k - 1)) - d && d * (-k - 1) >= 0;
    }
  }

  lemma QuotientUnique(n: nat, d: nat, q: nat, r: nat)
    requires d > 0 && n == d * q + r && r < d
    ensures n / d == q
  {
    var k := n / d - q;
    assert n == d * (n / d) + n % d;
    assert d * k == d * (n / d) - d * q;
    Multiples(d, k);
  }

  lemma DivideTwice(n: nat, p: nat)
    requires p > 0
    ensures n / (256 * p) == n / 256 / p
  {
    var q := n / 256;
    var a, b := q / p, q % p;
    assert n == 256 * p * a + (256 * b + n % 256);
    QuotientUnique(n, 256 * p, a, 256 * b + n % 256);
  }

  lemma PackStep(n: nat, width: nat)
    requires width > 0
    ensures Pack(n, width) == Pack(n / 256, width - 1) + [n % 256]
  {
    var b := Pack(n / 256, width - 1) + [n % 256];
    forall i | 0 <= i < width ensures Pack(n, width)[i] == b[i] {
      if i < width - 1 {
        var p := Pow256(width - 2 - i);
        assert Pow256(width - 1 - i) == 256 * p;
        DivideTwice(n, p);
        assert b[i] == Pack(n / 256, width - 1)[i] == (n / 256 / p) % 256;
      } else {
        assert Pow256(0) == 1;
      }
    }
  }

  lemma {:induction false} UnpackPack(n: nat, width: nat)
    requires n < Pow256(width)
    ensures Unpack(Pack(n, width)) == n
  {
    if width > 0 {
      PackStep(n, width);
      UnpackPack(n / 256, width - 1);
      assert Pack(n, width)[..width - 1] == Pack(n / 256, width - 1);
    }
  }

  lemma {:induction false} PackUnpack(b: Bytes)
    ensures Unpack(b) < Pow256(|b|)
    ensures Pack(Unpack(b), |b|) == b
  {
    if b != [] {
      PackUnpack(b[..|b| - 1]);
      PackStep(Unpack(b), |b|);
      assert Unpack(b) / 256 == Unpack(b[..|b| - 1]);
      assert b == b[..|b| - 1] + [b[|b| - 1]];
    }
  }

  lemma WordSizes()
    ensures Pow256(1) == 0x100
    ensures Pow256(2) == 0x1_0000
    ensures Pow256(4) == 0x1_0000_0000
    ensures Pow256(8) == 0x1_0000_0000_0000_0000
  {
    assert Pow256(1) == 0x100;
    assert Pow256(2) == 0x1_0000;
    assert Pow256(3) == 0x100_0000;
    assert Pow256(4) == 0x1_0000_0000;
    assert Pow256(5) == 0x100_0000_0000;
    assert Pow256(6) == 0x1_0000_0000_0000;
    assert Pow256(7) == 0x100_0000_0000_0000;
  }

  // ---- exclusive or, bit by bit -------------------------------------------

  function XorBits(a: nat, b: nat, width: nat): nat {
    if width == 0 then 0
    else 2 * XorBits(a / 2, b / 2, width - 1) + (a + b) % 2
  }

  function Pow2(width: nat): (p: nat)
    ensures p > 0
  {
    if width == 0 then 1 else 2 * Pow2(width - 1)
  }

  lemma XorLowBit(high: nat, a: nat, b: nat)
    ensures (2 * high + (a + b) % 2) / 2 == high
    ensures (2 * high + (a + b) % 2 + b) % 2 == a % 2
  {
    assert (2 * high + (a + b) % 2) % 2 == (a + b) % 2;
  }

  lemma {:induction false} XorBitsInvolutive(a: nat, b: nat, width: nat)
    requires a < Pow2(width)
    ensures XorBits(a, b, width) < Pow2(width)
    ensures XorBits(XorBits(a, b, width), b, width) == a
  {
    if width > 0 {
      XorBitsInvolutive(a / 2, b / 2, width - 1);
      XorLowBit(XorBits(a / 2, b / 2, width - 1), a, b);
    }
  }

  lemma ByteWidth()
    ensures Pow2(8) == 256
  {
    assert Pow2(4) == 16;
    assert Pow2(6) == 64;
  }

  function XorByte(a: Byte, b: Byte): Byte {
    ByteWidth();
    XorBitsInvolutive(a, b, 8);
    XorBits(a, b, 8)
  }

  /** The exclusive or of two texts of the same length, octet by octet. */
  function Xor(text: Bytes, mask: Bytes): (r: Bytes)
    requires |text| == |mask|
    ensures |r| == |text|
  {
    seq(|text|, i requires 0 <= i < |text| => XorByte(text[i], mask[i]))
  }

  lemma XorInvolutive(text: Bytes, mask: Bytes)
    requires |text| == |mask|
    ensures Xor(Xor(text, mask), mask) == text
  {
    var twice := Xor(Xor(text, mask), mask);
    forall i | 0 <= i < |text| ensures twice[i] == text[i] {
      ByteWidth();
      XorBitsInvolutive(text[i], mask[i], 8);
    }
  }

  lemma HalveTwice(n: nat, p: nat)
    requires p > 0
    ensures n / (2 * p) == n / 2 / p
  {
    var q := n / 2;
    var a, b := q / p, q % p;
    assert n == 2 * p * a + (2 * b + n % 2);
    QuotientUnique(n, 2 * p, a, 2 * b + n % 2);
  }

  /** Bit i of n. */
  function BitAt(n: nat, i: nat): nat { (n / Pow2(i)) % 2 }

  lemma BitAbove(n: nat, i: nat)
    requires i > 0
    ensures BitAt(n, i) == BitAt(n / 2, i - 1)
  {
    assert Pow2(i) == 2 * Pow2(i - 1);
    HalveTwice(n, Pow2(i - 1));
  }

  lemma LowBit(n: nat)
    ensures BitAt(n, 0) == n % 2
  {
    assert Pow2(0) == 1;
  }

  /** Bit by bit, the exclusive or is set exactly where the two differ. */
  lemma {:induction false} XorBitAt(a: nat, b: nat, width: nat, i: nat)
    requires i < width
    ensures BitAt(XorBits(a, b, width), i) == if BitAt(a, i) == BitAt(b, i) then 0 else 1
  {
    hide BitAt, Pow2;
    var x := XorBits(a / 2, b / 2, width - 1);
    var n := 2 * x + (a + b) % 2;
    assert XorBits(a, b, width) == n && n / 2 == x && n % 2 == (a + b) % 2;
    if i > 0 {
      BitAbove(a, i);
      BitAbove(b, i);
      BitAbove(n, i);
      XorBitAt(a / 2, b / 2, width - 1, i - 1);
    } else {
      LowBit(a);
      LowBit(b);
      LowBit(n);
      Parity(a, b);
    }
  }

  lemma Parity(a: nat, b: nat)
    ensures (a + b) % 2 == if a % 2 == b % 2 then 0 else 1
  {
  }

  lemma XorAt(text: Bytes, mask: Bytes, k: nat, i: nat)
    requires |text| == |mask| && k < |text| && i < 8
    ensures BitAt(Xor(text, mask)[k], i) == if BitAt(text[k], i) == BitAt(mask[k], i) then 0 else 1
  {
    hide XorBits, BitAt;
    XorBitAt(text[k], mask[k], 8, i);
  }
}
