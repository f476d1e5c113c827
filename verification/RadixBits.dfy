/** The 32-bit keys and masks of src/core/ngx_radix_tree.c as paths of bits, most significant first. */
module RadixBits {

  type Path = seq<bool>

  const BITS := 32
  const WORD := 0x1_0000_0000

  function Pow(k: nat): (r: nat)
    ensures r > 0
  {
    if k == 0 then 1 else 2 * Pow(k - 1)
  }

  // 0x80000000 >> i
  function Top(i: nat): (r: nat)
    ensures i < BITS ==> r > 0
  {
    if i < BITS then Pow(BITS - 1 - i) else 0
  }

  // x & bit, for a power of two or zero.
  predicate HasBit(x: nat, bit: nat) {
    bit != 0 && x / bit % 2 == 1
  }

  // The first d bits of a key.
  function Bits(key: nat, d: nat): (q: Path)
    ensures |q| == d
  {
    seq(d, (i: nat) => HasBit(key, Top(i)))
  }

  // The number of leading ones of a mask, from bit i on.
  function Lead(mask: nat, i: nat): (d: nat)
    decreases BITS - i
    ensures i <= d && (i <= BITS ==> d <= BITS)
    ensures forall k :: i <= k < d ==> HasBit(mask, Top(k))
    ensures !HasBit(mask, Top(d))
  {
    if i < BITS && HasBit(mask, Top(i)) then Lead(mask, i + 1) else i
  }

  lemma TopHalf(i: nat)
    requires i < BITS
    ensures Top(i) / 2 == Top(i + 1)
  {
    if i == BITS - 1 { assert Pow(0) == 1; }
  }

  lemma PowWord()
    ensures Pow(BITS) == WORD && Top(0) == 0x8000_0000
  {
    assert Pow(4) == 16;
    assert Pow(8) == 256 by { assert Pow(8) == 16 * Pow(4); }
    assert Pow(12) == 16 * Pow(8);
    assert Pow(16) == 16 * Pow(12);
    assert Pow(20) == 16 * Pow(16);
    assert Pow(24) == 16 * Pow(20);
    assert Pow(28) == 16 * Pow(24);
    assert Pow(32) == 16 * Pow(28);
    assert Pow(32) == 2 * Pow(31);
  }

  // ---- the key a path of at most 32 bits begins ----

  function KeyOf(q: Path): nat
    requires |q| <= BITS
  {
    if q == [] then 0 else KeyOf(q[..|q| - 1]) + (if q[|q| - 1] then Top(|q| - 1) else 0)
  }

  lemma MulMono(a: int, b: int, z: nat)
    ensures a <= b ==> a * z <= b * z
  {
  }

  lemma DivUnique(x: int, z: int, q: int)
    requires z > 0 && q * z <= x < (q + 1) * z
    ensures x / z == q
  {
    var r := x / z;
    assert r * z <= x < (r + 1) * z by {
      assert x == r * z + x % z;
      assert (r + 1) * z == r * z + z;
    }
    MulMono(r + 1, q, z);
    MulMono(q + 1, r, z);
  }

  // x is a multiple of z.
  ghost predicate Multiple(x: nat, z: nat) { exists k: nat :: x == k * z }

  lemma MultipleAdd(x: nat, y: nat, z: nat)
    requires Multiple(x, z) && Multiple(y, z)
    ensures Multiple(x + y, z)
  {
    var a: nat :| x == a * z;
    var b: nat :| y == b * z;
    assert x + y == (a + b) * z;
  }

  lemma MultipleDouble(x: nat, z: nat)
    requires Multiple(x, 2 * z)
    ensures Multiple(x, z)
  {
    var k: nat :| x == k * (2 * z);
    assert x == (2 * k) * z;
  }

  lemma MultipleGap(x: nat, y: nat, z: nat)
    requires Multiple(x, z) && Multiple(y, z) && x < y
    ensures x + z <= y
  {
    var a: nat :| x == a * z;
    var b: nat :| y == b * z;
    MulMono(b, a, z);
    MulMono(a + 1, b, z);
    NextMultiple(a, z);
  }

  lemma NextMultiple(a: nat, z: nat)
    ensures (a + 1) * z == a * z + z
  {
  }

  // The unit below the last bit of a path of length d.
  function Unit(d: nat): nat
    requires d <= BITS
    ensures Unit(d) > 0
  {
    Pow(BITS - d)
  }

  lemma {:induction false} KeyOfRange(q: Path)
    requires |q| <= BITS
    ensures Multiple(KeyOf(q), Unit(|q|)) && KeyOf(q) + Unit(|q|) <= WORD
  {
    if q == [] {
      PowWord();
      assert 0 == 0 * Unit(0);
    } else {
      var p := q[..|q| - 1];
      KeyOfRange(p);
      assert Unit(|p|) == 2 * Unit(|q|);
      MultipleDouble(KeyOf(p), Unit(|q|));
      assert Top(|q| - 1) == Unit(|q|);
      assert 0 == 0 * Unit(|q|) && Unit(|q|) == 1 * Unit(|q|);
      MultipleAdd(KeyOf(p), if q[|q| - 1] then Unit(|q|) else 0, Unit(|q|));
    }
  }

  // A key between KeyOf(q) and the next one begins with q.
  lemma {:induction false} BitsOfKey(q: Path, key: nat)
    requires |q| <= BITS && KeyOf(q) <= key < KeyOf(q) + Unit(|q|)
    ensures Bits(key, |q|) == q
  {
    if q != [] {
      var p, d := q[..|q| - 1], |q|;
      assert Unit(|p|) == 2 * Unit(d) && Top(d - 1) == Unit(d);
      BitsOfKey(p, key);
      LastBit(p, q[d - 1], key);
      assert Bits(key, d) == Bits(key, d - 1) + [HasBit(key, Top(d - 1))];
      assert q == p + [q[d - 1]];
    }
  }

  lemma LastBit(p: Path, b: bool, key: nat)
    requires |p| < BITS
    requires var low := KeyOf(p) + (if b then Unit(|p| + 1) else 0); low <= key < low + Unit(|p| + 1)
    ensures HasBit(key, Top(|p|)) == b
  {
    var u := Unit(|p| + 1);
    KeyOfRange(p);
    assert Unit(|p|) == 2 * u;
    var k: nat :| KeyOf(p) == k * (2 * u);
    Parity(k, u, b, key);
  }

  lemma Parity(k: nat, u: nat, b: bool, x: nat)
    requires u > 0 && var low := k * (2 * u) + (if b then u else 0); low <= x < low + u
    ensures (x / u % 2 == 1) == b
  {
    var j := 2 * k + (if b then 1 else 0);
    assert j * u == k * (2 * u) + (if b then u else 0);
    NextMultiple(j, u);
    DivUnique(x, u, j);
  }

  lemma {:induction false} OnlyKey(key: nat, d: nat)
    requires d <= BITS && key < WORD
    ensures var k := KeyOf(Bits(key, d)); k <= key < k + Unit(d)
  {
    var q := Bits(key, d);
    if d == 0 {
      PowWord();
    } else {
      OnlyKey(key, d - 1);
      var p := Bits(key, d - 1);
      assert q[..d - 1] == p && Unit(d - 1) == 2 * Unit(d) && Top(d - 1) == Unit(d);
      if KeyOf(p) + Unit(d) <= key {
        LastBit(p, true, key);
      } else {
        LastBit(p, false, key);
      }
    }
  }

  // ---- the masks of the preallocation ----

  // (mask >> 1) | 0x80000000
  function NextMask(mask: nat): nat { mask / 2 + 0x8000_0000 }

  lemma DivDiv(x: nat, a: nat)
    requires a > 0
    ensures x / 2 / a == x / (2 * a)
  {
    var q := x / (2 * a);
    assert q * (2 * a) <= x < (q + 1) * (2 * a) by {
      assert x == q * (2 * a) + x % (2 * a);
      assert (q + 1) * (2 * a) == q * (2 * a) + 2 * a;
    }
    assert q * a <= x / 2 < (q + 1) * a by {
      assert 2 * (q * a) == q * (2 * a);
      assert 2 * ((q + 1) * a) == (q + 1) * (2 * a);
    }
    DivUnique(x / 2, a, q);
  }

  // With bit i of x at the same place, a multiple of twice that bit changes nothing.
  lemma DivAdd(x: nat, k: nat, a: nat)
    requires a > 0
    ensures (x + k * a) / a == x / a + k
  {
    var q := x / a;
    assert x == q * a + x % a;
    assert (q + k) * a == q * a + k * a && (q + k + 1) * a == q * a + k * a + a;
    DivUnique(x + k * a, a, q + k);
  }

  lemma {:induction false} PowSplit(a: nat, b: nat)
    ensures Pow(a + b) == Pow(a) * Pow(b)
  {
    if a > 0 {
      PowSplit(a - 1, b);
      assert Pow(a + b) == 2 * Pow(a - 1 + b);
    }
  }

  lemma MaskShift(mask: nat, i: nat)
    requires i < BITS && mask < WORD
    ensures i > 0 ==> HasBit(NextMask(mask), Top(i)) == HasBit(mask, Top(i - 1))
    ensures i == 0 ==> HasBit(NextMask(mask), Top(i))
  {
    PowWord();
    var a := Top(i);
    if i > 0 {
      PowSplit(i, BITS - 1 - i);
      assert Pow(i) == 2 * Pow(i - 1);
      ShiftParity(mask, Pow(i - 1), a);
      assert Top(i - 1) == 2 * a;
    } else {
      DivUnique(NextMask(mask), a, 1);
    }
  }

  lemma ShiftParity(x: nat, k: nat, a: nat)
    requires a > 0
    ensures (x / 2 + (2 * k) * a) / a % 2 == x / (2 * a) % 2
  {
    DivAdd(x / 2, 2 * k, a);
    DivDiv(x, a);
  }

  ghost predicate IsMask(mask: nat, d: nat) {
    mask < WORD && forall i {:trigger HasBit(mask, Top(i))} :: 0 <= i < BITS ==> (HasBit(mask, Top(i)) <==> i < d)
  }

  lemma NextIsMask(mask: nat, d: nat)
    requires IsMask(mask, d)
    ensures IsMask(NextMask(mask), d + 1)
  {
    var n := NextMask(mask);
    forall i | 0 <= i < BITS ensures HasBit(n, Top(i)) <==> i < d + 1 {
      MaskShift(mask, i);
      assert i > 0 ==> (HasBit(mask, Top(i - 1)) <==> i - 1 < d);
    }
  }

  lemma NoMask()
    ensures IsMask(0, 0)
  {
  }

  lemma {:induction false} MaskLead(mask: nat, d: nat, i: nat)
    requires IsMask(mask, d) && i <= d && i <= BITS
    ensures Lead(mask, i) == if d <= BITS then d else BITS
    decreases BITS - i
  {
    if i < BITS && i < d { MaskLead(mask, d, i + 1); }
  }
}
