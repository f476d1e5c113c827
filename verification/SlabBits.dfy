/** Machine words as bit maps. */
module SlabBits {

  type Word = nat

  // w & ((uintptr_t) 1 << i)
  predicate Bit(w: Word, i: nat) {
    if i == 0 then w % 2 == 1 else Bit(w / 2, i - 1)
  }

  // w | ((uintptr_t) 1 << i)
  function SetBit(w: Word, i: nat): (r: Word)
    ensures r > 0
  {
    if i == 0 then w / 2 * 2 + 1 else w % 2 + 2 * SetBit(w / 2, i - 1)
  }

  // w & ~((uintptr_t) 1 << i)
  function ClearBit(w: Word, i: nat): (r: Word) {
    if i == 0 then w / 2 * 2 else w % 2 + 2 * ClearBit(w / 2, i - 1)
  }

  // ((uintptr_t) 1 << n) - 1
  function Ones(n: nat): (r: Word)
    ensures (n == 0) == (r == 0)
  {
    if n == 0 then 0 else 1 + 2 * Ones(n - 1)
  }

  // w >> k
  function Shr(w: Word, k: nat): Word {
    if k == 0 then w else Shr(w / 2, k - 1)
  }

  lemma {:induction false} SetBitAt(w: Word, i: nat, j: nat)
    ensures Bit(SetBit(w, i), j) <==> i == j || Bit(w, j)
  {
    if i > 0 && j > 0 {
      SetBitAt(w / 2, i - 1, j - 1);
      assert SetBit(w, i) / 2 == SetBit(w / 2, i - 1);
    }
  }

  lemma {:induction false} ClearBitAt(w: Word, i: nat, j: nat)
    ensures Bit(ClearBit(w, i), j) <==> i != j && Bit(w, j)
  {
    if i > 0 && j > 0 {
      ClearBitAt(w / 2, i - 1, j - 1);
      assert ClearBit(w, i) / 2 == ClearBit(w / 2, i - 1);
    }
  }

  lemma {:induction false} SetBitBound(w: Word, i: nat, n: nat)
    requires w <= Ones(n) && i < n
    ensures SetBit(w, i) <= Ones(n)
  {
    if i > 0 { SetBitBound(w / 2, i - 1, n - 1); }
  }

  lemma {:induction false} ClearBitBound(w: Word, i: nat)
    ensures ClearBit(w, i) <= w
  {
    if i > 0 { ClearBitBound(w / 2, i - 1); }
  }

  lemma {:induction false} OnesAt(n: nat, i: nat)
    ensures Bit(Ones(n), i) <==> i < n
  {
    if n > 0 && i > 0 {
      OnesAt(n - 1, i - 1);
      assert Ones(n) / 2 == Ones(n - 1);
    } else if n == 0 {
      ZeroAt(i);
    }
  }

  lemma {:induction false} ZeroAt(i: nat)
    ensures !Bit(0, i)
  {
    if i > 0 { ZeroAt(i - 1); }
  }

  // A map of n bits is full exactly if it is the all-ones word.
  lemma {:induction false} FullMap(w: Word, n: nat)
    requires w <= Ones(n) && forall i: nat :: i < n ==> Bit(w, i)
    ensures w == Ones(n)
  {
    if n > 0 {
      forall i: nat | i < n - 1 ensures Bit(w / 2, i) { assert Bit(w, i + 1); }
      FullMap(w / 2, n - 1);
      assert Bit(w, 0);
    }
  }

  lemma {:induction false} EmptyMap(w: Word, n: nat)
    requires w <= Ones(n) && forall i: nat :: i < n ==> !Bit(w, i)
    ensures w == 0
  {
    if n > 0 {
      forall i: nat | i < n - 1 ensures !Bit(w / 2, i) { assert !Bit(w, i + 1); }
      EmptyMap(w / 2, n - 1);
      assert !Bit(w, 0);
    }
  }

  lemma {:induction false} ShrBit(w: Word, k: nat, i: nat)
    ensures Bit(Shr(w, k), i) == Bit(w, k + i)
  {
    if k > 0 { ShrBit(w / 2, k - 1, i); }
  }

  lemma {:induction false} ShrSet(w: Word, k: nat, i: nat)
    ensures Shr(SetBit(w, k + i), k) == SetBit(Shr(w, k), i)
    ensures Shr(ClearBit(w, k + i), k) == ClearBit(Shr(w, k), i)
  {
    if k > 0 {
      ShrSet(w / 2, k - 1, i);
      assert SetBit(w, k + i) / 2 == SetBit(w / 2, k - 1 + i);
      assert ClearBit(w, k + i) / 2 == ClearBit(w / 2, k - 1 + i);
    }
  }

  // The low four bits, which hold the chunk size of a page, are below every map bit.
  lemma {:induction false} LowBits(w: Word, k: nat, i: nat)
    requires k <= i
    ensures Low(SetBit(w, i), k) == Low(w, k) && Low(ClearBit(w, i), k) == Low(w, k)
  {
    if k > 0 {
      LowBits(w / 2, k - 1, i - 1);
      assert SetBit(w, i) / 2 == SetBit(w / 2, i - 1);
      assert ClearBit(w, i) / 2 == ClearBit(w / 2, i - 1);
    }
  }

  // w & (((uintptr_t) 1 << k) - 1)
  function Low(w: Word, k: nat): Word {
    if k == 0 then 0 else w % 2 + 2 * Low(w / 2, k - 1)
  }

  lemma {:induction false} ShrStep(w: Word, k: nat)
    ensures Shr(w, k + 1) == Shr(w, k) / 2
  {
    if k > 0 { ShrStep(w / 2, k - 1); }
  }

  // A word shifts to zero exactly when it fits in the bits shifted out.
  lemma {:induction false} ShrZero(w: Word, k: nat)
    ensures Shr(w, k) == 0 <==> w <= Ones(k)
  {
    if k > 0 { ShrZero(w / 2, k - 1); }
  }
}
