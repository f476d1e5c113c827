/** Chunks inside one page of src/core/ngx_slab.c, pages of 4096 bytes and 64-bit words: the bitmap
    in the page itself, in the "slab" word, or in its high half. */
module SlabChunks {
  import opened SlabBits

  const PAGE_SIZE: int := 4096
  const MAX_SHIFT: nat := 11
  const MIN_SHIFT: nat := 3
  const EXACT_SHIFT: nat := 6
  const MAP_SHIFT: nat := 32
  const MAP_WORDS: nat := 8

  const TYPE_BIG: int := 1
  const TYPE_EXACT: int := 2
  const TYPE_SMALL: int := 3

  type Shift = s: nat | MIN_SHIFT <= s <= MAX_SHIFT witness MIN_SHIFT

  function Size(s: Shift): (r: nat)
    ensures 8 <= r <= 2048
  {
    if s == 3 then 8 else if s == 4 then 16 else if s == 5 then 32 else if s == 6 then 64 else if s == 7 then 128
    else if s == 8 then 256 else if s == 9 then 512 else if s == 10 then 1024 else 2048
  }

  // ngx_pagesize >> shift
  function Cap(s: Shift): (r: nat)
    ensures r * Size(s) == PAGE_SIZE
  {
    PAGE_SIZE / Size(s)
  }

  // Words of the bitmap of a small-chunk page.
  function Words(s: Shift): (r: nat)
    ensures s < EXACT_SHIFT ==> 64 * r == Cap(s) && 1 <= r <= MAP_WORDS
  {
    Cap(s) / 64
  }

  // Chunks at the front of a page that hold its bitmap.
  function First(s: Shift): (r: nat)
    ensures s < EXACT_SHIFT ==> r * Size(s) >= 8 * Words(s) && 1 <= r < 64 && r < Cap(s)
    ensures s >= EXACT_SHIFT ==> r == 0
  {
    if s >= EXACT_SHIFT then 0
    else
      var n := Cap(s) / (Size(s) * 8);
      if n == 0 then 1 else n
  }

  // They have a bit for each chunk of the page, and one chunk fewer would not.
  lemma FirstLeast(s: Shift)
    requires s < EXACT_SHIFT
    ensures 8 * (First(s) - 1) * Size(s) < Cap(s) <= 8 * First(s) * Size(s)
  {
  }

  function TypeOf(s: Shift): int {
    if s < EXACT_SHIFT then TYPE_SMALL else if s == EXACT_SHIFT then TYPE_EXACT else TYPE_BIG
  }

  ghost predicate Within(first: nat, cap: nat, live: set<nat>) {
    forall i :: i in live ==> first <= i < cap
  }

  ghost predicate Packed(first: nat, cap: nat, live: set<nat>) {
    forall i: nat :: first <= i < cap ==> i in live
  }

  ghost predicate InRange(s: Shift, live: set<nat>) { Within(First(s), Cap(s), live) }
  ghost predicate Full(s: Shift, live: set<nat>) { Packed(First(s), Cap(s), live) }

  // The live chunks as the descriptor word and the words at the front of the page record them.
  ghost predicate Encoded(slab: Word, bits: seq<Word>, s: Shift, live: set<nat>) {
    if s < EXACT_SHIFT then slab == s && FrontMap(bits, Words(s), First(s), live)
    else if s == EXACT_SHIFT then Holds(slab, 64, live)
    else Low(slab, 4) == s && Holds(Shr(slab, MAP_SHIFT), Cap(s), live)
  }

  // The word w, a map of n bits, holds the set.
  ghost predicate Holds(w: Word, n: nat, live: set<nat>) {
    w <= Ones(n) && forall i: nat {:trigger Bit(w, i)} :: i < n ==> (Bit(w, i) <==> i in live)
  }

  lemma HoldsMore(w: Word, n: nat, live: set<nat>, c: nat)
    requires Holds(w, n, live) && c < n
    ensures Holds(SetBit(w, c), n, live + {c})
  {
    SetBitBound(w, c, n);
    forall i: nat | i < n ensures Bit(SetBit(w, c), i) <==> i in live + {c} { SetBitAt(w, c, i); }
  }

  lemma HoldsLess(w: Word, n: nat, live: set<nat>, c: nat)
    requires Holds(w, n, live) && c < n
    ensures Holds(ClearBit(w, c), n, live - {c})
  {
    ClearBitBound(w, c);
    forall i: nat | i < n ensures Bit(ClearBit(w, c), i) <==> i in live - {c} { ClearBitAt(w, c, i); }
  }

  lemma HoldsAll(w: Word, n: nat, live: set<nat>)
    requires Holds(w, n, live)
    ensures w == Ones(n) <==> Packed(0, n, live)
  {
    if w == Ones(n) {
      forall i: nat | i < n ensures i in live { OnesAt(n, i); assert Bit(w, i); }
    } else if Packed(0, n, live) {
      FullMap(w, n);
    }
  }

  lemma HoldsNone(w: Word, n: nat, live: set<nat>)
    requires Holds(w, n, live)
    ensures w == 0 <==> forall i: nat :: i < n ==> i !in live
  {
    if w == 0 {
      forall i: nat | i < n ensures i !in live { ZeroAt(i); assert !Bit(w, i); }
    } else if forall i: nat :: i < n ==> i !in live {
      EmptyMap(w, n);
    }
  }

  // ---- a map in the descriptor word, from bit k on ----

  // The loop over a one-bit mask: the lowest clear bit of the n map bits from bit k on.
  method FindClear(w: Word, k: nat, n: nat, ghost live: set<nat>) returns (c: nat)
    requires Holds(Shr(w, k), n, live) && !Packed(0, n, live)
    ensures c < n && c !in live && forall i: nat :: i < c ==> i in live
  {
    c := 0;
    ShrBit(w, k, 0);
    while Bit(w, k + c)
      invariant c < n
      invariant Bit(w, k + c) == Bit(Shr(w, k), c)
      invariant forall i: nat :: i < c ==> i in live
      decreases n - c
    {
      c := c + 1;
      ShrBit(w, k, c);
    }
  }

  // Take the lowest free chunk; "full" is the comparison with the all-ones map.
  method AllocInWord(w: Word, k: nat, n: nat, ghost live: set<nat>) returns (w': Word, c: nat, full: bool)
    requires Holds(Shr(w, k), n, live) && !Packed(0, n, live)
    ensures c < n && c !in live && w' == SetBit(w, k + c) && Holds(Shr(w', k), n, live + {c}) && Packed(0, c, live)
    ensures full <==> Packed(0, n, live + {c})
  {
    c := FindClear(w, k, n, live);
    w' := SetBit(w, k + c);
    ShrSet(w, k, c);
    full := Shr(w', k) == Ones(n);
    HoldsMore(Shr(w, k), n, live, c);
    HoldsAll(Shr(w', k), n, live + {c});
  }

  method FreeInWord(w: Word, k: nat, n: nat, c: nat, ghost live: set<nat>) returns (w': Word, empty: bool)
    requires Holds(Shr(w, k), n, live) && Within(0, n, live) && c in live
    ensures Bit(w, k + c) && w' == ClearBit(w, k + c) && Holds(Shr(w', k), n, live - {c})
    ensures empty <==> live == {c}
  {
    ShrBit(w, k, c);
    assert Bit(Shr(w, k), c);
    w' := ClearBit(w, k + c);
    ShrSet(w, k, c);
    empty := Shr(w', k) == 0;
    HoldsLess(Shr(w, k), n, live, c);
    HoldsNone(Shr(w', k), n, live - {c});
    assert live == {c} <==> live - {c} == {};
  }

  // ---- a map of several words at the front of the page ----

  ghost predicate InWord(first: nat, live: set<nat>, n: nat, i: nat) {
    64 * n + i < first || 64 * n + i in live
  }

  ghost function WordSet(first: nat, live: set<nat>, n: nat): set<nat> {
    set i: nat | i < 64 && InWord(first, live, n, i)
  }

  ghost predicate WordOk(bits: seq<Word>, first: nat, live: set<nat>, n: nat)
    requires n < |bits|
  {
    Holds(bits[n], 64, WordSet(first, live, n))
  }

  ghost predicate FrontMap(bits: seq<Word>, words: nat, first: nat, live: set<nat>) {
    && |bits| == MAP_WORDS && words <= MAP_WORDS && first < 64
    && forall n: nat {:trigger WordOk(bits, first, live, n)} :: n < words ==> WordOk(bits, first, live, n)
  }

  lemma FrontSet(bits: seq<Word>, words: nat, first: nat, live: set<nat>, n: nat, i: nat)
    requires FrontMap(bits, words, first, live) && n < words && i < 64
    ensures FrontMap(bits[n := SetBit(bits[n], i)], words, first, live + {64 * n + i})
  {
    var bits', live' := bits[n := SetBit(bits[n], i)], live + {64 * n + i};
    forall k: nat | k < words ensures WordOk(bits', first, live', k) {
      assert WordOk(bits, first, live, k);
      if k == n {
        HoldsMore(bits[n], 64, WordSet(first, live, n), i);
        assert WordSet(first, live', n) == WordSet(first, live, n) + {i};
      } else {
        assert WordSet(first, live', k) == WordSet(first, live, k);
      }
    }
  }

  lemma FrontClear(bits: seq<Word>, words: nat, first: nat, live: set<nat>, n: nat, i: nat)
    requires FrontMap(bits, words, first, live) && n < words && i < 64 && 64 * n + i >= first
    ensures FrontMap(bits[n := ClearBit(bits[n], i)], words, first, live - {64 * n + i})
  {
    var bits', live' := bits[n := ClearBit(bits[n], i)], live - {64 * n + i};
    forall k: nat | k < words ensures WordOk(bits', first, live', k) {
      assert WordOk(bits, first, live, k);
      if k == n {
        HoldsLess(bits[n], 64, WordSet(first, live, n), i);
        assert WordSet(first, live', n) == WordSet(first, live, n) - {i};
      } else {
        assert WordSet(first, live', k) == WordSet(first, live, k);
      }
    }
  }

  // A word of the bitmap is all ones exactly if its 64 chunks are taken.
  lemma WordBusy(bits: seq<Word>, words: nat, first: nat, live: set<nat>, n: nat)
    requires FrontMap(bits, words, first, live) && n < words
    ensures bits[n] == Ones(64) <==> forall i: nat :: 64 * n <= i < 64 * n + 64 && first <= i ==> i in live
    ensures bits[n] == Ones(64) <==> Packed(0, 64, WordSet(first, live, n))
  {
    assert WordOk(bits, first, live, n);
    HoldsAll(bits[n], 64, WordSet(first, live, n));
    if Packed(0, 64, WordSet(first, live, n)) {
      forall i: nat | 64 * n <= i < 64 * n + 64 && first <= i ensures i in live {
        assert i - 64 * n in WordSet(first, live, n);
      }
    }
  }

  method AllocInFront(bits: seq<Word>, words: nat, first: nat, ghost live: set<nat>) returns (bits': seq<Word>, c: nat, full: bool)
    requires FrontMap(bits, words, first, live) && !Packed(first, 64 * words, live)
    ensures first <= c < 64 * words && c !in live && FrontMap(bits', words, first, live + {c}) && Packed(first, c, live)
    ensures full <==> Packed(first, 64 * words, live + {c})
  {
    var n := 0;
    while bits[n] == Ones(64)
      invariant 0 <= n < words
      invariant Packed(first, 64 * n, live)
      decreases words - n
    {
      WordBusy(bits, words, first, live, n);
      n := n + 1;
    }
    WordBusy(bits, words, first, live, n);
    assert WordOk(bits, first, live, n);
    var i := FindClear(bits[n], 0, 64, WordSet(first, live, n));
    c := 64 * n + i;
    forall j: nat | first <= j < c ensures j in live {
      assert j >= 64 * n ==> j - 64 * n in WordSet(first, live, n);
    }
    bits' := bits[n := SetBit(bits[n], i)];
    FrontSet(bits, words, first, live, n, i);
    full := RestBusy(bits', words, first, live + {c}, n);
  }

  // After a chunk of word n was taken: is the page full now? All words before n are.
  method RestBusy(bits: seq<Word>, words: nat, first: nat, ghost live: set<nat>, n0: nat) returns (full: bool)
    requires FrontMap(bits, words, first, live) && n0 < words && Packed(first, 64 * n0, live)
    ensures full <==> Packed(first, 64 * words, live)
  {
    var n := n0;
    while n < words
      invariant n0 <= n <= words && Packed(first, 64 * n, live)
    {
      WordBusy(bits, words, first, live, n);
      if bits[n] != Ones(64) {
        return false;
      }
      n := n + 1;
    }
    return true;
  }

  lemma WordZero(bits: seq<Word>, words: nat, first: nat, live: set<nat>, n: nat)
    requires FrontMap(bits, words, first, live) && 1 <= n < words
    ensures bits[n] == 0 <==> forall i: nat :: 64 * n <= i < 64 * n + 64 ==> i !in live
  {
    assert WordOk(bits, first, live, n);
    HoldsNone(bits[n], 64, WordSet(first, live, n));
    if forall i: nat :: i < 64 ==> i !in WordSet(first, live, n) {
      forall i: nat | 64 * n <= i < 64 * n + 64 ensures i !in live {
        assert i - 64 * n !in WordSet(first, live, n);
      }
    }
  }

  lemma {:induction false} ShrBound(w: Word, k: nat, n: nat)
    requires w <= Ones(k + n)
    ensures Shr(w, k) <= Ones(n)
  {
    if k > 0 { ShrBound(w / 2, k - 1, n); }
  }

  // The first word less the bits that stand for the bitmap itself.
  lemma FirstZero(bits: seq<Word>, words: nat, first: nat, live: set<nat>)
    requires FrontMap(bits, words, first, live) && words > 0
    ensures Shr(bits[0], first) == 0 <==> forall i: nat :: first <= i < 64 ==> i !in live
  {
    assert WordOk(bits, first, live, 0);
    ShrBound(bits[0], first, 64 - first);
    var rest := set i: nat | i < 64 && i in live && first <= i :: i - first;
    forall i: nat | i < 64 - first ensures Bit(Shr(bits[0], first), i) <==> i in rest {
      ShrBit(bits[0], first, i);
      assert InWord(first, live, 0, first + i) <==> first + i in live;
      assert first + i in live ==> (first + i) - first in rest;
    }
    HoldsNone(Shr(bits[0], first), 64 - first, rest);
    if forall i: nat :: i < 64 - first ==> i !in rest {
      forall i: nat | first <= i < 64 ensures i !in live { assert i - first !in rest; }
    }
  }

  method FreeInFront(bits: seq<Word>, words: nat, first: nat, c: nat, ghost live: set<nat>) returns (bits': seq<Word>, empty: bool)
    requires FrontMap(bits, words, first, live) && Within(first, 64 * words, live) && c in live
    ensures Bit(bits[c / 64], c % 64) && FrontMap(bits', words, first, live - {c})
    ensures empty <==> live == {c}
  {
    var n := c / 64;
    assert WordOk(bits, first, live, n) && InWord(first, live, n, c % 64);
    bits' := bits[n := ClearBit(bits[n], c % 64)];
    FrontClear(bits, words, first, live, n, c % 64);
    empty := NothingLeft(bits', words, first, live - {c});
    assert live == {c} <==> live - {c} == {};
  }

  method NothingLeft(bits: seq<Word>, words: nat, first: nat, ghost live: set<nat>) returns (empty: bool)
    requires FrontMap(bits, words, first, live) && Within(first, 64 * words, live) && words > 0
    ensures empty <==> live == {}
  {
    FirstZero(bits, words, first, live);
    if Shr(bits[0], first) != 0 {
      return false;
    }
    var n := 1;
    while n < words
      invariant 1 <= n <= words
      invariant forall i: nat :: i < 64 * n ==> i !in live
    {
      WordZero(bits, words, first, live, n);
      if bits[n] != 0 {
        return false;
      }
      n := n + 1;
    }
    return true;
  }

  // ---- the first chunk of a fresh page ----

  method FreshFront(page: seq<Word>, words: nat, first: nat) returns (bits: seq<Word>)
    requires |page| == MAP_WORDS && 1 <= words <= MAP_WORDS && first < 63
    ensures FrontMap(bits, words, first, {first})
  {
    bits := page[0 := Ones(first + 1)];
    var n := 1;
    while n < words
      invariant 1 <= n <= words && |bits| == MAP_WORDS && bits[0] == Ones(first + 1)
      invariant forall k :: 1 <= k < n ==> bits[k] == 0
    {
      bits := bits[n := 0];
      n := n + 1;
    }
    forall k: nat | k < words ensures WordOk(bits, first, {first}, k) {
      FreshWord(bits, words, first, k);
    }
  }

  lemma {:induction false} OnesMonotone(a: nat, b: nat)
    requires a <= b
    ensures Ones(a) <= Ones(b)
  {
    if a > 0 { OnesMonotone(a - 1, b - 1); }
  }

  lemma FreshWord(bits: seq<Word>, words: nat, first: nat, k: nat)
    requires |bits| == MAP_WORDS && k < words <= MAP_WORDS && first < 63
    requires bits[0] == Ones(first + 1) && (k > 0 ==> bits[k] == 0)
    ensures WordOk(bits, first, {first}, k)
  {
    OnesMonotone(first + 1, 64);
    forall i: nat | i < 64 ensures Bit(bits[k], i) <==> i in WordSet(first, {first}, k) {
      if k == 0 { OnesAt(first + 1, i); } else { ZeroAt(i); }
      assert InWord(first, {first}, k, i) <==> 64 * k + i <= first;
    }
  }

  // The word with bit k alone set above a smaller part.
  lemma FreshBit(w: Word, m: nat, k: nat, n: nat)
    requires w <= Ones(m) && m <= k && n >= 1
    ensures Holds(Shr(SetBit(w, k), k), n, {0})
  {
    ShrSet(w, k, 0);
    ShrSmall(w, m, k);
    assert Shr(SetBit(w, k), k) == SetBit(0, 0) == 1;
    OnesMonotone(1, n);
    forall i: nat | i < n ensures Bit(1, i) <==> i in {0} {
      if i > 0 { ZeroAt(i - 1); }
    }
  }

  lemma {:induction false} ShrSmall(w: Word, n: nat, k: nat)
    requires w <= Ones(n) && n <= k
    ensures Shr(w, k) == 0
  {
    if k > 0 { ShrSmall(w / 2, if n > 0 then n - 1 else 0, k - 1); }
  }

  // ---- one page, by the encoding of its chunk size ----

  // The lowest free chunk is taken.
  method TakeChunk(word: Word, front: seq<Word>, s: Shift, ghost live: set<nat>) returns (word': Word, front': seq<Word>, i: nat, full: bool)
    requires Encoded(word, front, s, live) && |front| == MAP_WORDS && !Full(s, live)
    ensures First(s) <= i < Cap(s) && i !in live && Packed(First(s), i, live) && |front'| == MAP_WORDS
    ensures Encoded(word', front', s, live + {i})
    ensures full <==> Full(s, live + {i})
  {
    word', front' := word, front;
    if s < EXACT_SHIFT {
      front', i, full := AllocInFront(front, Words(s), First(s), live);
    } else if s == EXACT_SHIFT {
      word', i, full := AllocInWord(word, 0, 64, live);
    } else {
      word', i, full := AllocInWord(word, MAP_SHIFT, Cap(s), live);
      LowBits(word, 4, MAP_SHIFT + i);
    }
  }

  // The bit of a live chunk is set; clearing it leaves the other chunks.
  method DropChunk(word: Word, front: seq<Word>, s: Shift, i: nat, ghost live: set<nat>) returns (word': Word, front': seq<Word>, empty: bool)
    requires Encoded(word, front, s, live) && |front| == MAP_WORDS && InRange(s, live) && i in live
    ensures |front'| == MAP_WORDS && Encoded(word', front', s, live - {i})
    ensures empty <==> live == {i}
  {
    word', front' := word, front;
    assert First(s) <= i < Cap(s);
    if s < EXACT_SHIFT {
      front', empty := FreeInFront(front, Words(s), First(s), i, live);
    } else if s == EXACT_SHIFT {
      word', empty := FreeInWord(word, 0, 64, i, live);
    } else {
      word', empty := FreeInWord(word, MAP_SHIFT, Cap(s), i, live);
      LowBits(word, 4, MAP_SHIFT + i);
    }
  }

  method FreshPage(front: seq<Word>, s: Shift) returns (word: Word, front': seq<Word>, i: nat)
    requires |front| == MAP_WORDS
    ensures |front'| == MAP_WORDS && i == First(s) && Encoded(word, front', s, {i})
  {
    front' := front;
    i := First(s);
    if s < EXACT_SHIFT {
      front' := FreshFront(front, Words(s), i);
      word := s;
    } else if s == EXACT_SHIFT {
      word := 1;
      FreshBit(0, 0, 0, 64);
    } else {
      word := SetBit(s, MAP_SHIFT);
      ShiftFits(s);
      FreshBit(s, 4, MAP_SHIFT, Cap(s));
      LowBits(s, 4, MAP_SHIFT);
    }
  }

  lemma ShiftFits(s: Shift)
    ensures s <= Ones(4) && Low(s, 4) == s
  {
    assert Ones(2) == 3;
    assert Ones(4) == 3 + 4 * Ones(2);
    LowSmall(s, 4);
  }

  lemma {:induction false} LowSmall(x: nat, k: nat)
    requires x <= Ones(k)
    ensures Low(x, k) == x
  {
    if k > 0 { LowSmall(x / 2, k - 1); }
  }
}
