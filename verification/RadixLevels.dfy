/** The default preallocation of src/core/ngx_radix_tree.c. */
module RadixLevels {
  import opened RadixBits
  import opened RadixTree

  // The nodes of that many levels fit a page, and those of one level more do not.
  lemma DefaultLevels()
    ensures Pow(Levels(-1) + 1) - 1 <= 4096 / 32 < Pow(Levels(-1) + 2) - 1
  {
    assert Pow(4) == 16;
    assert Pow(7) == 8 * Pow(4) && Pow(8) == 2 * Pow(7);
  }
}
