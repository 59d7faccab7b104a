/** The growable bitmap that hands out local path ids and MPLS labels. A 64-bit word is
    represented by its 64 bits, least significant first. The abstract value of a bitmap is
    the set of flagged indices. */
module Bitmaps {

  const WORD := 64

  type Word = w: seq<bool> | |w| == WORD witness ZERO

  const ZERO: seq<bool> := seq(WORD, _ => false)
  const MAX_UINT64: Word := seq(WORD, _ => true)

  /** Whether index `i` is flagged in the words `ws`. */
  predicate Flagged(ws: seq<Word>, i: nat) {
    i / WORD < |ws| && ws[i / WORD][i % WORD]
  }

  class Bitmap {
    var bitmap: seq<Word>

    /** The number of indices the bitmap can hold. */
    function Capacity(): nat
      reads this
    {
      WORD * |bitmap|
    }

    /** The flagged indices. */
    ghost function Flags(): (s: set<nat>)
      reads this
      ensures forall i: nat :: i in s <==> Flagged(bitmap, i)
      ensures forall i :: i in s ==> i < Capacity()
    {
      set i: nat | i < Capacity() && Flagged(bitmap, i)
    }

    constructor (size: nat)
      ensures Flags() == {}
      ensures Capacity() == WORD * ((size + WORD - 1) / WORD)
    {
      bitmap := seq((size + WORD - 1) / WORD, _ => ZERO);
    }

    method Flag(i: nat)
      requires i < Capacity()
      modifies this
      ensures Flags() == old(Flags()) + {i} && Capacity() == old(Capacity())
    {
      bitmap := bitmap[i / WORD := bitmap[i / WORD][i % WORD := true]];
    }

    method Unflag(i: nat)
      requires i < Capacity()
      modifies this
      ensures Flags() == old(Flags()) - {i} && Capacity() == old(Capacity())
    {
      bitmap := bitmap[i / WORD := bitmap[i / WORD][i % WORD := false]];
    }

    method GetFlag(i: nat) returns (b: bool)
      requires i < Capacity()
      ensures b <==> i in Flags()
    {
      b := bitmap[i / WORD][i % WORD];
    }

    /** Flags the lowest free index and returns it; `found` is false for the source's
        "no space" error, which leaves the bitmap unchanged. */
    method FindAndSetZeroBit() returns (found: bool, r: nat)
      modifies this
      ensures Capacity() == old(Capacity())
      ensures found ==> r < Capacity() && r !in old(Flags()) && Flags() == old(Flags()) + {r}
      ensures found ==> forall k: nat :: k < r ==> k in old(Flags())
      ensures !found ==> Flags() == old(Flags()) && r == 0
      ensures !found ==> forall k: nat :: k < Capacity() ==> k in old(Flags())
    {
      for i := 0 to |bitmap|
        invariant bitmap == old(bitmap)
        invariant forall k: nat :: k < WORD * i ==> Flagged(bitmap, k)
      {
        if bitmap[i] == MAX_UINT64 {
          continue;
        }
        for j := 0 to WORD
          invariant bitmap == old(bitmap)
          invariant forall k: nat :: k < j ==> bitmap[i][k]
        {
          if !bitmap[i][j] {
            r := i * WORD + j;
            Flag(r);
            return true, r;
          }
        }
      }
      return false, 0;
    }

    /** Adds one empty word. */
    method Expand()
      modifies this
      ensures Flags() == old(Flags()) && Capacity() == old(Capacity()) + WORD
    {
      bitmap := bitmap + [ZERO];
    }
  }
}
