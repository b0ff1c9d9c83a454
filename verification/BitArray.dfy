/** The bit-packed masks of KLEE's memory objects: 32 flags to a word. */
module BitArrays {
  const WORD: nat := 32

  function Mask(k: bv5): bv32 { (1 as bv32) << k }

  predicate At(w: bv32, j: bv5) { (w >> j) & 1 == 1 }

  lemma AtTest(w: bv32, j: bv5)
    ensures At(w, j) == (w & Mask(j) != 0)
  {
  }

  lemma AtAnd(x: bv32, y: bv32, j: bv5)
    ensures At(x & y, j) == (At(x, j) && At(y, j))
  {
    AtTest(x, j);
    AtTest(y, j);
    AtTest(x & y, j);
  }

  lemma AtMask(j: bv5, k: bv5)
    ensures At(!Mask(k), j) == (j != k)
  {
  }

  lemma AtAfterSet(w: bv32, j: bv5, k: bv5)
    ensures At(w | Mask(k), j) == (j == k || At(w, j))
  {
  }

  lemma AtAfterUnset(w: bv32, j: bv5, k: bv5)
    ensures At(w & !Mask(k), j) == (j != k && At(w, j))
  {
    hide At;
    AtAnd(w, !Mask(k), j);
    AtMask(j, k);
  }

  lemma AtFill(j: bv5)
    ensures At(0xFFFF_FFFF, j) && !At(0, j)
  {
  }

  function Place(i: nat): bv5 { (i % WORD) as bv5 }

  lemma SamePlace(i: nat, k: nat)
    ensures i / WORD == k / WORD && Place(i) == Place(k) ==> i == k
  {
  }

  class BitArray {
    const bits: array<bv32>

    /** How many flags fit. */
    ghost function Capacity(): nat { bits.Length * WORD }

    predicate Get(i: nat)
      requires i < Capacity()
      reads bits
    {
      At(bits[i / WORD], Place(i))
    }

    constructor (size: nat, value: bool := false)
      ensures fresh(bits) && Capacity() >= size
      ensures forall i: nat :: i < Capacity() ==> Get(i) == value
    {
      bits := new bv32[(size + WORD - 1) / WORD](_ => if value then 0xFFFF_FFFF else 0);
      new;
      forall i: nat | i < Capacity() ensures Get(i) == value {
        AtFill(Place(i));
      }
    }

    constructor Copy(b: BitArray, size: nat)
      requires b.Capacity() >= size
      ensures fresh(bits) && Capacity() >= size
      ensures forall i: nat :: i < size ==> Get(i) == b.Get(i)
    {
      bits := new bv32[(size + WORD - 1) / WORD](i requires 0 <= i < (size + WORD - 1) / WORD <= b.bits.Length reads b.bits => b.bits[i]);
    }

    method Set(k: nat)
      requires k < Capacity()
      modifies bits
      ensures forall i: nat :: i < Capacity() ==> Get(i) == (i == k || old(Get(i)))
    {
      hide At;
      bits[k / WORD] := bits[k / WORD] | Mask(Place(k));
      forall i: nat | i < Capacity() ensures Get(i) == (i == k || old(Get(i))) {
        AtAfterSet(old(bits[k / WORD]), Place(i), Place(k));
        SamePlace(i, k);
      }
    }

    method Unset(k: nat)
      requires k < Capacity()
      modifies bits
      ensures forall i: nat :: i < Capacity() ==> Get(i) == (i != k && old(Get(i)))
    {
      hide At;
      bits[k / WORD] := bits[k / WORD] & !Mask(Place(k));
      forall i: nat | i < Capacity() ensures Get(i) == (i != k && old(Get(i))) {
        AtAfterUnset(old(bits[k / WORD]), Place(i), Place(k));
        SamePlace(i, k);
      }
    }
  }
}
