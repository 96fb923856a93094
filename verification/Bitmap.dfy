/**
 The free-block bitmap of kern/fs/sfs/bitmap.c.  A 32-bit word is given by its bits, lowest first;
 a set bit means that the block is free.
 */
module Bitmap {

  const WORD_BITS := 32

  type Word = w: seq<bool> | |w| == WORD_BITS witness seq(WORD_BITS, i => false)

  /** The number of set bits. */
  function Count(bits: seq<bool>): nat {
    if bits == [] then 0 else Count(bits[..|bits| - 1]) + if bits[|bits| - 1] then 1 else 0
  }

  lemma {:induction false} CountUpdate(bits: seq<bool>, i: nat, b: bool)
    requires i < |bits|
    ensures Count(bits[i := b]) == Count(bits) + (if b then 1 else 0) - (if bits[i] then 1 else 0)
  {
    var n := |bits| - 1;
    if i == n {
      assert bits[i := b][..n] == bits[..n];
    } else {
      assert bits[i := b][..n] == bits[..n][i := b];
      CountUpdate(bits[..n], i, b);
    }
  }

  lemma CountPositive(bits: seq<bool>, i: nat)
    requires i < |bits| && bits[i]
    ensures Count(bits) > 0
  {
    CountUpdate(bits, i, false);
  }

  lemma {:induction false} CountZero(bits: seq<bool>)
    requires forall i | 0 <= i < |bits| :: !bits[i]
    ensures Count(bits) == 0
  {
    if bits != [] {
      CountZero(bits[..|bits| - 1]);
    }
  }

  lemma {:induction false} CountAll(bits: seq<bool>)
    requires forall i | 0 <= i < |bits| :: bits[i]
    ensures Count(bits) == |bits|
  {
    if bits != [] {
      CountAll(bits[..|bits| - 1]);
    }
  }

  lemma {:induction false} CountConcat(a: seq<bool>, b: seq<bool>)
    ensures Count(a + b) == Count(a) + Count(b)
  {
    if b == [] {
      assert a + b == a;
    } else {
      assert (a + b)[..|a + b| - 1] == a + b[..|b| - 1];
      CountConcat(a, b[..|b| - 1]);
    }
  }

  /** The lowest set bit, or the length if there is none. */
  function Lowest(bits: seq<bool>): (k: nat)
    ensures k <= |bits| && (k < |bits| ==> bits[k]) && forall i | 0 <= i < k :: !bits[i]
  {
    LowestFrom(bits, 0)
  }

  function LowestFrom(bits: seq<bool>, from: nat): (k: nat)
    requires from <= |bits| && forall i | 0 <= i < from :: !bits[i]
    ensures from <= k <= |bits| && (k < |bits| ==> bits[k]) && forall i | 0 <= i < k :: !bits[i]
    decreases |bits| - from
  {
    if from == |bits| || bits[from] then from else LowestFrom(bits, from + 1)
  }

  /** What the ws say of each bit. */
  ghost predicate Spells(words: seq<Word>, bits: seq<bool>, nbits: nat) {
    && nbits <= |words| * WORD_BITS == |bits|
    && (forall ix: nat, o: nat | ix < |words| && o < WORD_BITS :: words[ix][o] == bits[ix * WORD_BITS + o])
    && (forall i | nbits <= i < |bits| :: !bits[i])
  }

  class BitMap {
    var nbits: nat
    var words: seq<Word>
    ghost var bits: seq<bool>   // all bits of all ws; those from nbits on stay clear

    ghost predicate Valid()
      reads this
    {
      Spells(words, bits, nbits)
    }

    /** bitmap_create: every bit is set but the leftover ones of the last word. */
    constructor (n: nat)
      requires n > 0
      ensures Valid() && nbits == n
      ensures |bits| < n + WORD_BITS && forall i | 0 <= i < |bits| :: bits[i] <==> i < n
    {
      var nwords := (n + WORD_BITS - 1) / WORD_BITS;
      var ones: Word := seq(WORD_BITS, i => true);
      var ws: seq<Word> := seq(nwords, i => ones);
      if n != nwords * WORD_BITS {
        var ix := nwords - 1;
        var over := n - ix * WORD_BITS;
        assert 0 < over < WORD_BITS;
        var o := over;
        while o < WORD_BITS
          invariant over <= o <= WORD_BITS && |ws| == nwords
          invariant forall k | 0 <= k < ix :: ws[k] == ones
          invariant forall k | 0 <= k < WORD_BITS :: ws[ix][k] == (k < over || k >= o)
        {
          ws := ws[ix := ws[ix][o := !ws[ix][o]]];
          o := o + 1;
        }
      }
      nbits, words := n, ws;
      bits := seq(nwords * WORD_BITS, i => i < n);
    }

    /** bitmap_alloc: takes the lowest free block, or fails when there is none. */
    method Alloc() returns (ok: bool, index: nat)
      requires Valid()
      modifies this
      ensures Valid() && nbits == old(nbits)
      ensures ok <==> Lowest(old(bits)) < |old(bits)|
      ensures ok ==> index == Lowest(old(bits)) < nbits && bits == old(bits)[index := false]
      ensures !ok ==> bits == old(bits) && Count(bits) == 0
    {
      var ix := 0;
      while ix < |words|
        invariant ix <= |words|
        invariant ClearTo(words, ix, 0)
        invariant words == old(words) && bits == old(bits) && nbits == old(nbits)
      {
        if exists o | 0 <= o < WORD_BITS :: words[ix][o] {
          var o := 0;
          while o < WORD_BITS
            invariant o <= WORD_BITS
            invariant forall k | 0 <= k < o :: !words[ix][k]
            invariant words == old(words) && bits == old(bits) && nbits == old(nbits)
          {
            if words[ix][o] {
              index := ix * WORD_BITS + o;
              LowestIs(words, bits, nbits, ix, o);
              FlipSpells(words, bits, nbits, ix, o);
              words := words[ix := words[ix][o := !words[ix][o]]];
              bits := bits[index := false];
              return true, index;
            }
            o := o + 1;
          }
          assert false;
        }
        ix := ix + 1;
      }
      AllClear(words, bits, nbits);
      CountZero(bits);
      return false, 0;
    }

    /** bitmap_test. */
    method Test(index: nat) returns (b: bool)
      requires Valid() && index < nbits
      ensures b == bits[index]
    {
      b := words[index / WORD_BITS][index % WORD_BITS];
    }

    /** bitmap_free: gives a block back. */
    method Free(index: nat)
      requires Valid() && index < nbits && !bits[index]
      modifies this
      ensures Valid() && nbits == old(nbits) && bits == old(bits)[index := true]
    {
      var ix, o := index / WORD_BITS, index % WORD_BITS;
      assert !words[ix][o];
      FlipSpells(words, bits, nbits, ix, o);
      words := words[ix := words[ix][o := true]];
      bits := bits[index := true];
    }
  }

  /** Flipping one bit of one word flips one bit. */
  lemma FlipSpells(words: seq<Word>, bits: seq<bool>, nbits: nat, ix: nat, o: nat)
    requires Spells(words, bits, nbits) && ix < |words| && o < WORD_BITS && ix * WORD_BITS + o < nbits
    ensures var b := !words[ix][o];
            Spells(words[ix := words[ix][o := b]], bits[ix * WORD_BITS + o := b], nbits)
  {
  }

  /** No bit is set before bit `o` of word `ix`. */
  ghost predicate ClearTo(words: seq<Word>, ix: nat, o: nat) {
    && (forall x: nat, k: nat | x < ix && x < |words| && k < WORD_BITS :: !words[x][k])
    && (forall k: nat | k < o && ix < |words| && k < WORD_BITS :: !words[ix][k])
  }

  lemma BitsBelow(words: seq<Word>, bits: seq<bool>, nbits: nat, ix: nat, o: nat, i: nat)
    requires Spells(words, bits, nbits) && ix <= |words| && o < WORD_BITS && ClearTo(words, ix, o)
    requires i < ix * WORD_BITS + o && i < |bits|
    ensures !bits[i]
  {
    var x, k := i / WORD_BITS, i % WORD_BITS;
    assert words[x][k] == bits[x * WORD_BITS + k];
  }

  lemma LowestIs(words: seq<Word>, bits: seq<bool>, nbits: nat, ix: nat, o: nat)
    requires Spells(words, bits, nbits) && ix < |words| && o < WORD_BITS && ClearTo(words, ix, o) && words[ix][o]
    ensures Lowest(bits) == ix * WORD_BITS + o < nbits
  {
    assert bits[ix * WORD_BITS + o];
    forall i: nat | i < ix * WORD_BITS + o ensures !bits[i] {
      BitsBelow(words, bits, nbits, ix, o, i);
    }
  }

  lemma AllClear(words: seq<Word>, bits: seq<bool>, nbits: nat)
    requires Spells(words, bits, nbits) && ClearTo(words, |words|, 0)
    ensures forall i | 0 <= i < |bits| :: !bits[i]
  {
    forall i: nat | i < |bits| ensures !bits[i] {
      BitsBelow(words, bits, nbits, |words|, 0, i);
    }
  }
}
