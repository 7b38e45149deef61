/**
 The EasyFS allocation bitmap: blocks of 64 words of 64 bits, allocated first fit.
 */
module EasyBitmap {

  const BLOCK_BITS: nat := 4096

  /** A 64-bit word, least significant bit first. */
  type Word = w: seq<bool> | |w| == 64 witness seq(64, _ => false)

  type BitBlock = b: seq<Word> | |b| == 64 witness seq(64, _ => seq(64, _ => false))

  /** A bit's block, word and place in the word. */
  datatype Place = Place(block: nat, word: nat, inner: nat)

  function Decompose(bit: nat): (p: Place)
    ensures p.word < 64 && p.inner < 64 && bit == Compose(p.block, p.word, p.inner)
  {
    Place(bit / BLOCK_BITS, bit % BLOCK_BITS / 64, bit % BLOCK_BITS % 64)
  }

  function Compose(block: nat, word: nat, inner: nat): nat { block * 4096 + word * 64 + inner }

  lemma DecomposeCompose(p: Place)
    requires p.word < 64 && p.inner < 64
    ensures Decompose(Compose(p.block, p.word, p.inner)) == p
  {
    var n, m := Compose(p.block, p.word, p.inner), 64 * p.word + p.inner;
    assert n == 4096 * p.block + m && 0 <= m < 4096;
    assert n / BLOCK_BITS == p.block && n % BLOCK_BITS == m;
    assert m / 64 == p.word && m % 64 == p.inner;
  }

  function Size(m: seq<BitBlock>): nat { |m| * 4096 }

  function Bit(m: seq<BitBlock>, n: nat): bool
    requires n < Size(m)
  {
    var p := Decompose(n);
    m[p.block][p.word][p.inner]
  }

  function SetBit(m: seq<BitBlock>, n: nat, v: bool): seq<BitBlock>
    requires n < Size(m)
  {
    var p := Decompose(n);
    m[p.block := m[p.block][p.word := m[p.block][p.word][p.inner := v]]]
  }

  lemma SetBitAt(m: seq<BitBlock>, n: nat, v: bool, i: nat)
    requires n < Size(m) && i < Size(m)
    ensures Size(SetBit(m, n, v)) == Size(m)
    ensures Bit(SetBit(m, n, v), i) == if i == n then v else Bit(m, i)
  {
  }

  function FreeBlock(): (b: BitBlock)
    ensures forall i, j | 0 <= i < 64 && 0 <= j < 64 :: !b[i][j]
  {
    seq(64, _ => seq(64, _ => false))
  }

  predicate FullWord(w: Word) { forall i | 0 <= i < 64 :: w[i] }

  predicate FullBlock(b: BitBlock) { forall i | 0 <= i < 64 :: FullWord(b[i]) }

  /** Every bit before `n` is set. */
  ghost predicate SetBefore(m: seq<BitBlock>, n: nat)
    requires n <= Size(m)
  {
    forall i | 0 <= i < n :: Bit(m, i)
  }

  /** The bits before a place are set when its earlier blocks, words and bits are. */
  lemma FullPrefix(m: seq<BitBlock>, p: Place)
    requires p.block < |m| && p.word < 64 && p.inner < 64
    requires forall a | 0 <= a < p.block :: FullBlock(m[a])
    requires forall a | 0 <= a < p.word :: FullWord(m[p.block][a])
    requires forall a | 0 <= a < p.inner :: m[p.block][p.word][a]
    ensures Compose(p.block, p.word, p.inner) < Size(m) && SetBefore(m, Compose(p.block, p.word, p.inner))
  {
    forall i | 0 <= i < Compose(p.block, p.word, p.inner) ensures Bit(m, i) {
      var q := Decompose(i);
      if q.block < p.block {
        assert FullBlock(m[q.block]) && FullWord(m[q.block][q.word]);
      } else {
        assert q.block == p.block;
      }
    }
  }

  lemma FullAll(m: seq<BitBlock>)
    requires forall a | 0 <= a < |m| :: FullBlock(m[a])
    ensures SetBefore(m, Size(m))
  {
    forall i | 0 <= i < Size(m) ensures Bit(m, i) {
      var q := Decompose(i);
      assert FullBlock(m[q.block]) && FullWord(m[q.block][q.word]);
    }
  }

  // ---------------------------------------------------------------- counting

  function Ones(w: seq<bool>): nat {
    if w == [] then 0 else Ones(w[..|w| - 1]) + (if w[|w| - 1] then 1 else 0)
  }

  /** The set bits among the first `n`. */
  function UsedBits(m: seq<BitBlock>, n: nat): set<nat>
    requires n <= Size(m)
  {
    set i: nat | i < n && Bit(m, i)
  }

  lemma UsedBitsNext(m: seq<BitBlock>, n: nat)
    requires n < Size(m)
    ensures |UsedBits(m, n + 1)| == |UsedBits(m, n)| + if Bit(m, n) then 1 else 0
  {
    assert UsedBits(m, n + 1) == UsedBits(m, n) + if Bit(m, n) then {n} else {};
  }

  lemma {:induction false} UsedInWord(m: seq<BitBlock>, block: nat, word: nat, c: nat)
    requires block < |m| && word < 64 && c <= 64
    ensures Compose(block, word, c) <= Size(m)
    ensures |UsedBits(m, Compose(block, word, c))| == |UsedBits(m, Compose(block, word, 0))| + Ones(m[block][word][..c])
    decreases c
  {
    if c > 0 {
      UsedInWord(m, block, word, c - 1);
      UsedBitsNext(m, Compose(block, word, c - 1));
      DecomposeCompose(Place(block, word, c - 1));
      assert m[block][word][..c][..c - 1] == m[block][word][..c - 1];
    }
  }

  class Bitmap {
    var blocks: seq<BitBlock>

    constructor (n: nat)
      ensures |blocks| == n && forall i | 0 <= i < Size(blocks) :: !Bit(blocks, i)
    {
      blocks := seq(n, _ => FreeBlock());
    }

    /** Allocate the lowest free bit. */
    method Alloc() returns (found: bool, bit: nat)
      modifies this
      ensures found ==>
                && bit < Size(old(blocks)) && !Bit(old(blocks), bit) && SetBefore(old(blocks), bit)
                && blocks == SetBit(old(blocks), bit, true)
      ensures !found ==> blocks == old(blocks) && SetBefore(blocks, Size(blocks))
    {
      for a := 0 to |blocks|
        invariant blocks == old(blocks)
        invariant forall i | 0 <= i < a :: FullBlock(blocks[i])
      {
        var b := 0;
        while b < 64 && FullWord(blocks[a][b])
          invariant b <= 64 && forall i | 0 <= i < b :: FullWord(blocks[a][i])
        {
          b := b + 1;
        }
        if b < 64 {
          var c := TrailingOnes(blocks[a][b]);
          FullPrefix(blocks, Place(a, b, c));
          DecomposeCompose(Place(a, b, c));
          bit := Compose(a, b, c);
          blocks := blocks[a := blocks[a][b := blocks[a][b][c := true]]];
          return true, bit;
        }
      }
      FullAll(blocks);
      return false, 0;
    }

    static method TrailingOnes(w: Word) returns (c: nat)
      requires !FullWord(w)
      ensures c < 64 && !w[c] && forall i | 0 <= i < c :: w[i]
    {
      c := 0;
      while w[c]
        invariant c < 64 && forall i | 0 <= i < c :: w[i]
        decreases 64 - c
      {
        c := c + 1;
      }
    }

    /** Free an allocated bit. */
    method Dealloc(bit: nat)
      requires bit < Size(blocks) && Bit(blocks, bit)
      modifies this
      ensures blocks == SetBit(old(blocks), bit, false)
    {
      var p := Decompose(bit);
      blocks := blocks[p.block := blocks[p.block][p.word := blocks[p.block][p.word][p.inner := false]]];
    }

    method CountAllocated() returns (used: nat)
      ensures used == |UsedBits(blocks, Size(blocks))|
    {
      hide UsedBits, Ones;
      used := 0;
      NoneUsed(blocks);
      for a := 0 to |blocks|
        invariant used == |UsedBits(blocks, a * 4096)|
      {
        for b := 0 to 64
          invariant used == |UsedBits(blocks, a * 4096 + b * 64)|
        {
          UsedByWord(blocks, a, b);
          used := used + Ones(blocks[a][b]);
        }
      }
    }
  }

  lemma NoneUsed(m: seq<BitBlock>)
    ensures |UsedBits(m, 0)| == 0
  {
    assert UsedBits(m, 0) == {};
  }

  lemma UsedByWord(m: seq<BitBlock>, block: nat, word: nat)
    requires block < |m| && word < 64
    ensures |UsedBits(m, block * 4096 + word * 64 + 64)| == |UsedBits(m, block * 4096 + word * 64)| + Ones(m[block][word])
  {
    hide UsedBits, Ones;
    UsedInWord(m, block, word, 64);
    assert m[block][word][..64] == m[block][word];
  }
}
