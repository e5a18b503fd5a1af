/** The bitmap of uploaded parts: an array of 64-bit words that denotes a set of part indices,
    and the big-endian byte form in which it is stored. */
module Bitmaps {

  // ---------- One word ----------

  function And(v: bv64, w: bv64): bv64 { v & w }

  function Or(v: bv64, w: bv64): bv64 { v | w }

  function AndNot(v: bv64, w: bv64): bv64 { v & !w }

  predicate NonZero(w: bv64) { w != 0 }

  /** The word 1 shifted left k times: only bit k is set. */
  function Mask(k: nat): bv64
    requires k < 64
  {
    if k == 0 then 1 else Mask(k - 1) << 1
  }

  predicate Bit(w: bv64, k: nat)
    requires k < 64
  {
    NonZero(And(w, Mask(k)))
  }

  lemma ShiftAnd(m: bv64, n: bv64)
    ensures (m << 1) & (n << 1) == (m & n) << 1
    ensures 1 & (m << 1) == 0
  {
  }

  lemma AndCommutes(m: bv64, n: bv64)
    ensures And(m, n) == And(n, m)
  {
  }

  lemma OrOther(w: bv64, m: bv64, n: bv64)
    requires And(m, n) == 0
    ensures And(Or(w, m), n) == And(w, n)
  {
  }

  lemma OrSelf(w: bv64, m: bv64)
    requires NonZero(m)
    ensures NonZero(And(Or(w, m), m))
  {
  }

  lemma AndNotOther(w: bv64, m: bv64, n: bv64)
    requires And(m, n) == 0
    ensures And(AndNot(w, m), n) == And(w, n)
  {
  }

  lemma AndNotSelf(w: bv64, m: bv64)
    ensures !NonZero(And(AndNot(w, m), m))
  {
  }

  lemma MaskSteps()
    ensures Mask(31) == 0x8000_0000
    ensures Mask(63) == 0x8000_0000_0000_0000
  {
    assert Mask(7) == 0x80;
    assert Mask(15) == 0x8000;
    assert Mask(23) == 0x80_0000;
    assert Mask(39) == 0x80_0000_0000;
    assert Mask(47) == 0x8000_0000_0000;
    assert Mask(55) == 0x80_0000_0000_0000;
  }

  /** No bit is shifted out of the word. */
  lemma {:induction false} MaskNotZero(k: nat)
    requires k < 64
    ensures NonZero(Mask(k))
    decreases 64 - k
  {
    if k == 63 {
      MaskSteps();
    } else {
      MaskNotZero(k + 1);
    }
  }

  lemma {:induction false} MasksDisjointUp(i: nat, j: nat)
    requires i < j < 64
    ensures And(Mask(i), Mask(j)) == 0
  {
    if i == 0 {
      ShiftAnd(Mask(j - 1), 0);
    } else {
      MasksDisjointUp(i - 1, j - 1);
      ShiftAnd(Mask(i - 1), Mask(j - 1));
    }
  }

  lemma MasksDisjoint(i: nat, j: nat)
    requires i < 64 && j < 64 && i != j
    ensures And(Mask(i), Mask(j)) == 0
  {
    hide And, Mask;
    if i < j {
      MasksDisjointUp(i, j);
    } else {
      MasksDisjointUp(j, i);
      AndCommutes(Mask(i), Mask(j));
    }
  }

  lemma SetOneBit(w: bv64, i: nat, j: nat)
    requires i < 64 && j < 64
    ensures Bit(Or(w, Mask(i)), j) <==> Bit(w, j) || i == j
  {
    hide And, Or, NonZero, Mask;
    if i == j {
      MaskNotZero(i);
      OrSelf(w, Mask(i));
    } else {
      MasksDisjoint(i, j);
      OrOther(w, Mask(i), Mask(j));
    }
  }

  lemma ClearOneBit(w: bv64, i: nat, j: nat)
    requires i < 64 && j < 64
    ensures Bit(AndNot(w, Mask(i)), j) <==> Bit(w, j) && i != j
  {
    hide And, AndNot, NonZero, Mask;
    if i == j {
      AndNotSelf(w, Mask(i));
    } else {
      MasksDisjoint(i, j);
      AndNotOther(w, Mask(i), Mask(j));
    }
  }

  lemma NoBitInZero(k: nat)
    requires k < 64
    ensures !Bit(0, k)
  {
    hide Mask;
    var m := Mask(k);
    assert 0 & m == 0;
  }

  // ---------- The set of indices ----------

  /** The indices below size whose bit is set. */
  ghost function IndexSet(words: seq<bv64>, size: nat): set<nat>
  {
    set i: nat | i < size && i / 64 < |words| && Bit(words[i / 64], i % 64)
  }

  /** Setting one bit of one word adds exactly one index, also across word boundaries. */
  lemma SetAddsOneIndex(words: seq<bv64>, size: nat, index: nat)
    requires index < size <= 64 * |words|
    ensures IndexSet(words[index / 64 := Or(words[index / 64], Mask(index % 64))], size)
         == IndexSet(words, size) + {index}
  {
    hide Bit, Or, Mask;
    var w := index / 64;
    var words' := words[w := Or(words[w], Mask(index % 64))];
    forall i: nat | i < size
      ensures i in IndexSet(words', size) <==> i in IndexSet(words, size) + {index}
    {
      if i / 64 == w {
        SetOneBit(words[w], index % 64, i % 64);
      }
    }
  }

  /** Clearing one bit of one word removes exactly one index. */
  lemma {:induction false} ClearRemovesOneIndex(words: seq<bv64>, size: nat, index: nat)
    requires index < size <= 64 * |words|
    ensures IndexSet(words[index / 64 := AndNot(words[index / 64], Mask(index % 64))], size)
         == IndexSet(words, size) - {index}
  {
    hide Bit, AndNot, Mask;
    var w := index / 64;
    var words' := words[w := AndNot(words[w], Mask(index % 64))];
    forall i: nat | i < size
      ensures i in IndexSet(words', size) <==> i in IndexSet(words, size) - {index}
    {
      if i / 64 == w {
        ClearOneBit(words[w], index % 64, i % 64);
      }
    }
  }

  // ---------- Bytes ----------

  /** Byte k of a word, most significant first. */
  function ByteOf(w: bv64, k: nat): bv8
    requires k < 8
  {
    match k
    case 0 => ((w >> 56) & 0xff) as bv8
    case 1 => ((w >> 48) & 0xff) as bv8
    case 2 => ((w >> 40) & 0xff) as bv8
    case 3 => ((w >> 32) & 0xff) as bv8
    case 4 => ((w >> 24) & 0xff) as bv8
    case 5 => ((w >> 16) & 0xff) as bv8
    case 6 => ((w >> 8) & 0xff) as bv8
    case _ => (w & 0xff) as bv8
  }

  function Join(b0: bv8, b1: bv8, b2: bv8, b3: bv8, b4: bv8, b5: bv8, b6: bv8, b7: bv8): bv64 {
    ((b0 as bv64) << 56) | ((b1 as bv64) << 48) | ((b2 as bv64) << 40) | ((b3 as bv64) << 32)
    | ((b4 as bv64) << 24) | ((b5 as bv64) << 16) | ((b6 as bv64) << 8) | (b7 as bv64)
  }

  lemma JoinBytes(w: bv64)
    ensures Join(ByteOf(w, 0), ByteOf(w, 1), ByteOf(w, 2), ByteOf(w, 3),
                 ByteOf(w, 4), ByteOf(w, 5), ByteOf(w, 6), ByteOf(w, 7)) == w
  {
  }

  function Words(p: seq<bv8>): (words: seq<bv64>)
  {
    seq(|p| / 8, i requires 0 <= i < |p| / 8 =>
      Join(p[8*i], p[8*i+1], p[8*i+2], p[8*i+3], p[8*i+4], p[8*i+5], p[8*i+6], p[8*i+7]))
  }

  function Bytes(words: seq<bv64>): (p: seq<bv8>)
  {
    seq(8 * |words|, i requires 0 <= i < 8 * |words| => ByteOf(words[i / 8], i % 8))
  }

  lemma ByteAt(words: seq<bv64>, i: nat, k: nat)
    requires i < |words| && k < 8
    ensures Bytes(words)[8*i + k] == ByteOf(words[i], k)
  {
    hide ByteOf;
    assert (8*i + k) / 8 == i && (8*i + k) % 8 == k;
  }

  function WordBytes(w: bv64): (p: seq<bv8>) {
    [ByteOf(w, 0), ByteOf(w, 1), ByteOf(w, 2), ByteOf(w, 3),
     ByteOf(w, 4), ByteOf(w, 5), ByteOf(w, 6), ByteOf(w, 7)]
  }

  lemma BytesOfNone()
    ensures Bytes([]) == []
  {
  }

  lemma BytesOfOneMore(words: seq<bv64>, w: bv64)
    ensures |Bytes(words)| == 8 * |words|
    ensures Bytes(words + [w]) == Bytes(words) + WordBytes(w)
  {
    hide ByteOf;
    var more := words + [w];
    forall k | 0 <= k < 8
      ensures Bytes(more)[8 * |words| + k] == WordBytes(w)[k]
    {
      ByteAt(more, |words|, k);
    }
    forall k | 0 <= k < 8 * |words|
      ensures Bytes(more)[k] == Bytes(words)[k]
    {
      assert more[k / 8] == words[k / 8];
    }
  }

  // ---------- Which bit of which byte ----------

  /** The byte with only bit k set. */
  function ByteMask(k: nat): bv8
    requires k < 8
  {
    match k
    case 0 => 1
    case 1 => 2
    case 2 => 4
    case 3 => 8
    case 4 => 16
    case 5 => 32
    case 6 => 64
    case _ => 128
  }

  function Left(w: bv64): bv64 { w << 1 }

  function LeftByte(w: bv64): bv64 { w << 8 }

  function RightByte(w: bv64): bv64 { w >> 8 }

  lemma EightLeft(w: bv64)
    ensures Left(Left(Left(Left(Left(Left(Left(Left(w)))))))) == LeftByte(w)
  {
  }

  lemma MaskLeft(k: nat)
    requires k < 63
    ensures Mask(k + 1) == Left(Mask(k))
  {
  }

  lemma MaskLeftByte(k: nat)
    requires k < 56
    ensures Mask(k + 8) == LeftByte(Mask(k))
  {
    hide Mask, Left, LeftByte;
    MaskLeft(k);
    MaskLeft(k + 1);
    MaskLeft(k + 2);
    MaskLeft(k + 3);
    MaskLeft(k + 4);
    MaskLeft(k + 5);
    MaskLeft(k + 6);
    MaskLeft(k + 7);
    EightLeft(Mask(k));
  }

  lemma FirstMasks(k: nat)
    requires k < 8
    ensures Mask(k) == ByteMask(k) as bv64
  {
    assert Mask(0) == 1 && Mask(1) == 2 && Mask(2) == 4 && Mask(3) == 8;
    assert Mask(4) == 16 && Mask(5) == 32 && Mask(6) == 64 && Mask(7) == 128;
  }

  lemma LastByte(w: bv64, m: bv8)
    ensures NonZero(And(w, m as bv64)) <==> ByteOf(w, 7) & m != 0
  {
  }

  lemma LeftRight(w: bv64, m: bv64)
    ensures NonZero(And(w, LeftByte(m))) <==> NonZero(And(RightByte(w), m))
  {
  }

  lemma ByteRight(w: bv64, k: nat)
    requires k < 7
    ensures ByteOf(w, k) == ByteOf(RightByte(w), k + 1)
  {
  }

  lemma {:induction false} BitInByte(w: bv64, q: nat, k: nat)
    requires q < 8 && k < 8
    ensures Bit(w, 8 * q + k) <==> ByteOf(w, 7 - q) & ByteMask(k) != 0
    decreases q
  {
    hide And, NonZero, ByteOf, Mask, ByteMask, LeftByte, RightByte;
    if q == 0 {
      FirstMasks(k);
      LastByte(w, ByteMask(k));
    } else {
      MaskLeftByte(8 * (q - 1) + k);
      LeftRight(w, Mask(8 * (q - 1) + k));
      BitInByte(RightByte(w), q - 1, k);
      ByteRight(w, 7 - q);
    }
  }

  lemma IndexParts(i: nat)
    ensures i % 64 == 8 * ((i % 64) / 8) + i % 8
  {
    assert i == 64 * (i / 64) + i % 64;
    assert i % 64 % 8 == i % 8;
  }

  /** Index i is bit i % 8 of the byte that lies (i % 64) / 8 bytes before the last one of word i / 64: in each
      group of eight bytes the low indices come last. */
  lemma IndexInBytes(words: seq<bv64>, size: nat, i: nat)
    requires i < size && i / 64 < |words|
    ensures |Bytes(words)| == 8 * |words|
    ensures i in IndexSet(words, size) <==> Bytes(words)[8 * (i / 64) + 7 - (i % 64) / 8] & ByteMask(i % 8) != 0
  {
    hide And, NonZero, ByteOf, Mask, ByteMask, Bit, Bytes;
    var q, k := (i % 64) / 8, i % 8;
    IndexParts(i);
    BitInByte(words[i / 64], q, k);
    ByteAt(words, i / 64, 7 - q);
    BytesLength(words);
  }

  lemma BytesLength(words: seq<bv64>)
    ensures |Bytes(words)| == 8 * |words|
  {
  }

  method WriteWord(p: array<bv8>, at: nat, word: bv64)
    requires at + 8 <= p.Length
    modifies p
    ensures p[..at] == old(p[..at]) && p[at + 8..] == old(p[at + 8..])
    ensures p[at..at + 8] == WordBytes(word)
  {
    hide ByteOf;
    p[at] := ByteOf(word, 0);
    p[at + 1] := ByteOf(word, 1);
    p[at + 2] := ByteOf(word, 2);
    p[at + 3] := ByteOf(word, 3);
    p[at + 4] := ByteOf(word, 4);
    p[at + 5] := ByteOf(word, 5);
    p[at + 6] := ByteOf(word, 6);
    p[at + 7] := ByteOf(word, 7);
  }

  /** Parsing what was serialized gives back the words, hence the same set for every size. */
  lemma {:induction false} ParseSerialize(words: seq<bv64>)
    ensures |Bytes(words)| == 8 * |words|
    ensures Words(Bytes(words)) == words
  {
    hide ByteOf, Join;
    var p := Bytes(words);
    forall i | 0 <= i < |words|
      ensures Words(p)[i] == words[i]
    {
      JoinBytes(words[i]);
      ByteAt(words, i, 0); ByteAt(words, i, 1); ByteAt(words, i, 2); ByteAt(words, i, 3);
      ByteAt(words, i, 4); ByteAt(words, i, 5); ByteAt(words, i, 6); ByteAt(words, i, 7);
    }
  }

  // ---------- The bitmap object ----------

  class Bitmap {
    const data: array<bv64>
    const size: nat

    /** The words are enough for every index below size: reading any of them is within the array. */
    predicate Covers() {
      size <= 64 * data.Length
    }

    ghost function Elements(): set<nat>
      reads this, data
    {
      IndexSet(data[..], size)
    }

    /** NewBitmap: the empty set. */
    constructor New(size: nat)
      ensures fresh(data) && this.size == size && Covers()
      ensures data.Length == (size + 63) / 64
      ensures Elements() == {}
    {
      this.size := size;
      data := new bv64[(size + 63) / 64](_ => 0);
      new;
      forall i | 0 <= i < 64 ensures !Bit(0, i) { NoBitInZero(i); }
    }

    /** ParseBitmap: the words are read from the bytes, eight at a time. */
    constructor Parse(p: seq<bv8>, size: nat)
      ensures fresh(data) && this.size == size
      ensures data[..] == Words(p)
      ensures Elements() == IndexSet(Words(p), size)
    {
      this.size := size;
      var words := new bv64[|p| / 8];
      data := words;
      new;
      for i := 0 to words.Length
        invariant data == words && fresh(words) && words.Length == |p| / 8 && this.size == size
        invariant forall k | 0 <= k < i :: words[k] == Words(p)[k]
      {
        words[i] := Join(p[i*8], p[i*8+1], p[i*8+2], p[i*8+3], p[i*8+4], p[i*8+5], p[i*8+6], p[i*8+7]);
      }
      assert data[..] == Words(p);
    }

    method Set(index: int)
      requires Covers() && 0 <= index < size  // the source panics otherwise
      modifies data
      ensures Elements() == old(Elements()) + {index}
    {
      var wordIndex := index / 64;
      SetAddsOneIndex(data[..], size, index);
      data[wordIndex] := Or(data[wordIndex], Mask(index % 64));
      assert data[..] == old(data[..])[wordIndex := Or(old(data[wordIndex]), Mask(index % 64))];
    }

    method Clear(index: int)
      requires Covers() && 0 <= index < size
      modifies data
      ensures Elements() == old(Elements()) - {index}
    {
      var wordIndex := index / 64;
      ClearRemovesOneIndex(data[..], size, index);
      data[wordIndex] := AndNot(data[wordIndex], Mask(index % 64));
      assert data[..] == old(data[..])[wordIndex := AndNot(old(data[wordIndex]), Mask(index % 64))];
    }

    method Get(index: int) returns (set_: bool)
      requires Covers() && 0 <= index < size
      ensures set_ <==> index in Elements()
    {
      set_ := NonZero(And(data[index / 64], Mask(index % 64)));
    }

    /** Serialize: eight bytes a word; reading them back with any size gives the same set. */
    method Serialize() returns (p: array<bv8>)
      ensures fresh(p) && p.Length == 8 * data.Length
      ensures p[..] == Bytes(data[..])
      ensures Words(p[..]) == data[..]
    {
      hide ByteOf, Bytes, Words;
      p := new bv8[data.Length * 8];
      BytesOfNone();
      for i := 0 to data.Length
        invariant fresh(p)
        invariant p[..8 * i] == Bytes(data[..i])
      {
        WriteWord(p, 8 * i, data[i]);
        assert p[..8 * (i + 1)] == p[..8 * i] + p[8 * i..8 * i + 8];
        BytesOfOneMore(data[..i], data[i]);
        assert data[..i + 1] == data[..i] + [data[i]];
      }
      assert p[..] == p[..8 * data.Length] && data[..] == data[..data.Length];
      ParseSerialize(data[..]);
    }
  }
}
