/**
 The packed bit map (userprog/bitmap): an array of 32-bit words in which bit `i`
 is bit `i % 32` of word `i / 32`. It records which disk sectors, or which frames
 of physical memory, are in use.
 */
module BitMaps {
  import opened Words


  // ------------------------------------------------ meaning of the words

  predicate BitAt(ws: seq<word>, i: nat)
    requires i < 32 * |ws|
  {
    Bit(ws[i / 32], i % 32)
  }

  function SetWordBit(w: word, k: nat): word
    requires k < 32
  {
    WordWidth();
    BitsStayInWidth(w, k, 32);
    SetBit(w, k)
  }

  function ClearWordBit(w: word, k: nat): word
    requires k < 32
  {
    WordWidth();
    BitsStayInWidth(w, k, 32);
    ClearBit(w, k)
  }

  /** The numbers below `n` whose bit is set. */
  ghost function Marked(ws: seq<word>, n: nat): set<nat>
    requires n <= 32 * |ws|
  {
    if n == 0 then {}
    else if BitAt(ws, n - 1) then Marked(ws, n - 1) + {n - 1}
    else Marked(ws, n - 1)
  }

  ghost function Unmarked(ws: seq<word>, n: nat): set<nat>
    requires n <= 32 * |ws|
  {
    if n == 0 then {}
    else if BitAt(ws, n - 1) then Unmarked(ws, n - 1)
    else Unmarked(ws, n - 1) + {n - 1}
  }

  lemma {:induction false} InMarked(ws: seq<word>, n: nat, i: nat)
    requires n <= 32 * |ws|
    ensures i in Marked(ws, n) <==> i < n && BitAt(ws, i)
    ensures i in Unmarked(ws, n) <==> i < n && !BitAt(ws, i)
  {
    if n > 0 {
      InMarked(ws, n - 1, i);
    }
  }

  lemma MarkedOrUnmarked(ws: seq<word>, n: nat)
    requires n <= 32 * |ws|
    ensures Marked(ws, n) !! Unmarked(ws, n)
    ensures forall i | i in Marked(ws, n) || i in Unmarked(ws, n) :: i < n
  {
    forall i: nat
      ensures i in Marked(ws, n) <==> i < n && BitAt(ws, i)
      ensures i in Unmarked(ws, n) <==> i < n && !BitAt(ws, i)
    {
      InMarked(ws, n, i);
    }
  }

  lemma {:induction false} MarkedCount(ws: seq<word>, n: nat)
    requires n <= 32 * |ws|
    ensures |Marked(ws, n)| + |Unmarked(ws, n)| == n
  {
    if n > 0 {
      MarkedCount(ws, n - 1);
      InMarked(ws, n - 1, n - 1);
    }
  }

  /** What is marked and what is not, when bit `i` is the only one that differs. */
  lemma OneBitDiffers(ws: seq<word>, vs: seq<word>, n: nat, i: nat)
    requires |vs| == |ws| && i < n <= 32 * |ws|
    requires forall j: nat | j < n && j != i :: BitAt(vs, j) == BitAt(ws, j)
    ensures BitAt(vs, i) ==> Marked(vs, n) == Marked(ws, n) + {i} && Unmarked(vs, n) == Unmarked(ws, n) - {i}
    ensures !BitAt(vs, i) ==> Marked(vs, n) == Marked(ws, n) - {i} && Unmarked(vs, n) == Unmarked(ws, n) + {i}
  {
    forall j: nat
      ensures j in Marked(vs, n) <==> j < n && BitAt(vs, j)
      ensures j in Marked(ws, n) <==> j < n && BitAt(ws, j)
      ensures j in Unmarked(vs, n) <==> j < n && !BitAt(vs, j)
      ensures j in Unmarked(ws, n) <==> j < n && !BitAt(ws, j)
    {
      InMarked(vs, n, j);
      InMarked(ws, n, j);
    }
  }

  lemma BitAtAfterMark(ws: seq<word>, i: nat, j: nat)
    requires i < 32 * |ws| && j < 32 * |ws|
    ensures var w := i / 32;
            BitAt(ws[w := SetWordBit(ws[w], i % 32)], j) <==> j == i || BitAt(ws, j)
  {
    BitAfterSet(ws[i / 32], i % 32, j % 32);
  }

  lemma BitAtAfterClear(ws: seq<word>, i: nat, j: nat)
    requires i < 32 * |ws| && j < 32 * |ws|
    ensures var w := i / 32;
            BitAt(ws[w := ClearWordBit(ws[w], i % 32)], j) <==> j != i && BitAt(ws, j)
  {
    BitAfterClear(ws[i / 32], i % 32, j % 32);
  }

  /** A map whose words are all used is determined, word for word, by the numbers it marks. */
  lemma MarkedDetermines(vs: seq<word>, ws: seq<word>)
    requires |vs| == |ws|
    requires Marked(vs, 32 * |vs|) == Marked(ws, 32 * |ws|)
    ensures vs == ws
  {
    forall w | 0 <= w < |vs|
      ensures vs[w] == ws[w]
    {
      WordWidth();
      forall k: nat | k < 32
        ensures Bit(vs[w], k) == Bit(ws[w], k)
      {
        var i := 32 * w + k;
        assert i / 32 == w && i % 32 == k;
        InMarked(vs, 32 * |vs|, i);
        InMarked(ws, 32 * |ws|, i);
      }
      BitsDetermine(vs[w], ws[w], 32);
    }
  }

  // ------------------------------------------------------------ the class

  class BitMap {
    const numBits: nat
    const words: array<word>

    ghost predicate Valid()
    {
      numBits <= 32 * words.Length
    }

    /** The numbers marked as in use. */
    ghost function Bits(): set<nat>
      requires Valid()
      reads words
    {
      Marked(words[..], numBits)
    }

    ghost function ClearBits(): set<nat>
      requires Valid()
      reads words
    {
      Unmarked(words[..], numBits)
    }

    /** A bit map with every bit clear. The words start out with arbitrary contents. */
    constructor (nitems: nat)
      ensures Valid() && fresh(words)
      ensures numBits == nitems
      ensures words.Length == nitems / 32 + (if nitems % 32 > 0 then 1 else 0)
      ensures Bits() == {}
    {
      numBits := nitems;
      words := new word[nitems / 32 + (if nitems % 32 > 0 then 1 else 0)];
      new;
      for i := 0 to numBits
        invariant forall j: nat | j < i :: !BitAt(words[..], j)
      {
        ghost var before := words[..];
        Clear(i);
        forall j: nat | j < i + 1
          ensures !BitAt(words[..], j)
        {
          BitAtAfterClear(before, i, j);
        }
      }
      forall j: nat
        ensures j !in Marked(words[..], numBits)
      {
        InMarked(words[..], numBits, j);
      }
    }

    method Mark(which: nat)
      requires Valid() && which < numBits
      modifies words
      ensures words[..] == old(words[..])[which / 32 :=
                           SetWordBit(old(words[which / 32]), which % 32)]
      ensures Bits() == old(Bits()) + {which}
      ensures ClearBits() == old(ClearBits()) - {which}
    {
      words[which / 32] := SetWordBit(words[which / 32], which % 32);
      forall j: nat | j < numBits
        ensures BitAt(words[..], j) <==> j == which || old(BitAt(words[..], j))
      {
        BitAtAfterMark(old(words[..]), which, j);
      }
      OneBitDiffers(old(words[..]), words[..], numBits, which);
    }

    method Clear(which: nat)
      requires Valid() && which < numBits
      modifies words
      ensures words[..] == old(words[..])[which / 32 :=
                           ClearWordBit(old(words[which / 32]), which % 32)]
      ensures Bits() == old(Bits()) - {which}
      ensures ClearBits() == old(ClearBits()) + {which}
    {
      words[which / 32] := ClearWordBit(words[which / 32], which % 32);
      forall j: nat | j < numBits
        ensures BitAt(words[..], j) <==> j != which && old(BitAt(words[..], j))
      {
        BitAtAfterClear(old(words[..]), which, j);
      }
      OneBitDiffers(old(words[..]), words[..], numBits, which);
    }

    method Test(which: nat) returns (set?: bool)
      requires Valid() && which < numBits
      ensures set? <==> which in Bits()
      ensures set? <==> which !in ClearBits()
      ensures set? <==> BitAt(words[..], which)
    {
      set? := Bit(words[which / 32], which % 32);
      InMarked(words[..], numBits, which);
    }

    /** Marks and returns the lowest clear bit, or returns -1 when there is none. */
    method Find() returns (r: int)
      requires Valid()
      modifies words
      ensures r == -1 ==> ClearBits() == {} && words[..] == old(words[..])
      ensures r != -1 ==>
                && 0 <= r < numBits && r in old(ClearBits())
                && (forall c | c in old(ClearBits()) :: r <= c)
                && Bits() == old(Bits()) + {r}
                && ClearBits() == old(ClearBits()) - {r}
    {
      for i := 0 to numBits
        invariant words[..] == old(words[..])
        invariant forall c: nat | c < i :: c !in ClearBits()
      {
        var t := Test(i);
        if !t {
          Mark(i);
          return i;
        }
      }
      forall c: nat
        ensures c !in ClearBits()
      {
        InMarked(words[..], numBits, c);
      }
      return -1;
    }

    method NumClear() returns (count: nat)
      requires Valid()
      ensures count == |ClearBits()|
    {
      count := 0;
      ghost var ws := words[..];
      for i := 0 to numBits
        invariant count == |Unmarked(ws, i)|
      {
        InMarked(ws, i, i);
        var t := Test(i);
        if !t {
          count := count + 1;
        }
      }
    }
  }
}
