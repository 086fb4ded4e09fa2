/** Which bytes a file has at which place, stated position by position. */
module Pieces {
  import opened Bytes

  /** The file has these bytes from position `p` on. */
  predicate At(f: bytes, p: nat, s: bytes) {
    p + |s| <= |f| && forall i {:trigger s[i]} :: 0 <= i < |s| ==> f[p + i] == s[i]
  }

  lemma AtMiddle(a: bytes, b: bytes, c: bytes)
    ensures At(a + b + c, |a|, b)
  {
  }

  /** What sits in a blob sits in the file the blob is in. */
  lemma AtWithin(f: bytes, p: nat, blob: bytes, at: nat, piece: bytes)
    requires At(f, p, blob) && At(blob, at, piece)
    ensures At(f, p + at, piece)
  {
    forall i {:trigger piece[i]} | 0 <= i < |piece|
      ensures f[p + at + i] == piece[i]
    {
      assert blob[at + i] == piece[i];
    }
  }

  lemma AtSlice(f: bytes, p: nat, s: bytes)
    requires At(f, p, s)
    ensures f[p..p + |s|] == s
  {
  }

  /** The first `n` pieces, one after another. */
  function Concat(pieces: seq<bytes>, n: nat): bytes
    requires n <= |pieces|
  {
    if n == 0 then [] else Concat(pieces, n - 1) + pieces[n - 1]
  }

  lemma ConcatSize(pieces: seq<bytes>, n: nat)
    requires n < |pieces|
    ensures |Concat(pieces, n + 1)| == |Concat(pieces, n)| + |pieces[n]|
  {
  }

  lemma {:induction false} ConcatGrows(pieces: seq<bytes>, i: nat, n: nat)
    requires i <= n <= |pieces|
    ensures Concat(pieces, i) <= Concat(pieces, n)
    decreases n
  {
    if i < n {
      ConcatGrows(pieces, i, n - 1);
    }
  }

  /** Each piece sits where those before it end. */
  lemma PiecePlaced(pieces: seq<bytes>, i: nat)
    requires i < |pieces|
    ensures At(Concat(pieces, |pieces|), |Concat(pieces, i)|, pieces[i])
  {
    ConcatGrows(pieces, i + 1, |pieces|);
    AtEnd(Concat(pieces, i), pieces[i], Concat(pieces, i + 1), Concat(pieces, |pieces|));
  }

  /** The piece a blob was extended by sits where it ended before. */
  lemma AtEnd(before: bytes, piece: bytes, upto: bytes, blob: bytes)
    requires upto == before + piece && upto <= blob
    ensures At(blob, |before|, piece)
  {
    forall i {:trigger piece[i]} | 0 <= i < |piece|
      ensures blob[|before| + i] == piece[i]
    {
      assert upto[|before| + i] == piece[i];
    }
  }
}
