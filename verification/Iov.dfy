/** Scatter/gather vectors over numbered buffers. */
module Iov {
  /** A piece of a buffer: `len` bytes from offset `off` on. */
  datatype Piece = Piece(buf: nat, off: nat, len: nat)

  /** The places a piece covers, in order. */
  function Places(p: Piece): (s: seq<(nat, nat)>)
    ensures |s| == p.len
  {
    seq(p.len, i requires 0 <= i < p.len => (p.buf, p.off + i))
  }

  function AllPlaces(iov: seq<Piece>): seq<(nat, nat)> {
    if iov == [] then [] else AllPlaces(iov[..|iov| - 1]) + Places(iov[|iov| - 1])
  }

  lemma {:induction false} AllPlacesConcat(a: seq<Piece>, b: seq<Piece>)
    ensures AllPlaces(a + b) == AllPlaces(a) + AllPlaces(b)
  {
    if b == [] {
      assert a + b == a;
    } else {
      assert (a + b)[..|a + b| - 1] == a + b[..|b| - 1];
      AllPlacesConcat(a, b[..|b| - 1]);
    }
  }

  lemma OnePiece(p: Piece)
    ensures AllPlaces([p]) == Places(p)
  {
    assert [p][..0] == [];
  }

  lemma PlacesRest(p: Piece, k: nat)
    requires k <= p.len
    ensures Places(p)[k..] == Places(Piece(p.buf, p.off + k, p.len - k))
  {
  }

  lemma TwoPieces(p: Piece, q: Piece)
    ensures AllPlaces([p, q]) == Places(p) + Places(q)
  {
    assert [p, q] == [p] + [q];
    AllPlacesConcat([p], [q]);
    OnePiece(p);
    OnePiece(q);
  }

  /** Replacing one piece by its own tail drops as many places there. */
  lemma Shorten(iov: seq<Piece>, i: nat, k: nat, p: Piece)
    requires i < |iov| && k <= iov[i].len && Places(p) == Places(iov[i])[k..]
    ensures AllPlaces(iov[i..]) == Places(iov[i]) + AllPlaces(iov[i + 1..])
    ensures AllPlaces(iov[i := p][i..]) == AllPlaces(iov[i..])[k..]
  {
    var rest := iov[i + 1..];
    assert iov[i..] == [iov[i]] + rest && iov[i := p][i..] == [p] + rest;
    AllPlacesConcat([iov[i]], rest);
    AllPlacesConcat([p], rest);
    OnePiece(iov[i]);
    OnePiece(p);
  }

  /** An empty vector of places stays empty. */
  lemma Emptied(iov: seq<Piece>, i: nat)
    requires i < |iov| && iov[i].len == 0
    ensures AllPlaces(iov[i..]) == AllPlaces(iov[i + 1..])
  {
    Shorten(iov, i, 0, iov[i]);
    assert AllPlaces(iov[i..]) == [] + AllPlaces(iov[i + 1..]);
  }

  /** What dropping places from one piece leaves of it. */
  function Drop(p: Piece, n: nat): Piece {
    if p.len == 0 then p else if n >= p.len then Piece(0, 0, 0) else Piece(p.buf, p.off + n, p.len - n)
  }

  lemma DropOne(iov: seq<Piece>, i: nat, n: nat)
    requires i < |iov| && n <= |AllPlaces(iov[i..])|
    ensures var iov2 := iov[i := Drop(iov[i], n)];
            if n >= iov[i].len
            then iov2[i].len == 0 && n - iov[i].len <= |AllPlaces(iov2[i + 1..])|
                 && AllPlaces(iov2[i + 1..])[n - iov[i].len..] == AllPlaces(iov[i..])[n..]
            else AllPlaces(iov2[i..]) == AllPlaces(iov[i..])[n..]
  {
    var p := Drop(iov[i], n);
    var iov2 := iov[i := p];
    var k := if n >= iov[i].len then iov[i].len else n;
    assert iov2[i + 1..] == iov[i + 1..];
    Shorten(iov, i, k, p);
    if n >= iov[i].len {
      Emptied(iov2, i);
      assert AllPlaces(iov[i..])[n..] == AllPlaces(iov[i..])[k..][n - k..];
    }
  }

  /** Drops the first n places: what is left is what has not been sent or filled yet. */
  method UpdateIov(iov: array<Piece>, n: nat)
    requires n <= |AllPlaces(iov[..])|
    modifies iov
    ensures AllPlaces(iov[..]) == old(AllPlaces(iov[..]))[n..]
    ensures iov.Length > 0 && n < old(iov[0].len) ==>
              iov[..] == old(iov[..])[0 := Piece(old(iov[0].buf), old(iov[0].off) + n, old(iov[0].len) - n)]
  {
    hide AllPlaces;
    var left := n;
    ghost var goal, start := AllPlaces(iov[..])[n..], 0;
    assert iov[..][0..] == iov[..];
    for i := 0 to iov.Length
      invariant 0 <= left && start <= i && (left > 0 ==> start == i) && (i == 0 ==> left == n && iov[..] == old(iov[..]))
      invariant i > 0 && n < old(iov[0].len) ==>
                  (left == 0 &&
                   iov[..] == old(iov[..])[0 := Piece(old(iov[0].buf), old(iov[0].off) + n, old(iov[0].len) - n)])
      invariant forall k | 0 <= k < start :: iov[k].len == 0
      invariant left <= |AllPlaces(iov[..][start..])| && AllPlaces(iov[..][start..])[left..] == goal
    {
      if left == 0 {
        break;
      }
      ghost var before := iov[..];
      DropOne(before, i, left);
      var len := iov[i].len;
      if len > 0 {
        if left >= len {
          iov[i] := Piece(0, 0, 0);
          left := left - len;
          start := i + 1;
        } else {
          iov[i] := Piece(iov[i].buf, iov[i].off + left, len - left);
          left := 0;
        }
      } else {
        start := i + 1;
      }
      assert iov[..] == before[i := iov[i]];
    }
    NothingBefore(iov[..], start);
    NothingLeft(iov[..], start);
  }

  lemma NothingLeft(iov: seq<Piece>, i: nat)
    requires i <= |iov|
    ensures i == |iov| ==> AllPlaces(iov[i..]) == []
  {
  }

  /** Empty pieces at the front do not matter. */
  lemma {:induction false} NothingBefore(iov: seq<Piece>, i: nat)
    requires i <= |iov| && forall k | 0 <= k < i :: iov[k].len == 0
    ensures AllPlaces(iov[i..]) == AllPlaces(iov)
  {
    if i == 0 {
      assert iov[0..] == iov;
    } else {
      Emptied(iov, i - 1);
      NothingBefore(iov, i - 1);
    }
  }
}
