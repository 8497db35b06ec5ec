/** The element table of one gdbm hash bucket: linear probing from `hash % elems`. */
module HashTable {
  import opened Bits

  datatype Element = Element(hash: int, keyStart: string, dataPointer: int, keySize: int, dataSize: int)

  const EMPTY := -1
  const HASH_LIMIT := 0x8000_0000

  predicate Free(e: Element) {
    e.hash == EMPTY
  }

  /** Every slot is free or holds a 31-bit hash. */
  predicate HashesOk(t: seq<Element>) {
    forall i | 0 <= i < |t| :: Free(t[i]) || 0 <= t[i].hash < HASH_LIMIT
  }

  /** The slot where the search for `e` starts. */
  function Home(e: Element, n: nat): (h: nat)
    requires n > 0 && e.hash >= 0
    ensures h < n
  {
    e.hash % n
  }

  /** Slot `j` lies on the circular path that starts at `home` and stops just before `i`. */
  predicate OnPath(home: nat, j: nat, i: nat) {
    if home <= i then home <= j < i else j >= home || j < i
  }

  /** Slot `i` can be reached: no free slot other than `hole` on the way from its home. */
  predicate Reached(t: seq<Element>, i: nat, hole: int)
    requires i < |t| && t[i].hash >= 0
  {
    forall j: nat | j < |t| && j != hole && Free(t[j]) :: !OnPath(Home(t[i], |t|), j, i)
  }

  /** The search invariant of the whole table. */
  ghost predicate Probed(t: seq<Element>) {
    && HashesOk(t)
    && forall i: nat | i < |t| && !Free(t[i]) :: Reached(t, i, -1)
  }

  /** How many slots are in use. */
  function Used(t: seq<Element>): (u: nat)
    ensures u <= |t|
  {
    if t == [] then 0 else (if Free(t[|t| - 1]) then 0 else 1) + Used(t[..|t| - 1])
  }

  lemma {:induction false} UsedUpdate(t: seq<Element>, i: nat, e: Element)
    requires i < |t|
    ensures Used(t[i := e]) == Used(t) - (if Free(t[i]) then 0 else 1) + (if Free(e) then 0 else 1)
  {
    var n := |t| - 1;
    var u := t[i := e];
    if i == n {
      assert u[..n] == t[..n];
    } else {
      assert u[..n] == t[..n][i := e];
      UsedUpdate(t[..n], i, e);
    }
  }

  lemma {:induction false} UsedFull(t: seq<Element>)
    ensures Used(t) == |t| <==> forall i | 0 <= i < |t| :: !Free(t[i])
  {
    if t != [] {
      var n := |t| - 1;
      UsedFull(t[..n]);
      assert forall i | 0 <= i < n :: t[..n][i] == t[i];
    }
  }

  lemma {:induction false} UsedNone(t: seq<Element>)
    requires forall i | 0 <= i < |t| :: Free(t[i])
    ensures Used(t) == 0
  {
    if t != [] {
      UsedNone(t[..|t| - 1]);
    }
  }

  /** The walk `loc = (loc + 1) % n`. */
  function Next(loc: nat, n: nat): (r: nat)
    requires loc < n
    ensures r < n
    ensures r == if loc + 1 == n then 0 else loc + 1
  {
    if loc + 1 == n then assert (loc + 1) % n == 0; 0 else assert (loc + 1) % n == loc + 1; (loc + 1) % n
  }

  /** Steps of the walk from `loc` to `z`. */
  function Distance(loc: nat, z: nat, n: nat): nat
    requires loc < n && z < n
  {
    if z >= loc then z - loc else z - loc + n
  }

  /** Finds the first free slot on the path from the home slot and puts the element there. */
  method Place(t: seq<Element>, e: Element) returns (r: seq<Element>, loc: nat)
    requires Probed(t) && Used(t) < |t|
    requires 0 <= e.hash < HASH_LIMIT
    ensures loc < |t| && Free(t[loc]) && r == t[loc := e]
    ensures Probed(r)
    ensures Used(r) == Used(t) + 1
  {
    UsedFull(t);
    ghost var z: nat :| z < |t| && Free(t[z]);
    var home := e.hash % |t|;
    loc := home;
    while !Free(t[loc])
      invariant loc < |t|
      invariant forall j: nat | j < |t| && OnPath(home, j, loc) :: !Free(t[j])
      decreases Distance(loc, z, |t|)
    {
      loc := Next(loc, |t|);
    }
    r := t[loc := e];
    UsedUpdate(t, loc, e);
    forall i: nat | i < |r| && !Free(r[i]) ensures Reached(r, i, -1) {
      assert i != loc ==> Reached(t, i, -1);
    }
  }

  /** Searching from the home slot, stopping at a free slot, meets every stored element that
      satisfies `match`; it reports a miss only when there is none. */
  method Search(t: seq<Element>, hash: int, matches: Element -> bool) returns (loc: int)
    requires Probed(t) && |t| > 0
    requires 0 <= hash < HASH_LIMIT
    ensures -1 <= loc < |t|
    ensures loc >= 0 ==> t[loc].hash == hash && matches(t[loc])
    ensures loc == -1 <==> forall i | 0 <= i < |t| :: !(t[i].hash == hash && matches(t[i]))
  {
    var home := hash % |t|;
    loc := home;
    ghost var steps := 0;
    while !Free(t[loc])
      invariant 0 <= loc < |t|
      invariant 0 <= steps < |t|
      invariant loc == if home + steps < |t| then home + steps else home + steps - |t|
      invariant forall j: nat | j < |t| && OnPath(home, j, loc) :: !(t[j].hash == hash && matches(t[j]))
      decreases |t| - steps
    {
      if t[loc].hash == hash && matches(t[loc]) {
        return;
      }
      var next := Next(loc, |t|);
      if next == home {
        assert forall j: nat | j < |t| :: j == loc || OnPath(home, j, loc);
        return -1;
      }
      loc := next;
      steps := steps + 1;
    }
    forall i: nat | i < |t| && t[i].hash == hash ensures OnPath(home, i, loc) {
      assert Reached(t, i, -1);
    }
    loc := -1;
  }

  /** The slot `d` steps after `loc`. */
  function At(loc: nat, d: nat, n: nat): (r: nat)
    requires loc < n && d <= n
    ensures r < n && (d < n ==> Distance(loc, r, n) == d)
  {
    if loc + d < n then loc + d else loc + d - n
  }

  /** While a hole is being closed: everything is reachable if the hole is ignored, and no slot
      among the `d - 1` scanned after the hole depends on the hole. */
  ghost predicate Closing(t: seq<Element>, hole: nat, d: nat) {
    && hole < |t| && 1 <= d <= |t| && Free(t[hole]) && HashesOk(t)
    && (forall i: nat | i < |t| && !Free(t[i]) :: Reached(t, i, hole))
    && (forall i: nat | i < |t| && !Free(t[i]) && Distance(hole, i, |t|) < d ::
          !OnPath(Home(t[i], |t|), hole, i))
  }

  /** Total distance of the stored elements from their home slots: what closing a hole reduces. */
  ghost function Displacement(t: seq<Element>, n: nat): (s: nat)
    requires |t| <= n && HashesOk(t)
  {
    if t == [] then 0 else
      var k := |t| - 1;
      Displacement(t[..k], n) + Displaced(t[k], k, n)
  }

  ghost function Displaced(e: Element, i: nat, n: nat): nat
    requires i < n && (Free(e) || e.hash >= 0)
  {
    if Free(e) then 0 else Distance(Home(e, n), i, n)
  }

  lemma {:induction false} DisplacementUpdate(t: seq<Element>, i: nat, e: Element, n: nat)
    requires i < |t| <= n && HashesOk(t)
    requires Free(e) || 0 <= e.hash < HASH_LIMIT
    ensures Displacement(t[i := e], n) == Displacement(t, n) - Displaced(t[i], i, n) + Displaced(e, i, n)
  {
    var k := |t| - 1;
    var u := t[i := e];
    if i == k {
      assert u[..k] == t[..k];
    } else {
      assert u[..k] == t[..k][i := e];
      DisplacementUpdate(t[..k], i, e, n);
    }
  }

  /** Moves the element at `scan` into the hole. */
  function MoveBack(t: seq<Element>, hole: nat, scan: nat): seq<Element>
    requires hole < |t| && scan < |t|
  {
    t[hole := t[scan]][scan := t[scan].(hash := EMPTY)]
  }

  /** `r` holds the elements of `t`, except for one copy of `x` if `x` is not free. */
  ghost predicate Without(t: seq<Element>, r: seq<Element>, x: Element) {
    forall e: Element | !Free(e) :: multiset(r)[e] + (if e == x then 1 else 0) == multiset(t)[e]
  }

  lemma MoveBackCounts(t: seq<Element>, hole: nat, scan: nat)
    requires hole < |t| && scan < |t| && hole != scan && HashesOk(t) && Free(t[hole]) && !Free(t[scan])
    requires OnPath(Home(t[scan], |t|), hole, scan)
    ensures var r := MoveBack(t, hole, scan);
            HashesOk(r) && Displacement(r, |t|) < Displacement(t, |t|) && Used(r) == Used(t)
  {
    var gap := t[scan].(hash := EMPTY);
    var m := t[hole := t[scan]];
    UsedUpdate(t, hole, t[scan]);
    UsedUpdate(m, scan, gap);
    DisplacementUpdate(t, hole, t[scan], |t|);
    DisplacementUpdate(m, scan, gap, |t|);
  }

  lemma MoveBackElements(t: seq<Element>, s: seq<Element>, x: Element, hole: nat, scan: nat)
    requires hole < |s| && scan < |s| && hole != scan && Free(s[hole]) && !Free(s[scan])
    requires Without(t, s, x)
    ensures Without(t, MoveBack(s, hole, scan), x)
  {
    var gap := s[scan].(hash := EMPTY);
    var m := s[hole := s[scan]];
    assert multiset(m) == multiset(s) - multiset{s[hole]} + multiset{s[scan]};
    assert multiset(m[scan := gap]) == multiset(m) - multiset{m[scan]} + multiset{gap};
    forall e: Element | !Free(e) ensures multiset(m[scan := gap])[e] == multiset(s)[e] {
    }
  }

  lemma MoveBackCloses(t: seq<Element>, hole: nat, d: nat)
    requires Closing(t, hole, d) && d < |t|
    requires var scan := At(hole, d, |t|); !Free(t[scan]) && OnPath(Home(t[scan], |t|), hole, scan)
    ensures var scan := At(hole, d, |t|); Closing(MoveBack(t, hole, scan), scan, 1)
  {
    var scan := At(hole, d, |t|);
    var r := MoveBack(t, hole, scan);
    forall i: nat | i < |r| && !Free(r[i]) ensures Reached(r, i, scan) {
      assert Reached(t, scan, hole);
      assert i != hole ==> Reached(t, i, hole);
    }
  }

  lemma AdvanceCloses(t: seq<Element>, hole: nat, d: nat)
    requires Closing(t, hole, d) && d < |t|
    requires var scan := At(hole, d, |t|); !Free(t[scan]) && !OnPath(Home(t[scan], |t|), hole, scan)
    ensures Closing(t, hole, d + 1) && Next(At(hole, d, |t|), |t|) == At(hole, d + 1, |t|)
  {
  }

  /** Once the scan meets a free slot, or comes round to the hole, the table is searchable again. */
  lemma ClosingDone(t: seq<Element>, hole: nat, d: nat)
    requires Closing(t, hole, d)
    requires Free(t[At(hole, d, |t|)])
    ensures Probed(t)
  {
    var stop := At(hole, d, |t|);
    forall i: nat | i < |t| && !Free(t[i]) ensures Reached(t, i, -1) {
      assert Reached(t, i, hole);
      assert d < |t| ==> !OnPath(Home(t[i], |t|), stop, i);
    }
  }

  lemma RemoveOne(t: seq<Element>, loc: nat)
    requires Probed(t) && loc < |t| && !Free(t[loc])
    ensures var r := t[loc := t[loc].(hash := EMPTY)];
            Closing(r, loc, 1) && Used(r) == Used(t) - 1 && Without(t, r, t[loc])
  {
    var r := t[loc := t[loc].(hash := EMPTY)];
    UsedUpdate(t, loc, r[loc]);
    assert multiset(r) == multiset(t) - multiset{t[loc]} + multiset{r[loc]};
    forall i: nat | i < |r| && !Free(r[i]) ensures Reached(r, i, loc) {
      assert Reached(t, i, -1);
    }
  }

  /** Empties slot `loc` and moves later elements back so that every one can still be found. */
  method Remove(t: seq<Element>, loc: nat) returns (r: seq<Element>)
    requires Probed(t) && loc < |t| && !Free(t[loc])
    ensures |r| == |t| && Probed(r)
    ensures Used(r) == Used(t) - 1
    ensures Without(t, r, t[loc])
  {
    hide Without, Displacement, Probed, Used, Reached;
    r := t[loc := t[loc].(hash := EMPTY)];
    RemoveOne(t, loc);
    var last: nat := loc;
    var scan: nat := Next(loc, |t|);
    ghost var d := 1;
    while scan != last && !Free(r[scan])
      invariant |r| == |t| && Closing(r, last, d) && scan == At(last, d, |r|)
      invariant Used(r) == Used(t) - 1
      invariant Without(t, r, t[loc])
      decreases Displacement(r, |r|), |r| - d
    {
      var home := r[scan].hash % |r|;
      if (last < scan && (home <= last || home > scan)) || (last > scan && home <= last && home > scan) {
        MoveBackCloses(r, last, d);
        MoveBackCounts(r, last, scan);
        MoveBackElements(t, r, t[loc], last, scan);
        r, last, d := MoveBack(r, last, scan), scan, 1;
        scan := Next(scan, |t|);
      } else {
        AdvanceCloses(r, last, d);
        scan := Next(scan, |t|);
        d := d + 1;
      }
    }
    ClosingDone(r, last, d);
  }

  /** Which of the two new buckets an element belongs to: the last of its first `bits` hash bits. */
  function Side(hash: int, bits: nat): (s: nat)
    requires 0 <= hash && bits <= 31
    ensures s < 2
  {
    Shr(hash, 31 - bits) % 2
  }

  /** `r` holds exactly the elements of `t` on one side. */
  ghost predicate HoldsSide(t: seq<Element>, r: seq<Element>, bits: nat, side: nat)
    requires bits <= 31
  {
    forall e: Element | e.hash >= 0 ::
      multiset(r)[e] == if Side(e.hash, bits) == side then multiset(t)[e] else 0
  }

  lemma EmptyTable(t: seq<Element>, bits: nat, side: nat)
    requires bits <= 31 && forall i | 0 <= i < |t| :: Free(t[i])
    ensures Probed(t) && Used(t) == 0 && HoldsSide([], t, bits, side)
  {
    UsedNone(t);
    assert forall e: Element | e.hash >= 0 :: e !in t;
  }

  lemma PlaceOnSide(t: seq<Element>, e: Element, r: seq<Element>, loc: nat, bits: nat, side: nat)
    requires bits <= 31 && loc < |r| && Free(r[loc]) && e.hash >= 0
    requires HoldsSide(t, r, bits, side) && Side(e.hash, bits) == side
    ensures HoldsSide(t + [e], r[loc := e], bits, side)
  {
    assert multiset(r[loc := e]) == multiset(r) - multiset{r[loc]} + multiset{e};
  }

  lemma PlaceOnOtherSide(t: seq<Element>, e: Element, r: seq<Element>, bits: nat, side: nat)
    requires bits <= 31 && e.hash >= 0
    requires HoldsSide(t, r, bits, side) && Side(e.hash, bits) != side
    ensures HoldsSide(t + [e], r, bits, side)
  {
  }

  /** Two tables that share out the elements of `done`. */
  ghost predicate Shared(done: seq<Element>, r0: seq<Element>, r1: seq<Element>, count0: int, count1: int, bits: nat)
    requires bits <= 31
  {
    && |r0| == |r1| && Probed(r0) && Probed(r1)
    && count0 == Used(r0) && count1 == Used(r1) && count0 + count1 == |done|
    && HoldsSide(done, r0, bits, 0) && HoldsSide(done, r1, bits, 1)
  }

  lemma SharedStart(t0: seq<Element>, t1: seq<Element>, bits: nat)
    requires bits <= 31 && |t0| == |t1| && forall i | 0 <= i < |t0| :: Free(t0[i]) && Free(t1[i])
    ensures Shared([], t0, t1, 0, 0, bits)
  {
    EmptyTable(t0, bits, 0);
    EmptyTable(t1, bits, 1);
  }

  /** Moves one element into the table on its side. */
  method MoveOne(e: Element, t0: seq<Element>, t1: seq<Element>, n0: int, n1: int, bits: nat, ghost done: seq<Element>)
    returns (r0: seq<Element>, r1: seq<Element>, count0: int, count1: int)
    requires bits <= 31 && 0 <= e.hash < HASH_LIMIT && Shared(done, t0, t1, n0, n1, bits) && |done| < |t0|
    ensures |r0| == |t0| && Shared(done + [e], r0, r1, count0, count1, bits)
  {
    r0, r1, count0, count1 := t0, t1, n0, n1;
    var loc;
    var select := Shr(e.hash, 31 - bits) % 2;
    if select == 0 {
      r0, loc := Place(t0, e);
      PlaceOnSide(done, e, t0, loc, bits, 0);
      PlaceOnOtherSide(done, e, t1, bits, 1);
      count0 := count0 + 1;
    } else {
      r1, loc := Place(t1, e);
      PlaceOnSide(done, e, t1, loc, bits, 1);
      PlaceOnOtherSide(done, e, t0, bits, 0);
      count1 := count1 + 1;
    }
  }

  /** Moves every element of a full table into one of two emptied tables. */
  method Distribute(full: seq<Element>, t0: seq<Element>, t1: seq<Element>, bits: nat)
    returns (r0: seq<Element>, r1: seq<Element>, count0: int, count1: int)
    requires bits <= 31 && |t0| == |t1| == |full| > 0
    requires HashesOk(full) && Used(full) == |full|
    requires forall i | 0 <= i < |full| :: Free(t0[i]) && Free(t1[i])
    ensures |r0| == |full| && Shared(full, r0, r1, count0, count1, bits)
  {
    r0, r1, count0, count1 := t0, t1, 0, 0;
    UsedFull(full);
    SharedStart(t0, t1, bits);
    for index := 0 to |full|
      invariant |r0| == |full| && Shared(full[..index], r0, r1, count0, count1, bits)
    {
      assert full[..index + 1] == full[..index] + [full[index]];
      r0, r1, count0, count1 := MoveOne(full[index], r0, r1, count0, count1, bits, full[..index]);
    }
    assert full[..|full|] == full;
  }

  /** A stored element and its multiplicity. */
  lemma InTable(t: seq<Element>, i: nat)
    requires i < |t|
    ensures multiset(t)[t[i]] > 0
  {
    assert t[i] in multiset(t);
  }

  /** If one side receives all the elements it holds exactly the old elements, so the other side
      of no element was chosen. */
  lemma OneSideFull(t: seq<Element>, r0: seq<Element>, r1: seq<Element>, bits: nat, side: nat)
    requires bits <= 31 && side < 2 && |r0| == |r1| == |t| && HashesOk(t) && Used(t) == |t|
    requires HoldsSide(t, r0, bits, 0) && HoldsSide(t, r1, bits, 1)
    requires Used(if side == 0 then r1 else r0) == 0
    ensures forall e: Element | e.hash >= 0 :: multiset(if side == 0 then r0 else r1)[e] == multiset(t)[e]
    ensures forall i | 0 <= i < |t| :: t[i].hash >= 0 && Side(t[i].hash, bits) == side
  {
    var other := if side == 0 then r1 else r0;
    UsedFull(t);
    NoneUsed(other);
    forall e: Element | e.hash >= 0 && Side(e.hash, bits) != side ensures multiset(t)[e] == 0 {
      assert e !in other;
    }
    forall i | 0 <= i < |t| ensures Side(t[i].hash, bits) == side {
      InTable(t, i);
    }
  }

  lemma {:induction false} NoneUsed(t: seq<Element>)
    requires Used(t) == 0
    ensures forall i | 0 <= i < |t| :: Free(t[i])
  {
    if t != [] {
      NoneUsed(t[..|t| - 1]);
      assert forall i | 0 <= i < |t| - 1 :: t[..|t| - 1][i] == t[i];
    }
  }
}
