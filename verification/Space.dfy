/** Space in a gdbm file: the regions in use, and the free ones on the lists of buckets and header. */
module Space {
  import opened Directory
  import opened Words

  /** Free regions of this size and smaller are forgotten. */
  const IGNORE_SIZE := 4

  // ---- The free lists ----

  /** A free region has been put into a list before the first one that is not smaller. */
  ghost predicate PutIn(region: Avail, table: seq<Avail>, r: seq<Avail>) {
    if region.size <= IGNORE_SIZE then r == table
    else exists i | 0 <= i <= |table| :: r == table[..i] + [region] + table[i..]
           && (forall k | 0 <= k < i :: table[k].size < region.size) && (i < |table| ==> table[i].size >= region.size)
  }

  /** One region ends where the other begins. */
  predicate Adjoins(a: Avail, b: Avail) {
    a.adr + a.size == b.adr || b.adr + b.size == a.adr
  }

  /** Such regions as one. */
  function Merged(a: Avail, b: Avail): Avail {
    Avail(a.size + b.size, if a.adr + a.size == b.adr then a.adr else b.adr)
  }

  /** A free region has been merged with the first one that it adjoins, or else put in as a new one. */
  ghost predicate PutOrMerged(region: Avail, table: seq<Avail>, r: seq<Avail>) {
    if region.size > IGNORE_SIZE && exists i | 0 <= i < |table| :: Adjoins(table[i], region)
    then exists i | 0 <= i < |table| && Adjoins(table[i], region) && (forall k | 0 <= k < i :: !Adjoins(table[k], region)) ::
           r == table[i := Merged(table[i], region)]
    else PutIn(region, table, r)
  }

  /** Inserts a free region into a list; tiny regions are dropped. */
  method PutAvElem(region: Avail, table: seq<Avail>, canMerge: bool) returns (r: seq<Avail>)
    ensures (if canMerge then PutOrMerged(region, table, r) else PutIn(region, table, r)) && |table| <= |r| <= |table| + 1
  {
    if region.size <= IGNORE_SIZE {
      return table;
    }
    if canMerge {
      for index := 0 to |table|
        invariant forall k | 0 <= k < index :: !Adjoins(table[k], region)
      {
        if Adjoins(table[index], region) {
          return table[index := Merged(table[index], region)];
        }
      }
    }
    var index := 0;
    while index < |table| && table[index].size < region.size
      invariant 0 <= index <= |table|
      invariant forall k | 0 <= k < index :: table[k].size < region.size
    {
      index := index + 1;
    }
    r := table[..index] + [region] + table[index..];
  }

  /** The first half gets the free regions of a full bucket; the second gets a fresh block, and the
      first region if the first half has no room for it. */
  ghost predicate SharedOut(avail: seq<Avail>, block: Avail, avail0: seq<Avail>, avail1: seq<Avail>) {
    if |avail| == BUCKET_AVAIL then avail0 == avail[1..] && PutIn(avail[0], [block], avail1)
    else avail0 == avail && avail1 == [block]
  }

  /** A region that is worth keeping has been recorded in the bucket's list or the header's. */
  ghost predicate Recorded(region: Avail, merge: bool, avail: seq<Avail>, avail2: seq<Avail>,
                           header: seq<Avail>, header2: seq<Avail>) {
    || (Put(region, merge, avail, avail2) && header2 == header)
    || (region.size > IGNORE_SIZE && avail2 == avail && Put(region, merge, header, header2))
  }

  ghost predicate Put(region: Avail, merge: bool, table: seq<Avail>, r: seq<Avail>) {
    if merge then PutOrMerged(region, table, r) else PutIn(region, table, r)
  }

  /** The first region of a list that is large enough; the length of the list if there is none. */
  function FirstFit(table: seq<Avail>, size: int): (i: nat)
    ensures i <= |table| && (forall k | 0 <= k < i :: table[k].size < size)
    ensures i < |table| ==> table[i].size >= size
  {
    if table == [] || table[0].size >= size then 0 else 1 + FirstFit(table[1..], size)
  }

  /** A list without one of its regions. */
  function Dropped(table: seq<Avail>, i: nat): seq<Avail>
    requires i < |table|
  {
    table[..i] + table[i + 1..]
  }

  /** Takes the first region that is large enough out of a list. */
  method GetElem(size: int, table: seq<Avail>) returns (found: bool, val: Avail, r: seq<Avail>)
    ensures found <==> FirstFit(table, size) < |table|
    ensures if found then val == table[FirstFit(table, size)] && r == Dropped(table, FirstFit(table, size)) else r == table
  {
    var index := 0;
    while index < |table| && table[index].size < size
      invariant 0 <= index <= |table|
      invariant forall k | 0 <= k < index :: table[k].size < size
    {
      index := index + 1;
    }
    found := index < |table|;
    if found {
      val, r := table[index], table[..index] + table[index + 1..];
    } else {
      val, r := Avail(0, 0), table;
    }
  }

  /** What an allocation takes: a region, and what it leaves of the bucket's list, the header's list and
      the end of the file. */
  datatype Taken = Taken(region: Avail, avail: seq<Avail>, header: seq<Avail>, end: int)

  /** The first place to look is the current bucket's list, then the header's; else there are new
      blocks at the end of the file. */
  function TakeSpace(n: int, avail: seq<Avail>, header: seq<Avail>, end: int, blockSize: int): (t: Taken)
    requires blockSize > 0
    ensures n <= t.region.size && end <= t.end <= end + RoundUp(n, blockSize)
  {
    var i, j := FirstFit(avail, n), FirstFit(header, n);
    if i < |avail| then Taken(avail[i], Dropped(avail, i), header, end)
    else if j < |header| then Taken(header[j], avail, Dropped(header, j), end)
    else Taken(Avail(RoundUp(n, blockSize), end), avail, header, end + RoundUp(n, blockSize))
  }

  /** The size of as many blocks as are needed, but at least one. */
  function RoundUp(numBytes: int, blockSize: int): (size: int)
    requires blockSize > 0
    ensures size >= numBytes && size >= blockSize
    decreases numBytes
  {
    if numBytes <= blockSize then blockSize else blockSize + RoundUp(numBytes - blockSize, blockSize)
  }

  lemma {:induction false} RoundUpWhole(blocks: nat, blockSize: int)
    requires blockSize > 0 && blocks > 0
    ensures RoundUp(blocks * blockSize, blockSize) == blocks * blockSize
  {
    if blocks > 1 {
      RoundUpWhole(blocks - 1, blockSize);
      assert blocks * blockSize == (blocks - 1) * blockSize + blockSize;
    }
  }


  /** The current bucket's list comes first if it has a region that is large enough, then the header's
      list if it has one; the first such region of the list is taken, and the rest is left. Otherwise
      whole blocks are taken at the end of the file, and the lists are left. */
  lemma TakesFirst(n: int, avail: seq<Avail>, header: seq<Avail>, end: int, blockSize: int)
    requires blockSize > 0
    ensures var t := TakeSpace(n, avail, header, end, blockSize);
            if exists i | 0 <= i < |avail| :: avail[i].size >= n
            then First(avail, n, t.region, t.avail) && t.header == header && t.end == end
            else if exists i | 0 <= i < |header| :: header[i].size >= n
            then First(header, n, t.region, t.header) && t.avail == avail && t.end == end
            else t.region.adr == end && t.end == end + t.region.size && t.region.size % blockSize == 0
                 && n <= t.region.size && (t.region.size < n + blockSize || t.region.size == blockSize)
                 && t.avail == avail && t.header == header
  {
    var i, j := FirstFit(avail, n), FirstFit(header, n);
    if i < |avail| {
      FitsFirst(avail, n, i);
    } else if j < |header| {
      FitsFirst(header, n, j);
    }
    WholeRound(n, blockSize);
  }

  /** The first region of a list that is large enough has been taken out of it. */
  ghost predicate First(table: seq<Avail>, n: int, region: Avail, r: seq<Avail>) {
    exists i | 0 <= i < |table| ::
      region == table[i] && region.size >= n && (forall k | 0 <= k < i :: table[k].size < n) && r == table[..i] + table[i + 1..]
  }

  lemma FitsFirst(table: seq<Avail>, n: int, i: nat)
    requires i < |table| && i == FirstFit(table, n)
    ensures First(table, n, table[i], Dropped(table, i))
  {
  }

  lemma {:induction false} WholeRound(n: int, blockSize: int)
    requires blockSize > 0
    ensures var r := RoundUp(n, blockSize); r % blockSize == 0 && n <= r && (r < n + blockSize || r == blockSize)
    decreases n
  {
    if n > blockSize {
      WholeRound(n - blockSize, blockSize);
      OneBlockMore(RoundUp(n - blockSize, blockSize), blockSize);
    }
  }

  lemma OneBlockMore(x: int, blockSize: int)
    requires blockSize > 0
    ensures (x + blockSize) % blockSize == x % blockSize
  {
    var y := x + blockSize;
    var d := y / blockSize - (x / blockSize + 1);
    assert x == blockSize * (x / blockSize) + x % blockSize;
    assert y == blockSize * (y / blockSize) + y % blockSize;
    assert blockSize * d == x % blockSize - y % blockSize;
    MultipleSize(blockSize, d);
  }

  // ---- Regions that do not overlap ----

  /** Two regions have no byte in common. */
  predicate Clear(a: Avail, b: Avail) {
    a.adr + a.size <= b.adr || b.adr + b.size <= a.adr
  }

  /** Every free region lies in the file, is listed once, and has no byte in common with another one or
      with a region in use. */
  ghost predicate Tidy(free: multiset<Avail>, inUse: map<int, int>, limit: int) {
    && (forall r | r in free :: free[r] == 1 && 0 < r.adr && 0 < r.size && r.adr + r.size <= limit)
    && (forall r, s | r in free && s in free && r != s :: Clear(r, s))
    && (forall r, a | r in free && a in inUse :: Clear(r, Avail(inUse[a], a)))
  }

  /** No two regions overlap, and all end before the limit. */
  ghost predicate Apart(inUse: map<int, int>, limit: int) {
    && (forall a | a in inUse :: 0 < a && 0 < inUse[a] && a + inUse[a] <= limit)
    && (forall a, b | a in inUse && b in inUse && a < b :: a + inUse[a] <= b)
  }

  ghost predicate SpaceSets(live: set<int>, inUse: map<int, int>, dirAdr: int, limit: int) {
    live <= inUse.Keys && dirAdr in inUse && dirAdr !in live && Apart(inUse, limit)
  }

  /** A split leaves the other regions in use alone, except that it may set a directory aside. */
  lemma OthersStep(live: set<int>, inUse: map<int, int>, dirAdr: int, dirAdr2: int, dirSize2: int, gone: int,
                   adr0: int, adr1: int, n: int)
    requires live <= inUse.Keys && dirAdr in inUse && dirAdr !in live && gone in live && adr0 !in inUse && adr1 !in inUse
    ensures var live2, inUse2 := live - {gone} + {adr0, adr1}, inUse[adr0 := n][adr1 := n];
            && (inUse2 - {gone}) - live2 - {dirAdr} == inUse - live - {dirAdr}
            && (dirAdr2 !in inUse && dirAdr2 != adr0 && dirAdr2 != adr1 ==>
                  (inUse2[dirAdr2 := dirSize2] - {gone}) - live2 - {dirAdr2} == (inUse - live - {dirAdr})[dirAdr := inUse[dirAdr]])
  {
    var live2, inUse2 := live - {gone} + {adr0, adr1}, inUse[adr0 := n][adr1 := n];
    assert (inUse2 - {gone}) - live2 - {dirAdr} == inUse - live - {dirAdr};
    if dirAdr2 !in inUse && dirAdr2 != adr0 && dirAdr2 != adr1 {
      assert (inUse2[dirAdr2 := dirSize2] - {gone}) - live2 - {dirAdr2} == (inUse - live - {dirAdr})[dirAdr := inUse[dirAdr]];
    }
  }

  lemma SpaceStep(live: set<int>, inUse: map<int, int>, dirAdr: int, limit: int, gone: int, adr0: int, adr1: int)
    requires SpaceSets(live, inUse, dirAdr, limit) && gone in live
    requires adr0 in inUse && adr1 in inUse && adr0 !in live && adr1 !in live && adr0 != dirAdr && adr1 != dirAdr
    ensures SpaceSets(live - {gone} + {adr0, adr1}, inUse - {gone}, dirAdr, limit)
  {
  }

  /** A region that is new can become the directory's. */
  lemma SpaceMoved(live: set<int>, inUse: map<int, int>, inUse2: map<int, int>, dirAdr: int, adr: int, n: int,
                   limit: int, limit2: int)
    requires SpaceSets(live, inUse, dirAdr, limit) && adr !in inUse
    requires SpaceSets(live, inUse2, dirAdr, limit2) && inUse2 == inUse[adr := n]
    ensures SpaceSets(live, inUse2, adr, limit2) && forall a | a in live :: a != adr
  {
  }

  // ---- What keeps them tidy ----

  lemma TidyPart(free: multiset<Avail>, free2: multiset<Avail>, inUse: map<int, int>, limit: int)
    requires Tidy(free, inUse, limit) && free2 <= free
    ensures Tidy(free2, inUse, limit)
  {
    forall r | r in free2 ensures r in free && free2[r] == 1 {
    }
  }

  /** With fewer regions in use and a longer file. */
  lemma TidyMore(free: multiset<Avail>, inUse: map<int, int>, inUse2: map<int, int>, limit: int, limit2: int)
    requires Tidy(free, inUse, limit) && limit <= limit2
    requires forall a | a in inUse2 :: a in inUse && inUse2[a] == inUse[a]
    ensures Tidy(free, inUse2, limit2)
  {
  }

  /** A region that goes out of use can be free. */
  lemma TidyFreed(free: multiset<Avail>, inUse: map<int, int>, limit: int, adr: int)
    requires Tidy(free, inUse, limit) && Apart(inUse, limit) && adr in inUse
    ensures Tidy(free + multiset{Avail(inUse[adr], adr)}, inUse - {adr}, limit)
  {
    var region := Avail(inUse[adr], adr);
    assert region in free ==> Clear(region, region);
  }

  /** Free regions that adjoin can be merged. */
  lemma TidyMerged(free: multiset<Avail>, t: Avail, region: Avail, inUse: map<int, int>, limit: int)
    requires Tidy(free + multiset{t} + multiset{region}, inUse, limit) && Apart(inUse, limit) && Adjoins(t, region)
    ensures Tidy(free + multiset{Merged(t, region)}, inUse, limit)
  {
    var all, one := free + multiset{t} + multiset{region}, Merged(t, region);
    assert t in all && region in all && all[t] == 1;
    assert t != region;
    forall r | r in free ensures r in all && free[r] == 1 && Clear(r, t) && Clear(r, region) && r != one {
      assert all[r] >= free[r];
      assert r != t && r != region;
    }
    forall a | a in inUse ensures Clear(one, Avail(inUse[a], a)) {
      assert Clear(t, Avail(inUse[a], a)) && Clear(region, Avail(inUse[a], a));
    }
  }

  /** The new bytes at the end of the file are free. */
  lemma TidyGrown(free: multiset<Avail>, inUse: map<int, int>, limit: int, n: int)
    requires Tidy(free, inUse, limit) && Apart(inUse, limit) && limit > 0 && n > 0
    ensures Tidy(free + multiset{Avail(n, limit)}, inUse, limit + n)
  {
    assert Avail(n, limit) !in free;
  }

  /** The first n bytes of a free region go into use, and the rest of it is free. */
  lemma TidyUsed(free: multiset<Avail>, region: Avail, n: int, inUse: map<int, int>, limit: int)
    requires Tidy(free + multiset{region}, inUse, limit) && Apart(inUse, limit) && 0 < n <= region.size
    ensures region.adr > 0 && region.adr !in inUse && Apart(inUse[region.adr := n], limit)
    ensures Tidy(free, inUse[region.adr := n], limit)
    ensures n < region.size ==>
              Tidy(free + multiset{Avail(region.size - n, region.adr + n)}, inUse[region.adr := n], limit)
  {
    ClearOf(free, region, inUse, limit);
    TidyPart(free + multiset{region}, free, inUse, limit);
    UsedApart(region, n, inUse, limit);
    UsedTidy(free, region, n, inUse, limit);
  }

  lemma ClearOf(free: multiset<Avail>, region: Avail, inUse: map<int, int>, limit: int)
    requires Tidy(free + multiset{region}, inUse, limit)
    ensures 0 < region.adr && 0 < region.size && region.adr + region.size <= limit && region !in free
    ensures forall r | r in free :: Clear(r, region)
    ensures forall a | a in inUse :: Clear(region, Avail(inUse[a], a))
  {
    var all := free + multiset{region};
    assert region in all && all[region] == 1;
    forall r | r in free ensures Clear(r, region) {
      assert r in all;
    }
  }

  lemma UsedApart(region: Avail, n: int, inUse: map<int, int>, limit: int)
    requires Apart(inUse, limit) && 0 < region.adr && region.adr + region.size <= limit && 0 < n <= region.size
    requires forall a | a in inUse :: Clear(region, Avail(inUse[a], a))
    ensures region.adr !in inUse && Apart(inUse[region.adr := n], limit)
  {
    assert region.adr in inUse ==> Clear(region, Avail(inUse[region.adr], region.adr));
  }

  lemma UsedTidy(free: multiset<Avail>, region: Avail, n: int, inUse: map<int, int>, limit: int)
    requires Tidy(free, inUse, limit) && 0 < n <= region.size && region.adr > 0 && region.adr + region.size <= limit
    requires region.adr !in inUse
    requires forall r | r in free :: Clear(r, region)
    requires forall a | a in inUse :: Clear(region, Avail(inUse[a], a))
    ensures Tidy(free, inUse[region.adr := n], limit)
    ensures n < region.size ==>
              Tidy(free + multiset{Avail(region.size - n, region.adr + n)}, inUse[region.adr := n], limit)
  {
    var rest := Avail(region.size - n, region.adr + n);
    if n < region.size {
      assert rest in free ==> Clear(rest, region);
    }
  }

  /** Putting a free region into a list, or merging it with one there. */
  lemma TidyPut(other: multiset<Avail>, region: Avail, merge: bool, table: seq<Avail>, r: seq<Avail>,
                inUse: map<int, int>, limit: int)
    requires Tidy(other + multiset(table) + multiset{region}, inUse, limit) && Apart(inUse, limit)
    requires Put(region, merge, table, r)
    ensures Tidy(other + multiset(r), inUse, limit)
  {
    hide Tidy;
    if region.size > IGNORE_SIZE && merge && exists i | 0 <= i < |table| :: Adjoins(table[i], region) {
      var i :| 0 <= i < |table| && Adjoins(table[i], region) && r == table[i := Merged(table[i], region)];
      TidyPutMerged(other, region, table, i, inUse, limit);
    } else {
      PutCounts(region, table, r);
      TidyPart(other + multiset(table) + multiset{region}, other + multiset(r), inUse, limit);
    }
  }

  lemma TidyPutMerged(other: multiset<Avail>, region: Avail, table: seq<Avail>, i: nat, inUse: map<int, int>, limit: int)
    requires Tidy(other + multiset(table) + multiset{region}, inUse, limit) && Apart(inUse, limit)
    requires i < |table| && Adjoins(table[i], region)
    ensures Tidy(other + multiset(table[i := Merged(table[i], region)]), inUse, limit)
  {
    hide Tidy, Adjoins;
    Replaced(table, i, Merged(table[i], region));
    var rest := other + multiset(Dropped(table, i));
    assert other + multiset(table) + multiset{region} == rest + multiset{table[i]} + multiset{region};
    TidyMerged(rest, table[i], region, inUse, limit);
    assert other + multiset(table[i := Merged(table[i], region)]) == rest + multiset{Merged(table[i], region)};
  }

  lemma Replaced(table: seq<Avail>, i: nat, x: Avail)
    requires i < |table|
    ensures multiset(table) == multiset(Dropped(table, i)) + multiset{table[i]}
    ensures multiset(table[i := x]) == multiset(Dropped(table, i)) + multiset{x}
  {
    assert table == table[..i] + [table[i]] + table[i + 1..];
    assert table[i := x] == table[..i] + [x] + table[i + 1..];
  }

  lemma PutCounts(region: Avail, table: seq<Avail>, r: seq<Avail>)
    requires PutIn(region, table, r)
    ensures multiset(r) <= multiset(table) + multiset{region}
  {
    if region.size > IGNORE_SIZE {
      var i :| 0 <= i <= |table| && r == table[..i] + [region] + table[i..];
      assert table == table[..i] + table[i..];
    }
  }

  /** An allocation takes a free region that is large enough, and nothing else changes. */
  lemma TidyTaken(rest: multiset<Avail>, n: int, avail: seq<Avail>, header: seq<Avail>, end: int, blockSize: int,
                  inUse: map<int, int>)
    requires Tidy(rest + multiset(header) + multiset(avail), inUse, end) && Apart(inUse, end)
    requires blockSize > 0 && n > 0 && end > 0
    ensures var t := TakeSpace(n, avail, header, end, blockSize);
            Tidy(rest + multiset(t.header) + multiset(t.avail) + multiset{t.region}, inUse, t.end)
  {
    hide Tidy, Apart, RoundUp;
    var i, j := FirstFit(avail, n), FirstFit(header, n);
    var t := TakeSpace(n, avail, header, end, blockSize);
    if i < |avail| {
      Replaced(avail, i, avail[i]);
      assert rest + multiset(header) + multiset(avail)
          == rest + multiset(t.header) + multiset(t.avail) + multiset{t.region};
    } else if j < |header| {
      Replaced(header, j, header[j]);
      assert rest + multiset(header) + multiset(avail)
          == rest + multiset(t.header) + multiset(t.avail) + multiset{t.region};
    } else {
      TidyGrown(rest + multiset(header) + multiset(avail), inUse, end, t.region.size);
    }
  }

  lemma ApartMore(inUse: map<int, int>, limit: int, limit2: int)
    requires Apart(inUse, limit) && limit <= limit2
    ensures Apart(inUse, limit2)
  {
  }

  /** A region that has just gone into use is neither a bucket nor the directory. */
  lemma NotLive(live: set<int>, inUse: map<int, int>, dirAdr: int, limit: int, adr: int, n: int)
    requires SpaceSets(live, inUse, dirAdr, limit) && adr !in inUse
    ensures adr !in live && adr != dirAdr
    ensures Apart(inUse[adr := n], limit) ==> SpaceSets(live, inUse[adr := n], dirAdr, limit)
  {
  }

  /** A region that is too small leaves a list as it is. */
  lemma Forgotten(region: Avail, merge: bool, table: seq<Avail>)
    ensures region.size <= IGNORE_SIZE ==> Put(region, merge, table, table)
  {
  }

  /** A region that is worth keeping is put into one of two lists. */
  lemma TidyRecorded(rest: multiset<Avail>, region: Avail, merge: bool, avail: seq<Avail>, avail2: seq<Avail>,
                     header: seq<Avail>, header2: seq<Avail>, inUse: map<int, int>, limit: int)
    requires Recorded(region, merge, avail, avail2, header, header2) && Apart(inUse, limit)
    requires if region.size <= IGNORE_SIZE then Tidy(rest + multiset(header) + multiset(avail), inUse, limit)
             else Tidy(rest + multiset(header) + multiset(avail) + multiset{region}, inUse, limit)
    ensures Tidy(rest + multiset(header2) + multiset(avail2), inUse, limit)
  {
    hide Tidy;
    if region.size > IGNORE_SIZE {
      if Put(region, merge, avail, avail2) && header2 == header {
        TidyPut(rest + multiset(header), region, merge, avail, avail2, inUse, limit);
      } else {
        assert rest + multiset(avail) + multiset(header) + multiset{region}
            == rest + multiset(header) + multiset(avail) + multiset{region};
        TidyPut(rest + multiset(avail), region, merge, header, header2, inUse, limit);
        assert rest + multiset(avail2) + multiset(header2) == rest + multiset(header2) + multiset(avail2);
      }
    }
  }

  /** Sharing out a bucket's free regions and a fresh block. */
  lemma TidyShared(rest: multiset<Avail>, avail: seq<Avail>, block: Avail, avail0: seq<Avail>, avail1: seq<Avail>,
                   inUse: map<int, int>, limit: int)
    requires Tidy(rest + multiset(avail) + multiset{block}, inUse, limit) && SharedOut(avail, block, avail0, avail1)
    ensures Tidy(rest + multiset(avail0) + multiset(avail1), inUse, limit)
  {
    if |avail| == BUCKET_AVAIL {
      Replaced(avail, 0, avail[0]);
      assert Dropped(avail, 0) == avail[1..];
      PutCounts(avail[0], [block], avail1);
    }
    TidyPart(rest + multiset(avail) + multiset{block}, rest + multiset(avail0) + multiset(avail1), inUse, limit);
  }

  // ---- The free regions of all buckets ----

  ghost function BucketFree(view: map<int, Bucket>): multiset<Avail> {
    if !exists a :: a in view.Keys then multiset{} else
      var a :| a in view.Keys;
      multiset(view[a].avail) + BucketFree(view - {a})
  }

  lemma {:induction false} BucketFreeWithout(view: map<int, Bucket>, a: int)
    requires a in view
    ensures BucketFree(view) == multiset(view[a].avail) + BucketFree(view - {a})
    decreases |view.Keys|
  {
    var x :| x in view.Keys && BucketFree(view) == multiset(view[x].avail) + BucketFree(view - {x});
    if x != a {
      BucketFreeWithout(view - {x}, a);
      BucketFreeWithout(view - {a}, x);
      assert view - {x} - {a} == view - {a} - {x};
    }
  }

  lemma BucketFreeSet(view: map<int, Bucket>, a: int, b: Bucket)
    ensures BucketFree(view[a := b]) == multiset(b.avail) + BucketFree(view - {a})
  {
    BucketFreeWithout(view[a := b], a);
    assert view[a := b] - {a} == view - {a};
  }

  lemma BucketFreeSame(view: map<int, Bucket>, a: int, b: Bucket)
    requires a in view && b.avail == view[a].avail
    ensures BucketFree(view[a := b]) == BucketFree(view)
  {
    BucketFreeSet(view, a, b);
    BucketFreeWithout(view, a);
  }

  /** A bucket is replaced by two new ones. */
  lemma BucketFreeSplit(view: map<int, Bucket>, gone: int, adr0: int, adr1: int, b0: Bucket, b1: Bucket)
    requires adr0 !in view && adr1 !in view && adr0 != adr1
    ensures BucketFree((view - {gone})[adr0 := b0][adr1 := b1])
         == BucketFree(view - {gone}) + multiset(b0.avail) + multiset(b1.avail)
  {
    var rest := view - {gone};
    BucketFreeSet(rest[adr0 := b0], adr1, b1);
    BucketFreeSet(rest, adr0, b0);
    assert rest[adr0 := b0] - {adr1} == rest[adr0 := b0] && rest - {adr0} == rest;
  }

  lemma Beside(rest: multiset<Avail>, a: multiset<Avail>, b: multiset<Avail>)
    requires a <= b
    ensures rest + a <= rest + b
  {
    forall r ensures (rest + a)[r] <= (rest + b)[r] {
      assert a[r] <= b[r];
    }
  }

  /** The space of a bucket that has been split is put into one of the two new lists. */
  lemma TidySwitched(rest: multiset<Avail>, a0: seq<Avail>, a1: seq<Avail>, b0: seq<Avail>, b1: seq<Avail>, gone: int,
                     inUse: map<int, int>, limit: int)
    requires Tidy(rest + multiset(a0) + multiset(a1), inUse, limit) && Apart(inUse, limit) && gone in inUse
    requires multiset(b0) + multiset(b1) <= multiset(a0) + multiset(a1) + multiset{Avail(inUse[gone], gone)}
    ensures Tidy(rest + multiset(b0) + multiset(b1), inUse - {gone}, limit)
  {
    hide Tidy, Apart;
    var all := rest + multiset(a0) + multiset(a1);
    TidyFreed(all, inUse, limit, gone);
    var more, fewer := multiset(a0) + multiset(a1) + multiset{Avail(inUse[gone], gone)}, multiset(b0) + multiset(b1);
    Beside(rest, fewer, more);
    assert all + multiset{Avail(inUse[gone], gone)} == rest + more;
    assert rest + multiset(b0) + multiset(b1) == rest + fewer;
    TidyPart(rest + more, rest + fewer, inUse - {gone}, limit);
  }
}
