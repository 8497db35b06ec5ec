/** The extendible-hashing directory: 2^bits bucket addresses indexed by hash prefix. */
module Directory {
  import opened Bits
  import opened HashTable

  const BUCKET_AVAIL := 6

  datatype Avail = Avail(size: int, adr: int)
  datatype Bucket = Bucket(bits: nat, avail: seq<Avail>, count: int, table: seq<Element>)

  ghost predicate BucketOk(b: Bucket, n: nat) {
    && |b.table| == n && Probed(b.table) && b.count == Used(b.table)
    && b.bits <= 31 && |b.avail| <= BUCKET_AVAIL
  }

  /** The first `k` bits of a 31-bit hash. */
  function Prefix(hash: int, k: nat): nat
    requires 0 <= hash && k <= 31
  {
    Shr(hash, 31 - k)
  }

  /** The first k bits are a quotient. */
  lemma PrefixIsQuotient(hash: int, k: nat)
    requires 0 <= hash && k <= 31
    ensures Prefix(hash, k) == hash / Pow2(31 - k)
  {
    ShrIsDivision(hash, 31 - k);
  }

  /** The first `k` bits of a directory index of `bits` bits. */
  function Run(i: nat, bits: nat, k: nat): nat
    requires k <= bits
  {
    Shr(i, bits - k)
  }

  /** Entries and buckets name each other, and every bucket is sound. */
  ghost predicate Linked(n: nat, bits: nat, dir: seq<int>, view: map<int, Bucket>) {
    && n > 0 && bits <= 31 && |dir| == Pow2(bits)
    && (forall i: nat | i < |dir| :: dir[i] in view && view[dir[i]].bits <= bits)
    && (forall a | a in view :: a != 0 && a in dir && BucketOk(view[a], n) && view[a].bits <= bits)
  }

  /** A bucket with k bits is referenced by exactly the aligned run of 2^(bits-k) entries that
      share its k-bit prefix. */
  ghost predicate OneRunEach(bits: nat, dir: seq<int>, view: map<int, Bucket>)
    requires forall i: nat | i < |dir| :: dir[i] in view && view[dir[i]].bits <= bits
  {
    forall i: nat, j: nat | i < |dir| && j < |dir| ::
      dir[j] == dir[i] <==> Run(j, bits, view[dir[i]].bits) == Run(i, bits, view[dir[i]].bits)
  }

  /** Every element of a bucket carries the prefix of the bucket's run. */
  ghost predicate PrefixesOk(bits: nat, dir: seq<int>, view: map<int, Bucket>)
    requires forall i: nat | i < |dir| :: dir[i] in view && view[dir[i]].bits <= bits
  {
    forall i: nat | i < |dir| :: Carries(view[dir[i]], Run(i, bits, view[dir[i]].bits))
  }

  /** The directory invariant over the logical buckets `view`. */
  ghost predicate DirOk(n: nat, bits: nat, dir: seq<int>, view: map<int, Bucket>) {
    Linked(n, bits, dir, view) && OneRunEach(bits, dir, view) && PrefixesOk(bits, dir, view)
  }

  /** Every element of the bucket has the given prefix. */
  ghost predicate Carries(b: Bucket, prefix: nat) {
    b.bits <= 31 && HashesOk(b.table) &&
    forall s | 0 <= s < |b.table| && !Free(b.table[s]) :: Prefix(b.table[s].hash, b.bits) == prefix
  }

  lemma HashIndex(hash: int, bits: nat)
    requires 0 <= hash < HASH_LIMIT && bits <= 31
    ensures Prefix(hash, bits) < Pow2(bits)
  {
    Pow2Of31();
    var low: nat := 31 - bits;
    assert hash < Pow2(low + bits);
    ShrBound(hash, low, bits);
  }

  /** The run of the entry that a hash leads to is the hash's own prefix. */
  lemma HashRun(hash: int, bits: nat, k: nat)
    requires 0 <= hash && k <= bits <= 31
    ensures Run(Prefix(hash, bits), bits, k) == Prefix(hash, k)
  {
    ShrShr(hash, 31 - bits, bits - k);
  }

  /** How often an element is stored in the bucket that its own hash leads to. */
  ghost function Stored(bits: nat, dir: seq<int>, view: map<int, Bucket>, e: Element): nat
    requires bits <= 31 && 0 <= e.hash
  {
    var j := Prefix(e.hash, bits);
    if j < |dir| && dir[j] in view then multiset(view[dir[j]].table)[e] else 0
  }

  // ---- Doubling ----

  ghost predicate Doubled(dir: seq<int>, dir2: seq<int>) {
    |dir2| == 2 * |dir| && forall i: nat | i < |dir2| :: dir2[i] == dir[i / 2]
  }

  lemma DoubledRuns(bits: nat, i: nat, k: nat)
    requires k <= bits
    ensures Run(i, bits + 1, k) == Run(i / 2, bits, k)
  {
    ShrOfHalf(i, bits - k);
  }

  lemma DoubleKeeps(n: nat, bits: nat, bits2: nat, dir: seq<int>, dir2: seq<int>, view: map<int, Bucket>)
    requires DirOk(n, bits, dir, view) && bits < 31 && bits2 == bits + 1 && Doubled(dir, dir2)
    ensures DirOk(n, bits2, dir2, view)
  {
    forall a | a in view ensures a in dir2 {
      var i: nat :| i < |dir| && dir[i] == a;
      assert dir2[2 * i] == a;
    }
    forall i: nat, j: nat | i < |dir2| && j < |dir2|
      ensures var k := view[dir2[i]].bits; dir2[j] == dir2[i] <==> Run(j, bits + 1, k) == Run(i, bits + 1, k)
    {
      var k := view[dir2[i]].bits;
      DoubledRuns(bits, i, k);
      DoubledRuns(bits, j, k);
      assert dir[j / 2] == dir[i / 2] <==> Run(j / 2, bits, k) == Run(i / 2, bits, k);
    }
    forall i: nat | i < |dir2| ensures Carries(view[dir2[i]], Run(i, bits + 1, view[dir2[i]].bits)) {
      DoubledRuns(bits, i, view[dir2[i]].bits);
    }
  }

  /** Doubling does not change where any element is found. */
  lemma DoubleStored(n: nat, bits: nat, dir: seq<int>, dir2: seq<int>, view: map<int, Bucket>, e: Element)
    requires DirOk(n, bits, dir, view) && bits < 31 && Doubled(dir, dir2)
    requires 0 <= e.hash < HASH_LIMIT
    ensures Stored(bits + 1, dir2, view, e) == Stored(bits, dir, view, e)
  {
    HashIndex(e.hash, bits);
    HashIndex(e.hash, bits + 1);
  }

  lemma DoubleStoredAll(n: nat, bits: nat, dir: seq<int>, dir2: seq<int>, view: map<int, Bucket>)
    requires DirOk(n, bits, dir, view) && bits < 31 && Doubled(dir, dir2)
    ensures forall e: Element | 0 <= e.hash < HASH_LIMIT ::
              Stored(bits + 1, dir2, view, e) == Stored(bits, dir, view, e)
  {
    forall e: Element | 0 <= e.hash < HASH_LIMIT
      ensures Stored(bits + 1, dir2, view, e) == Stored(bits, dir, view, e)
    {
      DoubleStored(n, bits, dir, dir2, view, e);
    }
  }

  // ---- Splitting one bucket ----

  /** The directory after the run [start0, end) has been given to two buckets. */
  ghost predicate Repointed(dir: seq<int>, dir2: seq<int>, start0: int, start1: int, end: int, adr0: int, adr1: int) {
    && |dir2| == |dir| && 0 <= start0 <= start1 <= end <= |dir|
    && forall i: nat | i < |dir| ::
         dir2[i] == if start0 <= i < start1 then adr0 else if start1 <= i < end then adr1 else dir[i]
  }

  lemma PrefixParent(hash: int, k: nat)
    requires 0 <= hash && k < 31
    ensures Prefix(hash, k) == Prefix(hash, k + 1) / 2
    ensures Side(hash, k + 1) == Prefix(hash, k + 1) % 2
  {
  }

  /** What the two halves of a split bucket must be. */
  ghost predicate Halves(n: nat, full: Bucket, b0: Bucket, b1: Bucket) {
    && |b0.avail| <= BUCKET_AVAIL && |b1.avail| <= BUCKET_AVAIL
    && Half(n, full.bits, full.table, 0, b0.bits, b0.count, b0.table)
    && Half(n, full.bits, full.table, 1, b1.bits, b1.count, b1.table)
  }

  /** One half: a sound table with exactly the elements on one side of the next bit. */
  ghost predicate Half(n: nat, fullBits: nat, fullTable: seq<Element>, side: nat, bits: nat, count: int, table: seq<Element>) {
    && bits == fullBits + 1 <= 31 && |table| == n && Probed(table) && count == Used(table)
    && HoldsSide(fullTable, table, bits, side)
  }

  lemma HalfCarries(n: nat, full: Bucket, r: nat, b: Bucket, side: nat)
    requires Half(n, full.bits, full.table, side, b.bits, b.count, b.table) && Carries(full, r) && side < 2
    ensures Carries(b, 2 * r + side)
  {
    forall s | 0 <= s < |b.table| && !Free(b.table[s])
      ensures Prefix(b.table[s].hash, b.bits) == 2 * r + side
    {
      var e := b.table[s];
      InTable(b.table, s);
      assert e in full.table;
      PrefixParent(e.hash, full.bits);
    }
  }

  /** The directory entries with the (k+1)-bit prefix p start here. */
  function HalfStart(bits: nat, k: nat, p: nat): nat
    requires k < bits
  {
    Shl(p, bits - k - 1)
  }

  /** One split: the bucket behind entry i is replaced by b0 and b1, and dir becomes dir2. */
  datatype Split = Split(n: nat, bits: nat, dir: seq<int>, view: map<int, Bucket>, i: nat,
                         adr0: int, adr1: int, b0: Bucket, b1: Bucket, dir2: seq<int>)
  {
    ghost predicate Ok() {
      && DirOk(n, bits, dir, view) && i < |dir| == |dir2| && K() < bits
      && Halves(n, view[dir[i]], b0, b1)
      && adr0 !in view && adr1 !in view && adr0 != 0 && adr1 != 0 && adr0 != adr1
      && Repointed(dir, dir2, HalfStart(bits, K(), 2 * R()), HalfStart(bits, K(), 2 * R() + 1),
                   HalfStart(bits, K(), 2 * R() + 2), adr0, adr1)
    }

    /** Bits of the bucket that is split. */
    ghost function K(): nat
      requires i < |dir| && dir[i] in view
    {
      view[dir[i]].bits
    }

    /** Its prefix. */
    ghost function R(): nat
      requires i < |dir| && dir[i] in view && K() < bits
    {
      Run(i, bits, K())
    }

    ghost function View2(): map<int, Bucket>
      requires i < |dir| && dir[i] in view
    {
      (view - {dir[i]})[adr0 := b0][adr1 := b1]
    }
  }

  /** The entries of a bucket are the aligned run around any one of them, and one more bit cuts
      that run in the middle. */
  lemma RunHalves(j: nat, bits: nat, k: nat, r: nat)
    requires k < bits
    ensures Run(j, bits, k) == r <==> HalfStart(bits, k, 2 * r) <= j < HalfStart(bits, k, 2 * r + 2)
    ensures Run(j, bits, k + 1) == 2 * r <==> HalfStart(bits, k, 2 * r) <= j < HalfStart(bits, k, 2 * r + 1)
    ensures Run(j, bits, k + 1) == 2 * r + 1 <==> HalfStart(bits, k, 2 * r + 1) <= j < HalfStart(bits, k, 2 * r + 2)
  {
    ShrRange(j, bits - k - 1, 2 * r);
    ShrRange(j, bits - k - 1, 2 * r + 1);
    ShlStep(2 * r, bits - k - 1);
    ShlStep(2 * r + 1, bits - k - 1);
  }

  lemma SplitEntry(s: Split, j: nat)
    requires s.Ok() && j < |s.dir|
    ensures s.dir2[j] == s.adr0 <==> Run(j, s.bits, s.K() + 1) == 2 * s.R()
    ensures s.dir2[j] == s.adr1 <==> Run(j, s.bits, s.K() + 1) == 2 * s.R() + 1
    ensures s.dir[j] == s.dir[s.i] <==> s.dir2[j] == s.adr0 || s.dir2[j] == s.adr1
    ensures s.dir2[j] != s.adr0 && s.dir2[j] != s.adr1 ==> s.dir2[j] == s.dir[j]
  {
    hide Halves, PrefixesOk, BucketOk, HalfStart, Run;
    RunHalves(j, s.bits, s.K(), s.R());
    assert s.dir[j] == s.dir[s.i] <==> Run(j, s.bits, s.K()) == s.R();
  }

  lemma SplitCarries(s: Split, j: nat)
    requires s.Ok() && j < |s.dir|
    ensures s.dir2[j] in s.View2()
    ensures var b := s.View2()[s.dir2[j]]; b.bits <= s.bits && Carries(b, Run(j, s.bits, b.bits))
  {
    hide OneRunEach, Repointed, Run, HalfStart, Probed, Used, HoldsSide;
    SplitEntry(s, j);
    HalfCarries(s.n, s.view[s.dir[s.i]], s.R(), s.b0, 0);
    HalfCarries(s.n, s.view[s.dir[s.i]], s.R(), s.b1, 1);
    if s.dir2[j] != s.adr0 && s.dir2[j] != s.adr1 {
      assert Carries(s.view[s.dir[j]], Run(j, s.bits, s.view[s.dir[j]].bits));
    }
  }

  /** Both halves of the run are inside the directory and not empty. */
  lemma SplitNewEntries(s: Split)
    requires s.Ok()
    ensures s.adr0 in s.dir2 && s.adr1 in s.dir2
  {
    hide Halves, OneRunEach, PrefixesOk, Run, BucketOk;
    var m := s.bits - s.K() - 1;
    ShlStep(2 * s.R(), m);
    ShlStep(2 * s.R() + 1, m);
    assert s.dir2[Shl(2 * s.R(), m)] == s.adr0 && s.dir2[Shl(2 * s.R() + 1, m)] == s.adr1;
  }

  lemma SplitOldEntries(s: Split, a: int)
    requires s.Ok() && a in s.dir && a != s.dir[s.i]
    ensures a in s.dir2
  {
    hide Halves, OneRunEach, PrefixesOk, Repointed, Run, BucketOk;
    var j: nat :| j < |s.dir| && s.dir[j] == a;
    SplitEntry(s, j);
    assert s.dir2[j] == a;
  }

  lemma SplitCovers(s: Split, a: int)
    requires s.Ok() && a in s.View2()
    ensures a in s.dir2
  {
    if a == s.adr0 || a == s.adr1 {
      SplitNewEntries(s);
    } else {
      SplitOldEntries(s, a);
    }
  }

  lemma SplitRuns(s: Split, x: nat, y: nat)
    requires s.Ok() && x < |s.dir| && y < |s.dir|
    requires s.dir2[x] in s.View2() && s.View2()[s.dir2[x]].bits <= s.bits
    ensures var k := s.View2()[s.dir2[x]].bits;
            s.dir2[y] == s.dir2[x] <==> Run(y, s.bits, k) == Run(x, s.bits, k)
  {
    hide PrefixesOk, Repointed, Run, HoldsSide, Probed, Used;
    SplitEntry(s, x);
    SplitEntry(s, y);
    if s.dir2[x] != s.adr0 && s.dir2[x] != s.adr1 {
      var k := s.view[s.dir[x]].bits;
      assert s.dir[y] == s.dir[x] <==> Run(y, s.bits, k) == Run(x, s.bits, k);
    }
  }

  lemma SplitLinked(s: Split)
    requires s.Ok()
    ensures Linked(s.n, s.bits, s.dir2, s.View2())
  {
    hide OneRunEach, PrefixesOk, Repointed, Run, HoldsSide, HalfStart, Probed, Used;
    forall j: nat | j < |s.dir2|
      ensures s.dir2[j] in s.View2() && s.View2()[s.dir2[j]].bits <= s.bits
    {
      SplitCarries(s, j);
    }
    forall a | a in s.View2() ensures a in s.dir2 {
      SplitCovers(s, a);
    }
  }

  lemma SplitKeeps(s: Split)
    requires s.Ok()
    ensures DirOk(s.n, s.bits, s.dir2, s.View2())
  {
    SplitLinked(s);
    assert OneRunEach(s.bits, s.dir2, s.View2()) by {
      forall i: nat, j: nat | i < |s.dir2| && j < |s.dir2|
        ensures var k := s.View2()[s.dir2[i]].bits;
                s.dir2[j] == s.dir2[i] <==> Run(j, s.bits, k) == Run(i, s.bits, k)
      {
        SplitRuns(s, i, j);
      }
    }
    assert PrefixesOk(s.bits, s.dir2, s.View2()) by {
      forall j: nat | j < |s.dir2| ensures Carries(s.View2()[s.dir2[j]], Run(j, s.bits, s.View2()[s.dir2[j]].bits)) {
        SplitCarries(s, j);
      }
    }
  }

  lemma SideHolds(n: nat, full: Bucket, b0: Bucket, b1: Bucket, e: Element)
    requires Halves(n, full, b0, b1) && 0 <= e.hash
    ensures Side(e.hash, full.bits + 1) == 0 ==> multiset(b0.table)[e] == multiset(full.table)[e]
    ensures Side(e.hash, full.bits + 1) == 1 ==> multiset(b1.table)[e] == multiset(full.table)[e]
  {
  }

  lemma SplitEntryHolds(s: Split, e: Element, j: nat)
    requires s.Ok() && 0 <= e.hash && j < |s.dir|
    requires Run(j, s.bits, s.K() + 1) == Prefix(e.hash, s.K() + 1)
    ensures s.dir2[j] in s.View2()
    ensures multiset(s.View2()[s.dir2[j]].table)[e] == multiset(s.view[s.dir[j]].table)[e]
  {
    hide OneRunEach, PrefixesOk, Repointed, Run, Prefix, Half, Probed, Used, BucketOk;
    SplitEntry(s, j);
    PrefixParent(e.hash, s.K());
    SideHolds(s.n, s.view[s.dir[s.i]], s.b0, s.b1, e);
  }

  /** After a split every element is still stored, equally often, where its hash leads. */
  lemma SplitStored(s: Split, e: Element)
    requires s.Ok() && 0 <= e.hash < HASH_LIMIT
    ensures Stored(s.bits, s.dir2, s.View2(), e) == Stored(s.bits, s.dir, s.view, e)
  {
    HashIndex(e.hash, s.bits);
    HashRun(e.hash, s.bits, s.K() + 1);
    SplitEntryHolds(s, e, Prefix(e.hash, s.bits));
  }

  // ---- Changing the elements of one bucket ----

  /** Replacing a bucket by one with the same prefix keeps the directory sound, and changes only
      what the hashes leading to it find. */
  lemma ReplaceBucket(n: nat, bits: nat, dir: seq<int>, view: map<int, Bucket>, i: nat, b: Bucket)
    requires DirOk(n, bits, dir, view) && i < |dir|
    requires BucketOk(b, n) && b.bits == view[dir[i]].bits && Carries(b, Run(i, bits, b.bits))
    ensures DirOk(n, bits, dir, view[dir[i] := b])
  {
    hide Carries, Probed, Used, Run, BucketOk;
    var view2 := view[dir[i] := b];
    assert Linked(n, bits, dir, view2);
    forall x: nat, y: nat | x < |dir| && y < |dir|
      ensures dir[y] == dir[x] <==> Run(y, bits, view2[dir[x]].bits) == Run(x, bits, view2[dir[x]].bits)
    {
      assert dir[y] == dir[x] <==> Run(y, bits, view[dir[x]].bits) == Run(x, bits, view[dir[x]].bits);
    }
    forall j: nat | j < |dir| ensures Carries(view2[dir[j]], Run(j, bits, view2[dir[j]].bits)) {
      assert dir[j] == dir[i] <==> Run(j, bits, view[dir[i]].bits) == Run(i, bits, view[dir[i]].bits);
    }
  }

  /** One more copy of an element, in the bucket its hash leads to. */
  lemma InsertStored(n: nat, bits: nat, dir: seq<int>, view: map<int, Bucket>, e: Element, b: Bucket, loc: nat)
    requires DirOk(n, bits, dir, view) && 0 <= e.hash < HASH_LIMIT && Prefix(e.hash, bits) < |dir|
    requires var full := view[dir[Prefix(e.hash, bits)]];
             loc < |full.table| && Free(full.table[loc]) && b.table == full.table[loc := e]
    ensures forall x: Element | 0 <= x.hash < HASH_LIMIT ::
              Stored(bits, dir, view[dir[Prefix(e.hash, bits)] := b], x)
                == Stored(bits, dir, view, x) + (if x == e then 1 else 0)
  {
    hide OneRunEach, PrefixesOk, BucketOk, Shr;
    var a := dir[Prefix(e.hash, bits)];
    var t := view[a].table;
    assert multiset(b.table) == multiset(t) - multiset{t[loc]} + multiset{e};
    forall x: Element | 0 <= x.hash < HASH_LIMIT
      ensures Stored(bits, dir, view[a := b], x) == Stored(bits, dir, view, x) + (if x == e then 1 else 0)
    {
      HashIndex(x.hash, bits);
    }
  }

  /** One copy of an element less. */
  lemma RemoveStored(n: nat, bits: nat, dir: seq<int>, view: map<int, Bucket>, e: Element, b: Bucket)
    requires DirOk(n, bits, dir, view) && 0 <= e.hash < HASH_LIMIT && Prefix(e.hash, bits) < |dir|
    requires Without(view[dir[Prefix(e.hash, bits)]].table, b.table, e)
    ensures forall x: Element | 0 <= x.hash < HASH_LIMIT ::
              Stored(bits, dir, view[dir[Prefix(e.hash, bits)] := b], x) + (if x == e then 1 else 0)
                == Stored(bits, dir, view, x)
  {
    hide OneRunEach, PrefixesOk, Probed, Used;
    var a := dir[Prefix(e.hash, bits)];
    forall x: Element | 0 <= x.hash < HASH_LIMIT
      ensures Stored(bits, dir, view[a := b], x) + (if x == e then 1 else 0) == Stored(bits, dir, view, x)
    {
      HashIndex(x.hash, bits);
    }
  }

  lemma InsertCarries(b: Bucket, loc: nat, e: Element, prefix: nat)
    requires Carries(b, prefix) && loc < |b.table| && 0 <= e.hash < HASH_LIMIT && Prefix(e.hash, b.bits) == prefix
    ensures Carries(b.(table := b.table[loc := e], count := b.count + 1), prefix)
  {
  }

  lemma RemoveCarries(b: Bucket, r: seq<Element>, e: Element, prefix: nat)
    requires Carries(b, prefix) && Without(b.table, r, e) && Probed(r)
    ensures Carries(b.(table := r, count := b.count - 1), prefix)
  {
    forall s | 0 <= s < |r| && !Free(r[s]) ensures Prefix(r[s].hash, b.bits) == prefix {
      InTable(r, s);
      assert multiset(b.table)[r[s]] > 0;
      assert r[s] in b.table;
    }
  }

  /** A new file: every entry leads to one empty bucket that has used no bits. */
  lemma NewDirectory(n: nat, bits: nat, dir: seq<int>, adr: int, b: Bucket)
    requires n > 0 && bits <= 31 && |dir| == Pow2(bits) && adr != 0
    requires forall i | 0 <= i < |dir| :: dir[i] == adr
    requires BucketOk(b, n) && b.bits == 0 && forall i | 0 <= i < n :: Free(b.table[i])
    ensures DirOk(n, bits, dir, map[adr := b])
  {
    hide Probed, Used;
    assert dir[0] == adr;
    forall i: nat | i < |dir| ensures Run(i, bits, 0) == 0 {
      ShrRange(i, bits, 0);
      ShlIsProduct(1, bits);
      ShlIsProduct(0, bits);
    }
  }
}
