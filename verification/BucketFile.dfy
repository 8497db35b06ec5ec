/** An open gdbm file: directory, bucket cache and the buckets on disk. */
module BucketFile {
  import opened Bits
  import opened Words
  import opened HashTable
  import opened Directory
  import opened BucketCache
  import opened Space

  const OFF_T := 4

  /** The directory cannot be doubled once it has this many bits: its size in bytes is an int. */
  const MAX_DIR_BITS := 28

  /** What a computation in ints leaves of a value. */
  function AsInt(x: int): int {
    (x + WORD / 2) % WORD - WORD / 2
  }

  /** Doubling the size of a directory overflows an int exactly with the last bit, and then the size
      is negative and cannot be allocated. */
  lemma DoublingOverflows(bits: nat)
    requires bits <= MAX_DIR_BITS
    ensures AsInt(OFF_T * Pow2(bits) * 2) == if bits < MAX_DIR_BITS then OFF_T * Pow2(bits + 1) else -0x8000_0000
  {
    Pow2Of31();
    assert Pow2(31) == 8 * Pow2(28);
    if bits < MAX_DIR_BITS {
      Pow2Grows(bits + 1, 28);
    }
  }

  /** How many elements fit into a bucket of one block: 20 bytes each, besides a head of 60 bytes. */
  function BucketElems(blockSize: int): (n: nat)
    requires blockSize >= 512
    ensures n >= 22 && 60 + 20 * n <= blockSize < 60 + 20 * (n + 1)
  {
    (blockSize - 80) / 20 + 1
  }

  method NewDir(n: nat, adr: int) returns (dir: array<int>)
    ensures fresh(dir) && dir.Length == n && forall i | 0 <= i < n :: dir[i] == adr
  {
    dir := new int[n](_ => adr);
  }

  method NewCache(n: nat, b: Bucket) returns (cache: array<Slot>)
    ensures fresh(cache) && cache.Length == n && forall i | 0 <= i < n :: cache[i] == Slot(b, 0, false)
  {
    cache := new Slot[n](_ => Slot(b, 0, false));
  }

  class Dbf {
    const elems: nat        // header: elements in a bucket
    const bucketSize: int   // header: bytes in a bucket
    const blockSize: int    // header: bytes in a block
    const blockBits: nat    // bits of a directory that fills one block
    const centralFree: bool // free regions are kept in the header only
    const coalesce: bool    // free regions that adjoin are merged
    var dirBits: nat
    var dirAdr: int
    var dirSize: int
    var nextBlock: int      // header: end of the file
    var headerAvail: seq<Avail>
    var dir: array<int>
    var cache: array<Slot>
    var lastRead: int
    var entry: nat          // the current cache entry; its bucket is the current bucket
    var bucketDir: int
    var disk: map<int, Bucket>
    var headerChanged: bool
    var directoryChanged: bool
    var bucketChanged: bool
    var secondChanged: bool
    ghost var view: map<int, Bucket>  // the logical buckets: the file as seen through the cache
    ghost var inUse: map<int, int>    // addresses and sizes of regions handed out and not given back

    /** Regions in use lie inside the file and do not overlap, and every live bucket and the directory
        have one of their size. */
    ghost predicate SpaceOk()
      reads this`nextBlock, this`inUse, this`view, this`dirAdr, this`dirSize
    {
      && bucketSize == blockSize > 0 && 0 < nextBlock <= INT_MAX && SpaceSets(view.Keys, inUse, dirAdr, nextBlock)
      && inUse[dirAdr] == dirSize && forall a | a in view :: inUse[a] == bucketSize
    }

    ghost predicate Shape()
      reads this`cache, this`lastRead, this`entry, cache
    {
      && cache.Length >= 3 && -1 <= lastRead < cache.Length && entry < cache.Length && elems > 0
      && (forall i | 0 <= i < cache.Length ::
            |cache[i].bucket.table| == elems && |cache[i].bucket.avail| <= BUCKET_AVAIL)
    }

    ghost predicate CacheValid()
      reads this`cache, this`lastRead, this`entry, this`disk, this`view, cache
    {
      Shape() && CacheOk(cache[..], disk, view)
      && forall a | a in view :: a != 0 && |view[a].table| == elems && |view[a].avail| <= BUCKET_AVAIL
    }

    ghost predicate DirValid()
      reads this`dir, this`dirBits, this`dirSize, this`view, dir
    {
      && DirOk(elems, dirBits, dir[..], view) && dirBits <= MAX_DIR_BITS
      && dirSize == OFF_T * Pow2(dirBits) >= blockSize == OFF_T * Pow2(blockBits) && blockBits <= dirBits
    }

    /** The free regions on the header's list and on the lists of all buckets are tidy. */
    ghost predicate SpareOk()
      reads this`headerAvail, this`view, this`inUse, this`nextBlock
    {
      Tidy(multiset(headerAvail) + BucketFree(view), inUse, nextBlock)
    }

    ghost predicate Valid()
      reads this, dir, cache
    {
      CacheValid() && DirValid() && SpaceOk() && SpareOk()
    }

    /** The same while the current bucket's list changes; `rest` are the regions on the lists of the
        other buckets. */
    ghost predicate FreeOk(rest: multiset<Avail>)
      reads this`headerAvail, this`inUse, this`nextBlock, this`entry, this`cache, cache
    {
      entry < cache.Length && Tidy(rest + multiset(headerAvail) + multiset(Bucket0().avail), inUse, nextBlock)
    }

    /** The same when two entries have taken over the current bucket's regions. */
    ghost predicate SharedFree(rest: multiset<Avail>, c0: nat, c1: nat)
      reads this`headerAvail, this`inUse, this`nextBlock, this`cache, cache
    {
      && c0 < cache.Length && c1 < cache.Length
      && Tidy(rest + multiset(headerAvail) + multiset(cache[c0].bucket.avail) + multiset(cache[c1].bucket.avail),
              inUse, nextBlock)
    }

    /** The regions on the lists of the other buckets. */
    ghost function Rest(): multiset<Avail>
      requires 0 <= bucketDir < dir.Length
      reads this`view, this`bucketDir, this`dir, dir
    {
      BucketFree(view - {dir[bucketDir]})
    }

    lemma SpareRest()
      requires Valid() && Current()
      ensures FreeOk(Rest())
    {
      hide Tidy, CacheOk, DirOk;
      CurrentInView();
      BucketFreeWithout(view, dir[bucketDir]);
      assert Rest() + multiset(headerAvail) + multiset(Bucket0().avail) == multiset(headerAvail) + BucketFree(view);
    }

    lemma RestSpare()
      requires 0 <= bucketDir < dir.Length && FreeOk(Rest())
      requires dir[bucketDir] in view && view[dir[bucketDir]].avail == Bucket0().avail
      ensures SpareOk()
    {
      hide Tidy;
      BucketFreeWithout(view, dir[bucketDir]);
      assert Rest() + multiset(headerAvail) + multiset(Bucket0().avail) == multiset(headerAvail) + BucketFree(view);
    }

    /** The current bucket is the one the directory gives for index `bucketDir`. */
    ghost predicate Current()
      reads this, dir, cache
    {
      0 <= bucketDir < dir.Length && entry < cache.Length && cache[entry].adr == dir[bucketDir]
    }

    /** Regions in use for anything but buckets and the directory. */
    ghost function Others(): map<int, int>
      reads this`inUse, this`view, this`dirAdr
    {
      inUse - view.Keys - {dirAdr}
    }

    /** How often an element is stored in the file. */
    ghost function Count(e: Element): nat
      requires dirBits <= 31 && 0 <= e.hash
      reads this, dir
    {
      Stored(dirBits, dir[..], view, e)
    }

    /** Creates an empty file whose directory fills one block, with a cache that has been asked to
        hold `cacheSize` buckets. */
    constructor (blockSize: int, dirBits: nat, cacheSize: nat, centralFree: bool, coalesce: bool)
      requires blockSize >= 512 && 3 <= dirBits <= 26 && blockSize == OFF_T * Pow2(dirBits)
      ensures Valid() && this.elems == BucketElems(blockSize) && this.blockSize == blockSize
      ensures forall e: Element | 0 <= e.hash < HASH_LIMIT :: Count(e) == 0
      ensures fresh(dir) && fresh(cache)
      ensures forall i | 0 <= i < dir.Length :: dir[i] in view && view[dir[i]].count == 0
      ensures Others() == map[]
    {
      var elems := BucketElems(blockSize);
      hide Pow2, BucketElems, Valid, Stored;
      var none := Element(EMPTY, "", 0, 0, 0);
      var table := seq(elems, _ => none);
      var b := Bucket(0, [Avail(blockSize, 3 * blockSize)], 0, table);
      var adr := 2 * blockSize;
      var slots := if cacheSize > 9 then cacheSize else 10;
      var newDir := NewDir(Pow2(dirBits), adr);
      var newCache := NewCache(slots, b);
      this.elems := elems;
      bucketSize := blockSize;
      this.blockSize, blockBits := blockSize, dirBits;
      this.centralFree, this.coalesce := centralFree, coalesce;
      this.dirBits := dirBits;
      dirAdr := blockSize;
      dirSize := blockSize;
      nextBlock := 4 * blockSize;
      headerAvail := [];
      dir := newDir;
      cache := newCache;
      lastRead := -1;
      entry := 0;
      bucketDir := 0;
      disk := map[adr := b];
      view := map[adr := b];
      inUse := map[blockSize := blockSize, adr := blockSize];
      new;
      NewFile(adr, b);
    }

    lemma NewFile(adr: int, b: Bucket)
      requires blockSize >= 512 && 3 <= dirBits <= 26 && elems == BucketElems(blockSize) && bucketSize == blockSize
      requires blockSize == OFF_T * Pow2(dirBits) && blockBits == dirBits && adr == 2 * blockSize
      requires b == Bucket(0, [Avail(blockSize, 3 * blockSize)], 0, b.table) && |b.table| == elems
      requires forall i | 0 <= i < elems :: Free(b.table[i])
      requires dirAdr == dirSize == blockSize && nextBlock == 4 * blockSize && headerAvail == []
      requires dir.Length == Pow2(dirBits) && forall i | 0 <= i < dir.Length :: dir[i] == adr
      requires cache.Length >= 10 && forall i | 0 <= i < cache.Length :: cache[i] == Slot(b, 0, false)
      requires lastRead == -1 && entry == 0 && disk == view == map[adr := b]
      requires inUse == map[blockSize := blockSize, adr := blockSize]
      ensures Valid() && Others() == map[]
      ensures forall e: Element | 0 <= e.hash < HASH_LIMIT :: Count(e) == 0
    {
      hide Pow2, BucketElems, CacheOk, DirOk, Stored, Tidy, BucketFree, SpaceSets;
      SmallBlocks(dirBits);
      FirstSets(adr, b, inUse, blockSize);
      FirstSpare(adr, b, inUse, blockSize);
      NoneCached(cache[..], view);
      UsedNone(b.table);
      NewDirectory(elems, dirBits, dir[..], adr, b);
      NoneStored(dirBits, dir[..], adr, b);
    }

    /** Writes a changed cache entry back. */
    method WriteBucket(i: nat)
      requires CacheValid() && i < cache.Length && cache[i].adr != 0
      modifies this`disk, cache
      ensures CacheValid()
      ensures cache[..] == old(cache[..])[i := old(cache[i]).(changed := false)]
      ensures disk == old(disk)[old(cache[i]).adr := old(cache[i]).bucket]
    {
      WriteKeeps(cache[..], disk, view, i);
      disk := disk[cache[i].adr := cache[i].bucket];
      cache[i] := cache[i].(changed := false);
      assert cache[..] == old(cache[..])[i := old(cache[i]).(changed := false)];
    }

    /** Reads the bucket at an address that is not cached over the next cache entry. */
    method ReadBucket(adr: int)
      requires CacheValid() && adr in view && !Cached(cache[..], adr)
      modifies this`lastRead, this`entry, this`disk, cache
      ensures CacheValid() && cache[entry].adr == adr && cache[entry].bucket == view[adr]
    {
      lastRead := Advance(lastRead, cache.Length);
      if cache[lastRead].changed {
        WriteBucket(lastRead);
      }
      ghost var before := cache[..];
      assert !Cached(before, adr) by {
        assert forall k | 0 <= k < |before| :: before[k].adr == old(cache[..])[k].adr;
      }
      ReadKeeps(before, disk, view, lastRead, adr);
      entry := lastRead;
      cache[entry] := Slot(disk[adr], adr, false);
      assert cache[..] == before[entry := Slot(disk[adr], adr, false)];
    }

    /** Looks for an address in the cache. */
    method FindCached(adr: int) returns (index: nat)
      ensures index <= cache.Length
      ensures index < cache.Length ==> cache[index].adr == adr
      ensures index == cache.Length ==> !Cached(cache[..], adr)
    {
      index := 0;
      while index < cache.Length
        invariant index <= cache.Length
        invariant forall k | 0 <= k < index :: cache[k].adr != adr
      {
        if cache[index].adr == adr {
          return;
        }
        index := index + 1;
      }
    }

    /** Makes the bucket at a live address the current one. */
    method MakeCurrent(adr: int)
      requires CacheValid() && adr in view
      modifies this`lastRead, this`entry, this`disk, cache
      ensures CacheValid() && cache[entry].adr == adr && cache[entry].bucket == view[adr]
    {
      if cache[entry].adr != adr {
        var index := FindCached(adr);
        if index < cache.Length {
          entry := index;
        } else {
          ReadBucket(adr);
          return;
        }
      }
      assert InView(cache[..][entry], disk, view);
    }

    lemma EntryLive(i: nat)
      requires DirValid() && i < dir.Length
      ensures dir[i] in view && dir[i] != 0 && view[dir[i]].bits <= dirBits <= MAX_DIR_BITS
    {
      assert dir[..][i] == dir[i];
    }

    /** Makes the bucket at a directory index the current one. */
    method GetBucket(dirIndex: nat)
      requires Valid() && dirIndex < dir.Length
      modifies this`bucketDir, this`lastRead, this`entry, this`disk, cache
      ensures Valid() && Current() && bucketDir == dirIndex
      ensures cache[entry].bucket == view[dir[dirIndex]]
    {
      hide Tidy, DirOk, SpaceSets, CacheOk, Dbf.SpaceOk, Dbf.SpareOk;
      bucketDir := dirIndex;
      EntryLive(dirIndex);
      MakeCurrent(dir[dirIndex]);
    }

    // ---- Space ----

    /** A region goes out of use, so that it can be free. */
    ghost method Release(adr: int, rest: multiset<Avail>)
      requires SpaceOk() && FreeOk(rest) && adr in inUse && adr !in view && adr != dirAdr
      modifies this`inUse
      ensures SpaceOk() && FreeOk(rest) && inUse == old(inUse) - {adr}
      ensures Tidy(rest + multiset(headerAvail) + multiset(Bucket0().avail) + multiset{Avail(old(inUse)[adr], adr)}, inUse, nextBlock)
    {
      hide Tidy;
      var lists := rest + multiset(headerAvail) + multiset(Bucket0().avail);
      TidyFreed(lists, inUse, nextBlock, adr);
      TidyMore(lists, inUse, inUse - {adr}, nextBlock, nextBlock);
      inUse := inUse - {adr};
    }

    /** Records a region that nothing uses as free: on the current bucket's list if it is small and
        there is room. */
    method FreeRegion(adr: int, numBytes: int, ghost rest: multiset<Avail>)
      requires Shape() && SpaceOk() && FreeOk(rest)
      requires numBytes > IGNORE_SIZE ==>
                 Tidy(rest + multiset(headerAvail) + multiset(Bucket0().avail) + multiset{Avail(numBytes, adr)}, inUse, nextBlock)
      modifies this`headerAvail, this`headerChanged, cache
      ensures Shape() && SpaceOk() && FreeOk(rest)
      ensures OnlyAvailChanged(old(cache[..]), cache[..], entry)
      ensures numBytes >= blockSize ==> cache[..] == old(cache[..])
      ensures Recorded(Avail(numBytes, adr), coalesce, old(Bucket0().avail), Bucket0().avail, old(headerAvail), headerAvail)
      ensures headerAvail != old(headerAvail) ==> headerChanged
    {
      hide Tidy, Apart, PutIn, PutOrMerged;
      ghost var avail0, header0 := Bucket0().avail, headerAvail;
      Forgotten(Avail(numBytes, adr), coalesce, avail0);
      if numBytes <= IGNORE_SIZE {
        return;
      }
      var b := cache[entry].bucket;
      if numBytes < blockSize && !centralFree && |b.avail| < BUCKET_AVAIL {
        var avail := PutAvElem(Avail(numBytes, adr), b.avail, coalesce);
        cache[entry] := cache[entry].(bucket := b.(avail := avail));
      } else {
        headerAvail := PutAvElem(Avail(numBytes, adr), headerAvail, coalesce);
        headerChanged := true;
      }
      TidyRecorded(rest, Avail(numBytes, adr), coalesce, avail0, Bucket0().avail, header0, headerAvail, inUse, nextBlock);
    }

    /** Hands out a region that is not in use, from a free one that is large enough or from new blocks
        at the end of the file, which must not pass the largest offset. The bytes that are left over
        are free. */
    method Alloc(numBytes: int, ghost rest: multiset<Avail>) returns (adr: int)
      requires Shape() && SpaceOk() && FreeOk(rest) && numBytes > 0
      requires TakeSpace(numBytes, Bucket0().avail, headerAvail, nextBlock, blockSize).end <= INT_MAX
      modifies this`nextBlock, this`headerAvail, this`headerChanged, this`inUse, cache
      ensures Shape() && SpaceOk() && FreeOk(rest)
      ensures old(nextBlock) <= nextBlock <= old(nextBlock) + RoundUp(numBytes, blockSize)
      ensures adr !in old(inUse) && adr > 0 && inUse == old(inUse)[adr := numBytes]
      ensures OnlyAvailChanged(old(cache[..]), cache[..], entry)
      ensures var t := TakeSpace(numBytes, old(Bucket0().avail), old(headerAvail), old(nextBlock), blockSize);
              && adr == t.region.adr && nextBlock == t.end && numBytes <= t.region.size
              && Recorded(Avail(t.region.size - numBytes, adr + numBytes), coalesce, t.avail, Bucket0().avail,
                          t.header, headerAvail)
    {
      hide Tidy, Apart, Recorded, TakeSpace, RoundUp, FirstFit;
      var region := TakeRegion(numBytes, rest);
      adr := region.adr;
      ghost var lists := rest + multiset(headerAvail) + multiset(Bucket0().avail);
      TidyUsed(lists, region, numBytes, inUse, nextBlock);
      NotLive(view.Keys, inUse, dirAdr, nextBlock, adr, numBytes);
      inUse := inUse[adr := numBytes];
      FreeRegion(adr + numBytes, region.size - numBytes, rest);
    }

    /** Takes a region to be used off the lists, or new blocks. */
    method TakeRegion(numBytes: int, ghost rest: multiset<Avail>) returns (region: Avail)
      requires Shape() && SpaceOk() && FreeOk(rest) && numBytes > 0
      requires TakeSpace(numBytes, Bucket0().avail, headerAvail, nextBlock, blockSize).end <= INT_MAX
      modifies this`nextBlock, this`headerAvail, this`headerChanged, cache
      ensures Shape() && SpaceOk() && OnlyAvailChanged(old(cache[..]), cache[..], entry)
      ensures Tidy(rest + multiset(headerAvail) + multiset(Bucket0().avail) + multiset{region}, inUse, nextBlock)
      ensures Taken(region, Bucket0().avail, headerAvail, nextBlock)
           == TakeSpace(numBytes, old(Bucket0().avail), old(headerAvail), old(nextBlock), blockSize)
      ensures numBytes <= region.size && old(nextBlock) <= nextBlock <= old(nextBlock) + RoundUp(numBytes, blockSize)
    {
      hide Tidy, Apart, RoundUp, FirstFit;
      TidyTaken(rest, numBytes, Bucket0().avail, headerAvail, nextBlock, blockSize, inUse);
      var b := cache[entry].bucket;
      var found, avail, header;
      found, region, avail := GetElem(numBytes, b.avail);
      if found {
        cache[entry] := cache[entry].(bucket := b.(avail := avail));
        return;
      }
      found, region, header := GetElem(numBytes, headerAvail);
      if found {
        headerAvail := header;
      } else {
        region := GetBlock(numBytes);
      }
      headerChanged := true;
    }

    /** Enough blocks at the end of the file. */
    method GetBlock(numBytes: int) returns (region: Avail)
      requires SpaceOk() && nextBlock + RoundUp(numBytes, blockSize) <= INT_MAX
      modifies this`nextBlock, this`headerChanged
      ensures SpaceOk() && region == Avail(RoundUp(numBytes, blockSize), old(nextBlock))
      ensures nextBlock == old(nextBlock) + region.size
    {
      hide Apart;
      var size := blockSize;
      while size < numBytes
        invariant RoundUp(numBytes, blockSize) == size - blockSize + RoundUp(numBytes - (size - blockSize), blockSize)
        decreases numBytes - size
      {
        size := size + blockSize;
      }
      region := Avail(size, nextBlock);
      ApartMore(inUse, nextBlock, nextBlock + size);
      nextBlock := nextBlock + size;
      headerChanged := true;
    }

    // ---- Splitting ----

    /** Takes the next cache entry that does not hold the current bucket and writes it back. */
    method NextVictim() returns (slot: nat)
      requires CacheValid()
      modifies this`lastRead, this`disk, cache
      ensures CacheValid() && slot == lastRead < cache.Length && slot != entry
      ensures slot == SkipTo(old(lastRead), entry, cache.Length)
      ensures !cache[slot].changed
      ensures cache[..] == old(cache[..])[slot := old(cache[slot]).(changed := false)]
    {
      lastRead := Advance(lastRead, cache.Length);
      while lastRead == entry
        invariant 0 <= lastRead < cache.Length
        invariant lastRead == entry || lastRead == SkipTo(old(lastRead), entry, cache.Length)
        invariant lastRead == entry ==> entry == Advance(old(lastRead), cache.Length)
        invariant CacheValid()
        modifies this`lastRead
        decreases lastRead == entry
      {
        lastRead := Advance(lastRead, cache.Length);
      }
      slot := lastRead;
      if cache[slot].changed {
        WriteBucket(slot);
      }
    }

    /** Empties the bucket in a cache entry. */
    method NewBucket(slot: nat, bits: nat)
      requires slot < cache.Length && |cache[slot].bucket.table| == elems
      modifies cache
      ensures |cache[slot].bucket.table| == elems && cache[slot].bucket.avail == []
      ensures forall i | 0 <= i < elems :: Free(cache[slot].bucket.table[i])
      ensures cache[slot].bucket.bits == bits && cache[slot].bucket.count == 0
      ensures cache[..] == old(cache[..])[slot := old(cache[slot]).(bucket := cache[slot].bucket)]
    {
      var b := cache[slot].bucket.(avail := [], bits := bits, count := 0);
      for index := 0 to elems
        invariant |b.table| == elems && b.avail == [] && b.bits == bits && b.count == 0
        invariant forall i | 0 <= i < index :: Free(b.table[i])
      {
        b := b.(table := b.table[index := b.table[index].(hash := EMPTY)]);
      }
      cache[slot] := cache[slot].(bucket := b);
    }

    /** A directory of twice the size in which every entry appears twice. */
    method DoubledCopy() returns (newDir: array<int>)
      ensures fresh(newDir) && Doubled(dir[..], newDir[..])
    {
      newDir := new int[2 * dir.Length];
      for index := 0 to dir.Length
        modifies newDir
        invariant forall i: nat | i < 2 * index :: newDir[i] == dir[i / 2]
      {
        newDir[2 * index] := dir[index];
        newDir[2 * index + 1] := dir[index];
      }
    }

    /** Doubles the directory; the old one is left to be freed by the caller. */
    method DoubleDirectory(newBits: nat, ghost rest: multiset<Avail>)
      requires 0 < dirSize && AsInt(dirSize * 2) == dirSize * 2 && Shape() && SpaceOk() && FreeOk(rest)
      requires dirSize == OFF_T * Pow2(dirBits) && blockSize == OFF_T * Pow2(blockBits) && blockBits <= dirBits
      requires nextBlock + 2 * dirSize <= INT_MAX
      modifies this`dir, this`dirBits, this`dirAdr, this`dirSize, this`bucketDir, this`headerChanged,
               this`nextBlock, this`headerAvail, this`inUse, cache
      ensures headerChanged
      ensures fresh(dir) && Doubled(old(dir[..]), dir[..]) && SpaceOk() && Shape() && FreeOk(rest)
      ensures dirBits == newBits && dirSize == 2 * old(dirSize) && bucketDir == 2 * old(bucketDir)
      ensures dirAdr !in old(inUse) && inUse == old(inUse)[dirAdr := dirSize]
      ensures nextBlock <= old(nextBlock) + dirSize
      ensures OnlyAvailChanged(old(cache[..]), cache[..], entry)
    {
      hide Pow2, AsInt, Doubled, SpaceSets, Dbf.Shape, OnlyAvailChanged, Tidy, Recorded, TakeSpace;
      var newSize := AsInt(dirSize * 2);
      assert newSize == OFF_T * Pow2(dirBits + 1) by {
        Pow2Next(dirBits);
      }
      WholeBlocks(dirBits + 1, blockBits);
      var newAdr := Alloc(newSize, rest);
      SpaceMoved(view.Keys, old(inUse), inUse, dirAdr, newAdr, newSize, old(nextBlock), nextBlock);
      var newDir := DoubledCopy();
      UseDirectory(newDir, newAdr, newSize, newBits);
    }

    /** Replaces the directory by one of twice the size. */
    method UseDirectory(newDir: array<int>, newAdr: int, newSize: int, newBits: nat)
      modifies this`dir, this`dirBits, this`dirAdr, this`dirSize, this`bucketDir, this`headerChanged
      ensures dir == newDir && dirAdr == newAdr && dirSize == newSize && dirBits == newBits && headerChanged
      ensures bucketDir == 2 * old(bucketDir)
    {
      dirAdr := newAdr;
      dirSize := newSize;
      dirBits := newBits;
      headerChanged := true;
      bucketDir := bucketDir * 2;
      dir := newDir;
    }

    /** Gives the two halves of the current bucket's run to two addresses. */
    method UpdateDirectory(newBits: nat, adr0: int, adr1: int, ghost k: nat)
      requires newBits == k + 1 <= dirBits && dir.Length == Pow2(dirBits) && 0 <= bucketDir < dir.Length
      modifies dir
      ensures var r := Run(bucketDir, dirBits, k);
              Repointed(old(dir[..]), dir[..], HalfStart(dirBits, k, 2 * r), HalfStart(dirBits, k, 2 * r + 1),
                        HalfStart(dirBits, k, 2 * r + 2), adr0, adr1)
    {
      var shift := dirBits - newBits;
      var start1 := OrOne(Shr(bucketDir, shift));
      RunCut(bucketDir, dirBits, k, start1);
      var end := Shl(start1 + 1, shift);
      start1 := Shl(start1, shift);
      var start0 := start1 - (end - start1);
      PointRun(start0, start1, end, adr0, adr1);
    }

    method PointRun(start0: int, start1: int, end: int, adr0: int, adr1: int)
      requires 0 <= start0 <= start1 <= end <= dir.Length
      modifies dir
      ensures Repointed(old(dir[..]), dir[..], start0, start1, end, adr0, adr1)
    {
      PointRange(start0, start1, adr0);
      PointRange(start1, end, adr1);
    }

    method PointRange(lo: int, hi: int, adr: int)
      requires 0 <= lo <= hi <= dir.Length
      modifies dir
      ensures forall i | 0 <= i < dir.Length :: dir[i] == if lo <= i < hi then adr else old(dir[i])
    {
      for index := lo to hi
        invariant forall i | 0 <= i < dir.Length :: dir[i] == if lo <= i < index then adr else old(dir[i])
      {
        dir[index] := adr;
      }
    }

    /** The current bucket is the one that a hash leads to. */
    ghost predicate CurrentFor(hash: int)
      reads this, dir, cache
    {
      0 <= hash < HASH_LIMIT && dirBits <= 31 && bucketDir == Prefix(hash, dirBits) && Current()
    }

    /** The current bucket, as the cache holds it. */
    ghost function Bucket0(): Bucket
      requires entry < cache.Length
      reads this`entry, this`cache, cache
    {
      cache[entry].bucket
    }

    /** Moves the elements of the current bucket into the buckets of two other entries. */
    method MoveElements(c0: nat, c1: nat, newBits: nat)
      requires Shape() && c0 < cache.Length && c1 < cache.Length && c0 != c1 && c0 != entry && c1 != entry
      requires newBits <= 31 && HashesOk(Bucket0().table) && Used(Bucket0().table) == elems
      requires forall i | 0 <= i < elems :: Free(cache[c0].bucket.table[i]) && Free(cache[c1].bucket.table[i])
      requires cache[c0].bucket.count == cache[c1].bucket.count == 0
      modifies cache
      ensures Shape()
      ensures forall i | 0 <= i < cache.Length && i != c0 && i != c1 :: cache[i] == old(cache[i])
      ensures SameButTable(old(cache[c0]), cache[c0]) && SameButTable(old(cache[c1]), cache[c1])
      ensures Shared(Bucket0().table, cache[c0].bucket.table, cache[c1].bucket.table,
                     cache[c0].bucket.count, cache[c1].bucket.count, newBits)
    {
      var t0, t1, n0, n1 := Distribute(cache[entry].bucket.table, cache[c0].bucket.table, cache[c1].bucket.table, newBits);
      cache[c0] := cache[c0].(bucket := cache[c0].bucket.(table := t0, count := n0));
      cache[c1] := cache[c1].(bucket := cache[c1].bucket.(table := t1, count := n1));
    }

    /** Shares out the free regions of the current bucket; entry c1 also gets a fresh block. */
    method MoveAvail(c0: nat, c1: nat, ghost rest: multiset<Avail>)
      requires Shape() && SpaceOk() && c0 < cache.Length && c1 < cache.Length && c0 != c1 && c0 != entry && c1 != entry
      requires FreeOk(rest) && nextBlock + blockSize <= INT_MAX
      modifies this`nextBlock, this`headerAvail, this`headerChanged, this`inUse, cache
      ensures Shape() && SpaceOk() && SharedFree(rest, c0, c1)
      ensures inUse == old(inUse) && nextBlock <= old(nextBlock) + blockSize
      ensures forall i | 0 <= i < cache.Length && i != c0 && i != c1 && i != entry :: cache[i] == old(cache[i])
      ensures SameButAvail(old(cache[c0]), cache[c0]) && SameButAvail(old(cache[c1]), cache[c1])
      ensures SameButAvail(old(cache[entry]), cache[entry])
      ensures |cache[c0].bucket.avail| < BUCKET_AVAIL && |cache[c1].bucket.avail| <= 2
    {
      hide Tidy, SharedOut;
      var block := FreshBlock(rest);
      ShareAvail(c0, c1, block, rest);
    }

    /** A block that nothing uses and no list has. */
    method FreshBlock(ghost rest: multiset<Avail>) returns (block: int)
      requires Shape() && SpaceOk() && FreeOk(rest) && nextBlock + blockSize <= INT_MAX
      modifies this`nextBlock, this`headerAvail, this`headerChanged, this`inUse, cache
      ensures Shape() && SpaceOk() && FreeOk(rest) && inUse == old(inUse) && nextBlock <= old(nextBlock) + blockSize
      ensures OnlyAvailChanged(old(cache[..]), cache[..], entry)
      ensures Tidy(rest + multiset(headerAvail) + multiset(Bucket0().avail) + multiset{Avail(blockSize, block)}, inUse, nextBlock)
    {
      hide Tidy, Recorded, TakeSpace, Apart;
      block := Alloc(blockSize, rest);
      NotLive(view.Keys, old(inUse), dirAdr, old(nextBlock), block, blockSize);
      Release(block, rest);
    }

    /** The two lists that a bucket's free regions go to. */
    method ShareAvail(c0: nat, c1: nat, block: int, ghost rest: multiset<Avail>)
      requires Shape() && c0 < cache.Length && c1 < cache.Length && c0 != c1 && c0 != entry && c1 != entry
      requires Tidy(rest + multiset(headerAvail) + multiset(Bucket0().avail) + multiset{Avail(blockSize, block)}, inUse, nextBlock)
      modifies cache
      ensures Shape() && SharedFree(rest, c0, c1)
      ensures forall i | 0 <= i < cache.Length && i != c0 && i != c1 :: cache[i] == old(cache[i])
      ensures SameButAvail(old(cache[c0]), cache[c0]) && SameButAvail(old(cache[c1]), cache[c1])
      ensures |cache[c0].bucket.avail| < BUCKET_AVAIL && |cache[c1].bucket.avail| <= 2
      ensures SharedOut(Bucket0().avail, Avail(blockSize, block), cache[c0].bucket.avail, cache[c1].bucket.avail)
    {
      hide Tidy, PutIn;
      var avail1 := [Avail(blockSize, block)];
      var avail0 := cache[entry].bucket.avail;
      if |avail0| == BUCKET_AVAIL {
        avail1 := PutAvElem(avail0[0], avail1, false);
        avail0 := avail0[1..];
      }
      TidyShared(rest + multiset(headerAvail), Bucket0().avail, Avail(blockSize, block), avail0, avail1, inUse, nextBlock);
      cache[c0] := cache[c0].(bucket := cache[c0].bucket.(avail := avail0));
      cache[c1] := cache[c1].(bucket := cache[c1].bucket.(avail := avail1));
    }

    /** Picks two cache entries other than the current one and writes both back. */
    method TakeVictims() returns (c0: nat, c1: nat)
      requires CacheValid()
      modifies this`lastRead, this`disk, cache
      ensures CacheValid() && cache[entry] == old(cache[entry])
      ensures c0 < cache.Length && c1 < cache.Length && c0 != c1 && c0 != entry && c1 != entry
      ensures !cache[c0].changed && !cache[c1].changed
    {
      VictimsDiffer(lastRead, entry, cache.Length);
      c0 := NextVictim();
      c1 := NextVictim();
    }

    /** Gives a cache entry a fresh address. */
    method PlaceAtFreshAddress(c: nat, ghost rest: multiset<Avail>) returns (adr: int)
      requires Shape() && SpaceOk() && c < cache.Length && c != entry && FreeOk(rest) && nextBlock + blockSize <= INT_MAX
      modifies this`nextBlock, this`headerAvail, this`headerChanged, this`inUse, cache
      ensures Shape() && SpaceOk() && FreeOk(rest) && adr > 0 && adr !in old(inUse) && inUse == old(inUse)[adr := bucketSize]
      ensures nextBlock <= old(nextBlock) + blockSize
      ensures cache[c] == old(cache[c]).(adr := adr) && SameButAvail(old(cache[entry]), cache[entry])
      ensures forall i | 0 <= i < cache.Length && i != c && i != entry :: cache[i] == old(cache[i])
    {
      hide Tidy, Recorded, TakeSpace;
      adr := Alloc(bucketSize, rest);
      cache[c] := cache[c].(adr := adr);
    }

    /** Turns two cache entries into empty buckets at fresh addresses. */
    method NewBuckets(c0: nat, c1: nat, newBits: nat, ghost rest: multiset<Avail>) returns (adr0: int, adr1: int)
      requires Shape() && SpaceOk() && c0 < cache.Length && c1 < cache.Length && c0 != c1 && c0 != entry && c1 != entry
      requires FreeOk(rest) && nextBlock + 2 * blockSize <= INT_MAX
      modifies this`nextBlock, this`headerAvail, this`headerChanged, this`inUse, cache
      ensures Shape() && SpaceOk() && FreeOk(rest) && nextBlock <= old(nextBlock) + 2 * blockSize
      ensures forall i | 0 <= i < cache.Length && i != c0 && i != c1 && i != entry :: cache[i] == old(cache[i])
      ensures SameButAvail(old(cache[entry]), cache[entry])
      ensures Emptied(cache[c0], newBits, adr0) && Emptied(cache[c1], newBits, adr1)
      ensures adr0 != adr1 && adr0 > 0 && adr1 > 0 && adr0 !in old(inUse) && adr1 !in old(inUse)
      ensures inUse == old(inUse)[adr0 := bucketSize][adr1 := bucketSize]
    {
      hide Tidy;
      NewBucket(c0, newBits);
      NewBucket(c1, newBits);
      adr0 := PlaceAtFreshAddress(c0, rest);
      adr1 := PlaceAtFreshAddress(c1, rest);
    }

    /** The directory index of the current bucket lies in the run that a hash leads to. */
    ghost predicate InRunOf(hash: int, k: nat)
      reads this`bucketDir, this`dirBits, this`dir
    {
      0 <= hash < HASH_LIMIT && k <= dirBits <= 31 && 0 <= bucketDir < dir.Length &&
      Run(bucketDir, dirBits, k) == Prefix(hash, k)
    }

    /** The space for the directory in a round that splits a bucket of k bits. */
    ghost function DoublingSpace(k: nat): int
      reads this`dirBits, this`dirSize
    {
      if dirBits == k then 2 * dirSize else 0
    }

    /** Doubles the directory if the current bucket already uses all its bits. */
    method MakeRoom(hash: int, ghost k: nat, ghost rest: multiset<Avail>)
      requires DirValid() && Shape() && SpaceOk() && InRunOf(hash, k) && k < MAX_DIR_BITS
      requires Bucket0().bits == k && view[dir[bucketDir]].bits == k
      requires FreeOk(rest) && nextBlock + DoublingSpace(k) <= INT_MAX
      modifies this`dir, this`dirBits, this`dirAdr, this`dirSize, this`bucketDir, this`headerChanged,
               this`nextBlock, this`headerAvail, this`inUse, cache
      ensures old(dirBits) == k ==> headerChanged
      ensures nextBlock <= old(nextBlock + DoublingSpace(k))
      ensures DirValid() && SpaceOk() && Shape() && FreeOk(rest) && InRunOf(hash, k)
      ensures k < dirBits && (dir == old(dir) || fresh(dir))
      ensures dir[bucketDir] == old(dir[bucketDir])
      ensures forall e: Element | 0 <= e.hash < HASH_LIMIT :: Count(e) == old(Count(e))
      ensures OnlyAvailChanged(old(cache[..]), cache[..], entry)
      ensures dirBits == old(if dirBits == k then k + 1 else dirBits)
      ensures old(dirBits) != k ==> dirAdr == old(dirAdr) && inUse == old(inUse)
      ensures old(dirBits) == k ==> dirAdr !in old(inUse) && inUse == old(inUse)[dirAdr := dirSize]
    {
      hide AsInt, DirOk, Run, Tidy;
      if dirBits == cache[entry].bucket.bits {
        DoublingOverflows(dirBits);
        DoubleDirectory(cache[entry].bucket.bits + 1, rest);
        DoubleKeeps(elems, old(dirBits), dirBits, old(dir[..]), dir[..], view);
        assert (2 * old(bucketDir)) / 2 == old(bucketDir);
        DoubledRuns(old(dirBits), bucketDir, k);
        DoubleStoredAll(elems, old(dirBits), old(dir[..]), dir[..], view);
        assert dir[..][bucketDir] == old(dir[..])[old(bucketDir)];
      }
    }

    /** Records a free region in the bucket of a cache entry. */
    method PutRegion(c: nat, region: Avail)
      requires c < cache.Length && |cache[c].bucket.avail| < BUCKET_AVAIL
      modifies cache
      ensures |cache[c].bucket.avail| <= BUCKET_AVAIL && SameButAvail(old(cache[c]), cache[c])
      ensures forall i | 0 <= i < cache.Length && i != c :: cache[i] == old(cache[i])
      ensures PutIn(region, old(cache[c].bucket.avail), cache[c].bucket.avail)
    {
      var avail := PutAvElem(region, cache[c].bucket.avail, false);
      cache[c] := cache[c].(bucket := cache[c].bucket.(avail := avail));
    }

    /** Makes the bucket for a hash current, invalidates the split bucket's entry and gives the
        split bucket's space to the other new bucket. */
    method SwitchTo(hash: int, c0: nat, c1: nat, adr0: int, adr1: int)
      requires Shape() && c0 < cache.Length && c1 < cache.Length && c0 != c1 && c0 != entry && c1 != entry
      requires |cache[c0].bucket.avail| < BUCKET_AVAIL && |cache[c1].bucket.avail| < BUCKET_AVAIL
      requires 0 <= hash && dirBits <= 31 && Prefix(hash, dirBits) < dir.Length
      modifies this`bucketDir, this`entry, this`bucketChanged, this`directoryChanged, this`secondChanged, cache
      ensures Shape() && bucketDir == Prefix(hash, dirBits)
      ensures entry == if dir[bucketDir] == adr0 then c0 else c1
      ensures SameButAvail(old(cache[c0]).(changed := true), cache[c0])
      ensures SameButAvail(old(cache[c1]).(changed := true), cache[c1])
      ensures cache[old(entry)].adr == 0 && !cache[old(entry)].changed
      ensures bucketChanged && directoryChanged && secondChanged
      ensures var other := if entry == c0 then c1 else c0;
              && cache[entry].bucket.avail == old(cache[if dir[Prefix(hash, dirBits)] == adr0 then c0 else c1].bucket.avail)
              && PutIn(Avail(bucketSize, old(cache[entry].adr)),
                       old(cache[if dir[Prefix(hash, dirBits)] == adr0 then c1 else c0].bucket.avail), cache[other].bucket.avail)
      ensures forall i | 0 <= i < cache.Length && i != c0 && i != c1 && i != old(entry) :: cache[i] == old(cache[i])
    {
      hide PutIn, Shr;
      cache[c0] := cache[c0].(changed := true);
      cache[c1] := cache[c1].(changed := true);
      bucketChanged := true;
      directoryChanged := true;
      secondChanged := true;
      bucketDir := Shr(hash, 31 - dirBits);
      var oldBucket := Avail(bucketSize, cache[entry].adr);
      cache[entry] := cache[entry].(adr := 0, changed := false);
      if dir[bucketDir] == adr0 {
        entry := c0;
        PutRegion(c1, oldBucket);
      } else {
        entry := c1;
        PutRegion(c0, oldBucket);
      }
    }

    lemma CurrentInView()
      requires Valid() && Current()
      ensures dir[bucketDir] in view && dir[bucketDir] != 0 && view[dir[bucketDir]] == Bucket0()
      ensures BucketOk(Bucket0(), elems) && HashesOk(Bucket0().table) && Bucket0().bits <= dirBits <= MAX_DIR_BITS
      ensures Bucket0().count == Used(Bucket0().table) <= |Bucket0().table| == elems
    {
      EntryLive(bucketDir);
      assert InView(cache[..][entry], disk, view);
    }

    /** In a round: the cache is still as it was in `base` except for the two entries taken and the
        avail list of the current bucket. */
    ghost predicate BaseKept(r: Round)
      reads this`cache, this`lastRead, this`entry, cache
    {
      && Shape()
      && r.c0 < cache.Length && r.c1 < cache.Length && r.c0 != r.c1 && r.c0 != entry && r.c1 != entry
      && |r.base| == cache.Length && !r.base[r.c0].changed && !r.base[r.c1].changed
      && (forall i | 0 <= i < cache.Length && i != r.c0 && i != r.c1 && i != entry :: cache[i] == r.base[i])
      && SameButAvail(r.base[entry], cache[entry])
      && cache[r.c0].adr == r.adr0 && cache[r.c1].adr == r.adr1
    }

    /** The two addresses taken are in use, and nothing refers to them yet. */
    ghost predicate AddressesTaken(r: Round)
      reads this`nextBlock, this`inUse, this`view, this`dirAdr, this`dirSize
    {
      && SpaceOk() && r.adr0 != r.adr1 && r.adr0 != 0 && r.adr1 != 0 && r.adr0 !in view && r.adr1 !in view
      && r.adr0 in inUse && r.adr1 in inUse && inUse[r.adr0] == inUse[r.adr1] == bucketSize && dirAdr != r.adr0 && dirAdr != r.adr1
    }

    /** The directory leads to the bucket that is being split. */
    ghost predicate DirKept(r: Round)
      reads this`dir, this`dirBits, this`dirSize, this`view, this`bucketDir, this`entry, this`cache, dir, cache
    {
      && DirValid() && entry < cache.Length == |r.base|
      && 0 <= bucketDir < dir.Length && dir[bucketDir] == r.base[entry].adr && dir[bucketDir] in view
      && SameButAvailB(view[dir[bucketDir]], Bucket0())
    }

    /** The first part of a round: two empty buckets at addresses nothing refers to. */
    method TakeEntries(newBits: nat, ghost rest: multiset<Avail>)
      returns (c0: nat, c1: nat, adr0: int, adr1: int, ghost base: seq<Slot>)
      requires CacheValid() && SpaceOk() && FreeOk(rest) && cache[entry].adr != 0 && nextBlock + 2 * blockSize <= INT_MAX
      modifies this`lastRead, this`disk, this`nextBlock, this`headerAvail, this`headerChanged, this`inUse, cache
      ensures BaseKept(Round(base, c0, c1, adr0, adr1)) && AddressesTaken(Round(base, c0, c1, adr0, adr1))
      ensures FreeOk(rest) && CacheOk(base, disk, view) && base[entry] == old(cache[entry])
      ensures nextBlock <= old(nextBlock) + 2 * blockSize
      ensures adr0 !in old(inUse) && adr1 !in old(inUse)
      ensures Emptied(cache[c0], newBits, adr0) && Emptied(cache[c1], newBits, adr1)
      ensures inUse == old(inUse)[adr0 := bucketSize][adr1 := bucketSize]
    {
      hide Tidy;
      c0, c1 := TakeVictims();
      base := cache[..];
      adr0, adr1 := NewBuckets(c0, c1, newBits, rest);
    }

    /** The second part: the directory has a bit more than the current bucket. */
    method MakeRoomInRound(hash: int, ghost r: Round, ghost k: nat, ghost rest: multiset<Avail>)
      requires BaseKept(r) && AddressesTaken(r) && DirKept(r) && InRunOf(hash, k) && k < MAX_DIR_BITS && Bucket0().bits == k
      requires FreeOk(rest) && nextBlock + DoublingSpace(k) <= INT_MAX
      modifies this`dir, this`dirBits, this`dirAdr, this`dirSize, this`bucketDir, this`headerChanged,
               this`nextBlock, this`headerAvail, this`inUse, cache
      ensures BaseKept(r) && AddressesTaken(r) && DirKept(r) && InRunOf(hash, k) && k < dirBits
      ensures FreeOk(rest) && nextBlock <= old(nextBlock + DoublingSpace(k))
      ensures OnlyAvailChanged(old(cache[..]), cache[..], entry)
      ensures dir == old(dir) || fresh(dir)
      ensures forall e: Element | 0 <= e.hash < HASH_LIMIT :: Count(e) == old(Count(e))
      ensures dirBits == old(if dirBits == k then k + 1 else dirBits)
      ensures old(dirBits) != k ==> dirAdr == old(dirAdr) && inUse == old(inUse)
      ensures old(dirBits) == k ==> dirAdr !in old(inUse) && inUse == old(inUse)[dirAdr := dirSize]
    {
      hide Tidy;
      MakeRoom(hash, k, rest);
    }

    /** The third part: all elements and free regions of the current bucket are handed on. */
    method FillRound(ghost r: Round, c0: nat, c1: nat, newBits: nat, ghost rest: multiset<Avail>)
      requires BaseKept(r) && AddressesTaken(r) && c0 == r.c0 && c1 == r.c1
      requires newBits == Bucket0().bits + 1 <= 31 && HashesOk(Bucket0().table) && Used(Bucket0().table) == elems
      requires Emptied(cache[c0], newBits, r.adr0) && Emptied(cache[c1], newBits, r.adr1)
      requires FreeOk(rest) && nextBlock + blockSize <= INT_MAX
      modifies this`nextBlock, this`headerAvail, this`headerChanged, this`inUse, cache
      ensures SharedFree(rest, c0, c1) && BaseKept(r) && AddressesTaken(r)
      ensures inUse == old(inUse) && nextBlock <= old(nextBlock) + blockSize
      ensures SameButAvailB(old(Bucket0()), Bucket0())
      ensures |cache[c0].bucket.avail| < BUCKET_AVAIL && |cache[c1].bucket.avail| < BUCKET_AVAIL
      ensures Halves(elems, old(Bucket0()), cache[c0].bucket, cache[c1].bucket)
      ensures Shared(old(Bucket0()).table, cache[c0].bucket.table, cache[c1].bucket.table,
                     cache[c0].bucket.count, cache[c1].bucket.count, newBits)
      ensures cache[c0].bucket.bits == cache[c1].bucket.bits == newBits
    {
      hide Tidy, SharedOut;
      MoveElements(c0, c1, newBits);
      MoveAvail(c0, c1, rest);
    }

    /** The directory is repointed, and the bucket for the hash becomes the current one. */
    method SwitchDirectory(hash: int, ghost r: Round, c0: nat, c1: nat, adr0: int, adr1: int, newBits: nat, ghost cut: Cut)
      requires BaseKept(r) && c0 == r.c0 && c1 == r.c1 && adr0 == r.adr0 && adr1 == r.adr1
      requires newBits == cut.k + 1 <= dirBits <= 31 && 0 <= hash < HASH_LIMIT
      requires dir.Length == Pow2(dirBits) && 0 <= bucketDir < dir.Length && cut.Of(bucketDir, dirBits)
      requires |cache[c0].bucket.avail| < BUCKET_AVAIL && |cache[c1].bucket.avail| < BUCKET_AVAIL
      modifies this`bucketDir, this`entry, this`bucketChanged, this`directoryChanged, this`secondChanged, dir, cache
      ensures bucketChanged && directoryChanged && secondChanged
      ensures Shape() && bucketDir == Prefix(hash, dirBits) < dir.Length
      ensures Repointed(old(dir[..]), dir[..], cut.start0, cut.start1, cut.end, adr0, adr1)
      ensures entry == if dir[bucketDir] == adr0 then c0 else c1
      ensures SameButAvail(old(cache[c0]).(changed := true), cache[c0])
      ensures SameButAvail(old(cache[c1]).(changed := true), cache[c1])
      ensures multiset(cache[c0].bucket.avail) + multiset(cache[c1].bucket.avail)
           <= old(multiset(cache[c0].bucket.avail) + multiset(cache[c1].bucket.avail) + multiset{Avail(bucketSize, cache[entry].adr)})
      ensures Installed(r, cache[..], old(entry))
    {
      hide PutIn;
      UpdateDirectory(newBits, adr0, adr1, cut.k);
      HashIndex(hash, dirBits);
      ghost var region, a0, a1 := Avail(bucketSize, cache[entry].adr), cache[c0].bucket.avail, cache[c1].bucket.avail;
      SwitchTo(hash, c0, c1, adr0, adr1);
      if entry == c0 {
        PutCounts(region, a1, cache[c1].bucket.avail);
      } else {
        PutCounts(region, a0, cache[c0].bucket.avail);
      }
    }

    /** The last part of a round: the logical buckets change with the directory. */
    method FinishRound(hash: int, ghost r: Round, c0: nat, c1: nat, adr0: int, adr1: int, newBits: nat, ghost cut: Cut)
      requires BaseKept(r) && AddressesTaken(r) && c0 == r.c0 && c1 == r.c1 && adr0 == r.adr0 && adr1 == r.adr1
      requires newBits == cut.k + 1 <= dirBits <= 31 && 0 <= hash < HASH_LIMIT
      requires dir.Length == Pow2(dirBits) && 0 <= bucketDir < dir.Length && cut.Of(bucketDir, dirBits)
      requires dir[bucketDir] in view && dir[bucketDir] == cache[entry].adr && SharedFree(Rest(), c0, c1)
      requires |cache[c0].bucket.avail| < BUCKET_AVAIL && |cache[c1].bucket.avail| < BUCKET_AVAIL
      modifies this`bucketDir, this`entry, this`bucketChanged, this`directoryChanged, this`secondChanged,
               this`view, this`inUse, dir, cache
      ensures bucketChanged && directoryChanged && secondChanged
      ensures Shape() && SpaceOk() && SpareOk() && bucketDir == Prefix(hash, dirBits) < dir.Length
      ensures Repointed(old(dir[..]), dir[..], cut.start0, cut.start1, cut.end, adr0, adr1)
      ensures entry == if dir[bucketDir] == adr0 then c0 else c1
      ensures SameButAvail(old(cache[c0]).(changed := true), cache[c0])
      ensures SameButAvail(old(cache[c1]).(changed := true), cache[c1])
      ensures Installed(r, cache[..], old(entry))
      ensures view == (old(view) - {old(dir[bucketDir])})[adr0 := cache[c0].bucket][adr1 := cache[c1].bucket]
      ensures inUse == old(inUse) - {old(dir[bucketDir])}
    {
      hide Tidy, Apart, Repointed, SpaceSets, Installed;
      ghost var gone, rest, a0, a1 := dir[bucketDir], Rest(), cache[c0].bucket.avail, cache[c1].bucket.avail;
      SwitchDirectory(hash, r, c0, c1, adr0, adr1, newBits, cut);
      SwitchView(gone, adr0, adr1, cache[c0].bucket, cache[c1].bucket, a0, a1);
    }

    /** The logical buckets and the regions in use after a switch; the split bucket's own region is free. */
    ghost method SwitchView(gone: int, adr0: int, adr1: int, b0: Bucket, b1: Bucket, a0: seq<Avail>, a1: seq<Avail>)
      requires SpaceOk() && gone in view && adr0 != adr1 && adr0 !in view && adr1 !in view && adr0 != dirAdr && adr1 != dirAdr
      requires adr0 in inUse && adr1 in inUse && inUse[adr0] == inUse[adr1] == bucketSize
      requires Tidy(BucketFree(view - {gone}) + multiset(headerAvail) + multiset(a0) + multiset(a1), inUse, nextBlock)
      requires multiset(b0.avail) + multiset(b1.avail) <= multiset(a0) + multiset(a1) + multiset{Avail(bucketSize, gone)}
      modifies this`view, this`inUse
      ensures SpaceOk() && SpareOk() && inUse == old(inUse) - {gone}
      ensures view == (old(view) - {gone})[adr0 := b0][adr1 := b1]
    {
      hide Tidy, Apart;
      var rest := BucketFree(view - {gone});
      SpaceStep(view.Keys, inUse, dirAdr, nextBlock, gone, adr0, adr1);
      TidySwitched(rest + multiset(headerAvail), a0, a1, b0.avail, b1.avail, gone, inUse, nextBlock);
      BucketFreeSplit(view, gone, adr0, adr1, b0, b1);
      view := (view - {gone})[adr0 := b0][adr1 := b1];
      assert view.Keys == old(view).Keys - {gone} + {adr0, adr1};
      assert multiset(headerAvail) + BucketFree(view) == rest + multiset(headerAvail) + multiset(b0.avail) + multiset(b1.avail);
      inUse := inUse - {gone};
    }

    /** Everything is ready for the switch: the halves of the current bucket stand in two entries. */
    ghost predicate ReadyToSwitch(r: Round, k: nat)
      reads this, dir, cache
    {
      && BaseKept(r) && AddressesTaken(r) && CacheOk(r.base, disk, view)
      && dirBits <= MAX_DIR_BITS && dirSize == OFF_T * Pow2(dirBits) >= blockSize == OFF_T * Pow2(blockBits)
      && blockBits <= dirBits && 0 <= bucketDir < dir.Length && dir[bucketDir] == r.base[entry].adr != 0
      && SplitReady(elems, dirBits, dir[..], view, bucketDir, k, cache[r.c0].bucket, cache[r.c1].bucket)
      && |cache[r.c0].bucket.avail| < BUCKET_AVAIL && |cache[r.c1].bucket.avail| < BUCKET_AVAIL
      && SharedFree(Rest(), r.c0, r.c1)
    }

    /** The beginning of a round: two empty buckets, and room for them in the directory. */
    method PrepareRound(hash: int, newBits: nat, ghost k: nat)
      returns (c0: nat, c1: nat, adr0: int, adr1: int, ghost r: Round)
      requires Valid() && CurrentFor(hash) && Bucket0().count == elems && newBits == k + 1 <= MAX_DIR_BITS && Bucket0().bits == k
      requires nextBlock + 2 * blockSize + DoublingSpace(k) <= INT_MAX
      modifies this`lastRead, this`disk, this`nextBlock, this`headerAvail, this`headerChanged, this`inUse, this`dir,
               this`dirBits, this`dirAdr, this`dirSize, this`bucketDir, cache
      ensures BaseKept(r) && AddressesTaken(r) && DirKept(r) && CacheOk(r.base, disk, view) && k < dirBits
      ensures nextBlock <= old(nextBlock + 2 * blockSize + DoublingSpace(k))
      ensures c0 == r.c0 && c1 == r.c1 && adr0 == r.adr0 && adr1 == r.adr1 && r.base[entry].adr != 0
      ensures SameButAvailB(old(Bucket0()), Bucket0()) && Run(bucketDir, dirBits, k) == Prefix(hash, k)
      ensures Emptied(cache[c0], newBits, adr0) && Emptied(cache[c1], newBits, adr1)
      ensures dir == old(dir) || fresh(dir)
      ensures dir[bucketDir] == old(dir[bucketDir]) && FreeOk(Rest())
      ensures forall e: Element | 0 <= e.hash < HASH_LIMIT :: Count(e) == old(Count(e))
      ensures adr0 !in old(inUse) && adr1 !in old(inUse) && dirSize >= old(dirSize)
      ensures dirBits == old(dirBits) ==> dirAdr == old(dirAdr) && inUse == old(inUse)[adr0 := bucketSize][adr1 := bucketSize]
      ensures dirBits != old(dirBits) ==> dirBits == newBits == old(dirBits) + 1
      ensures dirBits != old(dirBits) ==>
                dirAdr !in old(inUse) && inUse == old(inUse)[adr0 := bucketSize][adr1 := bucketSize][dirAdr := dirSize]
    {
      hide CacheOk, DirOk, SpaceSets, Stored, Run, Prefix, Emptied, Probed, Used, HashesOk, HoldsSide, Apart, RoundUp, Tidy,
           Dbf.SpareOk, Dbf.FreeOk, BucketFree, PutIn;
      CurrentInView();
      SpareRest();
      ghost var rest := Rest();
      HashRun(hash, dirBits, k);
      ghost var base;
      c0, c1, adr0, adr1, base := TakeEntries(newBits, rest);
      r := Round(base, c0, c1, adr0, adr1);
      MakeRoomInRound(hash, r, k, rest);
    }

    /** First half of a round: the elements of the current bucket are shared out. */
    method StartRound(hash: int, newBits: nat, ghost k: nat)
      returns (c0: nat, c1: nat, adr0: int, adr1: int, ghost r: Round)
      requires Valid() && CurrentFor(hash) && Bucket0().count == elems && newBits == k + 1 <= MAX_DIR_BITS && Bucket0().bits == k
      requires nextBlock + 3 * blockSize + DoublingSpace(k) <= INT_MAX
      modifies this`lastRead, this`disk, this`nextBlock, this`headerAvail, this`headerChanged, this`inUse, this`dir,
               this`dirBits, this`dirAdr, this`dirSize, this`bucketDir, cache
      ensures ReadyToSwitch(r, k) && c0 == r.c0 && c1 == r.c1 && adr0 == r.adr0 && adr1 == r.adr1
      ensures nextBlock <= old(nextBlock + 3 * blockSize + DoublingSpace(k))
      ensures Run(bucketDir, dirBits, k) == Prefix(hash, k)
      ensures Shared(old(Bucket0()).table, cache[c0].bucket.table, cache[c1].bucket.table,
                     cache[c0].bucket.count, cache[c1].bucket.count, newBits)
      ensures cache[c0].bucket.bits == cache[c1].bucket.bits == newBits && |cache[c0].bucket.table| == elems
      ensures dir == old(dir) || fresh(dir)
      ensures dir[bucketDir] == old(dir[bucketDir])
      ensures forall e: Element | 0 <= e.hash < HASH_LIMIT :: Count(e) == old(Count(e))
      ensures adr0 !in old(inUse) && adr1 !in old(inUse) && dirSize >= old(dirSize)
      ensures dirBits == old(dirBits) ==> dirAdr == old(dirAdr) && inUse == old(inUse)[adr0 := bucketSize][adr1 := bucketSize]
      ensures dirBits != old(dirBits) ==> dirBits == newBits == old(dirBits) + 1
      ensures dirBits != old(dirBits) ==>
                dirAdr !in old(inUse) && inUse == old(inUse)[adr0 := bucketSize][adr1 := bucketSize][dirAdr := dirSize]
    {
      hide CacheOk, DirOk, SpaceSets, Stored, Half, Shared, Run, Prefix, Emptied, Probed, Used, HashesOk, HoldsSide, Tidy;
      CurrentInView();
      c0, c1, adr0, adr1, r := PrepareRound(hash, newBits, k);
      FillRound(r, c0, c1, newBits, Rest());
    }

    /** Second half of a round: the file switches to the two new buckets. */
    method CompleteRound(hash: int, ghost r: Round, c0: nat, c1: nat, adr0: int, adr1: int, newBits: nat, ghost k: nat)
      requires ReadyToSwitch(r, k) && c0 == r.c0 && c1 == r.c1 && adr0 == r.adr0 && adr1 == r.adr1
      requires newBits == k + 1 && 0 <= hash < HASH_LIMIT && k < MAX_DIR_BITS && Run(bucketDir, dirBits, k) == Prefix(hash, k)
      modifies this`bucketDir, this`entry, this`bucketChanged, this`directoryChanged, this`secondChanged,
               this`view, this`inUse, dir, cache
      ensures bucketChanged && directoryChanged && secondChanged
      ensures Valid() && CurrentFor(hash)
      ensures forall e: Element | 0 <= e.hash < HASH_LIMIT :: Count(e) == old(Count(e))
      ensures SameButAvailB(old(if Side(hash, newBits) == 0 then cache[c0].bucket else cache[c1].bucket), Bucket0())
      ensures inUse == old(inUse) - {old(dir[bucketDir])} && cache[entry].changed
      ensures view.Keys == old(view).Keys - {old(dir[bucketDir])} + {adr0, adr1}
    {
      hide CacheOk, OneRunEach, PrefixesOk, SpaceSets, Stored, Half, Run, Prefix, Probed, Used, Repointed, HalfStart, HoldsSide,
           Apart, Pow2, DirOk, Tidy;
      ghost var run, slot := Run(bucketDir, dirBits, k), entry;
      ghost var cut := Cut(k, HalfStart(dirBits, k, 2 * run), HalfStart(dirBits, k, 2 * run + 1), HalfStart(dirBits, k, 2 * run + 2));
      ghost var s := Split(elems, dirBits, dir[..], view, bucketDir, adr0, adr1, cache[c0].bucket, cache[c1].bucket, dir[..]);
      LiveBuckets(elems, dirBits, dir[..], view);
      assert dir[..][bucketDir] == dir[bucketDir];
      FinishRound(hash, r, c0, c1, adr0, adr1, newBits, cut);
      RoundDone(s, cut, r, cache[..], slot, disk, dir[..], hash);
      LiveBuckets(elems, dirBits, dir[..], view);
    }

    /** The space at the end of the file that a round needs: two buckets, a free block, and a directory
        if it has to be doubled. */
    ghost function RoundSpace(): int
      requires entry < cache.Length
      reads this`entry, this`cache, this`dirBits, this`dirSize, cache
    {
      3 * blockSize + DoublingSpace(Bucket0().bits)
    }

    /** One round of the split loop: the full current bucket is replaced by two buckets with one
        more bit, and the one that `hash` leads to becomes current. */
    method SplitRound(hash: int)
      requires Valid() && CurrentFor(hash) && Bucket0().count == elems && Bucket0().bits < MAX_DIR_BITS
      requires nextBlock + RoundSpace() <= INT_MAX
      modifies this`lastRead, this`disk, this`nextBlock, this`headerAvail, this`headerChanged, this`inUse, this`dir,
               this`dirBits, this`dirAdr, this`dirSize, this`bucketDir, this`entry, this`bucketChanged,
               this`directoryChanged, this`secondChanged, this`view, dir, cache
      ensures bucketChanged && directoryChanged && secondChanged
      ensures Valid() && CurrentFor(hash)
      ensures dir == old(dir) || fresh(dir)
      ensures forall e: Element | 0 <= e.hash < HASH_LIMIT :: Count(e) == old(Count(e))
      ensures Chosen(old(Bucket0()), Bucket0().bits, Bucket0().count, Bucket0().table, hash)
      ensures Bucket0().bits == old(Bucket0().bits) + 1 && nextBlock <= old(nextBlock + RoundSpace())
      ensures dirSize >= old(dirSize)
      ensures dirBits == old(dirBits) ==> Others() == old(Others()) && dirAdr == old(dirAdr)
      ensures dirBits != old(dirBits) ==> dirBits == Bucket0().bits == old(dirBits) + 1
      ensures dirBits != old(dirBits) ==> Others() == old(Others()[dirAdr := dirSize]) && dirAdr !in old(inUse)
    {
      hide CacheOk, DirOk, Stored, Halves, Shared, Run, Prefix, Probed, Used, HashesOk, Chosen, HoldsSide, Apart, Pow2, Half,
           Tidy, Dbf.SpareOk, BucketFree, Dbf.Rest;
      CurrentInView();
      var newBits := cache[entry].bucket.bits + 1;
      ghost var full, k := Bucket0(), Bucket0().bits;
      var c0, c1, adr0, adr1;
      ghost var r;
      c0, c1, adr0, adr1, r := StartRound(hash, newBits, k);
      ChosenHalf(elems, full, k, cache[c0].bucket, cache[c1].bucket, hash);
      OthersStep(view.Keys, old(inUse), old(dirAdr), dirAdr, dirSize, dir[bucketDir], adr0, adr1, bucketSize);
      CompleteRound(hash, r, c0, c1, adr0, adr1, newBits, k);
    }

    /** Every element of the current bucket starts with the bits that lead a hash to it. */
    lemma CurrentAgrees(hash: int)
      requires Valid() && CurrentFor(hash)
      ensures Bucket0().bits <= MAX_DIR_BITS && HashesOk(Bucket0().table)
      ensures forall i | 0 <= i < elems && !Free(Bucket0().table[i]) ::
                Prefix(Bucket0().table[i].hash, Bucket0().bits) == Prefix(hash, Bucket0().bits)
    {
      CurrentInView();
      HashRun(hash, dirBits, Bucket0().bits);
      assert Carries(view[dir[..][bucketDir]], Run(bucketDir, dirBits, Bucket0().bits));
    }

    /** The split loop at its head. */
    ghost predicate Splitting(first: Bucket, hash: int)
      requires HashesOk(first.table)
      reads this, dir, cache
    {
      && Valid() && CurrentFor(hash) && Bucket0().bits <= MAX_DIR_BITS
      && (Bucket0().count == elems ==> Agree(first.table, hash, Bucket0().bits) && SameContents(first.table, Bucket0().table))
      && (Bucket0().bits > first.bits ==> Agree(first.table, hash, Bucket0().bits - 1))
    }

    lemma SplittingStarts(hash: int)
      requires Valid() && CurrentFor(hash)
      ensures HashesOk(Bucket0().table) && Splitting(Bucket0(), hash) && Agree(Bucket0().table, hash, Bucket0().bits)
      ensures Bucket0().count == elems ==> Used(Bucket0().table) == |Bucket0().table|
    {
      CurrentInView();
      CurrentAgrees(hash);
      if Bucket0().count == elems {
        UsedFull(Bucket0().table);
      }
    }

    lemma StillSplitting(first: Bucket, before: Bucket, hash: int)
      requires HashesOk(first.table) && Valid() && CurrentFor(hash)
      requires HashesOk(before.table) && |before.table| == elems && Used(before.table) == elems && before.bits < MAX_DIR_BITS
      requires Agree(first.table, hash, before.bits) && SameContents(first.table, before.table)
      requires Chosen(before, Bucket0().bits, Bucket0().count, Bucket0().table, hash)
      ensures Splitting(first, hash)
    {
      CurrentInView();
      CurrentAgrees(hash);
      if Bucket0().count == elems {
        ChosenAll(before, Bucket0().bits, Bucket0().table, hash);
        UsedFull(Bucket0().table);
        ContentsAgree(first.table, Bucket0().table, hash, Bucket0().bits);
      }
    }

    /** Gives back the directories that a split has replaced. */
    method FreeDirectories(oldAdr: array<int>, oldSize: array<int>, oldCount: nat, ghost others: map<int, int>)
      requires Valid() && Current() && oldCount <= oldAdr.Length == oldSize.Length
      requires SetAside(others, oldAdr[..oldCount], oldSize[..oldCount], Others())
      requires forall i | 0 <= i < oldCount :: oldSize[i] >= blockSize
      modifies this`headerAvail, this`headerChanged, this`inUse, cache
      ensures Valid() && Current() && Others() == others && cache[..] == old(cache[..])
    {
      hide CacheOk, DirOk, SpaceSets, SetAside, Shape, Pow2, Tidy, SpareOk;
      for index := 0 to oldCount
        modifies this`headerAvail, this`headerChanged, this`inUse, cache
        invariant Valid() && Current() && cache[..] == old(cache[..])
        invariant SetAside(others, oldAdr[index..oldCount], oldSize[index..oldCount], Others())
      {
        assert oldAdr[index..oldCount] == [oldAdr[index]] + oldAdr[index + 1..oldCount];
        assert oldSize[index..oldCount] == [oldSize[index]] + oldSize[index + 1..oldCount];
        SetAsideFirst(others, oldAdr[index], oldSize[index], oldAdr[index + 1..oldCount], oldSize[index + 1..oldCount], Others());
        FreeOne(oldAdr[index], oldSize[index]);
      }
      assert oldAdr[oldCount..oldCount] == [] && oldSize[oldCount..oldCount] == [];
      SetAsideEnd(others, Others());
    }

    method FreeOne(adr: int, size: int)
      requires Valid() && Current() && adr in Others() && Others()[adr] == size >= blockSize
      modifies this`headerAvail, this`headerChanged, this`inUse, cache
      ensures Valid() && Current() && Others() == old(Others()) - {adr} && cache[..] == old(cache[..])
    {
      hide CacheOk, DirOk, Tidy, Apart, Recorded;
      CurrentInView();
      SpareRest();
      Release(adr, Rest());
      FreeRegion(adr, size, Rest());
      RestSpare();
    }

    /** The current bucket is full, and no directory that can be had tells its elements from a hash. */
    ghost predicate Stuck(hash: int)
      requires entry < cache.Length
      reads this`entry, this`cache, cache
    {
      Bucket0().count == elems && Inseparable(Bucket0().table, hash)
    }

    /** Splits the current bucket until the one that `nextInsert` leads to has a free slot. That takes
        as many bits as are needed to tell some element of the full bucket from `nextInsert`. If 28
        bits do not suffice, every round fills one half again, until the directory would have to be
        doubled to a size that is negative as an int, or the file would grow past the largest offset:
        then the program aborts. It does not abort if the bits suffice and new blocks for all rounds
        fit at the end of the file. */
    method SplitBucket(nextInsert: int) returns (result: SplitResult)
      requires Valid() && CurrentFor(nextInsert)
      modifies this`lastRead, this`disk, this`nextBlock, this`headerAvail, this`headerChanged, this`inUse, this`dir,
               this`dirBits, this`dirAdr, this`dirSize, this`bucketDir, this`entry, this`bucketChanged,
               this`directoryChanged, this`secondChanged, this`view, dir, cache
      ensures Valid() && CurrentFor(nextInsert)
      ensures result.Room? <==> Bucket0().count < elems
      ensures result.Room? ==> !old(Stuck(nextInsert))
      ensures result.OutOfBits? ==> old(Stuck(nextInsert)) && Bucket0().bits == dirBits == MAX_DIR_BITS && AsInt(dirSize * 2) < 0
      ensures result.OutOfFile? ==> nextBlock + RoundSpace() > INT_MAX
      ensures old(Bucket0().count < elems || CanSplit(Bucket0(), nextInsert, nextBlock, dirBits, blockSize)) ==> result.Room?
      ensures Bucket0().bits > old(Bucket0().bits) ==> bucketChanged && directoryChanged && secondChanged
      ensures forall e: Element | 0 <= e.hash < HASH_LIMIT :: Count(e) == old(Count(e))
      ensures Others() == old(Others())
      ensures dir == old(dir) || fresh(dir)
      ensures Bucket0().bits >= old(Bucket0().bits)
      ensures BitsWithin(old(Bucket0()), nextInsert, Bucket0().bits)
    {
      hide CacheOk, DirOk, SpaceSets, Stored, Probed, Used, Chosen, Agree, SameContents, SetAside, Prefix,
           BitsWithin, HashesOk, Inseparable, Halves, CanSplit, SplitSpace, AsInt, Pow2, Shape, CacheValid, Apart,
           Dbf.SpaceOk, Tidy, Dbf.SpareOk;
      SplittingStarts(nextInsert);
      ghost var first, others := Bucket0(), Others();
      CurrentInView();
      SetAsideNone(others);
      var oldAdr, oldSize, oldCount := new int[31], new int[31], 0;
      result, oldCount := SplitLoop(nextInsert, first, oldAdr, oldSize, others);
      CurrentInView();
      SplitEnds(first, nextInsert);
      if !result.Room? {
        SplitFails(first, nextInsert, old(nextBlock), old(dirBits));
      }
      FreeDirectories(oldAdr, oldSize, oldCount, others);
    }

    /** The split loop, with its record of the directories it replaces. */
    method SplitLoop(nextInsert: int, ghost first: Bucket, oldAdr: array<int>, oldSize: array<int>, ghost others: map<int, int>)
      returns (result: SplitResult, oldCount: nat)
      requires HashesOk(first.table) && Splitting(first, nextInsert) && first == Bucket0() && first.bits <= dirBits <= MAX_DIR_BITS
      requires oldAdr.Length == oldSize.Length == 31 && oldAdr != oldSize && oldAdr != dir && oldSize != dir
      requires others == Others() && SetAside(others, oldAdr[..0], oldSize[..0], others)
      modifies this`lastRead, this`disk, this`nextBlock, this`headerAvail, this`headerChanged, this`inUse, this`dir,
               this`dirBits, this`dirAdr, this`dirSize, this`bucketDir, this`entry, this`bucketChanged,
               this`directoryChanged, this`secondChanged, this`view, dir, cache, oldAdr, oldSize
      ensures Splitting(first, nextInsert) && first.bits <= Bucket0().bits
      ensures Bucket0().count == elems ==> first.count == elems
      ensures result.Room? <==> Bucket0().count != elems
      ensures result.OutOfBits? ==> Bucket0().bits == dirBits == MAX_DIR_BITS && AsInt(dirSize * 2) < 0
      ensures result.OutOfFile? ==> nextBlock + RoundSpace() > INT_MAX
      ensures old(Stuck(nextInsert)) ==> Stuck(nextInsert)
      ensures Bucket0().bits > first.bits ==> bucketChanged && directoryChanged && secondChanged
      ensures forall e: Element | 0 <= e.hash < HASH_LIMIT :: Count(e) == old(Count(e))
      ensures nextBlock <= old(nextBlock) + SplitSpace(first.bits, Bucket0().bits, old(dirBits), blockSize)
      ensures dirBits == if Bucket0().bits > old(dirBits) then Bucket0().bits else old(dirBits)
      ensures oldCount <= 31 && SetAside(others, oldAdr[..oldCount], oldSize[..oldCount], Others())
      ensures forall i | 0 <= i < oldCount :: oldSize[i] >= blockSize
      ensures dir == old(dir) || fresh(dir)
    {
      hide CacheOk, DirOk, SpaceSets, Stored, Probed, Used, Chosen, Agree, SameContents, SetAside, Prefix,
           BitsWithin, HashesOk, Inseparable, Halves, CanSplit, SplitSpace, AsInt, Pow2, Shape, CacheValid, Apart,
           Dbf.SpaceOk, Tidy, Dbf.SpareOk;
      SplitSpaceNone(first.bits, dirBits, blockSize);
      oldCount := 0;
      result := Room;
      while cache[entry].bucket.count == elems
        modifies this`lastRead, this`disk, this`nextBlock, this`headerAvail, this`headerChanged, this`inUse, this`dir,
                 this`dirBits, this`dirAdr, this`dirSize, this`bucketDir, this`entry, this`bucketChanged,
                 this`directoryChanged, this`secondChanged, this`view, dir, cache, oldAdr, oldSize
        invariant Splitting(first, nextInsert) && first.bits <= Bucket0().bits
        invariant Bucket0().count == elems ==> first.count == elems
        invariant old(Stuck(nextInsert)) ==> Stuck(nextInsert)
        invariant Bucket0().bits > first.bits ==> bucketChanged && directoryChanged && secondChanged
        invariant forall e: Element | 0 <= e.hash < HASH_LIMIT :: Count(e) == old(Count(e))
        invariant 0 <= oldCount == dirBits - old(dirBits) <= 31
        invariant nextBlock <= old(nextBlock) + SplitSpace(first.bits, Bucket0().bits, old(dirBits), blockSize)
        invariant dirBits == if Bucket0().bits > old(dirBits) then Bucket0().bits else old(dirBits)
        invariant SetAside(others, oldAdr[..oldCount], oldSize[..oldCount], Others())
        invariant forall i | 0 <= i < oldCount :: oldSize[i] >= blockSize
        invariant (dir == old(dir) || fresh(dir)) && oldAdr != dir && oldSize != dir
        invariant result.Room?
        decreases MAX_DIR_BITS - Bucket0().bits
      {
        result := MaySplit();
        if !result.Room? {
          return;
        }
        RoundSpaceIs(first.bits, old(dirBits));
        oldCount := SplitOnce(nextInsert, first, oldAdr, oldSize, oldCount, others);
      }
    }

    /** Whether one more round is possible. */
    method MaySplit() returns (result: SplitResult)
      requires Valid() && Current()
      ensures Bucket0().bits <= dirBits <= MAX_DIR_BITS
      ensures result.Room? ==> Bucket0().bits < MAX_DIR_BITS && nextBlock + RoundSpace() <= INT_MAX
      ensures result.OutOfBits? ==> Bucket0().bits == dirBits == MAX_DIR_BITS && AsInt(dirSize * 2) < 0
      ensures result.OutOfFile? ==> nextBlock + RoundSpace() > INT_MAX
    {
      CurrentInView();
      SizeOverflows();
      if dirBits == cache[entry].bucket.bits && AsInt(dirSize * 2) < 0 {
        return OutOfBits;
      }
      var space := 3 * blockSize;
      if dirBits == cache[entry].bucket.bits {
        space := space + 2 * dirSize;
      }
      result := if nextBlock + space > INT_MAX then OutOfFile else Room;
    }

    /** What a round needs is what one more bit adds. */
    lemma RoundSpaceIs(bits: nat, startBits: nat)
      requires DirValid() && entry < cache.Length && bits <= Bucket0().bits <= dirBits
      requires dirBits == if Bucket0().bits > startBits then Bucket0().bits else startBits
      ensures SplitSpace(bits, Bucket0().bits + 1, startBits, blockSize)
           == SplitSpace(bits, Bucket0().bits, startBits, blockSize) + RoundSpace()
    {
      hide DirOk;
      SplitSpaceStep(bits, Bucket0().bits, startBits, blockSize);
      Pow2Next(Bucket0().bits);
    }

    lemma SizeOverflows()
      requires DirValid()
      ensures AsInt(dirSize * 2) < 0 <==> dirBits == MAX_DIR_BITS
    {
      DoublingOverflows(dirBits);
    }

    lemma SplitEnds(first: Bucket, hash: int)
      requires HashesOk(first.table) && Splitting(first, hash) && first.bits <= Bucket0().bits
      requires Agree(first.table, hash, first.bits)
      requires Bucket0().count == elems ==> Used(first.table) == |first.table|
      ensures BitsWithin(first, hash, Bucket0().bits)
      ensures Bucket0().count == elems && Bucket0().bits == MAX_DIR_BITS ==> Inseparable(first.table, hash)
    {
      AgreeBounds(first, hash, Bucket0().bits);
      if Bucket0().count == elems && Bucket0().bits == MAX_DIR_BITS {
        AgreeInseparable(first.table, hash);
      }
    }

    /** What the next round would need does not fit: then no number of bits would have done. */
    lemma SplitFails(first: Bucket, hash: int, start: int, startBits: nat)
      requires HashesOk(first.table) && Splitting(first, hash) && first.bits <= Bucket0().bits && Bucket0().count == elems
      requires nextBlock <= start + SplitSpace(first.bits, Bucket0().bits, startBits, blockSize)
      requires Bucket0().bits < MAX_DIR_BITS ==> nextBlock + RoundSpace() > INT_MAX
      requires dirBits == if Bucket0().bits > startBits then Bucket0().bits else startBits
      ensures !CanSplit(first, hash, start, startBits, blockSize)
    {
      hide CacheOk, OneRunEach, PrefixesOk, SpaceSets, HashesOk, Pow2, Agree;
      CurrentInView();
      var k := Bucket0().bits;
      if CanSplit(first, hash, start, startBits, blockSize) {
        var bits: nat :| Splits(first, hash, bits, start, startBits, blockSize);
        if bits <= k {
          AgreeFewer(first.table, hash, bits, k);
        } else {
          RoundSpaceIs(first.bits, startBits);
          SplitSpaceGrows(first.bits, k + 1, bits, startBits, blockSize);
        }
      }
    }

    /** The body of the split loop, with its record of replaced directories. */
    method SplitOnce(nextInsert: int, ghost first: Bucket, oldAdr: array<int>, oldSize: array<int>, oldCount: nat,
                     ghost others: map<int, int>) returns (newCount: nat)
      requires HashesOk(first.table) && Splitting(first, nextInsert) && Bucket0().count == elems && Bucket0().bits < MAX_DIR_BITS
      requires nextBlock + RoundSpace() <= INT_MAX
      requires oldAdr.Length == oldSize.Length == 31 && oldAdr != oldSize
      requires oldAdr != dir && oldSize != dir && oldCount <= dirBits
      requires SetAside(others, oldAdr[..oldCount], oldSize[..oldCount], Others())
      requires forall i | 0 <= i < oldCount :: oldSize[i] >= blockSize
      modifies this`lastRead, this`disk, this`nextBlock, this`headerAvail, this`headerChanged, this`inUse, this`dir,
               this`dirBits, this`dirAdr, this`dirSize, this`bucketDir, this`entry, this`bucketChanged,
               this`directoryChanged, this`secondChanged, this`view, dir, cache, oldAdr, oldSize
      ensures bucketChanged && directoryChanged && secondChanged
      ensures Splitting(first, nextInsert) && Bucket0().bits == old(Bucket0().bits) + 1
      ensures nextBlock <= old(nextBlock + RoundSpace()) && Bucket0().bits <= dirBits
      ensures dirBits != old(dirBits) ==> dirBits == Bucket0().bits > old(dirBits)
      ensures old(Stuck(nextInsert)) ==> Stuck(nextInsert)
      ensures forall e: Element | 0 <= e.hash < HASH_LIMIT :: Count(e) == old(Count(e))
      ensures newCount - oldCount == dirBits - old(dirBits)
      ensures newCount <= 31 && SetAside(others, oldAdr[..newCount], oldSize[..newCount], Others())
      ensures forall i | 0 <= i < newCount :: oldSize[i] >= blockSize
      ensures dir == old(dir) || fresh(dir)
    {
      hide CacheOk, DirOk, SpaceSets, Stored, Probed, Chosen, Agree, SameContents, SetAside, Prefix,
           HashesOk, Used, Inseparable, Tidy, SpareOk;
      CurrentInView();
      ghost var before := Bucket0();
      var headerDir, headerSize, headerBits := dirAdr, dirSize, dirBits;
      newCount := oldCount;
      SplitRound(nextInsert);
      CurrentInView();
      StillSplitting(first, before, nextInsert);
      if Inseparable(before.table, nextInsert) {
        StillStuck(before, Bucket0(), nextInsert);
      }
      if dirBits != headerBits {
        SetAsideOne(others, oldAdr[..oldCount], oldSize[..oldCount], old(Others()), headerDir, headerSize);
        oldAdr[oldCount] := headerDir;
        oldSize[oldCount] := headerSize;
        newCount := oldCount + 1;
        assert oldAdr[..newCount] == oldAdr[..oldCount] + [headerDir];
        assert oldSize[..newCount] == oldSize[..oldCount] + [headerSize];
      }
    }

    // ---- Storing, finding and removing ----

    /** The current bucket gets a new image; it keeps its bits and prefix. */
    method SetBucket(b: Bucket)
      requires Valid() && Current() && BucketOk(b, elems) && b.bits == Bucket0().bits <= dirBits
      requires Carries(b, Run(bucketDir, dirBits, b.bits)) && b.avail == Bucket0().avail
      modifies this`view, cache
      ensures cache[entry].changed
      ensures Valid() && Current() && Bucket0() == b
      ensures view == old(view)[dir[bucketDir] := b]
    {
      hide Probed, Used, Carries, OneRunEach, PrefixesOk, Run, Tidy;
      CurrentInView();
      StoreKeeps(cache[..], disk, view, entry, b);
      ReplaceBucket(elems, dirBits, dir[..], view, bucketDir, b);
      assert view[dir[bucketDir] := b].Keys == view.Keys;
      ghost var before := cache[..];
      cache[entry] := cache[entry].(bucket := b, changed := true);
      assert cache[..] == before[entry := Slot(b, before[entry].adr, true)];
      BucketFreeSame(view, dir[bucketDir], b);
      view := view[dir[bucketDir] := b];
    }

    /** The bucket that a hash leads to. */
    ghost function BucketFor(hash: int): Bucket
      requires Valid() && 0 <= hash < HASH_LIMIT
      reads this, dir, cache
    {
      HashIndex(hash, dirBits);
      EntryLive(Prefix(hash, dirBits));
      view[dir[Prefix(hash, dirBits)]]
    }

    /** Makes the bucket that a hash leads to the current one. */
    method FindBucket(hash: int)
      requires Valid() && 0 <= hash < HASH_LIMIT
      modifies this`bucketDir, this`lastRead, this`entry, this`disk, cache
      ensures Valid() && CurrentFor(hash) && Bucket0() == BucketFor(hash) == old(BucketFor(hash))
    {
      HashIndex(hash, dirBits);
      GetBucket(Shr(hash, 31 - dirBits));
      CurrentInView();
    }

    /** Adds an element to the current bucket, which is the right one and has a free slot. */
    method InsertHere(e: Element)
      requires Valid() && CurrentFor(e.hash) && Bucket0().count < elems
      modifies this`view, this`bucketChanged, cache
      ensures bucketChanged && cache[entry].changed
      ensures Bucket0().count == old(Bucket0().count) + 1 && Added(old(Bucket0()).table, Bucket0().table, e)
      ensures Valid() && CurrentFor(e.hash)
      ensures forall x: Element | 0 <= x.hash < HASH_LIMIT :: Count(x) == old(Count(x)) + (if x == e then 1 else 0)
      ensures Others() == old(Others())
    {
      hide CacheOk, DirOk, SpaceSets, Stored, Carries, Run, Probed, Used, HashesOk, Shr, Tidy, Dbf.SpareOk, Dbf.SpaceOk, BucketFree;
      CurrentInView();
      CurrentCarries();
      HashRun(e.hash, dirBits, Bucket0().bits);
      var b := cache[entry].bucket;
      var t, loc := Place(b.table, e);
      var b2 := b.(table := t, count := b.count + 1);
      InsertCarries(b, loc, e, Run(bucketDir, dirBits, b.bits));
      InsertStored(elems, dirBits, dir[..], view, e, b2, loc);
      assert dir[..][bucketDir] == dir[bucketDir];
      SetBucket(b2);
      bucketChanged := true;
    }

    /** Adds an element to the file, splitting its bucket first if that is full. If splitting does not
        help, the program aborts: always if all elements of the bucket agree with the new one in the
        first 28 bits, and never if fewer bits suffice and new blocks for all rounds fit at the end of
        the file. */
    method Insert(e: Element) returns (ok: bool)
      requires Valid() && 0 <= e.hash < HASH_LIMIT
      modifies this`lastRead, this`disk, this`nextBlock, this`headerAvail, this`headerChanged, this`inUse, this`dir,
               this`dirBits, this`dirAdr, this`dirSize, this`bucketDir, this`entry, this`bucketChanged,
               this`directoryChanged, this`secondChanged, this`view, dir, cache
      ensures Valid() && CurrentFor(e.hash)
      ensures var b := old(BucketFor(e.hash));
              && (b.count < elems || CanSplit(b, e.hash, old(nextBlock), old(dirBits), blockSize) ==> ok)
              && (b.count == elems && Inseparable(b.table, e.hash) ==> !ok)
              && (b.count < elems ==> Bucket0().count == b.count + 1 && Added(b.table, Bucket0().table, e))
      ensures forall x: Element | 0 <= x.hash < HASH_LIMIT ::
                Count(x) == old(Count(x)) + (if ok && x == e then 1 else 0)
      ensures Others() == old(Others())
      ensures dir == old(dir) || fresh(dir)
    {
      hide CacheOk, DirOk, SpaceSets, Stored, Prefix, Inseparable, Probed, Used, HashesOk, BitsWithin, CanSplit, Added,
           Apart, Tidy, Dbf.SpareOk, Dbf.SpaceOk;
      FindBucket(e.hash);
      ok := true;
      if cache[entry].bucket.count == elems {
        var result := SplitBucket(e.hash);
        ok := result.Room?;
      }
      CurrentInView();
      if ok {
        InsertHere(e);
      }
    }

    /** Finds an element in the file; the current bucket then holds it at `loc`. */
    method Find(hash: int, matches: Element -> bool) returns (loc: int)
      requires Valid() && 0 <= hash < HASH_LIMIT
      modifies this`bucketDir, this`lastRead, this`entry, this`disk, cache
      ensures Valid() && CurrentFor(hash) && -1 <= loc < elems == |Bucket0().table|
      ensures loc >= 0 ==> Bucket0().table[loc].hash == hash && matches(Bucket0().table[loc]) && Count(Bucket0().table[loc]) > 0
      ensures loc == -1 ==> forall e: Element | e.hash == hash && matches(e) :: Count(e) == 0
    {
      hide Tidy, CacheOk, Dbf.SpareOk, Dbf.SpaceOk, DirOk, Apart;
      FindBucket(hash);
      CurrentInView();
      loc := Search(cache[entry].bucket.table, hash, matches);
      ghost var t := Bucket0().table;
      assert dir[..][bucketDir] == dir[bucketDir];
      if loc >= 0 {
        InTable(t, loc);
      }
    }

    /** Removes the element at a slot of the current bucket. */
    method RemoveHere(loc: nat)
      requires Valid() && Current() && loc < |Bucket0().table| && !Free(Bucket0().table[loc])
      requires CurrentFor(Bucket0().table[loc].hash)
      modifies this`view, this`bucketChanged, cache
      ensures bucketChanged && cache[entry].changed && Current()
      ensures Valid()
      ensures forall x: Element | 0 <= x.hash < HASH_LIMIT ::
                Count(x) + (if x == old(Bucket0().table[loc]) then 1 else 0) == old(Count(x))
      ensures Others() == old(Others())
    {
      hide CacheOk, DirOk, SpaceSets, Stored, Carries, Run, Probed, Used, Shr, Without, Tidy, Dbf.SpareOk, BucketFree;
      CurrentInView();
      CurrentCarries();
      var b := cache[entry].bucket;
      var e := b.table[loc];
      HashRun(e.hash, dirBits, b.bits);
      var t := Remove(b.table, loc);
      var b2 := b.(table := t, count := b.count - 1);
      RemoveCarries(b, t, e, Run(bucketDir, dirBits, b.bits));
      RemoveStored(elems, dirBits, dir[..], view, e, b2);
      assert dir[..][bucketDir] == dir[bucketDir];
      SetBucket(b2);
      bucketChanged := true;
    }

    /** The logical bucket follows the current bucket's free list. */
    method AdoptList(ghost before: seq<Slot>)
      requires Shape() && DirValid() && SpaceOk() && Current() && FreeOk(Rest()) && CacheOk(before, disk, view)
      requires forall a | a in view :: a != 0 && |view[a].table| == elems && |view[a].avail| <= BUCKET_AVAIL
      requires OnlyAvailChanged(before, cache[..], entry) && dir[bucketDir] in view && view[dir[bucketDir]] == before[entry].bucket
      requires var b := before[entry].bucket;
               BucketOk(b, elems) && b.bits <= 31 && b.bits <= dirBits && Carries(b, Run(bucketDir, dirBits, b.bits))
      modifies this`view, cache
      ensures Valid() && Current() && cache[entry].changed && view == old(view)[dir[bucketDir] := Bucket0()]
      ensures Bucket0() == old(Bucket0()) && view.Keys == old(view).Keys
      ensures forall e: Element | 0 <= e.hash < HASH_LIMIT :: Count(e) == old(Count(e))
    {
      hide Probed, Used, Carries, OneRunEach, PrefixesOk, Run, HashesOk, Apart, SpaceSets, CacheOk, Tidy, SpareOk, DirOk,
           BucketFree;
      ghost var b, a := Bucket0(), dir[bucketDir];
      cache[entry] := cache[entry].(changed := true);
      AvailCarries(before[entry].bucket, b, elems, Run(bucketDir, dirBits, b.bits));
      StoreKeeps(before, disk, view, entry, b);
      ReplaceBucket(elems, dirBits, dir[..], view, bucketDir, b);
      assert cache[..] == before[entry := Slot(b, before[entry].adr, true)];
      view := view[a := b];
      assert view.Keys == old(view).Keys;
      SpareAgain(old(view), a);
    }

    lemma SpareAgain(was: map<int, Bucket>, a: int)
      requires Shape() && FreeOk(BucketFree(was - {a})) && view == was[a := Bucket0()]
      ensures SpareOk()
    {
      hide Tidy;
      BucketFreeSet(was, a, Bucket0());
      assert BucketFree(was - {a}) + multiset(headerAvail) + multiset(Bucket0().avail) == multiset(headerAvail) + BucketFree(view);
    }

    /** Gives the space of a data item back, to the current bucket's list or the header's. */
    method FreeHere(adr: int, numBytes: int)
      requires Valid() && Current() && cache[entry].changed && adr in Others() && Others()[adr] == numBytes
      modifies this`headerAvail, this`headerChanged, this`inUse, this`view, cache
      ensures Valid() && Current() && Others() == old(Others()) - {adr} && cache[entry].changed
      ensures Bucket0() == old(Bucket0()).(avail := Bucket0().avail)
      ensures Recorded(Avail(numBytes, adr), coalesce, old(Bucket0().avail), Bucket0().avail, old(headerAvail), headerAvail)
      ensures forall e: Element | 0 <= e.hash < HASH_LIMIT :: Count(e) == old(Count(e))
    {
      hide Probed, Used, Carries, OneRunEach, PrefixesOk, Run, HashesOk, Apart, Recorded, SpaceSets, CacheOk, Tidy, SpareOk, DirOk,
           BucketFree;
      CurrentInView();
      CurrentCarries();
      SpareRest();
      ghost var before := cache[..];
      Release(adr, Rest());
      FreeRegion(adr, numBytes, Rest());
      AdoptList(before);
    }

    /** Finds space for a data item, on the current bucket's list, the header's, or at the end of the
        file. */
    method AllocHere(numBytes: int) returns (adr: int)
      requires Valid() && Current() && numBytes > 0
      requires TakeSpace(numBytes, Bucket0().avail, headerAvail, nextBlock, blockSize).end <= INT_MAX
      modifies this`nextBlock, this`headerAvail, this`headerChanged, this`inUse, this`view, cache
      ensures Valid() && Current() && cache[entry].changed && adr !in old(inUse)
      ensures Others() == old(Others())[adr := numBytes]
      ensures Bucket0() == old(Bucket0()).(avail := Bucket0().avail)
      ensures nextBlock <= old(nextBlock) + RoundUp(numBytes, blockSize)
      ensures forall e: Element | 0 <= e.hash < HASH_LIMIT :: Count(e) == old(Count(e))
    {
      hide Probed, Used, Carries, OneRunEach, PrefixesOk, Run, HashesOk, Apart, Recorded, CacheOk, Tidy, SpareOk, DirOk,
           BucketFree, TakeSpace;
      CurrentInView();
      CurrentCarries();
      SpareRest();
      ghost var before := cache[..];
      adr := Alloc(numBytes, Rest());
      AdoptList(before);
    }

    /** Every stored element has a region of its own, of the size of its key and data. */
    ghost predicate Owned()
      requires Valid()
      reads this, dir, cache
    {
      && (forall x: Element | 0 <= x.hash < HASH_LIMIT && Count(x) > 0 ::
            Count(x) == 1 && x.dataPointer in Others() && Others()[x.dataPointer] == x.keySize + x.dataSize)
      && forall x: Element, y: Element | 0 <= x.hash < HASH_LIMIT && 0 <= y.hash < HASH_LIMIT && Count(x) > 0 && Count(y) > 0
           && x != y :: x.dataPointer != y.dataPointer
    }

    /** Stores a new element: space for its data is found before its bucket is split. */
    method Store(e: Element) returns (ok: bool, item: Element)
      requires Valid() && 0 <= e.hash < HASH_LIMIT && e.keySize + e.dataSize > 0
      requires TakeSpace(e.keySize + e.dataSize, BucketFor(e.hash).avail, headerAvail, nextBlock, blockSize).end <= INT_MAX
      modifies this`lastRead, this`disk, this`nextBlock, this`headerAvail, this`headerChanged, this`inUse, this`dir,
               this`dirBits, this`dirAdr, this`dirSize, this`bucketDir, this`entry, this`bucketChanged,
               this`directoryChanged, this`secondChanged, this`view, dir, cache
      ensures Valid() && CurrentFor(e.hash) && (dir == old(dir) || fresh(dir))
      ensures item == e.(dataPointer := item.dataPointer) && item.dataPointer !in old(Others())
      ensures Others() == old(Others())[item.dataPointer := e.keySize + e.dataSize]
      ensures forall x: Element | 0 <= x.hash < HASH_LIMIT :: Count(x) == old(Count(x)) + (if ok && x == item then 1 else 0)
      ensures old(Owned()) ==> Owned()
    {
      hide Valid, Count, Others, CurrentFor, BucketFor, TakeSpace;
      ok, item := StoreItem(e);
    }

    /** The same, whatever regions the other elements have. */
    method StoreItem(e: Element) returns (ok: bool, item: Element)
      requires Valid() && 0 <= e.hash < HASH_LIMIT && e.keySize + e.dataSize > 0
      requires TakeSpace(e.keySize + e.dataSize, BucketFor(e.hash).avail, headerAvail, nextBlock, blockSize).end <= INT_MAX
      modifies this`lastRead, this`disk, this`nextBlock, this`headerAvail, this`headerChanged, this`inUse, this`dir,
               this`dirBits, this`dirAdr, this`dirSize, this`bucketDir, this`entry, this`bucketChanged,
               this`directoryChanged, this`secondChanged, this`view, dir, cache
      ensures Valid() && CurrentFor(e.hash) && (dir == old(dir) || fresh(dir))
      ensures item == e.(dataPointer := item.dataPointer) && item.dataPointer !in old(Others())
      ensures Others() == old(Others())[item.dataPointer := e.keySize + e.dataSize]
      ensures forall x: Element | 0 <= x.hash < HASH_LIMIT :: Count(x) == old(Count(x)) + (if ok && x == item then 1 else 0)
    {
      hide CacheOk, DirOk, SpaceSets, Stored, Prefix, Inseparable, HashesOk, CanSplit, Added, Apart, Tidy, SpareOk, SpaceOk,
           RoundUp, Dbf.CacheValid, Dbf.Current, Dbf.DirValid, Used;
      FindBucket(e.hash);
      var adr := AllocHere(e.keySize + e.dataSize);
      item := e.(dataPointer := adr);
      ok := Insert(item);
    }

    /** Deletes the element at a slot of the current bucket, and gives the space of its data back. */
    method Delete(loc: nat)
      requires Valid() && Current() && loc < |Bucket0().table| && !Free(Bucket0().table[loc])
      requires CurrentFor(Bucket0().table[loc].hash)
      requires var e := Bucket0().table[loc]; e.dataPointer in Others() && Others()[e.dataPointer] == e.keySize + e.dataSize
      modifies this`headerAvail, this`headerChanged, this`inUse, this`view, this`bucketChanged, cache
      ensures Valid() && bucketChanged && cache[entry].changed
      ensures forall x: Element | 0 <= x.hash < HASH_LIMIT ::
                Count(x) + (if x == old(Bucket0().table[loc]) then 1 else 0) == old(Count(x))
      ensures Others() == old(Others()) - {old(Bucket0().table[loc].dataPointer)}
      ensures old(Owned()) ==> Owned()
    {
      hide CacheOk, DirOk, SpaceSets, Stored, Recorded, Tidy, SpareOk;
      CurrentInView();
      ghost var was := Bucket0().table[loc];
      var e := cache[entry].bucket.table[loc];
      RemoveHere(loc);
      FreeHere(e.dataPointer, e.keySize + e.dataSize);
    }

    lemma CurrentCarries()
      requires Valid() && Current()
      ensures Bucket0().bits <= dirBits <= 31 && Carries(Bucket0(), Run(bucketDir, dirBits, Bucket0().bits))
    {
      CurrentInView();
      assert Carries(view[dir[..][bucketDir]], Run(bucketDir, dirBits, Bucket0().bits));
    }
  }

  /** The smallest file: blocks of 512 bytes, and 22 elements in a bucket. It is filled with elements
      near a hash. */
  method NearFile(items: seq<Element>, hash: int) returns (file: Dbf)
    requires |items| == 22 && 0 <= hash < HASH_LIMIT
    requires forall i | 0 <= i < |items| :: 0 <= items[i].hash < HASH_LIMIT && items[i].hash / 8 == hash / 8
    ensures fresh(file) && fresh(file.dir) && fresh(file.cache) && file.Valid()
    ensures file.blockSize == 512 && file.dirBits <= MAX_DIR_BITS
    ensures file.BucketFor(hash).count == file.elems == 22 && Near(file.BucketFor(hash).table, hash)
    ensures forall x: Element | 0 <= x.hash < HASH_LIMIT :: file.Count(x) == multiset(items)[x]
  {
    hide Dbf.Valid, Stored, DirOk, Near, Dbf.BucketFor;
    SmallestBlock();
    file := new Dbf(512, 7, 10, false, false);
    NothingIn(file, hash);
    FewBits(file);
    for i := 0 to |items|
      invariant fresh(file) && fresh(file.dir) && fresh(file.cache) && file.Valid() && file.elems == 22 && file.blockSize == 512
      invariant file.dirBits <= MAX_DIR_BITS
      invariant file.BucketFor(hash).count == i && Near(file.BucketFor(hash).table, hash)
      invariant forall x: Element | 0 <= x.hash < HASH_LIMIT :: file.Count(x) == multiset(items[..i])[x]
    {
      InsertNear(file, items[i], hash);
      assert items[..i + 1] == items[..i] + [items[i]];
    }
    assert items[..|items|] == items;
  }

  /** If 22 elements that agree in all bits but the last three have been stored one after the other,
      one more of them cannot be. */
  method StuckFile(items: seq<Element>, last: Element) returns (file: Dbf, ok: bool)
    requires |items| == 22 && 0 <= last.hash < HASH_LIMIT
    requires forall i | 0 <= i < |items| :: 0 <= items[i].hash < HASH_LIMIT && items[i].hash / 8 == last.hash / 8
    ensures !ok && file.Valid() && file.blockSize == 512 && file.dirBits <= MAX_DIR_BITS
    ensures forall x: Element | 0 <= x.hash < HASH_LIMIT :: file.Count(x) == multiset(items)[x]
  {
    hide Dbf.Valid, Stored, AsInt, DirOk, Near, Added, Dbf.BucketFor, CanSplit, Inseparable;
    file := NearFile(items, last.hash);
    FullOfNear(file, last.hash);
    ok := file.Insert(last);
    FewBits(file);
  }

  /** One element more near a hash, while there is room. */
  method InsertNear(file: Dbf, e: Element, hash: int)
    requires file.Valid() && 0 <= e.hash < HASH_LIMIT && 0 <= hash < HASH_LIMIT && e.hash / 8 == hash / 8
    requires file.BucketFor(hash).count < file.elems && Near(file.BucketFor(hash).table, hash) && file.dirBits <= MAX_DIR_BITS
    modifies file, file.dir, file.cache
    ensures file.Valid() && file.dirBits <= MAX_DIR_BITS && file.cache == old(file.cache)
    ensures file.dir == old(file.dir) || fresh(file.dir)
    ensures file.BucketFor(hash).count == old(file.BucketFor(hash).count) + 1 && Near(file.BucketFor(hash).table, hash)
    ensures forall x: Element | 0 <= x.hash < HASH_LIMIT :: file.Count(x) == old(file.Count(x)) + (if x == e then 1 else 0)
  {
    hide Dbf.Valid, Stored, AsInt, DirOk, Near, Added, Dbf.BucketFor, CanSplit;
    ghost var t := file.BucketFor(hash).table;
    SameBucket(file, e.hash, hash);
    var _ := file.Insert(e);
    FewBits(file);
    SameBucket(file, e.hash, hash);
    CurrentIs(file, e.hash);
    StillNear(t, file.Bucket0().table, e, hash);
  }

  lemma FewBits(file: Dbf)
    requires file.Valid()
    ensures file.dirBits <= MAX_DIR_BITS
  {
  }

  lemma SmallestBlock()
    ensures 512 == OFF_T * Pow2(7) && BucketElems(512) == 22
  {
    assert Pow2(3) == 8 && Pow2(7) == 16 * Pow2(3);
  }

  /** All elements of a table agree with a hash in all bits but the last three. */
  ghost predicate Near(t: seq<Element>, hash: int) {
    HashesOk(t) && forall i | 0 <= i < |t| && !Free(t[i]) :: t[i].hash / 8 == hash / 8
  }

  lemma StillNear(t: seq<Element>, t2: seq<Element>, e: Element, hash: int)
    requires Near(t, hash) && Added(t, t2, e) && HashesOk(t2) && e.hash / 8 == hash / 8
    ensures Near(t2, hash)
  {
    forall i | 0 <= i < |t2| && !Free(t2[i]) ensures t2[i].hash / 8 == hash / 8 {
      InTable(t2, i);
      if t2[i] != e {
        assert t2[i] in t;
      }
    }
  }

  lemma SamePrefix(x: int, y: int, bits: nat)
    requires 0 <= x && 0 <= y && x / 8 == y / 8 && bits <= MAX_DIR_BITS
    ensures Prefix(x, bits) == Prefix(y, bits)
  {
    PrefixIsQuotient(x, MAX_DIR_BITS);
    PrefixIsQuotient(y, MAX_DIR_BITS);
    PrefixFacts(x, y, bits, MAX_DIR_BITS);
  }

  lemma SameBucket(file: Dbf, x: int, y: int)
    requires file.Valid() && 0 <= x < HASH_LIMIT && 0 <= y < HASH_LIMIT && x / 8 == y / 8
    ensures file.BucketFor(x) == file.BucketFor(y)
  {
    SamePrefix(x, y, file.dirBits);
  }

  lemma CurrentIs(file: Dbf, hash: int)
    requires file.Valid() && file.CurrentFor(hash)
    ensures file.Bucket0() == file.BucketFor(hash) && HashesOk(file.Bucket0().table)
  {
    file.CurrentInView();
  }

  lemma NothingIn(file: Dbf, hash: int)
    requires file.Valid() && 0 <= hash < HASH_LIMIT
    requires forall i | 0 <= i < file.dir.Length :: file.dir[i] in file.view && file.view[file.dir[i]].count == 0
    ensures file.BucketFor(hash).count == 0 && Near(file.BucketFor(hash).table, hash)
  {
    HashIndex(hash, file.dirBits);
    BucketFine(file, hash);
    NoneUsed(file.BucketFor(hash).table);
  }

  lemma BucketFine(file: Dbf, hash: int)
    requires file.Valid() && 0 <= hash < HASH_LIMIT
    ensures var b := file.BucketFor(hash); b.count == Used(b.table) && |b.table| == file.elems && HashesOk(b.table)
  {
    HashIndex(hash, file.dirBits);
    assert file.dir[..][Prefix(hash, file.dirBits)] == file.dir[Prefix(hash, file.dirBits)];
  }

  lemma {:induction false} NoneUsed(t: seq<Element>)
    requires Used(t) == 0
    ensures forall i | 0 <= i < |t| :: Free(t[i])
  {
    if t != [] {
      NoneUsed(t[..|t| - 1]);
      assert forall i | 0 <= i < |t| - 1 :: t[..|t| - 1][i] == t[i];
    }
  }

  lemma FullOfNear(file: Dbf, hash: int)
    requires file.Valid() && 0 <= hash < HASH_LIMIT && Near(file.BucketFor(hash).table, hash)
    requires file.BucketFor(hash).count == file.elems
    ensures Inseparable(file.BucketFor(hash).table, hash)
  {
    BucketFine(file, hash);
    UsedFull(file.BucketFor(hash).table);
  }

  lemma AvailCarries(b: Bucket, b2: Bucket, n: nat, r: nat)
    requires BucketOk(b, n) && b.bits <= 31 && Carries(b, r) && b2 == b.(avail := b2.avail) && |b2.avail| <= BUCKET_AVAIL
    ensures BucketOk(b2, n) && Carries(b2, r)
  {
  }

  /** One element more. */
  ghost predicate Added(t: seq<Element>, t2: seq<Element>, e: Element) {
    forall x: Element | x.hash >= 0 :: multiset(t2)[x] == multiset(t)[x] + if x == e then 1 else 0
  }

  /** Where the run of a bucket of k bits starts, is cut and ends. */
  datatype Cut = Cut(k: nat, start0: int, start1: int, end: int) {
    ghost predicate Of(i: nat, bits: nat) {
      && k < bits && start0 == HalfStart(bits, k, 2 * Run(i, bits, k))
      && start1 == HalfStart(bits, k, 2 * Run(i, bits, k) + 1) && end == HalfStart(bits, k, 2 * Run(i, bits, k) + 2)
    }
  }

  /** A bucket of k bits behind entry i, and two halves for it. */
  ghost predicate SplitReady(n: nat, bits: nat, dir: seq<int>, view: map<int, Bucket>, i: nat, k: nat, b0: Bucket, b1: Bucket) {
    DirOk(n, bits, dir, view) && i < |dir| && view[dir[i]].bits == k < bits && Halves(n, view[dir[i]], b0, b1)
  }

  /** Free-region lists play no part in what makes a split sound. */
  lemma SplitMade(s: Split, cut: Cut, b0: Bucket, b1: Bucket)
    requires SplitReady(s.n, s.bits, s.dir, s.view, s.i, cut.k, b0, b1) && cut.Of(s.i, s.bits)
    requires SameButAvailB(b0, s.b0) && SameButAvailB(b1, s.b1)
    requires |s.b0.avail| <= BUCKET_AVAIL && |s.b1.avail| <= BUCKET_AVAIL && |s.dir2| == |s.dir|
    requires s.adr0 !in s.view && s.adr1 !in s.view && s.adr0 != 0 && s.adr1 != 0 && s.adr0 != s.adr1
    requires Repointed(s.dir, s.dir2, cut.start0, cut.start1, cut.end, s.adr0, s.adr1)
    ensures s.Ok()
  {
    hide DirOk, Half, Repointed, HalfStart, Run;
  }

  /** `all` is `others` and, besides, the regions at the distinct addresses in `aside`. */
  ghost predicate SetAside(others: map<int, int>, aside: seq<int>, sizes: seq<int>, all: map<int, int>) {
    && |aside| == |sizes| && (forall a :: a in all <==> a in others || a in aside)
    && (forall a | a in others :: all[a] == others[a])
    && (forall i | 0 <= i < |aside| :: aside[i] !in others && aside[i] in all && all[aside[i]] == sizes[i])
    && (forall i, j | 0 <= i < j < |aside| :: aside[i] != aside[j])
  }

  lemma SetAsideNone(others: map<int, int>)
    ensures SetAside(others, [], [], others)
  {
  }

  lemma SetAsideEnd(others: map<int, int>, all: map<int, int>)
    requires SetAside(others, [], [], all)
    ensures all == others
  {
    forall a ensures a in all.Keys <==> a in others.Keys {
      assert a in all <==> a in others || a in [];
    }
    assert all.Keys == others.Keys;
    assert forall a | a in others :: all[a] == others[a];
  }

  lemma SetAsideOne(others: map<int, int>, aside: seq<int>, sizes: seq<int>, all: map<int, int>, adr: int, size: int)
    requires SetAside(others, aside, sizes, all) && adr !in all
    ensures SetAside(others, aside + [adr], sizes + [size], all[adr := size])
  {
  }

  lemma SetAsideFirst(others: map<int, int>, adr: int, size: int, aside: seq<int>, sizes: seq<int>, all: map<int, int>)
    requires SetAside(others, [adr] + aside, [size] + sizes, all)
    ensures adr in all && all[adr] == size && SetAside(others, aside, sizes, all - {adr})
  {
    var whole, allSizes := [adr] + aside, [size] + sizes;
    assert whole[0] == adr && allSizes[0] == size;
    forall i | 0 <= i < |aside| ensures aside[i] != adr && aside[i] !in others && all[aside[i]] == sizes[i] {
      assert whole[i + 1] == aside[i] && allSizes[i + 1] == sizes[i];
    }
    forall i, j | 0 <= i < j < |aside| ensures aside[i] != aside[j] {
      assert whole[i + 1] == aside[i] && whole[j + 1] == aside[j];
    }
    forall a ensures a in whole <==> a == adr || a in aside {
    }
    assert adr !in aside;
  }

  /** `bits` is no more than any number of first bits in which an element of a full bucket and a
      hash differ. */
  ghost predicate BitsWithin(first: Bucket, hash: int, bits: nat)
    requires 0 <= hash
  {
    HashesOk(first.table) &&
    forall i, k: nat | 0 <= i < |first.table| && k <= 31 && !Free(first.table[i])
      && Prefix(first.table[i].hash, k) != Prefix(hash, k) :: bits <= k
  }

  lemma AgreeBounds(first: Bucket, hash: int, bits: nat)
    requires 0 <= hash && HashesOk(first.table) && first.bits <= bits <= 31 && Agree(first.table, hash, first.bits)
    requires bits > first.bits ==> Agree(first.table, hash, bits - 1)
    ensures BitsWithin(first, hash, bits)
  {
    forall i, k: nat | 0 <= i < |first.table| && k <= 31 && !Free(first.table[i])
      && Prefix(first.table[i].hash, k) != Prefix(hash, k) ensures bits <= k
    {
      var b := if bits > first.bits then bits - 1 else bits;
      if k <= b {
        PrefixFacts(first.table[i].hash, hash, k, b);
      }
    }
  }

  /** How a split ends: with a free slot, or with the program aborting as there is no bit left to split
      by, or no offset left for new blocks. */
  datatype SplitResult = Room | OutOfBits | OutOfFile

  /** The space that rounds from one number of bits to another take at the end of the file. */
  function SplitSpace(bits: nat, to: nat, dirBits: nat, blockSize: int): int
    requires bits <= to
  {
    3 * blockSize * (to - bits) + if to > dirBits then OFF_T * (Pow2(to + 1) - Pow2(dirBits + 1)) else 0
  }

  lemma SplitSpaceNone(bits: nat, dirBits: nat, blockSize: int)
    requires bits <= dirBits
    ensures SplitSpace(bits, bits, dirBits, blockSize) == 0
  {
  }

  lemma SplitSpaceStep(bits: nat, to: nat, dirBits: nat, blockSize: int)
    requires bits <= to
    ensures SplitSpace(bits, to + 1, dirBits, blockSize)
         == SplitSpace(bits, to, dirBits, blockSize) + 3 * blockSize + if to >= dirBits then OFF_T * Pow2(to + 1) else 0
  {
    assert 3 * blockSize * (to + 1 - bits) == 3 * blockSize * (to - bits) + 3 * blockSize;
  }

  lemma {:induction false} SplitSpaceGrows(bits: nat, to: nat, to2: nat, dirBits: nat, blockSize: int)
    requires bits <= to <= to2 && blockSize > 0
    ensures SplitSpace(bits, to, dirBits, blockSize) <= SplitSpace(bits, to2, dirBits, blockSize)
    decreases to2
  {
    if to < to2 {
      SplitSpaceGrows(bits, to, to2 - 1, dirBits, blockSize);
      SplitSpaceStep(bits, to2 - 1, dirBits, blockSize);
    }
  }

  /** So many bits tell some element of a bucket from a hash, and new blocks for all rounds up to there
      fit at the end of the file. */
  ghost predicate Splits(b: Bucket, hash: int, bits: nat, nextBlock: int, dirBits: nat, blockSize: int) {
    && 0 <= hash && HashesOk(b.table) && b.bits < bits <= MAX_DIR_BITS && !Agree(b.table, hash, bits)
    && nextBlock + SplitSpace(b.bits, bits, dirBits, blockSize) <= INT_MAX
  }

  ghost predicate CanSplit(b: Bucket, hash: int, nextBlock: int, dirBits: nat, blockSize: int) {
    exists bits: nat :: Splits(b, hash, bits, nextBlock, dirBits, blockSize)
  }

  /** In a new file with blocks of 512 bytes, elements that agree in 27 bits cannot be separated either:
      the 28th bit would do, but the directories on the way there do not fit into the file. */
  lemma OffsetsRunOut(b: Bucket, hash: int, nextBlock: int)
    requires 0 <= hash && HashesOk(b.table) && b.bits <= 7 && Agree(b.table, hash, 27) && nextBlock >= 4 * 512
    ensures !CanSplit(b, hash, nextBlock, 7, 512)
  {
    hide Agree, Pow2;
    if bits: nat :| Splits(b, hash, bits, nextBlock, 7, 512) {
      if bits <= 27 {
        AgreeFewer(b.table, hash, bits, 27);
      } else {
        Powers();
      }
    }
  }

  lemma Powers()
    ensures Pow2(8) == 256 && Pow2(29) == 0x2000_0000
  {
    Pow2Of31();
    assert Pow2(3) == 8 && Pow2(8) == 32 * Pow2(3) && Pow2(31) == 4 * Pow2(29);
  }

  lemma AgreeFewer(t: seq<Element>, hash: int, a: nat, b: nat)
    requires 0 <= hash && HashesOk(t) && a <= b <= 31 && Agree(t, hash, b)
    ensures Agree(t, hash, a)
  {
    forall i | 0 <= i < |t| && !Free(t[i]) ensures Prefix(t[i].hash, a) == Prefix(hash, a) {
      PrefixFacts(t[i].hash, hash, a, b);
    }
  }

  /** All slots hold elements that agree with a hash in all bits but the last three. */
  predicate Inseparable(t: seq<Element>, hash: int) {
    forall i | 0 <= i < |t| :: t[i].hash >= 0 && t[i].hash / 8 == hash / 8
  }

  lemma AgreeInseparable(t: seq<Element>, hash: int)
    requires HashesOk(t) && Used(t) == |t| && 0 <= hash && Agree(t, hash, MAX_DIR_BITS)
    ensures Inseparable(t, hash)
  {
    UsedFull(t);
    forall i | 0 <= i < |t| ensures t[i].hash / 8 == hash / 8 {
      PrefixIsQuotient(t[i].hash, MAX_DIR_BITS);
      PrefixIsQuotient(hash, MAX_DIR_BITS);
    }
  }

  /** All elements agree with a hash in its first k bits. */
  ghost predicate Agree(t: seq<Element>, hash: int, k: nat)
    requires 0 <= hash && k <= 31 && HashesOk(t)
  {
    forall i | 0 <= i < |t| && !Free(t[i]) :: Prefix(t[i].hash, k) == Prefix(hash, k)
  }

  ghost predicate SameContents(t: seq<Element>, u: seq<Element>) {
    forall e: Element | e.hash >= 0 :: multiset(u)[e] == multiset(t)[e]
  }

  lemma ContentsAgree(t: seq<Element>, u: seq<Element>, hash: int, k: nat)
    requires 0 <= hash && k <= 31 && HashesOk(t) && HashesOk(u) && SameContents(t, u) && Agree(u, hash, k)
    ensures Agree(t, hash, k)
  {
    forall i | 0 <= i < |t| && !Free(t[i]) ensures Prefix(t[i].hash, k) == Prefix(hash, k) {
      InTable(t, i);
      assert t[i] in u;
    }
  }

  /** If the chosen half is full again it has the same contents. */
  lemma ChosenAll(full: Bucket, bits: nat, table: seq<Element>, hash: int)
    requires 0 <= hash && Chosen(full, bits, |full.table|, table, hash) && Used(full.table) == |full.table|
    ensures SameContents(full.table, table)
  {
    forall e: Element | e.hash >= 0 && Side(e.hash, bits) != Side(hash, bits) ensures multiset(full.table)[e] == 0 {
      assert e !in full.table;
    }
  }

  /** A full bucket that a directory cannot separate from the wanted hash leaves a full half of the
      same kind. */
  lemma StillStuck(full: Bucket, half: Bucket, hash: int)
    requires 0 <= hash && Chosen(full, half.bits, half.count, half.table, hash) && half.bits <= MAX_DIR_BITS
    requires |half.table| == |full.table| && half.count == Used(half.table) && Inseparable(full.table, hash)
    ensures half.count == |half.table| && Inseparable(half.table, hash)
  {
    forall e: Element ensures multiset(full.table)[e] <= multiset(half.table)[e] {
      if e in full.table {
        SameSide(e.hash, hash, half.bits);
      }
    }
    assert multiset(half.table) == multiset(full.table) + (multiset(half.table) - multiset(full.table));
    forall i | 0 <= i < |half.table| ensures half.table[i].hash >= 0 && half.table[i].hash / 8 == hash / 8 {
      InTable(half.table, i);
      assert half.table[i] in full.table;
    }
    UsedFull(half.table);
  }

  lemma SameSide(x: int, y: int, bits: nat)
    requires 0 <= x && 0 <= y && x / 8 == y / 8 && bits <= MAX_DIR_BITS
    ensures Side(x, bits) == Side(y, bits)
  {
    SamePrefix(x, y, bits);
  }

  /** Hashes that agree in b bits agree in fewer. */
  lemma PrefixFacts(x: int, y: int, a: nat, b: nat)
    requires 0 <= x && 0 <= y && a <= b <= 31
    ensures Prefix(x, b) == Prefix(y, b) ==> Prefix(x, a) == Prefix(y, a)
  {
    ShrShr(x, 31 - b, b - a);
    ShrShr(y, 31 - b, b - a);
  }

  /** The table is the half of a full bucket that a hash leads to; if it is full again, every element
      was on that side. */
  ghost predicate Chosen(full: Bucket, bits: nat, count: int, table: seq<Element>, hash: int)
    requires 0 <= hash
  {
    && bits == full.bits + 1 <= 31 && HashesOk(full.table)
    && HoldsSide(full.table, table, bits, Side(hash, bits))
    && (count == |full.table| ==>
          forall i | 0 <= i < |full.table| :: full.table[i].hash >= 0 && Side(full.table[i].hash, bits) == Side(hash, bits))
  }

  lemma ChosenHalf(n: nat, full: Bucket, k: nat, b0: Bucket, b1: Bucket, hash: int)
    requires full.bits == k < 31 && BucketOk(full, n) && full.count == n && 0 <= hash
    requires b0.bits == b1.bits == k + 1 && Shared(full.table, b0.table, b1.table, b0.count, b1.count, k + 1) && |b0.table| == n
    ensures var b := if Side(hash, k + 1) == 0 then b0 else b1; Chosen(full, b.bits, b.count, b.table, hash)
  {
    var side := Side(hash, k + 1);
    var b := if side == 0 then b0 else b1;
    if b.count == n {
      OneSideFull(full.table, b0.table, b1.table, k + 1, side);
    }
  }

  /** What a finished round has made of the directory and the cache. */
  lemma RoundDone(s: Split, cut: Cut, r: Round, cache2: seq<Slot>, slot: nat, disk: map<int, Bucket>, dir2: seq<int>, hash: int)
    requires SplitReady(s.n, s.bits, s.dir, s.view, s.i, cut.k, s.b0, s.b1) && cut.Of(s.i, s.bits) && |dir2| == |s.dir|
    requires s.adr0 == r.adr0 && s.adr1 == r.adr1 && s.adr0 != s.adr1 && s.adr0 != 0 && s.adr1 != 0
    requires s.adr0 !in s.view && s.adr1 !in s.view
    requires Repointed(s.dir, dir2, cut.start0, cut.start1, cut.end, s.adr0, s.adr1)
    requires CacheOk(r.base, disk, s.view) && Installed(r, cache2, slot) && r.base[slot].adr == s.dir[s.i] != 0
    requires r.c0 != r.c1 && r.c0 != slot && r.c1 != slot && !r.base[r.c0].changed && !r.base[r.c1].changed
    requires SameButAvailB(s.b0, cache2[r.c0].bucket) && SameButAvailB(s.b1, cache2[r.c1].bucket)
    requires |cache2[r.c0].bucket.avail| <= BUCKET_AVAIL && |cache2[r.c1].bucket.avail| <= BUCKET_AVAIL
    requires 0 <= hash < HASH_LIMIT && Prefix(hash, cut.k) == Run(s.i, s.bits, cut.k)
    ensures var view2 := (s.view - {s.dir[s.i]})[s.adr0 := cache2[r.c0].bucket][s.adr1 := cache2[r.c1].bucket];
            && DirOk(s.n, s.bits, dir2, view2) && CacheOk(cache2, disk, view2)
            && forall e: Element | 0 <= e.hash < HASH_LIMIT :: Stored(s.bits, dir2, view2, e) == Stored(s.bits, s.dir, s.view, e)
    ensures Prefix(hash, s.bits) < |dir2| && dir2[Prefix(hash, s.bits)] == if Side(hash, cut.k + 1) == 0 then s.adr0 else s.adr1
  {
    hide CacheOk, Half, Run, Prefix, Repointed, HalfStart, Stored, OneRunEach, PrefixesOk, Probed, Used, HoldsSide;
    var s2 := s.(b0 := cache2[r.c0].bucket, b1 := cache2[r.c1].bucket, dir2 := dir2);
    SplitMade(s2, cut, s.b0, s.b1);
    SplitKeeps(s2);
    InstallKeeps(r, cache2, slot, disk, s.view);
    SplitLeads(s2, hash);
    forall e: Element | 0 <= e.hash < HASH_LIMIT
      ensures Stored(s.bits, dir2, s2.View2(), e) == Stored(s.bits, s.dir, s.view, e)
    {
      SplitStored(s2, e);
    }
  }

  /** The two new buckets are in the cache and the entry of the split bucket is invalid. */
  ghost predicate Installed(r: Round, cache2: seq<Slot>, slot: nat) {
    && |cache2| == |r.base| && slot < |cache2| && r.c0 < |cache2| && r.c1 < |cache2|
    && cache2[r.c0].adr == r.adr0 && cache2[r.c0].changed && cache2[r.c1].adr == r.adr1 && cache2[r.c1].changed
    && cache2[slot].adr == 0 && !cache2[slot].changed
    && forall i | 0 <= i < |cache2| && i != r.c0 && i != r.c1 && i != slot :: cache2[i] == r.base[i]
  }

  lemma InstallKeeps(r: Round, cache2: seq<Slot>, slot: nat, disk: map<int, Bucket>, view: map<int, Bucket>)
    requires CacheOk(r.base, disk, view) && Installed(r, cache2, slot)
    requires r.c0 != r.c1 && r.c0 != slot && r.c1 != slot && r.base[slot].adr != 0
    requires !r.base[r.c0].changed && !r.base[r.c1].changed
    requires r.adr0 !in view && r.adr1 !in view && r.adr0 != 0 && r.adr1 != 0 && r.adr0 != r.adr1
    ensures CacheOk(cache2, disk, (view - {r.base[slot].adr})[r.adr0 := cache2[r.c0].bucket][r.adr1 := cache2[r.c1].bucket])
  {
    ReplaceKeeps(r.base, disk, view, r.c0, r.c1, slot, r.adr0, r.adr1, cache2[r.c0].bucket, cache2[r.c1].bucket,
                 cache2[slot].bucket);
    assert cache2 == r.base[r.c0 := cache2[r.c0]][r.c1 := cache2[r.c1]][slot := cache2[slot]];
  }

  /** After a split the directory leads a hash of the split run to the half its next bit selects. */
  lemma SplitLeads(s: Split, hash: int)
    requires s.Ok() && 0 <= hash < HASH_LIMIT && Prefix(hash, s.K()) == s.R()
    ensures Prefix(hash, s.bits) < |s.dir2|
    ensures s.dir2[Prefix(hash, s.bits)] == if Side(hash, s.K() + 1) == 0 then s.adr0 else s.adr1
  {
    HashIndex(hash, s.bits);
    HashRun(hash, s.bits, s.K() + 1);
    PrefixParent(hash, s.K());
    SplitEntry(s, Prefix(hash, s.bits));
  }

  /** What a split round has taken: the cache before, two entries and two addresses. */
  datatype Round = Round(base: seq<Slot>, c0: nat, c1: nat, adr0: int, adr1: int)

  ghost predicate SameButAvailB(a: Bucket, b: Bucket) {
    b == a.(avail := b.avail)
  }

  ghost predicate OnlyAvailChanged(before: seq<Slot>, after: seq<Slot>, i: nat) {
    && i < |before| == |after|
    && after == before[i := before[i].(bucket := before[i].bucket.(avail := after[i].bucket.avail))]
  }

  ghost predicate SameButTable(a: Slot, b: Slot) {
    b == a.(bucket := a.bucket.(table := b.bucket.table, count := b.bucket.count))
  }

  ghost predicate SameButAvail(a: Slot, b: Slot) {
    b == a.(bucket := a.bucket.(avail := b.bucket.avail))
  }

  ghost predicate Emptied(s: Slot, bits: nat, adr: int) {
    && s.adr == adr && s.bucket.bits == bits && s.bucket.count == 0
    && forall i | 0 <= i < |s.bucket.table| :: Free(s.bucket.table[i])
  }

  /** `(last + 1) % n`; `last` is -1 before the first use. */
  function Advance(last: int, n: nat): (r: int)
    requires -1 <= last < n && n > 0
    ensures r == if last + 1 == n then 0 else last + 1
  {
    assert last + 1 < n ==> (last + 1) % n == last + 1;
    (last + 1) % n
  }

  /** The entry reached by advancing, once more if that is the current entry. */
  function SkipTo(last: int, entry: nat, n: nat): int
    requires -1 <= last < n && n > 0
  {
    var a := Advance(last, n);
    if a == entry then Advance(a, n) else a
  }

  /** A directory fills whole blocks. */
  lemma WholeBlocks(bits: nat, blockBits: nat)
    requires blockBits <= bits
    ensures RoundUp(OFF_T * Pow2(bits), OFF_T * Pow2(blockBits)) == OFF_T * Pow2(bits)
  {
    hide Pow2, RoundUp;
    var blocks, p := Pow2(bits - blockBits), Pow2(blockBits);
    Pow2Sum(bits - blockBits, blockBits);
    assert blocks * (OFF_T * p) == OFF_T * (blocks * p);
    RoundUpWhole(blocks, OFF_T * p);
  }

  lemma NoneStored(bits: nat, dir: seq<int>, adr: int, b: Bucket)
    requires bits <= 31 && |dir| == Pow2(bits) && (forall i | 0 <= i < |dir| :: dir[i] == adr)
    requires forall i | 0 <= i < |b.table| :: Free(b.table[i])
    ensures forall e: Element | 0 <= e.hash < HASH_LIMIT :: Stored(bits, dir, map[adr := b], e) == 0
  {
  }

  lemma LiveBuckets(n: nat, bits: nat, dir: seq<int>, view: map<int, Bucket>)
    requires DirOk(n, bits, dir, view)
    ensures forall a | a in view :: a != 0 && |view[a].table| == n && |view[a].avail| <= BUCKET_AVAIL
    ensures |dir| == Pow2(bits) && forall i | 0 <= i < |dir| :: dir[i] in view
  {
  }

  /** The file of one bucket has one free region. */
  lemma FirstSpare(adr: int, b: Bucket, inUse: map<int, int>, blockSize: int)
    requires blockSize > 0 && adr == 2 * blockSize && b.avail == [Avail(blockSize, 3 * blockSize)]
    requires inUse == map[blockSize := blockSize, adr := blockSize]
    ensures Tidy(multiset([]) + BucketFree(map[adr := b]), inUse, 4 * blockSize)
  {
    var none: map<int, Bucket> := map[];
    BucketFreeSet(none, adr, b);
    assert none[adr := b] == map[adr := b] && none - {adr} == none;
    assert BucketFree(none) == multiset{};
    assert multiset([]) + BucketFree(map[adr := b]) == multiset{Avail(blockSize, 3 * blockSize)};
  }

  lemma FirstSets(adr: int, b: Bucket, inUse: map<int, int>, blockSize: int)
    requires blockSize > 0 && adr == 2 * blockSize && inUse == map[blockSize := blockSize, adr := blockSize]
    ensures SpaceSets((map[adr := b]).Keys, inUse, blockSize, 4 * blockSize)
  {
  }

  lemma NoneCached(cache: seq<Slot>, view: map<int, Bucket>)
    requires forall i | 0 <= i < |cache| :: cache[i].adr == 0 && !cache[i].changed
    requires 0 !in view
    ensures CacheOk(cache, view, view)
  {
  }

  lemma SmallBlocks(dirBits: nat)
    requires dirBits <= 26
    ensures 4 * (OFF_T * Pow2(dirBits)) <= INT_MAX
  {
    Pow2Of31();
    assert Pow2(28) == 4 * Pow2(26) && Pow2(31) == 8 * Pow2(28);
    Pow2Grows(dirBits, 26);
  }

  /** With three entries or more, the two victims of a split differ. */
  lemma VictimsDiffer(last: int, entry: nat, n: nat)
    requires n >= 3 && -1 <= last < n && entry < n
    ensures SkipTo(SkipTo(last, entry, n), entry, n) != SkipTo(last, entry, n)
    ensures SkipTo(last, entry, n) != entry
  {
  }

  /** With two entries they are the same one: the two new buckets would share an entry. */
  lemma VictimsCoincide(last: int, entry: nat)
    requires -1 <= last < 2 && entry < 2
    ensures SkipTo(SkipTo(last, entry, 2), entry, 2) == SkipTo(last, entry, 2)
  {
  }

  /** `x | 1`. */
  function OrOne(x: nat): nat {
    if x % 2 == 0 then x + 1 else x
  }

  /** Where the run of an index is cut, from its odd half; the run ends inside the directory. */
  lemma RunCut(i: nat, bits: nat, k: nat, half: nat)
    requires k < bits && i < Pow2(bits) && half == OrOne(Shr(i, bits - k - 1))
    ensures half == 2 * Run(i, bits, k) + 1
    ensures HalfStart(bits, k, half) - HalfStart(bits, k, half - 1) == HalfStart(bits, k, half + 1) - HalfStart(bits, k, half)
    ensures HalfStart(bits, k, half - 1) <= HalfStart(bits, k, half) <= HalfStart(bits, k, half + 1) <= Pow2(bits)
  {
    hide Pow2;
    var m := bits - k - 1;
    ShlStep(half - 1, m);
    ShlStep(half, m);
    var r := Run(i, bits, k);
    ShrBound(i, bits - k, k);
    ShlStep(r + 1, m);
    RunEnd(r + 1, bits - k, k);
  }

  /** Prefixes of m bits, shifted back, stay inside the directory. */
  lemma {:induction false} RunEnd(p: nat, n: nat, m: nat)
    requires p <= Pow2(m)
    ensures Shl(p, n) <= Pow2(n + m)
    decreases n
  {
    if n > 0 {
      RunEnd(p, n - 1, m);
    }
  }
}
