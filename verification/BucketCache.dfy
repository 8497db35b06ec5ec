/** The write-back bucket cache laid over the database file. */
module BucketCache {
  import opened Directory

  /** One cache entry. Address 0 marks an entry that holds no bucket of the file. */
  datatype Slot = Slot(bucket: Bucket, adr: int, changed: bool)

  /** The cache over the file shows exactly the logical buckets `view`. */
  ghost predicate CacheOk(cache: seq<Slot>, disk: map<int, Bucket>, view: map<int, Bucket>) {
    && (forall i, j | 0 <= i < j < |cache| && cache[i].adr != 0 :: cache[i].adr != cache[j].adr)
    && (forall i | 0 <= i < |cache| && cache[i].adr == 0 :: !cache[i].changed)
    && (forall i | 0 <= i < |cache| && cache[i].adr != 0 :: InView(cache[i], disk, view))
    && (forall a | a in view && a != 0 :: Cached(cache, a) || (a in disk && disk[a] == view[a]))
  }

  ghost predicate InView(s: Slot, disk: map<int, Bucket>, view: map<int, Bucket>) {
    s.adr in view && view[s.adr] == s.bucket && (!s.changed ==> s.adr in disk && disk[s.adr] == s.bucket)
  }

  ghost predicate Cached(cache: seq<Slot>, a: int) {
    exists i | 0 <= i < |cache| :: cache[i].adr == a
  }

  /** Writing a changed entry out changes nothing that can be seen. */
  lemma WriteKeeps(cache: seq<Slot>, disk: map<int, Bucket>, view: map<int, Bucket>, i: nat)
    requires CacheOk(cache, disk, view) && i < |cache| && cache[i].adr != 0
    ensures CacheOk(cache[i := cache[i].(changed := false)], disk[cache[i].adr := cache[i].bucket], view)
  {
    var cache2 := cache[i := cache[i].(changed := false)];
    forall a | Cached(cache, a) ensures Cached(cache2, a) {
      var k :| 0 <= k < |cache| && cache[k].adr == a;
      assert cache2[k].adr == a;
    }
  }

  /** An entry that is not changed may be given up; one address of the file may be read into it. */
  lemma ReadKeeps(cache: seq<Slot>, disk: map<int, Bucket>, view: map<int, Bucket>, i: nat, a: int)
    requires CacheOk(cache, disk, view) && i < |cache| && !cache[i].changed
    requires a in view && a != 0 && !Cached(cache, a)
    ensures a in disk && CacheOk(cache[i := Slot(disk[a], a, false)], disk, view)
  {
    var cache2 := cache[i := Slot(disk[a], a, false)];
    assert cache2[i].adr == a;
    forall x | Cached(cache, x) && x != cache[i].adr ensures Cached(cache2, x) {
      var k :| 0 <= k < |cache| && cache[k].adr == x;
      assert cache2[k].adr == x;
    }
    forall k, l | 0 <= k < l < |cache2| && cache2[k].adr != 0 ensures cache2[k].adr != cache2[l].adr {
      assert !Cached(cache, a) ==> cache[k].adr != a && cache[l].adr != a;
    }
  }

  /** Three entries change at once: two new buckets appear and the old one is invalidated. */
  lemma ReplaceKeeps(cache: seq<Slot>, disk: map<int, Bucket>, view: map<int, Bucket>,
                     c0: nat, c1: nat, cur: nat, adr0: int, adr1: int, b0: Bucket, b1: Bucket, gone: Bucket)
    requires CacheOk(cache, disk, view)
    requires c0 < |cache| && c1 < |cache| && cur < |cache| && c0 != c1 && c0 != cur && c1 != cur
    requires !cache[c0].changed && !cache[c1].changed && cache[cur].adr != 0
    requires adr0 !in view && adr1 !in view && adr0 != 0 && adr1 != 0 && adr0 != adr1
    ensures CacheOk(cache[c0 := Slot(b0, adr0, true)][c1 := Slot(b1, adr1, true)][cur := Slot(gone, 0, false)],
                    disk, (view - {cache[cur].adr})[adr0 := b0][adr1 := b1])
  {
    var cache2 := cache[c0 := Slot(b0, adr0, true)][c1 := Slot(b1, adr1, true)][cur := Slot(gone, 0, false)];
    var view2 := (view - {cache[cur].adr})[adr0 := b0][adr1 := b1];
    assert cache2[c0].adr == adr0 && cache2[c1].adr == adr1;
    forall i | 0 <= i < |cache2| && cache2[i].adr != 0 ensures InView(cache2[i], disk, view2) {
      if i != c0 && i != c1 {
        assert InView(cache[i], disk, view);
      }
    }
    forall a | Cached(cache, a) && a != cache[c0].adr && a != cache[c1].adr && a != cache[cur].adr
      ensures Cached(cache2, a)
    {
      var k :| 0 <= k < |cache| && cache[k].adr == a;
      assert cache2[k].adr == a;
    }
  }

  /** Storing a new bucket image in the current entry. */
  lemma StoreKeeps(cache: seq<Slot>, disk: map<int, Bucket>, view: map<int, Bucket>, i: nat, b: Bucket)
    requires CacheOk(cache, disk, view) && i < |cache| && cache[i].adr != 0
    ensures CacheOk(cache[i := Slot(b, cache[i].adr, true)], disk, view[cache[i].adr := b])
  {
    var cache2 := cache[i := Slot(b, cache[i].adr, true)];
    forall a | Cached(cache, a) ensures Cached(cache2, a) {
      var k :| 0 <= k < |cache| && cache[k].adr == a;
      assert cache2[k].adr == a;
    }
    forall k | 0 <= k < |cache2| && k != i && cache2[k].adr != 0
      ensures InView(cache2[k], disk, view[cache[i].adr := b])
    {
      assert InView(cache[k], disk, view);
    }
  }
}
