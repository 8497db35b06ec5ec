/** The tally server: sums by bucket and key, handed out and reset a bucket at a time. */
module TallyServer {
  import opened Options
  import opened Words

  datatype Sum = Sum(count: int, total: int)

  type Table = map<string, Sum>

  /** Exact numbers of requests and exact totals, by bucket and key. */
  type Amounts = (string, string) -> Sum

  const ZERO := Sum(0, 0)

  /** A request, as the server reads it. */
  datatype Request = Request(bucket: string, key: string, value: int)

  /** How many requests there are for a key, and the sum of their values. */
  function SumOf(log: seq<Request>, bucket: string, key: string): Sum {
    if log == [] then ZERO else
      var last, before := log[|log| - 1], SumOf(log[..|log| - 1], bucket, key);
      if last.bucket == bucket && last.key == key then Sum(before.count + 1, before.total + last.value) else before
  }

  lemma SumOfNext(log: seq<Request>, last: Request, bucket: string, key: string)
    ensures SumOf(log + [last], bucket, key)
         == if last.bucket == bucket && last.key == key
            then Sum(SumOf(log, bucket, key).count + 1, SumOf(log, bucket, key).total + last.value)
            else SumOf(log, bucket, key)
  {
    assert (log + [last])[..|log|] == log;
  }

  function Plus(a: Sum, b: Sum): Sum {
    Sum(a.count + b.count, a.total + b.total)
  }

  /** What two unsigned 32-bit variables show of exact amounts. */
  function Shown(a: Sum): Sum {
    Sum(a.count % WORD, a.total % WORD)
  }

  /** Adding one request to what is shown. */
  function Counted(a: Sum, value: int): Sum {
    Sum((a.count + 1) % WORD, (a.total + value) % WORD)
  }

  lemma CountedShown(a: Sum, value: int)
    ensures Counted(Shown(a), value) == Shown(Plus(a, Sum(1, value)))
  {
  }

  lemma ShownZero()
    ensures Shown(ZERO) == ZERO
  {
  }

  ghost function With(a: Amounts, bucket: string, key: string, s: Sum): Amounts {
    (b, k) => if b == bucket && k == key then s else a(b, k)
  }

  /** The sum of two amounts, the second taken for one bucket only. */
  ghost function Add(a: Amounts, d: Amounts, bucket: string): Amounts {
    (b, k) => if b == bucket then Plus(a(b, k), d(b, k)) else a(b, k)
  }

  ghost function Without(a: Amounts, bucket: string): Amounts {
    (b, k) => if b == bucket then ZERO else a(b, k)
  }

  class Server {
    var buckets: map<string, Option<Table>>   // None: the table has been handed out
    ghost var log: seq<Request>               // all that has come in
    ghost var received: Amounts
    ghost var drained: Amounts
    ghost var since: Amounts                  // received, and not drained yet

    ghost predicate HasSum(bucket: string, key: string)
      reads this`buckets
    {
      bucket in buckets && buckets[bucket].Some? && key in buckets[bucket].value
    }

    ghost predicate TableOk(b: string, k: string)
      reads this`buckets, this`since
    {
      if HasSum(b, k) then buckets[b].value[k] == Shown(since(b, k)) else since(b, k) == ZERO
    }

    ghost predicate NothingLost(b: string, k: string)
      reads this`log, this`received, this`drained, this`since
    {
      && received(b, k) == SumOf(log, b, k)
      && received(b, k).count == drained(b, k).count + since(b, k).count
      && received(b, k).total == drained(b, k).total + since(b, k).total
    }

    /** The tables show what has come in since they were last handed out, and nothing is lost or
        counted twice: received is drained plus what is still in the tables. */
    ghost predicate Valid()
      reads this
    {
      (forall b, k :: TableOk(b, k)) && (forall b, k :: NothingLost(b, k))
    }

    constructor ()
      ensures Valid() && log == [] && forall b, k :: received(b, k) == drained(b, k) == since(b, k) == ZERO
    {
      buckets, log := map[], [];
      received, drained, since := (b, k) => ZERO, (b, k) => ZERO, (b, k) => ZERO;
    }

    /** Makes sure that a bucket has a table and the table an entry. */
    method GetSum(bucket: string, key: string) returns (sum: Sum)
      requires Valid()
      modifies this`buckets
      ensures Valid() && HasSum(bucket, key) && sum == buckets[bucket].value[key]
    {
      hide Shown;
      ShownZero();
      if bucket !in buckets || buckets[bucket].None? {
        buckets := buckets[bucket := Some(map[])];
      }
      assert old(TableOk(bucket, key));
      if key !in buckets[bucket].value {
        buckets := buckets[bucket := Some(buckets[bucket].value[key := Sum(0, 0)])];
      }
      sum := buckets[bucket].value[key];
      forall b, k ensures TableOk(b, k) {
        assert old(TableOk(b, k));
      }
    }

    /** Adds one request to its sum. */
    method Receive(bucket: string, key: string, value: int)
      requires Valid() && 0 <= value < WORD
      modifies this
      ensures Valid() && drained == old(drained) && log == old(log) + [Request(bucket, key, value)]
      ensures since == With(old(since), bucket, key,
                            Sum(old(since)(bucket, key).count + 1, old(since)(bucket, key).total + value))
      ensures received == With(old(received), bucket, key,
                               Sum(old(received)(bucket, key).count + 1, old(received)(bucket, key).total + value))
    {
      hide Shown, Counted, SumOf;
      var sum := GetSum(bucket, key);
      label found:
      assert TableOk(bucket, key) && NothingLost(bucket, key);
      CountedShown(since(bucket, key), value);
      sum := CountOne(sum, value);
      buckets := buckets[bucket := Some(buckets[bucket].value[key := sum])];
      since := With(since, bucket, key, Plus(since(bucket, key), Sum(1, value)));
      received := With(received, bucket, key, Plus(received(bucket, key), Sum(1, value)));
      log := log + [Request(bucket, key, value)];
      forall b, k ensures TableOk(b, k) {
        assert old@found(TableOk(b, k));
      }
      forall b, k ensures NothingLost(b, k) {
        assert old@found(NothingLost(b, k));
        SumOfNext(old(log), Request(bucket, key, value), b, k);
      }
    }

    /** Reports a bucket; with drain, its table is taken away in the same critical section. */
    method Get(bucket: string, drain: bool) returns (table: Table)
      requires Valid()
      modifies this
      ensures Valid() && received == old(received) && log == old(log)
      ensures forall k :: if k in table then table[k] == Shown(old(since)(bucket, k)) else old(since)(bucket, k) == ZERO
      ensures !drain ==> buckets == old(buckets) && drained == old(drained) && since == old(since)
      ensures drain ==> since == Without(old(since), bucket) && drained == Add(old(drained), old(since), bucket)
    {
      hide Shown;
      table := map[];
      if bucket in buckets {
        if buckets[bucket].Some? {
          table := buckets[bucket].value;
        }
        if drain {
          buckets := buckets[bucket := None];
        }
      }
      forall k ensures if k in table then table[k] == Shown(since(bucket, k)) else since(bucket, k) == ZERO {
        assert old(TableOk(bucket, k));
      }
      if drain {
        drained := Add(drained, since, bucket);
        since := Without(since, bucket);
      }
      forall b, k ensures TableOk(b, k) && NothingLost(b, k) {
        assert old(TableOk(b, k)) && old(NothingLost(b, k));
      }
    }
  }

  /** What a table shows for a key that has never been drained: how many requests there were for it and
      the sum of their values, modulo 2^32. */
  lemma ShowsSums(server: Server, bucket: string, key: string)
    requires server.Valid() && server.drained(bucket, key) == ZERO && server.HasSum(bucket, key)
    ensures var sum, all := server.buckets[bucket].value[key], SumOf(server.log, bucket, key);
            sum.count == all.count % WORD && sum.total == all.total % WORD
  {
    assert server.TableOk(bucket, key) && server.NothingLost(bucket, key);
  }

  /** `++count; total += value` on unsigned variables. */
  method CountOne(sum: Sum, value: int) returns (r: Sum)
    ensures r == Counted(sum, value) && r.count == (sum.count + 1) % WORD && r.total == (sum.total + value) % WORD
  {
    r := Sum((sum.count + 1) % WORD, (sum.total + value) % WORD);
  }
}
