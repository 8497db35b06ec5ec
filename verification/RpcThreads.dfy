/** Threads that run jobs over one pool of connections, their steps interleaved in any way. */
module RpcThreads {
  import opened Options
  import opened RpcPool

  /** Where a thread is between two of its critical sections. */
  datatype Stage =
    | Resting
    | Taking(timedOut: bool)              // about to take a connection off the list
    | Waiting                             // for a connection to be given back
    | Checking(c: nat, timedOut: bool)    // outside the lock
    | Uncounting(c: nat, timedOut: bool)  // has closed a dropped connection
    | Dialing                             // outside the lock
    | Working                             // all jobs have a connection
    | Giving(k: nat, ok: seq<bool>)       // connection k is the next to be given up
    | Closing(c: nat, k: nat, ok: seq<bool>)

  /** A run of jobs: the connections that have been looked for, -1 where there was none; and whether
      the jobs have been attempted. */
  datatype Thread = Thread(stage: Stage, njob: nat, conns: seq<int>, tried: bool)

  /** The listener between two sections of the scan that follows an accept. */
  datatype Scan = NoScan | Scanning(rest: seq<nat>, kept: seq<nat>, ndrop: nat)

  /** What happens next, and what the thread finds: a wait that timed out, a dropped connection, a
      connection that could be made; whether a connection is kept alive; the outcome of the jobs. */
  datatype Event =
    | Begin(t: nat, njob: nat)
    | Advance(t: nat, yes: bool, keep: bool, ok: seq<bool>)
    | Connected
    | ScanOn(dropped: bool)

  predicate AllGot(conns: seq<int>) {
    forall k | 0 <= k < |conns| :: conns[k] >= 0
  }

  predicate Distinct(conns: seq<int>) {
    forall i, j | 0 <= i < j < |conns| && conns[i] >= 0 :: conns[i] != conns[j]
  }

  /** The connections before this one have been given up. */
  function FirstHeld(th: Thread): nat {
    match th.stage
    case Resting => |th.conns|
    case Giving(k, _) => k
    case Closing(_, k, _) => k
    case _ => 0
  }

  predicate ThreadOk(th: Thread) {
    && (forall k | 0 <= k < |th.conns| :: th.conns[k] >= -1) && Distinct(th.conns) && FirstHeld(th) <= |th.conns|
    && match th.stage
       case Resting => Over(th)
       case Working => |th.conns| == th.njob && AllGot(th.conns) && !th.tried
       case Giving(k, ok) => Over(th) && |ok| == th.njob
       case Closing(c, k, ok) => Over(th) && |ok| == th.njob && c !in th.conns[k..]
       case Checking(c, _) => Getting(th) && c !in th.conns
       case Uncounting(c, _) => Getting(th) && c !in th.conns
       case _ => Getting(th)
  }

  predicate Getting(th: Thread) {
    |th.conns| < th.njob && !th.tried
  }

  /** The jobs have all been attempted if there was a connection for each of them, and none otherwise. */
  predicate Over(th: Thread) {
    |th.conns| == th.njob && (th.tried <==> AllGot(th.conns))
  }

  /** Where a connection is, if a thread works with it. */
  function OwnedAt(place: Places, c: nat, t: nat): Option<Place> {
    if c in place && Owner(place[c]) == Some(t) then Some(place[c]) else None
  }

  /** Where it should be. */
  function Expected(t: nat, th: Thread, c: nat): Option<Place>
    requires FirstHeld(th) <= |th.conns|
  {
    if th.stage.Checking? && th.stage.c == c then Some(Probing(t))
    else if th.stage.Uncounting? && th.stage.c == c then Some(ProbeClosed(t))
    else if th.stage.Closing? && th.stage.c == c then Some(Leaving(t))
    else if c in th.conns[FirstHeld(th)..] then Some(Held(t))
    else None
  }

  /** A thread works with exactly the connections of its stage. */
  ghost predicate Agrees(t: nat, th: Thread, place: Places) {
    ThreadOk(th) && forall c: nat :: OwnedAt(place, c, t) == Expected(t, th, c)
  }

  /** What the scan has of a connection. */
  function ScanAt(place: Places, c: nat): Option<Place> {
    if c in place && (place[c].Scanned? || place[c].ScanClosed?) then Some(place[c]) else None
  }

  ghost predicate ScanOk(scan: Scan, place: Places) {
    match scan
    case NoScan => forall c: nat :: ScanAt(place, c) == None
    case Scanning(rest, kept, ndrop) =>
      && (forall i, j | 0 <= i < j < |rest + kept| :: (rest + kept)[i] != (rest + kept)[j])
      && (forall c: nat :: ScanAt(place, c) == Some(Scanned) <==> c in rest + kept)
      && ndrop == |At(place, ScanClosed)|
  }

  /** The step changed nothing for other threads and for the scan. */
  ghost predicate OnlyFor(t: nat, place: Places, place2: Places) {
    && (forall c: nat, u: nat | u != t :: OwnedAt(place2, c, u) == OwnedAt(place, c, u))
    && (forall c: nat :: ScanAt(place2, c) == ScanAt(place, c))
  }

  lemma MoveOnlyFor(t: nat, place: Places, c: nat, p: Place)
    requires c in place ==> ScanAt(place, c).None? && (Owner(place[c]) == None || Owner(place[c]) == Some(t))
    requires (Owner(p) == None || Owner(p) == Some(t)) && !p.Scanned? && !p.ScanClosed?
    ensures OnlyFor(t, place, place[c := p])
    ensures forall x: nat | x != c :: OwnedAt(place[c := p], x, t) == OwnedAt(place, x, t)
  {
  }

  lemma ScanKept(scan: Scan, place: Places, place2: Places)
    requires ScanOk(scan, place) && forall c: nat :: ScanAt(place2, c) == ScanAt(place, c)
    ensures ScanOk(scan, place2)
  {
    forall c: nat ensures c in At(place2, ScanClosed) <==> c in At(place, ScanClosed) {
      assert ScanAt(place2, c) == ScanAt(place, c);
    }
    assert At(place2, ScanClosed) == At(place, ScanClosed);
  }

  // ---- From stage to stage ----

  /** The next job, after a connection has been found for this one, or -1. */
  function NextJob(th: Thread, c: int): Thread {
    var conns := th.conns + [c];
    Thread(if |conns| < th.njob then Taking(false)
           else if AllGot(conns) then Working
           else Giving(0, seq(th.njob, _ => true)), th.njob, conns, false)
  }

  /** A thread has no connection and does not wait for one. */
  function NoConn(th: Thread, host: bool): Thread {
    if host then th.(stage := Dialing) else NextJob(th, -1)
  }

  /** What a thread finds when it looks at the list. */
  function AfterTake(th: Thread, timedOut: bool, idle: seq<nat>, nsocks: int, httpAvail: int, host: bool): Thread {
    if idle != [] then th.(stage := Checking(idle[0], timedOut))
    else if nsocks > 0 && httpAvail == 0 && !timedOut then th.(stage := Waiting)
    else NoConn(th, host)
  }

  /** What a step makes of a thread: it depends on the pool's list, counters and HTTP connections, and
      on the number of the next connection. */
  function NextThread(th: Thread, e: Event, idle: seq<nat>, nsocks: int, httpAvail: int, host: bool, http: set<nat>,
                      next: nat): Thread
    requires e.Advance? && ThreadOk(th)
  {
    match th.stage
    case Resting => th
    case Taking(timedOut) => AfterTake(th, timedOut, idle, nsocks, httpAvail, host)
    case Waiting => th.(stage := Taking(e.yes))
    case Checking(c, timedOut) => if e.yes then th.(stage := Uncounting(c, timedOut)) else NextJob(th, c)
    case Uncounting(c, timedOut) =>
      var avail := httpAvail + One(c in http);
      if nsocks - 1 > 0 && avail == 0 && !timedOut then AfterTake(th, timedOut, idle, nsocks - 1, avail, host) else NoConn(th, host)
    case Dialing => NextJob(th, if e.yes then next else -1)
    case Working => if |e.ok| == th.njob then th.(stage := Giving(0, e.ok), tried := true) else th
    case Giving(k, ok) =>
      if k == th.njob then th.(stage := Resting)
      else th.(stage := if th.conns[k] >= 0 && (!ok[k] || (th.conns[k] in http && !e.keep)) then Closing(th.conns[k], k + 1, ok)
                        else Giving(k + 1, ok))
    case Closing(_, k, ok) => th.(stage := Giving(k, ok))
  }

  function NextScan(scan: Scan, e: Event, idle: seq<nat>, next: nat): Scan {
    match e
    case Connected => if scan.NoScan? then Scanning(idle + [next], [], 0) else scan
    case ScanOn(dropped) =>
      if scan.NoScan? then scan
      else if scan.rest == [] then NoScan
      else if dropped then Scanning(scan.rest[1..], scan.kept, scan.ndrop + 1)
      else Scanning(scan.rest[1..], [scan.rest[0]] + scan.kept, scan.ndrop)
    case _ => scan
  }

  lemma NextAgrees(t: nat, th: Thread, place: Places, c: int)
    requires (forall k | 0 <= k < |th.conns| :: th.conns[k] >= -1) && Distinct(th.conns) && Getting(th)
    requires c >= -1 && (c >= 0 ==> c !in th.conns)
    requires forall x: nat :: OwnedAt(place, x, t) == if x in th.conns || x == c then Some(Held(t)) else None
    ensures Agrees(t, NextJob(th, c), place)
  {
    var conns, th2 := th.conns + [c], NextJob(th, c);
    assert conns[0..] == conns;
    forall x: nat ensures OwnedAt(place, x, t) == Expected(t, th2, x) {
      assert x in conns <==> x in th.conns || x == c;
    }
  }

  lemma AllConns(th: Thread)
    requires th.stage.Taking? || th.stage.Waiting? || th.stage.Dialing? || th.stage.Checking? || th.stage.Uncounting? || th.stage.Working?
    ensures FirstHeld(th) == 0 && th.conns[0..] == th.conns
  {
  }

  lemma TakeAgrees(t: nat, th: Thread, place: Places, c: nat)
    requires Agrees(t, th, place) && th.stage.Taking? && c in place && place[c].Idle?
    ensures Agrees(t, th.(stage := Checking(c, th.stage.timedOut)), place[c := Probing(t)])
    ensures OnlyFor(t, place, place[c := Probing(t)])
  {
    AllConns(th);
    MoveOnlyFor(t, place, c, Probing(t));
    assert OwnedAt(place, c, t) == Expected(t, th, c);
    forall x: nat | x != c ensures OwnedAt(place[c := Probing(t)], x, t) == Expected(t, th.(stage := Checking(c, th.stage.timedOut)), x) {
      assert OwnedAt(place, x, t) == Expected(t, th, x);
    }
  }

  lemma StillTaking(t: nat, th: Thread, place: Places, stage: Stage)
    requires Agrees(t, th, place) && (th.stage.Taking? || th.stage.Waiting?)
    requires stage.Taking? || stage.Waiting? || stage.Dialing?
    ensures Agrees(t, th.(stage := stage), place)
  {
    AllConns(th);
    forall x: nat ensures OwnedAt(place, x, t) == Expected(t, th.(stage := stage), x) {
      assert OwnedAt(place, x, t) == Expected(t, th, x);
    }
  }

  lemma NoConnAgrees(t: nat, th: Thread, place: Places, host: bool)
    requires Agrees(t, th, place) && th.stage.Taking?
    ensures Agrees(t, NoConn(th, host), place)
  {
    if host {
      StillTaking(t, th, place, Dialing);
    } else {
      AllConns(th);
      forall x: nat ensures OwnedAt(place, x, t) == if x in th.conns || x == -1 then Some(Held(t)) else None {
        assert OwnedAt(place, x, t) == Expected(t, th, x);
      }
      NextAgrees(t, th, place, -1);
    }
  }

  lemma CheckAgrees(t: nat, th: Thread, place: Places)
    requires Agrees(t, th, place) && th.stage.Checking?
    ensures var c := th.stage.c;
            && c in place && place[c] == Probing(t)
            && Agrees(t, th.(stage := Uncounting(c, th.stage.timedOut)), place[c := ProbeClosed(t)])
            && OnlyFor(t, place, place[c := ProbeClosed(t)])
            && Agrees(t, NextJob(th, c), place[c := Held(t)]) && OnlyFor(t, place, place[c := Held(t)])
  {
    var c := th.stage.c;
    AllConns(th);
    assert OwnedAt(place, c, t) == Expected(t, th, c);
    MoveOnlyFor(t, place, c, ProbeClosed(t));
    MoveOnlyFor(t, place, c, Held(t));
    var th2, place2 := th.(stage := Uncounting(c, th.stage.timedOut)), place[c := ProbeClosed(t)];
    forall x: nat ensures OwnedAt(place2, x, t) == Expected(t, th2, x) {
      assert OwnedAt(place, x, t) == Expected(t, th, x);
    }
    forall x: nat ensures OwnedAt(place[c := Held(t)], x, t) == if x in th.conns || x == c then Some(Held(t)) else None {
      assert OwnedAt(place, x, t) == Expected(t, th, x);
    }
    NextAgrees(t, th, place[c := Held(t)], c);
  }

  lemma UncountAgrees(t: nat, th: Thread, place: Places)
    requires Agrees(t, th, place) && th.stage.Uncounting?
    ensures var c := th.stage.c;
            && c in place && place[c] == ProbeClosed(t)
            && Agrees(t, th.(stage := Taking(th.stage.timedOut)), place[c := Gone]) && OnlyFor(t, place, place[c := Gone])
  {
    var c := th.stage.c;
    AllConns(th);
    assert OwnedAt(place, c, t) == Expected(t, th, c);
    MoveOnlyFor(t, place, c, Gone);
    forall x: nat ensures OwnedAt(place[c := Gone], x, t) == Expected(t, th.(stage := Taking(th.stage.timedOut)), x) {
      assert OwnedAt(place, x, t) == Expected(t, th, x);
    }
  }

  lemma DialAgrees(t: nat, th: Thread, place: Places, c: nat)
    requires Agrees(t, th, place) && th.stage.Dialing? && c !in place
    ensures Agrees(t, NextJob(th, -1), place)
    ensures Agrees(t, NextJob(th, c), place[c := Held(t)]) && OnlyFor(t, place, place[c := Held(t)])
  {
    AllConns(th);
    assert OwnedAt(place, c, t) == Expected(t, th, c);
    MoveOnlyFor(t, place, c, Held(t));
    forall x: nat ensures OwnedAt(place, x, t) == if x in th.conns || x == -1 then Some(Held(t)) else None {
      assert OwnedAt(place, x, t) == Expected(t, th, x);
    }
    NextAgrees(t, th, place, -1);
    forall x: nat ensures OwnedAt(place[c := Held(t)], x, t) == if x in th.conns || x == c then Some(Held(t)) else None {
      assert OwnedAt(place, x, t) == Expected(t, th, x);
    }
    NextAgrees(t, th, place[c := Held(t)], c);
  }

  /** A new run of jobs; without jobs there is nothing to get. */
  function Fresh(njob: nat): Thread {
    Thread(if njob == 0 then Working else Taking(false), njob, [], false)
  }

  lemma FreshAgrees(t: nat, njob: nat, place: Places)
    requires forall x: nat :: OwnedAt(place, x, t) == None
    ensures Agrees(t, Fresh(njob), place)
  {
  }

  lemma RestingOwnsNothing(t: nat, th: Thread, place: Places)
    requires Agrees(t, th, place) && th.stage.Resting?
    ensures forall x: nat :: OwnedAt(place, x, t) == None
  {
    forall x: nat ensures OwnedAt(place, x, t) == None {
      assert OwnedAt(place, x, t) == Expected(t, th, x);
    }
  }

  lemma WorkAgrees(t: nat, th: Thread, place: Places, ok: seq<bool>)
    requires Agrees(t, th, place) && th.stage.Working? && |ok| == th.njob
    ensures Agrees(t, th.(stage := Giving(0, ok), tried := true), place)
  {
    forall x: nat ensures OwnedAt(place, x, t) == Expected(t, th.(stage := Giving(0, ok), tried := true), x) {
      assert OwnedAt(place, x, t) == Expected(t, th, x);
    }
  }

  lemma NotLater(conns: seq<int>, k: nat)
    requires Distinct(conns) && k < |conns| && conns[k] >= 0
    ensures conns[k] !in conns[k + 1..]
  {
  }

  /** The thread's connection k is given up. */
  lemma GiveAgrees(t: nat, th: Thread, place: Places, p: Place)
    requires Agrees(t, th, place) && th.stage.Giving? && th.stage.k < th.njob && th.conns[th.stage.k] >= 0
    requires p.Idle? || p == Leaving(t)
    ensures var k, c, ok := th.stage.k, th.conns[th.stage.k], th.stage.ok;
            && IsHeld(place, c, t) && OnlyFor(t, place, place[c := p])
            && Agrees(t, th.(stage := if p.Idle? then Giving(k + 1, ok) else Closing(c, k + 1, ok)), place[c := p])
  {
    hide ThreadOk, OnlyFor, Distinct, AllGot;
    GivingOk(th);
    var k, c, ok := th.stage.k, th.conns[th.stage.k], th.stage.ok;
    var later, place2 := th.conns[k + 1..], place[c := p];
    var th2 := th.(stage := if p.Idle? then Giving(k + 1, ok) else Closing(c, k + 1, ok));
    GivenOk(th, th2);
    assert th.conns[k..] == [c] + later;
    assert OwnedAt(place, c, t) == Expected(t, th, c);
    MoveOnlyFor(t, place, c, p);
    forall x: nat ensures OwnedAt(place2, x, t) == Expected(t, th2, x) {
      assert OwnedAt(place, x, t) == Expected(t, th, x);
      assert x in th.conns[k..] <==> x == c || x in later;
    }
  }

  lemma GivingOk(th: Thread)
    requires ThreadOk(th) && th.stage.Giving?
    ensures |th.conns| == |th.stage.ok| == th.njob
  {
  }

  lemma GivenOk(th: Thread, th2: Thread)
    requires ThreadOk(th) && th.stage.Giving? && th.stage.k < th.njob
    requires th.conns[th.stage.k] >= 0
    requires th2 == th.(stage := Giving(th.stage.k + 1, th.stage.ok))
          || th2 == th.(stage := Closing(th.conns[th.stage.k], th.stage.k + 1, th.stage.ok))
    ensures |th.conns| == |th.stage.ok| == th.njob && ThreadOk(th2) && th.conns[th.stage.k] !in th.conns[th.stage.k + 1..]
  {
    hide AllGot;
    NotLater(th.conns, th.stage.k);
  }

  /** Job k has no connection. */
  lemma SkipAgrees(t: nat, th: Thread, place: Places)
    requires Agrees(t, th, place) && th.stage.Giving? && th.stage.k < th.njob && th.conns[th.stage.k] < 0
    ensures Agrees(t, th.(stage := Giving(th.stage.k + 1, th.stage.ok)), place)
  {
    var k, th2 := th.stage.k, th.(stage := Giving(th.stage.k + 1, th.stage.ok));
    assert th.conns[k..] == [th.conns[k]] + th.conns[k + 1..];
    forall x: nat ensures OwnedAt(place, x, t) == Expected(t, th2, x) {
      assert OwnedAt(place, x, t) == Expected(t, th, x);
    }
  }

  lemma CloseAgrees(t: nat, th: Thread, place: Places)
    requires Agrees(t, th, place) && th.stage.Closing?
    ensures var c := th.stage.c;
            && c in place && place[c] == Leaving(t)
            && Agrees(t, th.(stage := Giving(th.stage.k, th.stage.ok)), place[c := Gone]) && OnlyFor(t, place, place[c := Gone])
  {
    var c := th.stage.c;
    assert OwnedAt(place, c, t) == Expected(t, th, c);
    MoveOnlyFor(t, place, c, Gone);
    forall x: nat ensures OwnedAt(place[c := Gone], x, t) == Expected(t, th.(stage := Giving(th.stage.k, th.stage.ok)), x) {
      assert OwnedAt(place, x, t) == Expected(t, th, x);
    }
  }

  lemma RestAgrees(t: nat, th: Thread, place: Places)
    requires Agrees(t, th, place) && th.stage.Giving? && th.stage.k == th.njob
    ensures Agrees(t, th.(stage := Resting), place)
  {
    forall x: nat ensures OwnedAt(place, x, t) == Expected(t, th.(stage := Resting), x) {
      assert OwnedAt(place, x, t) == Expected(t, th, x);
    }
  }

  lemma OnlyForNothing(t: nat, place: Places)
    ensures OnlyFor(t, place, place)
  {
  }

  lemma OnlyForBoth(t: nat, a: Places, b: Places, c: Places)
    requires OnlyFor(t, a, b) && OnlyFor(t, b, c)
    ensures OnlyFor(t, a, c)
  {
    forall x: nat, u: nat | u != t ensures OwnedAt(c, x, u) == OwnedAt(a, x, u) {
      assert OwnedAt(c, x, u) == OwnedAt(b, x, u) == OwnedAt(a, x, u);
    }
    forall x: nat ensures ScanAt(c, x) == ScanAt(a, x) {
      assert ScanAt(c, x) == ScanAt(b, x) == ScanAt(a, x);
    }
  }

  class Threads {
    const rpc: Rpc
    var threads: map<nat, Thread>
    var scan: Scan
    var next: nat          // the number of the next connection

    ghost predicate ThreadsOk(place: Places)
      reads this`threads
    {
      && (forall t | t in threads :: Agrees(t, threads[t], place))
      && (forall c | c in place && Owner(place[c]).Some? :: Owner(place[c]).value in threads)
    }

    ghost predicate Valid()
      reads this, rpc
    {
      && rpc.Valid() && ThreadsOk(rpc.place) && ScanOk(scan, rpc.place)
      && forall c | c in rpc.place :: c < next
    }

    constructor (host: bool, httpAvail: int)
      ensures Valid() && fresh(rpc) && threads == map[] && scan == NoScan
    {
      rpc := new Rpc(host, httpAvail);
      threads, scan, next := map[], NoScan, 0;
    }

    /** A thread's step: it is the only one that changes, and no other thread's connections do. */
    twostate predicate Stepped(t: nat)
      reads this, rpc
    {
      && t in old(threads) && threads.Keys == old(threads).Keys
      && (forall u | u in threads && u != t :: threads[u] == old(threads)[u])
      && OnlyFor(t, old(rpc.place), rpc.place)
    }

    /** A thread goes on after its connections have changed. */
    method SetThread(t: nat, th: Thread, ghost before: Places)
      requires t in threads && ThreadsOk(before) && OnlyFor(t, before, rpc.place) && Agrees(t, th, rpc.place)
      requires rpc.Valid() && ScanOk(scan, before) && forall c | c in rpc.place :: c < next
      modifies this`threads
      ensures Valid() && threads == old(threads)[t := th]
    {
      hide ThreadOk, Expected;
      ScanKept(scan, before, rpc.place);
      forall c | c in rpc.place && Owner(rpc.place[c]).Some? && Owner(rpc.place[c]).value != t
        ensures Owner(rpc.place[c]).value in threads
      {
        var u := Owner(rpc.place[c]).value;
        assert OwnedAt(before, c, u) == OwnedAt(rpc.place, c, u);
      }
      threads := threads[t := th];
    }

    // ---- Getting a connection ----

    /** With nothing on the list a thread waits, but not if no connection can come back, one may be
        made, or it has waited long enough. */
    predicate MustWait(timedOut: bool)
      reads rpc
    {
      rpc.nsocks > 0 && rpc.httpAvail == 0 && !timedOut
    }

    /** The section in which a thread looks at the list. */
    method Take(t: nat)
      requires Valid() && t in threads && threads[t].stage.Taking?
      modifies this`threads, rpc
      ensures rpc.budget == old(rpc.budget)
      ensures Valid() && Stepped(t) && rpc.nsocks == old(rpc.nsocks) && rpc.httpAvail == old(rpc.httpAvail)
      ensures threads[t] == AfterTake(old(threads)[t], old(threads)[t].stage.timedOut, old(rpc.idle), rpc.nsocks, rpc.httpAvail, rpc.host)
      ensures threads[t].stage.Waiting? <==>
                old(rpc.idle) == [] && rpc.nsocks > 0 && rpc.httpAvail == 0 && !old(threads)[t].stage.timedOut
      ensures threads[t].stage.Dialing? <==> rpc.host && !threads[t].stage.Waiting? && !threads[t].stage.Checking?
      ensures threads[t].stage.Checking? <==> old(rpc.idle) != []
    {
      hide ThreadOk, Expected, OwnedAt, ScanAt, Rpc.Valid, Agrees, OnlyFor;
      ghost var before := rpc.place;
      var th := threads[t];
      var c := rpc.Pop(t);
      if c >= 0 {
        TakeAgrees(t, th, before, c);
        SetThread(t, th.(stage := Checking(c, th.stage.timedOut)), before);
      } else {
        OnlyForNothing(t, before);
        if MustWait(th.stage.timedOut) {
          StillTaking(t, th, before, Waiting);
          SetThread(t, th.(stage := Waiting), before);
        } else {
          NoConnAgrees(t, th, before, rpc.host);
          SetThread(t, NoConn(th, rpc.host), before);
        }
      }
    }

    /** A wait ends. */
    method Wake(t: nat, timedOut: bool)
      requires Valid() && t in threads && threads[t].stage.Waiting?
      modifies this`threads
      ensures Valid() && Stepped(t) && threads[t] == old(threads)[t].(stage := Taking(timedOut))
    {
      hide ThreadOk, Expected, OwnedAt, ScanAt, Rpc.Valid, Agrees, OnlyFor;
      OnlyForNothing(t, rpc.place);
      StillTaking(t, threads[t], rpc.place, Taking(timedOut));
      SetThread(t, threads[t].(stage := Taking(timedOut)), rpc.place);
    }

    /** Whether the server has dropped the connection. */
    method Check(t: nat, dropped: bool)
      requires Valid() && t in threads && threads[t].stage.Checking?
      modifies this`threads, rpc
      ensures rpc.budget == old(rpc.budget)
      ensures Valid() && Stepped(t)
      ensures var th := old(threads)[t];
              && threads[t] == (if dropped then th.(stage := Uncounting(th.stage.c, th.stage.timedOut)) else NextJob(th, th.stage.c))
              && rpc.gets == old(rpc.gets) + (if dropped then multiset{} else multiset{(t, th.stage.c)})
    {
      hide ThreadOk, Expected, OwnedAt, ScanAt, Rpc.Valid, Agrees, OnlyFor;
      ghost var before := rpc.place;
      var th := threads[t];
      var c := th.stage.c;
      CheckAgrees(t, th, before);
      if dropped {
        rpc.ProbeDropped(c, t);
        SetThread(t, th.(stage := Uncounting(c, th.stage.timedOut)), before);
      } else {
        rpc.ProbeFine(c, t);
        SetThread(t, NextJob(th, c), before);
      }
    }

    /** The dropped connection is no longer counted; in the same section the thread looks at the list
        again, if it would wait. */
    method Uncount(t: nat)
      requires Valid() && t in threads && threads[t].stage.Uncounting?
      modifies this`threads, rpc
      ensures rpc.budget == old(rpc.budget)
      ensures Valid() && Stepped(t)
      ensures rpc.nsocks == old(rpc.nsocks) - 1 && rpc.httpAvail == old(rpc.httpAvail) + One(old(threads[t].stage.c) in old(rpc.http))
      ensures var th, timedOut := old(threads)[t], old(threads)[t].stage.timedOut;
              threads[t] == if MustWait(timedOut) then AfterTake(th, timedOut, old(rpc.idle), rpc.nsocks, rpc.httpAvail, rpc.host)
                            else NoConn(th, rpc.host)
      ensures threads[t].stage.Waiting? <==>
                old(rpc.idle) == [] && rpc.nsocks > 0 && rpc.httpAvail == 0 && !old(threads)[t].stage.timedOut
      ensures threads[t].stage.Dialing? <==> rpc.host && !threads[t].stage.Waiting? && !threads[t].stage.Checking?
    {
      hide ThreadOk, Expected, OwnedAt, ScanAt, Rpc.Valid, Agrees, OnlyFor;
      ghost var before := rpc.place;
      var th := threads[t];
      UncountAgrees(t, th, before);
      rpc.CountDrop(th.stage.c, t);
      SetThread(t, th.(stage := Taking(th.stage.timedOut)), before);
      ghost var mid := rpc.place;
      if MustWait(th.stage.timedOut) {
        Take(t);
        OnlyForBoth(t, before, mid, rpc.place);
      } else {
        OnlyForNothing(t, mid);
        NoConnAgrees(t, threads[t], mid, rpc.host);
        SetThread(t, NoConn(threads[t], rpc.host), mid);
      }
    }

    /** A thread tries to make a connection of its own. */
    method Dial(t: nat, made: bool)
      requires Valid() && t in threads && threads[t].stage.Dialing?
      modifies this`threads, this`next, rpc
      ensures rpc.budget == old(rpc.budget)
      ensures Valid() && Stepped(t)
      ensures threads[t] == NextJob(old(threads)[t], if made then old(next) else -1)
      ensures rpc.gets == old(rpc.gets) + (if made then multiset{(t, old(next))} else multiset{})
    {
      hide ThreadOk, Expected, OwnedAt, ScanAt, Rpc.Valid, Agrees, OnlyFor;
      ghost var before := rpc.place;
      var th, c := threads[t], next;
      DialAgrees(t, th, before, c);
      OnlyForNothing(t, before);
      if made {
        rpc.Dial(c, t);
        next := next + 1;
        SetThread(t, NextJob(th, c), before);
      } else {
        SetThread(t, NextJob(th, -1), before);
      }
    }

    // ---- Working, and giving connections up ----

    /** A thread starts a run of jobs. */
    method Begin(t: nat, njob: nat)
      requires Valid() && (t in threads ==> threads[t].stage.Resting?)
      modifies this`threads
      ensures Valid() && threads == old(threads)[t := Fresh(njob)]
    {
      hide ThreadOk, Expected, ScanAt, Rpc.Valid, Agrees, OnlyFor;
      ghost var place := rpc.place;
      if t in threads {
        RestingOwnsNothing(t, threads[t], place);
      } else {
        forall x: nat ensures OwnedAt(place, x, t) == None {
        }
      }
      FreshAgrees(t, njob, place);
      threads := threads[t := Fresh(njob)];
    }

    /** All jobs have been attempted, or the time for them is over. */
    method Work(t: nat, ok: seq<bool>)
      requires Valid() && t in threads && threads[t].stage.Working? && |ok| == threads[t].njob
      modifies this`threads
      ensures Valid() && Stepped(t) && threads[t] == old(threads)[t].(stage := Giving(0, ok), tried := true)
    {
      hide ThreadOk, Expected, OwnedAt, ScanAt, Rpc.Valid, Agrees, OnlyFor;
      OnlyForNothing(t, rpc.place);
      WorkAgrees(t, threads[t], rpc.place, ok);
      SetThread(t, threads[t].(stage := Giving(0, ok), tried := true), rpc.place);
    }

    /** The connection of job k is given up, if it has one. */
    method Give(t: nat, keep: bool)
      requires Valid() && t in threads && threads[t].stage.Giving? && threads[t].stage.k < threads[t].njob
      modifies this`threads, rpc
      ensures rpc.budget == old(rpc.budget)
      ensures Valid() && Stepped(t)
      ensures var th := old(threads)[t];
              var k, ok := th.stage.k, th.stage.ok;
              && k < |th.conns| && k < |ok|
              && var c := th.conns[k];
                 && rpc.gives == old(rpc.gives) + (if c >= 0 then multiset{(t, c)} else multiset{})
                 && rpc.http == old(rpc.http)
                 && threads[t] == th.(stage := if c >= 0 && (!ok[k] || (c in rpc.http && !keep)) then Closing(c, k + 1, ok)
                                               else Giving(k + 1, ok))
    {
      hide Expected, OwnedAt, ScanAt, Rpc.Valid, OnlyFor, Distinct;
      ghost var before := rpc.place;
      var th := threads[t];
      var k, ok := th.stage.k, th.stage.ok;
      var c := th.conns[k];
      if c < 0 {
        OnlyForNothing(t, before);
        SkipAgrees(t, th, before);
        SetThread(t, th.(stage := Giving(k + 1, ok)), before);
        return;
      }
      GiveAgrees(t, th, before, Idle);
      GiveAgrees(t, th, before, Leaving(t));
      var doClose := true;
      if ok[k] {
        doClose := rpc.Put(c, keep, t);
      } else {
        rpc.Fail(c, t);
      }
      SetThread(t, th.(stage := if doClose then Closing(c, k + 1, ok) else Giving(k + 1, ok)), before);
    }

    /** A connection that has left the pool is closed. */
    method Close(t: nat)
      requires Valid() && t in threads && threads[t].stage.Closing?
      modifies this`threads, rpc
      ensures rpc.budget == old(rpc.budget)
      ensures Valid() && Stepped(t)
      ensures threads[t] == old(threads)[t].(stage := Giving(old(threads)[t].stage.k, old(threads)[t].stage.ok))
    {
      hide ThreadOk, Expected, OwnedAt, ScanAt, Rpc.Valid, Agrees, OnlyFor;
      ghost var before := rpc.place;
      var th := threads[t];
      CloseAgrees(t, th, before);
      rpc.Close(th.stage.c, t);
      SetThread(t, th.(stage := Giving(th.stage.k, th.stage.ok)), before);
    }

    /** The run is over. */
    method Rest(t: nat)
      requires Valid() && t in threads && threads[t].stage.Giving? && threads[t].stage.k == threads[t].njob
      modifies this`threads
      ensures Valid() && Stepped(t) && threads[t] == old(threads)[t].(stage := Resting)
    {
      hide ThreadOk, Expected, OwnedAt, ScanAt, Rpc.Valid, Agrees, OnlyFor;
      OnlyForNothing(t, rpc.place);
      RestAgrees(t, threads[t], rpc.place);
      SetThread(t, threads[t].(stage := Resting), rpc.place);
    }

    // ---- The listener ----

    /** A server connects; the scan starts. */
    method Connect()
      requires Valid() && scan.NoScan?
      modifies this`scan, this`next, rpc
      ensures rpc.budget == old(rpc.budget)
      ensures Valid() && scan == Scanning(old(rpc.idle) + [old(next)], [], 0) && next == old(next) + 1 && rpc.idle == []
    {
      hide ThreadOk, Expected, Rpc.Valid, Agrees;
      ghost var before := rpc.place;
      var c := next;
      ghost var idle := rpc.idle;
      IdleListed();
      var rest := rpc.Accept(c);
      next := next + 1;
      scan := Scanning(rest, [], 0);
      StartScan(before, rpc.place, rest, idle, c);
      ThreadsSame(before);
    }

    lemma IdleListed()
      requires rpc.Valid()
      ensures forall c: nat :: c in rpc.idle <==> c in rpc.place && rpc.place[c].Idle?
      ensures forall i, j | 0 <= i < j < |rpc.idle| :: rpc.idle[i] != rpc.idle[j]
    {
    }

    /** The scan moves no connection that a thread works with. */
    lemma ThreadsSame(before: Places)
      requires ThreadsOk(before)
      requires forall c: nat, t: nat :: OwnedAt(rpc.place, c, t) == OwnedAt(before, c, t)
      ensures ThreadsOk(rpc.place)
    {
      hide ThreadOk, Expected;
      forall c | c in rpc.place && Owner(rpc.place[c]).Some? ensures Owner(rpc.place[c]).value in threads {
        var u := Owner(rpc.place[c]).value;
        assert OwnedAt(before, c, u) == OwnedAt(rpc.place, c, u);
      }
    }

    /** The scan looks at the next connection; the ones that are fine end up in reverse order. */
    method ScanOne(dropped: bool)
      requires Valid() && scan.Scanning? && scan.rest != []
      modifies this`scan, rpc
      ensures rpc.budget == old(rpc.budget)
      ensures Valid()
      ensures var c := old(scan).rest[0];
              scan == if dropped then Scanning(old(scan).rest[1..], old(scan).kept, old(scan).ndrop + 1)
                      else Scanning(old(scan).rest[1..], [c] + old(scan).kept, old(scan).ndrop)
    {
      hide ThreadOk, Expected, Rpc.Valid, Agrees, At;
      ghost var before := rpc.place;
      var Scanning(rest, kept, ndrop) := scan;
      var c := rest[0];
      ScanNext(before, rest, kept, ndrop);
      if dropped {
        rpc.ScanDrop(c);
        scan := Scanning(rest[1..], kept, ndrop + 1);
        ThreadsSame(before);
      } else {
        scan := Scanning(rest[1..], [c] + kept, ndrop);
      }
    }

    /** The scan ends. */
    method EndScan()
      requires Valid() && scan.Scanning? && scan.rest == []
      modifies this`scan, rpc
      ensures Valid() && scan == NoScan && rpc.idle == old(rpc.idle) + old(scan).kept
      ensures rpc.budget == old(rpc.budget - |At(rpc.place, ScanClosed) * rpc.http|)
    {
      hide ThreadOk, Expected, Rpc.Valid, Agrees, At;
      ghost var before := rpc.place;
      var Scanning(rest, kept, ndrop) := scan;
      ScanAll(before, kept, ndrop);
      rpc.ScanEnd(kept, ndrop);
      scan := NoScan;
      ThreadsSame(before);
    }

    // ---- Any schedule ----

    /** A step with which the accept scan comes to its end. */
    predicate EndsScan(e: Event)
      reads this`scan
    {
      e.ScanOn? && scan.Scanning? && scan.rest == []
    }

    /** One step, if it is possible. */
    method Step(e: Event)
      requires Valid()
      modifies this, rpc
      ensures Valid() && scan == NextScan(old(scan), e, old(rpc.idle), old(next))
      ensures match e
              case Begin(t, njob) =>
                threads == if t in old(threads) && !old(threads)[t].stage.Resting? then old(threads) else old(threads)[t := Fresh(njob)]
              case Advance(t, _, _, _) =>
                && (t !in old(threads) ==> threads == old(threads))
                && (t in old(threads) ==> ThreadOk(old(threads)[t]) && threads == old(threads)[t := NextThread(old(threads)[t], e,
                      old(rpc.idle), old(rpc.nsocks), old(rpc.httpAvail), rpc.host, old(rpc.http), old(next))])
              case Connected => threads == old(threads)
              case ScanOn(_) => threads == old(threads)
      ensures rpc.budget == old(rpc.budget - if EndsScan(e) then |At(rpc.place, ScanClosed) * rpc.http| else 0)
    {
      hide Rpc.Valid, Expected, OwnedAt, ScanAt, Agrees, ThreadOk, OnlyFor, ScanOk, NextThread;
      match e
      case Begin(t, njob) =>
        if t !in threads || threads[t].stage.Resting? {
          Begin(t, njob);
        }
      case Advance(t, yes, keep, ok) =>
        if t in threads {
          AgreesOk(t);
          Go(t, e);
        }
      case Connected =>
        if scan.NoScan? {
          Connect();
        }
      case ScanOn(dropped) =>
        if scan.Scanning? {
          if scan.rest != [] {
            ScanOne(dropped);
          } else {
            EndScan();
          }
        }
    }

    /** A thread's next step. */
    method Go(t: nat, e: Event)
      requires Valid() && t in threads && e.Advance? && ThreadOk(threads[t])
      modifies this`threads, this`next, rpc
      ensures rpc.budget == old(rpc.budget)
      ensures Valid() && Stepped(t)
      ensures threads[t] == NextThread(old(threads)[t], e, old(rpc.idle), old(rpc.nsocks), old(rpc.httpAvail), rpc.host,
                                       old(rpc.http), old(next))
    {
      hide Rpc.Valid, Expected, OwnedAt, ScanAt, Agrees, OnlyFor, ScanOk, NextJob, NoConn, AfterTake, Distinct;
      OnlyForNothing(t, rpc.place);
      match threads[t].stage
      case Resting =>
      case Taking(_) => Take(t);
      case Waiting => Wake(t, e.yes);
      case Checking(_, _) => Check(t, e.yes);
      case Uncounting(_, _) => Uncount(t);
      case Dialing => Dial(t, e.yes);
      case Working =>
        if |e.ok| == threads[t].njob {
          Work(t, e.ok);
        }
      case Giving(k, _) =>
        if k < threads[t].njob {
          Give(t, e.keep);
        } else {
          Rest(t);
        }
      case Closing(_, _, _) => Close(t);
    }

    lemma AgreesOk(t: nat)
      requires Valid() && t in threads
      ensures ThreadOk(threads[t])
    {
      assert Agrees(t, threads[t], rpc.place);
    }

    /** Any number of threads, their steps in any order. */
    method Interleave(schedule: seq<Event>)
      requires Valid()
      modifies this, rpc
      ensures Valid() && rpc.budget <= old(rpc.budget)
      ensures (forall i | 0 <= i < |schedule| :: !schedule[i].ScanOn?) ==> rpc.budget == old(rpc.budget)
    {
      hide Rpc.Valid, ThreadsOk, ScanOk;
      for i := 0 to |schedule|
        invariant Valid() && rpc.budget <= old(rpc.budget)
        invariant (forall j | 0 <= j < i :: !schedule[j].ScanOn?) ==> rpc.budget == old(rpc.budget)
      {
        Step(schedule[i]);
      }
    }

    /** At any time in such a run: what may still be connected and the live HTTP connections are less
        than the limit exactly by the HTTP connections that finished scans have found dropped. */
    lemma LimitLost()
      requires Valid()
      ensures rpc.httpAvail + |CountedHttp(rpc.place, rpc.http)| + |LostHttp(rpc.place, rpc.http)| == rpc.limit
      ensures rpc.budget == rpc.limit <==> forall c | c in rpc.http :: c in rpc.place && !rpc.place[c].Lost?
    {
      var lost := LostHttp(rpc.place, rpc.http);
      if lost == {} {
        assert forall c | c in rpc.http && rpc.place[c].Lost? :: c in lost;
      }
    }

    /** After any such run: a thread whose run of jobs is over has given up each connection exactly as
        often as it has obtained it, and works with none. */
    lemma GivenUpOnce(t: nat, c: nat)
      requires Valid() && t in threads && threads[t].stage.Resting?
      ensures rpc.gets[(t, c)] == rpc.gives[(t, c)] && OwnedAt(rpc.place, c, t) == None
    {
      RestingOwnsNothing(t, threads[t], rpc.place);
      assert OwnedAt(rpc.place, c, t) == None;
    }

    /** A thread in the middle of a run has given up all but the connections that it still holds. */
    lemma StillHeld(t: nat, c: nat)
      requires Valid() && t in threads
      ensures rpc.gets[(t, c)] == rpc.gives[(t, c)] + if IsHeld(rpc.place, c, t) then 1 else 0
      ensures IsHeld(rpc.place, c, t) ==>
                c in threads[t].conns && forall u | u in threads && u != t :: OwnedAt(rpc.place, c, u) == None
      ensures threads[t].stage.Working? ==>
                AllGot(threads[t].conns) && forall k | 0 <= k < |threads[t].conns| :: IsHeld(rpc.place, threads[t].conns[k], t)
    {
      var th := threads[t];
      assert Agrees(t, th, rpc.place);
      assert OwnedAt(rpc.place, c, t) == Expected(t, th, c);
      if th.stage.Working? {
        forall k | 0 <= k < |th.conns| ensures IsHeld(rpc.place, th.conns[k], t) {
          var x := th.conns[k];
          assert x in th.conns[0..];
          assert OwnedAt(rpc.place, x, t) == Expected(t, th, x);
        }
      }
    }

    /** All jobs of a run are attempted, or none: when the run is over, and also while its connections
        are given up, they have been attempted exactly if there was one for each. No job is attempted
        before that. */
    lemma AllOrNone(t: nat)
      requires Valid() && t in threads
      ensures var th := threads[t];
              if th.stage.Giving? || th.stage.Closing? || th.stage.Resting?
              then |th.conns| == th.njob && (th.tried <==> forall k | 0 <= k < th.njob :: th.conns[k] >= 0)
              else !th.tried
    {
      AgreesOk(t);
    }

    /** With nothing on the list, a connection that counts is with a thread or with the scan, so that it
        can come back to a thread that waits for it. */
    lemma WithSomebody() returns (c: nat)
      requires Valid() && rpc.idle == [] && rpc.nsocks > 0
      ensures InPool(rpc.place, c)
      ensures (exists t | t in threads :: OwnedAt(rpc.place, c, t).Some?) || (scan.Scanning? && ScanAt(rpc.place, c).Some?)
    {
      hide Expected;
      assert Counted(rpc.place) != {};
      c :| c in Counted(rpc.place);
      assert c !in rpc.idle;
      if Owner(rpc.place[c]).Some? {
        var t := Owner(rpc.place[c]).value;
        assert t in threads && OwnedAt(rpc.place, c, t).Some?;
      } else {
        assert ScanAt(rpc.place, c).Some?;
      }
    }

    /** With all runs over and no scan under way, the count is the length of the list. */
    lemma AllIdle()
      requires Valid() && scan.NoScan? && forall t | t in threads :: threads[t].stage.Resting?
      ensures rpc.nsocks == |rpc.idle|
    {
      forall c: nat ensures c in Counted(rpc.place) <==> c in rpc.idle {
        if c in rpc.place && Owner(rpc.place[c]).Some? {
          GivenUpOnce(Owner(rpc.place[c]).value, c);
        }
        assert ScanAt(rpc.place, c) == None;
      }
      DistinctCount(rpc.idle, Counted(rpc.place));
    }
  }

  lemma {:induction false} DistinctCount(s: seq<nat>, cs: set<nat>)
    requires forall i, j | 0 <= i < j < |s| :: s[i] != s[j]
    requires forall c: nat :: c in cs <==> c in s
    ensures |cs| == |s|
    decreases |s|
  {
    if s == [] {
      assert cs == {};
    } else {
      assert s == [s[0]] + s[1..];
      DistinctCount(s[1..], cs - {s[0]});
    }
  }

  lemma StartScan(place: Places, place2: Places, rest: seq<nat>, idle: seq<nat>, c: nat)
    requires c !in place && rest == idle + [c] && forall x: nat :: ScanAt(place, x) == None
    requires forall x: nat :: x in idle <==> x in place && place[x].Idle?
    requires forall i, j | 0 <= i < j < |idle| :: idle[i] != idle[j]
    requires place2.Keys == place.Keys + {c}
    requires forall x | x in place2 :: place2[x] == if x in rest then Scanned else place[x]
    ensures ScanOk(Scanning(rest, [], 0), place2)
    ensures forall x: nat, t: nat :: OwnedAt(place2, x, t) == OwnedAt(place, x, t)
  {
    assert rest + [] == rest;
    forall x: nat ensures ScanAt(place2, x) == (if x in rest then Some(Scanned) else None)
                  ensures x !in At(place2, ScanClosed) {
      assert ScanAt(place, x) == None;
    }
    assert At(place2, ScanClosed) == {};
  }

  /** What looking at one connection leaves the scan with. */
  lemma ScanNext(place: Places, rest: seq<nat>, kept: seq<nat>, ndrop: nat)
    requires ScanOk(Scanning(rest, kept, ndrop), place) && rest != []
    ensures rest[0] in place && place[rest[0]].Scanned?
    ensures ScanOk(Scanning(rest[1..], kept, ndrop + 1), place[rest[0] := ScanClosed])
    ensures forall x: nat, t: nat :: OwnedAt(place[rest[0] := ScanClosed], x, t) == OwnedAt(place, x, t)
    ensures ScanOk(Scanning(rest[1..], [rest[0]] + kept, ndrop), place)
  {
    var c, place2, later := rest[0], place[rest[0] := ScanClosed], rest[1..] + kept;
    var all, all2 := rest + kept, rest[1..] + ([rest[0]] + kept);
    assert all == [c] + later;
    assert all[0] == c && c in all;
    assert ScanAt(place, c) == Some(Scanned);
    forall i | 0 <= i < |later| ensures later[i] != c {
      assert all[i + 1] == later[i];
    }
    forall i, j | 0 <= i < j < |later| ensures later[i] != later[j] {
      assert all[i + 1] == later[i] && all[j + 1] == later[j];
    }
    forall x: nat ensures ScanAt(place2, x) == Some(Scanned) <==> x in later {
      assert ScanAt(place, x) == Some(Scanned) <==> x in all;
    }
    assert At(place2, ScanClosed) == At(place, ScanClosed) + {c};
    Rotated(rest, kept);
  }

  /** Moving the first to the middle keeps a list of distinct numbers one. */
  lemma Rotated(rest: seq<nat>, kept: seq<nat>)
    requires rest != [] && forall i, j | 0 <= i < j < |rest + kept| :: (rest + kept)[i] != (rest + kept)[j]
    ensures var all2 := rest[1..] + ([rest[0]] + kept);
            && (forall i, j | 0 <= i < j < |all2| :: all2[i] != all2[j])
            && (forall x :: x in all2 <==> x in rest + kept)
  {
    var all, all2 := rest + kept, rest[1..] + ([rest[0]] + kept);
    var n := |rest| - 1;
    forall i | 0 <= i < |all2| ensures all2[i] == all[if i < n then i + 1 else if i == n then 0 else i] {
    }
    forall x ensures x in all2 <==> x in all {
      if x in all {
        var i :| 0 <= i < |all| && all[i] == x;
        assert all2[if i == 0 then n else if i <= n then i - 1 else i] == x;
      }
    }
  }

  lemma ScanAll(place: Places, kept: seq<nat>, ndrop: nat)
    requires ScanOk(Scanning([], kept, ndrop), place)
    ensures ndrop == |At(place, ScanClosed)|
    ensures forall c :: c in kept <==> c in place && place[c].Scanned?
    ensures forall i, j | 0 <= i < j < |kept| :: kept[i] != kept[j]
  {
    assert [] + kept == kept;
    forall c: nat ensures c in kept <==> c in place && place[c].Scanned? {
      assert ScanAt(place, c) == Some(Scanned) <==> c in [] + kept;
    }
  }
}
