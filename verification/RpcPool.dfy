/** A client's pool of connections to one procedure server, shared by many threads. Each method is
    a critical section, or a step that a thread takes on a connection of its own; `t` is that thread. */
module RpcPool {
  import opened Options

  /** Where a connection is. */
  datatype Place =
    | Idle          // on the pool's list
    | Probing(t: nat)      // taken from the list by a thread, being checked for a server drop
    | ProbeClosed(t: nat)  // found dropped and closed, and still counted
    | Held(t: nat)         // checked out
    | Leaving(t: nat)      // no longer counted, and still to be closed
    | Scanned       // taken off the list by the accept scan
    | ScanClosed    // closed by the accept scan, and still counted
    | Gone
    | Lost          // no longer counted since the end of the scan that closed it

  /** Places at which a connection counts as one of the pool's sockets. */
  predicate Counts(p: Place) {
    !p.Leaving? && !p.Gone? && !p.Lost?
  }

  predicate IsClosed(p: Place) {
    p.ProbeClosed? || p.ScanClosed? || p.Gone? || p.Lost?
  }

  /** The thread that works with a connection. */
  function Owner(p: Place): Option<nat> {
    match p
    case Probing(t) => Some(t)
    case ProbeClosed(t) => Some(t)
    case Held(t) => Some(t)
    case Leaving(t) => Some(t)
    case _ => None
  }

  type Places = map<nat, Place>

  ghost function Counted(place: Places): set<nat> {
    set c | c in place && Counts(place[c])
  }

  ghost function CountedHttp(place: Places, http: set<nat>): set<nat> {
    set c | c in place && Counts(place[c]) && c in http
  }

  ghost function LostHttp(place: Places, http: set<nat>): set<nat> {
    set c | c in place && place[c].Lost? && c in http
  }

  ghost function At(place: Places, p: Place): set<nat> {
    set c | c in place && place[c] == p
  }

  function One(b: bool): nat {
    if b then 1 else 0
  }

  /** Whether a connection counts. */
  predicate InPool(place: Places, c: nat) {
    c in place && Counts(place[c])
  }

  /** A connection moves: the counts change by at most one. */
  lemma Moved(place: Places, http: set<nat>, c: nat, p: Place)
    ensures |Counted(place[c := p])| == |Counted(place)| + One(Counts(p)) - One(InPool(place, c))
    ensures |CountedHttp(place[c := p], http)|
         == |CountedHttp(place, http)| + One(Counts(p) && c in http) - One(InPool(place, c) && c in http)
    ensures !p.Lost? && (c in place ==> !place[c].Lost?) ==> LostHttp(place[c := p], http) == LostHttp(place, http)
  {
    MovedOne(place, c, p);
    MovedHttp(place, http, c, p);
  }

  lemma MovedOne(place: Places, c: nat, p: Place)
    ensures |Counted(place[c := p])| == |Counted(place)| + One(Counts(p)) - One(InPool(place, c))
  {
    var before, after := Counted(place), Counted(place[c := p]);
    if Counts(p) {
      assert after == before + {c};
    } else {
      assert after == before - {c};
    }
  }

  lemma MovedHttp(place: Places, http: set<nat>, c: nat, p: Place)
    ensures |CountedHttp(place[c := p], http)|
         == |CountedHttp(place, http)| + One(Counts(p) && c in http) - One(InPool(place, c) && c in http)
  {
    var before, after := CountedHttp(place, http), CountedHttp(place[c := p], http);
    if Counts(p) && c in http {
      assert after == before + {c};
    } else {
      assert after == before - {c};
    }
  }

  /** The list holds the idle connections, each once. */
  ghost predicate IdleIs(idle: seq<nat>, place: Places) {
    && (forall c: nat :: c in idle <==> c in place && place[c].Idle?)
    && (forall i, j | 0 <= i < j < |idle| :: idle[i] != idle[j])
  }

  /** Every connection has been closed once if it is closed, and otherwise not. */
  ghost predicate ClosedOnce(closes: multiset<nat>, place: Places) {
    forall c: nat :: closes[c] == One(c in place && IsClosed(place[c]))
  }

  predicate Closed(place: Places, c: nat) {
    c in place && IsClosed(place[c])
  }

  lemma ClosedSame(closes: multiset<nat>, place: Places, c: nat, p: Place)
    requires ClosedOnce(closes, place) && IsClosed(p) == Closed(place, c)
    ensures ClosedOnce(closes, place[c := p])
  {
  }

  lemma ClosedNow(closes: multiset<nat>, place: Places, c: nat, p: Place)
    requires ClosedOnce(closes, place) && IsClosed(p) && !Closed(place, c)
    ensures ClosedOnce(closes + multiset{c}, place[c := p])
  {
  }

  lemma IdleSame(idle: seq<nat>, place: Places, c: nat, p: Place)
    requires IdleIs(idle, place) && !p.Idle? && c !in idle
    ensures IdleIs(idle, place[c := p])
  {
  }

  lemma IdlePop(idle: seq<nat>, place: Places, p: Place)
    requires IdleIs(idle, place) && idle != [] && !p.Idle?
    ensures idle[0] in place && place[idle[0]].Idle? && IdleIs(idle[1..], place[idle[0] := p])
  {
    assert idle == [idle[0]] + idle[1..];
  }

  lemma IdlePush(idle: seq<nat>, place: Places, c: nat)
    requires IdleIs(idle, place) && c !in idle
    ensures IdleIs(idle + [c], place[c := Idle])
  {
  }

  /** A connection that is not idle is not on the list. */
  lemma NotIdle(idle: seq<nat>, place: Places, c: nat)
    requires IdleIs(idle, place) && (c !in place || !place[c].Idle?)
    ensures c !in idle
  {
  }

  /** A thread has given up each connection as often as it has obtained it, except that it has one
      more to give up while it holds it. */
  ghost predicate Balanced(gets: multiset<(nat, nat)>, gives: multiset<(nat, nat)>, place: Places) {
    forall t: nat, c: nat :: gets[(t, c)] == gives[(t, c)] + One(IsHeld(place, c, t))
  }

  predicate IsHeld(place: Places, c: nat, t: nat) {
    c in place && place[c] == Held(t)
  }

  lemma BalancedSame(gets: multiset<(nat, nat)>, gives: multiset<(nat, nat)>, place: Places, c: nat, p: Place)
    requires Balanced(gets, gives, place) && !p.Held? && (c in place ==> !place[c].Held?)
    ensures Balanced(gets, gives, place[c := p])
  {
  }

  lemma BalancedGot(gets: multiset<(nat, nat)>, gives: multiset<(nat, nat)>, place: Places, c: nat, t: nat)
    requires Balanced(gets, gives, place) && (c in place ==> !place[c].Held?)
    ensures Balanced(gets + multiset{(t, c)}, gives, place[c := Held(t)])
  {
  }

  lemma BalancedGave(gets: multiset<(nat, nat)>, gives: multiset<(nat, nat)>, place: Places, c: nat, t: nat, p: Place)
    requires Balanced(gets, gives, place) && IsHeld(place, c, t) && !p.Held?
    ensures Balanced(gets, gives + multiset{(t, c)}, place[c := p])
  {
  }

  class Rpc {
    const host: bool             // whether connections to a server can be made
    var nsocks: int
    var httpAvail: int
    var idle: seq<nat>           // firstPtr to lastPtr
    var http: set<nat>           // connections made to an HTTP server
    ghost var place: Places
    ghost const limit: int       // on HTTP connections
    ghost var budget: int        // httpAvail and the HTTP connections that count
    ghost var closes: multiset<nat>        // how often each connection has been closed
    ghost var gets: multiset<(nat, nat)>   // how often each thread has obtained each connection
    ghost var gives: multiset<(nat, nat)>  // how often it has given it up

    ghost predicate Valid()
      reads this
    {
      && nsocks == |Counted(place)|
      && budget == httpAvail + |CountedHttp(place, http)| == limit - |LostHttp(place, http)|
      && IdleIs(idle, place) && http <= place.Keys && ClosedOnce(closes, place) && Balanced(gets, gives, place)
    }

    constructor (host: bool, httpAvail: int)
      ensures Valid() && place == map[] && idle == [] && this.httpAvail == budget == limit == httpAvail && this.host == host
    {
      this.host := host;
      nsocks, idle, http, place, closes, gets, gives := 0, [], {}, map[], multiset{}, multiset{}, multiset{};
      this.httpAvail, budget, limit := httpAvail, httpAvail, httpAvail;
    }

    /** A thread takes the first connection of the list. */
    method Pop(ghost t: nat) returns (c: int)
      requires Valid()
      modifies this`idle, this`place
      ensures Valid()
      ensures old(idle) == [] ==> c == -1 && place == old(place) && idle == []
      ensures old(idle) != [] ==> c == old(idle)[0] && idle == old(idle)[1..] && place == old(place)[c := Probing(t)]
      ensures old(idle) != [] ==> c >= 0 && c in old(place) && old(place)[c].Idle?
    {
      if idle == [] {
        return -1;
      }
      c := idle[0];
      IdlePop(idle, place, Probing(t));
      hide Counted, CountedHttp, LostHttp, IdleIs, ClosedOnce, Balanced;
      ClosedSame(closes, place, c, Probing(t));
      BalancedSame(gets, gives, place, c, Probing(t));
      Moved(place, http, c, Probing(t));
      idle := idle[1..];
      place := place[c := Probing(t)];
    }

    /** Appends a connection to the list. */
    method Push(c: nat)
      modifies this`idle
      ensures idle == old(idle) + [c]
    {
      idle := idle + [c];
    }

    // ---- Getting a connection ----

    /** The connection is fine and is checked out. */
    method ProbeFine(c: nat, ghost t: nat)
      requires Valid() && c in place && place[c] == Probing(t)
      modifies this`place, this`gets
      ensures Valid() && place == old(place)[c := Held(t)] && gets == old(gets) + multiset{(t, c)}
    {
      hide Counted, CountedHttp, LostHttp, IdleIs, ClosedOnce, Balanced;
      NotIdle(idle, place, c);
      IdleSame(idle, place, c, Held(t));
      ClosedSame(closes, place, c, Held(t));
      BalancedGot(gets, gives, place, c, t);
      Moved(place, http, c, Held(t));
      gets := gets + multiset{(t, c)};
      place := place[c := Held(t)];
    }

    /** The server has dropped the connection: it is closed, outside the lock. */
    method ProbeDropped(c: nat, ghost t: nat)
      requires Valid() && c in place && place[c] == Probing(t)
      modifies this`place, this`closes
      ensures Valid() && place == old(place)[c := ProbeClosed(t)]
    {
      hide Counted, CountedHttp, LostHttp, IdleIs, ClosedOnce, Balanced;
      NotIdle(idle, place, c);
      IdleSame(idle, place, c, ProbeClosed(t));
      ClosedNow(closes, place, c, ProbeClosed(t));
      BalancedSame(gets, gives, place, c, ProbeClosed(t));
      Moved(place, http, c, ProbeClosed(t));
      closes := closes + multiset{c};
      place := place[c := ProbeClosed(t)];
    }

    /** Then, inside the lock again, it is no longer counted. */
    method CountDrop(c: nat, ghost t: nat)
      requires Valid() && c in place && place[c] == ProbeClosed(t)
      modifies this`nsocks, this`httpAvail, this`place
      ensures Valid() && place == old(place)[c := Gone]
      ensures nsocks == old(nsocks) - 1 && httpAvail == old(httpAvail) + One(c in http)
    {
      hide Counted, CountedHttp, LostHttp, IdleIs, ClosedOnce, Balanced;
      NotIdle(idle, place, c);
      IdleSame(idle, place, c, Gone);
      ClosedSame(closes, place, c, Gone);
      BalancedSame(gets, gives, place, c, Gone);
      Moved(place, http, c, Gone);
      nsocks := nsocks - 1;
      if c in http {
        httpAvail := httpAvail + 1;
      }
      place := place[c := Gone];
    }

    /** A new connection to an HTTP server. */
    method Dial(c: nat, ghost t: nat)
      requires Valid() && c !in place
      modifies this`nsocks, this`httpAvail, this`http, this`place, this`gets
      ensures Valid() && place == old(place)[c := Held(t)] && http == old(http) + {c} && gets == old(gets) + multiset{(t, c)}
    {
      hide Counted, CountedHttp, LostHttp, IdleIs, ClosedOnce, Balanced;
      NotIdle(idle, place, c);
      IdleSame(idle, place, c, Held(t));
      ClosedSame(closes, place, c, Held(t));
      BalancedGot(gets, gives, place, c, t);
      NewHttp(place, http, c);
      Moved(place, http + {c}, c, Held(t));
      http := http + {c};
      nsocks := nsocks + 1;
      httpAvail := httpAvail - 1;
      gets := gets + multiset{(t, c)};
      place := place[c := Held(t)];
    }

    // ---- Giving a connection up ----

    /** Puts a connection back; an HTTP connection that is not kept alive leaves the pool. */
    method Put(c: nat, keep: bool, ghost t: nat) returns (doClose: bool)
      requires Valid() && IsHeld(place, c, t)
      modifies this`idle, this`nsocks, this`httpAvail, this`place, this`gives
      ensures Valid() && doClose == (c in http && !keep) && gives == old(gives) + multiset{(t, c)}
      ensures place == old(place)[c := if doClose then Leaving(t) else Idle]
      ensures idle == if doClose then old(idle) else old(idle) + [c]
    {
      hide Counted, CountedHttp, LostHttp, IdleIs, ClosedOnce, Balanced;
      NotIdle(idle, place, c);
      doClose := c in http && !keep;
      if doClose {
        LeaveKeeps(c, t);
        nsocks := nsocks - 1;
        httpAvail := httpAvail + 1;
        gives := gives + multiset{(t, c)};
        place := place[c := Leaving(t)];
      } else {
        IdlePush(idle, place, c);
        ClosedSame(closes, place, c, Idle);
        BalancedGave(gets, gives, place, c, t, Idle);
        Moved(place, http, c, Idle);
        Push(c);
        gives := gives + multiset{(t, c)};
        place := place[c := Idle];
      }
    }

    /** What leaving the pool does to the counts. */
    lemma LeaveKeeps(c: nat, t: nat)
      requires Valid() && IsHeld(place, c, t) && c !in idle
      ensures var place2 := place[c := Leaving(t)];
              && IdleIs(idle, place2) && ClosedOnce(closes, place2) && Balanced(gets, gives + multiset{(t, c)}, place2)
              && |Counted(place2)| == nsocks - 1 && |CountedHttp(place2, http)| == budget - httpAvail - One(c in http)
              && LostHttp(place2, http) == LostHttp(place, http)
    {
      hide Counted, CountedHttp, LostHttp, IdleIs, ClosedOnce, Balanced;
      IdleSame(idle, place, c, Leaving(t));
      ClosedSame(closes, place, c, Leaving(t));
      BalancedGave(gets, gives, place, c, t, Leaving(t));
      Moved(place, http, c, Leaving(t));
    }

    /** A request has failed: its connection is no longer counted. */
    method Fail(c: nat, ghost t: nat)
      requires Valid() && IsHeld(place, c, t)
      modifies this`nsocks, this`httpAvail, this`place, this`gives
      ensures Valid() && place == old(place)[c := Leaving(t)] && gives == old(gives) + multiset{(t, c)}
    {
      hide Counted, CountedHttp, LostHttp, IdleIs, ClosedOnce, Balanced;
      NotIdle(idle, place, c);
      LeaveKeeps(c, t);
      nsocks := nsocks - 1;
      if c in http {
        httpAvail := httpAvail + 1;
      }
      gives := gives + multiset{(t, c)};
      place := place[c := Leaving(t)];
    }

    /** A connection that has left the pool is closed. */
    method Close(c: nat, ghost t: nat)
      requires Valid() && c in place && place[c] == Leaving(t)
      modifies this`place, this`closes
      ensures Valid() && place == old(place)[c := Gone]
    {
      hide Counted, CountedHttp, LostHttp, IdleIs, ClosedOnce, Balanced;
      NotIdle(idle, place, c);
      IdleSame(idle, place, c, Gone);
      ClosedNow(closes, place, c, Gone);
      BalancedSame(gets, gives, place, c, Gone);
      Moved(place, http, c, Gone);
      closes := closes + multiset{c};
      place := place[c := Gone];
    }

    // ---- Accepting a connection ----

    /** A server has connected; with it, all idle connections are taken off the list for a check. */
    method Accept(c: nat) returns (scan: seq<nat>)
      requires Valid() && c !in place
      modifies this`idle, this`nsocks, this`place
      ensures Valid() && idle == [] && scan == old(idle) + [c]
      ensures place.Keys == old(place).Keys + {c}
      ensures forall x | x in place :: place[x] == if x in scan then Scanned else old(place)[x]
    {
      hide Counted, CountedHttp, LostHttp, IdleIs, ClosedOnce, Balanced;
      NotIdle(idle, place, c);
      IdlePush(idle, place, c);
      ClosedSame(closes, place, c, Idle);
      BalancedSame(gets, gives, place, c, Idle);
      Moved(place, http, c, Idle);
      nsocks := nsocks + 1;
      Push(c);
      place := place[c := Idle];
      scan := TakeIdle();
    }

    /** Takes all connections off the list. */
    method TakeIdle() returns (scan: seq<nat>)
      requires Valid()
      modifies this`idle, this`place
      ensures Valid() && idle == [] && scan == old(idle) && place.Keys == old(place).Keys
      ensures forall x | x in place :: place[x] == if x in scan then Scanned else old(place)[x]
    {
      hide Counted, CountedHttp, LostHttp, IdleIs, ClosedOnce, Balanced;
      scan := idle;
      AllScanned(place, http, idle);
      ScanStart(closes, gets, gives, place, idle);
      place := map x | x in place :: if x in idle then Scanned else place[x];
      idle := [];
    }

    /** The scan closes a connection that its server has dropped. */
    method ScanDrop(c: nat)
      requires Valid() && c in place && place[c].Scanned?
      modifies this`place, this`closes
      ensures Valid() && place == old(place)[c := ScanClosed]
    {
      hide Counted, CountedHttp, LostHttp, IdleIs, ClosedOnce, Balanced;
      NotIdle(idle, place, c);
      IdleSame(idle, place, c, ScanClosed);
      ClosedNow(closes, place, c, ScanClosed);
      BalancedSame(gets, gives, place, c, ScanClosed);
      Moved(place, http, c, ScanClosed);
      closes := closes + multiset{c};
      place := place[c := ScanClosed];
    }

    /** The scan ends: the dropped connections are no longer counted, the others go back. The limit
        on HTTP connections is not given back for the dropped ones. */
    method ScanEnd(kept: seq<nat>, ndrop: nat)
      requires Valid() && ndrop == |At(place, ScanClosed)|
      requires (forall c :: c in kept <==> c in place && place[c].Scanned?)
      requires forall i, j | 0 <= i < j < |kept| :: kept[i] != kept[j]
      modifies this`idle, this`nsocks, this`place, this`budget
      ensures Valid() && idle == old(idle) + kept && httpAvail == old(httpAvail)
      ensures forall c :: c in place <==> c in old(place)
      ensures forall c | c in place :: place[c] == match old(place)[c]
                                                   case Scanned => Idle
                                                   case ScanClosed => Lost
                                                   case p => p
      ensures budget == old(budget) - |At(old(place), ScanClosed) * http|
      ensures budget == old(budget) <==> forall c | c in old(place) && old(place)[c].ScanClosed? :: c !in http
    {
      hide Counted, CountedHttp, LostHttp, At, IdleIs, ClosedOnce, Balanced;
      ghost var dropped := At(place, ScanClosed);
      DropsCounted(place, http);
      DroppedHttp(place, http);
      ScanOver(closes, gets, gives, place, idle);
      nsocks := nsocks - ndrop;
      budget := budget - |dropped * http|;
      place := map c | c in place :: if place[c].ScanClosed? then Lost else place[c];
      PushAll(kept);
    }

    /** Returns the connections that the scan has found valid. */
    method PushAll(kept: seq<nat>)
      requires Valid() && (forall c | c in kept :: c in place && place[c].Scanned?)
      requires forall i, j | 0 <= i < j < |kept| :: kept[i] != kept[j]
      modifies this`idle, this`place
      ensures Valid() && idle == old(idle) + kept && place.Keys == old(place).Keys
      ensures forall c | c in place :: place[c] == if c in kept then Idle else old(place)[c]
    {
      hide Counted, CountedHttp, LostHttp, IdleIs, ClosedOnce, Balanced;
      for i := 0 to |kept|
        invariant Valid() && idle == old(idle) + kept[..i]
        invariant place.Keys == old(place).Keys
        invariant forall c | c in place :: place[c] == if c in kept[..i] then Idle else old(place)[c]
      {
        assert kept[..i + 1] == kept[..i] + [kept[i]];
        NotIdle(idle, place, kept[i]);
        IdlePush(idle, place, kept[i]);
        ClosedSame(closes, place, kept[i], Idle);
        BalancedSame(gets, gives, place, kept[i], Idle);
        Moved(place, http, kept[i], Idle);
        Push(kept[i]);
        place := place[kept[i] := Idle];
      }
      assert kept[..|kept|] == kept;
    }
  }

  /** A kept-alive HTTP connection is dropped, and a procedure server connects. */
  method ScanOfDropped() returns (rpc: Rpc)
    ensures fresh(rpc) && rpc.Valid() && rpc.budget == 1 && rpc.http == {0}
    ensures rpc.place == map[0 := ScanClosed, 1 := Scanned]
  {
    hide Counted, CountedHttp, LostHttp, IdleIs, ClosedOnce, Balanced, At;
    rpc := new Rpc(true, 1);
    rpc.Dial(0, 0);
    var doClose := rpc.Put(0, true, 0);
    var scan := rpc.Accept(1);
    assert scan == [0, 1];
    rpc.ScanDrop(0);
  }

  /** The limit on HTTP connections can be lost: one kept-alive connection that its server drops
      before the next accept leaves no HTTP connection and none available, so that callers wait for
      one before they connect again. */
  method ScanLosesLimit() returns (rpc: Rpc)
    ensures fresh(rpc) && rpc.Valid() && rpc.budget == 0 && rpc.httpAvail == 0
    ensures forall c | c in rpc.place && c in rpc.http :: rpc.place[c].Lost?
  {
    hide Counted, CountedHttp, LostHttp, IdleIs, ClosedOnce, Balanced, At;
    rpc := ScanOfDropped();
    OneClosed(rpc.place);
    rpc.ScanEnd([1], 1);
    NoHttpLeft(rpc.place, rpc.http);
  }

  lemma NoHttpLeft(place: Places, http: set<nat>)
    requires forall c | c in place && c in http :: place[c].Lost?
    ensures CountedHttp(place, http) == {}
  {
  }

  lemma OneClosed(place: Places)
    requires place == map[0 := ScanClosed, 1 := Scanned]
    ensures At(place, ScanClosed) == {0}
  {
  }

  /** What the accept scan fails to give back is nothing exactly if no HTTP connection was dropped. */
  lemma DroppedHttp(place: Places, http: set<nat>)
    ensures |At(place, ScanClosed) * http| == 0 <==> forall c | c in place && place[c].ScanClosed? :: c !in http
  {
    var lost := At(place, ScanClosed) * http;
    if |lost| == 0 {
      assert lost == {};
      assert forall c | c in place && place[c].ScanClosed? && c in http :: c in lost;
    }
  }

  lemma ScanStart(closes: multiset<nat>, gets: multiset<(nat, nat)>, gives: multiset<(nat, nat)>, place: Places, idle: seq<nat>)
    requires IdleIs(idle, place) && ClosedOnce(closes, place) && Balanced(gets, gives, place)
    ensures var place2 := map x | x in place :: if x in idle then Scanned else place[x];
            IdleIs([], place2) && ClosedOnce(closes, place2) && Balanced(gets, gives, place2)
  {
  }

  lemma ScanOver(closes: multiset<nat>, gets: multiset<(nat, nat)>, gives: multiset<(nat, nat)>, place: Places, idle: seq<nat>)
    requires IdleIs(idle, place) && ClosedOnce(closes, place) && Balanced(gets, gives, place)
    ensures var place2 := map c | c in place :: if place[c].ScanClosed? then Lost else place[c];
            IdleIs(idle, place2) && ClosedOnce(closes, place2) && Balanced(gets, gives, place2)
  {
  }

  /** Marking a connection that does not exist yet. */
  lemma NewHttp(place: Places, http: set<nat>, c: nat)
    requires c !in place
    ensures CountedHttp(place, http + {c}) == CountedHttp(place, http) && LostHttp(place, http + {c}) == LostHttp(place, http)
  {
  }

  /** Taking the list away for the scan changes no count. */
  lemma AllScanned(place: Places, http: set<nat>, idle: seq<nat>)
    requires IdleIs(idle, place)
    ensures var place2 := map x | x in place :: if x in idle then Scanned else place[x];
            && Counted(place2) == Counted(place) && CountedHttp(place2, http) == CountedHttp(place, http)
            && LostHttp(place2, http) == LostHttp(place, http)
  {
  }

  /** Dropping the connections that the scan has closed. */
  lemma DropsCounted(place: Places, http: set<nat>)
    ensures var place2 := map c | c in place :: if place[c].ScanClosed? then Lost else place[c];
            && |Counted(place2)| == |Counted(place)| - |At(place, ScanClosed)|
            && |CountedHttp(place2, http)| == |CountedHttp(place, http)| - |At(place, ScanClosed) * http|
            && |LostHttp(place2, http)| == |LostHttp(place, http)| + |At(place, ScanClosed) * http|
  {
    DropsOne(place);
    DropsLost(place, http);
    DropsHttp(place, http);
  }

  lemma DropsOne(place: Places)
    ensures var place2 := map c | c in place :: if place[c].ScanClosed? then Lost else place[c];
            |Counted(place2)| == |Counted(place)| - |At(place, ScanClosed)|
  {
    var place2 := map c | c in place :: if place[c].ScanClosed? then Lost else place[c];
    var before, dropped := Counted(place), At(place, ScanClosed);
    assert dropped <= before;
    assert Counted(place2) == before - dropped;
    Smaller(before, dropped);
  }

  lemma DropsHttp(place: Places, http: set<nat>)
    ensures var place2 := map c | c in place :: if place[c].ScanClosed? then Lost else place[c];
            |CountedHttp(place2, http)| == |CountedHttp(place, http)| - |At(place, ScanClosed) * http|
  {
    var place2 := map c | c in place :: if place[c].ScanClosed? then Lost else place[c];
    var before, dropped := CountedHttp(place, http), At(place, ScanClosed) * http;
    assert dropped <= before;
    assert CountedHttp(place2, http) == before - dropped;
    Smaller(before, dropped);
  }

  lemma DropsLost(place: Places, http: set<nat>)
    ensures var place2 := map c | c in place :: if place[c].ScanClosed? then Lost else place[c];
            |LostHttp(place2, http)| == |LostHttp(place, http)| + |At(place, ScanClosed) * http|
  {
    var place2 := map c | c in place :: if place[c].ScanClosed? then Lost else place[c];
    var before, dropped := LostHttp(place, http), At(place, ScanClosed) * http;
    assert before * dropped == {};
    assert LostHttp(place2, http) == before + dropped;
  }

  lemma Smaller(a: set<nat>, b: set<nat>)
    requires b <= a
    ensures |a - b| == |a| - |b|
  {
    assert a == (a - b) + b && (a - b) * b == {};
  }
}
