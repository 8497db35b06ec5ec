/** A turn of the broadcaster's loop is a run of the replication system. */
module TurnRuns {
  import opened Wire
  import opened NvServer
  import opened Options
  import opened Receiver
  import opened Outgoing
  import opened Turns
  import opened Replication
  import Broadcast

  ghost predicate Matches(outs: seq<Out>, s: Sys) {
    |outs| == |s.links| && forall i | 0 <= i < |outs| :: s.links[i].out == outs[i]
  }

  predicate LoginEnds(o: Out, io: Io) {
    io.Sends? && o.phase.Login? && io.n == |o.unsent|
  }

  ghost predicate IsSnapshot(m: Option<string>, db: Arrays) {
    m.Some? && exists snap :: Snapshot(snap, db) && Fits(snap, db.Keys) && m.value == EncodeMessage(snap)
  }

  /** Every client whose login ends in the scan is given an exact snapshot. */
  ghost predicate ExactInits(p: Pass, rest: seq<nat>, ios: seq<Io>, login: string, db: Arrays)
    decreases |rest|
  {
    rest != [] ==>
      if rest[0] < |ios| && CanServe(p, rest[0], ios[rest[0]], login) then
        && (LoginEnds(p.outs[rest[0]], ios[rest[0]]) ==> IsSnapshot(InitAfter(p.outs[rest[0]], ios[rest[0]], p.init), db))
        && ExactInits(ServePass(p, rest[0], ios[rest[0]], login), rest[1..], ios, login, db)
      else ExactInits(p, rest[1..], ios, login, db)
  }

  /** What a turn does not touch. */
  predicate SameServer(s: Sys, t: Sys) {
    t.login == s.login && t.db == s.db && t.queue == s.queue
  }

  lemma Single(s: Sys, e: Event) returns (t: Sys)
    requires Inv(s, {}) && Enabled(s, e)
    ensures Framable(s.login) && AllFit(s.queue, s.db.Keys) && t == Do(s, e)
    ensures Leads(s, [e], t) && Inv(t, {})
  {
    hide Enabled, AllFit, LinkOk, Run;
    t := Do(s, e);
    StepKeeps(s, e, {});
    assert StillSynced({}, e) == {};
    LeadsFirst(s, e, [], t);
    assert [e] + [] == [e];
  }

  lemma BusyOnline(s: Sys, i: nat)
    requires Inv(s, {}) && i < |s.links| && s.links[i].out.Busy()
    ensures Online(s.links[i])
  {
    assert LinkOk(s.links[i], s.login, s.db, s.queue, false);
  }

  /** The events of one client's turn; of the bytes under way on a lost connection, `kept` still arrive. */
  function ServeEvents(i: nat, io: Io, kept: nat, snap: Message): seq<Event> {
    match io
    case Quiet => []
    case Connects => [Connected(i)]
    case Refuses => [Refused(i)]
    case Drops => [Lost(i, kept)]
    case Fails => [Lost(i, kept)]
    case Sends(n, _) => [Send(i, n, snap)]
  }

  /** One client's turn is no event or one. */
  lemma ServeRun(s: Sys, p: Pass, i: nat, io: Io, kept: nat, snap: Message) returns (t: Sys)
    requires Inv(s, {}) && Matches(p.outs, s) && CanServe(p, i, io, s.login) && kept <= |s.links[i].conn.transit|
    requires Snapshot(snap, s.db) && Fits(snap, s.db.Keys)
    requires LoginEnds(p.outs[i], io) ==> InitAfter(p.outs[i], io, p.init) == Some(EncodeMessage(snap))
    ensures Leads(s, ServeEvents(i, io, kept, snap), t) && Inv(t, {}) && SameServer(s, t)
    ensures Matches(ServePass(p, i, io, s.login).outs, t)
  {
    hide Inv, Fits, Snapshot, EncodeMessage, AllFit, Frame;
    match io
    case Quiet =>
      t := s;
    case Connects =>
      t := Single(s, Connected(i));
    case Refuses =>
      t := Single(s, Refused(i));
    case Drops =>
      t := Single(s, Lost(i, kept));
    case Fails =>
      BusyOnline(s, i);
      t := Single(s, Lost(i, kept));
    case Sends(n, _) =>
      t := Single(s, Send(i, n, snap));
      FitsFramed(snap, s.db.Keys);
      SentSame(p.outs[i], n, InitAfter(p.outs[i], io, p.init), Some(EncodeMessage(snap)));
  }

  lemma FitsFramed(m: Message, known: set<string>)
    requires Fits(m, known)
    ensures Framable(EncodeMessage(m))
  {
  }

  /** The initial message matters only when a login ends. */
  lemma SentSame(o: Out, n: nat, a: Option<string>, b: Option<string>)
    requires n <= |o.unsent| && (a.Some? ==> Framable(a.value)) && (b.Some? ==> Framable(b.value))
    requires o.phase.Login? && n == |o.unsent| ==> a == b
    ensures o.Sent(n, a) == o.Sent(n, b)
  {
  }

  lemma ScanRun(s: Sys, p: Pass, rest: seq<nat>, ios: seq<Io>, snap: Message) returns (events: seq<Event>, t: Sys)
    requires Inv(s, {}) && Matches(p.outs, s) && ExactInits(p, rest, ios, s.login, s.db)
    requires Snapshot(snap, s.db) && Fits(snap, s.db.Keys)
    ensures Leads(s, events, t) && Inv(t, {}) && SameServer(s, t)
    ensures Matches(ScanPass(p, rest, ios, s.login).outs, t)
    decreases |rest|
  {
    hide Inv, Fits, Snapshot, Leads, IsSnapshot, CanServe, ServePass;
    if rest == [] {
      events, t := [], s;
      LeadsNowhere(s);
    } else if rest[0] < |ios| && CanServe(p, rest[0], ios[rest[0]], s.login) {
      Servable(p, rest[0], ios[rest[0]], s.login);
      var first := snap;
      if LoginEnds(p.outs[rest[0]], ios[rest[0]]) {
        first := SnapshotOf(InitAfter(p.outs[rest[0]], ios[rest[0]], p.init), s.db);
      }
      var kept := |s.links[rest[0]].conn.transit|;
      var e1 := ServeEvents(rest[0], ios[rest[0]], kept, first);
      var s1 := ServeRun(s, p, rest[0], ios[rest[0]], kept, first);
      var e2;
      e2, t := ScanRun(s1, ServePass(p, rest[0], ios[rest[0]], s.login), rest[1..], ios, snap);
      LeadsConcat(s, e1, s1, e2, t);
      events := e1 + e2;
    } else {
      events, t := ScanRun(s, p, rest[1..], ios, snap);
    }
  }

  lemma SnapshotOf(m: Option<string>, db: Arrays) returns (snap: Message)
    requires IsSnapshot(m, db)
    ensures Snapshot(snap, db) && Fits(snap, db.Keys) && m == Some(EncodeMessage(snap))
  {
    snap :| Snapshot(snap, db) && Fits(snap, db.Keys) && m.value == EncodeMessage(snap);
  }

  lemma Servable(p: Pass, i: nat, io: Io, login: string)
    requires CanServe(p, i, io, login)
    ensures i < |p.outs|
  {
  }

  lemma LeadsNowhere(s: Sys)
    ensures Leads(s, [], s)
  {
  }

  /** The clients for which a new connection is started. */
  function Retries(p: Pass, rest: seq<nat>, connects: seq<bool>): seq<Event>
    decreases |rest|
  {
    if rest == [] then [] else
      var i := rest[0];
      if i < |connects| && connects[i] && i < |p.outs| && p.outs[i].phase.Down? then
        [Retry(i)] + Retries(p.(outs := p.outs[i := Out(Connecting, "")], active := [i] + p.active), rest[1..], connects)
      else Retries(p.(retry := [i] + p.retry), rest[1..], connects)
  }

  lemma RetryRun(s: Sys, p: Pass, rest: seq<nat>, connects: seq<bool>) returns (events: seq<Event>, t: Sys)
    requires Inv(s, {}) && Matches(p.outs, s)
    ensures events == Retries(p, rest, connects) && Leads(s, events, t) && Inv(t, {}) && SameServer(s, t)
    ensures Matches(RetryPass(p, rest, connects).outs, t)
    decreases |rest|
  {
    hide Inv, Leads;
    if rest == [] {
      events, t := [], s;
      LeadsNowhere(s);
    } else {
      var i := rest[0];
      if i < |connects| && connects[i] && i < |p.outs| && p.outs[i].phase.Down? {
        var s1 := Single(s, Retry(i));
        var e2;
        e2, t := RetryRun(s1, p.(outs := p.outs[i := Out(Connecting, "")], active := [i] + p.active), rest[1..], connects);
        LeadsConcat(s, [Retry(i)], s1, e2, t);
        events := [Retry(i)] + e2;
      } else {
        events, t := RetryRun(s, p.(retry := [i] + p.retry), rest[1..], connects);
      }
    }
  }

  lemma PopRun(s: Sys, p: Pass) returns (t: Sys)
    requires Inv(s, {}) && Matches(p.outs, s) && !AnyBusy(p.outs) && s.queue != []
    ensures Framable(EncodeMessage(s.queue[0])) && Matches(OfferPass(p, EncodeMessage(s.queue[0])).outs, t)
    ensures Leads(s, [Pop], t) && Inv(t, {}) && t.login == s.login && t.db == s.db && t.queue == s.queue[1..]
  {
    hide LinkOk, Run, EncodeMessage, MessageOk, Frame;
    assert Fits(s.queue[0], s.db.Keys);
    forall i | 0 <= i < |s.links| ensures !s.links[i].out.Busy() {
      assert !p.outs[i].Busy();
    }
    t := Single(s, Pop);
  }

  /** What a turn makes of the clients, with messages as values, is a run of the system. */
  lemma PassRun(s: Sys, was: Pass, retryNow: bool, connects: seq<bool>, ios: seq<Io>, snap: Message)
    returns (events: seq<Event>, t: Sys)
    requires Inv(s, {}) && Matches(was.outs, s) && Snapshot(snap, s.db) && Fits(snap, s.db.Keys)
    requires var p := AfterRetry(was, retryNow, connects); ExactInits(p.(active := []), p.active, ios, s.login, s.db)
    ensures var mid := BeforePop(was, retryNow, connects, ios, s.login);
            && Leads(s, events, t) && Inv(t, {}) && t.db == s.db && t.login == s.login
            && if AnyBusy(mid.outs) || s.queue == [] then Matches(mid.outs, t) && t.queue == s.queue
               else Framable(EncodeMessage(s.queue[0])) && Matches(OfferPass(mid, EncodeMessage(s.queue[0])).outs, t)
                    && t.queue == s.queue[1..]
  {
    hide Inv, Fits, Snapshot, Leads, IsSnapshot, ScanPass, RetryPass, ExactInits, EncodeMessage, AnyBusy;
    var p, s1 := AfterRetry(was, retryNow, connects), s;
    events := [];
    LeadsNowhere(s);
    if retryNow {
      events, s1 := RetryRun(s, was.(retry := []), was.retry, connects);
    }
    var e2, s2 := ScanRun(s1, p.(active := []), p.active, ios, snap);
    LeadsConcat(s, events, s1, e2, s2);
    events, t := events + e2, s2;
    var mid := ScanPass(p.(active := []), p.active, ios, s.login);
    if !AnyBusy(mid.outs) && s.queue != [] {
      t := PopRun(s2, mid);
      LeadsConcat(s, events, s2, [Pop], t);
      events := events + [Pop];
    }
  }

  /** The broadcaster's clients, queue and login are those of the system. */
  ghost predicate Mirrors(b: Broadcast.Broadcaster, s: Sys)
    reads b
  {
    b.Valid() && Matches(b.Outs(), s) && b.LoginData() == s.login && b.Texts() == Encoded(s.queue)
  }

  /** A turn of the loop is a run of the system: retries, one event at most for each active client, and
      a message taken from the queue. So what holds after every run holds at the head of the loop. */
  method TurnIsRun(b: Broadcast.Broadcaster, retryNow: bool, connects: seq<bool>, ios: seq<Io>, ghost s: Sys, ghost snap: Message)
    returns (ghost events: seq<Event>, ghost t: Sys)
    requires Mirrors(b, s) && Inv(s, {}) && |ios| == |connects| == |b.clients|
    requires forall i | 0 <= i < |b.clients| ::
               IoOk(if retryNow && b.Outs()[i].phase.Down? && connects[i] then Out(Connecting, "") else b.Outs()[i], ios[i])
    requires forall i | 0 <= i < |b.clients| :: Broadcast.NewAddress(ios[i]) !! b.heap.Keys
    requires forall i, j | 0 <= i < j < |b.clients| :: Broadcast.NewAddress(ios[i]) !! Broadcast.NewAddress(ios[j])
    requires Snapshot(snap, s.db) && Fits(snap, s.db.Keys)
    requires var p := AfterRetry(b.State(), retryNow, connects); ExactInits(p.(active := []), p.active, ios, s.login, s.db)
    modifies b
    ensures Mirrors(b, t) && Inv(t, {}) && Leads(s, events, t) && t.db == s.db
  {
    hide Inv, Fits, Snapshot, Leads, ExactInits, IoOk, Broadcast.NewAddress, EncodeMessage, BeforePop, AnyBusy, OfferPass;
    events, t := PassRun(s, b.State(), retryNow, connects, ios, snap);
    EncodedTail(s.queue);
    b.Turn(retryNow, connects, ios);
  }

  lemma EncodedTail(ms: seq<Message>)
    ensures ms != [] ==> Encoded(ms)[1..] == Encoded(ms[1..]) && Encoded(ms)[0] == EncodeMessage(ms[0])
  {
    hide EncodeMessage;
  }
}
