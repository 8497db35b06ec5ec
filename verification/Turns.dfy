/** One turn of a broadcaster's loop, with messages as values: what the clients are still to be sent,
    the two lists, and the initial message. */
module Turns {
  import opened Options
  import opened Receiver
  import opened Outgoing

  /** What poll, connect and send report for one client in one pass. A login that ends may find
      that the initial message has to be rebuilt: then `rebuilt` says where and with what. */
  datatype Io =
    | Quiet
    | Connects
    | Refuses
    | Drops
    | Fails
    | Sends(n: nat, rebuilt: Option<(int, string)>)

  /** Which reports fit the state of a client. */
  predicate IoOk(o: Out, io: Io) {
    match io
    case Quiet => true
    case Connects => o.phase.Connecting?
    case Refuses => o.phase.Connecting?
    case Drops => o.phase.Login? || o.phase.Ready?
    case Fails => o.Busy()
    case Sends(n, rebuilt) => 0 < n <= |o.unsent| && (rebuilt.Some? ==> rebuilt.value.0 != 0 && Framable(rebuilt.value.1))
  }

  predicate Answered(io: Io) {
    io.Quiet? || io.Connects? || io.Sends?
  }

  datatype Pass = Pass(outs: seq<Out>, active: seq<nat>, retry: seq<nat>, init: Option<string>)

  /** The initial message as it stands after a client's turn. */
  function InitAfter(o: Out, io: Io, init: Option<string>): Option<string> {
    if io.Sends? && o.phase.Login? && io.n == |o.unsent| && io.rebuilt.Some? then Some(io.rebuilt.value.1) else init
  }

  predicate Sendable(login: string, init: Option<string>) {
    Framable(login) && (init.Some? ==> Framable(init.value))
  }

  /** What a client's turn makes of what it is still to be sent. */
  function Served(o: Out, io: Io, login: string, init: Option<string>): Out
    requires IoOk(o, io) && Sendable(login, init)
  {
    match io
    case Quiet => o
    case Connects => o.Greet(login)
    case Refuses => o.Lose()
    case Drops => o.Lose()
    case Fails => o.Lose()
    case Sends(n, _) => o.Sent(n, InitAfter(o, io, init))
  }

  predicate CanServe(p: Pass, i: nat, io: Io, login: string) {
    i < |p.outs| && IoOk(p.outs[i], io) && Sendable(login, p.init)
  }

  /** One client's turn in a scan. */
  function ServePass(p: Pass, i: nat, io: Io, login: string): Pass
    requires CanServe(p, i, io, login)
  {
    Pass(p.outs[i := Served(p.outs[i], io, login, p.init)],
         if Answered(io) then [i] + p.active else p.active,
         if Answered(io) then p.retry else [i] + p.retry,
         InitAfter(p.outs[i], io, p.init))
  }

  /** A scan over the clients in `rest`. */
  function ScanPass(p: Pass, rest: seq<nat>, ios: seq<Io>, login: string): Pass
    decreases |rest|
  {
    if rest == [] then p
    else if rest[0] < |ios| && CanServe(p, rest[0], ios[rest[0]], login) then
      ScanPass(ServePass(p, rest[0], ios[rest[0]], login), rest[1..], ios, login)
    else ScanPass(p, rest[1..], ios, login)
  }

  /** The clients in `rest` try to connect. */
  function RetryPass(p: Pass, rest: seq<nat>, connects: seq<bool>): Pass
    decreases |rest|
  {
    if rest == [] then p
    else
      var i := rest[0];
      var started := i < |connects| && connects[i] && i < |p.outs| && p.outs[i].phase.Down?;
      RetryPass(if started then p.(outs := p.outs[i := Out(Connecting, "")], active := [i] + p.active)
                else p.(retry := [i] + p.retry), rest[1..], connects)
  }

  /** A client that has no connection starts to connect if asked to. */
  function Tried(o: Out, started: bool): Out {
    if started && o.phase.Down? then Out(Connecting, "") else o
  }

  /** A client that is tried and starts to connect had no connection; nothing else changes. */
  lemma {:induction false} RetryEach(p: Pass, rest: seq<nat>, connects: seq<bool>, i: nat)
    ensures |RetryPass(p, rest, connects).outs| == |p.outs|
    ensures i < |p.outs| ==>
              RetryPass(p, rest, connects).outs[i] == Tried(p.outs[i], i in rest && i < |connects| && connects[i])
    decreases |rest|
  {
    if rest != [] {
      var k := rest[0];
      assert i in rest <==> i == k || i in rest[1..];
      if k < |connects| && connects[k] && k < |p.outs| && p.outs[k].phase.Down? {
        RetryEach(p.(outs := p.outs[k := Out(Connecting, "")], active := [k] + p.active), rest[1..], connects, i);
      } else {
        RetryEach(p.(retry := [k] + p.retry), rest[1..], connects, i);
      }
    }
  }

  predicate AnyBusy(outs: seq<Out>) {
    exists i | 0 <= i < |outs| :: outs[i].Busy()
  }

  function OfferPass(p: Pass, m: string): Pass
    requires Framable(m)
  {
    p.(outs := seq(|p.outs|, i requires 0 <= i < |p.outs| => p.outs[i].Offer(m)))
  }

  /** After the clients on the retry list have been tried. */
  function AfterRetry(p: Pass, retryNow: bool, connects: seq<bool>): Pass {
    if retryNow then RetryPass(p.(retry := []), p.retry, connects) else p
  }

  /** Before a message is taken from the queue. */
  function BeforePop(p: Pass, retryNow: bool, connects: seq<bool>, ios: seq<Io>, login: string): Pass {
    var p1 := AfterRetry(p, retryNow, connects);
    ScanPass(p1.(active := []), p1.active, ios, login)
  }

  /** A scan serves each of its clients once, with an initial message that is the one before or one
      that a client of the scan has had rebuilt, and leaves the others alone. */
  lemma {:induction false} ScanServesEach(p: Pass, rest: seq<nat>, ios: seq<Io>, login: string, i: nat)
    requires i < |p.outs| == |ios| && Sendable(login, p.init)
    requires forall k | 0 <= k < |rest| :: rest[k] < |ios| && IoOk(p.outs[rest[k]], ios[rest[k]])
    requires forall j, k | 0 <= j < k < |rest| :: rest[j] != rest[k]
    ensures |ScanPass(p, rest, ios, login).outs| == |p.outs|
    ensures i !in rest ==> ScanPass(p, rest, ios, login).outs[i] == p.outs[i]
    ensures i in rest ==> exists init | Sendable(login, init) && (init == p.init || RebuiltIn(rest, ios, init)) ::
              ScanPass(p, rest, ios, login).outs[i] == Served(p.outs[i], ios[i], login, init)
    decreases |rest|
  {
    if rest != [] {
      var p2 := ServePass(p, rest[0], ios[rest[0]], login);
      ScanServesEach(p2, rest[1..], ios, login, i);
      if i in rest[1..] {
        assert rest[0] != i by {
          var k :| 0 <= k < |rest[1..]| && rest[1..][k] == i;
          assert rest[k + 1] == i;
        }
        var init :| Sendable(login, init) && (init == p2.init || RebuiltIn(rest[1..], ios, init)) &&
                    ScanPass(p2, rest[1..], ios, login).outs[i] == Served(p2.outs[i], ios[i], login, init);
        if RebuiltIn(rest[1..], ios, init) {
          RebuiltEarlier(rest, ios, init);
        }
        assert init == p.init || RebuiltIn(rest, ios, init);
      } else if i == rest[0] {
        assert ScanPass(p, rest, ios, login).outs[i] == Served(p.outs[i], ios[i], login, p.init);
      }
    }
  }

  /** The initial message was rebuilt for a client of the scan. */
  predicate RebuiltIn(rest: seq<nat>, ios: seq<Io>, init: Option<string>) {
    exists k | 0 <= k < |rest| && rest[k] < |ios| ::
      ios[rest[k]].Sends? && ios[rest[k]].rebuilt.Some? && init == Some(ios[rest[k]].rebuilt.value.1)
  }

  lemma RebuiltEarlier(rest: seq<nat>, ios: seq<Io>, init: Option<string>)
    requires rest != [] && RebuiltIn(rest[1..], ios, init)
    ensures RebuiltIn(rest, ios, init)
  {
    var k :| 0 <= k < |rest[1..]| && rest[1..][k] < |ios| &&
      ios[rest[1..][k]].Sends? && ios[rest[1..][k]].rebuilt.Some? && init == Some(ios[rest[1..][k]].rebuilt.value.1);
    assert rest[k + 1] == rest[1..][k];
  }
}
