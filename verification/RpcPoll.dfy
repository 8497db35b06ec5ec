/** A procedure server's poll loop, for one client: which callbacks happen when. */
module RpcPoll {
  import opened Options
  import opened RpcWire
  import opened RpcServer

  /** What can happen to a connection: bytes arrive, the client ends its stream, or the server makes a
      pass over its sockets. In a pass, `sizes` are the bytes that each read would like to get, and
      `sent` tells whether the response goes out, if there is one. */
  datatype Happening =
    | Arrives(bytes: string)
    | Ends
    | Passes(sizes: nat -> nat, sent: bool)

  /** A connection as seen from outside: the current request as far as it has been read, what has been
      read ahead and what has not been read, whether requests are being received, all bytes that ever
      arrived, those of them that belong to served requests, and the calls for these. `lastRead` is the
      current request with all bytes of the last read from the kernel, and `since` counts the calls
      since that read. `polite` says that so far no byte of a request came before the response to the
      request before it had gone out. */
  datatype Record = Record(partial: string, ahead: string, kernel: string, receiving: bool, arrived: string, done: string,
                           calls: seq<(nat, string)>, lastRead: string, since: nat, polite: bool)
  {
    function Unserved(): string {
      partial + ahead + kernel
    }

    ghost predicate Ok() {
      && arrived == done + Unserved() && Leads(done, calls)
      && |WholePackets(lastRead)| == since + |WholePackets(partial + ahead)|
      && (receiving ==> Lacks(partial) > 0) && (!receiving ==> partial == "" && since >= 1)
      && (polite ==> if receiving then Lacks(Unserved()) >= 0 else Unserved() == "")
    }
  }

  /** Some bytes are the packets of some calls. */
  ghost predicate Leads(done: string, calls: seq<(nat, string)>) {
    forall rest :: WholePackets(done + rest) == calls + WholePackets(rest)
  }

  lemma NothingDone()
    ensures Leads("", []) && WholePackets("") == []
  {
    forall rest ensures WholePackets("" + rest) == [] + WholePackets(rest) {
      assert "" + rest == rest;
    }
  }

  lemma NoneWhole(p: string)
    requires Lacks(p) > 0
    ensures WholePackets(p) == []
  {
  }

  lemma MoreDone(done: string, calls: seq<(nat, string)>, p: string, bytes: string, m: (nat, string))
    requires Leads(done, calls) && Take(p, bytes) == ("", Some(m))
    ensures Leads(done + (p + bytes), calls + [m])
  {
    hide Take, WholePackets;
    forall rest ensures WholePackets(done + (p + bytes) + rest) == calls + [m] + WholePackets(rest) {
      assert done + (p + bytes) + rest == done + (p + bytes + rest);
      TakeWhole(p, bytes, rest);
    }
  }

  /** What a callback that takes some bytes makes of a connection. */
  function AfterTake(r: Record, bytes: string, ahead: string): Record {
    var (q, m) := Take(r.partial, bytes);
    if m.None? then r.(partial := q, ahead := ahead)
    else r.(partial := q, ahead := ahead, receiving := false, done := r.done + (r.partial + bytes),
            calls := r.calls + [m.value], since := r.since + 1)
  }

  lemma TakeOk(r: Record, bytes: string, ahead: string)
    requires r.Ok() && r.receiving && bytes + ahead == r.ahead && |bytes| <= Lacks(r.partial)
    ensures AfterTake(r, bytes, ahead).Ok()
  {
    hide WholePackets, Leads, Lacks, Take;
    var (q, m) := Take(r.partial, bytes);
    var r2 := AfterTake(r, bytes, ahead);
    TakeWhole(r.partial, bytes, ahead);
    assert r.partial + r.ahead == r.partial + bytes + ahead;
    assert r.Unserved() == r.partial + bytes + (ahead + r.kernel);
    if m.None? {
      StillLacks(r.partial, bytes);
      assert r2.Unserved() == r.Unserved();
    } else {
      MoreDone(r.done, r.calls, r.partial, bytes, m.value);
      NothingBehind(r.partial, bytes, ahead + r.kernel);
      assert r2.partial + r2.ahead == ahead && r2.Unserved() == ahead + r.kernel;
    }
  }

  lemma StillLacks(p: string, bytes: string)
    requires Lacks(p) > 0 && |bytes| <= Lacks(p) && Take(p, bytes).1.None?
    ensures Lacks(p + bytes) > 0
  {
    HeaderStays(p, bytes);
  }

  /** With a whole packet behind it, nothing else is there unless it is too much. */
  lemma NothingBehind(p: string, bytes: string, rest: string)
    requires Take(p, bytes).1.Some?
    ensures Lacks(p + bytes + rest) >= 0 ==> rest == ""
  {
    HeaderStays(p + bytes, rest);
  }

  /** A read from the kernel, when nothing is left from the one before. */
  function AfterRead(r: Record, n: nat): Record
    requires n <= |r.kernel|
  {
    r.(ahead := r.kernel[..n], kernel := r.kernel[n..], lastRead := r.partial + r.kernel[..n], since := 0)
  }

  lemma ReadOk(r: Record, n: nat)
    requires r.Ok() && r.receiving && r.ahead == "" && n <= |r.kernel|
    ensures AfterRead(r, n).Ok()
  {
    hide WholePackets, Leads, Lacks;
    assert r.kernel == r.kernel[..n] + r.kernel[n..];
    assert AfterRead(r, n).Unserved() == r.Unserved();
  }

  /** One callback: n bytes are read from the kernel if nothing is left from before, and then the next
      k bytes are taken. */
  ghost predicate Received(r: Record, r2: Record, n: nat, k: nat) {
    && n <= |r.kernel| && (n > 0 <==> r.ahead == "") && k > 0
    && var read := if n == 0 then r else AfterRead(r, n);
       k <= |read.ahead| && r2 == AfterTake(read, read.ahead[..k], read.ahead[k..])
  }

  function AfterArrival(r: Record, bytes: string): Record {
    var r2 := r.(kernel := r.kernel + bytes, arrived := r.arrived + bytes);
    r2.(polite := r.polite && (bytes == "" || (r.receiving && Lacks(r2.Unserved()) >= 0)))
  }

  lemma ArrivalOk(r: Record, bytes: string)
    requires r.Ok()
    ensures AfterArrival(r, bytes).Ok()
  {
    hide WholePackets, Leads, Lacks;
    assert AfterArrival(r, bytes).Unserved() == r.Unserved() + bytes;
    if bytes == "" {
      assert r.Unserved() + bytes == r.Unserved();
    }
  }

  class Polled {
    const conn: ServerConn
    var kernel: string          // arrived, and not yet read
    var ended: bool             // the client sends nothing more
    var dropped: bool
    ghost var arrived: string
    ghost var done: string
    ghost var lastRead: string
    ghost var since: nat
    ghost var polite: bool

    ghost function State(): Record
      reads this, conn
    {
      Record(conn.partial, conn.ahead, kernel, conn.receiving, arrived, done, conn.calls, lastRead, since, polite)
    }

    ghost predicate Core()
      reads this, conn
    {
      && conn.Valid() && (conn.bufsize == 0 ==> conn.ahead == "") && State().Ok()
      && (dropped ==> ended && conn.receiving && conn.ahead == kernel == "")
      && (kernel == "" && !ended ==> since <= 1)
    }

    /** Between two passes: what has been read ahead is left only behind a request that was served. */
    ghost predicate Valid()
      reads this, conn
    {
      && Core()
      && (conn.receiving && conn.ahead != "" ==> since >= 1 && !polite)
    }

    /** No pass does anything before more happens. */
    predicate Idle()
      reads this, conn
    {
      dropped || (conn.receiving && kernel == "" && !ended)
    }

    constructor (bufsize: nat, procedure: (nat, string) -> (nat, string))
      ensures Valid() && fresh(conn) && conn.bufsize == bufsize && State() == Record("", "", "", true, "", "", [], "", 0, true)
      ensures !ended && !dropped
    {
      conn := new ServerConn(bufsize, procedure);
      kernel, ended, dropped := "", false, false;
      arrived, done, lastRead, since, polite := "", "", "", 0, true;
      new;
      NothingDone();
    }

    method Arrive(bytes: string)
      requires Valid() && !ended
      modifies this`kernel, this`arrived, this`polite
      ensures Valid() && State() == AfterArrival(old(State()), bytes)
    {
      hide Record.Ok;
      ArrivalOk(State(), bytes);
      polite := AfterArrival(State(), bytes).polite;
      kernel, arrived := kernel + bytes, arrived + bytes;
    }

    method End()
      requires Valid()
      modifies this`ended
      ensures Valid() && ended && State() == old(State())
    {
      ended := true;
    }

    /** How many bytes a read gets. */
    method ReadSize(size: nat) returns (n: nat)
      requires conn.Valid() && conn.receiving && kernel != ""
      ensures 0 < n <= |kernel| && n <= if conn.bufsize == 0 then conn.nleft else conn.bufsize
      ensures |kernel| <= size && |kernel| <= conn.bufsize ==> n == |kernel|
    {
      var limit := if conn.bufsize == 0 then conn.nleft else conn.bufsize;
      n := if size == 0 then 1 else size;
      n := if n > limit then limit else n;
      n := if n > |kernel| then |kernel| else n;
    }

    /** One receive callback of a pass. There is none to be had when nothing is left to be read, and at
        the end of the stream the client is dropped. */
    method ReceiveOnce(size: nat) returns (more: bool)
      requires Core() && conn.receiving && !dropped && (kernel == "" && !ended ==> since == 0)
      modifies this`kernel, this`dropped, this`done, this`lastRead, this`since, conn
      ensures Core() && (conn.receiving && kernel == "" && !ended ==> since == 0)
      ensures more <==> old(conn.ahead) != "" || old(kernel) != ""
      ensures !more ==> State() == old(State()) && dropped == ended
      ensures more ==> !dropped && exists n: nat, k: nat :: Received(old(State()), State(), n, k)
      ensures old(conn.ahead) == "" && |old(kernel)| <= size && |old(kernel)| <= conn.bufsize ==> kernel == ""
      ensures old(kernel) == "" ==> kernel == ""
    {
      if conn.ahead == "" && kernel == "" {
        dropped := ended;
        return false;
      }
      var n := 0;
      if conn.ahead == "" {
        n := ReadSize(size);
      }
      TakeNext(n);
      more := true;
    }

    /** The callback itself. */
    method TakeNext(n: nat)
      requires Core() && conn.receiving && !dropped && (kernel == "" && !ended ==> since == 0) && n <= |kernel|
      requires if conn.ahead == "" then 0 < n <= if conn.bufsize == 0 then conn.nleft else conn.bufsize else n == 0
      modifies this`kernel, this`done, this`lastRead, this`since, conn
      ensures Core() && (conn.receiving && kernel == "" && !ended ==> since == 0)
      ensures exists k: nat :: Received(old(State()), State(), n, k)
      ensures kernel == old(kernel)[n..]
    {
      hide Record.Ok, Take, Lacks;
      ghost var was := State();
      if n > 0 {
        ReadOk(was, n);
      }
      ghost var read := if n == 0 then was else AfterRead(was, n);
      var arrives := kernel[..n];
      kernel := kernel[n..];
      var _, bytes := conn.Callback(arrives);
      assert n == 0 ==> kernel == was.kernel;
      assert bytes + conn.ahead == read.ahead;
      TakeOk(read, bytes, conn.ahead);
      ghost var r := AfterTake(read, bytes, conn.ahead);
      lastRead, since, done := r.lastRead, r.since, r.done;
      assert Take(was.partial, bytes).1.None? ==> conn.calls == was.calls;
      assert State() == r;
      assert bytes == read.ahead[..|bytes|] && conn.ahead == read.ahead[|bytes|..];
      assert Received(was, State(), n, |bytes|);
    }

    /** A pass over the sockets: if the kernel has bytes or the end of the stream, receive callbacks go
        on until nothing is left to be read or the procedure has been called. Then the response is
        sent, and even if all of it goes out, the next request has to wait for another pass. */
    method Pass(sizes: nat -> nat, sent: bool)
      requires Valid() && !dropped
      modifies this`kernel, this`dropped, this`done, this`lastRead, this`since, conn
      ensures Valid() && arrived == old(arrived) && polite == old(polite)
      ensures old(Idle()) ==> State() == old(State()) && !dropped
      ensures old(conn.ahead) == "" && |old(kernel)| <= sizes(0) && |old(kernel)| <= conn.bufsize && old(conn.receiving)
              ==> kernel == ""
      ensures !old(conn.receiving) ==> State() == old(State()).(receiving := sent) && !dropped
      ensures old(conn.receiving && !Idle()) ==>
                if conn.calls == old(conn.calls) then conn.receiving && kernel == conn.ahead == "" && dropped == ended
                else |conn.calls| == |old(conn.calls)| + 1 && conn.calls[..|old(conn.calls)|] == old(conn.calls)
                     && conn.receiving == sent && !dropped && |kernel| + |conn.ahead| < |old(kernel)| + |old(conn.ahead)|
    {
      ghost var was := State();
      if conn.receiving {
        if kernel == "" && !ended {
          return;
        }
        ReceiveAll(sizes);
      }
      if !conn.receiving && sent {
        SentOk();
        conn.Sent();
      }
    }

    /** The receive callbacks of a pass. */
    method ReceiveAll(sizes: nat -> nat)
      requires Valid() && conn.receiving && !dropped && (kernel != "" || ended)
      modifies this`kernel, this`dropped, this`done, this`lastRead, this`since, conn
      ensures Core() && arrived == old(arrived) && polite == old(polite)
      ensures old(conn.ahead) == "" && |old(kernel)| <= sizes(0) && |old(kernel)| <= conn.bufsize ==> kernel == ""
      ensures if conn.receiving then conn.calls == old(conn.calls) && kernel == conn.ahead == "" && dropped == ended
              else |conn.calls| == |old(conn.calls)| + 1 && conn.calls[..|old(conn.calls)|] == old(conn.calls)
                   && !dropped && |kernel| + |conn.ahead| < |old(kernel)| + |old(conn.ahead)|
    {
      hide Record.Ok, Received;
      ghost var was := State();
      var i, more := 0, true;
      while more && conn.receiving
        modifies this`kernel, this`dropped, this`done, this`lastRead, this`since, conn
        invariant Core() && (conn.receiving && kernel == "" && !ended ==> since == 0)
        invariant arrived == was.arrived && polite == was.polite
        invariant i == 0 ==> State() == was && more
        invariant i > 0 && was.ahead == "" && |was.kernel| <= sizes(0) && |was.kernel| <= conn.bufsize ==> kernel == ""
        invariant |kernel| + |conn.ahead| <= |was.kernel| + |was.ahead|
        invariant if conn.receiving
                  then conn.calls == was.calls && (if more then !dropped else kernel == conn.ahead == "" && dropped == ended)
                  else |conn.calls| == |was.calls| + 1 && conn.calls[..|was.calls|] == was.calls
                       && !dropped && |kernel| + |conn.ahead| < |was.kernel| + |was.ahead|
        decreases |kernel| + |conn.ahead|, more
      {
        ghost var r := State();
        more := ReceiveOnce(sizes(i));
        if more {
          ghost var n: nat, k: nat :| Received(r, State(), n, k);
          ReceivedShape(r, State(), n, k);
        }
        i := i + 1;
      }
    }

    // ---- What is served ----

    /** At all times the procedure has been called once for each of the first requests, in order, and
        the others are still in the bytes that have not been used. */
    lemma ServedInOrder()
      requires Valid()
      ensures WholePackets(arrived) == conn.calls + WholePackets(State().Unserved())
    {
      hide WholePackets;
      assert Leads(done, conn.calls);
    }

    /** When no pass does anything any more, all requests that have arrived are served if and only if
        the last read from the kernel made no more than one of them whole. Of the others that it made
        whole, none is served before more bytes or the end of the stream come. */
    lemma LeftBehind()
      requires Valid() && Idle() && !dropped
      ensures WholePackets(arrived) == conn.calls <==> |WholePackets(lastRead)| <= 1
      ensures |WholePackets(arrived)| == |conn.calls| + if |WholePackets(lastRead)| > 1 then |WholePackets(lastRead)| - 1 else 0
    {
      ServedInOrder();
      hide WholePackets;
      assert conn.partial + conn.ahead + "" == conn.partial + conn.ahead;
      if conn.ahead == "" {
        assert conn.partial + "" == conn.partial;
        NoneWhole(conn.partial);
      }
    }

    /** At the end of the stream every request has been served. */
    lemma AllServedAtEnd()
      requires Valid() && Idle() && ended
      ensures WholePackets(arrived) == conn.calls
    {
      ServedInOrder();
      assert conn.partial + "" + "" == conn.partial;
      NoneWhole(conn.partial);
    }

    /** Without read-ahead every request is served. */
    lemma AllServedDirectly()
      requires Valid() && Idle() && conn.bufsize == 0
      ensures WholePackets(arrived) == conn.calls
    {
      ServedInOrder();
      assert conn.partial + "" + "" == conn.partial;
      NoneWhole(conn.partial);
    }

    /** A client that sends a request only after the response to the one before has all of them served,
        however they are split. */
    lemma AllServedPolitely()
      requires Valid() && Idle() && polite
      ensures WholePackets(arrived) == conn.calls
    {
      ServedInOrder();
      assert conn.partial + "" + "" == conn.partial;
      NoneWhole(conn.partial);
    }

    /** If what has arrived is the packets of some requests, these are the calls exactly under the same
        condition, and in any case if the client waits for responses, ends its stream, or nothing is
        read ahead. */
    lemma RequestsServed(requests: seq<(nat, string)>)
      requires Valid() && Idle() && Sendable(requests) && arrived == Packets(requests)
      ensures !dropped ==> (conn.calls == requests <==> |WholePackets(lastRead)| <= 1)
      ensures polite || ended || conn.bufsize == 0 ==> conn.calls == requests
    {
      PacketsWhole(requests);
      if !dropped {
        LeftBehind();
      }
      if polite {
        AllServedPolitely();
      } else if ended {
        AllServedAtEnd();
      } else if conn.bufsize == 0 {
        AllServedDirectly();
      }
    }

    /** Passes go on until there is nothing to do; responses go out. */
    method Settle(sizes: nat -> nat)
      requires Valid()
      modifies this`kernel, this`dropped, this`done, this`lastRead, this`since, conn
      ensures Valid() && Idle() && arrived == old(arrived) && polite == old(polite)
    {
      while !Idle()
        modifies this`kernel, this`dropped, this`done, this`lastRead, this`since, conn
        invariant Valid() && arrived == old(arrived) && polite == old(polite)
        decreases |kernel| + |conn.ahead|, !conn.receiving, !dropped
      {
        Pass(sizes, true);
      }
    }

    /** Anything that can happen, if it can happen now. */
    method Step(h: Happening)
      requires Valid()
      modifies this, conn
      ensures Valid() && ended == (old(ended) || (h.Ends? && !old(dropped)))
      ensures arrived == old(arrived) + if h.Arrives? && !old(ended) then h.bytes else ""
    {
      match h
      case Arrives(bytes) =>
        if !ended {
          Arrive(bytes);
        }
      case Ends =>
        if !dropped {
          End();
        }
      case Passes(sizes, sent) =>
        if !dropped {
          Pass(sizes, sent);
        }
    }

    /** Any series of such events. */
    method Happen(hs: seq<Happening>)
      requires Valid()
      modifies this, conn
      ensures Valid()
    {
      for i := 0 to |hs|
        invariant Valid()
      {
        Step(hs[i]);
      }
    }

    /** When a response has gone out, the next request is waited for. */
    lemma SentOk()
      requires Core() && !conn.receiving
      ensures State().(receiving := true).Ok() && (conn.ahead != "" ==> since >= 1 && !polite)
    {
    }
  }

  lemma ReceivedShape(r: Record, r2: Record, n: nat, k: nat)
    requires Received(r, r2, n, k) && r.receiving
    ensures r2.arrived == r.arrived && r2.polite == r.polite
    ensures |r2.kernel| + |r2.ahead| < |r.kernel| + |r.ahead|
    ensures if r2.receiving then r2.calls == r.calls
            else |r2.calls| == |r.calls| + 1 && r2.calls[..|r.calls|] == r.calls
  {
    hide Take;
  }

  /** Two requests that arrive together: with the usual read-ahead buffer one read takes both, the
      procedure is called for the first one, and the second one waits though nothing more will come. */
  method TwoAtOnce(procedure: (nat, string) -> (nat, string)) returns (p: Polled)
    ensures fresh(p) && p.Valid() && p.Idle() && !p.dropped && !p.ended
    ensures p.arrived == Packets([(1, ""), (2, "")]) && p.conn.calls == [(1, "")]
  {
    hide WholePackets, Packet;
    var both := Packet(1, "") + Packet(2, "");
    BothWhole();
    p := new Polled(16384, procedure);
    p.Arrive(both);
    assert "" + both == both;
    p.Pass(_ => 16384, true);
    p.ServedInOrder();
    assert p.conn.partial + "" + "" == p.conn.partial;
    if p.conn.calls == [] {
      NoneWhole(p.conn.partial);
    }
    assert p.conn.calls[0] == (1, "");
  }

  lemma BothWhole()
    ensures Packet(1, "") + Packet(2, "") == Packets([(1, ""), (2, "")]) && |Packet(1, "") + Packet(2, "")| == 16
    ensures WholePackets(Packet(1, "") + Packet(2, "")) == [(1, ""), (2, "")]
  {
    var rs: seq<(nat, string)> := [(1, ""), (2, "")];
    assert rs[1..] == [(2, "")] && rs[1..][1..] == [];
    assert Packets(rs[1..][1..]) == "";
    assert Packets(rs[1..]) == Packet(2, "");
    PacketsWhole(rs);
  }
}
