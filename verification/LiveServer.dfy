/** A server of networked arrays as a whole: arrays that any thread may change at any time, the
    broadcaster's thread somewhere in its loop, and the clients at the ends of the connections. */
module LiveServer {
  import opened Wire
  import opened NvArray
  import opened NvServer
  import opened Options
  import opened Receiver
  import opened Outgoing
  import opened Turns
  import opened Replication
  import opened TurnRuns
  import Broadcast

  /** Every message that reloads the arrays can be sent. */
  ghost predicate Reloadable(db: Arrays) {
    forall m | Snapshot(m, db) :: Fits(m, db.Keys)
  }

  /** No name, key or value has a NUL. */
  predicate Clean(db: Arrays) {
    forall n | n in db :: NulFree(n) && forall k | k in db[n] :: NulFree(k) && NulFree(db[n][k])
  }

  /** The bytes it takes to reload an array. */
  ghost function ArrayBytes(db: Arrays): string -> nat {
    n => if n in db then 3 + |n| + 3 * |db[n]| + KeySize(db[n]) + ValueSize(db[n]) else 0
  }

  /** That is so if the strings are clean and short enough, in whatever order the arrays are listed. */
  lemma CleanReloads(db: Arrays)
    requires db != map[] && Clean(db) && Sum(ArrayBytes(db), db.Keys) < LENGTH_LIMIT
    ensures Reloadable(db)
  {
    hide EncodeMessage, Sum, CanReload, Zip, Clean, Lists;
    forall m | Snapshot(m, db) ensures Fits(m, db.Keys) {
      var names, tables, orders :| SnapshotBy(m, db, names, tables, orders);
      ListedBy(names, tables, db);
      ReloadAllBytes(names, tables, orders, db, db.Keys);
      ReloadAllOk(names, tables, orders, db);
      NotEmpty(m);
    }
  }

  lemma ListedBy(names: seq<string>, tables: seq<Table>, db: Arrays)
    requires |names| == |tables| && Unique(names) && db == Zip(names, tables)
    ensures forall n :: n in db.Keys <==> n in names
    ensures forall i | 0 <= i < |names| :: names[i] in db && db[names[i]] == tables[i]
  {
    ZipAt(names, tables);
  }

  lemma NotEmpty(m: Message)
    ensures m != [] ==> EncodeMessage(m) != ""
  {
  }

  lemma ReloadAllOk(names: seq<string>, tables: seq<Table>, orders: seq<seq<string>>, db: Arrays)
    requires db != map[] && Clean(db) && CanReload(names, tables, orders)
    requires forall n :: n in db.Keys <==> n in names
    requires forall i | 0 <= i < |names| :: names[i] in db && db[names[i]] == tables[i]
    ensures MessageOk(ReloadAll(names, tables, orders), db.Keys)
  {
    var n :| n in db;
    assert n in names;
  }

  lemma {:induction false} ReloadAllBytes(names: seq<string>, tables: seq<Table>, orders: seq<seq<string>>, db: Arrays,
                                          keys: set<string>)
    requires Exact(names, tables, orders) && CanReload(names, tables, orders)
    requires forall n :: n in keys <==> n in names
    requires forall i | 0 <= i < |names| :: names[i] in db && db[names[i]] == tables[i]
    ensures |EncodeMessage(ReloadAll(names, tables, orders))| == Sum(ArrayBytes(db), keys)
    decreases |names|
  {
    hide EncodeMessage, EncodeUpdate, Reload, KeySize, ValueSize, Sum;
    var m := ReloadAll(names, tables, orders);
    if names == [] {
      assert keys == {};
      NoBytes(m, db);
    } else {
      var n := |names| - 1;
      var name := names[n];
      assert m[..n] == ReloadAll(names[..n], tables[..n], orders[..n]);
      ReloadAllBytes(names[..n], tables[..n], orders[..n], db, keys - {name});
      SumRemove(ArrayBytes(db), keys, name);
      MessageStep(m, n);
      assert m[..n + 1] == m;
      ReloadSize(name, tables[n], orders[n]);
    }
  }

  lemma NoBytes(m: Message, db: Arrays)
    ensures Sum(ArrayBytes(db), {}) == 0 && (m == [] ==> EncodeMessage(m) == "")
  {
  }

  class Live {
    const server: Broadcast.Broadcaster
    const nv: NvServer
    var scanning: bool             // the broadcaster is in its pass over the active clients
    var rest: seq<nat>             // the clients still to come in that pass
    var busy: bool                 // one of those before them is in the middle of a message
    ghost var sys: Sys             // the server, the network and the clients
    ghost var history: seq<Event>  // all that has happened
    ghost const start: Sys

    /** The broadcaster's clients, queue and login are those of the system `s`. */
    ghost predicate Mirrors(s: Sys)
      reads this`rest, server
    {
      && server.RefsOk(multiset{}) && server.DataOk() && server.ListsOk(rest)
      && Matches(server.Outs(), s) && server.LoginData() == s.login && server.Texts() == Encoded(s.queue)
    }

    /** All that has happened is a run of the system. */
    ghost predicate Running()
      reads this, server
    {
      && Mirrors(sys) && Start(start) && Inv(sys, {}) && Leads(start, history, sys)
      && if scanning then busy <==> SomeBusy(server.Outs(), rest) else rest == []
    }

    /** The arrays hold `db`, and every change of them has been broadcast. */
    ghost predicate Holds(db: Arrays)
      reads nv, nv.arrays
    {
      && nv.Valid() && nv.arrays != [] && nv.Contents() == db && Reloadable(db)
      && forall i | 0 <= i < |nv.arrays| :: nv.arrays[i].served && nv.arrays[i].logged == []
    }

    ghost predicate Valid()
      reads this, server, nv, nv.arrays
    {
      Running() && Holds(sys.db) && server.InitData() == nv.initMsg
    }

    /** A new server; its clients may hold anything in their arrays. */
    constructor (name: string, nv: NvServer, clients: nat, ghost stores: seq<Arrays>)
      requires Framable(Arg(name)) && nv.Valid() && nv.initMsg == None && nv.arrays != [] && Reloadable(nv.Contents())
      requires forall i | 0 <= i < |nv.arrays| :: nv.arrays[i].served && nv.arrays[i].logged == []
      requires |stores| == clients && forall i | 0 <= i < clients :: stores[i].Keys == nv.Contents().Keys
      ensures Valid() && fresh(server) && this.nv == nv && history == [] && !scanning
      ensures sys == NewSys(Arg(name), nv.Contents(), stores)
    {
      hide Inv, Fits, NvServer.Valid, Zip, Snapshot, Run, EncodeMessage, EncodeUpdate, Framable,
           Broadcast.Counted, Broadcast.Refs, Broadcast.OutsOf, Broadcast.Lists;
      this.nv := nv;
      server := new Broadcast.Broadcaster(name, clients);
      scanning, rest, busy := false, [], false;
      ghost var s := NewSys(Arg(name), nv.Contents(), stores);
      StartInv(s);
      sys, start, history := s, s, [];
      new;
    }

    // ---- The threads that change arrays ----

    /** A free address for a message. */
    method FreeAddress() returns (a: int)
      ensures a > 0 && a !in server.heap
    {
      a := 1;
      while a in server.heap
        invariant a > 0
        decreases |set x | x in server.heap && x >= a|
      {
        Fewer(set x | x in server.heap && x >= a + 1, (set x | x in server.heap && x >= a), a);
        a := a + 1;
      }
    }

    /** What has happened is written down. */
    ghost method Extend(events: seq<Event>, t: Sys)
      requires Leads(start, history, sys) && Leads(sys, events, t)
      modifies this`sys, this`history
      ensures sys == t && history == old(history) + events && Leads(start, history, sys)
    {
      LeadsConcat(start, history, sys, events, t);
      sys, history := t, history + events;
    }

    /** A change that has been made to an array is broadcast. */
    method Publish(i: nat, ghost c: Cmd)
      requires i < |nv.arrays| && nv.arrays[i].outbox != []
      requires var u, box := Update(nv.arrays[i].netname, [c]), nv.arrays[i].outbox;
               && Running() && Fits([u], sys.db.Keys) && Holds(Run(OpsOf(u), sys.db)) && server.InitData() == nv.initMsg
               && box[|box| - 1] == EncodeUpdate(u)
      modifies this`sys, this`history, server
      ensures Valid() && history == old(history) + [Change(Update(nv.arrays[i].netname, [c]))]
    {
      hide Inv, Leads, Start, Fits, NvServer.Valid, Zip, Snapshot, Run, EncodeMessage, EncodeUpdate, Framable,
           Broadcast.Counted, Broadcast.Refs, Broadcast.OutsOf, Broadcast.Lists, Broadcast.ClientsOk, SomeBusy;
      ghost var u := Update(nv.arrays[i].netname, [c]);
      var box := nv.arrays[i].outbox;
      ghost var t := Single(sys, Change(u));
      EncodedConcat(sys.queue, [[u]]);
      MessageOne([u]);
      FitsFramed([u], sys.db.Keys);
      var a := FreeAddress();
      server.Post(a, box[|box| - 1]);
      Extend([Change(u)], t);
    }

    /** Sets an entry of an array. */
    method SetVar(i: nat, key: string, val: string, cset: bool) returns (isNew: bool)
      requires Valid() && i < |nv.arrays| && Fits([Update(nv.arrays[i].netname, [Set(key, val)])], sys.db.Keys)
      requires Reloadable(nv.Contents()[nv.arrays[i].netname := nv.arrays[i].vars[key := val]])
      modifies this`sys, this`history, server, nv.arrays[i]
      ensures Valid() && (isNew <==> key !in old(nv.arrays[i].vars))
      ensures history == old(history) + if cset && !isNew then [] else [Change(Update(nv.arrays[i].netname, [Set(key, val)]))]
    {
      hide Inv, Leads, Start, Fits, NvServer.Valid, Zip, Snapshot, Run, EncodeMessage, EncodeUpdate, Framable,
           Broadcast.Counted, Broadcast.Refs, Broadcast.OutsOf, Broadcast.Lists;
      RunOne(i, Set(key, val));
      isNew := nv.SetVar(i, key, val, cset);
      assert old(nv.arrays[i].logged) + [Set(key, val)] == [Set(key, val)];
      if !cset || isNew {
        Publish(i, Set(key, val));
      }
    }

    /** Removes an entry of an array. */
    method UnsetVar(i: nat, key: string) returns (found: bool)
      requires Valid() && i < |nv.arrays| && Fits([Update(nv.arrays[i].netname, [Unset(key)])], sys.db.Keys)
      requires Reloadable(nv.Contents()[nv.arrays[i].netname := nv.arrays[i].vars - {key}])
      modifies this`sys, this`history, server, nv.arrays[i]
      ensures Valid() && (found <==> key in old(nv.arrays[i].vars))
      ensures history == old(history) + if found then [Change(Update(nv.arrays[i].netname, [Unset(key)]))] else []
    {
      hide Inv, Leads, Start, Fits, NvServer.Valid, Zip, Snapshot, Run, EncodeMessage, EncodeUpdate, Framable,
           Broadcast.Counted, Broadcast.Refs, Broadcast.OutsOf, Broadcast.Lists;
      RunOne(i, Unset(key));
      found := nv.UnsetVar(i, key);
      assert old(nv.arrays[i].logged) + [Unset(key)] == [Unset(key)];
      if found {
        Publish(i, Unset(key));
      } else {
        assert old(nv.arrays[i].vars) - {key} == old(nv.arrays[i].vars);
      }
    }

    /** Removes all entries of an array. */
    method FlushArray(i: nat)
      requires Valid() && i < |nv.arrays| && Fits([Update(nv.arrays[i].netname, [Flush])], sys.db.Keys)
      requires Reloadable(nv.Contents()[nv.arrays[i].netname := map[]])
      modifies this`sys, this`history, server, nv.arrays[i]
      ensures Valid() && history == old(history) + [Change(Update(nv.arrays[i].netname, [Flush]))]
    {
      hide Inv, Leads, Start, Fits, NvServer.Valid, Zip, Snapshot, Run, EncodeMessage, EncodeUpdate, Framable,
           Broadcast.Counted, Broadcast.Refs, Broadcast.OutsOf, Broadcast.Lists;
      RunOne(i, Flush);
      nv.FlushArray(i);
      assert old(nv.arrays[i].logged) + [Flush] == [Flush];
      Publish(i, Flush);
    }

    // ---- The broadcaster's thread ----

    /** At the head of its loop: the clients on the retry list are tried again. */
    method Retry(connects: seq<bool>)
      requires Valid() && !scanning && |connects| == |server.clients|
      modifies this`sys, this`history, server
      ensures Valid() && !scanning
      ensures history == old(history + Retries(server.State().(retry := []), server.retry, connects))
    {
      hide Inv, Leads, Start, Fits, NvServer.Valid, Zip, Snapshot, Run, EncodeMessage, EncodeUpdate, Framable,
           Broadcast.Counted, Broadcast.Refs, Broadcast.OutsOf, Broadcast.Lists;
      ghost var p := server.State();
      ghost var events, t := RetryRun(sys, p.(retry := []), p.retry, connects);
      server.RetryAll(connects);
      Extend(events, t);
    }

    /** The pass over the active clients begins. */
    method BeginScan()
      requires Valid() && !scanning
      modifies this`scanning, this`rest, this`busy, server
      ensures Valid() && scanning && rest == old(server.active)
    {
      hide Inv, Leads, Start, Fits, NvServer.Valid, Zip, Snapshot, Run, EncodeMessage, EncodeUpdate, Framable,
           Broadcast.Counted, Broadcast.Refs, Broadcast.OutsOf, Broadcast.Lists;
      rest := server.TakeActive();
      scanning, busy := true, false;
      assert forall i | 0 <= i < |server.clients| && i !in rest :: !server.Outs()[i].Busy();
    }

    /** The next client's turn. If its login ends, the initial message is brought up to date first. */
    method ServeNext(io: Io, order: seq<seq<string>>, ghost kept: nat) returns (ghost snap: Message)
      requires Valid() && scanning && rest != [] && rest[0] < |server.clients| == |sys.links|
      requires IoOk(server.Outs()[rest[0]], io) && (io.Sends? ==> io.rebuilt == None)
      requires |order| == |nv.arrays| && forall i | 0 <= i < |nv.arrays| :: Lists(order[i], nv.arrays[i].vars.Keys)
      requires kept <= |sys.links[rest[0]].conn.transit|
      modifies this`rest, this`busy, this`sys, this`history, server, nv, nv.arrays`needInit
      ensures Valid() && scanning && rest == old(rest)[1..]
      ensures Snapshot(snap, sys.db) && history == old(history) + ServeEvents(old(rest)[0], io, kept, snap)
    {
      hide Inv, Leads, Start, Fits, NvServer.Valid, Zip, Snapshot, Run, EncodeMessage, EncodeUpdate, Framable,
           Broadcast.Counted, Broadcast.Refs, Broadcast.OutsOf, Broadcast.Lists;
      server.CanBeFramed();
      var report;
      report, snap := Report(rest[0], io, order);
      Answer(report, kept, snap);
    }

    /** What the next client's turn has found. */
    ghost predicate Found(report: Io, kept: nat, snap: Message)
      requires Mirrors(sys)
      reads this`rest, this`sys, server
    {
      && rest != [] && rest[0] < |server.clients| == |sys.links| && kept <= |sys.links[rest[0]].conn.transit|
      && IoOk(server.Outs()[rest[0]], report) && Broadcast.NewAddress(report) !! server.heap.Keys
      && Snapshot(snap, sys.db) && Fits(snap, sys.db.Keys)
      && (LoginEnds(server.Outs()[rest[0]], report) ==>
            InitAfter(server.Outs()[rest[0]], report, server.InitData()) == Some(EncodeMessage(snap)))
    }

    /** What a client's turn has found is acted on. */
    method Answer(report: Io, ghost kept: nat, ghost snap: Message)
      requires Running() && scanning && Found(report, kept, snap)
      modifies this`rest, this`busy, this`sys, this`history, server
      ensures Running() && scanning && rest == old(rest)[1..] && sys.db == old(sys.db)
      ensures server.InitData() == old(InitAfter(server.Outs()[rest[0]], report, server.InitData()))
      ensures history == old(history) + ServeEvents(old(rest)[0], report, kept, snap)
    {
      hide Inv, Leads, Start, Fits, Snapshot, Run, EncodeMessage, EncodeUpdate, Broadcast.Counted, Broadcast.Refs,
           Broadcast.OutsOf, Broadcast.Lists, Framable, ServePass, Mirrors, SomeBusy,
           Broadcast.ClientsOk, Broadcast.Broadcaster.RefsOk;
      Next();
      ghost var t := ServeRun(sys, server.State(), rest[0], report, kept, snap);
      ghost var i, outs, before := rest[0], server.Outs(), rest;
      var b := Serve(report, t);
      BusyStep(outs, server.Outs(), i, before);
      busy := busy || b;
      Extend(ServeEvents(i, report, kept, snap), t);
    }

    lemma Next()
      requires Mirrors(sys) && rest != []
      ensures rest[0] < |server.clients| == |server.Outs()| && server.clients[rest[0]].open && rest[0] !in rest[1..]
      ensures server.DataOk() && Sendable(server.LoginData(), server.InitData()) && Matches(server.Outs(), sys)
      ensures server.LoginData() == sys.login
    {
      assert rest == [rest[0]] + rest[1..];
      Broadcast.ListHead(server.active, rest[1..], server.retry, server.clients, rest[0]);
      server.CanBeFramed();
    }

    /** The broadcaster's side of a client's turn. */
    method Serve(report: Io, ghost t: Sys) returns (isBusy: bool)
      requires Mirrors(sys) && rest != [] && rest[0] < |server.clients| && SameServer(sys, t)
      requires CanServe(server.State(), rest[0], report, sys.login) && Broadcast.NewAddress(report) !! server.heap.Keys
      requires Matches(ServePass(server.State(), rest[0], report, sys.login).outs, t)
      modifies this`rest, server
      ensures Mirrors(t) && server.DataOk() && rest == old(rest)[1..] && |server.clients| == |old(server.clients)|
      ensures server.InitData() == old(InitAfter(server.Outs()[rest[0]], report, server.InitData()))
      ensures server.Outs() == old(server.Outs())[old(rest)[0] := server.Outs()[old(rest)[0]]]
      ensures isBusy == server.Outs()[old(rest)[0]].Busy()
    {
      hide Broadcast.Counted, Broadcast.Refs, Broadcast.OutsOf, Broadcast.Lists, Framable, ServePass, Broadcast.TextIn, IoOk;
      Next();
      server.QueueKept();
      ghost var heap := server.heap;
      ServePassIs(server.State(), rest[0], report, sys.login);
      assert rest == [rest[0]] + rest[1..];
      isBusy := server.Serve(rest[0], report, rest[1..]);
      server.QueueKept();
      TextsKept(server.queue, heap, server.heap);
      rest := rest[1..];
    }

    /** The pass is over. Unless a client is in the middle of a message, the next one is offered. */
    method EndScan()
      requires Valid() && scanning && rest == []
      modifies this`scanning, this`sys, this`history, server
      ensures Valid() && !scanning
      ensures history == old(history) + if !busy && old(server.queue) != [] then [Pop] else []
    {
      hide Inv, Leads, Start, Fits, NvServer.Valid, Zip, Snapshot, Run, EncodeMessage, EncodeUpdate, Framable,
           Broadcast.Counted, Broadcast.Refs, Broadcast.OutsOf, Broadcast.Lists, Broadcast.ClientsOk, Matches,
           Broadcast.Broadcaster.RefsOk, LinkOk;
      scanning := false;
      if !busy {
        server.QueueKept();
        EncodedTail(sys.queue);
        if server.queue != [] {
          ghost var t := PopRun(sys, server.State());
          server.Pop();
          server.QueueKept();
          Extend([Pop], t);
        }
      }
    }

    // ---- The clients ----

    /** A client reads. */
    ghost method ClientReads(e: Event)
      requires Valid() && (e.Receive? || e.ReceiveOld?) && Enabled(sys, e)
      modifies this`sys, this`history
      ensures Valid() && history == old(history) + [e]
    {
      hide Inv, Leads, Start, Fits, NvServer.Valid, Zip, Snapshot, Run, EncodeMessage, EncodeUpdate, Framable,
           Broadcast.Counted, Broadcast.Refs, Broadcast.OutsOf, Broadcast.Lists;
      var t := Single(sys, e);
      Extend([e], t);
    }

    /** What one command makes of the arrays. */
    lemma RunOne(i: nat, c: Cmd)
      requires nv.Valid() && i < |nv.arrays|
      ensures nv.arrays[i].netname in nv.Contents() && nv.Contents()[nv.arrays[i].netname] == nv.arrays[i].vars
      ensures Run(OpsOf(Update(nv.arrays[i].netname, [c])), nv.Contents())
           == nv.Contents()[nv.arrays[i].netname := Apply(c, nv.arrays[i].vars)]
    {
      ZipAt(nv.Names(), nv.Tables());
      var u := Update(nv.arrays[i].netname, [c]);
      assert nv.Names()[i] == u.name && nv.Tables()[i] == nv.arrays[i].vars;
      assert OpsOf(u)[..0] == [];
    }

    /** What a client's turn finds; if its login ends, the initial message is brought up to date. */
    method Report(i: nat, io: Io, order: seq<seq<string>>) returns (report: Io, ghost snap: Message)
      requires server.DataOk() && i < |server.clients| && IoOk(server.Outs()[i], io) && (io.Sends? ==> io.rebuilt == None)
      requires Holds(sys.db) && server.InitData() == nv.initMsg
      requires |order| == |nv.arrays| && forall j | 0 <= j < |nv.arrays| :: Lists(order[j], nv.arrays[j].vars.Keys)
      modifies nv, nv.arrays`needInit
      ensures Holds(sys.db) && Snapshot(snap, sys.db) && Fits(snap, sys.db.Keys)
      ensures IoOk(server.Outs()[i], report) && Broadcast.NewAddress(report) !! server.heap.Keys
      ensures nv.initMsg == InitAfter(server.Outs()[i], report, server.InitData())
      ensures LoginEnds(server.Outs()[i], io) ==> nv.initMsg == Some(EncodeMessage(snap))
      ensures if io.Sends? then report.Sends? && report.n == io.n else report == io
    {
      hide Inv, Leads, Start, Fits, NvServer.Valid, Zip, Snapshot, Run, EncodeMessage, EncodeUpdate, Framable,
           Broadcast.Counted, Broadcast.Refs, Broadcast.OutsOf, Broadcast.Lists;
      report := io;
      if io.Sends? {
        server.LoginEndsIs(i, io.n);
        if server.EndsLogin(i, io.n) {
          var rebuilt;
          rebuilt, snap := Renew(order);
          FitsFramed(snap, sys.db.Keys);
          report := Sends(io.n, rebuilt);
          return;
        }
      }
      snap := AnySnapshot(order);
    }

    /** Brings the initial message up to date. */
    method Renew(order: seq<seq<string>>) returns (rebuilt: Option<(int, string)>, ghost snap: Message)
      requires Holds(sys.db) && server.InitData() == nv.initMsg
      requires |order| == |nv.arrays| && forall i | 0 <= i < |nv.arrays| :: Lists(order[i], nv.arrays[i].vars.Keys)
      modifies nv, nv.arrays`needInit
      ensures Holds(sys.db) && Snapshot(snap, sys.db) && nv.initMsg == Some(EncodeMessage(snap))
      ensures rebuilt.Some? ==> rebuilt.value.0 > 0 && rebuilt.value.0 !in server.heap && nv.initMsg == Some(rebuilt.value.1)
      ensures rebuilt.None? ==> nv.initMsg == server.InitData()
    {
      hide Inv, Leads, Start, Fits, NvServer.Valid, Zip, Snapshot, Run, EncodeMessage, EncodeUpdate, Framable,
           Broadcast.Counted, Broadcast.Refs, Broadcast.OutsOf, Broadcast.Lists;
      var msg, new_ := nv.ClientInitMsg(order);
      snap :| Snapshot(snap, sys.db) && msg.value == EncodeMessage(snap);
      rebuilt := None;
      if new_ {
        var a := FreeAddress();
        rebuilt := Some((a, msg.value));
      }
    }

    lemma AnySnapshot(order: seq<seq<string>>) returns (snap: Message)
      requires nv.Valid()
      requires |order| == |nv.arrays| && forall i | 0 <= i < |nv.arrays| :: Lists(order[i], nv.arrays[i].vars.Keys)
      ensures Snapshot(snap, nv.Contents())
    {
      hide Zip, Lists, Unique;
      CanReloadExact(nv.Names(), nv.Tables(), order);
      snap := ReloadAll(nv.Names(), nv.Tables(), order);
      assert SnapshotBy(snap, nv.Contents(), nv.Names(), nv.Tables(), order);
    }

    // ---- What the clients have ----

    /** Convergence, for a server as it runs: arrays are changed at any time, in the middle of the pass
        too, and logins are answered with the cached message or a new one. If no command of an earlier
        connection is left to be read at some moment before a client reads its snapshot, then for as
        long as that connection lasts, the client understands what it is sent; whenever it has caught
        up it is behind by the queued changes only, and with an empty queue it has the server's arrays. */
    lemma ClientsFollow(i: nat, k: nat, mid: Sys)
      requires Valid() && k <= |history| && Leads(start, history[..k], mid) && i < |mid.links| && i < |sys.links|
      requires Unsynced(mid.links[i]) && Replication.Quiet(mid.links[i]) && Stays(history[k..], i)
      ensures sys.links[i].out.phase.Ready? ==> sys.links[i].conn.open
      ensures CaughtUp(sys.links[i]) ==> nv.Contents() == Run(Ops(sys.queue), sys.links[i].store)
      ensures CaughtUp(sys.links[i]) && server.queue == [] ==> sys.links[i].store == nv.Contents()
    {
      hide Inv, Leads, Start, Fits, NvServer.Valid, Zip, Snapshot, Run, EncodeMessage, EncodeUpdate, Framable,
           Broadcast.Counted, Broadcast.Refs, Broadcast.OutsOf, Broadcast.Lists, Unsynced, Replication.Quiet;
      assert history == history[..k] + history[k..];
      LeadsSplit(start, history[..k], mid, history[k..], sys);
      Converges(start, history[..k], mid, history[k..], sys, i);
      assert server.queue == [] ==> |Encoded(sys.queue)| == 0;
    }
  }

  /** No client is connected. */
  function NewSys(login: string, db: Arrays, stores: seq<Arrays>): Sys {
    Sys(login, db, [], seq(|stores|, i requires 0 <= i < |stores| => Link(Out(Down, ""), NO_PIPE, [], stores[i])))
  }

  /** What leads on from the end of the first part. */
  lemma {:induction false} LeadsSplit(s: Sys, a: seq<Event>, t: Sys, b: seq<Event>, u: Sys)
    requires Leads(s, a, t) && Leads(s, a + b, u)
    ensures Leads(t, b, u)
    decreases |a|
  {
    hide Enabled, Do, AllFit;
    if a == [] {
      assert a + b == b;
    } else {
      assert (a + b)[1..] == a[1..] + b;
      LeadsSplit(Do(s, a[0]), a[1..], t, b, u);
    }
  }

  lemma TextsKept(queue: seq<int>, heap: Broadcast.Heap, heap2: Broadcast.Heap)
    requires Broadcast.SameData(heap, heap2) && forall k | 0 <= k < |queue| :: queue[k] in heap && queue[k] in heap2
    ensures Broadcast.TextsOf(queue, heap2) == Broadcast.TextsOf(queue, heap)
  {
  }

  lemma ServePassIs(p: Pass, i: nat, io: Io, login: string)
    requires CanServe(p, i, io, login)
    ensures ServePass(p, i, io, login).init == InitAfter(p.outs[i], io, p.init)
  {
  }

  /** A client that is not among `rest` is in the middle of a message. */
  predicate SomeBusy(outs: seq<Out>, rest: seq<nat>) {
    exists i | 0 <= i < |outs| && i !in rest :: outs[i].Busy()
  }

  /** With one client more looked at. */
  lemma BusyStep(outs: seq<Out>, outs2: seq<Out>, i: nat, rest: seq<nat>)
    requires i < |outs| == |outs2| && outs2 == outs[i := outs2[i]] && rest != [] && rest[0] == i && i !in rest[1..]
    ensures SomeBusy(outs2, rest[1..]) <==> outs2[i].Busy() || SomeBusy(outs, rest)
  {
    assert forall j :: j in rest <==> j == i || j in rest[1..];
  }

  lemma Fewer(a: set<int>, b: set<int>, x: int)
    requires x in b && a == b - {x}
    ensures |a| < |b|
  {
  }
}
