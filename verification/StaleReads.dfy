/** What a client still reads from a connection that was given up can undo what came after it. */
module StaleReads {
  import opened Wire
  import opened NvArray
  import opened NvServer
  import opened Options
  import opened Receiver
  import opened Outgoing
  import opened Replication

  // ---- A change that a message undoes ----

  /** A change after which the array cannot be what the command leaves. */
  function Opposite(o: Op): Update {
    Update(o.name, [match o.cmd case Set(k, _) => Unset(k) case Unset(k) => Set(k, "") case Flush => Set("", "")])
  }

  lemma Opposed(ops: seq<Op>, st: Arrays, db: Arrays)
    requires ops != [] && ops[|ops| - 1].name in st && ops[|ops| - 1].name in db
    ensures Run(ops, st) != Run(OpsOf(Opposite(ops[|ops| - 1])), db)
  {
    hide Run, Step;
    var o := ops[|ops| - 1];
    var key := if o.cmd.Flush? then "" else o.cmd.key;
    var back := OpsOf(Opposite(o))[0];
    LastOne(ops, st);
    LastOne([back], db);
    assert [back][..0] == [] && [back] == OpsOf(Opposite(o));
    LookupStep(o, Run(ops[..|ops| - 1], st), o.name, key);
    LookupStep(back, Run([], db), o.name, key);
  }

  lemma LastOne(ops: seq<Op>, s: Arrays)
    requires ops != []
    ensures Run(ops, s) == Step(ops[|ops| - 1], Run(ops[..|ops| - 1], s))
  {
  }

  lemma {:induction false} OpsKnown(m: Message, known: set<string>)
    requires forall i | 0 <= i < |m| :: m[i].name in known
    ensures forall i | 0 <= i < |MessageOps(m)| :: MessageOps(m)[i].name in known
  {
    if m != [] {
      OpsKnown(m[1..], known);
    }
  }

  lemma LastMessage(ms: seq<Message>, j: nat)
    requires j < |ms| && MessageOps(ms[j]) != []
    ensures var a, b := Ops(ms[..j + 1]), MessageOps(ms[j]); a != [] && a[|a| - 1] == b[|b| - 1]
  {
    assert ms[..j + 1] == ms[..j] + [ms[j]];
    OpsConcat(ms[..j], [ms[j]]);
    OpsOne(ms[j]);
  }

  // ---- Running on until nothing is left to do ----

  /** Everybody sends and reads what there is; connections that were given up are left alone. */
  lemma Quiesce(s: Sys, snap: Message) returns (events: seq<Event>, t: Sys)
    requires Inv(s, {}) && Snapshot(snap, s.db) && Fits(snap, s.db.Keys)
    ensures Leads(s, events, t) && Inv(t, {}) && (forall i :: Stays(events, i))
    ensures forall e | Progress(e) :: !Enabled(t, e)
    ensures t.db == s.db && t.login == s.login && |t.links| == |s.links|
    ensures forall i | 0 <= i < |s.links| :: t.links[i].past == s.links[i].past
    ensures forall i | 0 <= i < |s.links| && Online(s.links[i]) :: Online(t.links[i])
    decreases |s.queue|, Logins(s.links), Bytes(s.links)
  {
    hide Inv, Enabled, Fits, Snapshot, AllFit, ReceiveBytes, SendBytes, Rank;
    events, t := [], s;
    if e :| Progress(e) && Enabled(s, e) {
      InvReady(s);
      StepKeeps(s, e, {});
      ProgressEnds(s, e);
      ProgressShape(s, e);
      RankIs(s);
      RankIs(Do(s, e));
      assert StillSynced({}, e) == {};
      events, t := Quiesce(Do(s, e), snap);
      LeadsFirst(s, e, events, t);
      forall i ensures Stays([e] + events, i) {
        StaysConcat([e], events, i);
      }
      events := [e] + events;
    }
  }

  lemma RankIs(s: Sys)
    ensures Rank(s) == (|s.queue|, Logins(s.links), Bytes(s.links))
  {
  }

  lemma InvReady(s: Sys)
    requires Inv(s, {})
    ensures Framable(s.login) && AllFit(s.queue, s.db.Keys)
  {
  }

  lemma ProgressShape(s: Sys, e: Event)
    requires Framable(s.login) && AllFit(s.queue, s.db.Keys) && Enabled(s, e) && Progress(e)
    ensures var t := Do(s, e);
            && t.db == s.db && t.login == s.login && |t.links| == |s.links|
            && (forall i | 0 <= i < |s.links| :: t.links[i].past == s.links[i].past)
            && (forall i | 0 <= i < |s.links| && Online(s.links[i]) :: Online(t.links[i]))
  {
    hide ReadBytes, AllFit, Snapshot, Need, EncodeMessage, Frame;
  }

  // ---- Reading an old connection ----

  /** What can be read to its end are the first of the messages that the connection brings. */
  lemma LeftoverPrefix(p: Pipe, login: string, known: set<string>, ms: seq<Message>, rest: string)
    requires Bound(p, login, known, ms, rest)
    ensures Leftover(p) <= Encoded(ms)
  {
    hide Frames, AllFit, Partial, Whole, EncodeMessage;
    WholePrefix(p.partial + p.transit, rest, Ahead(p, login, ms));
  }

  lemma LeftoverRead(p: Pipe, st: Arrays, login: string)
    requires p.open && Partial(p.partial) && Leftover(p) != []
    ensures var n := Need(p.partial);
            && CanRead(p, n)
            && var p2 := ReadBytes(p, st, n, login).0;
               Leftover(p2) == if p2.got == p.got || p.got == 0 then Leftover(p) else Leftover(p)[1..]
  {
    hide Need, ReadAll, Whole;
    WholeNeed(p.partial, p.transit);
    var n := Need(p.partial);
    var chunk, later := p.transit[..n], p.transit[n..];
    var p2 := ReadBytes(p, st, n, login).0;
    assert p.partial + p.transit == p.partial + chunk + later;
    if Feed(p.partial, chunk).1.None? {
      assert p2.partial + p2.transit == p.partial + p.transit;
    } else {
      FeedWhole(p.partial, chunk, later);
      assert p2.partial + p2.transit == later;
    }
  }

  /** The client reads an old connection up to message j. */
  lemma ReadUpTo(s: Sys, i: nat, k: nat, ms: seq<Message>, rest: string, j: nat) returns (events: seq<Event>, t: Sys)
    requires Inv(s, {}) && i < |s.links| && k < |s.links[i].past|
    requires Bound(s.links[i].past[k], s.login, s.db.Keys, ms, rest)
    requires j < |Leftover(s.links[i].past[k])| && j < |ms|
    ensures Leads(s, events, t) && Stays(events, i)
    ensures t.db == s.db && t.queue == s.queue && |t.links| == |s.links|
    ensures t.links[i].out == s.links[i].out && t.links[i].conn == s.links[i].conn
    ensures t.links[i].store == Run(Ops(ms[..j + 1]), s.links[i].store)
    decreases |s.links[i].past[k].transit|
  {
    hide Inv, Enabled, AllFit, Bound, Need, ReadBytes, Run, Ops, MessageOps, Leftover;
    var p, st := s.links[i].past[k], s.links[i].store;
    BoundReady(p, s.login, s.db.Keys, ms, rest);
    LeftoverRead(p, st, s.login);
    var n: nat := Need(p.partial);
    var e := ReceiveOld(i, k, n);
    StoreKnown(s, i);
    ReadBound(p, st, n, s.login, s.db.Keys, ms, rest);
    InvReady(s);
    OldEnabled(s, e);
    StepKeeps(s, e, {});
    var s2 := Do(s, e);
    OldShape(s, e);
    var p2 := s2.links[i].past[k];
    if p2.got == p.got || p.got == 0 {
      events, t := ReadUpTo(s2, i, k, ms, rest, j);
    } else {
      Dequeued(ms[..j + 1], st);
      assert ms[..j + 1][1..] == ms[1..][..j];
      if j == 0 {
        events, t := [], s2;
        RunNone(ms[1..][..0], s2.links[i].store);
      } else {
        events, t := ReadUpTo(s2, i, k, ms[1..], rest, j - 1);
      }
    }
    LeadsFirst(s, e, events, t);
    events := [e] + events;
  }

  lemma RunNone(ms: seq<Message>, st: Arrays)
    requires ms == []
    ensures Run(Ops(ms), st) == st
  {
  }

  lemma BoundReady(p: Pipe, login: string, known: set<string>, ms: seq<Message>, rest: string)
    requires Bound(p, login, known, ms, rest)
    ensures p.open && Partial(p.partial)
  {
  }

  lemma StoreKnown(s: Sys, i: nat)
    requires Inv(s, {}) && i < |s.links|
    ensures s.links[i].store.Keys == s.db.Keys
  {
    assert LinkOk(s.links[i], s.login, s.db, s.queue, false);
  }

  lemma OldEnabled(s: Sys, e: Event)
    requires e.ReceiveOld? && e.i < |s.links| && e.k < |s.links[e.i].past| && CanRead(s.links[e.i].past[e.k], e.n)
    ensures Enabled(s, e)
  {
  }

  lemma OldShape(s: Sys, e: Event)
    requires Framable(s.login) && AllFit(s.queue, s.db.Keys) && Enabled(s, e) && e.ReceiveOld?
    ensures var t, l := Do(s, e), s.links[e.i];
            && t.db == s.db && t.queue == s.queue && t.login == s.login && |t.links| == |s.links|
            && var l2 := t.links[e.i];
               l2.out == l.out && l2.conn == l.conn && |l2.past| == |l.past|
               && l2.past[e.k] == ReadBytes(l.past[e.k], l.store, e.n, s.login).0
               && l2.store == ReadBytes(l.past[e.k], l.store, e.n, s.login).1
  {
    hide ReadBytes, AllFit;
  }

  // ---- Divergence ----

  /** The change fits a message, and so do all the arrays after it. */
  ghost predicate CanChange(s: Sys, u: Update) {
    Fits([u], s.db.Keys) && exists snap :: Snapshot(snap, Run(OpsOf(u), s.db)) && Fits(snap, s.db.Keys)
  }

  /** Whatever the client may still read from old connections can be undone. */
  ghost predicate CanUndo(s: Sys, l: Link) {
    forall k, m: Message | 0 <= k < |l.past| && EncodeMessage(m) in Leftover(l.past[k]) && MessageOps(m) != [] ::
      var ops := MessageOps(m); CanChange(s, Opposite(ops[|ops| - 1]))
  }

  /** A client that can still read message j of an old connection ends up with other arrays than the
      server if the server first undoes what the message does, everything else is sent and read, and
      then the message is read. */
  lemma DivergesAt(s: Sys, i: nat, k: nat, ms: seq<Message>, rest: string, j: nat) returns (events: seq<Event>, t: Sys)
    requires Inv(s, {}) && i < |s.links| && Online(s.links[i]) && k < |s.links[i].past|
    requires Bound(s.links[i].past[k], s.login, s.db.Keys, ms, rest)
    requires j < |Leftover(s.links[i].past[k])| && j < |ms| && MessageOps(ms[j]) != []
    requires var ops := MessageOps(ms[j]); CanChange(s, Opposite(ops[|ops| - 1]))
    ensures Leads(s, events, t) && Stays(events, i) && |t.links| == |s.links|
    ensures CaughtUp(t.links[i]) && t.queue == [] && t.links[i].store != t.db
  {
    hide Inv, Enabled, AllFit, Bound, Run, Ops, MessageOps, Leftover, MessageOk, EncodeMessage, Snapshot, Fits, Opposite,
         Progress, CaughtUp;
    var ops := MessageOps(ms[j]);
    var u := Opposite(ops[|ops| - 1]);
    var e := Change(u);
    InvReady(s);
    ChangeShape(s, u);
    StepKeeps(s, e, {});
    var s1 := Do(s, e);
    assert StillSynced({}, e) == {};
    var snap :| Snapshot(snap, s1.db) && Fits(snap, s.db.Keys);
    var e1, s2 := Quiesce(s1, snap);
    Settled(s2, snap, i, {});
    var e2, s3 := ReadUpTo(s2, i, k, ms, rest, j);
    LastMessage(ms, j);
    StoreKnown(s2, i);
    LastKnown(s, i, k, ms, rest, j);
    Opposed(Ops(ms[..j + 1]), s2.links[i].store, s.db);
    LeadsConcat(s1, e1, s2, e2, s3);
    LeadsFirst(s, e, e1 + e2, s3);
    events, t := [e] + (e1 + e2), s3;
    StaysConcat(e1, e2, i);
    StillCaughtUp(s2.links[i], t.links[i]);
  }

  /** A client that can still read a command from an old connection may end up with other arrays than
      the server, connected and caught up, with nothing queued. */
  lemma Diverges(s: Sys, i: nat, k: nat) returns (events: seq<Event>, t: Sys)
    requires Inv(s, {}) && i < |s.links| && Online(s.links[i]) && CanUndo(s, s.links[i])
    requires k < |s.links[i].past| && Loud(s.links[i].past[k])
    ensures Leads(s, events, t) && Stays(events, i) && |t.links| == |s.links|
    ensures CaughtUp(t.links[i]) && t.queue == [] && t.links[i].store != t.db
  {
    hide Inv, Leads, Bound, MessageOps, Leftover, EncodeMessage, Snapshot, CanChange, Opposite, CaughtUp, Loud;
    var ms, rest, j := LoudMessage(s, i, k);
    events, t := DivergesAt(s, i, k, ms, rest, j);
  }

  lemma StillCaughtUp(l: Link, l2: Link)
    requires l2.out == l.out && l2.conn == l.conn
    ensures CaughtUp(l2) == CaughtUp(l)
  {
  }

  lemma StaysConcat(a: seq<Event>, b: seq<Event>, i: nat)
    requires Stays(a, i) && Stays(b, i)
    ensures Stays(a + b, i)
  {
  }

  lemma ChangeShape(s: Sys, u: Update)
    requires Framable(s.login) && AllFit(s.queue, s.db.Keys) && Fits([u], s.db.Keys)
    ensures Enabled(s, Change(u)) && Do(s, Change(u)).links == s.links && Do(s, Change(u)).login == s.login
    ensures Do(s, Change(u)).db == Run(OpsOf(u), s.db)
  {
  }

  lemma LoudMessage(s: Sys, i: nat, k: nat) returns (ms: seq<Message>, rest: string, j: nat)
    requires Inv(s, {}) && i < |s.links| && k < |s.links[i].past| && Loud(s.links[i].past[k])
    ensures Bound(s.links[i].past[k], s.login, s.db.Keys, ms, rest)
    ensures j < |Leftover(s.links[i].past[k])| && j < |ms|
    ensures EncodeMessage(ms[j]) == Leftover(s.links[i].past[k])[j] && MessageOps(ms[j]) != []
  {
    hide Partial, Leftover, EncodeMessage, Idle, MessageOps, Run, Bound, MessageOk;
    var p := s.links[i].past[k];
    assert LinkOk(s.links[i], s.login, s.db, s.queue, false);
    ms, rest :| Bound(p, s.login, s.db.Keys, ms, rest);
    j :| j < |Leftover(p)| && !Idle(Leftover(p)[j]);
    LeftoverPrefix(p, s.login, s.db.Keys, ms, rest);
    BoundFits(p, s.login, s.db.Keys, ms, rest);
    assert Encoded(ms)[j] == EncodeMessage(ms[j]);
    IdleMessage(ms[j], s.db.Keys);
  }

  lemma BoundFits(p: Pipe, login: string, known: set<string>, ms: seq<Message>, rest: string)
    requires Bound(p, login, known, ms, rest)
    ensures forall j | 0 <= j < |ms| :: MessageOk(ms[j], known)
  {
    assert forall j | 0 <= j < |ms| :: Fits(ms[j], known);
  }

  lemma LastKnown(s: Sys, i: nat, k: nat, ms: seq<Message>, rest: string, j: nat)
    requires i < |s.links| && k < |s.links[i].past| && Bound(s.links[i].past[k], s.login, s.db.Keys, ms, rest)
    requires j < |ms| && MessageOps(ms[j]) != []
    ensures var ops := MessageOps(ms[j]); ops[|ops| - 1].name in s.db.Keys
  {
    BoundFits(s.links[i].past[k], s.login, s.db.Keys, ms, rest);
    OpsKnown(ms[j], s.db.Keys);
  }

  /** A client that is not connected can be connected again. */
  lemma Reconnect(s: Sys, i: nat) returns (events: seq<Event>, t: Sys)
    requires Inv(s, {}) && i < |s.links|
    ensures Leads(s, events, t) && Stays(events, i) && Inv(t, {}) && |t.links| == |s.links|
    ensures Online(t.links[i]) && t.links[i].past == s.links[i].past && t.db == s.db && t.login == s.login
  {
    hide AllFit, LinkOk, Run;
    events, t := [], s;
    if s.links[i].out.phase.Down? {
      StepKeeps(s, Retry(i), {});
      t := Do(s, Retry(i));
      assert StillSynced({}, Retry(i)) == {};
    }
    if t.links[i].out.phase.Connecting? {
      StepKeeps(t, Connected(i), {});
      var t2 := Do(t, Connected(i));
      assert StillSynced({}, Connected(i)) == {};
      assert Leads(t2, [], t2);
      LeadsFirst(t, Connected(i), [], t2);
      if s.links[i].out.phase.Down? {
        LeadsFirst(s, Retry(i), [Connected(i)] + [], t2);
        events := [Retry(i)] + ([Connected(i)] + []);
      } else {
        events := [Connected(i)] + [];
      }
      t := t2;
    }
  }

  /** As long as its connection lasts, the client has the server's arrays whenever it has caught up
      and nothing is queued. */
  ghost predicate Safe(s: Sys, i: nat) {
    forall events, t | Leads(s, events, t) && Stays(events, i) && i < |t.links| && CaughtUp(t.links[i]) && t.queue == [] ::
      t.links[i].store == t.db
  }

  /** A client that has not read the snapshot of its connection is safe exactly if it has no command
      left to read from the connections before it. */
  lemma SafeIfQuiet(s: Sys, i: nat)
    requires Inv(s, {}) && i < |s.links| && Unsynced(s.links[i]) && CanUndo(s, s.links[i])
    ensures Safe(s, i) <==> Quiet(s.links[i])
  {
    hide Inv, Unsynced, CaughtUp, CanUndo, Loud, Leads;
    if Quiet(s.links[i]) {
      forall events, t | Leads(s, events, t) && Stays(events, i) && i < |t.links| && CaughtUp(t.links[i]) && t.queue == []
        ensures t.links[i].store == t.db
      {
        QuietConverges(s, events, t, i);
      }
    } else {
      var k :| 0 <= k < |s.links[i].past| && Loud(s.links[i].past[k]);
      var e1, s1 := Reconnect(s, i);
      UndoSame(s, s1, i);
      var e2, t := Diverges(s1, i, k);
      LeadsConcat(s, e1, s1, e2, t);
      StaysConcat(e1, e2, i);
    }
  }

  lemma UndoSame(s: Sys, s1: Sys, i: nat)
    requires i < |s.links| == |s1.links| && s1.links[i].past == s.links[i].past && s1.db == s.db
    requires CanUndo(s, s.links[i])
    ensures CanUndo(s1, s1.links[i])
  {
    hide Snapshot, Fits, Run, Leftover, EncodeMessage, MessageOps, Opposite;
    forall k, m: Message | 0 <= k < |s1.links[i].past| && EncodeMessage(m) in Leftover(s1.links[i].past[k]) && MessageOps(m) != []
      ensures var ops := MessageOps(m); CanChange(s1, Opposite(ops[|ops| - 1]))
    {
      var ops := MessageOps(m);
      assert CanChange(s, Opposite(ops[|ops| - 1]));
    }
  }

  // ---- Runs that diverge ----

  function Parked(login: string, snap: Message): Pipe
    requires Framable(login) && Framable(EncodeMessage(snap))
  {
    Pipe(Frame(login) + Frame(EncodeMessage(snap)), "", 0, true)
  }

  /** A client is sent its snapshot, and the connection is lost before the client has read a byte. */
  lemma UnreadSnapshot(s: Sys, i: nat, snap: Message) returns (events: seq<Event>, t: Sys)
    requires Start(s) && i < |s.links| && Snapshot(snap, s.db) && Fits(snap, s.db.Keys)
    ensures Leads(s, events, t) && t.db == s.db && t.login == s.login && |t.links| == |s.links|
    ensures t.links[i].past == [Parked(s.login, snap)]
  {
    hide Frame, EncodeMessage, Snapshot, MessageOk;
    var f, g := Frame(s.login), Frame(EncodeMessage(snap));
    FrameNotEmpty(s.login);
    FrameNotEmpty(EncodeMessage(snap));
    var s1 := Do(s, Retry(i));
    var s2 := Do(s1, Connected(i));
    assert s2.links[i].out == Out(Login, f);
    var s3 := Do(s2, Send(i, |f|, snap));
    assert f[|f|..] == "" && f[..|f|] == f && "" + f == f;
    assert s3.links[i].out == Out(Ready, g) && s3.links[i].conn.transit == f;
    var s4 := Do(s3, Send(i, |g|, snap));
    assert g[..|g|] == g;
    assert s4.links[i].conn == Parked(s.login, snap);
    t := Do(s4, Lost(i, |f + g|));
    assert (f + g)[..|f + g|] == f + g;
    LeadsFirst(s4, Lost(i, |f + g|), [], t);
    events := [Lost(i, |f + g|)] + [];
    LeadsFirst(s3, Send(i, |g|, snap), events, t);
    events := [Send(i, |g|, snap)] + events;
    LeadsFirst(s2, Send(i, |f|, snap), events, t);
    events := [Send(i, |f|, snap)] + events;
    LeadsFirst(s1, Connected(i), events, t);
    events := [Connected(i)] + events;
    LeadsFirst(s, Retry(i), events, t);
    events := [Retry(i)] + events;
  }

  lemma FrameNotEmpty(m: string)
    requires Framable(m)
    ensures Frame(m) != ""
  {
  }

  lemma ParkedBound(login: string, known: set<string>, snap: Message)
    requires Framable(login) && Fits(snap, known)
    ensures Bound(Parked(login, snap), login, known, [snap], "")
    ensures |Leftover(Parked(login, snap))| == 1
  {
    hide Frame, EncodeMessage, MessageOk, Whole;
    var p, m := Parked(login, snap), EncodeMessage(snap);
    assert Ahead(p, login, [snap]) == [login, m];
    assert [login, m][1..] == [m] && [m][1..] == [] && Frames([]) == "";
    assert Frames([m]) == Frame(m) + "";
    assert p.partial + p.transit == p.transit && p.transit + "" == p.transit;
    WholeFrames([login, m]);
  }

  /** From every start, for every client, there is a run after which the client differs from the
      server though it has caught up and nothing is queued: its first snapshot stays unread when the
      connection is lost, the server changes what the snapshot says, the client connects again and
      reads all there is, and then it reads the old snapshot. */
  lemma MayDiverge(s: Sys, i: nat, snap: Message) returns (events: seq<Event>, t: Sys)
    requires Start(s) && i < |s.links| && Snapshot(snap, s.db) && Fits(snap, s.db.Keys)
    requires var ops := MessageOps(snap); ops != [] && CanChange(s, Opposite(ops[|ops| - 1]))
    ensures Leads(s, events, t) && |t.links| == |s.links|
    ensures CaughtUp(t.links[i]) && t.queue == [] && t.links[i].store != t.db
  {
    hide Inv, Leads, Bound, MessageOps, Leftover, EncodeMessage, MessageOk, Snapshot, Opposite, CaughtUp, Parked, Start, Run;
    var e1, s1 := UnreadSnapshot(s, i, snap);
    StartInv(s);
    var none := RunKeeps(s, e1, s1, {});
    Weaken(s1, none);
    var e2, s2 := Reconnect(s1, i);
    ParkedBound(s.login, s.db.Keys, snap);
    var e3, s3 := DivergesAt(s2, i, 0, [snap], "", 0);
    LeadsConcat(s1, e2, s2, e3, s3);
    LeadsConcat(s, e1, s1, e2 + e3, s3);
    events, t := e1 + (e2 + e3), s3;
  }

  function ReloadOne(): Message {
    [Update("a", [Flush, Set("k", "1")])]
  }

  function ReloadNone(): Message {
    [Update("a", [Flush])]
  }

  lemma OneReloads()
    ensures Snapshot(ReloadOne(), map["a" := map["k" := "1"]]) && Fits(ReloadOne(), {"a"})
    ensures MessageOps(ReloadOne()) == [Op("a", Flush), Op("a", Set("k", "1"))]
  {
    var t: Table := map["k" := "1"];
    var cmds := ReloadOne()[0].cmds;
    assert cmds[..1] == [Flush] && cmds[..1][..0] == [];
    assert EncodeCmds(cmds[..1]) == "F";
    assert EncodeCmds(cmds) == "F" + "Sk" + [NUL] + "1" + [NUL];
    assert ReloadOne()[1..] == [];
    assert Sets(t, ["k"]) == [Set("k", "1")];
    assert Reload(t, ["k"]) == cmds;
    assert ReloadAll(["a"], [t], [["k"]]) == ReloadOne();
    assert SnapshotBy(ReloadOne(), map["a" := t], ["a"], [t], [["k"]]);
  }

  lemma NoneReloads()
    ensures Snapshot(ReloadNone(), map["a" := map[]]) && Fits(ReloadNone(), {"a"})
  {
    assert Reload(map[], []) == [Flush];
    assert ReloadAll(["a"], [map[]], [[]]) == ReloadNone();
    assert SnapshotBy(ReloadNone(), map["a" := map[]], ["a"], [map[]], [[]]);
  }

  lemma UndoOne()
    ensures Run(OpsOf(Opposite(Op("a", Set("k", "1")))), map["a" := map["k" := "1"]]) == map["a" := map[]]
    ensures Fits([Opposite(Op("a", Set("k", "1")))], {"a"})
  {
    var u := Opposite(Op("a", Set("k", "1")));
    assert OpsOf(u) == [Op("a", Unset("k"))] && OpsOf(u)[..0] == [];
    assert EncodeCmds(u.cmds[..0]) == "" && EncodeCmds(u.cmds) == "Uk" + [NUL];
  }

  /** Such a run: one array with one entry, which the server removes. */
  lemma Diverging() returns (s: Sys, events: seq<Event>, t: Sys)
    ensures Start(s) && s.db == map["a" := map["k" := "1"]] && Leads(s, events, t) && |t.links| == 1
    ensures CaughtUp(t.links[0]) && t.queue == [] && t.links[0].store != t.db
  {
    hide CaughtUp, Snapshot, Fits, EncodeMessage, Run, OpsOf, MessageOps, Leads, ReloadOne, ReloadNone;
    s := Sys("nv", map["a" := map["k" := "1"]], [], [Link(Out(Down, ""), NO_PIPE, [], map["a" := map[]])]);
    assert s.db.Keys == {"a"};
    OneReloads();
    NoneReloads();
    UndoOne();
    assert CanChange(s, Opposite(Op("a", Set("k", "1"))));
    events, t := MayDiverge(s, 0, ReloadOne());
  }
}
