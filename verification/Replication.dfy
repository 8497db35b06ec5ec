/** Server and clients of networked variables, as a system of interleaved steps. */
module Replication {
  import opened Wire
  import opened NvServer
  import opened Options
  import opened Receiver
  import opened Outgoing

  /** One connection at the client's end: bytes under way, bytes read of a frame, and how many whole
      frames have been read. The first one is the login, the second one the snapshot. */
  datatype Pipe = Pipe(transit: string, partial: string, got: nat, open: bool)

  const NO_PIPE := Pipe("", "", 0, false)

  /** One client: what the broadcaster still has to send, the connection it sends on, the connections
      that it has given up but the client may still read, and the client's arrays. */
  datatype Link = Link(out: Out, conn: Pipe, past: seq<Pipe>, store: Arrays)

  datatype Sys = Sys(login: string, db: Arrays, queue: seq<Message>, links: seq<Link>)

  datatype Event =
    | Change(u: Update)                          // an array changes and the change is queued
    | Retry(i: nat)
    | Refused(i: nat)
    | Connected(i: nat)
    | Send(i: nat, n: nat, snap: Message)        // snap is used when this ends the login
    | Lost(i: nat, kept: nat)                    // of the bytes under way, these still arrive
    | Pop
    | Receive(i: nat, n: nat)
    | ReceiveOld(i: nat, k: nat, n: nat)         // from a connection given up earlier

  predicate Fits(m: Message, known: set<string>) {
    MessageOk(m, known) && Framable(EncodeMessage(m))
  }

  predicate CanRead(p: Pipe, n: nat) {
    p.open && 0 < n <= |p.transit| && n <= Need(p.partial)
  }

  ghost predicate Enabled(s: Sys, e: Event) {
    match e
    case Change(u) => Fits([u], s.db.Keys)
    case Retry(i) => i < |s.links| && s.links[i].out.phase.Down?
    case Refused(i) => i < |s.links| && s.links[i].out.phase.Connecting?
    case Connected(i) => i < |s.links| && s.links[i].out.phase.Connecting?
    case Send(i, n, snap) =>
      && i < |s.links| && 0 < n <= |s.links[i].out.unsent|
      && Snapshot(snap, s.db) && Fits(snap, s.db.Keys)
    case Lost(i, kept) =>
      i < |s.links| && Online(s.links[i]) && kept <= |s.links[i].conn.transit|
    case Pop => s.queue != [] && forall i | 0 <= i < |s.links| :: !s.links[i].out.Busy()
    case Receive(i, n) => i < |s.links| && CanRead(s.links[i].conn, n)
    case ReceiveOld(i, k, n) => i < |s.links| && k < |s.links[i].past| && CanRead(s.links[i].past[k], n)
  }

  predicate Online(l: Link) {
    l.out.phase.Login? || l.out.phase.Ready?
  }

  /** What the client does with a whole message. */
  function Deliver(p: Pipe, st: Arrays, m: string, login: string): (Pipe, Arrays) {
    if p.got == 0 then (p.(got := 1, open := CString(m) == CString(login)), st)
    else
      var r := ReadAll(Reader(m, st, None));
      (p.(got := p.got + 1, open := r.cur.Some?), r.arrays)
  }

  function ReadBytes(p: Pipe, st: Arrays, n: nat, login: string): (Pipe, Arrays)
    requires n <= |p.transit|
  {
    var (q, m) := Feed(p.partial, p.transit[..n]);
    var p2 := p.(transit := p.transit[n..], partial := q);
    if m.Some? then Deliver(p2, st, m.value, login) else (p2, st)
  }

  function ReceiveBytes(l: Link, n: nat, login: string): Link
    requires n <= |l.conn.transit|
  {
    var (p, st) := ReadBytes(l.conn, l.store, n, login);
    l.(conn := p, store := st)
  }

  function ReceiveOldBytes(l: Link, k: nat, n: nat, login: string): Link
    requires k < |l.past| && n <= |l.past[k].transit|
  {
    var (p, st) := ReadBytes(l.past[k], l.store, n, login);
    l.(past := l.past[k := p], store := st)
  }

  function SendBytes(l: Link, n: nat, snap: Message): Link
    requires n <= |l.out.unsent| && Framable(EncodeMessage(snap))
  {
    l.(conn := l.conn.(transit := l.conn.transit + l.out.unsent[..n]),
       out := l.out.Sent(n, Some(EncodeMessage(snap))))
  }

  /** The broadcaster gives a connection up; nobody tells the client. */
  function LoseConn(l: Link, kept: nat): Link
    requires kept <= |l.conn.transit|
  {
    Link(l.out.Lose(), NO_PIPE, l.past + [l.conn.(transit := l.conn.transit[..kept])], l.store)
  }

  function WithLink(s: Sys, i: nat, l: Link): Sys
    requires i < |s.links|
  {
    s.(links := s.links[i := l])
  }

  ghost predicate AllFit(ms: seq<Message>, known: set<string>) {
    forall i | 0 <= i < |ms| :: Fits(ms[i], known)
  }

  ghost function Do(s: Sys, e: Event): Sys
    requires Framable(s.login) && AllFit(s.queue, s.db.Keys) && Enabled(s, e)
  {
    match e
    case Change(u) => s.(db := Run(OpsOf(u), s.db), queue := s.queue + [[u]])
    case Retry(i) => WithLink(s, i, s.links[i].(out := Out(Connecting, "")))
    case Refused(i) => WithLink(s, i, s.links[i].(out := s.links[i].out.Lose()))
    case Connected(i) =>
      WithLink(s, i, s.links[i].(out := s.links[i].out.Greet(s.login), conn := Pipe("", "", 0, true)))
    case Send(i, n, snap) => WithLink(s, i, SendBytes(s.links[i], n, snap))
    case Lost(i, kept) => WithLink(s, i, LoseConn(s.links[i], kept))
    case Pop =>
      var m := EncodeMessage(s.queue[0]);
      assert Framable(m) by { assert Fits(s.queue[0], s.db.Keys); }
      s.(queue := s.queue[1..],
         links := seq(|s.links|, i requires 0 <= i < |s.links| => s.links[i].(out := s.links[i].out.Offer(m))))
    case Receive(i, n) => WithLink(s, i, ReceiveBytes(s.links[i], n, s.login))
    case ReceiveOld(i, k, n) => WithLink(s, i, ReceiveOldBytes(s.links[i], k, n, s.login))
  }

  // ---- What a connection still brings ----

  function Encoded(ms: seq<Message>): seq<string> {
    seq(|ms|, i requires 0 <= i < |ms| => EncodeMessage(ms[i]))
  }

  /** The frames that the client has not read to their end. */
  function Ahead(p: Pipe, login: string, ms: seq<Message>): seq<string> {
    (if p.got > 0 then [] else [login]) + Encoded(ms)
  }

  /** The client will read the messages `ms`, of which the last bytes, `rest`, are not under way. */
  ghost predicate Bound(p: Pipe, login: string, known: set<string>, ms: seq<Message>, rest: string) {
    && p.open && Partial(p.partial) && Framable(login) && AllFit(ms, known)
    && (forall i | 0 <= i < |Ahead(p, login, ms)| :: Framable(Ahead(p, login, ms)[i]))
    && p.partial + p.transit + rest == Frames(Ahead(p, login, ms))
  }

  /** The messages a client can still read to their end. */
  function Leftover(p: Pipe): seq<string> {
    var w := Whole(p.partial + p.transit);
    if p.got > 0 || w == [] then w else w[1..]
  }

  /** The client can still read a command from this connection. */
  predicate Loud(p: Pipe) {
    p.open && exists j | 0 <= j < |Leftover(p)| :: !Idle(Leftover(p)[j])
  }

  /** No command is left to be read from any connection that was given up. */
  predicate Quiet(l: Link) {
    forall k | 0 <= k < |l.past| :: !Loud(l.past[k])
  }

  // ---- The invariant ----

  /** With `ms` read, the arrays will be where the messages in the queue bring them to the server's. */
  ghost predicate Brings(ms: seq<Message>, db: Arrays, queue: seq<Message>, st: Arrays) {
    db == Run(Ops(queue), Run(Ops(ms), st))
  }

  /** The same from any arrays at all, as a snapshot is among the messages. */
  ghost predicate Restores(ms: seq<Message>, db: Arrays, queue: seq<Message>) {
    forall st: Arrays | st.Keys == db.Keys :: Brings(ms, db, queue, st)
  }

  ghost predicate WillRead(l: Link, login: string, db: Arrays, queue: seq<Message>, ms: seq<Message>, synced: bool) {
    && Bound(l.conn, login, db.Keys, ms, l.out.unsent)
    && (l.conn.got < 2 ==> Restores(ms, db, queue))
    && (synced ==> Brings(ms, db, queue, l.store))
  }

  /** A connection that was given up, cut off anywhere. */
  ghost predicate OldOk(p: Pipe, login: string, known: set<string>) {
    && Partial(p.partial)
    && (p.open ==> exists ms, rest :: Bound(p, login, known, ms, rest))
  }

  /** `synced` marks clients that no old connection can disturb any more. */
  ghost predicate LinkOk(l: Link, login: string, db: Arrays, queue: seq<Message>, synced: bool) {
    && l.store.Keys == db.Keys && (synced ==> Quiet(l))
    && (forall k | 0 <= k < |l.past| :: OldOk(l.past[k], login, db.Keys))
    && match l.out.phase
       case Down => l.out.unsent == "" && l.conn == NO_PIPE
       case Connecting => l.out.unsent == "" && l.conn == NO_PIPE
       case Login => l.out.unsent != "" && l.conn.got == 0 && Bound(l.conn, login, db.Keys, [], l.out.unsent)
       case Ready => exists ms :: WillRead(l, login, db, queue, ms, synced)
  }

  /** What holds at all times. Applying the queued messages once more changes nothing. */
  ghost predicate Inv(s: Sys, synced: set<nat>) {
    && Framable(s.login) && AllFit(s.queue, s.db.Keys) && Run(Ops(s.queue), s.db) == s.db
    && forall i | 0 <= i < |s.links| :: LinkOk(s.links[i], s.login, s.db, s.queue, i in synced)
  }

  lemma {:induction false} EncodedConcat(a: seq<Message>, b: seq<Message>)
    ensures Encoded(a + b) == Encoded(a) + Encoded(b)
  {
  }

  lemma OpsOne(m: Message)
    ensures Ops([m]) == MessageOps(m)
  {
    assert Ops([]) == [];
    assert MessageOps(m) + [] == MessageOps(m);
  }

  lemma UpdateOps(u: Update)
    ensures Ops([[u]]) == OpsOf(u)
  {
    OpsOne([u]);
    assert MessageOps([]) == [];
    assert OpsOf(u) + [] == OpsOf(u);
  }

  /** A change that is queued behind the others. */
  lemma Queued(queue: seq<Message>, u: Update, s: Arrays)
    ensures Run(Ops(queue + [[u]]), s) == Run(OpsOf(u), Run(Ops(queue), s))
  {
    OpsConcat(queue, [[u]]);
    UpdateOps(u);
    RunConcat(Ops(queue), OpsOf(u), s);
  }

  lemma Dequeued(queue: seq<Message>, s: Arrays)
    requires queue != []
    ensures Run(Ops(queue), s) == Run(Ops(queue[1..]), Run(MessageOps(queue[0]), s))
  {
    RunConcat(MessageOps(queue[0]), Ops(queue[1..]), s);
  }

  lemma Appended(ms: seq<Message>, m: Message, s: Arrays)
    ensures Run(Ops(ms + [m]), s) == Run(MessageOps(m), Run(Ops(ms), s))
  {
    OpsConcat(ms, [m]);
    OpsOne(m);
    RunConcat(Ops(ms), MessageOps(m), s);
  }

  lemma BringsQueued(ms: seq<Message>, db: Arrays, queue: seq<Message>, u: Update, st: Arrays)
    requires Brings(ms, db, queue, st)
    ensures Brings(ms, Run(OpsOf(u), db), queue + [[u]], st)
  {
    Queued(queue, u, Run(Ops(ms), st));
  }

  lemma BringsOffered(ms: seq<Message>, db: Arrays, queue: seq<Message>, st: Arrays)
    requires queue != [] && Brings(ms, db, queue, st)
    ensures Brings(ms + [queue[0]], db, queue[1..], st)
  {
    Appended(ms, queue[0], st);
    Dequeued(queue, Run(Ops(ms), st));
  }

  lemma BringsNext(ms: seq<Message>, db: Arrays, queue: seq<Message>, st: Arrays)
    requires ms != [] && Brings(ms, db, queue, st)
    ensures Brings(ms[1..], db, queue, Run(MessageOps(ms[0]), st))
  {
    Dequeued(ms, st);
  }

  lemma SnapshotFirst(snap: Message, db: Arrays, queue: seq<Message>)
    requires Snapshot(snap, db) && Run(Ops(queue), db) == db
    ensures Restores([snap], db, queue)
  {
    hide Snapshot, Run;
    OpsOne(snap);
    forall st: Arrays | st.Keys == db.Keys ensures Brings([snap], db, queue, st) {
      SnapshotRestores(snap, db, st);
    }
  }

  lemma RestoresAny(ms: seq<Message>, db: Arrays, queue: seq<Message>, st: Arrays)
    requires Restores(ms, db, queue) && st.Keys == db.Keys
    ensures Brings(ms, db, queue, st)
  {
  }

  // ---- Reading ----

  lemma BoundNext(p: Pipe, p2: Pipe, login: string, known: set<string>, ms: seq<Message>, rest: string)
    requires Bound(p, login, known, ms, rest) && p.got > 0 && ms != [] && p2.got > 0 && p2.open && Partial(p2.partial)
    requires p2.partial + p2.transit + rest == Frames(Ahead(p, login, ms)[1..])
    ensures Bound(p2, login, known, ms[1..], rest)
  {
    hide Frames, Partial, MessageOk, EncodeMessage;
    assert Ahead(p, login, ms)[1..] == Encoded(ms[1..]) == Ahead(p2, login, ms[1..]);
  }

  /** From a connection that brings `ms` the client reads the login, the next message, or nothing
      whole, and understands it. */
  lemma ReadBound(p: Pipe, st: Arrays, n: nat, login: string, known: set<string>, ms: seq<Message>, rest: string)
    requires Bound(p, login, known, ms, rest) && st.Keys == known && CanRead(p, n)
    ensures var (p2, st2) := ReadBytes(p, st, n, login);
            && p.got <= p2.got <= p.got + 1 && p2.transit == p.transit[n..]
            && if p2.got == p.got || p.got == 0 then Bound(p2, login, known, ms, rest) && st2 == st
               else ms != [] && Bound(p2, login, known, ms[1..], rest) && st2 == Run(MessageOps(ms[0]), st)
  {
    hide Run, Ops, MessageOps, EncodeMessage, Frame, Frames, ReadAll, Need, MessageOk;
    var chunk, later := p.transit[..n], p.transit[n..] + rest;
    var ahead := Ahead(p, login, ms);
    assert p.partial + chunk + later == p.partial + p.transit + rest;
    FeedStep(p.partial, chunk, later, ahead);
    var (p2, st2) := ReadBytes(p, st, n, login);
    if Feed(p.partial, chunk).1.None? {
      assert p2.partial + p2.transit + rest == p2.partial + later;
    } else if p.got == 0 {
      assert ahead[1..] == Encoded(ms) == Ahead(p2, login, ms);
      assert p2.partial + p2.transit + rest == later;
    } else {
      assert ahead[0] == EncodeMessage(ms[0]);
      ReadMessage(ms[0], st, None);
      assert p2.partial + p2.transit + rest == later;
      BoundNext(p, p2, login, known, ms, rest);
    }
  }

  /** A connection with no command left changes nothing, and has none left afterwards. */
  lemma ReadQuiet(p: Pipe, st: Arrays, n: nat, login: string)
    requires !Loud(p) && CanRead(p, n)
    ensures ReadBytes(p, st, n, login).1 == st && !Loud(ReadBytes(p, st, n, login).0)
  {
    hide Need, ReadAll, Whole, Idle;
    var chunk, later := p.transit[..n], p.transit[n..];
    var (p2, st2) := ReadBytes(p, st, n, login);
    assert p.partial + p.transit == p.partial + chunk + later;
    if Feed(p.partial, chunk).1.None? {
      assert p2.partial + p2.transit == p.partial + p.transit;
      assert Leftover(p2) == Leftover(p);
    } else {
      var m := Feed(p.partial, chunk).1.value;
      FeedWhole(p.partial, chunk, later);
      assert p2.partial + p2.transit == later;
      var left := Leftover(p);
      if p.got > 0 {
        assert left == [m] + Leftover(p2);
        assert left[0] == m;
        forall j | 0 <= j < |Leftover(p2)| ensures Idle(Leftover(p2)[j]) {
          assert left[j + 1] == Leftover(p2)[j];
        }
        IdleReads(Reader(m, st, None));
      } else {
        assert left == Leftover(p2);
      }
    }
  }

  // ---- One step keeps the invariant ----

  lemma ChangeLink(l: Link, login: string, db: Arrays, queue: seq<Message>, u: Update, synced: bool)
    requires LinkOk(l, login, db, queue, synced)
    ensures LinkOk(l, login, Run(OpsOf(u), db), queue + [[u]], synced)
  {
    hide Run, Ops, OpsOf, Bound, OldOk, Quiet, Brings;
    if l.out.phase.Ready? {
      var ms :| WillRead(l, login, db, queue, ms, synced);
      forall st: Arrays | Brings(ms, db, queue, st) ensures Brings(ms, Run(OpsOf(u), db), queue + [[u]], st) {
        BringsQueued(ms, db, queue, u, st);
      }
      assert WillRead(l, login, Run(OpsOf(u), db), queue + [[u]], ms, synced);
    }
  }

  lemma ChangeKeeps(s: Sys, u: Update, synced: set<nat>)
    requires Inv(s, synced) && Fits([u], s.db.Keys)
    ensures Inv(Do(s, Change(u)), synced)
  {
    hide LinkOk, Run, Ops, OpsOf, MessageOk, EncodeMessage;
    var s2 := Do(s, Change(u));
    Queued(s.queue, u, s.db);
    Idempotent(Ops(s2.queue), s.db);
    forall i | 0 <= i < |s.links| ensures LinkOk(s2.links[i], s.login, s2.db, s2.queue, i in synced) {
      ChangeLink(s.links[i], s.login, s.db, s.queue, u, i in synced);
    }
  }

  lemma PopLink(l: Link, login: string, db: Arrays, queue: seq<Message>, synced: bool)
    requires LinkOk(l, login, db, queue, synced) && queue != [] && AllFit(queue, db.Keys) && !l.out.Busy()
    ensures LinkOk(l.(out := l.out.Offer(EncodeMessage(queue[0]))), login, db, queue[1..], synced)
  {
    hide Run, Ops, MessageOps, EncodeMessage, Frame, MessageOk, OldOk, Loud, Brings;
    if l.out.phase.Ready? {
      var ms :| WillRead(l, login, db, queue, ms, synced);
      var l2 := l.(out := l.out.Offer(EncodeMessage(queue[0])));
      var ms2 := ms + [queue[0]];
      forall st: Arrays | Brings(ms, db, queue, st) ensures Brings(ms2, db, queue[1..], st) {
        BringsOffered(ms, db, queue, st);
      }
      EncodedConcat(ms, [queue[0]]);
      var tail := [EncodeMessage(queue[0])];
      assert Ahead(l2.conn, login, ms2) == Ahead(l.conn, login, ms) + tail;
      FramesConcat(Ahead(l.conn, login, ms), tail);
      assert tail[1..] == [] && Frames([]) == "";
      assert Frames(tail) == Frame(tail[0]);
      assert WillRead(l2, login, db, queue[1..], ms2, synced);
    }
  }

  lemma PopKeeps(s: Sys, synced: set<nat>)
    requires Inv(s, synced) && Enabled(s, Pop)
    ensures Inv(Do(s, Pop), synced)
  {
    hide LinkOk, Run, Ops, MessageOps, MessageOk, EncodeMessage;
    var s2 := Do(s, Pop);
    Dequeued(s.queue, s.db);
    Idempotent(Ops(s.queue[1..]), Run(MessageOps(s.queue[0]), s.db));
    forall i | 0 <= i < |s2.links| ensures LinkOk(s2.links[i], s.login, s.db, s2.queue, i in synced) {
      PopLink(s.links[i], s.login, s.db, s.queue, i in synced);
    }
  }

  lemma LoginSent(l: Link, login: string, db: Arrays, snap: Message)
    requires l.out.phase.Login? && l.conn.got == 0 && Bound(l.conn, login, db.Keys, [], l.out.unsent)
    requires Fits(snap, db.Keys)
    ensures var l2 := SendBytes(l, |l.out.unsent|, snap);
            l2.out.phase.Ready? && Bound(l2.conn, login, db.Keys, [snap], l2.out.unsent)
  {
    hide EncodeMessage, Frame, Frames, MessageOk, Partial;
    var l2 := SendBytes(l, |l.out.unsent|, snap);
    var m := EncodeMessage(snap);
    LoginFrames(login, m);
    assert Encoded([]) == [] && Encoded([snap]) == [m];
    assert Ahead(l.conn, login, []) == [login];
    assert Ahead(l2.conn, login, [snap]) == [login, m];
    assert l2.conn.partial + l2.conn.transit == l.conn.partial + l.conn.transit + l.out.unsent;
  }

  lemma LoginFrames(login: string, m: string)
    requires Framable(login) && Framable(m)
    ensures Frames([login]) == Frame(login) && Frames([login, m]) == Frame(login) + Frame(m)
  {
    hide Frame;
    assert [login][1..] == [] && [login, m][1..] == [m] && [m][1..] == [] && Frames([]) == "";
    assert Frames([login]) == Frame(login) + "" && Frames([m]) == Frame(m) + "";
  }

  /** Sending keeps a link in order; when the login is out the snapshot follows, whatever is still
      in the queue. */
  lemma SendLink(l: Link, login: string, db: Arrays, queue: seq<Message>, n: nat, snap: Message, synced: bool)
    requires LinkOk(l, login, db, queue, synced) && 0 < n <= |l.out.unsent|
    requires Snapshot(snap, db) && Fits(snap, db.Keys) && Run(Ops(queue), db) == db
    ensures LinkOk(SendBytes(l, n, snap), login, db, queue, synced)
  {
    hide Run, Ops, MessageOps, EncodeMessage, Frame, MessageOk, Snapshot, OldOk, Loud, Restores, Brings;
    var l2 := SendBytes(l, n, snap);
    assert l.out.unsent == l.out.unsent[..n] + l.out.unsent[n..];
    if l.out.phase.Ready? {
      var ms :| WillRead(l, login, db, queue, ms, synced);
      assert l2.conn.partial + l2.conn.transit + l2.out.unsent == l.conn.partial + l.conn.transit + l.out.unsent;
      assert WillRead(l2, login, db, queue, ms, synced);
    } else if n == |l.out.unsent| {
      LoginSent(l, login, db, snap);
      SnapshotFirst(snap, db, queue);
      RestoresAny([snap], db, queue, l.store);
      assert WillRead(l2, login, db, queue, [snap], synced);
    } else {
      assert l2.conn.partial + l2.conn.transit + l2.out.unsent == l.conn.partial + l.conn.transit + l.out.unsent;
    }
  }

  /** The client reads the next message it was bound to read, and understands it. */
  lemma ReceiveReady(l: Link, login: string, db: Arrays, queue: seq<Message>, n: nat, synced: bool)
    requires LinkOk(l, login, db, queue, synced) && l.out.phase.Ready? && CanRead(l.conn, n)
    ensures LinkOk(ReceiveBytes(l, n, login), login, db, queue, synced)
  {
    hide Run, Ops, MessageOps, Bound, OldOk, Loud, ReadBytes, Need, Restores, Brings;
    var ms :| WillRead(l, login, db, queue, ms, synced);
    var l2 := ReceiveBytes(l, n, login);
    ReadBound(l.conn, l.store, n, login, db.Keys, ms, l.out.unsent);
    if l2.conn.got == l.conn.got || l.conn.got == 0 {
      assert WillRead(l2, login, db, queue, ms, synced);
    } else {
      if synced {
        BringsNext(ms, db, queue, l.store);
      }
      assert WillRead(l2, login, db, queue, ms[1..], synced);
    }
  }

  lemma ReceiveLogin(l: Link, login: string, db: Arrays, queue: seq<Message>, n: nat, synced: bool)
    requires LinkOk(l, login, db, queue, synced) && l.out.phase.Login? && CanRead(l.conn, n)
    ensures LinkOk(ReceiveBytes(l, n, login), login, db, queue, synced)
  {
    hide OldOk, Loud, Need, Frame, EncodeMessage, MessageOk;
    var l2 := ReceiveBytes(l, n, login);
    ReadBound(l.conn, l.store, n, login, db.Keys, [], l.out.unsent);
    if l2.conn.got > 0 {
      assert false;
    }
  }

  /** Reading from a connection that was given up keeps everything but a client's own arrays. */
  lemma ReceiveOldLink(l: Link, login: string, db: Arrays, queue: seq<Message>, k: nat, n: nat, synced: bool)
    requires LinkOk(l, login, db, queue, synced) && k < |l.past| && CanRead(l.past[k], n)
    ensures LinkOk(ReceiveOldBytes(l, k, n, login), login, db, queue, synced)
  {
    hide Run, Ops, MessageOps, Bound, Loud, ReadBytes, Need, Partial, Restores, Brings;
    var l2 := ReceiveOldBytes(l, k, n, login);
    var ms, rest :| Bound(l.past[k], login, db.Keys, ms, rest);
    ReadBound(l.past[k], l.store, n, login, db.Keys, ms, rest);
    BoundOld(l.past[k], l2.past[k], login, db.Keys, ms, rest);
    if synced {
      ReadQuiet(l.past[k], l.store, n, login);
    }
    if l.out.phase.Ready? {
      var ms :| WillRead(l, login, db, queue, ms, synced);
      assert WillRead(l2, login, db, queue, ms, synced);
    }
  }

  lemma BoundOld(p: Pipe, p2: Pipe, login: string, known: set<string>, ms: seq<Message>, rest: string)
    requires Bound(p2, login, known, ms, rest) || (ms != [] && Bound(p2, login, known, ms[1..], rest))
    ensures OldOk(p2, login, known)
  {
    hide Frames, Ahead, AllFit, Partial;
  }

  lemma LostLink(l: Link, login: string, db: Arrays, queue: seq<Message>, kept: nat, synced: bool)
    requires LinkOk(l, login, db, queue, synced) && Online(l) && kept <= |l.conn.transit|
    ensures LinkOk(LoseConn(l, kept), login, db, queue, false)
  {
    hide Run, Ops, Frames, AllFit, Partial;
    var p := l.conn.(transit := l.conn.transit[..kept]);
    var rest := l.conn.transit[kept..] + l.out.unsent;
    assert p.partial + p.transit + rest == l.conn.partial + l.conn.transit + l.out.unsent;
    assert exists ms :: Bound(l.conn, login, db.Keys, ms, l.out.unsent) by {
      if l.out.phase.Ready? {
        var ms :| WillRead(l, login, db, queue, ms, synced);
      }
    }
    var ms :| Bound(l.conn, login, db.Keys, ms, l.out.unsent);
    assert Ahead(p, login, ms) == Ahead(l.conn, login, ms);
    assert Bound(p, login, db.Keys, ms, rest);
    assert OldOk(p, login, db.Keys);
  }

  /** What is left of a lost connection may disturb the client later. */
  function StillSynced(synced: set<nat>, e: Event): set<nat> {
    if e.Lost? then synced - {e.i} else synced
  }

  lemma StepKeeps(s: Sys, e: Event, synced: set<nat>)
    requires Inv(s, synced) && Enabled(s, e)
    ensures Inv(Do(s, e), StillSynced(synced, e))
  {
    hide Run, Ops, Partial, OldOk, Loud, WillRead, Bound, CanRead, LoseConn, ReceiveBytes, ReceiveOldBytes, SendBytes;
    match e
    case Change(u) => ChangeKeeps(s, u, synced);
    case Pop => PopKeeps(s, synced);
    case Send(i, n, snap) => SendLink(s.links[i], s.login, s.db, s.queue, n, snap, i in synced);
    case Receive(i, n) =>
      var l := s.links[i];
      NothingThere(l, n);
      if l.out.phase.Ready? {
        ReceiveReady(l, s.login, s.db, s.queue, n, i in synced);
      } else if l.out.phase.Login? {
        ReceiveLogin(l, s.login, s.db, s.queue, n, i in synced);
      }
    case ReceiveOld(i, k, n) => ReceiveOldLink(s.links[i], s.login, s.db, s.queue, k, n, i in synced);
    case Connected(i) => GreetLink(s.links[i], s.login, s.db, s.queue, i in synced);
    case Retry(i) =>
    case Refused(i) =>
    case Lost(i, kept) => LostLink(s.links[i], s.login, s.db, s.queue, kept, i in synced);
  }

  lemma NothingThere(l: Link, n: nat)
    ensures l.conn == NO_PIPE ==> !CanRead(l.conn, n)
  {
  }

  lemma GreetLink(l: Link, login: string, db: Arrays, queue: seq<Message>, synced: bool)
    requires LinkOk(l, login, db, queue, synced) && l.out.phase.Connecting? && Framable(login)
    ensures LinkOk(l.(out := l.out.Greet(login), conn := Pipe("", "", 0, true)), login, db, queue, synced)
  {
    hide Run, Ops, OldOk, Loud;
    var p := Pipe("", "", 0, true);
    assert Ahead(p, login, []) == [login] && [login][1..] == [] && Frames([]) == "";
    assert Frames([login]) == Frame(login) + "";
    assert p.partial + p.transit + Frame(login) == Frame(login);
  }

  // ---- Whole runs ----

  /** The events lead from one state to another. */
  ghost predicate Leads(s: Sys, events: seq<Event>, t: Sys)
    decreases |events|
  {
    if events == [] then s == t else
      && Framable(s.login) && AllFit(s.queue, s.db.Keys) && Enabled(s, events[0])
      && Leads(Do(s, events[0]), events[1..], t)
  }

  lemma {:induction false} LeadsConcat(s: Sys, a: seq<Event>, t: Sys, b: seq<Event>, u: Sys)
    requires Leads(s, a, t) && Leads(t, b, u)
    ensures Leads(s, a + b, u)
    decreases |a|
  {
    hide Enabled, Do, AllFit;
    if a == [] {
      assert a + b == b;
    } else {
      assert (a + b)[1..] == a[1..] + b;
      LeadsConcat(Do(s, a[0]), a[1..], t, b, u);
    }
  }

  lemma LeadsFirst(s: Sys, e: Event, events: seq<Event>, t: Sys)
    requires Framable(s.login) && AllFit(s.queue, s.db.Keys) && Enabled(s, e) && Leads(Do(s, e), events, t)
    ensures Leads(s, [e] + events, t)
  {
    hide Enabled, Do, AllFit;
    assert ([e] + events)[1..] == events;
  }

  /** The connection to the client is not lost. */
  predicate Stays(events: seq<Event>, i: nat) {
    forall k | 0 <= k < |events| :: !(events[k].Lost? && events[k].i == i)
  }

  /** No client is connected, and each may hold anything in its arrays. */
  ghost predicate Start(s: Sys) {
    && Framable(s.login) && s.queue == []
    && forall i | 0 <= i < |s.links| ::
         s.links[i].out == Out(Down, "") && s.links[i].conn == NO_PIPE && s.links[i].past == [] &&
         s.links[i].store.Keys == s.db.Keys
  }

  lemma StartInv(s: Sys)
    requires Start(s)
    ensures Inv(s, {})
  {
  }

  lemma {:induction false} RunKeeps(s: Sys, events: seq<Event>, t: Sys, synced: set<nat>) returns (synced2: set<nat>)
    requires Inv(s, synced) && Leads(s, events, t)
    ensures Inv(t, synced2) && forall i | i in synced && Stays(events, i) :: i in synced2
    decreases |events|
  {
    synced2 := synced;
    if events != [] {
      StepKeeps(s, events[0], synced);
      synced2 := RunKeeps(Do(s, events[0]), events[1..], t, StillSynced(synced, events[0]));
      forall i | i in synced && Stays(events, i) ensures i in synced2 {
        assert !(events[0].Lost? && events[0].i == i);
        assert forall k | 0 <= k < |events[1..]| :: events[1..][k] == events[k + 1];
      }
    }
  }

  /** The client has not read the snapshot of its connection yet, if it has one. */
  predicate Unsynced(l: Link) {
    !Online(l) || l.conn.got < 2
  }

  /** If no old command is left to be read before the snapshot is, none can disturb the client. */
  lemma QuietSyncs(s: Sys, i: nat)
    requires Inv(s, {}) && i < |s.links| && Unsynced(s.links[i]) && Quiet(s.links[i])
    ensures Inv(s, {i})
  {
    hide Quiet, Bound, OldOk, Run, Restores, Brings;
    var l := s.links[i];
    assert LinkOk(l, s.login, s.db, s.queue, false);
    if l.out.phase.Ready? {
      var ms :| WillRead(l, s.login, s.db, s.queue, ms, false);
      RestoresAny(ms, s.db, s.queue, l.store);
      assert WillRead(l, s.login, s.db, s.queue, ms, true);
    }
    assert LinkOk(l, s.login, s.db, s.queue, true);
  }

  /** The client has read all that has been sent to it since it logged in. */
  predicate CaughtUp(l: Link) {
    l.out == Out(Ready, "") && l.conn.transit == "" && l.conn.partial == "" && l.conn.got > 0
  }

  lemma NoFramesNoBytes(ms: seq<string>)
    requires forall i | 0 <= i < |ms| :: Framable(ms[i])
    ensures Frames(ms) == "" ==> ms == []
  {
  }

  lemma CaughtUpBehindQueue(l: Link, login: string, db: Arrays, queue: seq<Message>)
    requires LinkOk(l, login, db, queue, true) && CaughtUp(l)
    ensures db == Run(Ops(queue), l.store)
  {
    var ms :| WillRead(l, login, db, queue, ms, true);
    NoFramesNoBytes(Ahead(l.conn, login, ms));
  }

  lemma OpenLink(l: Link, login: string, db: Arrays, queue: seq<Message>, synced: bool)
    requires LinkOk(l, login, db, queue, synced)
    ensures l.out.phase.Ready? ==> l.conn.open
  {
  }

  lemma QuietConverges(s: Sys, events: seq<Event>, t: Sys, i: nat)
    requires Inv(s, {}) && Leads(s, events, t) && i < |s.links| && i < |t.links|
    requires Unsynced(s.links[i]) && Quiet(s.links[i]) && Stays(events, i)
    ensures t.links[i].out.phase.Ready? ==> t.links[i].conn.open
    ensures CaughtUp(t.links[i]) ==> t.db == Run(Ops(t.queue), t.links[i].store)
    ensures CaughtUp(t.links[i]) && t.queue == [] ==> t.links[i].store == t.db
  {
    hide LinkOk, Quiet, Unsynced, Leads;
    QuietSyncs(s, i);
    var synced := RunKeeps(s, events, t, {i});
    OpenLink(t.links[i], t.login, t.db, t.queue, true);
    if CaughtUp(t.links[i]) {
      CaughtUpBehindQueue(t.links[i], t.login, t.db, t.queue);
    }
  }

  /** Convergence. In any run, whatever was dropped, retried or split on the way: if no command of an
      earlier connection is left to be read at some moment before the client reads the snapshot of its
      connection, then for as long as that connection lasts the client understands all it is sent, and
      whenever it has caught up it is behind by exactly the queued changes, so with an empty queue its
      arrays equal the server's. */
  lemma Converges(start: Sys, before: seq<Event>, s: Sys, after: seq<Event>, t: Sys, i: nat)
    requires Start(start) && Leads(start, before, s) && Leads(s, after, t) && i < |s.links| && i < |t.links|
    requires Unsynced(s.links[i]) && Quiet(s.links[i]) && Stays(after, i)
    ensures t.links[i].out.phase.Ready? ==> t.links[i].conn.open
    ensures CaughtUp(t.links[i]) ==> t.db == Run(Ops(t.queue), t.links[i].store)
    ensures CaughtUp(t.links[i]) && t.queue == [] ==> t.links[i].store == t.db
  {
    hide LinkOk, Quiet, Unsynced, Leads;
    StartInv(start);
    var none := RunKeeps(start, before, s, {});
    Weaken(s, none);
    QuietConverges(s, after, t, i);
  }

  lemma Weaken(s: Sys, synced: set<nat>)
    requires Inv(s, synced)
    ensures Inv(s, {})
  {
    forall i | 0 <= i < |s.links| ensures LinkOk(s.links[i], s.login, s.db, s.queue, false) {
      WeakenLink(s.links[i], s.login, s.db, s.queue, i in synced);
    }
  }

  lemma WeakenLink(l: Link, login: string, db: Arrays, queue: seq<Message>, synced: bool)
    requires LinkOk(l, login, db, queue, synced)
    ensures LinkOk(l, login, db, queue, false)
  {
    hide Bound, OldOk, Run, Restores, Brings, Quiet;
    if l.out.phase.Ready? {
      var ms :| WillRead(l, login, db, queue, ms, synced);
      assert WillRead(l, login, db, queue, ms, false);
    }
  }

  // ---- Nothing gets stuck ----

  predicate Progress(e: Event) {
    e.Send? || e.Receive? || e.Pop?
  }

  lemma CanSend(s: Sys, k: nat, snap: Message)
    requires k < |s.links| && s.links[k].out.Busy() && Snapshot(snap, s.db) && Fits(snap, s.db.Keys)
    ensures Progress(Send(k, 1, snap)) && Enabled(s, Send(k, 1, snap))
  {
  }

  lemma CanPop(s: Sys)
    requires s.queue != [] && forall k | 0 <= k < |s.links| :: !s.links[k].out.Busy()
    ensures Progress(Pop) && Enabled(s, Pop)
  {
  }

  lemma CanReceive(s: Sys, i: nat)
    requires i < |s.links| && s.links[i].conn.open && s.links[i].conn.transit != "" && Need(s.links[i].conn.partial) >= 1
    ensures Progress(Receive(i, 1)) && Enabled(s, Receive(i, 1))
  {
  }

  /** If nothing more can be sent, read or taken from the queue, then the queue is empty, every login
      is over, every connected client has read all it was sent, and if no old connection can have
      disturbed it, it has the server's arrays. */
  lemma Settled(s: Sys, snap: Message, i: nat, synced: set<nat>)
    requires Inv(s, synced) && Snapshot(snap, s.db) && Fits(snap, s.db.Keys) && i < |s.links|
    requires forall e | Progress(e) :: !Enabled(s, e)
    ensures s.queue == [] && !s.links[i].out.phase.Login?
    ensures s.links[i].out.phase.Ready? ==> CaughtUp(s.links[i]) && (i in synced ==> s.links[i].store == s.db)
  {
    forall k: nat | k < |s.links| ensures !s.links[k].out.Busy() {
      if s.links[k].out.Busy() {
        CanSend(s, k, snap);
      }
    }
    if s.queue != [] {
      CanPop(s);
    }
    var l := s.links[i];
    assert LinkOk(l, s.login, s.db, s.queue, i in synced);
    if l.out.phase.Ready? {
      var ms :| WillRead(l, s.login, s.db, s.queue, ms, i in synced);
      NothingUnderWay(s, i, ms);
      if i in synced {
        CaughtUpBehindQueue(l, s.login, s.db, s.queue);
      }
    }
  }

  lemma NothingUnderWay(s: Sys, i: nat, ms: seq<Message>)
    requires i < |s.links| && s.links[i].out == Out(Ready, "")
    requires forall e | Progress(e) :: !Enabled(s, e)
    requires Bound(s.links[i].conn, s.login, s.db.Keys, ms, "")
    ensures CaughtUp(s.links[i])
  {
    var p := s.links[i].conn;
    var ahead := Ahead(p, s.login, ms);
    assert p.partial + p.transit == p.partial + p.transit + "";
    if p.transit != "" {
      MoreIsNeeded(p.partial, p.transit, ahead);
      CanReceive(s, i);
    } else if ahead != [] {
      PartialIsShort(p.partial, "", ahead);
    }
  }

  /** A reader in the middle of a stream of frames asks for at least one byte. */
  lemma MoreIsNeeded(p: string, rest: string, ms: seq<string>)
    requires forall i | 0 <= i < |ms| :: Framable(ms[i])
    requires Partial(p) && rest != "" && p + rest == Frames(ms)
    ensures Need(p) >= 1
  {
    if |p| == 4 {
      HeadAgrees(p, rest, ms);
    }
  }

  function Logins(links: seq<Link>): nat {
    if links == [] then 0 else (if links[0].out.phase.Login? then 1 else 0) + Logins(links[1..])
  }

  function OldBytes(pipes: seq<Pipe>): nat {
    if pipes == [] then 0 else |pipes[0].transit| + OldBytes(pipes[1..])
  }

  /** Bytes to send count twice, bytes to read once. */
  function LinkBytes(l: Link): nat {
    2 * |l.out.unsent| + |l.conn.transit| + OldBytes(l.past)
  }

  function Bytes(links: seq<Link>): nat {
    if links == [] then 0 else LinkBytes(links[0]) + Bytes(links[1..])
  }

  lemma {:induction false} OldBytesUpdate(pipes: seq<Pipe>, k: nat, p: Pipe)
    requires k < |pipes|
    ensures OldBytes(pipes[k := p]) == OldBytes(pipes) - |pipes[k].transit| + |p.transit|
  {
    var pipes2 := pipes[k := p];
    if k == 0 {
      assert pipes2[1..] == pipes[1..];
    } else {
      assert pipes2[1..] == pipes[1..][k - 1 := p];
      OldBytesUpdate(pipes[1..], k - 1, p);
    }
  }

  lemma {:induction false} SumsUpdate(links: seq<Link>, i: nat, l: Link)
    requires i < |links|
    ensures Logins(links[i := l]) == Logins(links) - (if links[i].out.phase.Login? then 1 else 0)
                                       + (if l.out.phase.Login? then 1 else 0)
    ensures Bytes(links[i := l]) == Bytes(links) - LinkBytes(links[i]) + LinkBytes(l)
  {
    var links2 := links[i := l];
    if i == 0 {
      assert links2[1..] == links[1..];
    } else {
      assert links2[1..] == links[1..][i - 1 := l];
      SumsUpdate(links[1..], i - 1, l);
    }
  }

  predicate Less(a: (nat, nat, nat), b: (nat, nat, nat)) {
    a.0 < b.0 || (a.0 == b.0 && (a.1 < b.1 || (a.1 == b.1 && a.2 < b.2)))
  }

  function Rank(s: Sys): (nat, nat, nat) {
    (|s.queue|, Logins(s.links), Bytes(s.links))
  }

  lemma ReadShape(p: Pipe, st: Arrays, n: nat, login: string)
    requires n <= |p.transit|
    ensures ReadBytes(p, st, n, login).0.transit == p.transit[n..]
  {
  }

  /** Sending, reading and taking from the queue cannot go on for ever. */
  lemma ProgressEnds(s: Sys, e: Event)
    requires Framable(s.login) && AllFit(s.queue, s.db.Keys) && Enabled(s, e) && (Progress(e) || e.ReceiveOld?)
    ensures Less(Rank(Do(s, e)), Rank(s))
  {
    hide Snapshot, MessageOk, EncodeMessage, ReadBytes, Need, AllFit;
    match e
    case Pop =>
    case Send(i, n, snap) =>
      SumsUpdate(s.links, i, SendBytes(s.links[i], n, snap));
    case Receive(i, n) =>
      ReadShape(s.links[i].conn, s.links[i].store, n, s.login);
      SumsUpdate(s.links, i, ReceiveBytes(s.links[i], n, s.login));
    case ReceiveOld(i, k, n) =>
      var l := s.links[i];
      ReadShape(l.past[k], l.store, n, s.login);
      OldBytesUpdate(l.past, k, ReadBytes(l.past[k], l.store, n, s.login).0);
      SumsUpdate(s.links, i, ReceiveOldBytes(l, k, n, s.login));
  }
}
