/** Length-prefixed frames over a stream socket, read in chunks of any size. */
module Receiver {
  import opened ByteOrder
  import opened Options
  import opened Sequences
  import opened Wire

  const LENGTH_LIMIT := 0x8000_0000

  /** A message that can be framed. The receiver does not survive an empty one. */
  predicate Framable(m: string) {
    0 < |m| < LENGTH_LIMIT
  }

  function Frame(m: string): string
    requires Framable(m)
  {
    Htonl(|m|) + m
  }

  /** A frame is the length of the message, most significant byte first, and the message. */
  lemma FrameLayout(m: string)
    requires Framable(m)
    ensures |Frame(m)| == 4 + |m| && BigEndian(Frame(m)[..4]) == |m| && Frame(m)[4..] == m
  {
    HtonlIsBigEndian(|m|);
    assert Frame(m)[..4] == Htonl(|m|);
  }

  function Frames(ms: seq<string>): string
    requires forall i | 0 <= i < |ms| :: Framable(ms[i])
  {
    if ms == [] then "" else Frame(ms[0]) + Frames(ms[1..])
  }

  lemma {:induction false} FramesConcat(a: seq<string>, b: seq<string>)
    requires forall i | 0 <= i < |a| :: Framable(a[i])
    requires forall i | 0 <= i < |b| :: Framable(b[i])
    ensures Frames(a + b) == Frames(a) + Frames(b)
  {
    if a == [] {
      assert a + b == b;
    } else {
      assert (a + b)[1..] == a[1..] + b;
      FramesConcat(a[1..], b);
    }
  }

  /** How many bytes the reader asks for when it has read `p` of a frame. */
  function Need(p: string): int {
    if |p| < 4 then 4 - |p| else 4 + Ntohl(p[..4]) - |p|
  }

  /** Part of a frame: what a reader may hold between two reads. */
  predicate Partial(p: string) {
    |p| > 4 ==> Need(p) > 0
  }

  /** What a read leaves unfinished, and the message it completes. */
  function Feed(p: string, chunk: string): (string, Option<string>) {
    var q := p + chunk;
    if |q| > 4 && Need(q) == 0 then ("", Some(q[4..])) else (q, None)
  }

  /** A partial frame at the head of a stream is shorter than the frame. */
  lemma PartialIsShort(p: string, rest: string, ms: seq<string>)
    requires ms != [] && forall i | 0 <= i < |ms| :: Framable(ms[i])
    requires Partial(p) && p + rest == Frames(ms)
    ensures |p| < 4 + |ms[0]|
  {
    hide Frame;
    if |p| > 4 {
      HeadAgrees(p, rest, ms);
    }
  }

  lemma HeadAgrees(q: string, rest: string, ms: seq<string>)
    requires ms != [] && forall i | 0 <= i < |ms| :: Framable(ms[i])
    requires q + rest == Frames(ms) && |q| >= 4
    ensures Ntohl(q[..4]) == |ms[0]|
  {
    hide Ntohl;
    NtohlOfHtonl(|ms[0]|);
    assert Frames(ms)[..4] == Htonl(|ms[0]|);
    assert q[..4] == (q + rest)[..4];
  }

  lemma FramesCut(q: string, rest: string, ms: seq<string>)
    requires ms != [] && forall i | 0 <= i < |ms| :: Framable(ms[i])
    requires q + rest == Frames(ms) && |q| == 4 + |ms[0]|
    ensures q[4..] == ms[0] && rest == Frames(ms[1..])
  {
    var f := Frame(ms[0]);
    assert q == (q + rest)[..|q|] == f;
    assert rest == (q + rest)[|q|..] == Frames(ms[1..]);
  }

  /** Reading on in a stream of frames completes exactly the next frame, or nothing. */
  lemma FeedStep(p: string, chunk: string, rest: string, ms: seq<string>)
    requires forall i | 0 <= i < |ms| :: Framable(ms[i])
    requires Partial(p) && chunk != "" && |chunk| <= Need(p) && p + chunk + rest == Frames(ms)
    ensures ms != [] && Partial(Feed(p, chunk).0)
    ensures match Feed(p, chunk)
            case (q, None) => q + rest == Frames(ms)
            case (q, Some(m)) => q == "" && m == ms[0] && rest == Frames(ms[1..])
  {
    hide Ntohl, Frame;
    var q := p + chunk;
    if |q| > 4 {
      HeadAgrees(q, rest, ms);
      if Need(q) == 0 {
        FramesCut(q, rest, ms);
      } else {
        NoOverrun(p, chunk, |ms[0]|);
      }
    }
  }

  /** A reader that is given no more than it asked for never reads past the end of a frame. */
  lemma NoOverrun(p: string, chunk: string, n: nat)
    requires |chunk| <= Need(p) && |p + chunk| > 4 && Ntohl((p + chunk)[..4]) == n
    ensures |p + chunk| <= 4 + n
  {
    assert |p| >= 4 ==> (p + chunk)[..4] == p[..4];
  }

  /** The messages of the frames that are whole. */
  function Whole(b: string): seq<string> {
    if |b| > 4 && 0 < Ntohl(b[..4]) <= |b| - 4 then
      var n := 4 + Ntohl(b[..4]);
      [b[4..n]] + Whole(b[n..])
    else []
  }

  /** The message that a read completes was the first whole one. */
  lemma FeedWhole(p: string, chunk: string, rest: string)
    requires Feed(p, chunk).1.Some?
    ensures Whole(p + chunk + rest) == [Feed(p, chunk).1.value] + Whole(rest)
  {
    hide Ntohl;
    var q, b := p + chunk, p + chunk + rest;
    assert b[..4] == q[..4];
    assert b[4..|q|] == q[4..] && b[|q|..] == rest;
  }

  /** While there is a whole frame the reader gets what it asks for. */
  lemma WholeNeed(p: string, t: string)
    requires Partial(p) && Whole(p + t) != []
    ensures 0 < Need(p) <= |t|
  {
    hide Ntohl;
    assert |p| >= 4 ==> (p + t)[..4] == p[..4];
  }

  /** What is whole in the first part of a stream of frames are the first of its messages. */
  lemma {:induction false} WholePrefix(b: string, rest: string, ms: seq<string>)
    requires forall i | 0 <= i < |ms| :: Framable(ms[i])
    requires b + rest == Frames(ms)
    ensures Whole(b) <= ms
  {
    hide Ntohl, Frame;
    if Whole(b) != [] {
      HeadAgrees(b, rest, ms);
      var n := 4 + |ms[0]|;
      var tail := b[n..] + rest;
      assert b[..n] + tail == b + rest;
      FramesCut(b[..n], tail, ms);
      assert b[4..n] == b[..n][4..];
      WholePrefix(b[n..], rest, ms[1..]);
    }
  }

  lemma {:induction false} WholeFrames(ms: seq<string>)
    requires forall i | 0 <= i < |ms| :: Framable(ms[i])
    ensures Whole(Frames(ms)) == ms
  {
    hide Ntohl;
    if ms != [] {
      var b, n := Frames(ms), 4 + |ms[0]|;
      assert b + "" == b && b[..n] + b[n..] == b;
      HeadAgrees(b, "", ms);
      FramesCut(b[..n], b[n..], ms);
      assert b[4..n] == b[..n][4..];
      WholeFrames(ms[1..]);
    }
  }

  /** A connection to a receiver. */
  datatype Conn = Conn(partial: string, login: Option<string>, handled: seq<string>, closed: bool)

  /** The effect of one read: nothing yet, a login, a message for the callback, or the end. */
  function Take(c: Conn, chunk: string, logins: set<string>, accept: string -> bool): Conn {
    if chunk == "" then c.(closed := true)
    else match Feed(c.partial, chunk)
      case (q, None) => c.(partial := q)
      case (_, Some(m)) =>
        if c.login.Some? then c.(partial := "", handled := c.handled + [m], closed := !accept(m))
        else if CString(m) in logins then c.(partial := "", login := Some(CString(m)))
        else c.(partial := "", closed := true)
  }

  /** The reads of a connection, as long as it is open. */
  function TakeAll(c: Conn, chunks: seq<string>, logins: set<string>, accept: string -> bool): Conn
    decreases |chunks|
  {
    if chunks == [] || c.closed then c else TakeAll(Take(c, chunks[0], logins, accept), chunks[1..], logins, accept)
  }

  /** A way in which the socket may deliver a stream: every chunk has at least one byte and no more
      than the reader has asked for. */
  predicate Delivery(p: string, chunks: seq<string>)
    decreases |chunks|
  {
    chunks != [] ==> 0 < |chunks[0]| <= Need(p) && Delivery(Feed(p, chunks[0]).0, chunks[1..])
  }

  /** However a stream of frames is split, the callback sees each frame once and in order. */
  lemma {:induction false} AllHandled(c: Conn, chunks: seq<string>, ms: seq<string>, logins: set<string>, accept: string -> bool)
    requires forall i | 0 <= i < |ms| :: Framable(ms[i]) && accept(ms[i])
    requires Partial(c.partial) && Delivery(c.partial, chunks) && c.partial + Joined(chunks) == Frames(ms)
    requires c.login.Some? && !c.closed
    ensures TakeAll(c, chunks, logins, accept) == c.(partial := "", handled := c.handled + ms)
    decreases |chunks|
  {
    if chunks == [] {
      assert c.partial + "" == c.partial;
      if ms != [] {
        PartialIsShort(c.partial, "", ms);
      }
    } else {
      var c2 := Take(c, chunks[0], logins, accept);
      var rest := Joined(chunks[1..]);
      assert c.partial + chunks[0] + rest == Frames(ms);
      FeedStep(c.partial, chunks[0], rest, ms);
      if Feed(c.partial, chunks[0]).1.Some? {
        AllHandled(c2, chunks[1..], ms[1..], logins, accept);
        assert c.handled + [ms[0]] + ms[1..] == c.handled + ms;
      } else {
        AllHandled(c2, chunks[1..], ms, logins, accept);
      }
    }
  }

  /** However a whole connection is split, the first frame is the login and the callback sees
      exactly the frames after it, in order. */
  lemma {:induction false} LoginThenMessages(c: Conn, chunks: seq<string>, login: string, ms: seq<string>,
                                             logins: set<string>, accept: string -> bool)
    requires NulFree(login) && login in logins && Framable(Arg(login))
    requires forall i | 0 <= i < |ms| :: Framable(ms[i]) && accept(ms[i])
    requires c.login.None? && c.handled == [] && !c.closed && Partial(c.partial)
    requires Delivery(c.partial, chunks) && c.partial + Joined(chunks) == Frames([Arg(login)] + ms)
    ensures TakeAll(c, chunks, logins, accept) == Conn("", Some(login), ms, false)
    decreases |chunks|
  {
    var all := [Arg(login)] + ms;
    assert all[1..] == ms;
    if chunks == [] {
      assert c.partial + "" == c.partial;
      PartialIsShort(c.partial, "", all);
    } else {
      var c2 := Take(c, chunks[0], logins, accept);
      var rest := Joined(chunks[1..]);
      assert c.partial + chunks[0] + rest == Frames(all);
      FeedStep(c.partial, chunks[0], rest, all);
      CStringOfArg(login, "");
      assert Arg(login) + "" == Arg(login);
      if Feed(c.partial, chunks[0]).1.Some? {
        AllHandled(c2, chunks[1..], ms, logins, accept);
      } else {
        LoginThenMessages(c2, chunks[1..], login, ms, logins, accept);
      }
    }
  }

  /** What a receiver makes of a stream that consists of some frames: the first one logs the peer in
      if it names a receiver, and is the end otherwise; then the callback gets the frames one after the
      other, up to and including the first one that it rejects, which is the end too. */
  ghost predicate Answers(ms: seq<string>, logins: set<string>, accept: string -> bool,
                          login: Option<string>, handled: seq<string>, closed: bool)
  {
    if ms == [] then login == None && handled == [] && !closed
    else if CString(ms[0]) !in logins then login == None && handled == [] && closed
    else login == Some(CString(ms[0])) && GivenOut(ms[1..], accept, handled, closed)
  }

  ghost predicate GivenOut(ms: seq<string>, accept: string -> bool, handled: seq<string>, closed: bool) {
    && handled <= ms && (forall i | 0 <= i < |handled| - 1 :: accept(handled[i]))
    && if closed then handled != [] && !accept(handled[|handled| - 1])
       else handled == ms && (handled != [] ==> accept(handled[|handled| - 1]))
  }

  /** After the login, however the frames are split. */
  lemma {:induction false} AnyMessages(c: Conn, chunks: seq<string>, ms: seq<string>, logins: set<string>,
                                       accept: string -> bool) returns (more: seq<string>)
    requires forall i | 0 <= i < |ms| :: Framable(ms[i])
    requires Partial(c.partial) && Delivery(c.partial, chunks) && c.partial + Joined(chunks) == Frames(ms)
    requires c.login.Some? && !c.closed
    ensures var d := TakeAll(c, chunks, logins, accept);
            d.login == c.login && d.handled == c.handled + more && GivenOut(ms, accept, more, d.closed)
    decreases |chunks|
  {
    hide Ntohl, Htonl, Need;
    if chunks == [] {
      assert c.partial + "" == c.partial;
      if ms != [] {
        PartialIsShort(c.partial, "", ms);
      }
      more := [];
    } else {
      var c2 := Take(c, chunks[0], logins, accept);
      var rest := Joined(chunks[1..]);
      assert c.partial + chunks[0] + rest == Frames(ms);
      FeedStep(c.partial, chunks[0], rest, ms);
      if Feed(c.partial, chunks[0]).1.None? {
        more := AnyMessages(c2, chunks[1..], ms, logins, accept);
      } else if c2.closed {
        more := [ms[0]];
      } else {
        var later := AnyMessages(c2, chunks[1..], ms[1..], logins, accept);
        more := [ms[0]] + later;
        GivenOne(ms, accept, later, TakeAll(c2, chunks[1..], logins, accept).closed);
        assert c.handled + [ms[0]] + later == c.handled + more;
      }
    }
  }

  lemma GivenOne(ms: seq<string>, accept: string -> bool, later: seq<string>, closed: bool)
    requires ms != [] && accept(ms[0]) && GivenOut(ms[1..], accept, later, closed)
    ensures GivenOut(ms, accept, [ms[0]] + later, closed)
  {
    var all := [ms[0]] + later;
    assert ms == [ms[0]] + ms[1..];
    forall i | 0 <= i < |all| - 1 ensures accept(all[i]) {
      if i > 0 {
        assert all[i] == later[i - 1];
      }
    }
    assert later != [] ==> all[|all| - 1] == later[|later| - 1];
  }

  /** However a stream of any frames is split, the receiver does the same with it. */
  lemma {:induction false} AnySplit(c: Conn, chunks: seq<string>, ms: seq<string>, logins: set<string>, accept: string -> bool)
    requires forall i | 0 <= i < |ms| :: Framable(ms[i])
    requires Partial(c.partial) && Delivery(c.partial, chunks) && c.partial + Joined(chunks) == Frames(ms)
    requires c.login.None? && c.handled == [] && !c.closed
    ensures var d := TakeAll(c, chunks, logins, accept); Answers(ms, logins, accept, d.login, d.handled, d.closed)
    decreases |chunks|
  {
    hide Ntohl, Htonl, Need;
    if chunks == [] {
      assert c.partial + "" == c.partial;
      if ms != [] {
        PartialIsShort(c.partial, "", ms);
      }
    } else {
      var c2 := Take(c, chunks[0], logins, accept);
      var rest := Joined(chunks[1..]);
      assert c.partial + chunks[0] + rest == Frames(ms);
      FeedStep(c.partial, chunks[0], rest, ms);
      if Feed(c.partial, chunks[0]).1.None? {
        AnySplit(c2, chunks[1..], ms, logins, accept);
      } else if !c2.closed {
        var more := AnyMessages(c2, chunks[1..], ms[1..], logins, accept);
        assert [] + more == more;
      }
    }
  }

  /** A connected socket: reads first a length, then a message of that length. */
  class Sock {
    const logins: set<string>          // receivers that exist
    const accept: string -> bool       // whether the callback returns success
    var login: Option<string>
    var readlen: bool
    var len: string                    // bytes of the length read so far
    var ds: string                     // bytes of the message read so far
    var nleft: int
    var closed: bool
    ghost var handled: seq<string>     // messages the callback has been given

    ghost predicate Valid()
      reads this
    {
      && nleft == Need(len + ds) >= 0 && (login.Some? ==> login.value in logins) && (handled != [] ==> login.Some?)
      && if readlen then |len| < 4 && ds == "" else |len| == 4 && (ds != "" ==> nleft > 0)
    }

    ghost function State(): Conn
      reads this
    {
      Conn(len + ds, login, handled, closed)
    }

    constructor (logins: set<string>, accept: string -> bool)
      ensures Valid() && State() == Conn("", None, [], false) && this.logins == logins && this.accept == accept
    {
      this.logins, this.accept := logins, accept;
      login, handled, closed := None, [], false;
      readlen, len, ds, nleft := true, "", "", 4;
    }

    method ResetSock()
      modifies this`readlen, this`len, this`ds, this`nleft
      ensures len + ds == "" && nleft == Need("") == 4 && readlen && len == ds == ""
    {
      readlen, len, ds, nleft := true, "", "", 4;
    }

    /** Handles what one recv returned: no bytes at the end of the stream, else at most `nleft`. */
    method RecvMsg(bytes: string) returns (more: bool)
      requires Valid() && !closed && |bytes| <= nleft
      modifies this
      ensures State() == Take(old(State()), bytes, logins, accept)
      ensures more == !closed && (more ==> Valid())
      ensures (login.Some? ==> login.value in logins) && (handled != [] ==> login.Some?)
      ensures bytes == "" ==> closed && login == old(login) && handled == old(handled)
    {
      if bytes == "" {
        closed := true;
        return false;
      }
      if readlen {
        len := len + bytes;
        assert len + "" == len && old(len) + "" == old(len);
      } else {
        ds := ds + bytes;
        assert old(len) + old(ds) + bytes == len + ds;
        assert (len + ds)[..4] == len && (old(len) + old(ds))[..4] == len && (len + ds)[4..] == ds;
      }
      nleft := nleft - |bytes|;
      if nleft == 0 {
        if readlen {
          assert len[..4] == len;
          nleft := Ntohl(len);
          readlen := false;
        } else {
          if login.None? {
            if CString(ds) !in logins {
              len, ds, closed := "", "", true;
              return false;
            }
            login := Some(CString(ds));
          } else {
            handled := handled + [ds];
            closed := !accept(ds);
          }
          ResetSock();
        }
      }
      more := !closed;
    }

    /** Reads until the connection is closed or nothing more arrives. */
    method ReadOn(chunks: seq<string>, ghost ms: seq<string>)
      requires Valid() && State() == Conn("", None, [], false)
      requires (forall i | 0 <= i < |ms| :: Framable(ms[i])) && Delivery("", chunks) && Joined(chunks) == Frames(ms)
      modifies this
      ensures Answers(ms, logins, accept, login, handled, closed)
    {
      ghost var start := State();
      assert "" + Joined(chunks) == Joined(chunks);
      AnySplit(start, chunks, ms, logins, accept);
      var i, more := 0, true;
      assert chunks[0..] == chunks;
      while more && i < |chunks|
        invariant 0 <= i <= |chunks| && more == !closed && (more ==> Valid())
        invariant more ==> Delivery(len + ds, chunks[i..])
        invariant TakeAll(State(), chunks[i..], logins, accept) == TakeAll(start, chunks, logins, accept)
      {
        assert chunks[i..][0] == chunks[i] && chunks[i..][1..] == chunks[i + 1..];
        more := RecvMsg(chunks[i]);
        i := i + 1;
      }
    }
  }
}
