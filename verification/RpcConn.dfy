/** A client's connection to a procedure server: one request out, one response in. */
module RpcConn {
  import opened ByteOrder
  import opened Iov
  import opened Options
  import opened RpcWire
  import opened Words

  datatype Err = SendFailed | RecvFailed | SendWait | RecvWait | AwaitResponse | Done

  predicate InBuffers(buf: string, data: string, p: (nat, nat)) {
    if p.0 == 0 then p.1 < |buf| else p.0 == 1 && p.1 < |data|
  }

  predicate AllInBuffers(buf: string, data: string, places: seq<(nat, nat)>) {
    forall i | 0 <= i < |places| :: InBuffers(buf, data, places[i])
  }

  function At(buf: string, data: string, p: (nat, nat)): char
    requires InBuffers(buf, data, p)
  {
    if p.0 == 0 then buf[p.1] else data[p.1]
  }

  /** The bytes of two buffers at some places. */
  function Gather(buf: string, data: string, places: seq<(nat, nat)>): string
    requires AllInBuffers(buf, data, places)
  {
    seq(|places|, i requires 0 <= i < |places| => At(buf, data, places[i]))
  }

  lemma GatherRest(buf: string, data: string, places: seq<(nat, nat)>, n: nat)
    requires AllInBuffers(buf, data, places) && n <= |places|
    ensures AllInBuffers(buf, data, places[n..]) && Gather(buf, data, places[n..]) == Gather(buf, data, places)[n..]
  {
  }

  lemma GatherBoth(buf: string, data: string)
    ensures var places := Places(Piece(0, 0, |buf|)) + Places(Piece(1, 0, |data|));
            AllInBuffers(buf, data, places) && Gather(buf, data, places) == buf + data
  {
  }

  class Conn {
    const iov: array<Piece>
    var buf: string       // buffer 0: the header
    var data: string      // buffer 1: the body of the request, or of the response
    var len: int          // bytes left to send or receive
    var haveBody: bool    // the header of the response has been read
    var result: int
    ghost var got: string // all bytes of the response so far

    constructor ()
      ensures iov.Length == 2 && fresh(iov)
    {
      iov := new Piece[2](_ => Piece(0, 0, 0));
      buf, data, len, haveBody, result, got := "", "", 0, false, 0, "";
    }

    /** The bytes of the request that have not been sent. */
    ghost predicate Sending(unsent: string)
      reads this, iov
    {
      && iov.Length == 2 && len == |unsent|
      && AllInBuffers(buf, data, AllPlaces(iov[..])) && Gather(buf, data, AllPlaces(iov[..])) == unsent
    }

    /** Prepares a request; without input its body is empty. */
    method SetSend(cmd: nat, input: Option<string>)
      requires iov.Length == 2 && cmd < WORD && (input.Some? ==> |input.value| < LENGTH_LIMIT)
      modifies this, iov
      ensures Sending(Packet(cmd, if input.Some? then input.value else ""))
    {
      data := if input.Some? then input.value else "";
      iov[1] := Piece(1, 0, |data|);
      buf := Htonl(cmd) + Htonl(|data|);
      iov[0] := Piece(0, 0, |buf|);
      len := |buf| + |data|;
      assert iov[..] == [Piece(0, 0, |buf|), Piece(1, 0, |data|)];
      TwoPieces(Piece(0, 0, |buf|), Piece(1, 0, |data|));
      GatherBoth(buf, data);
    }

    /** The socket has taken n bytes, or has failed if n is negative. */
    method Send(n: int, ghost unsent: string) returns (err: Err)
      requires Sending(unsent) && n <= |unsent|
      modifies this`len, iov
      ensures n < 0 ==> err == SendFailed
      ensures 0 <= n < |unsent| ==> err == SendWait && Sending(unsent[n..])
      ensures n == |unsent| ==> err == AwaitResponse
    {
      if n < 0 {
        return SendFailed;
      }
      len := len - n;
      if len > 0 {
        GatherRest(buf, data, AllPlaces(iov[..]), n);
        UpdateIov(iov, n);
        return SendWait;
      }
      return AwaitResponse;
    }

    // ---- The response ----

    /** While the header is incomplete: it is read together with as much of the body as there is
        room for. */
    ghost predicate HeaderPart()
      requires iov.Length == 2
      reads this, iov
    {
      && |got| < HEADER == |buf| && buf[..|got|] == got
      && iov[0] == Piece(0, |got|, HEADER - |got|) && iov[1] == Piece(1, 0, |data|)
      && len == HEADER - |got| + |data|
    }

    /** With the header known: the body fills up a buffer of its own length. */
    ghost predicate BodyPart()
      reads this, iov
    {
      && |got| >= HEADER && |data| == BodyLength(got) && len == Lacks(got) >= 0 && result == CmdOf(got)
      && data[..|got| - HEADER] == got[HEADER..]
      && AllPlaces(iov[..]) == Places(Piece(1, |got| - HEADER, len))
    }

    ghost predicate Receiving()
      reads this, iov
    {
      iov.Length == 2 && if haveBody then BodyPart() else HeaderPart()
    }

    /** Prepares for a response; `room` is the free space of the output buffer, if there is one. */
    method SetRecv(room: string)
      requires iov.Length == 2
      modifies this, iov
      ensures Receiving() && got == "" && !haveBody
    {
      buf := "........";
      data := room;
      iov[0] := Piece(0, 0, HEADER);
      iov[1] := Piece(1, 0, |data|);
      len := HEADER + |data|;
      haveBody := false;
      got := "";
    }

    /** What recvmsg does: fills the places of the vector from the front. */
    method Scatter(bytes: string)
      requires Receiving() && |bytes| <= len
      modifies this`buf, this`data
      ensures |buf| == |old(buf)| && |data| == |old(data)|
      ensures !haveBody ==>
                var k := if |bytes| <= HEADER - |got| then |bytes| else HEADER - |got|;
                buf[..|got| + k] == got + bytes[..k] && data[..|bytes| - k] == bytes[k..]
      ensures haveBody ==> data[..|got| - HEADER + |bytes|] == got[HEADER..] + bytes
    {
      if haveBody {
        var off := |data| - len;
        data := data[..off] + bytes + data[off + |bytes|..];
      } else {
        var off := iov[0].off;
        var k := if |bytes| <= iov[0].len then |bytes| else iov[0].len;
        buf := buf[..off] + bytes[..k] + buf[off + k..];
        data := bytes[k..] + data[|bytes| - k..];
      }
    }

    /** Handles what one recvmsg returned; the response does not run on past its own length. */
    method Recv(bytes: string) returns (err: Err)
      requires Receiving() && |bytes| <= len
      requires |got + bytes| >= HEADER ==> Lacks(got + bytes) >= 0
      modifies this, iov
      ensures bytes == "" ==> err == RecvFailed
      ensures bytes != "" ==> Receiving() && got == old(got) + bytes
      ensures bytes != "" ==> err == if |got| >= HEADER && Lacks(got) == 0 then Done else RecvWait
      ensures err == Done ==> result == CmdOf(got) && data == got[HEADER..]
    {
      if bytes == "" {
        return RecvFailed;
      }
      Scatter(bytes);
      var n := |bytes|;
      ghost var before := got;
      got := got + bytes;
      if !haveBody && n >= iov[0].len {
        HeaderRead(n, before, bytes);
        FilledHeader(n, before);
      } else if haveBody {
        assert got[..8] == before[..8] && got[8..] == before[8..] + bytes;
        assert got[..4] == before[..4] && got[4..8] == before[4..8];
        FilledBefore(n, before);
      } else {
        FilledPart(n, before);
      }
      Rest(n, before);
      err := if len != 0 then RecvWait else Done;
    }

    /** The header is complete: the output buffer gets the length it tells. */
    method HeaderRead(n: nat, ghost before: string, ghost bytes: string)
      requires iov.Length == 2 && !haveBody && got == before + bytes && n == |bytes| && |before| < HEADER == |buf|
      requires var k := HEADER - |before|;
               && k <= n && buf == before + bytes[..k] && n - k <= |data| && data[..n - k] == bytes[k..]
               && iov[0] == Piece(0, |before|, k)
      requires Lacks(got) >= 0
      modifies this`result, this`data, this`haveBody, this`len, iov
      ensures haveBody && iov[0] == old(iov[0]) && iov[1] == Piece(1, 0, |data|) && len == iov[0].len + |data|
      ensures |data| == BodyLength(got) && result == CmdOf(got) && n - iov[0].len <= |data|
      ensures data[..|got| - HEADER] == got[HEADER..]
    {
      assert got[..4] == buf[..4] && got[4..8] == buf[4..8];
      result := Ntohl(buf[..4]);
      var length := Ntohl(buf[4..8]);
      var have := n - iov[0].len;
      data := data[..have] + seq(length - have, _ => '\0');
      iov[1] := Piece(1, 0, length);
      haveBody := true;
      len := iov[0].len + iov[1].len;
    }

    /** After a read, before the vector is updated: the places behind the n filled ones are the ones
        to be filled next. */
    ghost predicate Filled(n: nat, before: string)
      requires iov.Length == 2
      reads this, iov
    {
      && |got| == |before| + n && n <= |AllPlaces(iov[..])|
      && if !haveBody then
           && |got| < HEADER == |buf| && buf[..|got|] == got
           && iov[0] == Piece(0, |before|, HEADER - |before|) && iov[1] == Piece(1, 0, |data|)
           && len == HEADER - |before| + |data|
         else
           && |got| >= HEADER && |data| == BodyLength(got) && result == CmdOf(got) && len == Lacks(got) + n >= n
           && data[..|got| - HEADER] == got[HEADER..]
           && AllPlaces(iov[..])[n..] == Places(Piece(1, |got| - HEADER, Lacks(got)))
    }

    lemma FilledBefore(n: nat, before: string)
      requires iov.Length == 2 && haveBody && HEADER <= |before| && |got| == |before| + n && BodyLength(got) == BodyLength(before)
      requires |data| == BodyLength(got) && result == CmdOf(got) && Lacks(got) >= 0 && data[..|got| - HEADER] == got[HEADER..]
      requires len == Lacks(before) && AllPlaces(iov[..]) == Places(Piece(1, |before| - HEADER, len))
      ensures Filled(n, before)
    {
      PlacesRest(Piece(1, |before| - HEADER, len), n);
    }

    lemma FilledHeader(n: nat, before: string)
      requires iov.Length == 2 && haveBody && |before| < HEADER <= |got| == |before| + n
      requires iov[0] == Piece(0, |before|, HEADER - |before|) && iov[1] == Piece(1, 0, |data|) && len == iov[0].len + |data|
      requires |data| == BodyLength(got) && result == CmdOf(got) && Lacks(got) >= 0 && data[..|got| - HEADER] == got[HEADER..]
      ensures Filled(n, before)
    {
      assert iov[..] == [iov[0], iov[1]];
      TwoPieces(iov[0], iov[1]);
      PlacesRest(iov[1], n - iov[0].len);
      assert AllPlaces(iov[..])[n..] == Places(iov[1])[n - iov[0].len..];
    }

    lemma FilledPart(n: nat, before: string)
      requires iov.Length == 2 && !haveBody && |got| == |before| + n < HEADER == |buf| && buf[..|got|] == got
      requires iov[0] == Piece(0, |before|, HEADER - |before|) && iov[1] == Piece(1, 0, |data|)
      requires len == HEADER - |before| + |data|
      ensures Filled(n, before)
    {
      assert iov[..] == [iov[0], iov[1]];
      TwoPieces(iov[0], iov[1]);
    }

    /** Leaves out of the vector what has been filled. */
    method Rest(n: nat, ghost before: string)
      requires iov.Length == 2 && Filled(n, before)
      modifies this`len, iov
      ensures Receiving() && (len == 0 <==> |got| >= HEADER && Lacks(got) == 0)
    {
      hide AllPlaces, Places, Ntohl, Lacks, BodyLength, CmdOf;
      ghost var pieces := iov[..];
      UpdateIov(iov, n);
      len := len - n;
      if !haveBody {
        assert iov[0] == iov[..][0] && iov[1] == iov[..][1] && pieces[1] == iov[..][1];
      }
    }
  }

  /** If the bytes received are the response that was sent, the result and the body are its own. */
  lemma ResponseIs(got: string, res: nat, body: string)
    requires res < WORD && |body| < LENGTH_LIMIT && got == Packet(res, body)
    ensures |got| >= HEADER && Lacks(got) == 0 && CmdOf(got) == res && got[HEADER..] == body
  {
    assert got + "" == got;
    HeaderOf(got, "", res, body);
    assert got[HEADER..] + "" == got[HEADER..];
  }

  /** A part of the response never runs on past it, as `Recv` requires. */
  lemma PartIs(part: string, rest: string, res: nat, body: string)
    requires res < WORD && |body| < LENGTH_LIMIT && part + rest == Packet(res, body)
    ensures |part| >= HEADER ==> Lacks(part) == |rest|
  {
    if |part| >= HEADER {
      HeaderOf(part, rest, res, body);
    }
  }
}
