/** A procedure server's side of a connection: reads requests, directly or through a read-ahead
    buffer, and calls the procedure. */
module RpcServer {
  import opened ByteOrder
  import opened Options
  import opened RpcWire

  datatype Reading = ReadingHeader | ReadingBody

  class ServerConn {
    const bufsize: nat                           // 0: no read-ahead
    const procedure: (nat, string) -> (nat, string)
    var receiving: bool                          // or else sending a response
    var reading: Reading
    var filled: string                           // of the buffer being read into
    var nleft: int
    var ahead: string                            // received, and not yet asked for
    var cmd: nat
    var len: nat
    var input: string
    var response: (nat, string)
    ghost var partial: string                    // bytes of the current request that have been taken
    ghost var calls: seq<(nat, string)>          // what the procedure has been called with

    ghost predicate Valid()
      reads this
    {
      receiving ==>
        && Lacks(partial) == nleft > 0
        && match reading
           case ReadingHeader => |partial| < HEADER && filled == partial && input == ""
           case ReadingBody => |partial| >= HEADER && cmd == CmdOf(partial) && len == 0 && filled == partial[HEADER..]
    }

    constructor (bufsize: nat, procedure: (nat, string) -> (nat, string))
      ensures Valid() && receiving && partial == "" && ahead == "" && calls == [] && this.bufsize == bufsize
    {
      this.bufsize, this.procedure := bufsize, procedure;
      receiving, reading, filled, nleft, ahead := true, ReadingHeader, "", HEADER, "";
      cmd, len, input, response := 0, 0, "", (0, "");
      partial, calls := "", [];
    }

    /** Asks for the next bytes into some buffer. */
    method ServerRecv(what: Reading, size: int)
      modifies this`receiving, this`reading, this`filled, this`nleft
      ensures receiving && reading == what && filled == "" && nleft == size
    {
      receiving, reading, filled, nleft := true, what, "", size;
    }

    /** The buffer is full: after a header with a length the body is asked for, and otherwise the
        procedure is called. */
    method RpsProc()
      requires receiving && |partial| >= HEADER
      requires match reading
               case ReadingHeader => filled == partial && |partial| == HEADER && input == ""
               case ReadingBody => cmd == CmdOf(partial) && len == 0 && Lacks(partial) == 0 && filled == partial[HEADER..]
      modifies this`receiving, this`reading, this`filled, this`nleft, this`cmd, this`len, this`input, this`response,
               this`partial, this`calls
      ensures Valid()
      ensures if Lacks(old(partial)) == 0 then
                !receiving && partial == "" && calls == old(calls) + [(CmdOf(old(partial)), old(partial)[HEADER..])]
                && response == procedure(CmdOf(old(partial)), old(partial)[HEADER..])
              else receiving && partial == old(partial) && calls == old(calls)
    {
      if reading.ReadingHeader? {
        cmd, len := Ntohl(filled[..4]), Ntohl(filled[4..8]);
      } else {
        input := filled;
      }
      if len != 0 {
        ghost var size := len;
        ServerRecv(ReadingBody, len);
        len := 0;
        return;
      }
      response := procedure(cmd, input);
      receiving := false;
      calls := calls + [(cmd, input)];
      partial := "";
    }

    /** The response is out: the next request is read, starting with its header. */
    method Sent()
      requires !receiving
      modifies this`receiving, this`reading, this`filled, this`nleft, this`input, this`partial
      ensures Valid() && receiving && partial == ""
    {
      partial := "";
      ServerRecv(ReadingHeader, HEADER);
      input := "";
    }

    /** One receive callback. Without read-ahead it reads into the buffer itself; with read-ahead it
        takes what is left from before, and reads more only if that is nothing. Either way the bytes
        it takes are the next ones of the stream, and the request sees only those. */
    method Callback(arrived: string) returns (ok: bool, ghost bytes: string)
      requires Valid() && receiving
      requires if bufsize == 0 then ahead == "" && |arrived| <= nleft
               else if ahead == "" then |arrived| <= bufsize else arrived == ""
      modifies this`receiving, this`reading, this`filled, this`nleft, this`cmd, this`len, this`input, this`response,
               this`partial, this`calls, this`ahead
      ensures Valid()
      ensures bytes + ahead == old(ahead) + arrived && |bytes| <= old(nleft)
      ensures bufsize == 0 ==> ahead == old(ahead)
      ensures ok <==> bytes != ""
      ensures ok <==> old(ahead) + arrived != ""
      ensures !ok ==> receiving && partial == old(partial) && calls == old(calls)
      ensures ok ==> var (q, m) := Take(old(partial), bytes);
                     && partial == q && receiving == m.None?
                     && calls == (if m.Some? then old(calls) + [m.value] else old(calls))
                     && (m.Some? ==> response == procedure(m.value.0, m.value.1))
    {
      var taken;
      if bufsize == 0 {
        taken := arrived;
      } else {
        if ahead == "" {
          ahead := arrived;
        }
        var n := if |ahead| > nleft then nleft else |ahead|;
        taken, ahead := ahead[..n], ahead[n..];
      }
      bytes := taken;
      ok := taken != "";
      if ok {
        Fill(taken);
      }
    }

    /** Bytes go into the current buffer; a full buffer is handled at once. */
    method Fill(taken: string)
      requires Valid() && receiving && taken != "" && |taken| <= nleft
      modifies this`receiving, this`reading, this`filled, this`nleft, this`cmd, this`len, this`input, this`response,
               this`partial, this`calls
      ensures Valid()
      ensures var (q, m) := Take(old(partial), taken);
              && partial == q && receiving == m.None?
              && calls == (if m.Some? then old(calls) + [m.value] else old(calls))
              && (m.Some? ==> response == procedure(m.value.0, m.value.1))
    {
      ghost var before := partial;
      filled, nleft := filled + taken, nleft - |taken|;
      partial := partial + taken;
      HeaderStays(before, taken);
      if nleft == 0 {
        RpsProc();
      }
    }
  }

  /** The header of a request stays what it was when the body is read. */
  lemma HeaderStays(p: string, bytes: string)
    ensures |p| >= HEADER ==>
              CmdOf(p + bytes) == CmdOf(p) && BodyLength(p + bytes) == BodyLength(p)
              && (p + bytes)[HEADER..] == p[HEADER..] + bytes && Lacks(p + bytes) == Lacks(p) - |bytes|
  {
    if |p| >= HEADER {
      assert (p + bytes)[..4] == p[..4] && (p + bytes)[4..8] == p[4..8];
    }
  }
}
