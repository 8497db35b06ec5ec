/** The frames of remote procedure calls: a command or result, a length, and a body. */
module RpcWire {
  import opened ByteOrder
  import opened Options
  import opened Sequences
  import opened Words

  const HEADER := 8
  const LENGTH_LIMIT := 0x8000_0000

  function Packet(cmd: nat, body: string): string
    requires cmd < WORD && |body| < LENGTH_LIMIT
  {
    Htonl(cmd) + Htonl(|body|) + body
  }

  /** A packet is two words, most significant byte first, and the body. */
  lemma PacketLayout(cmd: nat, body: string)
    requires cmd < WORD && |body| < LENGTH_LIMIT
    ensures var p := Packet(cmd, body);
            |p| == 8 + |body| && BigEndian(p[..4]) == cmd && BigEndian(p[4..8]) == |body| && p[8..] == body
  {
    HtonlIsBigEndian(cmd);
    HtonlIsBigEndian(|body|);
    assert Packet(cmd, body)[..4] == Htonl(cmd) && Packet(cmd, body)[4..8] == Htonl(|body|);
  }

  function CmdOf(p: string): nat
    requires |p| >= HEADER
  {
    Ntohl(p[..4])
  }

  function BodyLength(p: string): nat
    requires |p| >= HEADER
  {
    Ntohl(p[4..8])
  }

  /** The bytes that a packet still lacks. */
  function Lacks(p: string): int {
    if |p| < HEADER then HEADER - |p| else HEADER + BodyLength(p) - |p|
  }

  /** A packet that is whole after a read: its command and body. */
  function Take(p: string, bytes: string): (string, Option<(nat, string)>) {
    var q := p + bytes;
    if |q| >= HEADER && Lacks(q) == 0 then ("", Some((CmdOf(q), q[HEADER..]))) else (q, None)
  }

  lemma HeaderOf(q: string, rest: string, cmd: nat, body: string)
    requires cmd < WORD && |body| < LENGTH_LIMIT && q + rest == Packet(cmd, body) && |q| >= HEADER
    ensures CmdOf(q) == cmd && BodyLength(q) == |body| && Lacks(q) == |rest|
    ensures q[HEADER..] + rest == body
  {
    var p := Packet(cmd, body);
    assert p[..4] == Htonl(cmd) && p[4..8] == Htonl(|body|) && p[8..] == body;
    assert q[..4] == p[..4] && q[4..8] == p[4..8] && q[8..] + rest == p[8..];
    NtohlOfHtonl(cmd);
    NtohlOfHtonl(|body|);
  }

  /** Reading a packet in pieces hands it over with the last piece, and not before. */
  lemma OnlyAtTheEnd(p: string, bytes: string, rest: string, cmd: nat, body: string)
    requires cmd < WORD && |body| < LENGTH_LIMIT && p + bytes + rest == Packet(cmd, body)
    ensures Take(p, bytes) == if rest == "" then ("", Some((cmd, body))) else (p + bytes, None)
  {
    var q := p + bytes;
    if |q| >= HEADER {
      HeaderOf(q, rest, cmd, body);
      if rest == "" {
        assert q[HEADER..] + rest == q[HEADER..];
      }
    }
  }

  /** The packets that a series of reads hands over. */
  function TakeAll(p: string, chunks: seq<string>): seq<(nat, string)>
    decreases |chunks|
  {
    if chunks == [] then [] else
      var (q, m) := Take(p, chunks[0]);
      (if m.Some? then [m.value] else []) + TakeAll(q, chunks[1..])
  }

  /** However a request is split into reads, it is handed over exactly once and as it was sent. */
  lemma {:induction false} ExactlyOnce(p: string, chunks: seq<string>, cmd: nat, body: string)
    requires cmd < WORD && |body| < LENGTH_LIMIT && p + Joined(chunks) == Packet(cmd, body) && |p| < |Packet(cmd, body)|
    requires forall i | 0 <= i < |chunks| :: chunks[i] != ""
    ensures TakeAll(p, chunks) == [(cmd, body)]
    decreases |chunks|
  {
    if chunks != [] {
      var rest := Joined(chunks[1..]);
      assert p + chunks[0] + rest == p + Joined(chunks);
      OnlyAtTheEnd(p, chunks[0], rest, cmd, body);
      if rest == "" {
        NoMore(chunks[1..]);
      } else {
        ExactlyOnce(p + chunks[0], chunks[1..], cmd, body);
      }
    }
  }

  lemma NoMore(chunks: seq<string>)
    requires Joined(chunks) == "" && forall i | 0 <= i < |chunks| :: chunks[i] != ""
    ensures chunks == []
  {
  }

  // ---- Many requests on one connection ----

  /** The packets that are whole in some bytes, one after the other. */
  function WholePackets(b: string): seq<(nat, string)> {
    if |b| >= HEADER && BodyLength(b) <= |b| - HEADER then
      var n := HEADER + BodyLength(b);
      [(CmdOf(b), b[HEADER..n])] + WholePackets(b[n..])
    else []
  }

  /** The packet that a read completes was the first whole one. */
  lemma TakeWhole(p: string, bytes: string, rest: string)
    ensures var (q, m) := Take(p, bytes);
            if m.Some? then q == "" && WholePackets(p + bytes + rest) == [m.value] + WholePackets(rest) else q == p + bytes
  {
    var q, b := p + bytes, p + bytes + rest;
    if Take(p, bytes).1.Some? {
      assert b[..4] == q[..4] && b[4..8] == q[4..8];
      assert b[HEADER..|q|] == q[HEADER..] && b[|q|..] == rest;
    }
  }

  /** In the packets of some requests, exactly the requests are whole. */
  lemma {:induction false} PacketsWhole(requests: seq<(nat, string)>)
    requires Sendable(requests)
    ensures WholePackets(Packets(requests)) == requests
  {
    if requests != [] {
      var p, rest := Packet(requests[0].0, requests[0].1), Packets(requests[1..]);
      assert "" + p + rest == p + rest && "" + p + "" == p;
      OnlyAtTheEnd("", p, "", requests[0].0, requests[0].1);
      TakeWhole("", p, rest);
      PacketsWhole(requests[1..]);
    }
  }

  predicate Sendable(requests: seq<(nat, string)>) {
    forall i | 0 <= i < |requests| :: requests[i].0 < WORD && |requests[i].1| < LENGTH_LIMIT
  }

  function Packets(requests: seq<(nat, string)>): string
    requires Sendable(requests)
  {
    if requests == [] then "" else Packet(requests[0].0, requests[0].1) + Packets(requests[1..])
  }
}
