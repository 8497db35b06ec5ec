/** The update commands of networked variables, and the bytes they travel in. */
module Wire {
  import opened Options

  type Table = map<string, string>
  type Arrays = map<string, Table>

  datatype Cmd = Set(key: string, val: string) | Unset(key: string) | Flush

  /** Commands for one array. */
  datatype Update = Update(name: string, cmds: seq<Cmd>)

  /** One message may update several arrays. */
  type Message = seq<Update>

  datatype Op = Op(name: string, cmd: Cmd)

  function Apply(c: Cmd, t: Table): Table {
    match c
    case Set(k, v) => t[k := v]
    case Unset(k) => t - {k}
    case Flush => map[]
  }

  function ApplyAll(cmds: seq<Cmd>, t: Table): Table {
    if cmds == [] then t else Apply(cmds[|cmds| - 1], ApplyAll(cmds[..|cmds| - 1], t))
  }

  function Step(op: Op, s: Arrays): (r: Arrays)
    ensures r.Keys == s.Keys
  {
    if op.name in s then s[op.name := Apply(op.cmd, s[op.name])] else s
  }

  function Run(ops: seq<Op>, s: Arrays): (r: Arrays)
    ensures r.Keys == s.Keys
  {
    if ops == [] then s else Step(ops[|ops| - 1], Run(ops[..|ops| - 1], s))
  }

  function OpsOf(u: Update): seq<Op> {
    seq(|u.cmds|, i requires 0 <= i < |u.cmds| => Op(u.name, u.cmds[i]))
  }

  function MessageOps(m: Message): seq<Op> {
    if m == [] then [] else OpsOf(m[0]) + MessageOps(m[1..])
  }

  function Ops(ms: seq<Message>): seq<Op> {
    if ms == [] then [] else MessageOps(ms[0]) + Ops(ms[1..])
  }

  lemma {:induction false} RunConcat(a: seq<Op>, b: seq<Op>, s: Arrays)
    ensures Run(a + b, s) == Run(b, Run(a, s))
  {
    if b == [] {
      assert a + b == a;
    } else {
      var k := |b| - 1;
      assert (a + b)[..|a + b| - 1] == a + b[..k];
      RunConcat(a, b[..k], s);
    }
  }

  lemma {:induction false} OpsConcat(a: seq<Message>, b: seq<Message>)
    ensures Ops(a + b) == Ops(a) + Ops(b)
  {
    if a == [] {
      assert a + b == b;
    } else {
      assert (a + b)[1..] == a[1..] + b;
      OpsConcat(a[1..], b);
    }
  }

  // ---- Replaying a log ----

  function Lookup(s: Arrays, name: string, key: string): Option<string> {
    if name in s && key in s[name] then Some(s[name][key]) else None
  }

  /** Some command decides what the key holds. */
  predicate Touches(ops: seq<Op>, name: string, key: string) {
    exists i | 0 <= i < |ops| :: Decides(ops[i], name, key)
  }

  predicate Decides(op: Op, name: string, key: string) {
    op.name == name && (op.cmd.Flush? || op.cmd.key == key)
  }

  /** A key a log touches ends up the same from any start; any other key stays as it was. */
  lemma {:induction false} LastCommandWins(ops: seq<Op>, s: Arrays, t: Arrays, name: string, key: string)
    requires s.Keys == t.Keys
    ensures Lookup(Run(ops, s), name, key) ==
            if Touches(ops, name, key) then Lookup(Run(ops, t), name, key) else Lookup(s, name, key)
  {
    hide Touches;
    TouchesLast(ops, name, key);
    if ops != [] {
      var k := |ops| - 1;
      LastCommandWins(ops[..k], s, t, name, key);
      LookupStep(ops[k], Run(ops[..k], s), name, key);
      LookupStep(ops[k], Run(ops[..k], t), name, key);
    }
  }

  lemma TouchesLast(ops: seq<Op>, name: string, key: string)
    ensures Touches(ops, name, key) <==>
            ops != [] && (Touches(ops[..|ops| - 1], name, key) || Decides(ops[|ops| - 1], name, key))
  {
    if Touches(ops, name, key) {
      var i :| 0 <= i < |ops| && Decides(ops[i], name, key);
      assert i < |ops| - 1 ==> ops[..|ops| - 1][i] == ops[i];
    }
  }

  /** One command decides a key, or leaves it as it was. */
  lemma LookupStep(op: Op, s: Arrays, name: string, key: string)
    ensures Lookup(Step(op, s), name, key) ==
            if !Decides(op, name, key) then Lookup(s, name, key)
            else if name in s && op.cmd.Set? then Some(op.cmd.val) else None
  {
  }

  lemma SameLookups(s: Arrays, t: Arrays)
    requires s.Keys == t.Keys && forall n, k :: Lookup(s, n, k) == Lookup(t, n, k)
    ensures s == t
  {
    forall n | n in s ensures s[n] == t[n] {
      forall k ensures k in s[n] <==> k in t[n]
               ensures k in s[n] && k in t[n] ==> s[n][k] == t[n][k] {
        assert Lookup(s, n, k) == Lookup(t, n, k);
      }
    }
  }

  /** Applying a log twice is applying it once. */
  lemma Idempotent(ops: seq<Op>, s: Arrays)
    ensures Run(ops, Run(ops, s)) == Run(ops, s)
  {
    forall n, k ensures Lookup(Run(ops, Run(ops, s)), n, k) == Lookup(Run(ops, s), n, k) {
      LastCommandWins(ops, Run(ops, s), s, n, k);
    }
    SameLookups(Run(ops, Run(ops, s)), Run(ops, s));
  }

  /** Updates that a snapshot already contains do no harm when they are applied to it again. */
  lemma SuffixReplay(l1: seq<Op>, l2: seq<Op>, s: Arrays)
    ensures Run(l2, Run(l1 + l2, s)) == Run(l1 + l2, s)
  {
    RunConcat(l1, l2, s);
    Idempotent(l2, Run(l1, s));
  }

  /** An update works on its own array and on no other. */
  lemma {:induction false} RunUpdate(u: Update, s: Arrays)
    ensures Run(OpsOf(u), s) == if u.name in s then s[u.name := ApplyAll(u.cmds, s[u.name])] else s
    decreases |u.cmds|
  {
    if u.cmds != [] {
      var k := |u.cmds| - 1;
      var front := Update(u.name, u.cmds[..k]);
      assert OpsOf(u)[..k] == OpsOf(front);
      RunUpdate(front, s);
    }
  }

  // ---- Bytes ----

  const NUL := '\0'
  const CMD_ARRAY := 'A'
  const CMD_SET := 'S'
  const CMD_UNSET := 'U'
  const CMD_FLUSH := 'F'

  /** A C string holds no NUL. */
  predicate NulFree(s: string) {
    forall i | 0 <= i < |s| :: s[i] != NUL
  }

  predicate CmdOk(c: Cmd) {
    match c
    case Set(k, v) => NulFree(k) && NulFree(v)
    case Unset(k) => NulFree(k)
    case Flush => true
  }

  predicate UpdateOk(u: Update) {
    NulFree(u.name) && forall i | 0 <= i < |u.cmds| :: CmdOk(u.cmds[i])
  }

  /** A message of updates to known arrays. */
  predicate MessageOk(m: Message, known: set<string>) {
    m != [] && forall i | 0 <= i < |m| :: UpdateOk(m[i]) && m[i].name in known
  }

  function Arg(t: string): string {
    t + [NUL]
  }

  function EncodeCmd(c: Cmd): string {
    match c
    case Set(k, v) => [CMD_SET] + Arg(k) + Arg(v)
    case Unset(k) => [CMD_UNSET] + Arg(k)
    case Flush => [CMD_FLUSH]
  }

  function EncodeCmds(cmds: seq<Cmd>): string {
    if cmds == [] then [] else EncodeCmds(cmds[..|cmds| - 1]) + EncodeCmd(cmds[|cmds| - 1])
  }

  function EncodeUpdate(u: Update): string {
    [CMD_ARRAY] + Arg(u.name) + EncodeCmds(u.cmds)
  }

  function EncodeMessage(m: Message): string {
    if m == [] then [] else EncodeUpdate(m[0]) + EncodeMessage(m[1..])
  }

  /** The bytes of a command: a letter, and C strings. An array's name has a letter too. */
  lemma CommandLayout(k: string, v: string)
    ensures EncodeCmd(Set(k, v)) == "S" + k + "\0" + v + "\0"
    ensures EncodeCmd(Unset(k)) == "U" + k + "\0" && EncodeCmd(Flush) == "F"
    ensures EncodeUpdate(Update(k, [])) == "A" + k + "\0"
  {
    assert EncodeCmds([]) == "";
  }

  lemma {:induction false} EncodeMessageConcat(a: Message, b: Message)
    ensures EncodeMessage(a + b) == EncodeMessage(a) + EncodeMessage(b)
  {
    if a == [] {
      assert a + b == b;
    } else {
      assert (a + b)[1..] == a[1..] + b;
      EncodeMessageConcat(a[1..], b);
    }
  }

  /** The NUL-terminated string at the head of a buffer; the buffer itself ends in a NUL. */
  function CString(b: string): string {
    if b == [] || b[0] == NUL then [] else [b[0]] + CString(b[1..])
  }

  /** The buffer after its first n bytes. */
  function After(b: string, n: nat): string {
    if n <= |b| then b[n..] else []
  }

  lemma {:induction false} CStringOfArg(t: string, rest: string)
    requires NulFree(t)
    ensures CString(Arg(t) + rest) == t
    ensures After(Arg(t) + rest, |t| + 1) == rest
  {
    if t == [] {
      assert Arg(t) + rest == [NUL] + rest;
    } else {
      var tail := t[1..];
      CStringOfArg(tail, rest);
      assert (Arg(t) + rest)[1..] == Arg(tail) + rest;
      assert After(Arg(t) + rest, |t| + 1) == After(Arg(tail) + rest, |tail| + 1);
    }
  }

  // ---- What a receiver makes of a message ----

  /** A receiver between two commands: unread bytes, its arrays, and the array being updated. */
  datatype Reader = Reader(rest: string, arrays: Arrays, cur: Option<string>)

  /** Reads one command. An unknown array name leaves the current array in place; a command without
      an array, or an unknown one, leaves no current array, which ends the message. */
  function ReadCmd(r: Reader): Reader {
    var cmd := if r.rest == [] then NUL else r.rest[0];
    var rest := After(r.rest, 1);
    if cmd == CMD_ARRAY then
      var name := CString(rest);
      Reader(After(rest, |name| + 1), r.arrays, if name in r.arrays then Some(name) else r.cur)
    else if r.cur.None? then Reader(rest, r.arrays, None)
    else if cmd == CMD_FLUSH then Reader(rest, Step(Op(r.cur.value, Flush), r.arrays), r.cur)
    else if cmd == CMD_UNSET then
      var key := CString(rest);
      Reader(After(rest, |key| + 1), Step(Op(r.cur.value, Unset(key)), r.arrays), r.cur)
    else if cmd == CMD_SET then
      var key := CString(rest);
      var rest2 := After(rest, |key| + 1);
      var val := CString(rest2);
      Reader(After(rest2, |val| + 1), Step(Op(r.cur.value, Set(key, val)), r.arrays), r.cur)
    else Reader(rest, r.arrays, None)
  }

  /** Reads commands until the bytes end or there is no current array. */
  function ReadAll(r: Reader): Reader
    decreases |r.rest|
  {
    var r2 := ReadCmd(r);
    if r2.rest != [] && r2.cur.Some? then ReadAll(r2) else r2
  }

  lemma {:induction false} ReadAllKeys(r: Reader)
    ensures ReadAll(r).arrays.Keys == r.arrays.Keys
    decreases |r.rest|
  {
    var r2 := ReadCmd(r);
    if r2.rest != [] && r2.cur.Some? {
      ReadAllKeys(r2);
    }
  }

  lemma ReadOn(r: Reader)
    requires ReadCmd(r).rest != [] && ReadCmd(r).cur.Some?
    ensures ReadAll(r) == ReadAll(ReadCmd(r))
  {
  }

  lemma ReadEncodedSet(k: string, v: string, rest: string, s: Arrays, name: string)
    requires name in s && NulFree(k) && NulFree(v)
    ensures ReadCmd(Reader(EncodeCmd(Set(k, v)) + rest, s, Some(name))) == Reader(rest, Step(Op(name, Set(k, v)), s), Some(name))
  {
    hide CString, Step, NulFree, Arg;
    var b := EncodeCmd(Set(k, v)) + rest;
    assert b[1..] == Arg(k) + (Arg(v) + rest);
    CStringOfArg(k, Arg(v) + rest);
    CStringOfArg(v, rest);
  }

  /** Reading an encoded command applies it. */
  lemma ReadEncodedCmd(c: Cmd, rest: string, s: Arrays, name: string)
    requires name in s && CmdOk(c)
    ensures ReadCmd(Reader(EncodeCmd(c) + rest, s, Some(name))) == Reader(rest, Step(Op(name, c), s), Some(name))
  {
    hide CString, Step, NulFree, Arg;
    match c {
      case Set(k, v) =>
        ReadEncodedSet(k, v, rest, s, name);
      case Unset(k) =>
        assert (EncodeCmd(c) + rest)[1..] == Arg(k) + rest;
        CStringOfArg(k, rest);
      case Flush =>
        assert (EncodeCmd(c) + rest)[1..] == rest;
    }
  }

  lemma ReadEncodedName(name: string, rest: string, s: Arrays, cur: Option<string>)
    requires name in s && NulFree(name)
    ensures ReadCmd(Reader([CMD_ARRAY] + Arg(name) + rest, s, cur)) == Reader(rest, s, Some(name))
  {
    var b := [CMD_ARRAY] + Arg(name) + rest;
    assert b[1..] == Arg(name) + rest;
    CStringOfArg(name, rest);
  }

  /** Reading on after encoded commands is reading on with the commands applied. */
  lemma {:induction false} ReadEncodedCmds(cmds: seq<Cmd>, rest: string, s: Arrays, name: string)
    requires name in s && rest != [] && forall i | 0 <= i < |cmds| :: CmdOk(cmds[i])
    ensures ReadAll(Reader(EncodeCmds(cmds) + rest, s, Some(name)))
         == ReadAll(Reader(rest, Run(OpsOf(Update(name, cmds)), s), Some(name)))
    decreases |cmds|
  {
    hide CString, Step, NulFree, Arg, ReadCmd, EncodeCmd, ReadAll, CmdOk;
    var ops := OpsOf(Update(name, cmds));
    if cmds == [] {
      assert EncodeCmds(cmds) + rest == rest;
    } else {
      var k := |cmds| - 1;
      var tail := EncodeCmd(cmds[k]) + rest;
      assert EncodeCmds(cmds) + rest == EncodeCmds(cmds[..k]) + tail;
      assert ops[..k] == OpsOf(Update(name, cmds[..k]));
      ReadEncodedCmds(cmds[..k], tail, s, name);
      ReadEncodedCmd(cmds[k], rest, Run(ops[..k], s), name);
      ReadOn(Reader(tail, Run(ops[..k], s), Some(name)));
    }
  }

  /** The last update of a message. */
  lemma ReadLastUpdate(u: Update, s: Arrays, cur: Option<string>)
    requires u.name in s && UpdateOk(u)
    ensures ReadAll(Reader(EncodeUpdate(u), s, cur)) == Reader([], Run(OpsOf(u), s), Some(u.name))
  {
    hide CString, Step, NulFree, Arg, ReadCmd, EncodeCmd, EncodeCmds, CmdOk, ReadAll;
    var head := Reader(EncodeUpdate(u), s, cur);
    ReadEncodedName(u.name, EncodeCmds(u.cmds), s, cur);
    if u.cmds == [] {
      NothingToRead(u, s);
      ReadLast(head);
    } else {
      var k := |u.cmds| - 1;
      var last := EncodeCmd(u.cmds[k]);
      var mid := Reader(last, Run(OpsOf(Update(u.name, u.cmds[..k])), s), Some(u.name));
      LastCmd(u.cmds);
      ReadOn(head);
      ReadEncodedCmds(u.cmds[..k], last, s, u.name);
      assert last + [] == last;
      ReadEncodedCmd(u.cmds[k], [], mid.arrays, u.name);
      ReadLast(mid);
      LastOp(u, s);
    }
  }

  lemma NothingToRead(u: Update, s: Arrays)
    requires u.cmds == []
    ensures EncodeCmds(u.cmds) == "" && Run(OpsOf(u), s) == s
  {
  }

  lemma LastCmd(cmds: seq<Cmd>)
    requires cmds != []
    ensures EncodeCmds(cmds) == EncodeCmds(cmds[..|cmds| - 1]) + EncodeCmd(cmds[|cmds| - 1])
    ensures EncodeCmd(cmds[|cmds| - 1]) != ""
  {
  }

  lemma LastOp(u: Update, s: Arrays)
    requires u.cmds != []
    ensures var k := |u.cmds| - 1;
            Run(OpsOf(u), s) == Step(Op(u.name, u.cmds[k]), Run(OpsOf(Update(u.name, u.cmds[..k])), s))
  {
    var k := |u.cmds| - 1;
    assert OpsOf(u)[..k] == OpsOf(Update(u.name, u.cmds[..k]));
  }

  lemma ReadLast(r: Reader)
    requires ReadCmd(r).rest == []
    ensures ReadAll(r) == ReadCmd(r)
  {
  }

  lemma MessageHead(m: Message)
    requires m != []
    ensures EncodeMessage(m) == [CMD_ARRAY] + Arg(m[0].name) + (EncodeCmds(m[0].cmds) + EncodeMessage(m[1..]))
  {
  }

  lemma MessageOne(m: Message)
    requires |m| == 1
    ensures EncodeMessage(m) == EncodeUpdate(m[0]) && MessageOps(m) == OpsOf(m[0])
  {
    assert m[1..] == [];
  }

  /** A receiver that knows all the arrays of a message applies exactly its commands, in order. */
  lemma {:induction false} ReadMessage(m: Message, s: Arrays, cur: Option<string>)
    requires MessageOk(m, s.Keys)
    ensures ReadAll(Reader(EncodeMessage(m), s, cur)) == Reader([], Run(MessageOps(m), s), Some(m[|m| - 1].name))
    decreases |m|
  {
    hide CString, Step, NulFree, Arg, ReadCmd, EncodeCmds, ReadAll, CmdOk, EncodeUpdate, OpsOf, Run;
    var u := m[0];
    if |m| == 1 {
      MessageOne(m);
      ReadLastUpdate(u, s, cur);
    } else {
      var rest := EncodeMessage(m[1..]);
      MessageHead(m);
      MessageHead(m[1..]);
      ReadEncodedName(u.name, EncodeCmds(u.cmds) + rest, s, cur);
      ReadOn(Reader(EncodeMessage(m), s, cur));
      ReadEncodedCmds(u.cmds, rest, s, u.name);
      RunConcat(OpsOf(u), MessageOps(m[1..]), s);
      ReadMessage(m[1..], Run(OpsOf(u), s), Some(u.name));
    }
  }

  /** The message holds no command but names of arrays. */
  predicate Idle(b: string)
    decreases |b|
  {
    b != [] ==> b[0] == CMD_ARRAY && Idle(After(b[1..], |CString(b[1..])| + 1))
  }

  /** Such a message changes nothing, whoever reads it. */
  lemma {:induction false} IdleReads(r: Reader)
    requires Idle(r.rest)
    ensures ReadAll(r).arrays == r.arrays
    decreases |r.rest|
  {
    var r2 := ReadCmd(r);
    if r2.rest != [] && r2.cur.Some? {
      IdleReads(r2);
    }
  }

  /** The messages without commands are exactly the idle ones. */
  lemma {:induction false} IdleMessage(m: Message, known: set<string>)
    requires m != [] ==> MessageOk(m, known)
    ensures Idle(EncodeMessage(m)) <==> MessageOps(m) == []
  {
    hide CString, NulFree, Arg, EncodeCmds;
    if m != [] {
      var b, rest := EncodeMessage(m), EncodeCmds(m[0].cmds) + EncodeMessage(m[1..]);
      MessageHead(m);
      assert b[1..] == Arg(m[0].name) + rest;
      CStringOfArg(m[0].name, rest);
      IdleMessage(m[1..], known);
      if m[0].cmds == [] {
        EncodedNone(m[0].cmds);
        assert rest == EncodeMessage(m[1..]);
      } else {
        FirstByte(m[0].cmds);
      }
    }
  }

  lemma EncodedNone(cmds: seq<Cmd>)
    requires cmds == []
    ensures EncodeCmds(cmds) == ""
  {
  }

  lemma {:induction false} FirstByte(cmds: seq<Cmd>)
    requires cmds != []
    ensures EncodeCmds(cmds) != "" && EncodeCmds(cmds)[0] != CMD_ARRAY
  {
    if |cmds| == 1 {
      EncodedNone(cmds[..0]);
      assert EncodeCmds(cmds) == EncodeCmd(cmds[0]);
    } else {
      FirstByte(cmds[..|cmds| - 1]);
    }
  }
}
