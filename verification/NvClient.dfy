/** A client of networked arrays: applies the messages it receives to its own arrays. */
module NvClient {
  import opened Wire
  import opened NvArray
  import opened Options

  /** Reads a C string; `next` is the position after its NUL. */
  method ReadArg(msg: string, p: nat) returns (arg: string, next: nat)
    ensures arg == CString(After(msg, p)) && next == p + |arg| + 1
  {
    hide After;
    arg, next := "", p;
    HeadAt(msg, next);
    while next < |msg| && msg[next] != NUL
      invariant next == p + |arg|
      invariant CString(After(msg, p)) == arg + CString(After(msg, next))
      invariant next >= |msg| ==> After(msg, next) == ""
      invariant next < |msg| ==> After(msg, next) == [msg[next]] + After(msg, next + 1)
    {
      arg, next := arg + [msg[next]], next + 1;
      HeadAt(msg, next);
    }
    next := next + 1;
  }

  lemma HeadAt(msg: string, p: nat)
    ensures p < |msg| ==> After(msg, p) == [msg[p]] + After(msg, p + 1)
    ensures p >= |msg| ==> After(msg, p) == []
    ensures After(After(msg, p), 1) == After(msg, p + 1)
  {
  }

  lemma AfterAfter(msg: string, p: nat, n: nat)
    ensures After(After(msg, p), n) == After(msg, p + n)
  {
  }

  class NvClient {
    const arrays: map<string, NvArray>   // by netname

    ghost predicate Valid()
      reads arrays.Values
    {
      && (forall m, n | m in arrays && n in arrays && m != n :: arrays[m] != arrays[n])
      && forall n | n in arrays :: arrays[n].Valid()
    }

    ghost function Contents(): Arrays
      reads arrays.Values
    {
      map n | n in arrays :: arrays[n].vars
    }

    constructor (arrays: map<string, NvArray>)
      requires forall m, n | m in arrays && n in arrays && m != n :: arrays[m] != arrays[n]
      requires forall n | n in arrays :: arrays[n].Valid()
      ensures Valid() && this.arrays == arrays
    {
      this.arrays := arrays;
    }

    /** Applies a command to one array; its log keeps the change until the array is unlocked. */
    method Change(name: string, c: Cmd)
      requires Valid() && name in arrays
      modifies arrays.Values
      ensures Valid() && Contents() == Step(Op(name, c), old(Contents()))
    {
      hide KeySize, ValueSize, EncodeCmds, EncodeUpdate;
      ChangeArray(arrays[name], c);
      assert Contents() == old(Contents())[name := arrays[name].vars];
    }

    method ChangeArray(a: NvArray, c: Cmd)
      requires a.Valid()
      modifies a
      ensures a.Valid() && a.vars == Apply(c, old(a.vars))
    {
      match c
      case Flush =>
        a.FlushArray(false);
      case Unset(key) =>
        var _ := a.UnsetVar(key, false);
      case Set(key, val) =>
        var _ := a.SetVar(key, val, false, false);
    }

    method Unlock(name: string)
      requires Valid() && name in arrays
      modifies arrays.Values
      ensures Valid() && Contents() == old(Contents())
    {
      arrays[name].BroadcastUpdates();
    }

    /** One pass of the command loop, from position p. */
    method ReadOne(msg: string, p: nat, cur: Option<string>) returns (next: nat, cur2: Option<string>)
      requires Valid() && (cur.Some? ==> cur.value in arrays)
      modifies arrays.Values
      ensures Valid() && (cur2.Some? ==> cur2.value in arrays) && next > p
      ensures Reader(After(msg, next), Contents(), cur2) == ReadCmd(Reader(After(msg, p), old(Contents()), cur))
    {
      hide CString, After, Step, NvArray.Valid;
      var cmd := if p < |msg| then msg[p] else NUL;
      HeadAt(msg, p);
      next, cur2 := p + 1, cur;
      if cmd == CMD_ARRAY {
        var name;
        name, next := ReadArg(msg, next);
        AfterAfter(msg, p + 1, |name| + 1);
        if name in arrays {
          if cur.Some? {
            Unlock(cur.value);
          }
          cur2 := Some(name);
        }
      } else if cur.Some? {
        if cmd == CMD_FLUSH {
          Change(cur.value, Flush);
        } else if cmd == CMD_UNSET {
          var key;
          key, next := ReadArg(msg, next);
          AfterAfter(msg, p + 1, |key| + 1);
          Change(cur.value, Unset(key));
        } else if cmd == CMD_SET {
          var key, val;
          key, next := ReadArg(msg, next);
          AfterAfter(msg, p + 1, |key| + 1);
          ghost var mid := next;
          val, next := ReadArg(msg, next);
          AfterAfter(msg, mid, |val| + 1);
          Change(cur.value, Set(key, val));
        } else {
          cur2 := None;
        }
      }
    }

    /** Applies a message; fails if it names no known array first or holds an unknown command. */
    method RecvUpdate(msg: string) returns (ok: bool)
      requires Valid()
      modifies arrays.Values
      ensures Valid()
      ensures var r := ReadAll(Reader(msg, old(Contents()), None));
              Contents() == r.arrays && (ok <==> r.cur.Some?)
    {
      hide ReadCmd;
      var p, cur, more := 0, None, true;
      ghost var goal := ReadAll(Reader(msg, Contents(), None));
      while more
        invariant Valid() && p >= 0 && (more ==> p == 0 || p < |msg|) && (cur.Some? ==> cur.value in arrays)
        invariant var r := Reader(After(msg, p), Contents(), cur); goal == if more then ReadAll(r) else r
        decreases if more then |msg| + 1 - p else 0
      {
        HeadAt(msg, p);
        p, cur := ReadOne(msg, p, cur);
        more := p < |msg| && cur.Some?;
        HeadAt(msg, p);
      }
      ok := cur.Some?;
      if ok {
        Unlock(cur.value);
      }
    }
  }
}
