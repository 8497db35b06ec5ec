/** Networked arrays: the server's side, which logs its changes, and the client's side. */
module NvArray {
  import opened Wire

  // ---- Sizes ----

  ghost function Sum(f: string -> nat, keys: set<string>): nat {
    if keys == {} then 0 else
      var k :| k in keys;
      f(k) + Sum(f, keys - {k})
  }

  lemma {:induction false} SumRemove(f: string -> nat, keys: set<string>, k: string)
    requires k in keys
    ensures Sum(f, keys) == f(k) + Sum(f, keys - {k})
  {
    var x :| x in keys && Sum(f, keys) == f(x) + Sum(f, keys - {x});
    if x != k {
      SumRemove(f, keys - {x}, k);
      SumRemove(f, keys - {k}, x);
      assert keys - {x} - {k} == keys - {k} - {x};
    }
  }

  lemma {:induction false} SumSame(f: string -> nat, g: string -> nat, keys: set<string>)
    requires forall k | k in keys :: f(k) == g(k)
    ensures Sum(f, keys) == Sum(g, keys)
  {
    if keys != {} {
      var k :| k in keys && Sum(f, keys) == f(k) + Sum(f, keys - {k});
      SumRemove(g, keys, k);
      SumSame(f, g, keys - {k});
    }
  }

  ghost function KeyLength(): string -> nat {
    k => |k|
  }

  ghost function ValueLength(t: Table): string -> nat {
    k => if k in t then |t[k]| else 0
  }

  /** Total length of all keys. */
  ghost function KeySize(t: Table): nat {
    Sum(KeyLength(), t.Keys)
  }

  /** Total length of all values. */
  ghost function ValueSize(t: Table): nat {
    Sum(ValueLength(t), t.Keys)
  }

  lemma SizesSet(t: Table, k: string, v: string)
    ensures KeySize(t[k := v]) == KeySize(t) + (if k in t then 0 else |k|)
    ensures ValueSize(t[k := v]) == ValueSize(t) + |v| - (if k in t then |t[k]| else 0)
  {
    var u := t[k := v];
    var rest := t.Keys - {k};
    assert u.Keys - {k} == rest;
    SumRemove(KeyLength(), u.Keys, k);
    SumRemove(ValueLength(u), u.Keys, k);
    SumSame(ValueLength(u), ValueLength(t), rest);
    if k in t {
      SumRemove(KeyLength(), t.Keys, k);
      SumRemove(ValueLength(t), t.Keys, k);
    } else {
      assert t.Keys == rest;
    }
  }

  lemma SizesUnset(t: Table, k: string)
    requires k in t
    ensures KeySize(t - {k}) == KeySize(t) - |k|
    ensures ValueSize(t - {k}) == ValueSize(t) - |t[k]|
  {
    var u := t - {k};
    assert u.Keys == t.Keys - {k};
    SumRemove(KeyLength(), t.Keys, k);
    SumRemove(ValueLength(t), t.Keys, k);
    SumSame(ValueLength(u), ValueLength(t), u.Keys);
  }

  // ---- Reloading a whole array ----

  /** An order in which a hash table may list its keys. */
  ghost predicate Lists(order: seq<string>, keys: set<string>) {
    && (forall k :: k in order <==> k in keys)
    && forall i, j | 0 <= i < j < |order| :: order[i] != order[j]
  }

  function Sets(t: Table, order: seq<string>): seq<Cmd>
    requires forall i | 0 <= i < |order| :: order[i] in t
  {
    seq(|order|, i requires 0 <= i < |order| => Set(order[i], t[order[i]]))
  }

  /** The commands that turn any array into `t`. */
  function Reload(t: Table, order: seq<string>): seq<Cmd>
    requires forall i | 0 <= i < |order| :: order[i] in t
  {
    [Flush] + Sets(t, order)
  }

  lemma {:induction false} ReloadPart(t: Table, order: seq<string>, before: Table)
    requires forall i | 0 <= i < |order| :: order[i] in t
    ensures ApplyAll(Reload(t, order), before) == map k | k in order :: t[k]
  {
    var cmds := Reload(t, order);
    if order == [] {
      assert cmds[..0] == [];
    } else {
      var n := |order| - 1;
      assert cmds[..|cmds| - 1] == Reload(t, order[..n]);
      ReloadPart(t, order[..n], before);
    }
  }

  /** Whatever a client held, a reload leaves it with the array as it was listed. */
  lemma ReloadRestores(t: Table, order: seq<string>, before: Table)
    requires Lists(order, t.Keys)
    ensures ApplyAll(Reload(t, order), before) == t
  {
    ReloadPart(t, order, before);
  }

  /** How long the encoded reload of the listed keys is. */
  lemma {:induction false} ReloadLength(t: Table, order: seq<string>, keys: set<string>)
    requires Lists(order, keys) && keys <= t.Keys
    ensures |EncodeCmds(Reload(t, order))| == 1 + 3 * |order| + Sum(KeyLength(), keys) + Sum(ValueLength(t), keys)
    ensures |order| == |keys|
    decreases |order|
  {
    hide Sum, EncodeCmd;
    var cmds := Reload(t, order);
    if order == [] {
      assert keys == {};
      assert cmds[..0] == [];
      NoSum(t);
    } else {
      var n := |order| - 1;
      var k := order[n];
      assert cmds[..|cmds| - 1] == Reload(t, order[..n]);
      ReloadLength(t, order[..n], keys - {k});
      SumRemove(KeyLength(), keys, k);
      SumRemove(ValueLength(t), keys, k);
      assert |EncodeCmd(cmds[n + 1])| == 3 + |k| + |t[k]| by {
        CmdLength(k, t[k]);
      }
    }
  }

  lemma CmdLength(k: string, v: string)
    ensures |EncodeCmd(Set(k, v))| == 3 + |k| + |v| && |EncodeCmd(Flush)| == 1
  {
  }

  lemma NoSum(t: Table)
    ensures Sum(KeyLength(), {}) == 0 && Sum(ValueLength(t), {}) == 0 && |EncodeCmd(Flush)| == 1
  {
  }

  lemma Listed(order: seq<string>, t: Table)
    requires Lists(order, t.Keys)
    ensures forall i | 0 <= i < |order| :: order[i] in t
  {
  }

  lemma ReloadHead(name: string, t: Table, order: seq<string>)
    requires forall i | 0 <= i < |order| :: order[i] in t
    ensures |Reload(t, order)| == |order| + 1
    ensures EncodeUpdate(Update(name, Reload(t, order)[..1])) == [CMD_ARRAY] + (name + [NUL]) + [CMD_FLUSH]
  {
    assert Reload(t, order)[..1] == [Flush] && [Flush][..0] == [];
  }

  /** The encoded reload grows by one entry. */
  lemma ReloadStep(name: string, t: Table, order: seq<string>, i: nat)
    requires i < |order| && forall i | 0 <= i < |order| :: order[i] in t
    ensures |Reload(t, order)| == |order| + 1
    ensures var cmds := Reload(t, order);
            EncodeUpdate(Update(name, cmds[..i + 2]))
              == EncodeUpdate(Update(name, cmds[..i + 1])) + ([CMD_SET] + (order[i] + [NUL]) + (t[order[i]] + [NUL]))
  {
    hide EncodeCmd, Arg;
    var cmds := Reload(t, order);
    var front, one := cmds[..i + 1], EncodeCmd(cmds[i + 1]);
    assert cmds[..i + 2][..i + 1] == front;
    assert EncodeCmds(cmds[..i + 2]) == EncodeCmds(front) + one;
    SetBytes(order[i], t[order[i]]);
  }

  lemma SetBytes(k: string, v: string)
    ensures EncodeCmd(Set(k, v)) == [CMD_SET] + (k + [NUL]) + (v + [NUL])
  {
  }

  lemma ReloadSize(name: string, t: Table, order: seq<string>)
    requires Lists(order, t.Keys) && forall i | 0 <= i < |order| :: order[i] in t
    ensures |EncodeUpdate(Update(name, Reload(t, order)))| == 3 + |name| + 3 * |t| + KeySize(t) + ValueSize(t)
  {
    hide Reload, EncodeCmds;
    ReloadLength(t, order, t.Keys);
  }

  class NvArray {
    const netname: string
    const served: bool           // has a server that broadcasts its changes
    var vars: Table
    var sizekeys: int
    var sizevalues: int
    var log: string              // encoded changes not broadcast yet
    var needInit: bool           // the cached init message no longer matches
    var needFlush: bool          // the file on disk no longer matches
    var outbox: seq<string>      // messages handed to the broadcaster
    ghost var logged: seq<Cmd>   // the changes in the log

    ghost predicate Valid()
      reads this`vars, this`sizekeys, this`sizevalues, this`log, this`logged
    {
      sizekeys == KeySize(vars) && sizevalues == ValueSize(vars) && log == EncodeCmds(logged)
    }

    constructor (netname: string, served: bool)
      ensures Valid() && this.netname == netname && this.served == served && vars == map[] && needInit
      ensures outbox == [] && logged == []
    {
      this.netname, this.served := netname, served;
      vars, sizekeys, sizevalues, log, outbox, logged := map[], 0, 0, "", [], [];
      needInit, needFlush := true, false;
      new;
      assert KeySize(map[]) == 0 && ValueSize(map[]) == 0;
    }

    /** The change c has been made: it is in the log, or has been broadcast with the log. */
    twostate predicate Noted(c: Cmd, broadcast: bool)
      reads this
    {
      && needInit && needFlush && vars == Apply(c, old(vars))
      && if !served then logged == old(logged) && outbox == old(outbox)
         else if broadcast then logged == [] && outbox == old(outbox) + [EncodeUpdate(Update(netname, old(logged) + [c]))]
         else logged == old(logged) + [c] && outbox == old(outbox)
    }

    twostate predicate Untouched()
      reads this
    {
      && needInit == old(needInit) && needFlush == old(needFlush) && vars == old(vars)
      && logged == old(logged) && outbox == old(outbox)
    }

    /** Broadcasts the log. */
    method BroadcastUpdates()
      requires Valid()
      modifies this`log, this`logged, this`outbox
      ensures Valid()
      ensures !served ==> logged == old(logged) && outbox == old(outbox)
      ensures served ==> logged == [] && outbox == old(outbox) + [EncodeUpdate(Update(netname, old(logged)))]
    {
      if served {
        outbox := outbox + [[CMD_ARRAY] + (netname + [NUL]) + log];
        log := "";
        logged := [];
      }
    }

    /** Appends a change to the log, and broadcasts it at once if asked to. */
    method Note(c: Cmd, bytes: string, broadcast: bool)
      requires Valid() && bytes == EncodeCmd(c)
      modifies this`log, this`logged, this`outbox
      ensures Valid()
      ensures if !served then logged == old(logged) && outbox == old(outbox)
              else if broadcast then logged == [] && outbox == old(outbox) + [EncodeUpdate(Update(netname, old(logged) + [c]))]
              else logged == old(logged) + [c] && outbox == old(outbox)
    {
      if served {
        log := log + bytes;
        assert EncodeCmds(logged + [c]) == EncodeCmds(logged) + bytes by {
          assert (logged + [c])[..|logged|] == logged;
        }
        logged := logged + [c];
        if broadcast {
          BroadcastUpdates();
        }
      }
    }

    /** Sets an entry; with cset, only if it is new. */
    method SetVar(key: string, val: string, cset: bool, broadcast: bool) returns (isNew: bool)
      requires Valid()
      modifies this
      ensures Valid() && (isNew <==> key !in old(vars))
      ensures cset && !isNew ==> Untouched()
      ensures !cset || isNew ==> Noted(Set(key, val), broadcast)
    {
      SizesSet(vars, key, val);
      isNew := key !in vars;
      if isNew {
        sizekeys := sizekeys + |key|;
      } else {
        if cset {
          return;
        }
        sizevalues := sizevalues - |vars[key]|;
      }
      sizevalues := sizevalues + |val|;
      vars := vars[key := val];
      needInit, needFlush := true, true;
      Note(Set(key, val), [CMD_SET] + (key + [NUL]) + (val + [NUL]), broadcast);
    }

    /** Removes an entry if it is there. */
    method UnsetVar(key: string, broadcast: bool) returns (found: bool)
      requires Valid()
      modifies this
      ensures Valid() && (found <==> key in old(vars))
      ensures !found ==> Untouched() && vars == Apply(Unset(key), old(vars))
      ensures found ==> Noted(Unset(key), broadcast)
    {
      if key !in vars {
        return false;
      }
      SizesUnset(vars, key);
      sizevalues := sizevalues - |vars[key]|;
      sizekeys := sizekeys - |key|;
      vars := vars - {key};
      needInit, needFlush := true, true;
      Note(Unset(key), [CMD_UNSET] + (key + [NUL]), broadcast);
      return true;
    }

    /** Removes all entries. */
    method FlushArray(broadcast: bool)
      requires Valid()
      modifies this
      ensures Valid() && Noted(Flush, broadcast)
    {
      vars := map[];
      sizekeys, sizevalues := 0, 0;
      assert KeySize(vars) == 0 && ValueSize(vars) == 0;
      needInit, needFlush := true, true;
      Note(Flush, [CMD_FLUSH], broadcast);
    }

    /** The whole array as a flush and a set for each entry, in the order the hash table lists them. */
    method AppendReload(order: seq<string>) returns (out: string)
      requires Valid() && Lists(order, vars.Keys)
      ensures forall i | 0 <= i < |order| :: order[i] in vars
      ensures out == EncodeUpdate(Update(netname, Reload(vars, order)))
      ensures |out| == 3 + |netname| + 3 * |vars| + sizekeys + sizevalues
    {
      hide EncodeCmd, EncodeUpdate, Reload, Lists;
      out := [CMD_ARRAY] + (netname + [NUL]) + [CMD_FLUSH];
      Listed(order, vars);
      ghost var cmds := Reload(vars, order);
      ReloadHead(netname, vars, order);
      for i := 0 to |order|
        invariant out == EncodeUpdate(Update(netname, cmds[..i + 1]))
      {
        out := out + ([CMD_SET] + (order[i] + [NUL]) + (vars[order[i]] + [NUL]));
        ReloadStep(netname, vars, order, i);
      }
      assert cmds[..|cmds|] == cmds;
      ReloadSize(netname, vars, order);
    }
  }
}
