/** A server's set of networked arrays and its cached message for clients that log in. */
module NvServer {
  import opened Wire
  import opened NvArray
  import opened Options

  /** One update for each array, turning whatever a client holds into the given tables. */
  function ReloadAll(names: seq<string>, tables: seq<Table>, orders: seq<seq<string>>): Message
    requires CanReload(names, tables, orders)
  {
    seq(|names|, i requires 0 <= i < |names| => Update(names[i], Reload(tables[i], orders[i])))
  }

  predicate CanReload(names: seq<string>, tables: seq<Table>, orders: seq<seq<string>>) {
    |orders| == |tables| == |names| &&
    forall i | 0 <= i < |names| :: forall j | 0 <= j < |orders[i]| :: orders[i][j] in tables[i]
  }

  /** The names are distinct and each order lists its table exactly. */
  ghost predicate Exact(names: seq<string>, tables: seq<Table>, orders: seq<seq<string>>) {
    Unique(names) && |orders| == |tables| == |names| && forall i | 0 <= i < |names| :: Lists(orders[i], tables[i].Keys)
  }

  predicate Unique(names: seq<string>) {
    forall i, j | 0 <= i < j < |names| :: names[i] != names[j]
  }

  /** Named tables. */
  function Zip(names: seq<string>, tables: seq<Table>): Arrays
    requires |names| == |tables|
  {
    if names == [] then map[] else
      var k := |names| - 1;
      Zip(names[..k], tables[..k])[names[k] := tables[k]]
  }

  lemma {:induction false} ZipAt(names: seq<string>, tables: seq<Table>)
    requires |names| == |tables| && Unique(names)
    ensures forall n :: n in Zip(names, tables) <==> n in names
    ensures forall i | 0 <= i < |names| :: names[i] in Zip(names, tables) && Zip(names, tables)[names[i]] == tables[i]
  {
    if names != [] {
      var k := |names| - 1;
      ZipAt(names[..k], tables[..k]);
      assert names == names[..k] + [names[k]];
      forall i | 0 <= i < k ensures names[i] in Zip(names, tables) && Zip(names, tables)[names[i]] == tables[i] {
        assert names[..k][i] == names[i];
      }
    }
  }

  lemma ZipUpdate(names: seq<string>, tables: seq<Table>, i: nat, t: Table)
    requires |names| == |tables| && Unique(names) && i < |names|
    ensures Zip(names, tables[i := t]) == Zip(names, tables)[names[i] := t]
  {
    ZipAt(names, tables);
    ZipAt(names, tables[i := t]);
    var a, b := Zip(names, tables[i := t]), Zip(names, tables)[names[i] := t];
    forall n | n in a ensures a[n] == b[n] {
      var j :| 0 <= j < |names| && names[j] == n;
    }
  }

  lemma CanReloadExact(names: seq<string>, tables: seq<Table>, orders: seq<seq<string>>)
    requires Exact(names, tables, orders)
    ensures CanReload(names, tables, orders)
  {
  }

  lemma RunNone(s: Arrays)
    ensures Run([], s) == s
  {
  }

  /** Each reloaded array becomes what it was on the server; others stay. */
  lemma {:induction false} ReloadAllPart(names: seq<string>, tables: seq<Table>, orders: seq<seq<string>>, s: Arrays)
    requires Exact(names, tables, orders) && forall i | 0 <= i < |names| :: names[i] in s
    ensures CanReload(names, tables, orders)
    ensures var r := Run(MessageOps(ReloadAll(names, tables, orders)), s);
            && (forall i | 0 <= i < |names| :: r[names[i]] == tables[i])
            && (forall n | n in s && n !in names :: r[n] == s[n])
  {
    hide Run, OpsOf, ApplyAll, Reload, Lists;
    CanReloadExact(names, tables, orders);
    var m := ReloadAll(names, tables, orders);
    if names == [] {
      RunNone(s);
    } else {
      var u := m[0];
      RunUpdate(u, s);
      ReloadRestores(tables[0], orders[0], s[names[0]]);
      assert m[1..] == ReloadAll(names[1..], tables[1..], orders[1..]);
      RunConcat(OpsOf(u), MessageOps(m[1..]), s);
      ReloadAllPart(names[1..], tables[1..], orders[1..], Run(OpsOf(u), s));
    }
  }

  ghost predicate SnapshotBy(m: Message, db: Arrays, names: seq<string>, tables: seq<Table>, orders: seq<seq<string>>) {
    && Exact(names, tables, orders) && CanReload(names, tables, orders)
    && db == Zip(names, tables) && m == ReloadAll(names, tables, orders)
  }

  /** A reload of all the arrays of `db`. */
  ghost predicate Snapshot(m: Message, db: Arrays) {
    exists names, tables, orders :: SnapshotBy(m, db, names, tables, orders)
  }

  /** A snapshot brings any client with the same array names to the state it was taken of. */
  lemma SnapshotRestores(m: Message, db: Arrays, s: Arrays)
    requires Snapshot(m, db) && s.Keys == db.Keys
    ensures Run(MessageOps(m), s) == db
  {
    var names, tables, orders :| SnapshotBy(m, db, names, tables, orders);
    ZipAt(names, tables);
    ReloadAllPart(names, tables, orders, s);
    var r := Run(MessageOps(m), s);
    forall n | n in db ensures r[n] == db[n] {
      var i :| 0 <= i < |names| && names[i] == n;
    }
  }

  /** Bytes of the reload of the first i arrays. */
  ghost function CountedSize(names: seq<string>, tables: seq<Table>, i: nat): int
    requires i <= |names| == |tables|
  {
    if i == 0 then 0 else
      CountedSize(names, tables, i - 1) + 3 + 3 * |tables[i - 1]| + KeySize(tables[i - 1]) + ValueSize(tables[i - 1])
        + |names[i - 1]|
  }

  class NvServer {
    const arrays: seq<NvArray>
    var initMsg: Option<string>          // the cached message
    var initSize: int                    // the size it was allocated with
    ghost var snapshot: seq<Table>       // what it was built from
    ghost var orders: seq<seq<string>>

    ghost predicate Distinct() {
      Unique(Names()) && forall i, j | 0 <= i < j < |arrays| :: arrays[i] != arrays[j]
    }

    /** What the cached message is. */
    ghost predicate Built()
      reads this
    {
      && Exact(Names(), snapshot, orders) && CanReload(Names(), snapshot, orders) && initMsg.Some?
      && initMsg.value == EncodeMessage(ReloadAll(Names(), snapshot, orders)) && initSize == |initMsg.value|
    }

    /** Unless an array says otherwise, the cached message shows it as it is. */
    ghost predicate Honest(i: nat)
      requires i < |arrays|
      reads this, arrays
    {
      !arrays[i].needInit ==> initMsg.Some? && |snapshot| == |arrays| && snapshot[i] == arrays[i].vars
    }

    ghost predicate Valid()
      reads this, arrays
    {
      && Distinct() && (initMsg.Some? ==> Built())
      && forall i | 0 <= i < |arrays| :: Honest(i) && arrays[i].Valid()
    }

    function Names(): seq<string> {
      seq(|arrays|, i requires 0 <= i < |arrays| => arrays[i].netname)
    }

    ghost function Tables(): seq<Table>
      reads arrays
    {
      seq(|arrays|, i requires 0 <= i < |arrays| reads arrays => arrays[i].vars)
    }

    ghost function Contents(): Arrays
      reads arrays
    {
      Zip(Names(), Tables())
    }

    constructor (arrays: seq<NvArray>)
      requires forall i, j | 0 <= i < j < |arrays| :: arrays[i] != arrays[j] && arrays[i].netname != arrays[j].netname
      requires forall i | 0 <= i < |arrays| :: arrays[i].needInit && arrays[i].Valid()
      ensures Valid() && this.arrays == arrays
    {
      this.arrays := arrays;
      initMsg, initSize := None, 0;
    }

    /** Whatever a user changes, the cached message stays honest. */
    method SetVar(i: nat, key: string, val: string, cset: bool) returns (isNew: bool)
      requires Valid() && i < |arrays|
      modifies arrays[i]
      ensures Valid() && (isNew <==> key !in old(arrays[i].vars))
      ensures Contents() == old(Contents())[arrays[i].netname :=
                if cset && !isNew then old(arrays[i].vars) else old(arrays[i].vars)[key := val]]
      ensures if cset && !isNew then arrays[i].Untouched() else arrays[i].Noted(Set(key, val), true)
    {
      hide Zip, Unique, Built, EncodeUpdate, KeySize, ValueSize, EncodeCmds;
      ZipUpdate(Names(), Tables(), i, if cset && key in arrays[i].vars then arrays[i].vars else arrays[i].vars[key := val]);
      ghost var before := Tables();
      isNew := arrays[i].SetVar(key, val, cset, true);
      assert Tables() == before[i := arrays[i].vars];
    }

    method UnsetVar(i: nat, key: string) returns (found: bool)
      requires Valid() && i < |arrays|
      modifies arrays[i]
      ensures Valid() && (found <==> key in old(arrays[i].vars))
      ensures Contents() == old(Contents())[arrays[i].netname := old(arrays[i].vars) - {key}]
      ensures if found then arrays[i].Noted(Unset(key), true) else arrays[i].Untouched()
    {
      hide Zip, Unique, Built, EncodeUpdate, KeySize, ValueSize, EncodeCmds;
      ZipUpdate(Names(), Tables(), i, arrays[i].vars - {key});
      ghost var before := Tables();
      found := arrays[i].UnsetVar(key, true);
      assert Tables() == before[i := arrays[i].vars];
    }

    method FlushArray(i: nat)
      requires Valid() && i < |arrays|
      modifies arrays[i]
      ensures Valid() && Contents() == old(Contents())[arrays[i].netname := map[]] && arrays[i].Noted(Flush, true)
    {
      hide Zip, Unique, Built, EncodeUpdate, KeySize, ValueSize, EncodeCmds;
      ZipUpdate(Names(), Tables(), i, map[]);
      ghost var before := Tables();
      arrays[i].FlushArray(true);
      assert Tables() == before[i := arrays[i].vars];
    }

    /** First pass over the arrays: clears their flags and sizes up the message. */
    method SizeUp() returns (stale: bool, nkeys: int, dsize: int)
      requires Valid()
      modifies arrays`needInit
      ensures forall i | 0 <= i < |arrays| :: !arrays[i].needInit
      ensures stale <==> exists i | 0 <= i < |arrays| :: old(arrays[i].needInit)
      ensures Tables() == old(Tables())
      ensures 3 * |arrays| + 3 * nkeys + dsize == CountedSize(Names(), Tables(), |arrays|)
    {
      hide KeySize, ValueSize, EncodeCmds, Unique, Built, Honest, CountedSize;
      ghost var names, tables := Names(), Tables();
      CountedNone(names, tables);
      stale, nkeys, dsize := false, 0, 0;
      for i := 0 to |arrays|
        modifies arrays`needInit
        invariant forall j | 0 <= j < |arrays| :: arrays[j].needInit == if j < i then false else old(arrays[j].needInit)
        invariant stale <==> exists j | 0 <= j < i :: old(arrays[j].needInit)
        invariant 3 * i + 3 * nkeys + dsize == CountedSize(names, tables, i)
      {
        CountedStep(names, tables, i);
        stale := stale || arrays[i].needInit;
        arrays[i].needInit := false;
        dsize := dsize + arrays[i].sizekeys + arrays[i].sizevalues + |arrays[i].netname|;
        nkeys := nkeys + |arrays[i].vars|;
      }
      assert Tables() == tables;
    }

    /** The message for a client that logs in: rebuilt if any array has changed since it was last
        built, and in any case an exact snapshot of the arrays as they are now. */
    method ClientInitMsg(order: seq<seq<string>>) returns (msg: Option<string>, rebuilt: bool)
      requires Valid() && |order| == |arrays| && forall i | 0 <= i < |arrays| :: Lists(order[i], arrays[i].vars.Keys)
      modifies this, arrays`needInit
      ensures Valid() && Contents() == old(Contents()) && msg == initMsg && (!rebuilt ==> initMsg == old(initMsg))
      ensures forall i | 0 <= i < |arrays| :: !arrays[i].needInit
      ensures arrays != [] ==> msg.Some? && initSize == |msg.value|
      ensures arrays != [] ==> exists m :: Snapshot(m, Contents()) && msg.value == EncodeMessage(m)
    {
      hide Zip, Unique, CountedSize, Lists, KeySize, ValueSize, EncodeCmds, Exact, CanReload, EncodeMessage;
      var stale, nkeys, dsize := SizeUp();
      ghost var tables := Tables();
      if stale {
        Rebuild(order, |arrays| * 3 + nkeys * 3 + dsize);
        assert Tables() == tables;
      }
      if arrays != [] {
        Current();
      }
      msg, rebuilt := initMsg, stale;
    }

    /** Replaces the cached message; `size` is what has been counted for it. */
    method Rebuild(order: seq<seq<string>>, size: int)
      requires Distinct() && |order| == |arrays|
      requires forall i | 0 <= i < |arrays| :: arrays[i].Valid() && Lists(order[i], arrays[i].vars.Keys)
      requires size == CountedSize(Names(), Tables(), |arrays|)
      modifies this
      ensures Built() && snapshot == Tables()
    {
      hide Zip, Unique, CountedSize, Lists;
      var base := BuildInit(order);
      ghost var tables := Tables();
      initSize, initMsg := size, Some(base);
      snapshot, orders := tables, order;
    }

    /** With no array changed, the cached message is a snapshot of all of them. */
    lemma Current()
      requires Valid() && arrays != [] && forall i | 0 <= i < |arrays| :: !arrays[i].needInit
      ensures initMsg.Some? && exists m :: Snapshot(m, Contents()) && initMsg.value == EncodeMessage(m)
    {
      hide Zip, Unique;
      assert Honest(0) && !arrays[0].needInit;
      forall i | 0 <= i < |arrays| ensures snapshot[i] == Tables()[i] {
        assert Honest(i);
      }
      assert snapshot == Tables();
      var m := ReloadAll(Names(), snapshot, orders);
      assert SnapshotBy(m, Contents(), Names(), snapshot, orders);
      assert Snapshot(m, Contents());
    }

    /** Second pass: the reloads of all arrays, one after the other. */
    method BuildInit(order: seq<seq<string>>) returns (base: string)
      requires Distinct() && |order| == |arrays|
      requires forall i | 0 <= i < |arrays| :: arrays[i].Valid() && Lists(order[i], arrays[i].vars.Keys)
      ensures Exact(Names(), Tables(), order) && CanReload(Names(), Tables(), order)
      ensures base == EncodeMessage(ReloadAll(Names(), Tables(), order))
      ensures |base| == CountedSize(Names(), Tables(), |arrays|)
    {
      hide Unique, Lists, Reload, EncodeUpdate, EncodeMessage, KeySize, ValueSize, EncodeCmds, CanReload, CountedSize;
      base := "";
      ghost var names, tables := Names(), Tables();
      CanList(order);
      ghost var m := ReloadAll(names, tables, order);
      CountedNone(names, tables);
      NothingEncoded(m);
      for i := 0 to |arrays|
        invariant base == EncodeMessage(m[..i]) && |base| == CountedSize(names, tables, i)
      {
        var part := arrays[i].AppendReload(order[i]);
        CountedStep(names, tables, i);
        MessageStep(m, i);
        base := base + part;
      }
      assert m[..|arrays|] == m;
    }

    lemma CanList(order: seq<seq<string>>)
      requires |order| == |arrays| && forall i | 0 <= i < |arrays| :: Lists(order[i], arrays[i].vars.Keys)
      ensures CanReload(Names(), Tables(), order)
    {
    }
  }

  lemma CountedNone(names: seq<string>, tables: seq<Table>)
    requires |names| == |tables|
    ensures CountedSize(names, tables, 0) == 0
  {
  }

  lemma CountedStep(names: seq<string>, tables: seq<Table>, i: nat)
    requires i < |names| == |tables|
    ensures CountedSize(names, tables, i + 1) ==
            CountedSize(names, tables, i) + 3 + 3 * |tables[i]| + KeySize(tables[i]) + ValueSize(tables[i]) + |names[i]|
  {
  }

  lemma NothingEncoded(m: Message)
    ensures EncodeMessage(m[..0]) == ""
  {
  }

  lemma MessageStep(m: Message, i: nat)
    requires i < |m|
    ensures EncodeMessage(m[..i + 1]) == EncodeMessage(m[..i]) + EncodeUpdate(m[i])
  {
    EncodeMessageConcat(m[..i], [m[i]]);
    assert m[..i + 1] == m[..i] + [m[i]];
    assert [m[i]][1..] == [];
  }
}
