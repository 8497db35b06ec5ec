/** The broadcaster: reference-counted messages, and clients on an active and a retry list. */
module Broadcast {
  import opened Options
  import opened Wire
  import opened Receiver
  import opened Outgoing
  import opened Sequences
  import opened Turns

  datatype Msg = Msg(refcnt: int, data: string)

  /** A client; `msg` is the address of the message it is being sent, or 0. */
  datatype Client = Client(open: bool, phase: Phase, msg: int, sent: nat)

  type Heap = map<int, Msg>

  predicate ClientOk(c: Client, heap: Heap) {
    && (c.open <==> !c.phase.Down?) && (!c.open || c.phase.Connecting? ==> c.msg == 0)
    && (c.msg != 0 ==> c.msg in heap && Framable(heap[c.msg].data) && c.sent < |Frame(heap[c.msg].data)|)
  }

  predicate ClientsOk(clients: seq<Client>, heap: Heap) {
    forall i | 0 <= i < |clients| :: ClientOk(clients[i], heap)
  }

  function OutOf(c: Client, heap: Heap): Out
    requires ClientOk(c, heap)
  {
    Out(c.phase, if c.msg == 0 then "" else Frame(heap[c.msg].data)[c.sent..])
  }

  function OutsOf(clients: seq<Client>, heap: Heap): (outs: seq<Out>)
    requires ClientsOk(clients, heap)
    ensures |outs| == |clients| && forall i | 0 <= i < |clients| :: outs[i] == OutOf(clients[i], heap)
  {
    seq(|clients|, i requires 0 <= i < |clients| => OutOf(clients[i], heap))
  }

  function TextIn(heap: Heap, a: int): string {
    if a in heap then heap[a].data else ""
  }

  function TextsOf(queue: seq<int>, heap: Heap): seq<string> {
    seq(|queue|, i requires 0 <= i < |queue| => TextIn(heap, queue[i]))
  }

  function Held(clients: seq<Client>): seq<int> {
    seq(|clients|, i requires 0 <= i < |clients| => clients[i].msg)
  }

  /** Every reference to a message: from the queue, from clients, and from its owners. */
  function Refs(queue: seq<int>, clients: seq<Client>, owners: multiset<int>): multiset<int> {
    multiset(queue) + multiset(Held(clients)) + owners
  }

  /** The count of a message is the number of references to it, and no message is kept without one. */
  ghost predicate Counted(heap: Heap, refs: multiset<int>) {
    0 !in heap && forall a :: a != 0 ==> if a in heap then heap[a].refcnt == refs[a] > 0 else refs[a] == 0
  }

  /** Messages that are kept keep their contents. */
  ghost predicate SameData(heap: Heap, heap2: Heap) {
    forall a | a in heap && a in heap2 :: heap[a].data == heap2[a].data
  }

  lemma HeldUpdate(queue: seq<int>, clients: seq<Client>, owners: multiset<int>, i: nat, c: Client)
    requires i < |clients|
    ensures Refs(queue, clients[i := c], owners) == Refs(queue, clients, owners) - multiset{clients[i].msg} + multiset{c.msg}
    ensures clients[i].msg in Refs(queue, clients, owners)
  {
    assert Held(clients[i := c]) == Held(clients)[i := c.msg];
    assert Held(clients)[i] == clients[i].msg;
    assert clients[i].msg in multiset(Held(clients));
  }

  lemma OneMore(heap: Heap, refs: multiset<int>, a: int)
    requires Counted(heap, refs) && a in heap
    ensures Counted(heap[a := heap[a].(refcnt := heap[a].refcnt + 1)], refs + multiset{a})
  {
  }

  /** A client that is referred to by the count finds its message in the heap. */
  lemma StillHeld(queue: seq<int>, clients: seq<Client>, owners: multiset<int>, heap: Heap, heap2: Heap)
    requires ClientsOk(clients, heap) && SameData(heap, heap2)
    requires Counted(heap2, Refs(queue, clients, owners))
    ensures ClientsOk(clients, heap2) && OutsOf(clients, heap2) == OutsOf(clients, heap)
  {
    forall i | 0 <= i < |clients| && clients[i].msg != 0 ensures clients[i].msg in heap2 {
      HeldUpdate(queue, clients, owners, i, clients[i]);
    }
  }

  lemma OutsUpdate(clients: seq<Client>, heap: Heap, i: nat, c: Client)
    requires ClientsOk(clients, heap) && i < |clients| && ClientOk(c, heap)
    ensures ClientsOk(clients[i := c], heap) && OutsOf(clients[i := c], heap) == OutsOf(clients, heap)[i := OutOf(c, heap)]
  {
  }

  /** The lists hold each client once: `rest` is what a pass has still to look at. */
  ghost predicate Partition(active: seq<nat>, rest: seq<nat>, retry: seq<nat>, n: nat) {
    forall i: nat :: multiset(active)[i] + multiset(rest)[i] + multiset(retry)[i] == if i < n then 1 else 0
  }

  /** The active clients are the connected ones, and the others wait to be connected. */
  ghost predicate Lists(active: seq<nat>, rest: seq<nat>, retry: seq<nat>, clients: seq<Client>) {
    && Partition(active, rest, retry, |clients|)
    && (forall i | i in active || i in rest :: i < |clients| && clients[i].open)
    && (forall i | i in retry :: i < |clients| && !clients[i].open)
  }

  lemma OnOneList(active: seq<nat>, rest: seq<nat>, retry: seq<nat>, n: nat, i: nat)
    requires Partition(active, [i] + rest, retry, n)
    ensures i !in active && i !in rest && i !in retry && i < n
    ensures Partition([i] + active, rest, retry, n) && Partition(active, rest, [i] + retry, n)
  {
    assert multiset([i] + rest)[i] >= 1;
    assert i in active ==> multiset(active)[i] >= 1;
    assert i in rest ==> multiset(rest)[i] >= 1;
    assert i in retry ==> multiset(retry)[i] >= 1;
  }

  lemma ToRetry(active: seq<nat>, rest: seq<nat>, retry: seq<nat>, clients: seq<Client>, clients2: seq<Client>, i: nat)
    requires Lists(active, [i] + rest, retry, clients) && |clients2| == |clients| && i < |clients|
    requires clients2 == clients[i := clients2[i]] && !clients2[i].open
    ensures Lists(active, rest, [i] + retry, clients2)
  {
    hide Partition;
    OnOneList(active, rest, retry, |clients|, i);
    forall j | j in active || j in rest ensures j < |clients2| && clients2[j].open {
      assert j in active || j in [i] + rest;
    }
  }

  lemma ToActive(active: seq<nat>, rest: seq<nat>, retry: seq<nat>, clients: seq<Client>, clients2: seq<Client>, i: nat)
    requires Lists(active, [i] + rest, retry, clients) && |clients2| == |clients| && i < |clients|
    requires clients2 == clients[i := clients2[i]] && clients2[i].open
    ensures Lists([i] + active, rest, retry, clients2)
  {
    hide Partition;
    OnOneList(active, rest, retry, |clients|, i);
    forall j | j in [i] + active || j in rest ensures j < |clients2| && clients2[j].open {
      assert j == i || j in active || j in [i] + rest;
    }
  }

  /** The same while the retry list is being worked through. */
  ghost predicate Waiting(active: seq<nat>, rest: seq<nat>, retry: seq<nat>, clients: seq<Client>) {
    && Partition(active, rest, retry, |clients|)
    && (forall i | i in active :: i < |clients| && clients[i].open)
    && (forall i | i in rest || i in retry :: i < |clients| && !clients[i].open)
  }

  lemma RetryStart(active: seq<nat>, retry: seq<nat>, clients: seq<Client>)
    requires Lists(active, [], retry, clients)
    ensures Waiting(active, retry, [], clients)
    ensures forall i: nat | i < |clients| && i !in retry :: clients[i].open
  {
    forall i: nat | i < |clients| && i !in retry ensures i in active {
      assert multiset(retry)[i] == 0;
      assert multiset(active)[i] == 1;
    }
  }

  lemma WaitingDone(active: seq<nat>, retry: seq<nat>, clients: seq<Client>)
    requires Waiting(active, [], retry, clients)
    ensures Lists(active, [], retry, clients)
  {
  }

  lemma WaitingHead(active: seq<nat>, rest: seq<nat>, retry: seq<nat>, clients: seq<Client>, i: nat)
    requires Waiting(active, rest, retry, clients) && rest != [] && rest[0] == i
    ensures i < |clients| && !clients[i].open && i !in rest[1..]
  {
    assert rest == [i] + rest[1..];
    OnOneList(active, rest[1..], retry, |clients|, i);
  }

  lemma WaitingToActive(active: seq<nat>, rest: seq<nat>, retry: seq<nat>, clients: seq<Client>, clients2: seq<Client>, i: nat)
    requires Waiting(active, [i] + rest, retry, clients) && |clients2| == |clients| && i < |clients|
    requires clients2 == clients[i := clients2[i]] && clients2[i].open
    ensures Waiting([i] + active, rest, retry, clients2)
  {
    hide Partition;
    OnOneList(active, rest, retry, |clients|, i);
    forall j | j in rest || j in retry ensures j < |clients2| && !clients2[j].open {
      assert j in [i] + rest || j in retry;
    }
  }

  lemma WaitingToRetry(active: seq<nat>, rest: seq<nat>, retry: seq<nat>, clients: seq<Client>, i: nat)
    requires Waiting(active, [i] + rest, retry, clients)
    ensures Waiting(active, rest, [i] + retry, clients)
  {
    hide Partition;
    OnOneList(active, rest, retry, |clients|, i);
    assert i in [i] + rest;
    forall j | j in rest || j in [i] + retry ensures j < |clients| && !clients[j].open {
      assert j in [i] + rest || j in retry;
    }
  }

  lemma ScanStart(active: seq<nat>, retry: seq<nat>, clients: seq<Client>)
    requires Lists(active, [], retry, clients)
    ensures Lists([], active, retry, clients)
    ensures forall i: nat | i < |clients| && i !in active :: !clients[i].open
  {
    forall i: nat | i < |clients| && i !in active ensures i in retry {
      assert multiset(active)[i] == 0;
      assert multiset(retry)[i] == 1;
    }
  }

  lemma ListHead(active: seq<nat>, rest: seq<nat>, retry: seq<nat>, clients: seq<Client>, i: nat)
    requires Lists(active, [i] + rest, retry, clients)
    ensures i < |clients| && clients[i].open && i !in rest
    ensures forall j | j in rest :: j < |clients|
  {
    OnOneList(active, rest, retry, |clients|, i);
    assert i in [i] + rest;
    assert forall j | j in rest :: j in [i] + rest;
  }

  lemma AllListed(rest: seq<nat>, retry: seq<nat>, clients: seq<Client>)
    requires Lists([], rest, retry, clients)
    ensures forall i: nat | i in rest :: i < |clients|
  {
  }

  lemma ListAt(active: seq<nat>, retry: seq<nat>, clients: seq<Client>, k: nat)
    requires Lists(active, [], retry, clients) && k < |active|
    ensures active[k] < |clients| && clients[active[k]].open && active[k] !in active[..k]
  {
    var i := active[k];
    assert active == active[..k] + [i] + active[k + 1..];
    assert multiset(active) == multiset(active[..k]) + multiset([i]) + multiset(active[k + 1..]);
    assert multiset([i])[i] == 1 && multiset(active)[i] <= 1;
    assert multiset(active[..k])[i] == 0;
  }

  lemma ListsSame(active: seq<nat>, retry: seq<nat>, clients: seq<Client>, clients2: seq<Client>, i: nat)
    requires Lists(active, [], retry, clients) && |clients2| == |clients|
    requires forall j | 0 <= j < |clients| :: clients2[j].open == clients[j].open
    ensures Lists(active, [], retry, clients2)
  {
  }

  /** The first message of the queue leaves it, and its reference with it. */
  lemma Dequeue(heap: Heap, queue: seq<int>, clients: seq<Client>, owners: multiset<int>)
    requires queue != [] && queue[0] != 0 && Counted(heap, Refs(queue, clients, owners + multiset{}))
    ensures queue[0] in heap && Counted(heap, Refs(queue[1..], clients, owners + multiset{queue[0]}))
  {
    assert queue == [queue[0]] + queue[1..];
    assert Refs(queue[1..], clients, owners + multiset{queue[0]}) == Refs(queue, clients, owners + multiset{});
    assert queue[0] in multiset(queue);
  }

  /** The address of a message that is built in this step. */
  function NewAddress(io: Io): set<int> {
    if io.Sends? && io.rebuilt.Some? then {io.rebuilt.value.0} else {}
  }

  class Broadcaster {
    const login: int
    var clients: seq<Client>
    var active: seq<nat>
    var retry: seq<nat>
    var queue: seq<int>
    var heap: Heap
    var init: int          // the initial message that the server keeps for clients that log in

    ghost predicate RefsOk(extra: multiset<int>)
      reads this`clients, this`queue, this`heap, this`init
    {
      Counted(heap, Refs(queue, clients, multiset{login, init} + extra))
    }

    ghost predicate DataOk()
      reads this`clients, this`heap, this`queue
    {
      && login != 0 && login in heap && ClientsOk(clients, heap)
      && (forall a | a in heap :: Framable(heap[a].data))
      && (forall i | 0 <= i < |queue| :: queue[i] != 0)
    }

    ghost predicate ListsOk(rest: seq<nat>)
      reads this`active, this`retry, this`clients
    {
      Lists(active, rest, retry, clients)
    }

    /** What holds at the head of the broadcaster's loop. */
    ghost predicate Valid()
      reads this
    {
      RefsOk(multiset{}) && DataOk() && ListsOk([])
    }

    ghost function Outs(): seq<Out>
      requires DataOk()
      reads this`clients, this`heap, this`queue
    {
      OutsOf(clients, heap)
    }

    /** The initial message, if the server has one. */
    ghost function InitData(): Option<string>
      reads this`heap, this`init
    {
      if init in heap then Some(heap[init].data) else None
    }

    ghost function Text(a: int): string
      reads this`heap
    {
      TextIn(heap, a)
    }

    /** The messages in the queue. */
    ghost function Texts(): seq<string>
      reads this`heap, this`queue
    {
      TextsOf(queue, heap)
    }

    ghost function LoginData(): string
      requires DataOk()
      reads this`clients, this`heap, this`queue
    {
      heap[login].data
    }

    lemma CanBeFramed()
      requires DataOk()
      ensures Sendable(LoginData(), InitData())
    {
      assert forall a | a in heap :: Framable(heap[a].data);
      assert init in heap ==> Framable(heap[init].data);
    }

    /** The broadcaster with messages as values. */
    ghost function State(): Pass
      requires DataOk()
      reads this
    {
      Pass(Outs(), active, retry, InitData())
    }

    /** The constructor: all clients are waiting to be connected. */
    constructor (name: string, n: nat)
      requires Framable(Arg(name))
      ensures Valid() && queue == [] && |clients| == n && heap[login].data == Arg(name)
      ensures LoginData() == Arg(name) && InitData() == None
      ensures forall i | 0 <= i < n :: Outs()[i] == Out(Down, "")
    {
      login := 1;
      init := 0;
      heap := map[1 := Msg(1, Arg(name))];
      queue := [];
      clients := seq(n, _ => Client(false, Down, 0, 0));
      active := [];
      retry := seq(n, i => i);
      new;
      assert forall i | 0 <= i < n :: retry[i] == i;
      AllOnce(retry, n);
      NoneHeld(clients);
    }

    /** Allocates a message at an address that is free. */
    method MsgAlloc(a: int, data: string, ghost extra: multiset<int>)
      requires RefsOk(extra) && DataOk() && a != 0 && a !in heap && Framable(data)
      modifies this`heap
      ensures RefsOk(extra + multiset{a}) && DataOk() && heap == old(heap)[a := Msg(1, data)]
      ensures Outs() == old(Outs())
    {
      hide ClientOk, OutOf, Refs;
      ghost var refs := Refs(queue, clients, multiset{login, init} + extra);
      heap := heap[a := Msg(1, data)];
      OwnerMore(queue, clients, multiset{login, init}, extra, a);
      StillHeld(queue, clients, multiset{login, init} + (extra + multiset{a}), old(heap), heap);
    }

    /** Drops one reference; the message is freed with the last one. */
    method MsgDecr(a: int, ghost extra: multiset<int>)
      requires RefsOk(extra + multiset{a}) && a != 0
      modifies this`heap
      ensures RefsOk(extra) && heap.Keys <= old(heap).Keys && SameData(old(heap), heap)
      ensures forall b | b in old(heap) && b != a :: b in heap
      ensures a in old(heap) && (a in heap <==> old(heap)[a].refcnt > 1)
    {
      hide Refs;
      OwnerMore(queue, clients, multiset{login, init}, extra, a);
      heap := heap[a := heap[a].(refcnt := heap[a].refcnt - 1)];
      if heap[a].refcnt == 0 {
        heap := heap - {a};
      }
    }

    /** Queues a message; the queue takes over the caller's reference. */
    method Enqueue(a: int, ghost extra: multiset<int>)
      requires RefsOk(extra + multiset{a}) && DataOk() && a != 0
      modifies this`queue
      ensures RefsOk(extra) && DataOk() && queue == old(queue) + [a] && Outs() == old(Outs())
    {
      hide Counted, ClientsOk;
      queue := queue + [a];
      assert Refs(queue, clients, multiset{login, init} + extra)
          == Refs(old(queue), clients, multiset{login, init} + (extra + multiset{a}));
    }

    /** A message is handed to the broadcaster, which owns it from then on. */
    method Post(a: int, data: string)
      requires RefsOk(multiset{}) && DataOk() && a != 0 && a !in heap && Framable(data)
      modifies this`heap, this`queue
      ensures RefsOk(multiset{}) && DataOk() && Outs() == old(Outs()) && Texts() == old(Texts()) + [data]
      ensures InitData() == old(InitData()) && LoginData() == old(LoginData())
    {
      hide OutsOf, Counted, Refs;
      QueueKept();
      if init != 0 {
        Owned(heap, queue, clients, multiset{login, init} + multiset{}, init);
      }
      MsgAlloc(a, data, multiset{});
      Enqueue(a, multiset{});
    }

    /** The next n bytes are the last ones of the login. */
    predicate EndsLogin(i: nat, n: nat)
      requires i < |clients| && clients[i].msg in heap
      reads this`clients, this`heap
    {
      clients[i].phase.Login? && clients[i].sent + n == 4 + |heap[clients[i].msg].data|
    }

    lemma LoginEndsIs(i: nat, n: nat)
      requires DataOk() && i < |clients| && clients[i].msg != 0 && 0 < n <= |Outs()[i].unsent|
      ensures clients[i].msg in heap && (EndsLogin(i, n) <==> Outs()[i].phase.Login? && n == |Outs()[i].unsent|)
    {
    }

    /** Starts to send a message to a client that has none. */
    method MsgSend(i: nat, a: int, ghost extra: multiset<int>)
      requires RefsOk(extra) && DataOk() && i < |clients| && clients[i].open && clients[i].msg == 0
      requires a in heap && a != 0 && !clients[i].phase.Connecting?
      modifies this`heap, this`clients
      ensures RefsOk(extra) && DataOk() && clients == old(clients)[i := old(clients)[i].(msg := a, sent := 0)]
      ensures heap == old(heap)[a := old(heap)[a].(refcnt := old(heap)[a].refcnt + 1)]
      ensures SameData(old(heap), heap) && InitData() == old(InitData())
      ensures Outs() == old(Outs())[i := Out(clients[i].phase, Frame(heap[a].data))]
    {
      hide Refs, OutsOf, Counted;
      var c := clients[i].(msg := a, sent := 0);
      ghost var owners := multiset{login, init} + extra;
      OneMore(heap, Refs(queue, clients, owners), a);
      heap := heap[a := heap[a].(refcnt := heap[a].refcnt + 1)];
      HeldUpdate(queue, clients, owners, i, c);
      ZeroAside(heap, Refs(queue, clients, owners) + multiset{a}, Refs(queue, clients[i := c], owners));
      KeptKeys(clients, old(heap), heap);
      OutsUpdate(clients, heap, i, c);
      clients := clients[i := c];
    }

    /** A client is done with its message. */
    method MsgDone(i: nat, ghost extra: multiset<int>)
      requires RefsOk(extra) && DataOk() && i < |clients| && clients[i].msg != 0
      modifies this`heap, this`clients
      ensures RefsOk(extra) && DataOk() && clients == old(clients)[i := old(clients)[i].(msg := 0)]
      ensures heap.Keys <= old(heap).Keys && SameData(old(heap), heap) && InitData() == old(InitData())
      ensures Outs() == old(Outs())[i := Out(clients[i].phase, "")]
    {
      hide OutsOf, Frame, Counted, Refs;
      var c := clients[i].(msg := 0);
      ghost var owners := multiset{login, init} + extra;
      HeldUpdate(queue, clients, owners, i, c);
      OutsUpdate(clients, heap, i, c);
      var a := clients[i].msg;
      clients := clients[i := c];
      OwnerMore(queue, clients, multiset{login, init}, extra, a);
      ZeroAside(heap, Refs(queue, old(clients), owners), Refs(queue, clients, owners) + multiset{a});
      MsgDecr(a, extra);
      StillHeld(queue, clients, owners, old(heap), heap);
      Owned(heap, queue, clients, owners, login);
      if init != 0 {
        Owned(heap, queue, clients, owners, init);
      }
    }

    /** Closes a client's connection. */
    method Close(i: nat)
      requires RefsOk(multiset{}) && DataOk() && i < |clients|
      modifies this`heap, this`clients
      ensures RefsOk(multiset{}) && DataOk()
      ensures |clients| == |old(clients)| && clients == old(clients)[i := clients[i]] && !clients[i].open
      ensures heap.Keys <= old(heap).Keys && SameData(old(heap), heap) && InitData() == old(InitData())
      ensures Outs() == old(Outs())[i := old(Outs())[i].Lose()]
    {
      hide OutsOf, Frame, Counted, Refs;
      ghost var outs := Outs();
      if clients[i].msg != 0 {
        MsgDone(i, multiset{});
      }
      var c := clients[i].(open := false, phase := Down);
      HeldUpdate(queue, clients, multiset{login, init} + multiset{}, i, c);
      OutsUpdate(clients, heap, i, c);
      ZeroAside(heap, Refs(queue, clients, multiset{login, init} + multiset{}),
                Refs(queue, clients[i := c], multiset{login, init} + multiset{}));
      assert Outs()[i := outs[i].Lose()] == outs[i := outs[i].Lose()];
      clients := clients[i := c];
    }

    /** Closes a client's connection and puts it on the retry list. */
    method RetryClient(i: nat, ghost rest: seq<nat>)
      requires RefsOk(multiset{}) && DataOk() && ListsOk([i] + rest) && i < |clients|
      modifies this`heap, this`clients, this`retry
      ensures RefsOk(multiset{}) && DataOk() && ListsOk(rest)
      ensures |clients| == |old(clients)| && heap.Keys <= old(heap).Keys && SameData(old(heap), heap)
      ensures InitData() == old(InitData()) && retry == [i] + old(retry)
      ensures Outs() == old(Outs())[i := old(Outs())[i].Lose()]
    {
      hide OutsOf, Counted, Refs, Lists, ClientsOk;
      ghost var before := clients;
      Close(i);
      ToRetry(active, rest, retry, before, clients, i);
      retry := [i] + retry;
    }

    /** The initial message for a client that logs in: if it has to be rebuilt, the server gives up
        the old one and owns the new one. */
    method InitProc(rebuilt: Option<(int, string)>)
      requires RefsOk(multiset{}) && DataOk()
      requires rebuilt.Some? ==> rebuilt.value.0 != 0 && rebuilt.value.0 !in heap && Framable(rebuilt.value.1)
      modifies this`heap, this`init
      ensures RefsOk(multiset{}) && DataOk() && Outs() == old(Outs())
      ensures rebuilt.None? ==> heap == old(heap) && init == old(init)
      ensures rebuilt.Some? ==> init in heap && init == rebuilt.value.0 && heap[init].data == rebuilt.value.1
      ensures InitData() == if rebuilt.Some? then Some(rebuilt.value.1) else old(InitData())
      ensures heap.Keys <= old(heap).Keys + (if rebuilt.Some? then {rebuilt.value.0} else {})
      ensures SameData(old(heap), heap)
    {
      hide OutsOf, Frame, Counted, Refs, ClientsOk;
      if rebuilt.Some? {
        var (a, data) := rebuilt.value;
        if init != 0 {
          var gone := init;
          init := 0;
          OwnerMoved(queue, clients, multiset{login, gone} + multiset{}, multiset{login, 0} + (multiset{} + multiset{gone}));
          ZeroAside(heap, Refs(queue, clients, multiset{login, gone} + multiset{}),
                    Refs(queue, clients, multiset{login, init} + (multiset{} + multiset{gone})));
          Drop(gone);
        }
        MsgAlloc(a, data, multiset{});
        OwnerMoved(queue, clients, multiset{login, 0} + (multiset{} + multiset{a}), multiset{login, a} + multiset{});
        ZeroAside(heap, Refs(queue, clients, multiset{login, init} + (multiset{} + multiset{a})),
                  Refs(queue, clients, multiset{login, a} + multiset{}));
        init := a;
      }
    }

    /** Drops an owner's reference. */
    method Drop(a: int)
      requires RefsOk(multiset{} + multiset{a}) && DataOk() && a != 0
      modifies this`heap
      ensures RefsOk(multiset{}) && DataOk() && Outs() == old(Outs()) && InitData() == old(InitData())
      ensures heap.Keys <= old(heap).Keys && SameData(old(heap), heap)
      ensures forall b | b in old(heap) && b != a :: b in heap
    {
      hide OutsOf, Frame, Counted, Refs;
      if init != 0 {
        Owned(heap, queue, clients, multiset{login, init} + (multiset{} + multiset{a}), init);
      }
      MsgDecr(a, multiset{});
      StillHeld(queue, clients, multiset{login, init} + multiset{}, old(heap), heap);
      Owned(heap, queue, clients, multiset{login, init} + multiset{}, login);
      if init != 0 {
        Owned(heap, queue, clients, multiset{login, init} + multiset{}, init);
      }
    }

    /** Changes a client without changing its message. */
    method SetClient(i: nat, c: Client)
      requires RefsOk(multiset{}) && DataOk() && i < |clients| && c.msg == clients[i].msg && ClientOk(c, heap)
      modifies this`clients
      ensures RefsOk(multiset{}) && DataOk() && clients == old(clients)[i := c]
      ensures Outs() == old(Outs())[i := OutOf(c, heap)]
    {
      hide OutsOf, Counted, Refs, ClientsOk, ClientOk;
      HeldUpdate(queue, clients, multiset{login, init} + multiset{}, i, c);
      ZeroAside(heap, Refs(queue, clients, multiset{login, init} + multiset{}),
                Refs(queue, clients[i := c], multiset{login, init} + multiset{}));
      OutsUpdate(clients, heap, i, c);
      clients := clients[i := c];
    }

    /** A client's connection is up: the login goes out first. */
    method Greet(i: nat)
      requires RefsOk(multiset{}) && DataOk() && i < |clients| && clients[i].phase.Connecting?
      modifies this`clients, this`heap
      ensures RefsOk(multiset{}) && DataOk() && |clients| == |old(clients)| && clients == old(clients)[i := clients[i]]
      ensures clients[i].open && heap.Keys == old(heap).Keys && SameData(old(heap), heap) && InitData() == old(InitData())
      ensures Outs() == old(Outs())[i := old(Outs())[i].Greet(LoginData())]
    {
      hide OutsOf, Counted, Refs;
      SetClient(i, clients[i].(phase := Login));
      MsgSend(i, login, multiset{});
    }

    /** The initial message follows the login. */
    method FirstMessage(i: nat, rebuilt: Option<(int, string)>)
      requires RefsOk(multiset{}) && DataOk() && i < |clients| && clients[i].msg == 0 && clients[i].phase.Login?
      requires clients[i].open
      requires rebuilt.Some? ==> rebuilt.value.0 != 0 && rebuilt.value.0 !in heap && Framable(rebuilt.value.1)
      modifies this`clients, this`heap, this`init
      ensures RefsOk(multiset{}) && DataOk() && |clients| == |old(clients)| && clients == old(clients)[i := clients[i]]
      ensures clients[i].open && SameData(old(heap), heap)
      ensures heap.Keys <= old(heap).Keys + (if rebuilt.Some? then {rebuilt.value.0} else {})
      ensures InitData() == (if rebuilt.Some? then Some(rebuilt.value.1) else old(InitData())) && Sendable(LoginData(), InitData())
      ensures Outs() == old(Outs())[i := Out(Ready, if InitData().Some? then Frame(InitData().value) else "")]
    {
      hide OutsOf, Counted, Refs, Framable;
      InitProc(rebuilt);
      CanBeFramed();
      if init != 0 {
        Owned(heap, queue, clients, multiset{login, init} + multiset{}, init);
        MsgSend(i, init, multiset{});
        assert Frame(heap[init].data)[0..] == Frame(heap[init].data);
      } else {
        NoMessage(multiset{});
      }
      SetClient(i, clients[i].(phase := Ready));
    }

    lemma NoMessage(extra: multiset<int>)
      requires RefsOk(extra)
      ensures 0 !in heap
    {
    }

    /** A client's message is out; after the login, the initial message follows. */
    method Finish(i: nat, rebuilt: Option<(int, string)>)
      requires RefsOk(multiset{}) && DataOk() && i < |clients| && clients[i].msg != 0
      requires rebuilt.Some? ==> rebuilt.value.0 != 0 && rebuilt.value.0 !in heap && Framable(rebuilt.value.1)
      modifies this`clients, this`heap, this`init
      ensures RefsOk(multiset{}) && DataOk() && |clients| == |old(clients)| && clients == old(clients)[i := clients[i]]
      ensures clients[i].open && SameData(old(heap), heap)
      ensures heap.Keys <= old(heap).Keys + (if rebuilt.Some? then {rebuilt.value.0} else {})
      ensures InitData() == if old(clients[i].phase.Login?) && rebuilt.Some? then Some(rebuilt.value.1) else old(InitData())
      ensures Sendable(LoginData(), InitData())
      ensures Outs() == old(Outs())[i := if old(clients[i].phase.Login?)
                                         then Out(Ready, if InitData().Some? then Frame(InitData().value) else "")
                                         else Out(old(clients[i].phase), "")]
    {
      hide OutsOf, Counted, Refs, Framable, Frame;
      MsgDone(i, multiset{});
      if clients[i].phase.Login? {
        FirstMessage(i, rebuilt);
      }
      CanBeFramed();
    }

    /** Part of a client's message has been sent. */
    method Advance(i: nat, n: nat, rebuilt: Option<(int, string)>)
      requires RefsOk(multiset{}) && DataOk() && i < |clients| && clients[i].msg != 0
      requires 0 < n <= |Outs()[i].unsent|
      requires rebuilt.Some? ==> rebuilt.value.0 != 0 && rebuilt.value.0 !in heap && Framable(rebuilt.value.1)
      modifies this`clients, this`heap, this`init
      ensures RefsOk(multiset{}) && DataOk() && |clients| == |old(clients)| && clients == old(clients)[i := clients[i]]
      ensures clients[i].open && SameData(old(heap), heap)
      ensures heap.Keys <= old(heap).Keys + (if rebuilt.Some? then {rebuilt.value.0} else {})
      ensures InitData() == InitAfter(old(Outs())[i], Sends(n, rebuilt), old(InitData()))
      ensures Sendable(LoginData(), InitData())
      ensures Outs() == old(Outs())[i := old(Outs())[i].Sent(n, InitData())]
    {
      hide OutsOf, Counted, Refs;
      ghost var outs := Outs();
      if clients[i].sent + n == 4 + |heap[clients[i].msg].data| {
        Finish(i, rebuilt);
        assert Outs()[i] == outs[i].Sent(n, InitData());
      } else {
        CanBeFramed();
        SetClient(i, clients[i].(sent := clients[i].sent + n));
        assert Outs()[i] == outs[i].Sent(n, InitData());
      }
    }

    /** What one client's report leads to; on failure it is left to be closed. */
    method Answer(i: nat, io: Io) returns (ok: bool)
      requires RefsOk(multiset{}) && DataOk() && i < |clients| && clients[i].open && IoOk(Outs()[i], io)
      requires NewAddress(io) !! heap.Keys
      modifies this`clients, this`heap, this`init
      ensures RefsOk(multiset{}) && DataOk() && |clients| == |old(clients)| && clients == old(clients)[i := clients[i]]
      ensures clients[i].open && Outs() == old(Outs())[i := Outs()[i]]
      ensures SameData(old(heap), heap) && heap.Keys <= old(heap).Keys + NewAddress(io)
      ensures ok == Answered(io) && Sendable(LoginData(), old(InitData()))
      ensures ok ==> Outs()[i] == Served(old(Outs())[i], io, LoginData(), old(InitData()))
      ensures InitData() == InitAfter(old(Outs())[i], io, old(InitData()))
      ensures !ok ==> clients == old(clients) && Outs() == old(Outs())
    {
      hide OutsOf, Counted, Refs;
      ok := true;
      CanBeFramed();
      if clients[i].phase.Connecting? {
        if io.Connects? {
          Greet(i);
        } else if io.Refuses? {
          ok := false;
        }
      } else if io.Drops? {
        ok := false;
      } else if clients[i].msg != 0 {
        if io.Fails? {
          ok := false;
        } else if io.Sends? {
          Advance(i, io.n, io.rebuilt);
        }
      }
    }

    /** One client in a pass over the active ones. */
    method Serve(i: nat, io: Io, ghost rest: seq<nat>) returns (busy: bool)
      requires RefsOk(multiset{}) && DataOk() && ListsOk([i] + rest) && i < |clients| && clients[i].open
      requires IoOk(Outs()[i], io)
      requires NewAddress(io) !! heap.Keys
      modifies this`heap, this`clients, this`retry, this`active, this`init
      ensures RefsOk(multiset{}) && DataOk() && ListsOk(rest)
      ensures |clients| == |old(clients)| && CanServe(old(State()), i, io, LoginData())
      ensures State() == ServePass(old(State()), i, io, LoginData())
      ensures Outs() == old(Outs())[i := Outs()[i]]
      ensures busy == Outs()[i].Busy()
      ensures SameData(old(heap), heap) && heap.Keys <= old(heap).Keys + NewAddress(io)
    {
      hide OutsOf, Counted, Refs, Lists;
      ghost var before, was := clients, State();
      var ok := Answer(i, io);
      if ok {
        ToActive(active, rest, retry, before, clients, i);
        active := [i] + active;
        busy := clients[i].msg != 0;
      } else {
        RetryClient(i, rest);
        busy := false;
      }
      assert State().outs == was.outs[i := Served(was.outs[i], io, LoginData(), was.init)];
    }

    /** Takes all clients off the active list for a scan. */
    method TakeActive() returns (rest: seq<nat>)
      requires Valid()
      modifies this`active
      ensures RefsOk(multiset{}) && DataOk() && ListsOk(rest) && rest == old(active) && active == []
      ensures forall i: nat | i in rest :: i < |clients|
      ensures forall i: nat | i < |clients| && i !in rest :: !clients[i].open
    {
      hide OutsOf, Counted, Refs, Lists;
      rest := active;
      active := [];
      ScanStart(rest, retry, clients);
      AllListed(rest, retry, clients);
    }

    /** Tries to connect one client. */
    method RetryOne(i: nat, up: bool, ghost rest: seq<nat>)
      requires RefsOk(multiset{}) && DataOk() && Waiting(active, [i] + rest, retry, clients) && i < |clients| && !clients[i].open
      modifies this`clients, this`active, this`retry
      ensures RefsOk(multiset{}) && DataOk() && Waiting(active, rest, retry, clients) && |clients| == |old(clients)|
      ensures old(Outs())[i].phase.Down?
      ensures Outs() == if up then old(Outs())[i := Out(Connecting, "")] else old(Outs())
      ensures active == (if up then [i] + old(active) else old(active)) && retry == (if up then old(retry) else [i] + old(retry))
    {
      hide OutsOf, Counted, Refs, Lists, Waiting, Frame;
      ghost var before := clients;
      if up {
        SetClient(i, clients[i].(open := true, phase := Connecting));
        WaitingToActive(active, rest, retry, before, clients, i);
        active := [i] + active;
      } else {
        WaitingToRetry(active, rest, retry, clients, i);
        retry := [i] + retry;
      }
    }

    /** All clients without a connection are on the retry list. */
    lemma RetryEffect(rest: seq<nat>, connects: seq<bool>)
      requires DataOk() && |connects| == |clients| && forall i: nat | i < |clients| && i !in rest :: clients[i].open
      ensures var outs := RetryPass(State(), rest, connects).outs;
              && |outs| == |clients|
              && forall i | 0 <= i < |clients| ::
                   outs[i] == if Outs()[i].phase.Down? && connects[i] then Out(Connecting, "") else Outs()[i]
    {
      ghost var outs := RetryPass(State(), rest, connects).outs;
      RetryEach(State(), rest, connects, 0);
      forall i | 0 <= i < |clients|
        ensures outs[i] == if Outs()[i].phase.Down? && connects[i] then Out(Connecting, "") else Outs()[i]
      {
        RetryEach(State(), rest, connects, i);
      }
    }

    /** Tries to connect every client on the retry list. */
    method RetryAll(connects: seq<bool>)
      requires Valid() && |connects| == |clients|
      modifies this`clients, this`active, this`retry
      ensures Valid() && |clients| == |old(clients)|
      ensures State() == RetryPass(old(State()).(retry := []), old(retry), connects)
      ensures forall i | 0 <= i < |clients| ::
                Outs()[i] == if old(Outs())[i].phase.Down? && connects[i] then Out(Connecting, "") else old(Outs())[i]
    {
      hide OutsOf, Counted, Refs, Lists, Frame, Partition, IoOk, NewAddress;
      var rest: seq<nat> := retry;
      retry := [];
      RetryStart(active, rest, clients);
      RetryEffect(rest, connects);
      while rest != []
        modifies this`clients, this`active, this`retry
        invariant RefsOk(multiset{}) && DataOk() && |clients| == |old(clients)| && Waiting(active, rest, retry, clients)
        invariant RetryPass(State(), rest, connects) == RetryPass(old(State()).(retry := []), old(retry), connects)
        decreases |rest|
      {
        var i := rest[0];
        assert rest == [i] + rest[1..];
        WaitingHead(active, rest, retry, clients, i);
        RetryOne(i, connects[i], rest[1..]);
        rest := rest[1..];
      }
      WaitingDone(active, retry, clients);
    }

    /** One pass over the active clients. */
    method Scan(ios: seq<Io>) returns (busy: bool)
      requires Valid() && |ios| == |clients|
      requires forall i | 0 <= i < |clients| && clients[i].open :: IoOk(Outs()[i], ios[i])
      requires forall i | 0 <= i < |clients| :: NewAddress(ios[i]) !! heap.Keys
      requires forall i, j | 0 <= i < j < |clients| :: NewAddress(ios[i]) !! NewAddress(ios[j])
      modifies this`heap, this`clients, this`retry, this`active, this`init
      ensures Valid() && |clients| == |old(clients)|
      ensures State() == ScanPass(old(State()).(active := []), old(active), ios, LoginData())
      ensures SameData(old(heap), heap)
      ensures busy <==> AnyBusy(Outs())
    {
      hide OutsOf, Counted, Refs, Lists, ServePass, IoOk, Frame, NewAddress, Framable, Partition;
      busy := false;
      ghost var was := State();
      var rest: seq<nat> := TakeActive();
      ghost var outs, loginData := Outs(), LoginData();
      while rest != []
        modifies this`heap, this`clients, this`retry, this`active, this`init
        invariant RefsOk(multiset{}) && DataOk() && |clients| == |old(clients)| && ListsOk(rest)
        invariant SameData(old(heap), heap) && LoginData() == loginData
        invariant forall i | i in rest :: i < |clients| && Outs()[i] == outs[i] && NewAddress(ios[i]) !! heap.Keys
        invariant forall i | 0 <= i < |clients| && i !in rest && !old(clients[i]).open :: Outs()[i] == outs[i]
        invariant ScanPass(State(), rest, ios, loginData) == ScanPass(was.(active := []), was.active, ios, loginData)
        invariant busy <==> exists i | 0 <= i < |clients| && i !in rest :: Outs()[i].Busy()
        decreases |rest|
      {
        var i := rest[0];
        assert rest == [i] + rest[1..];
        ListHead(active, rest[1..], retry, clients, i);
        var b := Serve(i, ios[i], rest[1..]);
        busy := busy || b;
        rest := rest[1..];
      }
    }

    /** Offers a message to one client, unless it is still being connected. */
    method OfferTo(i: nat, a: int)
      requires RefsOk(multiset{a}) && DataOk() && ListsOk([]) && a in heap && a != 0
      requires i < |clients| && clients[i].open && !Outs()[i].Busy()
      modifies this`heap, this`clients
      ensures RefsOk(multiset{a}) && DataOk() && ListsOk([]) && a in heap
      ensures SameData(old(heap), heap) && heap.Keys == old(heap).Keys && InitData() == old(InitData())
      ensures |clients| == |old(clients)| && Outs() == old(Outs())[i := old(Outs())[i].Offer(heap[a].data)]
    {
      hide OutsOf, Counted, Refs, Lists, Partition;
      if !clients[i].phase.Connecting? {
        ghost var before := clients;
        MsgSend(i, a, multiset{a});
        ListsSame(active, retry, before, clients, i);
      }
    }

    /** Offers a message to all clients, one after the other. */
    method OfferAll(a: int)
      requires RefsOk(multiset{a}) && DataOk() && ListsOk([]) && a in heap && a != 0
      requires forall i | 0 <= i < |clients| :: !Outs()[i].Busy()
      modifies this`heap, this`clients
      ensures RefsOk(multiset{a}) && DataOk() && ListsOk([]) && a in heap && |clients| == |old(clients)|
      ensures SameData(old(heap), heap) && heap.Keys == old(heap).Keys && InitData() == old(InitData())
      ensures forall i | 0 <= i < |clients| ::
                Outs()[i] == if i in active then old(Outs())[i].Offer(old(heap)[a].data) else old(Outs())[i]
    {
      hide OutsOf, Counted, Refs, Lists, ClientsOk;
      ghost var outs, data := Outs(), heap[a].data;
      for k := 0 to |active|
        modifies this`heap, this`clients
        invariant RefsOk(multiset{a}) && DataOk() && |clients| == |outs| && ListsOk([]) && a in heap && heap[a].data == data
        invariant SameData(old(heap), heap) && heap.Keys == old(heap).Keys && InitData() == old(InitData())
        invariant forall i | 0 <= i < |clients| :: Outs()[i] == if i in active[..k] then outs[i].Offer(data) else outs[i]
      {
        ListAt(active, retry, clients, k);
        assert active[..k + 1] == active[..k] + [active[k]];
        OfferTo(active[k], a);
      }
      assert active[..|active|] == active;
    }

    /** Every message in the queue is kept. */
    lemma QueueKept()
      requires RefsOk(multiset{}) && DataOk()
      ensures forall i | 0 <= i < |queue| :: queue[i] in heap && Framable(Text(queue[i]))
    {
      forall i | 0 <= i < |queue| ensures queue[i] in heap {
        assert queue[i] in multiset(queue);
      }
      assert forall a | a in heap :: Framable(heap[a].data);
    }

    /** Offers the next queued message to all clients; nobody is busy with another one. */
    method Pop()
      requires Valid() && !AnyBusy(Outs())
      modifies this`heap, this`clients, this`queue
      ensures Valid() && |clients| == |old(clients)| && SameData(old(heap), heap) && heap.Keys <= old(heap).Keys
      ensures old(queue) == [] ==> queue == [] && State() == old(State())
      ensures old(queue) != [] ==> queue == old(queue)[1..] && Framable(old(Text(queue[0])))
      ensures old(queue) != [] ==> State() == OfferPass(old(State()), old(Text(queue[0])))
    {
      hide OutsOf, Counted, Refs, Lists;
      if queue == [] {
        return;
      }
      var a := queue[0];
      Dequeue(heap, queue, clients, multiset{login, init});
      ScanStart(active, retry, clients);
      QueueKept();
      ghost var was, m := State(), Text(a);
      queue := queue[1..];
      assert Outs() == was.outs;
      OfferAll(a);
      assert multiset{} + multiset{a} == multiset{a};
      Drop(a);
      assert Outs() == OfferPass(was, m).outs;
    }

    /** One turn of the broadcaster's loop: the lists and the clients change as the passes over the
        retry list and the active list say, and the first message of the queue is offered to all
        exactly when no client has anything left to be sent. */
    method Turn(retryNow: bool, connects: seq<bool>, ios: seq<Io>)
      requires Valid() && |ios| == |connects| == |clients|
      requires forall i | 0 <= i < |clients| ::
                 IoOk(if retryNow && Outs()[i].phase.Down? && connects[i] then Out(Connecting, "") else Outs()[i], ios[i])
      requires forall i | 0 <= i < |clients| :: NewAddress(ios[i]) !! heap.Keys
      requires forall i, j | 0 <= i < j < |clients| :: NewAddress(ios[i]) !! NewAddress(ios[j])
      modifies this
      ensures Valid() && |clients| == |old(clients)| && LoginData() == old(LoginData())
      ensures var mid := BeforePop(old(State()), retryNow, connects, ios, old(LoginData()));
              if AnyBusy(mid.outs) || old(queue) == []
              then State() == mid && queue == old(queue) && Texts() == old(Texts())
              else queue == old(queue)[1..] && Texts() == old(Texts())[1..] && Framable(old(Texts())[0]) &&
                   State() == OfferPass(mid, old(Texts())[0])
    {
      hide OutsOf, Counted, Refs, Lists, Served, IoOk, ScanPass, RetryPass;
      QueueKept();
      if retryNow {
        RetryAll(connects);
      }
      var busy := Scan(ios);
      QueueKept();
      if !busy {
        Pop();
        QueueKept();
      }
    }

    /** At the head of the loop a message exists exactly as long as something refers to it. */
    lemma KeptWhileReferenced(a: int)
      requires Valid() && a != 0
      ensures a in heap <==> a in queue || a == login || a == init || exists i | 0 <= i < |clients| :: clients[i].msg == a
      ensures a in heap ==> heap[a].refcnt == multiset(queue)[a] + multiset(Held(clients))[a] + multiset{login, init}[a]
    {
      forall i | 0 <= i < |clients| && clients[i].msg == a ensures a in Held(clients) {
        assert Held(clients)[i] == a;
      }
    }
  }

  /** Address 0 is not counted. */
  lemma ZeroAside(heap: Heap, refs: multiset<int>, refs2: multiset<int>)
    requires Counted(heap, refs) && forall a | a != 0 :: refs2[a] == refs[a]
    ensures Counted(heap, refs2)
  {
  }

  /** A message with an owner is in the heap. */
  lemma Owned(heap: Heap, queue: seq<int>, clients: seq<Client>, owners: multiset<int>, a: int)
    requires Counted(heap, Refs(queue, clients, owners)) && a in owners && a != 0
    ensures a in heap
  {
  }

  /** Owners that differ in address 0 only. */
  lemma OwnerMoved(queue: seq<int>, clients: seq<Client>, owners: multiset<int>, owners2: multiset<int>)
    requires forall a | a != 0 :: owners2[a] == owners[a]
    ensures forall a | a != 0 :: Refs(queue, clients, owners2)[a] == Refs(queue, clients, owners)[a]
  {
  }

  lemma OwnerMore(queue: seq<int>, clients: seq<Client>, owners: multiset<int>, extra: multiset<int>, a: int)
    ensures Refs(queue, clients, owners + (extra + multiset{a})) == Refs(queue, clients, owners + extra) + multiset{a}
  {
  }

  lemma KeptKeys(clients: seq<Client>, heap: Heap, heap2: Heap)
    requires ClientsOk(clients, heap) && SameData(heap, heap2) && heap.Keys <= heap2.Keys
    ensures ClientsOk(clients, heap2) && OutsOf(clients, heap2) == OutsOf(clients, heap)
  {
  }

  lemma NoneHeld(clients: seq<Client>)
    requires forall i | 0 <= i < |clients| :: clients[i].msg == 0
    ensures forall a | a != 0 :: multiset(Held(clients))[a] == 0
  {
    forall a | a != 0 ensures a !in Held(clients) {
    }
  }
}
