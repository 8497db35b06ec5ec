/** Tallies on their way from many threads to the tally server, and the server's sums. */
module Tally {
  import opened Sequences

  datatype Req = Req(bucket: string, key: string, value: int)

  const NULL := -1

  // ---- Linked lists of message nodes ----

  /** The list from `head` through `next` is `s`. */
  ghost predicate IsList(next: seq<int>, head: int, s: seq<nat>) {
    && (forall i | 0 <= i < |s| :: s[i] < |next|)
    && head == (if s == [] then NULL else s[0])
    && (forall i: nat | i < |s| :: next[s[i]] == Following(s, i))
  }

  ghost predicate Distinct(s: seq<nat>) {
    forall i, j | 0 <= i < j < |s| :: s[i] != s[j]
  }

  /** Only two nodes may have been linked anew. */
  ghost predicate OnlyChanged(next: seq<int>, next2: seq<int>, a: int, b: int) {
    |next2| == |next| && forall x | 0 <= x < |next| && x != a && x != b :: next2[x] == next[x]
  }

  lemma OneChanged(next: seq<int>, m: nat, v: int)
    requires m < |next|
    ensures OnlyChanged(next, next[m := v], m, m)
  {
  }

  /** The last of some nodes, or else m. */
  function LastOf(s: seq<nat>, m: nat): nat {
    if s == [] then m else s[|s| - 1]
  }

  function Following(s: seq<nat>, i: nat): int {
    if i + 1 < |s| then s[i + 1] else NULL
  }

  lemma ListSame(next: seq<int>, next2: seq<int>, head: int, s: seq<nat>)
    requires IsList(next, head, s) && |next2| == |next| && forall i | 0 <= i < |s| :: next2[s[i]] == next[s[i]]
    ensures IsList(next2, head, s)
  {
  }

  lemma ListPush(next: seq<int>, head: int, s: seq<nat>, m: nat)
    requires IsList(next, head, s) && m < |next| && m !in s
    ensures IsList(next[m := head], m, [m] + s)
  {
    var u, next2 := [m] + s, next[m := head];
    forall i: nat | i < |u| ensures next2[u[i]] == Following(u, i) {
      assert i > 0 ==> u[i] == s[i - 1] && next[s[i - 1]] == Following(s, i - 1);
    }
  }

  lemma ListPop(next: seq<int>, head: int, s: seq<nat>)
    requires IsList(next, head, s) && s != []
    ensures 0 <= head < |next| && IsList(next, next[head], s[1..])
  {
    var u := s[1..];
    assert next[s[0]] == Following(s, 0);
    forall i: nat | i < |u| ensures next[u[i]] == Following(u, i) {
      assert u[i] == s[i + 1] && next[s[i + 1]] == Following(s, i + 1);
    }
  }

  lemma ListAppend(next: seq<int>, head: int, s: seq<nat>, m: nat)
    requires IsList(next, head, s) && s != [] && m < |next| && m !in s
    requires Distinct(s)
    ensures IsList(next[m := NULL][s[|s| - 1] := m], head, s + [m])
  {
  }

  // ---- Where every node is ----

  lemma Both<T>(a: multiset<T>, b: multiset<T>, c: multiset<T>, d: multiset<T>, more: multiset<T>)
    requires a + b == c + d
    ensures (a + more) + b == (c + more) + d
  {
    assert (a + more) + b == (a + b) + more;
    assert (c + more) + d == (c + d) + more;
  }

  /** All nodes of several lists. */
  ghost function Nodes(lists: seq<seq<nat>>): multiset<nat> {
    if lists == [] then multiset{} else Nodes(lists[..|lists| - 1]) + multiset(lists[|lists| - 1])
  }

  lemma {:induction false} NodesUpdate(lists: seq<seq<nat>>, i: nat, s: seq<nat>)
    requires i < |lists|
    ensures Nodes(lists[i := s]) + multiset(lists[i]) == Nodes(lists) + multiset(s)
    decreases |lists|
  {
    var k := |lists| - 1;
    var lists2 := lists[i := s];
    if i == k {
      assert lists2[..k] == lists[..k];
    } else {
      var a, b := Nodes(lists[..k]), Nodes(lists2[..k]);
      assert lists2[..k] == lists[..k][i := s];
      NodesUpdate(lists[..k], i, s);
      Both(b, multiset(lists[i]), a, multiset(s), multiset(lists[k]));
    }
  }

  lemma NodesAppend(lists: seq<seq<nat>>, s: seq<nat>)
    ensures Nodes(lists + [s]) == Nodes(lists) + multiset(s)
  {
    assert (lists + [s])[..|lists|] == lists;
  }

  /** The requests that the nodes of a list hold. */
  ghost function Load(req: seq<Req>, s: seq<nat>): multiset<Req>
    requires forall i | 0 <= i < |s| :: s[i] < |req|
  {
    multiset(seq(|s|, i requires 0 <= i < |s| => req[s[i]]))
  }

  lemma LoadFirst(req: seq<Req>, s: seq<nat>)
    requires s != [] && forall i | 0 <= i < |s| :: s[i] < |req|
    ensures Load(req, s) == multiset{req[s[0]]} + Load(req, s[1..])
  {
    var all := seq(|s|, i requires 0 <= i < |s| => req[s[i]]);
    assert all == [req[s[0]]] + seq(|s| - 1, i requires 0 <= i < |s| - 1 => req[s[1..][i]]);
  }

  lemma LoadLast(req: seq<Req>, s: seq<nat>, m: nat)
    requires m < |req| && forall i | 0 <= i < |s| :: s[i] < |req|
    ensures forall i | 0 <= i < |s + [m]| :: (s + [m])[i] < |req|
    ensures Load(req, s + [m]) == Load(req, s) + multiset{req[m]}
  {
    var t := s + [m];
    var all := seq(|t|, i requires 0 <= i < |t| => req[t[i]]);
    assert all == seq(|s|, i requires 0 <= i < |s| => req[s[i]]) + [req[m]];
  }

  lemma LoadSame(req: seq<Req>, req2: seq<Req>, s: seq<nat>)
    requires |req2| == |req| && forall i | 0 <= i < |s| :: s[i] < |req| && req2[s[i]] == req[s[i]]
    ensures Load(req2, s) == Load(req, s)
  {
    assert seq(|s|, i requires 0 <= i < |s| => req2[s[i]]) == seq(|s|, i requires 0 <= i < |s| => req[s[i]]);
  }

  ghost predicate Within(lists: seq<seq<nat>>, n: nat) {
    forall t | 0 <= t < |lists| :: forall i | 0 <= i < |lists[t]| :: lists[t][i] < n
  }

  ghost function Loads(req: seq<Req>, lists: seq<seq<nat>>): multiset<Req>
    requires Within(lists, |req|)
  {
    if lists == [] then multiset{} else Loads(req, lists[..|lists| - 1]) + Load(req, lists[|lists| - 1])
  }

  lemma {:induction false} LoadsUpdate(req: seq<Req>, lists: seq<seq<nat>>, t: nat, s: seq<nat>)
    requires Within(lists, |req|) && t < |lists| && forall i | 0 <= i < |s| :: s[i] < |req|
    ensures Within(lists[t := s], |req|)
    ensures Loads(req, lists[t := s]) + Load(req, lists[t]) == Loads(req, lists) + Load(req, s)
    decreases |lists|
  {
    hide Load;
    var k := |lists| - 1;
    var lists2 := lists[t := s];
    if t == k {
      assert lists2[..k] == lists[..k];
    } else {
      assert lists2[..k] == lists[..k][t := s];
      LoadsUpdate(req, lists[..k], t, s);
      var a, b := Loads(req, lists[..k]), Loads(req, lists2[..k]);
      Both(b, Load(req, lists[t]), a, Load(req, s), Load(req, lists[k]));
    }
  }

  lemma {:induction false} LoadsSame(req: seq<Req>, req2: seq<Req>, lists: seq<seq<nat>>, m: nat)
    requires |req2| == |req| && Within(lists, |req|) && m !in Nodes(lists)
    requires forall i | 0 <= i < |req| && i != m :: req2[i] == req[i]
    ensures Loads(req2, lists) == Loads(req, lists)
    decreases |lists|
  {
    if lists != [] {
      var k := |lists| - 1;
      LoadsSame(req, req2, lists[..k], m);
      forall i | 0 <= i < |lists[k]| ensures lists[k][i] != m {
        assert lists[k][i] in multiset(lists[k]);
      }
      LoadSame(req, req2, lists[k]);
    }
  }

  lemma LoadsAppend(req: seq<Req>, lists: seq<seq<nat>>)
    requires Within(lists, |req|)
    ensures Within(lists + [[]], |req|) && Loads(req, lists + [[]]) == Loads(req, lists)
  {
    assert (lists + [[]])[..|lists|] == lists;
  }

  /** A sender thread between two of its critical sections: the messages it has still to send and
      those it has sent. */
  datatype Thread = Thread(first: int, free: int)

  ghost predicate ThreadOk(next: seq<int>, th: Thread, held: seq<nat>, sent: seq<nat>) {
    IsList(next, th.first, held) && IsList(next, th.free, sent)
  }

  ghost predicate ThreadsOk(next: seq<int>, threads: seq<Thread>, held: seq<seq<nat>>, sent: seq<seq<nat>>) {
    |held| == |sent| == |threads| && forall t | 0 <= t < |threads| :: ThreadOk(next, threads[t], held[t], sent[t])
  }

  /** Every node is in exactly one place, once; `loose` is what is being moved. */
  ghost predicate Placed(n: nat, loose: multiset<nat>, free: seq<nat>, queue: seq<nat>, held: seq<seq<nat>>, sent: seq<seq<nat>>) {
    forall m: nat ::
      loose[m] + multiset(free)[m] + multiset(queue)[m] + Nodes(held)[m] + Nodes(sent)[m] == if m < n then 1 else 0
  }

  lemma {:induction false} InNodes(lists: seq<seq<nat>>, t: nat, i: nat)
    requires t < |lists| && i < |lists[t]|
    ensures lists[t][i] in Nodes(lists)
    decreases |lists|
  {
    var k := |lists| - 1;
    if t < k {
      InNodes(lists[..k], t, i);
    } else {
      assert lists[k][i] in multiset(lists[k]);
    }
  }

  /** Lists that do not hold the changed nodes stay as they are. */
  lemma ThreadsKeep(next: seq<int>, next2: seq<int>, threads: seq<Thread>, held: seq<seq<nat>>, sent: seq<seq<nat>>, a: int, b: int)
    requires ThreadsOk(next, threads, held, sent)
    requires OnlyChanged(next, next2, a, b)
    requires a !in Nodes(held) && a !in Nodes(sent) && b !in Nodes(held) && b !in Nodes(sent)
    ensures ThreadsOk(next2, threads, held, sent)
  {
    forall t | 0 <= t < |threads| ensures ThreadOk(next2, threads[t], held[t], sent[t]) {
      assert ThreadOk(next, threads[t], held[t], sent[t]);
      forall i: nat | i < |held[t]| ensures held[t][i] != a && held[t][i] != b {
        InNodes(held, t, i);
      }
      forall i: nat | i < |sent[t]| ensures sent[t][i] != a && sent[t][i] != b {
        InNodes(sent, t, i);
      }
      ListSame(next, next2, threads[t].first, held[t]);
      ListSame(next, next2, threads[t].free, sent[t]);
    }
  }

  lemma ListKeep(next: seq<int>, next2: seq<int>, head: int, s: seq<nat>, a: int, b: int)
    requires IsList(next, head, s) && OnlyChanged(next, next2, a, b) && a !in s && b !in s
    ensures IsList(next2, head, s)
  {
    ListSame(next, next2, head, s);
  }

  /** A node that is loose is on no list. */
  lemma LooseIsNowhere(n: nat, m: nat, free: seq<nat>, queue: seq<nat>, held: seq<seq<nat>>, sent: seq<seq<nat>>)
    requires Placed(n, multiset{m}, free, queue, held, sent)
    ensures m < n && m !in free && m !in queue && m !in Nodes(held) && m !in Nodes(sent)
  {
    assert multiset{m}[m] == 1;
    assert multiset(free)[m] == 0 && multiset(queue)[m] == 0;
  }

  /** A queued node is queued once and is nowhere else. */
  lemma QueuedOnce(n: nat, loose: multiset<nat>, free: seq<nat>, queue: seq<nat>, held: seq<seq<nat>>, sent: seq<seq<nat>>)
    requires Placed(n, loose, free, queue, held, sent)
    ensures Distinct(queue)
    ensures queue != [] ==> var l := queue[|queue| - 1]; l !in free && l !in Nodes(held) && l !in Nodes(sent)
  {
    forall i, j | 0 <= i < j < |queue| ensures queue[i] != queue[j] {
      assert queue == queue[..i] + [queue[i]] + queue[i + 1..j] + [queue[j]] + queue[j + 1..];
      var m := queue[i];
      assert multiset(queue)[m] <= 1;
    }
    if queue != [] {
      var l := queue[|queue| - 1];
      assert l in multiset(queue);
      assert multiset(queue)[l] >= 1;
      assert multiset(free)[l] == 0;
    }
  }

  /** Every accepted request has been delivered, or waits in the queue or with a thread. */
  ghost predicate Books(req: seq<Req>, accepted: multiset<Req>, delivered: multiset<Req>, queue: seq<nat>,
                        held: seq<seq<nat>>, loose: multiset<Req>) {
    && Within(held, |req|) && (forall i | 0 <= i < |queue| :: queue[i] < |req|)
    && accepted == delivered + Load(req, queue) + Loads(req, held) + loose
  }

  lemma BooksQueued(req: seq<Req>, accepted: multiset<Req>, delivered: multiset<Req>, queue: seq<nat>,
                    held: seq<seq<nat>>, m: nat)
    requires m < |req| && Books(req, accepted, delivered, queue, held, multiset{req[m]})
    ensures Books(req, accepted, delivered, queue + [m], held, multiset{})
  {
    hide Load, Loads;
    LoadLast(req, queue, m);
  }

  ghost predicate QueueIs(next: seq<int>, first: int, last: int, queue: seq<nat>) {
    IsList(next, first, queue) && (queue != [] ==> last == queue[|queue| - 1])
  }

  lemma QueueKeep(next: seq<int>, next2: seq<int>, first: int, last: int, queue: seq<nat>, m: nat)
    requires QueueIs(next, first, last, queue) && OnlyChanged(next, next2, m, m) && m !in queue
    ensures QueueIs(next2, first, last, queue)
  {
    ListKeep(next, next2, first, queue, m, m);
  }

  // ---- Nodes move from place to place ----

  lemma HeadTail(s: seq<nat>)
    requires s != []
    ensures forall x: nat :: multiset(s)[x] == multiset{s[0]}[x] + multiset(s[1..])[x]
  {
    assert s == [s[0]] + s[1..];
  }

  lemma Pushed(s: seq<nat>, m: nat)
    ensures forall x: nat :: multiset([m] + s)[x] == multiset{m}[x] + multiset(s)[x]
  {
  }

  lemma NodesCount(lists: seq<seq<nat>>, t: nat, s: seq<nat>)
    requires t < |lists|
    ensures forall x: nat :: Nodes(lists[t := s])[x] + multiset(lists[t])[x] == Nodes(lists)[x] + multiset(s)[x]
  {
    NodesUpdate(lists, t, s);
    forall x: nat ensures Nodes(lists[t := s])[x] + multiset(lists[t])[x] == Nodes(lists)[x] + multiset(s)[x] {
      assert (Nodes(lists[t := s]) + multiset(lists[t]))[x] == (Nodes(lists) + multiset(s))[x];
    }
  }

  lemma PlacedFromFree(n: nat, free: seq<nat>, queue: seq<nat>, held: seq<seq<nat>>, sent: seq<seq<nat>>)
    requires Placed(n, multiset{}, free, queue, held, sent) && free != []
    ensures Placed(n, multiset{free[0]}, free[1..], queue, held, sent)
  {
    HeadTail(free);
  }

  lemma PlacedInFree(n: nat, m: nat, free: seq<nat>, queue: seq<nat>, held: seq<seq<nat>>, sent: seq<seq<nat>>)
    requires Placed(n, multiset{m}, free, queue, held, sent)
    ensures Placed(n, multiset{}, [m] + free, queue, held, sent)
  {
    Pushed(free, m);
  }

  lemma PlacedGrab(n: nat, free: seq<nat>, queue: seq<nat>, held: seq<seq<nat>>, sent: seq<seq<nat>>, t: nat)
    requires Placed(n, multiset{}, free, queue, held, sent) && t < |held| && held[t] == []
    ensures Placed(n, multiset{}, free, [], held[t := queue], sent)
  {
    NodesCount(held, t, queue);
  }

  lemma PlacedUnhold(n: nat, free: seq<nat>, queue: seq<nat>, held: seq<seq<nat>>, sent: seq<seq<nat>>, t: nat)
    requires Placed(n, multiset{}, free, queue, held, sent) && t < |held| && held[t] != []
    ensures Placed(n, multiset{held[t][0]}, free, queue, held[t := held[t][1..]], sent)
  {
    NodesCount(held, t, held[t][1..]);
    HeadTail(held[t]);
  }

  lemma PlacedUnsent(n: nat, free: seq<nat>, queue: seq<nat>, held: seq<seq<nat>>, sent: seq<seq<nat>>, t: nat)
    requires Placed(n, multiset{}, free, queue, held, sent) && t < |sent| && sent[t] != []
    ensures Placed(n, multiset{sent[t][0]}, free, queue, held, sent[t := sent[t][1..]])
  {
    NodesCount(sent, t, sent[t][1..]);
    HeadTail(sent[t]);
  }

  lemma PlacedSent(n: nat, free: seq<nat>, queue: seq<nat>, held: seq<seq<nat>>, sent: seq<seq<nat>>, t: nat, m: nat)
    requires Placed(n, multiset{m}, free, queue, held, sent) && t < |sent|
    ensures Placed(n, multiset{}, free, queue, held, sent[t := [m] + sent[t]])
  {
    NodesCount(sent, t, [m] + sent[t]);
    Pushed(sent[t], m);
  }

  // ---- Requests stay accounted for ----

  lemma NothingLoaded(req: seq<Req>)
    ensures Load(req, []) == multiset{}
  {
  }

  /** A free node is filled with a new request. */
  lemma BooksAccept(req: seq<Req>, accepted: multiset<Req>, delivered: multiset<Req>, queue: seq<nat>,
                    held: seq<seq<nat>>, m: nat, r: Req)
    requires Books(req, accepted, delivered, queue, held, multiset{}) && m < |req| && m !in queue && m !in Nodes(held)
    ensures Books(req[m := r], accepted + multiset{r}, delivered, queue, held, multiset{r})
  {
    hide Load, Loads, Nodes;
    LoadSame(req, req[m := r], queue);
    LoadsSame(req, req[m := r], held, m);
  }

  lemma BooksGrab(req: seq<Req>, accepted: multiset<Req>, delivered: multiset<Req>, queue: seq<nat>,
                  held: seq<seq<nat>>, t: nat)
    requires Books(req, accepted, delivered, queue, held, multiset{}) && t < |held| && held[t] == []
    ensures Books(req, accepted, delivered, [], held[t := queue], multiset{})
  {
    hide Load, Loads;
    LoadsUpdate(req, held, t, queue);
    NothingLoaded(req);
    assert Loads(req, held[t := queue]) + Load(req, held[t]) == Loads(req, held[t := queue]);
    assert accepted == delivered + Load(req, []) + Loads(req, held[t := queue]) + multiset{};
  }

  lemma BooksUnhold(req: seq<Req>, accepted: multiset<Req>, delivered: multiset<Req>, queue: seq<nat>,
                    held: seq<seq<nat>>, t: nat)
    requires Books(req, accepted, delivered, queue, held, multiset{}) && t < |held| && held[t] != []
    ensures held[t][0] < |req|
    ensures Books(req, accepted, delivered, queue, held[t := held[t][1..]], multiset{req[held[t][0]]})
  {
    hide Load, Loads;
    var rest, first := held[t][1..], req[held[t][0]];
    LoadsUpdate(req, held, t, rest);
    LoadFirst(req, held[t]);
    var a, b := Loads(req, held[t := rest]), Loads(req, held);
    Cancel(a, multiset{first}, Load(req, rest), b);
  }

  lemma Cancel<T>(a: multiset<T>, x: multiset<T>, rest: multiset<T>, b: multiset<T>)
    requires a + (x + rest) == b + rest
    ensures a + x == b
  {
    assert a + x == (a + (x + rest)) - rest;
    assert b == (b + rest) - rest;
  }

  lemma BooksSent(req: seq<Req>, accepted: multiset<Req>, delivered: multiset<Req>, queue: seq<nat>,
                  held: seq<seq<nat>>, r: Req)
    requires Books(req, accepted, delivered, queue, held, multiset{r})
    ensures Books(req, accepted, delivered + multiset{r}, queue, held, multiset{})
  {
    hide Load, Loads;
  }

  // ---- Threads' lists change ----

  lemma UnlinkFirst(next: seq<int>, threads: seq<Thread>, held: seq<seq<nat>>, sent: seq<seq<nat>>, t: nat)
    requires ThreadsOk(next, threads, held, sent) && t < |threads| && threads[t].first != NULL
    ensures held[t] != [] && threads[t].first == held[t][0] < |next|
    ensures ThreadsOk(next, threads[t := threads[t].(first := next[held[t][0]])], held[t := held[t][1..]], sent)
  {
    hide IsList;
    assert ThreadOk(next, threads[t], held[t], sent[t]);
    ListHead(next, threads[t].first, held[t]);
    ListPop(next, threads[t].first, held[t]);
  }

  lemma UnlinkSent(next: seq<int>, threads: seq<Thread>, held: seq<seq<nat>>, sent: seq<seq<nat>>, t: nat)
    requires ThreadsOk(next, threads, held, sent) && t < |threads| && threads[t].free != NULL
    ensures sent[t] != [] && threads[t].free == sent[t][0] < |next|
    ensures ThreadsOk(next, threads[t := threads[t].(free := next[sent[t][0]])], held, sent[t := sent[t][1..]])
  {
    hide IsList;
    assert ThreadOk(next, threads[t], held[t], sent[t]);
    ListHead(next, threads[t].free, sent[t]);
    ListPop(next, threads[t].free, sent[t]);
  }

  lemma Lengths(next: seq<int>, threads: seq<Thread>, held: seq<seq<nat>>, sent: seq<seq<nat>>)
    requires ThreadsOk(next, threads, held, sent)
    ensures |held| == |sent| == |threads|
  {
  }

  lemma OneMoreThread(next: seq<int>, threads: seq<Thread>, held: seq<seq<nat>>, sent: seq<seq<nat>>)
    requires ThreadsOk(next, threads, held, sent)
    ensures ThreadsOk(next, threads + [Thread(NULL, NULL)], held + [[]], sent + [[]])
  {
  }

  lemma PlacedAppend(n: nat, free: seq<nat>, queue: seq<nat>, held: seq<seq<nat>>, sent: seq<seq<nat>>)
    requires Placed(n, multiset{}, free, queue, held, sent)
    ensures Placed(n, multiset{}, free, queue, held + [[]], sent + [[]])
  {
    NodesAppend(held, []);
    NodesAppend(sent, []);
  }

  lemma BooksAppend(req: seq<Req>, accepted: multiset<Req>, delivered: multiset<Req>, queue: seq<nat>, held: seq<seq<nat>>)
    requires Books(req, accepted, delivered, queue, held, multiset{})
    ensures Books(req, accepted, delivered, queue, held + [[]], multiset{})
  {
    hide Load, Loads;
    LoadsAppend(req, held);
  }

  lemma GrabLists(next: seq<int>, threads: seq<Thread>, held: seq<seq<nat>>, sent: seq<seq<nat>>, t: nat, first: int, queue: seq<nat>)
    requires ThreadsOk(next, threads, held, sent) && t < |threads| && sent[t] == [] && IsList(next, first, queue)
    ensures ThreadsOk(next, threads[t := Thread(first, NULL)], held[t := queue], sent)
  {
    assert ThreadOk(next, threads[t], held[t], sent[t]);
  }

  lemma ListHead(next: seq<int>, head: int, s: seq<nat>)
    requires IsList(next, head, s)
    ensures head != NULL <==> s != []
    ensures s != [] ==> head == s[0] < |next|
  {
  }

  lemma MoveToSent(next: seq<int>, next2: seq<int>, threads: seq<Thread>, held: seq<seq<nat>>, sent: seq<seq<nat>>, t: nat, m: nat)
    requires ThreadsOk(next, threads, held, sent) && t < |threads| && m < |next| && next2 == next[m := threads[t].free]
    requires m !in Nodes(held) && m !in Nodes(sent)
    ensures ThreadsOk(next2, threads[t := threads[t].(free := m)], held, sent[t := [m] + sent[t]])
  {
    hide IsList, Nodes;
    ThreadsKeep(next, next2, threads, held, sent, m, m);
    assert ThreadOk(next, threads[t], held[t], sent[t]);
    if m in sent[t] {
      var i: nat :| i < |sent[t]| && sent[t][i] == m;
      InNodes(sent, t, i);
    }
    ListPush(next, threads[t].free, sent[t], m);
    assert ThreadOk(next2, threads[t], held[t], sent[t]);
  }

  /** The shared lists and all the threads of the client side. */
  class Sender {
    var next: seq<int>            // nextPtr of every node
    var req: seq<Req>             // the request of every node
    var firstFree: int
    var firstMsg: int
    var lastMsg: int
    var threads: seq<Thread>
    ghost var free: seq<nat>
    ghost var queue: seq<nat>
    ghost var held: seq<seq<nat>>   // by thread: to be sent
    ghost var sent: seq<seq<nat>>   // by thread: sent
    ghost var accepted: multiset<Req>
    ghost var delivered: multiset<Req>

    /** The queue, with its last node. */
    ghost predicate QueueOk()
      reads this`next, this`firstMsg, this`lastMsg, this`queue
    {
      QueueIs(next, firstMsg, lastMsg, queue)
    }

    ghost predicate ListsOk()
      reads this`next, this`req, this`firstFree, this`firstMsg, this`lastMsg, this`threads, this`free, this`queue,
            this`held, this`sent
    {
      && |req| == |next| && IsList(next, firstFree, free) && QueueOk()
      && ThreadsOk(next, threads, held, sent)
    }

    ghost predicate PlacedWith(loose: multiset<nat>)
      reads this`next, this`free, this`queue, this`held, this`sent
    {
      Placed(|next|, loose, free, queue, held, sent)
    }

    ghost predicate Accounted(loose: multiset<Req>)
      reads this`req, this`accepted, this`delivered, this`queue, this`held
    {
      Books(req, accepted, delivered, queue, held, loose)
    }

    ghost predicate Valid()
      reads this
    {
      ListsOk() && PlacedWith(multiset{}) && Accounted(multiset{})
    }

    /** Links a node behind the last one of the queue. */
    method LinkLast(m: nat)
      requires QueueOk() && m < |next| && m !in queue && Distinct(queue)
      modifies this`next, this`firstMsg, this`lastMsg, this`queue
      ensures QueueOk() && queue == old(queue) + [m] && |next| == |old(next)|
      ensures OnlyChanged(old(next), next, m, LastOf(old(queue), m))
    {
      QueueEnds(next, firstMsg, queue, m);
      next := next[m := NULL];
      if firstMsg == NULL {
        firstMsg := m;
      } else {
        next := next[lastMsg := m];
      }
      lastMsg := m;
      queue := queue + [m];
    }

    /** Appends a node to the queue. */
    method QueueMsg(m: nat)
      requires ListsOk() && PlacedWith(multiset{m}) && m < |req| && Accounted(multiset{req[m]})
      modifies this`next, this`firstMsg, this`lastMsg, this`queue
      ensures Valid() && |next| == |old(next)| && queue == old(queue) + [m]
    {
      hide IsList, ThreadsOk, Placed, Books, QueueOk, Distinct, OnlyChanged, Nodes;
      ghost var before, last := next, LastOf(queue, m);
      LooseIsNowhere(|next|, m, free, queue, held, sent);
      QueuedOnce(|next|, multiset{m}, free, queue, held, sent);
      PlacedInQueue(|next|, m, free, queue, held, sent);
      BooksQueued(req, accepted, delivered, queue, held, m);
      LinkLast(m);
      ListKeep(before, next, firstFree, free, m, last);
      ThreadsKeep(before, next, threads, held, sent, m, last);
    }

    constructor (n: nat)
      ensures Valid() && |next| == n && accepted == delivered == multiset{} && threads == []
    {
      next := seq(n, i => if i + 1 < n then i + 1 else NULL);
      req := seq(n, _ => Req("", "", 0));
      firstFree := if n == 0 then NULL else 0;
      firstMsg, lastMsg := NULL, NULL;
      threads, held, sent := [], [], [];
      free := seq(n, i => i);
      queue := [];
      accepted, delivered := multiset{}, multiset{};
      new;
      AllOnce(free, n);
    }

    /** Takes a node from the shared free list. */
    method TakeFree() returns (m: nat)
      requires Valid() && firstFree != NULL
      modifies this`firstFree, this`free
      ensures ListsOk() && PlacedWith(multiset{m}) && Accounted(multiset{}) && m < |next|
    {
      hide ThreadsOk, Placed, Books, QueueOk, Nodes;
      PlacedFromFree(|next|, free, queue, held, sent);
      ListPop(next, firstFree, free);
      m := firstFree;
      firstFree := next[m];
      free := free[1..];
    }

    /** A tally is accepted if a node is free; otherwise it is dropped. */
    method Send(r: Req) returns (ok: bool)
      requires Valid()
      modifies this
      ensures Valid() && ok == old(firstFree != NULL) && |next| == |old(next)|
      ensures accepted == old(accepted) + (if ok then multiset{r} else multiset{}) && delivered == old(delivered)
      ensures threads == old(threads) && held == old(held) && sent == old(sent)
      ensures !ok ==> queue == old(queue)
      ensures ok ==> |queue| == |old(queue)| + 1 && old(queue) <= queue && req[queue[|queue| - 1]] == r
    {
      hide IsList, ThreadsOk, Placed, Books, QueueOk, Nodes;
      ok := firstFree != NULL;
      if ok {
        var m := TakeFree();
        LooseIsNowhere(|next|, m, free, queue, held, sent);
        BooksAccept(req, accepted, delivered, queue, held, m, r);
        req := req[m := r];
        accepted := accepted + multiset{r};
        QueueMsg(m);
      }
    }

    /** Another sender thread starts. */
    method AddThread()
      requires Valid()
      modifies this`threads, this`held, this`sent
      ensures Valid() && threads == old(threads) + [Thread(NULL, NULL)]
      ensures held == old(held) + [[]] && sent == old(sent) + [[]]
    {
      hide IsList, ThreadsOk, Placed, Books, QueueIs;
      OneMoreThread(next, threads, held, sent);
      PlacedAppend(|next|, free, queue, held, sent);
      BooksAppend(req, accepted, delivered, queue, held);
      threads := threads + [Thread(NULL, NULL)];
      held, sent := held + [[]], sent + [[]];
    }

    /** A thread takes the whole queue. */
    method Grab(t: nat)
      requires Valid() && t < |threads| && held[t] == [] && sent[t] == []
      modifies this`threads, this`firstMsg, this`lastMsg, this`queue, this`held
      ensures Valid() && queue == [] && held == old(held)[t := old(queue)] && |threads| == |old(threads)|
    {
      hide ThreadsOk, Placed, Books;
      Lengths(next, threads, held, sent);
      GrabLists(next, threads, held, sent, t, firstMsg, queue);
      PlacedGrab(|next|, free, queue, held, sent, t);
      BooksGrab(req, accepted, delivered, queue, held, t);
      threads := threads[t := Thread(firstMsg, NULL)];
      held := held[t := queue];
      queue := [];
      firstMsg, lastMsg := NULL, NULL;
    }

    /** Takes the next message from the ones a thread has still to send. */
    method Unhold(t: nat) returns (m: nat)
      requires Valid() && t < |threads| && threads[t].first != NULL
      modifies this`threads, this`held
      ensures ListsOk() && PlacedWith(multiset{m}) && m < |req| && Accounted(multiset{req[m]})
      ensures |threads| == |old(threads)| && held[t] == old(held)[t][1..] && held == old(held)[t := held[t]]
      ensures old(held)[t] != [] && m == old(held)[t][0] && threads[t].free == old(threads)[t].free
    {
      hide Nodes, Load, Loads, Placed, Books, QueueOk, IsList, ThreadsOk;
      Lengths(next, threads, held, sent);
      UnlinkFirst(next, threads, held, sent, t);
      PlacedUnhold(|next|, free, queue, held, sent, t);
      BooksUnhold(req, accepted, delivered, queue, held, t);
      m := threads[t].first;
      threads := threads[t := Thread(next[m], threads[t].free)];
      held := held[t := held[t][1..]];
    }

    /** A message that a thread has sent goes to the thread's own free list. */
    method KeepSent(t: nat, m: nat)
      requires ListsOk() && PlacedWith(multiset{m}) && m < |req| && Accounted(multiset{req[m]}) && t < |threads|
      modifies this`next, this`threads, this`sent, this`delivered
      ensures Valid() && |threads| == |old(threads)| && delivered == old(delivered) + multiset{req[m]}
      ensures t < |old(sent)| && sent == old(sent)[t := [m] + old(sent)[t]]
    {
      hide Nodes, Load, Loads, Placed, Books, QueueIs, IsList, ThreadsOk, OnlyChanged;
      Lengths(next, threads, held, sent);
      LooseIsNowhere(|next|, m, free, queue, held, sent);
      ghost var before := next;
      OneChanged(next, m, threads[t].free);
      next := next[m := threads[t].free];
      MoveToSent(before, next, threads, held, sent, t, m);
      ListKeep(before, next, firstFree, free, m, m);
      QueueKeep(before, next, firstMsg, lastMsg, queue, m);
      PlacedSent(|next|, free, queue, held, sent, t, m);
      BooksSent(req, accepted, delivered, queue, held, req[m]);
      threads := threads[t := threads[t].(free := m)];
      sent := sent[t := [m] + sent[t]];
      delivered := delivered + multiset{req[m]};
    }

    /** A thread sends its next message; if that fails it keeps it. */
    method SendNext(t: nat, ok: bool)
      requires Valid() && t < |threads| && threads[t].first != NULL
      modifies this
      ensures Valid() && |threads| == |old(threads)| && accepted == old(accepted) && queue == old(queue)
      ensures !ok ==> held == old(held) && sent == old(sent) && delivered == old(delivered)
      ensures ok ==> t < |old(held)| && old(held)[t] != [] && held == old(held)[t := old(held)[t][1..]]
      ensures ok ==> t < |old(sent)| && sent == old(sent)[t := [old(held)[t][0]] + old(sent)[t]]
      ensures ok ==> old(held)[t][0] < |old(req)| && delivered == old(delivered) + multiset{old(req)[old(held)[t][0]]}
    {
      hide Nodes, Load, Loads, Placed, Books, QueueIs, IsList, ThreadsOk;
      if ok {
        Lengths(next, threads, held, sent);
        var m := Unhold(t);
        KeepSent(t, m);
      }
    }

    /** A thread returns one of the messages it has sent to the shared free list. */
    method FreeOne(t: nat)
      requires Valid() && t < |threads| && threads[t].free != NULL
      modifies this`next, this`firstFree, this`free, this`threads, this`sent
      ensures Valid() && |threads| == |old(threads)| && old(sent)[t] != []
      ensures sent == old(sent)[t := old(sent)[t][1..]] && free == [old(sent)[t][0]] + old(free)
      ensures forall u | 0 <= u < |threads| && u != t :: threads[u] == old(threads)[u]
    {
      hide Nodes, Load, Loads, Placed, Books, QueueIs, IsList, ThreadsOk, OnlyChanged;
      Lengths(next, threads, held, sent);
      UnlinkSent(next, threads, held, sent, t);
      PlacedUnsent(|next|, free, queue, held, sent, t);
      var m := threads[t].free;
      threads := threads[t := threads[t].(free := next[m])];
      sent := sent[t := sent[t][1..]];
      LooseIsNowhere(|next|, m, free, queue, held, sent);
      ghost var before := next;
      ListPush(next, firstFree, free, m);
      OneChanged(next, m, firstFree);
      next := next[m := firstFree];
      firstFree := m;
      ThreadsKeep(before, next, threads, held, sent, m, m);
      QueueKeep(before, next, firstMsg, lastMsg, queue, m);
      PlacedInFree(|next|, m, free, queue, held, sent);
      free := [m] + free;
    }

    /** At the end of a round a thread frees what it has sent and queues again what it has not. */
    method GiveBack(t: nat)
      requires Valid() && t < |threads|
      modifies this
      ensures Valid() && |threads| == |old(threads)| && held[t] == sent[t] == []
      ensures queue == old(queue) + old(held)[t] && accepted == old(accepted) && delivered == old(delivered)
    {
      hide Nodes, Load, Loads, Placed, Books, QueueIs, IsList;
      while threads[t].free != NULL
        invariant Valid() && |threads| == |old(threads)| && held == old(held) && queue == old(queue)
        invariant accepted == old(accepted) && delivered == old(delivered)
        decreases |sent[t]|
      {
        FreeOne(t);
      }
      assert ThreadOk(next, threads[t], held[t], sent[t]);
      ListHead(next, threads[t].free, sent[t]);
      while threads[t].first != NULL
        invariant Valid() && |threads| == |old(threads)| && sent[t] == []
        invariant accepted == old(accepted) && delivered == old(delivered)
        invariant queue + held[t] == old(queue) + old(held)[t]
        decreases |held[t]|
      {
        ghost var rest := held[t];
        var m := Unhold(t);
        QueueMsg(m);
        assert rest == [m] + rest[1..];
      }
      assert ThreadOk(next, threads[t], held[t], sent[t]);
      ListHead(next, threads[t].first, held[t]);
    }
  }

  lemma PlacedInQueue(n: nat, m: nat, free: seq<nat>, queue: seq<nat>, held: seq<seq<nat>>, sent: seq<seq<nat>>)
    requires Placed(n, multiset{m}, free, queue, held, sent)
    ensures Placed(n, multiset{}, free, queue + [m], held, sent)
  {
    forall x: nat ensures multiset(queue + [m])[x] == multiset(queue)[x] + multiset{m}[x] {
    }
  }

  /** Appending to an empty list, or after the last node of another. */
  lemma QueueEnds(next: seq<int>, head: int, s: seq<nat>, m: nat)
    requires IsList(next, head, s) && m < |next| && m !in s && Distinct(s)
    ensures head == NULL <==> s == []
    ensures s == [] ==> IsList(next[m := NULL], m, s + [m])
    ensures s != [] ==> s[|s| - 1] < |next| && IsList(next[m := NULL][s[|s| - 1] := m], head, s + [m])
  {
    if s != [] {
      ListAppend(next, head, s, m);
    }
  }
}
