/**
 Any number of threads getting connections from the pool and closing them. A get that misses under
 the read lock looks again under the write lock before it creates; a close detaches under the lock
 and closes outside it.
 */
module ClientPoolProtocol {
  import opened Sequences

  type NodeId = string
  type ConnId = nat

  datatype PC =
    | Idle
    | Getting(node: NodeId)
    | Creating(node: NodeId)
    | Got(node: NodeId, conn: ConnId)
    | Closing(conns: seq<ConnId>)

  /** `closes[c]` counts the closings of the c-th connection created. */
  datatype State = State(pool: map<NodeId, ConnId>, closes: seq<nat>, threads: seq<PC>)

  datatype Action =
    | Get(t: nat, node: NodeId)
    | ReadLocked(t: nat)
    | WriteLocked(t: nat, dialed: bool)
    | Detach(t: nat, node: NodeId)
    | DetachAll(t: nat, order: seq<NodeId>)
    | CloseOne(t: nat)
    | Done(t: nat)

  predicate Enabled(s: State, a: Action) {
    a.t < |s.threads| &&
    match a
    case Get(t, _) => s.threads[t].Idle?
    case ReadLocked(t) => s.threads[t].Getting?
    case WriteLocked(t, _) => s.threads[t].Creating?
    case Detach(t, _) => s.threads[t].Idle?
    case DetachAll(t, order) => s.threads[t].Idle? && Distinct(order) && (set node | node in order) == s.pool.Keys
    case CloseOne(t) => s.threads[t].Closing? && s.threads[t].conns != [] && s.threads[t].conns[0] < |s.closes|
    case Done(t) => s.threads[t].Got? || (s.threads[t].Closing? && s.threads[t].conns == [])
  }

  function Goto(s: State, t: nat, pc: PC): State
    requires t < |s.threads|
  {
    s.(threads := s.threads[t := pc])
  }

  function ConnsOf(pool: map<NodeId, ConnId>, order: seq<NodeId>): (conns: seq<ConnId>)
    requires forall node :: node in order ==> node in pool
    ensures |conns| == |order| && forall i :: 0 <= i < |order| ==> conns[i] == pool[order[i]]
  {
    seq(|order|, i requires 0 <= i < |order| => pool[order[i]])
  }

  function Next(s: State, a: Action): State
    requires Enabled(s, a)
  {
    match a
    case Get(t, node) => Goto(s, t, Getting(node))
    case ReadLocked(t) =>
      var node := s.threads[t].node;
      Goto(s, t, if node in s.pool then Got(node, s.pool[node]) else Creating(node))
    case WriteLocked(t, dialed) =>
      var node := s.threads[t].node;
      if node in s.pool then Goto(s, t, Got(node, s.pool[node]))
      else if !dialed then Goto(s, t, Idle)
      else State(s.pool[node := |s.closes|], s.closes + [0], s.threads[t := Got(node, |s.closes|)])
    case Detach(t, node) =>
      if node in s.pool then Goto(s, t, Closing([s.pool[node]])).(pool := s.pool - {node}) else s
    case DetachAll(t, order) => Goto(s, t, Closing(ConnsOf(s.pool, order))).(pool := map[])
    case CloseOne(t) =>
      var conns := s.threads[t].conns;
      Goto(s, t, Closing(conns[1..])).(closes := s.closes[conns[0] := s.closes[conns[0]] + 1])
    case Done(t) => Goto(s, t, Idle)
  }

  // ----- where a connection is

  ghost predicate Pooled(s: State, c: ConnId) {
    exists node :: node in s.pool && s.pool[node] == c
  }

  predicate Detached(s: State, t: nat, c: ConnId)
    requires t < |s.threads|
  {
    s.threads[t].Closing? && c in s.threads[t].conns
  }

  ghost predicate Condemned(s: State, c: ConnId) {
    exists t :: 0 <= t < |s.threads| && Detached(s, t, c)
  }

  ghost predicate Injective(pool: map<NodeId, ConnId>) {
    forall a, b :: a in pool && b in pool && pool[a] == pool[b] ==> a == b
  }

  /** In the pool and open, or detached and open, or closed once: always one of the three. */
  ghost predicate OneOfThree(s: State, c: ConnId)
    requires c < |s.closes|
  {
    && s.closes[c] <= 1
    && (Pooled(s, c) ==> !Condemned(s, c) && s.closes[c] == 0)
    && (Condemned(s, c) ==> s.closes[c] == 0)
    && (Pooled(s, c) || Condemned(s, c) || s.closes[c] == 1)
  }

  ghost predicate OneCloser(s: State) {
    && (forall t :: 0 <= t < |s.threads| && s.threads[t].Closing? ==> Distinct(s.threads[t].conns))
    && (forall t, u, c :: 0 <= t < |s.threads| && 0 <= u < |s.threads| && Detached(s, t, c) && Detached(s, u, c) ==> t == u)
  }

  ghost predicate Known(s: State) {
    && (forall node :: node in s.pool ==> s.pool[node] < |s.closes|)
    && (forall t, c: ConnId :: 0 <= t < |s.threads| && Detached(s, t, c) ==> c < |s.closes|)
  }

  ghost predicate Inv(s: State) {
    && Known(s) && Injective(s.pool) && OneCloser(s)
    && forall c :: 0 <= c < |s.closes| ==> OneOfThree(s, c)
  }

  /** The step moves nothing between pool, threads and closed. */
  lemma QuietKeepsInv(s: State, s': State)
    requires Inv(s) && s'.pool == s.pool && s'.closes == s.closes && |s'.threads| == |s.threads|
    requires forall t, c: ConnId :: 0 <= t < |s.threads| ==> (Detached(s', t, c) <==> Detached(s, t, c))
    requires forall t :: 0 <= t < |s.threads| && s'.threads[t].Closing? ==> s'.threads[t] == s.threads[t]
    ensures Inv(s')
  {
    forall c | 0 <= c < |s'.closes| ensures OneOfThree(s', c) {
      assert OneOfThree(s, c);
      assert Condemned(s', c) <==> Condemned(s, c);
      assert Pooled(s', c) <==> Pooled(s, c);
    }
  }

  lemma CreateKeepsInv(s: State, t: nat)
    requires Inv(s) && t < |s.threads| && s.threads[t].Creating? && s.threads[t].node !in s.pool
    ensures Inv(Next(s, WriteLocked(t, true)))
  {
    var s', node := Next(s, WriteLocked(t, true)), s.threads[t].node;
    assert forall u, c: ConnId :: 0 <= u < |s.threads| ==> (Detached(s', u, c) <==> Detached(s, u, c));
    forall c | 0 <= c < |s'.closes| ensures OneOfThree(s', c) {
      assert s'.pool[node] == |s.closes|;
      assert Condemned(s', c) <==> Condemned(s, c);
      if c < |s.closes| {
        assert OneOfThree(s, c);
        if k :| k in s.pool && s.pool[k] == c {
          assert k in s'.pool && s'.pool[k] == c;
        }
      }
    }
  }

  lemma DetachKeepsInv(s: State, t: nat, node: NodeId)
    requires Inv(s) && t < |s.threads| && s.threads[t].Idle? && node in s.pool
    ensures Inv(Next(s, Detach(t, node)))
  {
    var s', mine := Next(s, Detach(t, node)), s.pool[node];
    assert OneOfThree(s, mine) && Pooled(s, mine) && Detached(s', t, mine);
    assert forall u, c: ConnId :: 0 <= u < |s.threads| ==> (Detached(s', u, c) <==> Detached(s, u, c) || (u == t && c == mine));
    forall c | 0 <= c < |s'.closes| ensures OneOfThree(s', c) {
      assert OneOfThree(s, c);
      if c != mine {
        assert Condemned(s', c) <==> Condemned(s, c);
        if k :| k in s.pool && s.pool[k] == c {
          assert k in s'.pool && s'.pool[k] == c;
        }
      }
    }
  }

  lemma DetachAllKeepsInv(s: State, t: nat, order: seq<NodeId>)
    requires Inv(s) && Enabled(s, DetachAll(t, order))
    ensures Inv(Next(s, DetachAll(t, order)))
  {
    var s', conns := Next(s, DetachAll(t, order)), ConnsOf(s.pool, order);
    forall c: ConnId ensures c in conns <==> Pooled(s, c) {
      if k :| k in s.pool && s.pool[k] == c {
        assert k in order;
        var i :| 0 <= i < |order| && order[i] == k;
        assert conns[i] == c;
      }
      if c in conns {
        var i :| 0 <= i < |conns| && conns[i] == c;
        assert order[i] in s.pool && s.pool[order[i]] == c;
      }
    }
    forall i, j | 0 <= i < j < |conns| ensures conns[i] != conns[j] {
      assert order[i] in s.pool && order[j] in s.pool;
    }
    assert forall u, c: ConnId :: 0 <= u < |s.threads| ==> (Detached(s', u, c) <==> Detached(s, u, c) || (u == t && Pooled(s, c)));
    forall u, v, c: ConnId | 0 <= u < |s.threads| && 0 <= v < |s.threads| && Detached(s', u, c) && Detached(s', v, c) ensures u == v {
      assert c < |s.closes| && OneOfThree(s, c);
    }
    forall c | 0 <= c < |s'.closes| ensures OneOfThree(s', c) {
      assert OneOfThree(s, c);
      assert Pooled(s, c) ==> Detached(s', t, c);
      assert Condemned(s', c) <==> Condemned(s, c) || Pooled(s, c);
    }
  }

  lemma CloseOneReleases(s: State, t: nat, u: nat, c: ConnId)
    requires Inv(s) && Enabled(s, CloseOne(t)) && u < |s.threads|
    ensures Detached(Next(s, CloseOne(t)), u, c) <==> Detached(s, u, c) && c != s.threads[t].conns[0]
  {
    var conns := s.threads[t].conns;
    assert conns == [conns[0]] + conns[1..] && Detached(s, t, conns[0]);
    if u == t {
      forall i | 0 <= i < |conns[1..]| ensures conns[1..][i] != conns[0] {
        assert conns[1..][i] == conns[i + 1];
      }
    }
  }

  lemma CloseOneKeepsInv(s: State, t: nat)
    requires Inv(s) && Enabled(s, CloseOne(t))
    ensures Inv(Next(s, CloseOne(t)))
  {
    var s', mine := Next(s, CloseOne(t)), s.threads[t].conns[0];
    assert Detached(s, t, mine) && s'.threads[t].conns == s.threads[t].conns[1..];
    forall u, c: ConnId | 0 <= u < |s.threads| ensures Detached(s', u, c) <==> Detached(s, u, c) && c != mine {
      CloseOneReleases(s, t, u, c);
    }
    forall c | 0 <= c < |s'.closes| ensures OneOfThree(s', c) {
      assert OneOfThree(s, c);
      assert Pooled(s', c) <==> Pooled(s, c);
      assert c != mine ==> (Condemned(s', c) <==> Condemned(s, c));
    }
  }

  lemma NextKeepsInv(s: State, a: Action)
    requires Inv(s) && Enabled(s, a)
    ensures Inv(Next(s, a))
  {
    if a.WriteLocked? && a.dialed && s.threads[a.t].node !in s.pool {
      CreateKeepsInv(s, a.t);
    } else if a.Detach? && a.node in s.pool {
      DetachKeepsInv(s, a.t, a.node);
    } else if a.DetachAll? {
      DetachAllKeepsInv(s, a.t, a.order);
    } else if a.CloseOne? {
      CloseOneKeepsInv(s, a.t);
    } else {
      QuietKeepsInv(s, Next(s, a));
    }
  }

  // ----- whole runs

  ghost predicate Run(s: State, xs: seq<Action>, s': State)
    decreases |xs|
  {
    if xs == [] then s' == s else Enabled(s, xs[0]) && Run(Next(s, xs[0]), xs[1..], s')
  }

  lemma {:induction false} RunKeepsInv(s: State, xs: seq<Action>, s': State)
    requires Inv(s) && Run(s, xs, s')
    ensures Inv(s')
    decreases |xs|
  {
    if xs != [] {
      NextKeepsInv(s, xs[0]);
      RunKeepsInv(Next(s, xs[0]), xs[1..], s');
    }
  }

  function Init(threads: nat): State {
    State(map[], [], seq(threads, t => Idle))
  }

  /** Every connection ever created is in the pool, or detached by one thread, or closed, and closed once. */
  lemma EveryConnectionIsAccountedFor(n: nat, xs: seq<Action>, s: State, c: ConnId)
    requires Run(Init(n), xs, s) && c < |s.closes|
    ensures (Pooled(s, c) && !Condemned(s, c) && s.closes[c] == 0)
         || (!Pooled(s, c) && Condemned(s, c) && s.closes[c] == 0)
         || (!Pooled(s, c) && !Condemned(s, c) && s.closes[c] == 1)
    ensures OneCloser(s)
  {
    assert Inv(Init(n));
    RunKeepsInv(Init(n), xs, s);
    assert OneOfThree(s, c);
  }

  predicate Closes(a: Action, node: NodeId) {
    a.DetachAll? || (a.Detach? && a.node == node)
  }

  /** A get ends, with a connection unless there is none and dialling fails; what is dialled is pooled, open, and new. */
  lemma GetEnds(s: State, a: Action)
    requires Enabled(s, a) && a.WriteLocked?
    ensures var s', node := Next(s, a), s.threads[a.t].node;
      && (s'.threads[a.t].Got? <==> node in s.pool || a.dialed)
      && (!s'.threads[a.t].Got? ==> s' == s.(threads := s.threads[a.t := Idle]))
      && (s'.threads[a.t].Got? ==> s'.threads[a.t].node == node && node in s'.pool && s'.pool[node] == s'.threads[a.t].conn)
      && (node !in s.pool && a.dialed ==> s'.threads[a.t].conn == |s.closes| < |s'.closes| && s'.closes[|s.closes|] == 0)
  {
  }

  lemma GetReturnsPooled(s: State, a: Action)
    requires Enabled(s, a) && (a.ReadLocked? || a.WriteLocked?) && Next(s, a).threads[a.t].Got?
    ensures var got := Next(s, a).threads[a.t];
      got.node in Next(s, a).pool && Next(s, a).pool[got.node] == got.conn
  {
  }

  /** The step ends a get for the node with a connection. */
  predicate Gets(s: State, a: Action, node: NodeId) {
    && Enabled(s, a) && (a.ReadLocked? || a.WriteLocked?)
    && Next(s, a).threads[a.t].Got? && Next(s, a).threads[a.t].node == node
  }

  /** While nobody closes a node's connection, it stays the pooled one. */
  lemma {:induction false} StaysPooled(s: State, xs: seq<Action>, s': State, node: NodeId)
    requires node in s.pool && Run(s, xs, s') && forall x :: x in xs ==> !Closes(x, node)
    ensures node in s'.pool && s'.pool[node] == s.pool[node]
    decreases |xs|
  {
    if xs != [] {
      assert xs[0] in xs;
      StaysPooled(Next(s, xs[0]), xs[1..], s', node);
    }
  }

  lemma {:induction false} NeverPooledAgain(s: State, xs: seq<Action>, s': State, c: ConnId)
    requires Run(s, xs, s') && c < |s.closes| && !Pooled(s, c)
    ensures c < |s'.closes| && !Pooled(s', c)
    decreases |xs|
  {
    if xs != [] {
      var next := Next(s, xs[0]);
      assert forall node :: node in next.pool && next.pool[node] == c ==> node in s.pool && s.pool[node] == c;
      NeverPooledAgain(next, xs[1..], s', c);
    }
  }

  /** Once somebody has closed a node's connection, it is not in the pool under any node. */
  lemma {:induction false} ClosedLeavesPool(s: State, xs: seq<Action>, s': State, node: NodeId)
    requires Inv(s) && node in s.pool && Run(s, xs, s') && exists x :: x in xs && Closes(x, node)
    ensures s.pool[node] < |s'.closes| && !Pooled(s', s.pool[node])
    decreases |xs|
  {
    var next, c := Next(s, xs[0]), s.pool[node];
    if Closes(xs[0], node) {
      assert forall k :: k in next.pool ==> k in s.pool && s.pool[k] == next.pool[k] && k != node;
      NeverPooledAgain(next, xs[1..], s', c);
    } else {
      NextKeepsInv(s, xs[0]);
      var x :| x in xs && Closes(x, node);
      assert xs == [xs[0]] + xs[1..] && x in xs[1..];
      ClosedLeavesPool(next, xs[1..], s', node);
    }
  }

  /** Two gets for a node that end in one run give the same connection exactly if nobody closes that node's in between. */
  lemma GetsAgreeIff(n: nat, xs: seq<Action>, s: State, a: Action, ys: seq<Action>, s': State, b: Action, node: NodeId)
    requires Run(Init(n), xs, s) && Gets(s, a, node)
    requires Run(Next(s, a), ys, s') && Gets(s', b, node)
    ensures Next(s, a).threads[a.t].conn == Next(s', b).threads[b.t].conn <==> forall y :: y in ys ==> !Closes(y, node)
  {
    assert Inv(Init(n));
    RunKeepsInv(Init(n), xs, s);
    NextKeepsInv(s, a);
    GetReturnsPooled(s, a);
    GetReturnsPooled(s', b);
    if forall y :: y in ys ==> !Closes(y, node) {
      StaysPooled(Next(s, a), ys, s', node);
    } else {
      var c := Next(s, a).pool[node];
      ClosedLeavesPool(Next(s, a), ys, s', node);
      assert Run(Next(s', b), [], Next(s', b)) && [b][1..] == [];
      NeverPooledAgain(s', [b], Next(s', b), c);
    }
  }
}
