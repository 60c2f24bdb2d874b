/**
 One room in memory: a list of nodes in join order, and an index from user to node.
 A rejoin changes the node in place, so the list sees it through the index.
 */
module Room {
  import opened Option
  import opened Roster
  import opened RoomSpec
  import opened SendQueue

  type Chan = SendQueue?

  class RoomNode {
    const userID: UserId
    var send: Chan

    constructor (userID: UserId, send: Chan)
      ensures this.userID == userID && this.send == send
    {
      this.userID := userID;
      this.send := send;
    }
  }

  /** The list read off node by node. */
  ghost function EntriesOf(nodes: seq<RoomNode>): (rs: seq<Entry<Chan>>)
    reads nodes
    ensures |rs| == |nodes|
    ensures forall i :: 0 <= i < |nodes| ==> rs[i] == Entry(nodes[i].userID, nodes[i].send)
  {
    seq(|nodes|, i requires 0 <= i < |nodes| reads nodes => Entry(nodes[i].userID, nodes[i].send))
  }

  /** List and index agree: one node per user, and the index finds exactly it. */
  predicate Linked(nodes: seq<RoomNode>, index: map<UserId, RoomNode>) {
    && (forall i, j :: 0 <= i < j < |nodes| ==> nodes[i].userID != nodes[j].userID)
    && (forall i :: 0 <= i < |nodes| ==> nodes[i].userID in index && index[nodes[i].userID] == nodes[i])
    && (forall u :: u in index ==> index[u] in nodes && index[u].userID == u)
  }

  /** The list after its element `node` is removed. */
  function Removed(nodes: seq<RoomNode>, node: RoomNode): seq<RoomNode> {
    if nodes == [] then []
    else if nodes[0] == node then nodes[1..]
    else [nodes[0]] + Removed(nodes[1..], node)
  }

  lemma {:induction false} RemovedAt(nodes: seq<RoomNode>, i: nat)
    requires i < |nodes| && forall a, b :: 0 <= a < b < |nodes| ==> nodes[a].userID != nodes[b].userID
    ensures Removed(nodes, nodes[i]) == nodes[..i] + nodes[i + 1..]
  {
    if i > 0 {
      RemovedAt(nodes[1..], i - 1);
      assert nodes == [nodes[0]] + nodes[1..];
      assert nodes[..i] + nodes[i + 1..] == [nodes[0]] + (nodes[1..][..i - 1] + nodes[1..][i..]);
    }
  }

  lemma UnlinkKeepsLinked(nodes: seq<RoomNode>, index: map<UserId, RoomNode>, i: nat)
    requires Linked(nodes, index) && i < |nodes|
    ensures Linked(nodes[..i] + nodes[i + 1..], index - {nodes[i].userID})
  {
    var rest, index' := nodes[..i] + nodes[i + 1..], index - {nodes[i].userID};
    forall u | u in index' ensures index'[u] in rest {
      var j :| 0 <= j < |nodes| && nodes[j] == index[u];
      assert rest[if j < i then j else j - 1] == index[u];
    }
  }

  lemma EntriesWithout(nodes: seq<RoomNode>, i: nat)
    requires i < |nodes|
    ensures EntriesOf(nodes[..i] + nodes[i + 1..]) == EntriesOf(nodes)[..i] + EntriesOf(nodes)[i + 1..]
  {
  }

  /** How many of `targets` are the queue `q`. */
  ghost function Copies(targets: seq<Chan>, q: SendQueue): nat {
    if targets == [] then 0 else (if targets[0] == q then 1 else 0) + Copies(targets[1..], q)
  }

  class Room {
    var members: seq<RoomNode>
    var index: map<UserId, RoomNode>
    ghost var Repr: set<object>

    ghost predicate Valid()
      reads this, Repr
      ensures Valid() ==> this in Repr
    {
      && this in Repr
      && (forall i :: 0 <= i < |members| ==> members[i] in Repr)
      && Linked(members, index)
    }

    ghost function Entries(): (rs: seq<Entry<Chan>>)
      reads this, Repr
      requires Valid()
      ensures Unique(rs)
    {
      EntriesOf(members)
    }

    constructor ()
      ensures Valid() && fresh(Repr) && Entries() == []
    {
      members := [];
      index := map[];
      Repr := {this};
    }

    lemma AbsentFromIndex(userID: UserId)
      requires Valid() && userID !in index
      ensures Absent(Entries(), userID)
    {
    }

    /** A member gets the new channel and keeps the place; anyone else goes to the back. */
    method Join(userID: UserId, send: Chan)
      requires Valid()
      modifies Repr
      ensures Valid() && fresh(Repr - old(Repr))
      ensures Entries() == Joined(old(Entries()), userID, send)
    {
      if userID in index {
        var node := index[userID];
        ghost var i :| 0 <= i < |members| && members[i] == node;
        JoinedAt(Entries(), i, send);
        ghost var before := Entries();
        node.send := send;
        assert Entries() == before[i := Entry(userID, send)];
      } else {
        AbsentFromIndex(userID);
        JoinedNew(Entries(), userID, send);
        Append(userID, send);
      }
    }

    method Append(userID: UserId, send: Chan)
      requires Valid() && userID !in index
      modifies this
      ensures Valid() && fresh(Repr - old(Repr))
      ensures Entries() == old(Entries()) + [Entry(userID, send)]
    {
      ghost var before := Entries();
      var node := new RoomNode(userID, send);
      members := members + [node];
      index := index[userID := node];
      Repr := Repr + {node};
      assert Entries() == before + [Entry(userID, send)];
    }

    /** Removes the user, if served on `only` (or on any channel when that is null); tells whether nobody is left. */
    method Leave(userID: UserId, only: Chan) returns (empty: bool)
      requires Valid()
      modifies this`members, this`index
      ensures Valid()
      ensures Entries() == Left(old(Entries()), userID, if only == null then None else Some(only))
      ensures empty <==> Entries() == []
    {
      if userID !in index {
        AbsentFromIndex(userID);
        LeftAbsent(Entries(), userID, if only == null then None else Some(only));
        return |members| == 0;
      }
      var node := index[userID];
      ghost var i :| 0 <= i < |members| && members[i] == node;
      LeftAt(Entries(), i, if only == null then None else Some(only));
      if only != null && node.send != only {
        return |members| == 0;
      }
      Unlink(node, i);
      empty := |members| == 0;
    }

    /** Takes the node out of list and index. */
    method Unlink(node: RoomNode, ghost i: nat)
      requires Valid() && i < |members| && members[i] == node
      modifies this`members, this`index
      ensures Valid()
      ensures Entries() == old(Entries()[..i] + Entries()[i + 1..])
    {
      RemovedAt(members, i);
      UnlinkKeepsLinked(members, index, i);
      EntriesWithout(members, i);
      members := Removed(members, node);
      index := index - {node.userID};
    }

    /** Sends to a copy of the member list, skipping whoever is full. */
    method Broadcast(fromUserID: UserId, payload: Payload) returns (sent: nat)
      requires Valid() && QueuesValid(Targets(Entries(), fromUserID))
      modifies Targets(Entries(), fromUserID)
      ensures QueuesValid(old(Targets(Entries(), fromUserID)))
      ensures forall q: SendQueue :: q in old(Targets(Entries(), fromUserID)) ==>
        q.items == Filled(old(q.items), q.capacity, payload, Copies(old(Targets(Entries(), fromUserID)), q))
      ensures sent == Accepted(old(Targets(Entries(), fromUserID)), old(Sizes(Targets(Entries(), fromUserID))))
    {
      ghost var rs, all := Entries(), Targets(Entries(), fromUserID);
      var targets: seq<Chan> := [];
      for i := 0 to |members|
        invariant all == targets + Targets(rs[i..], fromUserID)
      {
        assert rs[i..][1..] == rs[i + 1..];
        if members[i].userID != fromUserID {
          targets := targets + [members[i].send];
        }
      }
      assert rs[|members|..] == [] && targets == all;
      sent := SendAll(targets, payload);
    }
  }

  ghost predicate QueuesValid(targets: seq<Chan>)
    reads targets
  {
    forall q: SendQueue :: q in targets ==> q.Valid()
  }

  ghost function Sizes(targets: seq<Chan>): map<SendQueue, nat>
    reads targets
  {
    map q: SendQueue | q in targets :: |q.items|
  }

  /** How many of the sends go through, when the queues hold `sizes` items at first. */
  ghost function Accepted(targets: seq<Chan>, sizes: map<SendQueue, nat>): nat {
    if targets == [] then 0
    else
      var front, last := targets[..|targets| - 1], targets[|targets| - 1];
      Accepted(front, sizes) +
      (if last != null && last in sizes && sizes[last] + Copies(front, last) < last.capacity then 1 else 0)
  }

  lemma {:induction false} CopiesOneMore(targets: seq<Chan>, c: Chan, q: SendQueue)
    ensures Copies(targets + [c], q) == Copies(targets, q) + (if c == q then 1 else 0)
  {
    if targets != [] {
      assert (targets + [c])[1..] == targets[1..] + [c];
      CopiesOneMore(targets[1..], c, q);
    }
  }

  lemma {:induction false} FilledOneMore(items: seq<Payload>, capacity: nat, p: Payload, copies: nat)
    requires |items| <= capacity
    ensures Filled(items, capacity, p, copies + 1)
         == if |items| + copies < capacity then Filled(items, capacity, p, copies) + [p] else Filled(items, capacity, p, copies)
    decreases copies
  {
    if copies > 0 && |items| < capacity {
      FilledOneMore(items + [p], capacity, p, copies - 1);
    }
  }

  predicate NoneTwice(targets: seq<Chan>) {
    forall i, j :: 0 <= i < j < |targets| && targets[i] != null ==> targets[i] != targets[j]
  }

  lemma {:induction false} CopiesOfAbsent(targets: seq<Chan>, q: SendQueue)
    requires q !in targets
    ensures Copies(targets, q) == 0
  {
    if targets != [] {
      CopiesOfAbsent(targets[1..], q);
    }
  }

  /** With a channel per member, every queue gets one copy or none, and the count is the number of queues with room. */
  lemma {:induction false} OneCopyEach(targets: seq<Chan>, sizes: map<SendQueue, nat>)
    requires NoneTwice(targets) && forall q: SendQueue :: q in targets ==> q in sizes
    ensures forall q: SendQueue :: q in targets ==> Copies(targets, q) == 1
    ensures Accepted(targets, sizes) == |set q: SendQueue | q in targets && sizes[q] < q.capacity|
  {
    var open' := set q: SendQueue | q in targets && sizes[q] < q.capacity;
    if targets != [] {
      var front, last := targets[..|targets| - 1], targets[|targets| - 1];
      assert targets == front + [last];
      OneCopyEach(front, sizes);
      var open := set q: SendQueue | q in front && sizes[q] < q.capacity;
      forall q: SendQueue | q in targets ensures Copies(targets, q) == 1 {
        CopiesOneMore(front, last, q);
        if q !in front {
          CopiesOfAbsent(front, q);
        }
      }
      if last != null {
        CopiesOfAbsent(front, last);
        assert open' == if sizes[last] < last.capacity then open + {last} else open;
      } else {
        assert open' == open;
      }
    } else {
      assert open' == {};
    }
  }

  /**
   When the members' channels differ, a broadcast reports exactly the number of the other members'
   queues that had room, each of which gets one copy, and never touches the sender's.
   */
  lemma BroadcastCountsQueues(rs: seq<Entry<Chan>>, from: UserId, sizes: map<SendQueue, nat>)
    requires forall i, j :: 0 <= i < j < |rs| ==> rs[i].send != rs[j].send
    requires forall q: SendQueue :: q in Targets(rs, from) ==> q in sizes
    ensures var targets := Targets(rs, from);
      && Accepted(targets, sizes) == |set q: SendQueue | q in targets && sizes[q] < q.capacity|
      && (forall q: SendQueue :: q in targets ==> Copies(targets, q) == 1)
      && (Find(rs, from).Some? ==> Find(rs, from).value !in targets)
  {
    TargetsDiffer(rs, from);
    OneCopyEach(Targets(rs, from), sizes);
  }

  /** Each queue has what it held and a copy per send so far, as far as there was room. */
  ghost predicate Sent(targets: seq<Chan>, held: map<SendQueue, seq<Payload>>, payload: Payload, n: nat)
    requires n <= |targets|
    reads targets
  {
    forall q: SendQueue :: q in targets ==>
      q in held && q.Valid() && q.items == Filled(held[q], q.capacity, payload, Copies(targets[..n], q))
  }

  method SendOne(q: SendQueue, payload: Payload,
                 ghost targets: seq<Chan>, ghost held: map<SendQueue, seq<Payload>>, ghost n: nat) returns (ok: bool)
    requires n < |targets| && targets[n] == q && Sent(targets, held, payload, n)
    modifies q
    ensures Sent(targets, held, payload, n + 1)
    ensures ok <==> |held[q]| + Copies(targets[..n], q) < q.capacity
  {
    assert targets[..n + 1] == targets[..n] + [q];
    forall k: SendQueue | k in targets ensures Copies(targets[..n + 1], k) == Copies(targets[..n], k) + (if q == k then 1 else 0) {
      CopiesOneMore(targets[..n], q, k);
    }
    FilledOneMore(held[q], q.capacity, payload, Copies(targets[..n], q));
    ok := q.TrySend(payload);
  }

  lemma SkipNull(targets: seq<Chan>, held: map<SendQueue, seq<Payload>>, payload: Payload, n: nat)
    requires n < |targets| && targets[n] == null && Sent(targets, held, payload, n)
    ensures Sent(targets, held, payload, n + 1)
  {
    assert targets[..n + 1] == targets[..n] + [null];
    forall k: SendQueue | k in targets ensures Copies(targets[..n + 1], k) == Copies(targets[..n], k) {
      CopiesOneMore(targets[..n], null, k);
    }
  }

  method SendAll(targets: seq<Chan>, payload: Payload) returns (sent: nat)
    requires QueuesValid(targets)
    modifies targets
    ensures QueuesValid(targets)
    ensures forall q: SendQueue :: q in targets ==>
      q.items == Filled(old(q.items), q.capacity, payload, Copies(targets, q))
    ensures sent == Accepted(targets, old(Sizes(targets)))
  {
    sent := 0;
    ghost var sizes := Sizes(targets);
    ghost var held := map q: SendQueue | q in targets :: q.items;
    for i := 0 to |targets|
      invariant Sent(targets, held, payload, i)
      invariant sent == Accepted(targets[..i], sizes)
    {
      var q := targets[i];
      assert targets[..i + 1][..i] == targets[..i];
      if q != null {
        var ok := SendOne(q, payload, targets, held, i);
        if ok {
          sent := sent + 1;
        }
      } else {
        SkipNull(targets, held, payload, i);
      }
    }
    assert targets[..|targets|] == targets;
  }
}
