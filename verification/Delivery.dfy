/**
 A group message on its way to the queues: the plan made in one process, carried out
 by each node on its own table of clients.
 */
module Delivery {
  import opened Sequences
  import Fanout
  import opened Connections
  import opened SendQueue

  /** What the call to `node` finds there. */
  function Called(users: seq<int>, routes: Fanout.Routes, sender: int, node: string, table: map<int, Client>): seq<SendQueue> {
    var plan := Fanout.PlanFor(users, routes, sender);
    if node in plan then Queues(Present(plan[node], table)) else []
  }

  /**
   On every node, a user's queue is offered the message if the user is a member routed to that node
   and not the sender, and then once; and of all nodes that is one at most.
   */
  lemma FanoutOffersOnce(users: seq<int>, routes: Fanout.Routes, sender: int, node: string, table: map<int, Client>, u: int)
    requires Distinct(users) && OwnQueues(table) && u in table
    ensures Distinct(Called(users, routes, sender, node, table))
    ensures table[u].send in Called(users, routes, sender, node, table)
       <==> u in users && u != sender && Fanout.OnNode(routes, u, node)
  {
    Fanout.PlanIsExact(users, routes, sender);
    var plan := Fanout.PlanFor(users, routes, sender);
    assert node in plan && u in plan[node] <==> u in users && u != sender && Fanout.OnNode(routes, u, node);
    if node in plan {
      PushOffersOnce(plan[node], table);
    }
  }

  /** So each queue of a node grows by one copy or by none, by one exactly if its user is meant, not refused, and has room. */
  lemma FanoutDeliversAtMostOnce(
    users: seq<int>, routes: Fanout.Routes, sender: int, node: string, table: map<int, Client>,
    refuse: seq<bool>, held: Contents, u: int)
    requires Distinct(users) && OwnQueues(table) && u in table
    requires |refuse| == |Called(users, routes, sender, node, table)|
    requires forall q :: q in Called(users, routes, sender, node, table) ==> q in held
    ensures var targets, q := Called(users, routes, sender, node, table), table[u].send;
      AdmittedBefore(targets, refuse, held, |targets|, q) ==
        if u in users && u != sender && Fanout.OnNode(routes, u, node) && q in held && |held[q]| < q.capacity &&
           (exists i :: 0 <= i < |targets| && targets[i] == q && !refuse[i])
        then 1 else 0
  {
    var targets, q := Called(users, routes, sender, node, table), table[u].send;
    FanoutOffersOnce(users, routes, sender, node, table, u);
    AtMostOneCopy(targets, refuse, held, |targets|, q);
  }
}
