/** The pool of connections to nodes: created on demand under a double check, detached under the lock, closed outside it. */
module ClientPool {

  type NodeId = string

  class Conn {
    const node: NodeId
    var open: bool

    constructor (node: NodeId)
      ensures this.node == node && open
    {
      this.node := node;
      open := true;
    }

    method Close()
      modifies this
      ensures !open
    {
      open := false;
    }
  }

  class ConnectClientPool {
    var clients: map<NodeId, Conn>

    constructor ()
      ensures clients == map[]
    {
      clients := map[];
    }

    /** `dialed` is whether creating a connection succeeds. */
    method GetClient(node: NodeId, dialed: bool) returns (c: Conn?)
      modifies this
      ensures node in old(clients) ==> c == old(clients)[node] && clients == old(clients)
      ensures node !in old(clients) && !dialed ==> c == null && clients == old(clients)
      ensures node !in old(clients) && dialed ==>
        c != null && fresh(c) && c.open && c.node == node && clients == old(clients)[node := c]
    {
      if node in clients {
        return clients[node];
      }
      if !dialed {
        return null;
      }
      c := new Conn(node);
      clients := clients[node := c];
    }

    method CloseClient(node: NodeId)
      modifies this, if node in clients then {clients[node]} else {}
      ensures clients == old(clients) - {node}
      ensures node in old(clients) ==> !old(clients)[node].open
    {
      if node in clients {
        var entry := clients[node];
        clients := clients - {node};
        entry.Close();
      }
    }

    ghost function Conns(): set<Conn>
      reads this
    {
      set node | node in clients :: clients[node]
    }

    /** Empties the pool, then closes what was in it. */
    method CloseAll()
      modifies this, Conns()
      ensures clients == map[]
      ensures forall node :: node in old(clients) ==> !old(clients)[node].open
    {
      var entries := Drain();
      assert forall c :: c in entries ==> c in old(Conns());
      CloseEach(entries);
    }

    /** Takes everything out of the pool, one by one. */
    method Drain() returns (entries: seq<Conn>)
      modifies this
      ensures clients == map[]
      ensures forall node :: node in old(clients) ==> old(clients)[node] in entries
      ensures forall c :: c in entries ==> exists node :: node in old(clients) && old(clients)[node] == c
    {
      ghost var all := clients;
      entries := [];
      while clients.Keys != {}
        invariant forall node :: node in clients ==> node in all && clients[node] == all[node]
        invariant forall node :: node in all && node !in clients ==> all[node] in entries
        invariant forall c :: c in entries ==> exists node :: node in all && all[node] == c
        decreases |clients.Keys|
      {
        var node :| node in clients.Keys;
        entries := entries + [clients[node]];
        clients := clients - {node};
      }
    }
  }

  method CloseEach(entries: seq<Conn>)
    modifies entries
    ensures forall c :: c in entries ==> !c.open
  {
    for i := 0 to |entries|
      invariant forall j :: 0 <= j < i ==> !entries[j].open
    {
      entries[i].Close();
    }
  }
}
