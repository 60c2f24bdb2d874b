/** The connections of one node: the client table, closing, and the pushes that look clients up in it. */
module Connections {
  import opened Option
  import opened Sequences
  import opened Roster
  import opened RoomSpec
  import opened SendQueue
  import Registry = RoomManager

  // ----- the locked sections, on any kind of client

  /** Puts `c` in and says whom it displaced. */
  function Admit<C(==)>(table: map<UserId, C>, u: UserId, c: C): (map<UserId, C>, Option<C>) {
    (table[u := c], if u in table && table[u] != c then Some(table[u]) else None)
  }

  /** Takes the entry out if it is `only`; `None` takes out whatever is there. */
  function Withdraw<C(==)>(table: map<UserId, C>, u: UserId, only: Option<C>): (map<UserId, C>, Option<C>) {
    if u !in table || (only.Some? && table[u] != only.value) then (table, None)
    else (table - {u}, Some(table[u]))
  }

  // ----- the code

  /** The keys of a map iteration, in the arbitrary order the runtime takes them. */
  method Listed<K(==)>(keys: set<K>) returns (ids: seq<K>)
    ensures forall r :: r in ids <==> r in keys
    ensures Distinct(ids)
  {
    ids := [];
    var todo := keys;
    while todo != {}
      invariant todo <= keys && Distinct(ids)
      invariant forall r :: r in ids <==> r in keys - todo
      decreases |todo|
    {
      var key :| key in todo;
      assert key !in ids;
      ids := ids + [key];
      todo := todo - {key};
    }
  }

  function Among(ids: seq<RoomId>): set<RoomId> {
    set r | r in ids
  }

  class Client {
    const userID: UserId
    const send: SendQueue
    var rooms: set<RoomId>
    var once: bool
    var done: bool
    var connOpen: bool

    ghost predicate Valid()
      reads this, send
    {
      send.Valid() && once == done && connOpen == !done
    }

    constructor (userID: UserId, send: SendQueue)
      requires send.Valid()
      ensures Valid() && !done && rooms == {} && this.userID == userID && this.send == send
    {
      this.userID := userID;
      this.send := send;
      rooms := {};
      once, done, connOpen := false, false, true;
    }

    method AddRoom(room: RoomId)
      modifies this`rooms
      ensures rooms == old(rooms) + {room}
    {
      rooms := rooms + {room};
    }

    method RemoveRoom(room: RoomId)
      modifies this`rooms
      ensures rooms == old(rooms) - {room}
    {
      rooms := rooms - {room};
    }

    /** Empties the set of rooms, under its lock, and lists what was in it. */
    method TakeRooms() returns (ids: seq<RoomId>)
      modifies this`rooms
      ensures rooms == {} && Among(ids) == old(rooms)
      ensures Distinct(ids)
    {
      ids := Listed(rooms);
      assert Among(ids) == rooms;
      rooms := {};
    }

    method LeaveAllRooms(manager: Registry.RoomManager)
      requires manager.Valid() && this !in manager.Repr
      modifies this`rooms, manager.Repr
      ensures manager.Valid() && manager.Repr == old(manager.Repr) && rooms == {}
      ensures manager.View() == LeftAll(old(manager.View()), old(rooms), userID, send)
    {
      ghost var view := manager.View();
      var ids := TakeRooms();
      LeaveEach(ids, manager);
      assert manager.View() == LeftAll(view, Among(ids), userID, send);
    }

    method LeaveEach(ids: seq<RoomId>, manager: Registry.RoomManager)
      requires manager.Valid() && Distinct(ids)
      modifies manager.Repr
      ensures manager.Valid() && manager.Repr == old(manager.Repr)
      ensures manager.View() == LeftAll(old(manager.View()), Among(ids), userID, send)
    {
      ghost var view := manager.View();
      assert Among([]) == {} && LeftAll(view, {}, userID, send) == view;
      for i := 0 to |ids|
        invariant manager.Valid() && manager.Repr == old(manager.Repr)
        invariant manager.View() == LeftAll(view, Among(ids[..i]), userID, send)
      {
        LeaveNext(ids, i, manager, view);
      }
      assert ids[..|ids|] == ids;
    }

    method LeaveNext(ids: seq<RoomId>, i: nat, manager: Registry.RoomManager, ghost view: Rooms<Registry.Chan>)
      requires manager.Valid() && i < |ids| && ids[i] !in ids[..i]
      requires forall r :: r in view ==> view[r] != []
      requires manager.View() == LeftAll(view, Among(ids[..i]), userID, send)
      modifies manager.Repr
      ensures manager.Valid() && manager.Repr == old(manager.Repr)
      ensures manager.View() == LeftAll(view, Among(ids[..i + 1]), userID, send)
    {
      assert Among(ids[..i + 1]) == Among(ids[..i]) + {ids[i]};
      LeaveOneMore(view, Among(ids[..i]), ids[i], userID, send);
      manager.LeaveRoom(ids[i], userID, send);
    }

    method Enter(room: RoomId, manager: Registry.RoomManager)
      requires manager.Valid() && this !in manager.Repr
      modifies this`rooms, manager.Repr
      ensures manager.Valid() && fresh(manager.Repr - old(manager.Repr))
      ensures manager.View() == Perform(old(manager.View()), Join(room, userID, send)).0 && rooms == old(rooms) + {room}
    {
      manager.JoinRoom(room, userID, send);
      assert this !in manager.Repr;
      AddRoom(room);
    }

    method Quit(room: RoomId, manager: Registry.RoomManager)
      requires manager.Valid() && this !in manager.Repr
      modifies this`rooms, manager.Repr
      ensures manager.Valid() && manager.Repr == old(manager.Repr)
      ensures manager.View() == Perform(old(manager.View()), Leave(room, userID, Some(send))).0 && rooms == old(rooms) - {room}
    {
      manager.LeaveRoom(room, userID, send);
      RemoveRoom(room);
    }

    /** One command off the wire. */
    method Execute(command: Command, manager: Registry.RoomManager)
      requires manager.Valid() && this !in manager.Repr
      modifies this`rooms, manager.Repr
      ensures manager.Valid() && fresh(manager.Repr - old(manager.Repr))
      ensures (manager.View(), rooms) == Obey<Registry.Chan>(old(manager.View()), old(rooms), command, userID, send)
      ensures Obeyed<Registry.Chan>(old(manager.View()), old(rooms), manager.View(), rooms, command, userID, send)
    {
      ObeyIsObeyed<Registry.Chan>(manager.View(), rooms, command, userID, send);
      match command
      case JoinCommand(room) =>
        if room <= 0 {
          return;
        }
        Enter(room, manager);
      case LeaveCommand(room) =>
        if room <= 0 {
          return;
        }
        Quit(room, manager);
      case OtherCommand =>
    }

    /** Reads commands until the connection fails, then leaves all rooms. */
    method ReadPump(commands: seq<Command>, manager: Registry.RoomManager)
      requires manager.Valid() && this !in manager.Repr
      modifies this`rooms, manager.Repr
      ensures manager.Valid() && fresh(manager.Repr - old(manager.Repr)) && rooms == {}
      ensures var (view, mine) := ObeyAll<Registry.Chan>(old(manager.View()), old(rooms), commands, userID, send);
        manager.View() == LeftAll(view, mine, userID, send)
    {
      for i := 0 to |commands|
        invariant manager.Valid() && this !in manager.Repr && fresh(manager.Repr - old(manager.Repr))
        invariant (manager.View(), rooms) == ObeyAll<Registry.Chan>(old(manager.View()), old(rooms), commands[..i], userID, send)
      {
        assert commands[..i + 1][..i] == commands[..i];
        Execute(commands[i], manager);
      }
      assert commands[..|commands|] == commands;
      LeaveAllRooms(manager);
    }

    /** Closing a channel twice would panic. */
    method CloseDone()
      requires !done
      modifies this`done
      ensures done
    {
      done := true;
    }

    method CloseConn()
      requires Valid()
      modifies this
      ensures Valid() && done
    {
      if !once {
        once := true;
        CloseDone();
        connOpen := false;
      }
    }

    /** When the client is done and the buffer has room, the runtime may choose either; `pickDone` is its choice. */
    method TrySend(payload: Payload, pickDone: bool) returns (ok: bool)
      requires send.Valid()
      modifies send
      ensures send.Valid()
      ensures ok <==> |old(send.items)| < send.capacity && !(done && pickDone)
      ensures send.items == if ok then old(send.items) + [payload] else old(send.items)
    {
      if done && pickDone {
        return false;
      }
      ok := send.TrySend(payload);
    }
  }

  class ConnectionManager {
    var clients: map<UserId, Client>

    constructor ()
      ensures clients == map[]
    {
      clients := map[];
    }

    /** The newcomer takes the place; whoever had it is closed. */
    method AddClient(userID: UserId, client: Client)
      requires userID in clients ==> clients[userID].Valid()
      modifies this, if userID in clients then {clients[userID]} else {}
      ensures clients == Admit(old(clients), userID, client).0 == old(clients)[userID := client]
      ensures userID in old(clients) && old(clients)[userID] != client ==> old(clients)[userID].done
      ensures var displaced := Admit(old(clients), userID, client).1;
        displaced.Some? ==> displaced.value.Valid() && displaced.value.done
      ensures client.done == old(client.done)
    {
      var displaced: Client? := null;
      if userID in clients {
        displaced := clients[userID];
      }
      clients := clients[userID := client];
      if displaced != null && displaced != client {
        displaced.CloseConn();
      }
    }

    /** With null, withdraws whoever is there; otherwise only that very client. */
    method RemoveClientIfMatch(userID: UserId, only: Client?) returns (removed: bool)
      requires userID in clients ==> clients[userID].Valid()
      modifies this, if userID in clients then {clients[userID]} else {}
      ensures var (table, gone) := Withdraw(old(clients), userID, if only == null then None else Some(only));
        && clients == table
        && (removed <==> gone.Some?)
        && (gone.Some? ==> gone.value.Valid() && gone.value.done)
        && (gone.None? && userID in old(clients) ==> old(clients)[userID].done == old(clients[userID].done))
      ensures removed <==> userID in old(clients) && (only == null || old(clients)[userID] == only)
      ensures clients == if removed then old(clients) - {userID} else old(clients)
    {
      var c: Client? := null;
      if userID in clients {
        var found := clients[userID];
        if only != null && found != only {
          return false;
        }
        c := found;
        clients := clients - {userID};
      }
      if c != null {
        c.CloseConn();
        return true;
      }
      return false;
    }

    /** Pushes to one user; fails when the user is not here or does not take it. */
    method PushMsg(toUserID: UserId, payload: Payload, pickDone: bool) returns (success: bool)
      requires toUserID in clients ==> clients[toUserID].Valid()
      modifies if toUserID in clients then {clients[toUserID].send} else {}
      ensures toUserID !in clients ==> !success
      ensures toUserID in clients ==>
        var c := clients[toUserID];
        && (success <==> old(|c.send.items|) < c.send.capacity && !(c.done && pickDone))
        && c.send.items == if success then old(c.send.items) + [payload] else old(c.send.items)
    {
      if toUserID !in clients {
        return false;
      }
      var client := clients[toUserID];
      success := client.TrySend(payload, pickDone);
    }

    /**
     Pushes to every user who is here. `pickDone[i]` is what the runtime picks for the i-th
     client found, should it be done; success means that no client found has refused.
     */
    method PushMsgToUsers(userIDs: seq<UserId>, payload: Payload, pickDone: seq<bool>) returns (success: bool)
      requires forall u :: u in clients ==> clients[u].Valid()
      requires |pickDone| == |userIDs|
      modifies Queues(Present(userIDs, clients))
      ensures var found := Present(userIDs, clients);
        var refuse := Refusals(found, pickDone);
        var held := old(Held(Queues(Present(userIDs, clients))));
        && Offered(Queues(found), refuse, held, payload, |found|)
        && (success <==> AllAdmitted(Queues(found), refuse, held, |found|))
    {
      var found: seq<Client> := [];
      for i := 0 to |userIDs|
        invariant found == Present(userIDs[..i], clients)
      {
        assert userIDs[..i + 1][..i] == userIDs[..i];
        if userIDs[i] in clients {
          found := found + [clients[userIDs[i]]];
        }
      }
      assert userIDs[..|userIDs|] == userIDs;
      PresentFrom(userIDs, clients);
      success := OfferAll(found, payload, pickDone);
    }
  }

  /** After the first `n` offers every queue holds what it held, and a copy for each offer it took. */
  ghost predicate Offered(targets: seq<SendQueue>, refuse: seq<bool>, held: Contents, payload: Payload, n: nat)
    requires |refuse| == |targets| && n <= |targets|
    reads targets
  {
    forall q :: q in targets ==>
      q in held && q.Valid() && q.items == held[q] + Repeat(payload, AdmittedBefore(targets, refuse, held, n, q))
  }

  method OfferOne(client: Client, payload: Payload, pickDone: bool,
                  ghost targets: seq<SendQueue>, ghost refuse: seq<bool>, ghost held: Contents, ghost n: nat)
    returns (ok: bool)
    requires |refuse| == |targets| && n < |targets| && Offered(targets, refuse, held, payload, n)
    requires targets[n] == client.send && refuse[n] == (client.done && pickDone)
    modifies client.send
    ensures Offered(targets, refuse, held, payload, n + 1)
    ensures ok == Admitted(targets, refuse, held, n)
  {
    RepeatOneMore(payload, AdmittedBefore(targets, refuse, held, n, targets[n]));
    ok := client.TrySend(payload, pickDone);
  }

  lemma NothingOfferedYet(found: seq<Client>, refuse: seq<bool>, payload: Payload)
    requires |refuse| == |found| && forall c :: c in found ==> c.Valid()
    ensures Offered(Queues(found), refuse, Held(Queues(found)), payload, 0)
  {
    forall q | q in Queues(found) ensures q.Valid() && q.items + Repeat(payload, 0) == q.items {
      var i :| 0 <= i < |found| && Queues(found)[i] == q;
      assert found[i].Valid();
    }
  }

  method OfferAll(found: seq<Client>, payload: Payload, pickDone: seq<bool>) returns (success: bool)
    requires |found| <= |pickDone| && forall c :: c in found ==> c.Valid()
    modifies Queues(found)
    ensures var refuse, held := Refusals(found, pickDone), old(Held(Queues(found)));
      && Offered(Queues(found), refuse, held, payload, |found|)
      && (success <==> AllAdmitted(Queues(found), refuse, held, |found|))
  {
    NothingOfferedYet(found, Refusals(found, pickDone), payload);
    success := OfferEach(found, payload, pickDone, Queues(found), Refusals(found, pickDone), Held(Queues(found)));
  }

  method OfferEach(found: seq<Client>, payload: Payload, pickDone: seq<bool>,
                   ghost targets: seq<SendQueue>, ghost refuse: seq<bool>, ghost held: Contents)
    returns (success: bool)
    requires |targets| == |refuse| == |found| <= |pickDone|
    requires forall i :: 0 <= i < |found| ==> targets[i] == found[i].send
    requires forall i :: 0 <= i < |found| ==> refuse[i] == (found[i].done && pickDone[i])
    requires Offered(targets, refuse, held, payload, 0)
    modifies targets
    ensures Offered(targets, refuse, held, payload, |found|)
    ensures success <==> AllAdmitted(targets, refuse, held, |found|)
  {
    var fail := 0;
    for i := 0 to |found|
      invariant Offered(targets, refuse, held, payload, i)
      invariant 0 <= fail
      invariant fail == 0 <==> AllAdmitted(targets, refuse, held, i)
    {
      var ok := OfferOne(found[i], payload, pickDone[i], targets, refuse, held, i);
      if !ok {
        fail := fail + 1;
      }
    }
    success := fail == 0;
  }

  /** The clients of those users who are in the table, in request order. */
  function Present(userIDs: seq<UserId>, table: map<UserId, Client>): (found: seq<Client>)
    ensures |found| <= |userIDs|
  {
    if userIDs == [] then []
    else
      var last := userIDs[|userIDs| - 1];
      Present(userIDs[..|userIDs| - 1], table) + (if last in table then [table[last]] else [])
  }

  lemma {:induction false} PresentFrom(userIDs: seq<UserId>, table: map<UserId, Client>)
    ensures forall c :: c in Present(userIDs, table) ==> exists u :: u in userIDs && u in table && table[u] == c
  {
    if userIDs != [] {
      PresentFrom(userIDs[..|userIDs| - 1], table);
    }
  }

  function Queues(found: seq<Client>): (targets: seq<SendQueue>)
    ensures |targets| == |found|
    ensures forall i :: 0 <= i < |found| ==> targets[i] == found[i].send
  {
    seq(|found|, i requires 0 <= i < |found| => found[i].send)
  }

  ghost function Refusals(found: seq<Client>, pickDone: seq<bool>): (refuse: seq<bool>)
    requires |found| <= |pickDone|
    reads found
    ensures |refuse| == |found|
    ensures forall i :: 0 <= i < |found| ==> refuse[i] == (found[i].done && pickDone[i])
  {
    seq(|found|, i requires 0 <= i < |found| reads found => found[i].done && pickDone[i])
  }

  type Contents = map<SendQueue, seq<Payload>>

  ghost function Held(targets: seq<SendQueue>): Contents
    reads targets
  {
    map q | q in targets :: q.items
  }

  function Repeat(p: Payload, n: nat): (r: seq<Payload>)
    ensures |r| == n && forall i :: 0 <= i < n ==> r[i] == p
  {
    seq(n, i => p)
  }

  lemma RepeatOneMore(p: Payload, n: nat)
    ensures Repeat(p, n) + [p] == Repeat(p, n + 1)
  {
  }

  /** How many of the first `n` offers, made in order, the queue `q` takes. */
  ghost function AdmittedBefore(
    targets: seq<SendQueue>, refuse: seq<bool>, held: Contents, n: nat, q: SendQueue): nat
    requires |refuse| == |targets| && n <= |targets|
  {
    if n == 0 then 0
    else
      var before := AdmittedBefore(targets, refuse, held, n - 1, q);
      before + (if targets[n - 1] == q && !refuse[n - 1] && q in held && |held[q]| + before < q.capacity then 1 else 0)
  }

  /** Whether the i-th offer is taken. */
  ghost predicate Admitted(targets: seq<SendQueue>, refuse: seq<bool>, held: Contents, i: nat)
    requires |refuse| == |targets| && i < |targets|
  {
    && !refuse[i] && targets[i] in held
    && |held[targets[i]]| + AdmittedBefore(targets, refuse, held, i, targets[i]) < targets[i].capacity
  }

  ghost predicate AllAdmitted(targets: seq<SendQueue>, refuse: seq<bool>, held: Contents, n: nat)
    requires |refuse| == |targets| && n <= |targets|
  {
    n == 0 || (AllAdmitted(targets, refuse, held, n - 1) && Admitted(targets, refuse, held, n - 1))
  }

  /** Offered to different queues, nobody gets a second copy, and whoever has room and is not done gets one. */
  lemma {:induction false} AtMostOneCopy(
    targets: seq<SendQueue>, refuse: seq<bool>, held: Contents, n: nat, q: SendQueue)
    requires |refuse| == |targets| && n <= |targets| && forall k :: k in targets ==> k in held
    requires Distinct(targets)
    ensures AdmittedBefore(targets, refuse, held, n, q)
         == if exists i :: 0 <= i < n && targets[i] == q && !refuse[i] && |held[q]| < q.capacity then 1 else 0
  {
    if n > 0 {
      AtMostOneCopy(targets, refuse, held, n - 1, q);
    }
  }

  /** And all are taken exactly if nobody refuses and every queue has room. */
  lemma {:induction false} AllAdmittedIff(targets: seq<SendQueue>, refuse: seq<bool>, held: Contents, n: nat)
    requires |refuse| == |targets| && n <= |targets| && forall k :: k in targets ==> k in held
    requires Distinct(targets)
    ensures AllAdmitted(targets, refuse, held, n) <==>
      forall i :: 0 <= i < n ==> !refuse[i] && |held[targets[i]]| < targets[i].capacity
  {
    if n > 0 {
      AllAdmittedIff(targets, refuse, held, n - 1);
      AtMostOneCopy(targets, refuse, held, n - 1, targets[n - 1]);
    }
  }

  /** Different users are served by different queues. */
  ghost predicate OwnQueues(table: map<UserId, Client>) {
    forall u, v :: u in table && v in table && u != v ==> table[u].send != table[v].send
  }

  /** Connections come with a new queue each, so admitting and withdrawing them keeps it so. */
  lemma AdmitKeepsOwnQueues(table: map<UserId, Client>, u: UserId, c: Client, only: Option<Client>)
    requires OwnQueues(table) && forall v :: v in table ==> table[v].send != c.send
    ensures OwnQueues(Admit(table, u, c).0) && OwnQueues(Withdraw(table, u, only).0)
  {
    var table', rest := Admit(table, u, c).0, Withdraw(table, u, only).0;
    assert forall v :: v in table' && v != u ==> v in table && table'[v] == table[v];
    assert forall v :: v in rest ==> v in table && rest[v] == table[v];
  }

  /** A push to different users offers each of their queues one copy, and nobody else's any. */
  lemma {:induction false} PushOffersOnce(userIDs: seq<UserId>, table: map<UserId, Client>)
    requires OwnQueues(table) && Distinct(userIDs)
    ensures Distinct(Queues(Present(userIDs, table)))
    ensures forall u :: u in table ==> (table[u].send in Queues(Present(userIDs, table)) <==> u in userIDs)
  {
    if userIDs != [] {
      var n := |userIDs| - 1;
      var front, last := userIDs[..n], userIDs[n];
      assert userIDs == front + [last];
      DistinctFront(front, last);
      PushOffersOnce(front, table);
      var before, targets := Queues(Present(front, table)), Queues(Present(userIDs, table));
      assert targets == if last in table then before + [table[last].send] else before;
      if last in table {
        assert table[last].send !in before;
        DistinctSnoc(before, table[last].send);
      }
    }
  }
}
