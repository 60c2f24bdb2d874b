/** Delivering one group message: find the members, group them by the node they are connected to, drop the sender. */
module Fanout {
  import opened Option
  import opened Sequences

  type UserId = int
  type NodeId = string
  type Plan = map<NodeId, seq<UserId>>

  datatype Reply<+T> = Ok(value: T) | Error

  /** Where each user is connected; no entry or an empty one means nowhere. */
  type Routes = map<UserId, NodeId>

  predicate OnNode(routes: Routes, u: UserId, node: NodeId) {
    node != "" && u in routes && routes[u] == node
  }

  predicate Online(routes: Routes, u: UserId) {
    u in routes && routes[u] != ""
  }

  function UsersOn(users: seq<UserId>, routes: Routes, node: NodeId): seq<UserId> {
    if users == [] then []
    else
      var n := |users| - 1;
      UsersOn(users[..n], routes, node) + (if OnNode(routes, users[n], node) then [users[n]] else [])
  }

  function Without(users: seq<UserId>, sender: UserId): seq<UserId> {
    if users == [] then []
    else
      var n := |users| - 1;
      Without(users[..n], sender) + (if users[n] == sender then [] else [users[n]])
  }

  function Nodes(users: seq<UserId>, routes: Routes): set<NodeId> {
    set u | u in users && Online(routes, u) :: routes[u]
  }

  ghost predicate GroupsByNode(users: seq<UserId>, routes: Routes, plan: Plan) {
    plan.Keys == Nodes(users, routes) && forall node :: node in plan ==> plan[node] == UsersOn(users, routes, node)
  }

  /** One loop over the users, appending each to the list of its node. */
  method GetOnlineRoutingMap(users: seq<UserId>, routes: Reply<Routes>) returns (r: Reply<Plan>)
    ensures users == [] ==> r == Ok(map[])
    ensures users != [] && routes.Error? ==> r.Error?
    ensures users != [] && routes.Ok? ==> r.Ok? && GroupsByNode(users, routes.value, r.value)
  {
    if |users| == 0 {
      return Ok(map[]);
    }
    if routes.Error? {
      return Error;
    }
    var table := routes.value;
    var targets: Plan := map[];
    for i := 0 to |users|
      invariant GroupsByNode(users[..i], table, targets)
    {
      var u := users[i];
      assert users[..i + 1] == users[..i] + [u];
      OneMoreUser(users[..i], u, table, targets);
      if u in table {
        var node := table[u];
        if node != "" {
          targets := targets[node := (if node in targets then targets[node] else []) + [u]];
        }
      }
    }
    assert users[..|users|] == users;
    r := Ok(targets);
  }

  lemma OneMoreUser(users: seq<UserId>, u: UserId, routes: Routes, plan: Plan)
    requires GroupsByNode(users, routes, plan)
    ensures GroupsByNode(users + [u], routes,
      if Online(routes, u) then plan[routes[u] := (if routes[u] in plan then plan[routes[u]] else []) + [u]] else plan)
  {
    UnknownNode(users, routes);
    NodesSnoc(users, u, routes);
    forall node ensures UsersOn(users + [u], routes, node) == UsersOn(users, routes, node) + (if OnNode(routes, u, node) then [u] else []) {
      UsersOnSnoc(users, u, routes, node);
    }
  }

  lemma UsersOnSnoc(users: seq<UserId>, u: UserId, routes: Routes, node: NodeId)
    ensures UsersOn(users + [u], routes, node) == UsersOn(users, routes, node) + (if OnNode(routes, u, node) then [u] else [])
  {
    assert (users + [u])[..|users|] == users;
  }

  lemma NodesSnoc(users: seq<UserId>, u: UserId, routes: Routes)
    ensures Nodes(users + [u], routes) == Nodes(users, routes) + (if Online(routes, u) then {routes[u]} else {})
  {
    assert forall v :: v in users + [u] <==> v in users || v == u;
  }

  lemma {:induction false} UnknownNode(users: seq<UserId>, routes: Routes)
    ensures forall node :: node !in Nodes(users, routes) ==> UsersOn(users, routes, node) == []
  {
    if users != [] {
      var front := users[..|users| - 1];
      UnknownNode(front, routes);
      assert users == front + [users[|users| - 1]];
      assert Nodes(front, routes) <= Nodes(users, routes);
      assert Online(routes, users[|users| - 1]) ==> routes[users[|users| - 1]] in Nodes(users, routes);
    }
  }

  /** What the cache may hold on a group: decimal ids, or a placeholder, or nothing, or what is not a number. */
  function Parsed(raw: seq<string>, parse: string -> Option<UserId>): seq<UserId> {
    if raw == [] then []
    else
      var n := |raw| - 1;
      Parsed(raw[..n], parse) + (if parse(raw[n]).Some? then [parse(raw[n]).value] else [])
  }

  /** Exactly the users whom some entry names. */
  lemma {:induction false} ParsedAreNamed(raw: seq<string>, parse: string -> Option<UserId>)
    ensures forall u :: u in Parsed(raw, parse) <==> exists e :: e in raw && parse(e) == Some(u)
  {
    if raw != [] {
      var front, last := raw[..|raw| - 1], raw[|raw| - 1];
      ParsedAreNamed(front, parse);
      assert raw == front + [last];
    }
  }

  /** The members to deliver to, from the cache or, when it has nothing, from the Logic service. */
  function Recipients(raw: seq<string>, parse: string -> Option<UserId>, refreshed: Reply<seq<UserId>>): Reply<seq<UserId>> {
    if raw == [] then refreshed
    else if raw == ["-1"] then Ok([])
    else Ok(Parsed(raw, parse))
  }

  /** The calls to make, one per node: what a plan leaves once the sender is taken out. */
  function CallsOf(plan: Plan, sender: UserId): Plan {
    map node | node in plan && Without(plan[node], sender) != [] :: Without(plan[node], sender)
  }

  method ParseMembers(raw: seq<string>, parse: string -> Option<UserId>) returns (users: seq<UserId>)
    ensures users == Parsed(raw, parse)
  {
    users := [];
    for i := 0 to |raw|
      invariant users == Parsed(raw[..i], parse)
    {
      assert raw[..i + 1][..i] == raw[..i];
      var id := parse(raw[i]);
      if id.Some? {
        users := users + [id.value];
      }
    }
    assert raw[..|raw|] == raw;
  }

  method DropSender(targets: seq<UserId>, sender: UserId) returns (finalUIDs: seq<UserId>)
    ensures finalUIDs == Without(targets, sender)
  {
    finalUIDs := [];
    for i := 0 to |targets|
      invariant finalUIDs == Without(targets[..i], sender)
    {
      assert targets[..i + 1][..i] == targets[..i];
      if targets[i] != sender {
        finalUIDs := finalUIDs + [targets[i]];
      }
    }
    assert targets[..|targets|] == targets;
  }

  /** One call per node that has anybody left. */
  method MakeCalls(plan: Plan, sender: UserId) returns (calls: Plan)
    ensures calls == CallsOf(plan, sender)
  {
    calls := map[];
    var left := plan.Keys;
    while left != {}
      invariant left <= plan.Keys
      invariant calls == map node | node in plan && node !in left && Without(plan[node], sender) != [] :: Without(plan[node], sender)
      decreases |left|
    {
      var node :| node in left;
      var finalUIDs := DropSender(plan[node], sender);
      if |finalUIDs| != 0 {
        calls := calls[node := finalUIDs];
      }
      left := left - {node};
    }
  }

  method HandleSmallGroupMessage(
    raw: Reply<seq<string>>, parse: string -> Option<UserId>, refreshed: Reply<seq<UserId>>,
    routes: Reply<Routes>, sender: UserId) returns (r: Reply<Plan>)
    ensures raw.Error? ==> r.Error?
    ensures raw.Ok? ==>
      match Recipients(raw.value, parse, refreshed)
      case Error => r.Error?
      case Ok(users) =>
        (users == [] ==> r == Ok(map[])) &&
        (users != [] && routes.Error? ==> r.Error?) &&
        (users != [] && routes.Ok? ==> r == Ok(PlanFor(users, routes.value, sender)))
  {
    if raw.Error? {
      return Error;
    }
    var users: seq<UserId>;
    if |raw.value| == 0 {
      if refreshed.Error? {
        return Error;
      }
      users := refreshed.value;
    } else if |raw.value| == 1 && raw.value[0] == "-1" {
      return Ok(map[]);
    } else {
      users := ParseMembers(raw.value, parse);
    }
    if |users| == 0 {
      return Ok(map[]);
    }
    var plan := GetOnlineRoutingMap(users, routes);
    if plan.Error? {
      return Error;
    }
    var calls := MakeCalls(plan.value, sender);
    PlanForIsCalls(users, routes.value, sender, plan.value);
    r := Ok(calls);
  }

  // ----- what the plan should be, whichever way the members were found

  /** Each node's own members who are online there, without the sender; no node without anybody. */
  function PlanFor(users: seq<UserId>, routes: Routes, sender: UserId): Plan {
    map node | node in Nodes(users, routes) && Without(UsersOn(users, routes, node), sender) != [] ::
      Without(UsersOn(users, routes, node), sender)
  }

  lemma PlanForIsCalls(users: seq<UserId>, routes: Routes, sender: UserId, plan: Plan)
    requires GroupsByNode(users, routes, plan)
    ensures CallsOf(plan, sender) == PlanFor(users, routes, sender)
  {
  }

  lemma {:induction false} MembersOn(users: seq<UserId>, routes: Routes, node: NodeId)
    ensures forall u :: u in UsersOn(users, routes, node) <==> u in users && OnNode(routes, u, node)
    ensures Distinct(users) ==> Distinct(UsersOn(users, routes, node))
  {
    if users != [] {
      var front, last := users[..|users| - 1], users[|users| - 1];
      assert users == front + [last];
      MembersOn(front, routes, node);
      if Distinct(users) && OnNode(routes, last, node) {
        DistinctFront(front, last);
        DistinctSnoc(UsersOn(front, routes, node), last);
      } else if Distinct(users) {
        DistinctFront(front, last);
      }
    }
  }

  lemma {:induction false} MembersWithout(users: seq<UserId>, sender: UserId)
    ensures forall u :: u in Without(users, sender) <==> u in users && u != sender
    ensures Distinct(users) ==> Distinct(Without(users, sender))
  {
    if users != [] {
      var front, last := users[..|users| - 1], users[|users| - 1];
      assert users == front + [last];
      MembersWithout(front, sender);
      if Distinct(users) && last != sender {
        DistinctFront(front, last);
        DistinctSnoc(Without(front, sender), last);
      } else if Distinct(users) {
        DistinctFront(front, last);
      }
    }
  }

  /** Every online member but the sender is called once, on its own node; nobody else is, and no node in vain. */
  lemma PlanIsExact(users: seq<UserId>, routes: Routes, sender: UserId)
    requires Distinct(users)
    ensures var plan := PlanFor(users, routes, sender);
      && (forall node :: node in plan ==> plan[node] != [] && Distinct(plan[node]) && sender !in plan[node])
      && (forall node, u :: node in plan && u in plan[node] <==>
            u in users && u != sender && node != "" && u in routes && routes[u] == node)
  {
    var plan := PlanFor(users, routes, sender);
    forall node, u ensures node in plan && u in plan[node] <==>
        u in users && u != sender && node != "" && u in routes && routes[u] == node
    {
      MembersOn(users, routes, node);
      MembersWithout(UsersOn(users, routes, node), sender);
      if u in users && OnNode(routes, u, node) {
        assert node in Nodes(users, routes);
      }
    }
    forall node | node in plan ensures Distinct(plan[node]) && sender !in plan[node] {
      MembersOn(users, routes, node);
      MembersWithout(UsersOn(users, routes, node), sender);
    }
  }

  /** The cache agrees with the members: nothing, the placeholder for none of them, or each of them in decimal. */
  ghost predicate Coherent(raw: seq<string>, parse: string -> Option<UserId>, members: set<UserId>) {
    || raw == []
    || (raw == ["-1"] && members == {})
    || (raw != ["-1"] && members != {} && Distinct(Parsed(raw, parse)) && AsSet(Parsed(raw, parse)) == members)
  }

  function AsSet(users: seq<UserId>): set<UserId> {
    set u | u in users
  }

  /** Hit, miss and placeholder lead to the same calls: who is called where depends on the members alone. */
  lemma AnyPathSamePlan(
    raw: seq<string>, parse: string -> Option<UserId>, refreshed: seq<UserId>, members: set<UserId>,
    routes: Routes, sender: UserId, node: NodeId, u: UserId)
    requires Coherent(raw, parse, members) && Distinct(refreshed) && AsSet(refreshed) == members
    ensures var users := Recipients(raw, parse, Ok(refreshed)).value;
      var plan := PlanFor(users, routes, sender);
      && Distinct(users)
      && (node in plan && u in plan[node] <==> u in members && u != sender && OnNode(routes, u, node))
      && (node in plan ==> plan[node] != [] && Distinct(plan[node]))
  {
    var users := Recipients(raw, parse, Ok(refreshed)).value;
    assert Distinct(users) && AsSet(users) == members;
    PlanIsExact(users, routes, sender);
    assert u in users <==> u in AsSet(users);
  }
}
