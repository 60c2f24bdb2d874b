/** Groups and their members in MySQL, the members cached in Redis, and the calls that keep the two together. */
module GroupServer {
  import opened Option

  type UserId = int
  type GroupId = int

  const SECOND_DELETE_AFTER: nat := 200
  const PLACEHOLDER: UserId := -1
  const PLACEHOLDER_TTL: nat := 300_000
  const MEMBERS_TTL: nat := 86_400_000

  datatype Group = Group(name: string, active: bool, memberCount: nat)
  datatype Entry = Entry(ids: set<UserId>, expires: nat)
  datatype Failure = NotFound | InvalidGroup | InvalidName | InvalidUser | NameTaken | CacheUnreachable
  datatype Reply<+T> = Ok(value: T) | Failed(failure: Failure)

  /** A group's rows: each user's status, 0 for active. */
  type Rows = map<UserId, nat>

  function ActiveOf(rows: Rows): set<UserId> {
    set u | u in rows && rows[u] == 0
  }

  /** A user who has a row keeps it as it is. */
  function WithMember(rows: Rows, u: UserId): (after: Rows)
    ensures u in after && (u !in rows ==> after[u] == 0)
    ensures forall v :: (v in rows ==> v in after && after[v] == rows[v]) && (v in after ==> v in rows || v == u)
  {
    if u in rows then rows else rows[u := 0]
  }

  /** What a refill writes: the members, or for none of them the placeholder, which expires sooner. */
  function EntryFor(ids: set<UserId>, now: nat): Entry {
    if ids == {} then Entry({PLACEHOLDER}, now + PLACEHOLDER_TTL) else Entry(ids, now + MEMBERS_TTL)
  }

  /** The members are served for a day, the placeholder, which is no member, for five minutes. */
  lemma EntryServes(ids: set<UserId>, now: nat, later: nat)
    ensures ids != {} ==> EntryFor(ids, now).ids == ids && (Present(Some(EntryFor(ids, now)), later) <==> later < now + 24 * 60 * 60 * 1000)
    ensures EntryFor({}, now).ids == {-1} && (Present(Some(EntryFor({}, now)), later) <==> later < now + 5 * 60 * 1000)
  {
  }

  predicate Present(cache: Option<Entry>, now: nat) {
    cache.Some? && now < cache.value.expires
  }

  function CacheOf(cache: map<GroupId, Entry>, g: GroupId): Option<Entry> {
    if g in cache then Some(cache[g]) else None
  }

  class GroupServer {
    var groups: map<GroupId, Group>
    var members: map<GroupId, Rows>
    var cache: map<GroupId, Entry>
    var timers: seq<(GroupId, nat)>     // second deletes due: group, time
    var nextID: GroupId
    const collate: string -> string     // the table's collation: names with one image are one name to it

    /** Every group has its rows and as many of them as its count says. */
    ghost predicate Valid()
      reads this
    {
      && members.Keys == groups.Keys
      && (forall g :: g in groups ==> g < nextID && |members[g]| == groups[g].memberCount)
      && 0 < nextID
    }

    constructor (collate: string -> string)
      ensures Valid() && groups == map[] && cache == map[] && timers == [] && this.collate == collate
    {
      this.collate := collate;
      groups, members, cache, timers, nextID := map[], map[], map[], [], 1;
    }

    method CreateGroup(name: string, userID: UserId) returns (r: Reply<GroupId>)
      requires Valid()
      modifies this`groups, this`members, this`nextID
      ensures Valid()
      ensures r.Failed? ==> groups == old(groups) && members == old(members)
      ensures r.Ok? ==>
        && r.value !in old(groups)
        && groups == old(groups)[r.value := Group(name, true, 1)]
        && members == old(members)[r.value := map[userID := 0]]
      ensures r.Failed? <==> |name| == 0 || |name| > 30 || userID <= 0 || exists g :: g in old(groups) && collate(old(groups)[g].name) == collate(name)
    {
      if |name| == 0 || |name| > 30 {
        return Failed(InvalidName);
      }
      if userID <= 0 {
        return Failed(InvalidUser);
      }
      if exists g :: g in groups && collate(groups[g].name) == collate(name) {
        return Failed(NameTaken);
      }
      var id := nextID;
      nextID := nextID + 1;
      groups := groups[id := Group(name, true, 1)];
      members := members[id := map[userID := 0]];
      r := Ok(id);
    }

    /** One transaction: the group must be active, and only a new row raises the count. */
    method InsertMember(groupID: GroupId, userID: UserId) returns (r: Reply<bool>)
      requires Valid()
      modifies this`groups, this`members
      ensures Valid()
      ensures r.Failed? <==> groupID !in old(groups) || !old(groups)[groupID].active
      ensures r.Failed? ==> members == old(members) && groups == old(groups)
      ensures r.Ok? ==>
        && (r.value <==> userID !in old(members)[groupID])
        && members == old(members)[groupID := WithMember(old(members)[groupID], userID)]
        && groups == old(groups)[groupID := old(groups)[groupID].(memberCount := |members[groupID]|)]
    {
      if groupID !in groups || !groups[groupID].active {
        return Failed(NotFound);
      }
      var rows := members[groupID];
      if userID in rows {
        assert members[groupID := rows] == members;
        return Ok(false);
      }
      members := members[groupID := rows[userID := 0]];
      var group := groups[groupID];
      groups := groups[groupID := group.(memberCount := group.memberCount + 1)];
      r := Ok(true);
    }

    method DeleteCache(groupID: GroupId, reached: bool)
      modifies this`cache
      ensures cache == if reached then old(cache) - {groupID} else old(cache)
    {
      if reached {
        cache := cache - {groupID};
      }
    }

    /** Adds the user; for a new row deletes the cached members at once and schedules a second delete. */
    method AddGroup(groupID: GroupId, userID: UserId, now: nat, reached: bool) returns (r: Reply<bool>)
      requires Valid()
      modifies this`groups, this`members, this`cache, this`timers
      ensures Valid()
      ensures r.Failed? <==> groupID !in old(groups) || !old(groups)[groupID].active
      ensures r.Failed? ==> groups == old(groups) && members == old(members) && cache == old(cache) && timers == old(timers)
      ensures r.Ok? ==>
        var inserted := userID !in old(members)[groupID];
        && r.value
        && members == old(members)[groupID := WithMember(old(members)[groupID], userID)]
        && groups == old(groups)[groupID := old(groups)[groupID].(memberCount := |members[groupID]|)]
        && cache == (if inserted && reached then old(cache) - {groupID} else old(cache))
        && timers == (if inserted then old(timers) + [(groupID, now + 200)] else old(timers))
    {
      var inserted := InsertMember(groupID, userID);
      if inserted.Failed? {
        return Failed(inserted.failure);
      }
      if inserted.value {
        DeleteCache(groupID, reached);
        timers := timers + [(groupID, now + SECOND_DELETE_AFTER)];
      }
      r := Ok(true);
    }

    /** The deferred delete, some time after its timer has run out. */
    method SecondDelete(i: nat, now: nat, reached: bool)
      requires Valid() && i < |timers| && timers[i].1 <= now
      modifies this`cache, this`timers
      ensures Valid() && timers == old(timers)[..i] + old(timers)[i + 1..]
      ensures cache == if reached then old(cache) - {old(timers)[i].0} else old(cache)
    {
      var groupID := timers[i].0;
      timers := timers[..i] + timers[i + 1..];
      DeleteCache(groupID, reached);
    }

    /** Reads the active members and writes them, or the placeholder, to the cache; only real members have to get there. */
    method RefreshGroupMembersCache(groupID: GroupId, now: nat, reached: bool) returns (r: Reply<set<UserId>>)
      requires Valid()
      modifies this`cache
      ensures var ids := if groupID in members then ActiveOf(members[groupID]) else {};
        && r == (if groupID == 0 then Failed(InvalidGroup)
                 else if ids != {} && !reached then Failed(CacheUnreachable)
                 else Ok(ids))
        && cache == (if groupID != 0 && reached then old(cache)[groupID := EntryFor(ids, now)] else old(cache))
    {
      if groupID == 0 {
        return Failed(InvalidGroup);
      }
      var ids := if groupID in members then ActiveOf(members[groupID]) else {};
      if reached {
        cache := cache[groupID := EntryFor(ids, now)];
      } else if ids != {} {
        return Failed(CacheUnreachable);
      }
      r := Ok(ids);
    }

    /** Asks the cache; when it has nothing on the group, asks the database and fills the cache. */
    method IsGroupMember(groupID: GroupId, userID: UserId, now: nat, reached: bool) returns (isMember: bool)
      requires Valid()
      modifies this`cache
      ensures var rows := if groupID in members then members[groupID] else map[];
        if Present(CacheOf(old(cache), groupID), now)
        then cache == old(cache) && isMember == (userID in old(cache)[groupID].ids)
        else isMember == (userID in ActiveOf(rows)) &&
             cache == if reached then old(cache)[groupID := EntryFor(ActiveOf(rows), now)] else old(cache)
    {
      var entry := CacheOf(cache, groupID);
      if Present(entry, now) && userID in entry.value.ids {
        return true;
      }
      if Present(entry, now) {
        return false;
      }
      var ids := if groupID in members then ActiveOf(members[groupID]) else {};
      if reached {
        cache := cache[groupID := EntryFor(ids, now)];
      }
      isMember := userID in ids;
    }
  }
}
