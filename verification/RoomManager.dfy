/**
 The bucketed registry of rooms. Each method body between two locks of the code is
 one method here; `JoinRoom`, `LeaveRoom` and `BroadcastRoom` put them together.
 The class invariant holds between any two of the locked sections, so it is also
 the invariant while other threads run theirs.
 */
module RoomManager {
  import opened Option
  import opened Roster
  import opened RoomSpec
  import opened SendQueue
  import R = Room

  type Room = R.Room
  type Chan = R.Chan
  type Uint32 = x: int | 0 <= x < 0x1_0000_0000

  const DEFAULT_BUCKET_NUM: nat := 64

  /** How many buckets a request for `n` gives. */
  function BucketCount(n: int): (count: nat)
    ensures count > 0
  {
    if n <= 0 then DEFAULT_BUCKET_NUM else n
  }

  /** The requests after which the code would divide by zero to find a bucket. */
  lemma UnusableCountIff(n: int)
    ensures BucketCount(n) % 0x1_0000_0000 == 0 <==> n > 0 && n % 0x1_0000_0000 == 0
  {
  }

  /** The bucket of a room id among `count`, with the count truncated to 32 bits as the code does. */
  function BucketOf(hash: RoomId -> Uint32, count: nat, roomID: RoomId): (idx: nat)
    requires count % 0x1_0000_0000 != 0
    ensures idx < count
  {
    hash(roomID) % (count % 0x1_0000_0000)
  }

  /** It is what dividing the hash by the count leaves. */
  lemma BucketIsRemainder(hash: RoomId -> Uint32, count: nat, roomID: RoomId)
    requires 0 < count < 0x1_0000_0000
    ensures count % 0x1_0000_0000 != 0
    ensures exists q: nat :: hash(roomID) == q * count + BucketOf(hash, count, roomID)
  {
    var q: nat := hash(roomID) / count;
    assert hash(roomID) == q * count + BucketOf(hash, count, roomID);
  }

  /** The buckets together are the one map `mapped`, each room in the bucket of its id only. */
  ghost predicate Filed(hash: RoomId -> Uint32, bs: seq<map<RoomId, Room>>, mapped: map<RoomId, Room>)
    requires |bs| % 0x1_0000_0000 != 0
  {
    forall i, id :: 0 <= i < |bs| ==>
      (id in bs[i] <==> id in mapped && i == BucketOf(hash, |bs|, id)) && (id in bs[i] ==> bs[i][id] == mapped[id])
  }

  lemma FileOne(hash: RoomId -> Uint32, bs: seq<map<RoomId, Room>>, mapped: map<RoomId, Room>, id: RoomId, r: Room)
    requires |bs| % 0x1_0000_0000 != 0 && Filed(hash, bs, mapped)
    ensures var i := BucketOf(hash, |bs|, id);
      Filed(hash, bs[i := bs[i][id := r]], mapped[id := r])
  {
  }

  lemma UnfileOne(hash: RoomId -> Uint32, bs: seq<map<RoomId, Room>>, mapped: map<RoomId, Room>, id: RoomId)
    requires |bs| % 0x1_0000_0000 != 0 && Filed(hash, bs, mapped)
    ensures var i := BucketOf(hash, |bs|, id);
      Filed(hash, bs[i := bs[i] - {id}], mapped - {id})
  {
  }

  type Contents = map<Room, seq<Entry<Chan>>>

  ghost predicate MapsInto(mapped: map<RoomId, Room>, rooms: set<Room>) {
    forall id :: id in mapped ==> mapped[id] in rooms
  }

  ghost predicate IsMapped(mapped: map<RoomId, Room>, r: Room) {
    exists id :: id in mapped && mapped[id] == r
  }

  ghost predicate Injective(mapped: map<RoomId, Room>) {
    forall a, b :: a in mapped && b in mapped && a != b ==> mapped[a] != mapped[b]
  }

  /** The registry seen from outside, given what each room object holds. */
  ghost function Viewed(mapped: map<RoomId, Room>, contents: Contents): Rooms<Chan>
    requires MapsInto(mapped, contents.Keys)
  {
    map id | id in mapped && contents[mapped[id]] != [] :: contents[mapped[id]]
  }

  /** Nobody is in a room that is not mapped. */
  ghost predicate Orphaned(mapped: map<RoomId, Room>, contents: Contents) {
    forall r :: r in contents && !IsMapped(mapped, r) ==> contents[r] == []
  }

  lemma ViewAfterUpdate(mapped: map<RoomId, Room>, contents: Contents, id: RoomId, members: seq<Entry<Chan>>)
    requires MapsInto(mapped, contents.Keys) && Injective(mapped) && id in mapped
    ensures Viewed(mapped, contents[mapped[id] := members]) == Put(Viewed(mapped, contents), id, members)
    ensures At(Viewed(mapped, contents), id) == contents[mapped[id]]
  {
    var after := contents[mapped[id] := members];
    assert forall k :: k in mapped && k != id ==> after[mapped[k]] == contents[mapped[k]];
  }

  lemma ViewAfterMapping(mapped: map<RoomId, Room>, contents: Contents, id: RoomId, r: Room)
    requires MapsInto(mapped, contents.Keys) && id !in mapped && r !in contents
    ensures Viewed(mapped[id := r], contents[r := []]) == Viewed(mapped, contents)
    ensures forall s :: IsMapped(mapped, s) || s == r ==> IsMapped(mapped[id := r], s)
  {
    var mapped', after := mapped[id := r], contents[r := []];
    assert forall k :: k in mapped ==> mapped'[k] == mapped[k] && after[mapped[k]] == contents[mapped[k]];
    forall s | IsMapped(mapped, s) || s == r ensures IsMapped(mapped', s) {
      var k :| k == id || (k in mapped && mapped[k] == s);
      assert mapped'[id] == r && k in mapped';
    }
  }

  lemma ViewAfterUnmapping(mapped: map<RoomId, Room>, contents: Contents, id: RoomId)
    requires MapsInto(mapped, contents.Keys) && id in mapped && contents[mapped[id]] == []
    ensures Viewed(mapped - {id}, contents) == Viewed(mapped, contents)
    ensures forall r :: IsMapped(mapped, r) && r != mapped[id] ==> IsMapped(mapped - {id}, r)
  {
    forall r | IsMapped(mapped, r) && r != mapped[id] ensures IsMapped(mapped - {id}, r) {
      var k :| k in mapped && mapped[k] == r;
      assert k in mapped - {id};
    }
  }

  class RoomManager {
    const hash: RoomId -> Uint32
    const buckets: array<map<RoomId, Room>>
    ghost var Created: set<Room>       // every room made so far, mapped or not
    ghost var Mapped: map<RoomId, Room>
    ghost var Repr: set<object>

    /** Every room made so far is sound and has its own memory. */
    ghost predicate Owned()
      reads this, Repr
    {
      && this in Repr && buckets in Repr
      && (forall r :: r in Created ==> r in Repr && r.Repr <= Repr && this !in r.Repr && buckets !in r.Repr && r.Valid())
      && (forall r, s :: r in Created && s in Created && r != s ==> r.Repr !! s.Repr)
    }

    ghost predicate Valid()
      reads this, Repr
      ensures Valid() ==> this in Repr
    {
      && Owned() && buckets.Length % 0x1_0000_0000 != 0
      && Filed(hash, buckets[..], Mapped)
      && MapsInto(Mapped, Created) && Injective(Mapped)
      && Orphaned(Mapped, Held())
    }

    ghost function View(): (rooms: Rooms<Chan>)
      reads this, Repr
      requires Valid()
      ensures AllUnique(rooms)
    {
      Viewed(Mapped, Held())
    }

    /** What each room object made so far holds. */
    ghost function Held(): (c: Contents)
      reads this, Repr
      requires Owned()
      ensures c.Keys == Created && forall r :: r in c ==> Unique(c[r])
    {
      map r | r in Created :: r.Entries()
    }

    /** No empty room is mapped. */
    ghost predicate Tidy()
      reads this, Repr
      requires Valid()
    {
      forall id :: id in Mapped ==> Held()[Mapped[id]] != []
    }

    constructor (bucketNum: int, hash: RoomId -> Uint32)
      requires BucketCount(bucketNum) % 0x1_0000_0000 != 0
      ensures Valid() && fresh(Repr)
      ensures this.hash == hash && buckets.Length == if bucketNum <= 0 then 64 else bucketNum
      ensures View() == map[] && Created == {}
    {
      var count := BucketCount(bucketNum);
      this.hash := hash;
      buckets := new map<RoomId, Room>[count](_ => map[]);
      Created := {};
      Mapped := map[];
      new;
      Repr := {this, buckets};
    }

    /** The read-locked lookup with which a leave and a broadcast begin. */
    function Lookup(roomID: RoomId): (r: R.Room?)
      reads this, Repr
      requires Valid()
      ensures r == if roomID in Mapped then Mapped[roomID] else null
    {
      var b := buckets[BucketOf(hash, buckets.Length, roomID)];
      if roomID in b then b[roomID] else null
    }

    /** Files a new, empty room in its bucket. */
    method AddRoom(roomID: RoomId, r: Room)
      requires Valid() && roomID !in Mapped
      requires r.Valid() && r.Repr !! Repr && r.Entries() == []
      modifies this, buckets
      ensures Valid() && Repr == old(Repr) + r.Repr
      ensures Mapped == old(Mapped)[roomID := r]
      ensures Held() == old(Held())[r := []] && View() == old(View())
    {
      ViewAfterMapping(Mapped, Held(), roomID, r);
      File(roomID, r);
      Own(r);
    }

    /** Takes a further room into the registry's memory. */
    method Own(r: Room)
      requires Owned() && r.Valid() && r.Repr !! Repr && r.Entries() == []
      modifies this`Created, this`Repr
      ensures Owned() && Created == old(Created) + {r} && Repr == old(Repr) + r.Repr
      ensures Held() == old(Held())[r := []]
    {
      Created := Created + {r};
      Repr := Repr + r.Repr;
    }

    method File(roomID: RoomId, r: Room)
      requires Owned() && buckets.Length % 0x1_0000_0000 != 0 && Filed(hash, buckets[..], Mapped)
      modifies this`Mapped, buckets
      ensures Mapped == old(Mapped)[roomID := r] && Filed(hash, buckets[..], Mapped)
      ensures Owned() && Held() == old(Held())
    {
      var idx := BucketOf(hash, buckets.Length, roomID);
      FileOne(hash, buckets[..], Mapped, roomID, r);
      ghost var bs := buckets[..];
      buckets[idx] := buckets[idx][roomID := r];
      assert buckets[..] == bs[idx := bs[idx][roomID := r]];
      Mapped := Mapped[roomID := r];
      assert forall s :: s in Created ==> s.Valid() && s.Entries() == old(s.Entries());
    }

    method Unfile(roomID: RoomId)
      requires Owned() && buckets.Length % 0x1_0000_0000 != 0 && Filed(hash, buckets[..], Mapped)
      modifies this`Mapped, buckets
      ensures Mapped == old(Mapped) - {roomID} && Filed(hash, buckets[..], Mapped)
      ensures Owned() && Held() == old(Held())
    {
      var idx := BucketOf(hash, buckets.Length, roomID);
      UnfileOne(hash, buckets[..], Mapped, roomID);
      ghost var bs := buckets[..];
      buckets[idx] := buckets[idx] - {roomID};
      assert buckets[..] == bs[idx := bs[idx] - {roomID}];
      Mapped := Mapped - {roomID};
      assert forall s :: s in Created ==> s.Valid() && s.Entries() == old(s.Entries());
    }

    /** The room-locked part of a join; the caller holds the bucket's lock, so the room is mapped. */
    method Enter(r: Room, userID: UserId, send: Chan)
      requires Valid() && IsMapped(Mapped, r) && r in Created
      modifies r.Repr, this`Repr
      ensures Valid() && fresh(Repr - old(Repr))
      ensures Held() == old(Held())[r := Joined(old(Held())[r], userID, send)]
    {
      EnterOwned(r, userID, send);
    }

    method EnterOwned(r: Room, userID: UserId, send: Chan)
      requires Owned() && r in Created
      modifies r.Repr, this`Repr
      ensures Owned() && fresh(Repr - old(Repr))
      ensures Held() == old(Held())[r := Joined(old(Held())[r], userID, send)]
    {
      r.Join(userID, send);
      Repr := Repr + r.Repr;
      forall s | s in Created && s != r ensures s.Valid() && s.Repr == old(s.Repr) && s.Entries() == old(s.Entries()) {
        assert s.Repr !! old(r.Repr);
      }
    }

    /** The room-locked part of a leave, on a room that was mapped once and may not be any more. */
    method Depart(r: Room, userID: UserId, only: Chan) returns (empty: bool)
      requires Valid() && r in Created
      modifies r`members, r`index
      ensures Valid()
      ensures Held() == old(Held())[r := Left(old(Held())[r], userID, if only == null then None else Some(only))]
      ensures empty <==> Held()[r] == []
    {
      empty := r.Leave(userID, only);
      forall s | s in Created && s != r ensures s.Valid() && s.Repr == old(s.Repr) && s.Entries() == old(s.Entries()) {
        assert s.Repr !! old(r.Repr);
      }
      assert Owned();
    }

    /** Removes the room if it is still the mapped one and still empty, under the bucket's write lock. */
    method Reap(roomID: RoomId, r: Room)
      requires Valid() && r in Created
      modifies this`Mapped, buckets
      ensures Valid() && Held() == old(Held()) && View() == old(View())
      ensures Mapped == if roomID in old(Mapped) && old(Mapped)[roomID] == r && Held()[r] == []
                        then old(Mapped) - {roomID} else old(Mapped)
    {
      var idx := BucketOf(hash, buckets.Length, roomID);
      var b := buckets[idx];
      if roomID !in b {
        return;
      }
      var r2 := b[roomID];
      if r2 != r {
        return;
      }
      var isEmpty := |r2.members| == 0;
      assert isEmpty <==> Held()[r] == [];
      if isEmpty {
        ViewAfterUnmapping(Mapped, Held(), roomID);
        Unfile(roomID);
      }
    }

    /** Adds the member, creating the room if there is none, all under the bucket's write lock. */
    method JoinRoom(roomID: RoomId, userID: UserId, send: Chan)
      requires Valid()
      modifies Repr
      ensures Valid() && fresh(Repr - old(Repr))
      ensures View() == Perform(old(View()), Join(roomID, userID, send)).0
    {
      var r := RoomFor(roomID);
      EnterMapped(roomID, r, userID, send);
    }

    /** The room of that id, a new one if there is none. */
    method RoomFor(roomID: RoomId) returns (r: Room)
      requires Valid()
      modifies this, buckets
      ensures Valid() && fresh(Repr - old(Repr)) && View() == old(View())
      ensures roomID in Mapped && Mapped[roomID] == r && r in Created && r.Repr <= Repr
    {
      var found := Lookup(roomID);
      if found != null {
        return found;
      }
      r := new R.Room();
      AddRoom(roomID, r);
    }

    method EnterMapped(roomID: RoomId, r: Room, userID: UserId, send: Chan)
      requires Valid() && roomID in Mapped && Mapped[roomID] == r
      modifies r.Repr, this`Repr
      ensures Valid() && fresh(Repr - old(Repr))
      ensures View() == Perform(old(View()), Join(roomID, userID, send)).0
    {
      assert r in Created;
      ViewAfterUpdate(Mapped, Held(), roomID, Joined(Held()[r], userID, send));
      Enter(r, userID, send);
    }

    /** Takes the member out, if still served on `only`, and removes the room when nobody is left. */
    method LeaveRoom(roomID: RoomId, userID: UserId, only: Chan)
      requires Valid()
      modifies Repr
      ensures Valid() && Repr == old(Repr)
      ensures View() == Perform(old(View()), Leave(roomID, userID, if only == null then None else Some(only))).0
      ensures old(Tidy()) ==> Tidy()
    {
      var r := Lookup(roomID);
      if r == null {
        assert Put(View(), roomID, []) == View();
        return;
      }
      var empty := DepartMapped(roomID, r, userID, only);
      if empty {
        Reap(roomID, r);
      }
    }

    /** A departure from a room that is still mapped shows in the registry as a leave. */
    method DepartMapped(roomID: RoomId, r: Room, userID: UserId, only: Chan) returns (empty: bool)
      requires Valid() && r in Created && roomID in Mapped && Mapped[roomID] == r
      modifies r`members, r`index
      ensures Valid()
      ensures View() == Perform(old(View()), Leave(roomID, userID, if only == null then None else Some(only))).0
      ensures empty <==> Held()[r] == []
      ensures forall id :: id in Mapped && id != roomID ==> Held()[Mapped[id]] == old(Held()[Mapped[id]])
    {
      ViewAfterUpdate(Mapped, Held(), roomID, Left(Held()[r], userID, if only == null then None else Some(only)));
      empty := Depart(r, userID, only);
    }

    /** Sends to everyone in the room but the sender, and counts the sends that went through. */
    method BroadcastRoom(roomID: RoomId, fromUserID: UserId, payload: Payload) returns (sent: nat)
      requires Valid() && R.QueuesValid(Targets(At(View(), roomID), fromUserID))
      modifies Targets(At(View(), roomID), fromUserID)
      ensures R.QueuesValid(old(Targets(At(View(), roomID), fromUserID)))
      ensures forall q: SendQueue :: q in old(Targets(At(View(), roomID), fromUserID)) ==>
        q.items == Filled(old(q.items), q.capacity, payload, R.Copies(old(Targets(At(View(), roomID), fromUserID)), q))
      ensures sent == R.Accepted(old(Targets(At(View(), roomID), fromUserID)),
                                 old(R.Sizes(Targets(At(View(), roomID), fromUserID))))
    {
      var r := Lookup(roomID);
      if r == null {
        return 0;
      }
      ViewAfterUpdate(Mapped, Held(), roomID, []);
      sent := r.Broadcast(fromUserID, payload);
    }
  }
}
