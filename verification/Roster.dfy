/**
 What one room holds, as a value: the members in the order in which they first
 joined, each with the channel it is served on. `Room` updates such a roster in
 place; the protocol modules reason about it as a value.
 */
module Roster {
  import opened Option

  type UserId = int
  type RoomId = int

  datatype Entry<+C> = Entry(user: UserId, send: C)

  predicate Unique<C>(rs: seq<Entry<C>>) {
    forall i, j :: 0 <= i < j < |rs| ==> rs[i].user != rs[j].user
  }

  function Users<C>(rs: seq<Entry<C>>): seq<UserId> {
    if rs == [] then [] else [rs[0].user] + Users(rs[1..])
  }

  function Find<C>(rs: seq<Entry<C>>, u: UserId): Option<C> {
    if rs == [] then None
    else if rs[0].user == u then Some(rs[0].send)
    else Find(rs[1..], u)
  }

  /** A user who is present keeps the place and gets the new channel; others go to the back. */
  function Joined<C>(rs: seq<Entry<C>>, u: UserId, c: C): seq<Entry<C>> {
    if rs == [] then [Entry(u, c)]
    else if rs[0].user == u then [Entry(u, c)] + rs[1..]
    else [rs[0]] + Joined(rs[1..], u, c)
  }

  /** Removes `u`, but only while served on `only`; `None` removes whatever the channel. */
  function Left<C(==)>(rs: seq<Entry<C>>, u: UserId, only: Option<C>): seq<Entry<C>> {
    if rs == [] then []
    else if rs[0].user == u then
      if only.Some? && rs[0].send != only.value then rs else rs[1..]
    else [rs[0]] + Left(rs[1..], u, only)
  }

  /** The channels a broadcast from `from` goes to, in roster order. */
  function Targets<C>(rs: seq<Entry<C>>, from: UserId): seq<C> {
    if rs == [] then []
    else (if rs[0].user == from then [] else [rs[0].send]) + Targets(rs[1..], from)
  }

  predicate Absent<C>(rs: seq<Entry<C>>, u: UserId) {
    forall i :: 0 <= i < |rs| ==> rs[i].user != u
  }

  // ----- what the operations mean: an insertion-ordered map with compare-and-delete

  lemma {:induction false} FindSome<C>(rs: seq<Entry<C>>, u: UserId)
    ensures Find(rs, u).None? <==> Absent(rs, u)
    ensures Find(rs, u).Some? ==> Entry(u, Find(rs, u).value) in rs
  {
    if rs != [] && rs[0].user != u {
      FindSome(rs[1..], u);
      assert rs == [rs[0]] + rs[1..];
      if Absent(rs[1..], u) {
        assert forall i :: 0 < i < |rs| ==> rs[i] == rs[1..][i - 1];
      }
    }
  }

  lemma {:induction false} FindAt<C>(rs: seq<Entry<C>>, i: nat)
    requires Unique(rs) && i < |rs|
    ensures Find(rs, rs[i].user) == Some(rs[i].send)
  {
    if i > 0 {
      FindAt(rs[1..], i - 1);
    }
  }

  lemma {:induction false} FindJoined<C>(rs: seq<Entry<C>>, u: UserId, c: C, v: UserId)
    ensures Find(Joined(rs, u, c), v) == if v == u then Some(c) else Find(rs, v)
  {
    if rs != [] && rs[0].user != u {
      FindJoined(rs[1..], u, c, v);
      assert Joined(rs, u, c)[1..] == Joined(rs[1..], u, c);
    }
  }

  lemma {:induction false} FindLeft<C>(rs: seq<Entry<C>>, u: UserId, only: Option<C>, v: UserId)
    requires Unique(rs)
    ensures Find(Left(rs, u, only), v)
         == if v == u && (only.None? || Find(rs, u) == only) then None else Find(rs, v)
  {
    if rs != [] {
      if rs[0].user != u {
        FindLeft(rs[1..], u, only, v);
        assert Left(rs, u, only)[1..] == Left(rs[1..], u, only);
      } else {
        FindSome(rs[1..], u);
      }
    }
  }

  /** A rejoin keeps everybody's place, a first join goes to the back. */
  lemma {:induction false} UsersJoined<C>(rs: seq<Entry<C>>, u: UserId, c: C)
    ensures Users(Joined(rs, u, c)) == if u in Users(rs) then Users(rs) else Users(rs) + [u]
  {
    if rs != [] && rs[0].user != u {
      UsersJoined(rs[1..], u, c);
      assert Joined(rs, u, c)[1..] == Joined(rs[1..], u, c);
    } else if rs != [] {
      assert Joined(rs, u, c)[1..] == rs[1..];
    }
  }

  /** A leave keeps the others' order. */
  lemma {:induction false} UsersLeft<C>(rs: seq<Entry<C>>, u: UserId, only: Option<C>)
    requires Unique(rs)
    ensures Users(Left(rs, u, only)) ==
      if Find(rs, u).None? || (only.Some? && Find(rs, u) != only) then Users(rs) else Others(Users(rs), u)
  {
    if rs != [] {
      FindSome(rs[1..], u);
      if rs[0].user != u {
        UsersLeft(rs[1..], u, only);
        assert Left(rs, u, only)[1..] == Left(rs[1..], u, only);
      } else {
        OthersThanAbsent(rs[1..], u);
      }
    }
  }

  function Others(us: seq<UserId>, u: UserId): seq<UserId> {
    if us == [] then [] else (if us[0] == u then [] else [us[0]]) + Others(us[1..], u)
  }

  lemma {:induction false} OthersThanAbsent<C>(rs: seq<Entry<C>>, u: UserId)
    requires Absent(rs, u)
    ensures Others(Users(rs), u) == Users(rs)
  {
    if rs != [] {
      OthersThanAbsent(rs[1..], u);
    }
  }

  lemma UniqueCons<C>(head: Entry<C>, rest: seq<Entry<C>>)
    requires Unique(rest) && forall e :: e in rest ==> e.user != head.user
    ensures Unique([head] + rest)
  {
    var rs := [head] + rest;
    forall i, j | 0 <= i < j < |rs| ensures rs[i].user != rs[j].user {
      assert rs[j] == rest[j - 1] && rest[j - 1] in rest;
    }
  }

  lemma {:induction false} UniqueJoined<C>(rs: seq<Entry<C>>, u: UserId, c: C)
    requires Unique(rs)
    ensures Unique(Joined(rs, u, c)) && Joined(rs, u, c) != []
    ensures forall e :: e in Joined(rs, u, c) ==> e in rs || e == Entry(u, c)
  {
    if rs != [] {
      var rest := rs[1..];
      if rs[0].user != u {
        UniqueJoined(rest, u, c);
        UniqueCons(rs[0], Joined(rest, u, c));
      } else {
        UniqueCons(Entry(u, c), rest);
      }
    }
  }

  lemma {:induction false} UniqueLeft<C>(rs: seq<Entry<C>>, u: UserId, only: Option<C>)
    requires Unique(rs)
    ensures Unique(Left(rs, u, only))
    ensures forall e :: e in Left(rs, u, only) ==> e in rs
  {
    if rs != [] && rs[0].user != u {
      UniqueLeft(rs[1..], u, only);
      UniqueCons(rs[0], Left(rs[1..], u, only));
    }
  }

  // ----- positional forms, for code that holds the element itself

  lemma {:induction false} JoinedAt<C>(rs: seq<Entry<C>>, i: nat, c: C)
    requires Unique(rs) && i < |rs|
    ensures Joined(rs, rs[i].user, c) == rs[i := Entry(rs[i].user, c)]
  {
    if i > 0 {
      var u, rest := rs[i].user, rs[1..];
      JoinedAt(rest, i - 1, c);
      assert Joined(rs, u, c) == [rs[0]] + rest[i - 1 := Entry(u, c)];
    }
  }

  lemma {:induction false} JoinedNew<C>(rs: seq<Entry<C>>, u: UserId, c: C)
    requires Absent(rs, u)
    ensures Joined(rs, u, c) == rs + [Entry(u, c)]
  {
    if rs != [] {
      JoinedNew(rs[1..], u, c);
    }
  }

  lemma {:induction false} LeftAt<C>(rs: seq<Entry<C>>, i: nat, only: Option<C>)
    requires Unique(rs) && i < |rs|
    ensures Left(rs, rs[i].user, only)
         == if only.Some? && rs[i].send != only.value then rs else rs[..i] + rs[i + 1..]
  {
    if i == 0 {
      assert rs[..0] + rs[1..] == rs[1..];
    } else {
      var rest := rs[1..];
      LeftAt(rest, i - 1, only);
      CutAfterHead(rs, i);
    }
  }

  lemma CutAfterHead<C>(rs: seq<Entry<C>>, i: nat)
    requires 0 < i < |rs|
    ensures rs == [rs[0]] + rs[1..]
    ensures rs[..i] + rs[i + 1..] == [rs[0]] + (rs[1..][..i - 1] + rs[1..][i..])
  {
  }

  lemma {:induction false} LeftAbsent<C>(rs: seq<Entry<C>>, u: UserId, only: Option<C>)
    requires Absent(rs, u)
    ensures Left(rs, u, only) == rs
  {
    if rs != [] {
      LeftAbsent(rs[1..], u, only);
    }
  }
}
