/** The limits of what the group cache keeps, each shown by a run with one adder, one refill and one question. */
module GroupCacheLimits {
  import opened Option
  import opened GroupServer
  import opened GroupCacheProtocol
  import opened GroupOwnerProtocol

  lemma {:induction false} RunSnoc(s0: State, xs: seq<Action>, s: State, timely: bool, a: Action)
    requires Run(s0, xs, s, timely) && Enabled(s, a) && (timely ==> Timely(s, a))
    ensures Run(s0, xs + [a], Next(s, a), timely)
    decreases |xs|
  {
    if xs == [] {
      assert Run(Next(s, a), [a][1..], Next(s, a), timely);
    } else {
      RunSnoc(Next(s0, xs[0]), xs[1..], s, timely, a);
      assert (xs + [a])[1..] == xs[1..] + [a];
    }
  }

  lemma Then(s0: State, xs: seq<Action>, s: State, timely: bool, a: Action) returns (ys: seq<Action>, s': State)
    requires Run(s0, xs, s, timely) && Enabled(s, a) && (timely ==> Timely(s, a))
    ensures Run(s0, ys, s', timely) && s' == Next(s, a)
  {
    RunSnoc(s0, xs, s, timely, a);
    ys, s' := xs + [a], Next(s, a);
  }

  function Small(): State {
    State(None, map[], None, 0, map[], [NotAdding], [NotRefilling], [NotAsking])
  }

  /** Adds a user to the group, both deletes done. */
  lemma Settle(xs: seq<Action>, s: State, timely: bool, u: UserId) returns (ys: seq<Action>, s': State)
    requires Run(Small(), xs, s, timely) && s.group.Some? && u !in s.rows && |s.adders| == 1 && s.adders[0].NotAdding?
    ensures Run(Small(), ys, s', timely)
    ensures s' == s.(rows := s.rows[u := 0], cache := None, now := s.now + 200, settled := s.settled[u := s.now])
  {
    ys, s' := Then(Small(), xs, s, timely, Add(0, u));
    ys, s' := Then(Small(), ys, s', timely, Insert(0));
    ys, s' := Then(Small(), ys, s', timely, FirstDelete(0, true));
    ys, s' := Then(Small(), ys, s', timely, Tick(200));
    ys, s' := Then(Small(), ys, s', timely, SecondDelete(0, true));
    assert s'.adders == s.adders;
  }

  /** 200 ms is tight: a refill that takes exactly that long can hide a settled user. */
  lemma SlowRefillHidesSettledUser(owner: UserId, u: UserId) returns (xs: seq<Action>, s: State)
    requires owner > 0 && owner != u
    ensures Initial(Small()) && Run(Small(), xs, s, false)
    ensures u in s.settled && Present(s.cache, s.now) && u !in s.cache.value.ids
  {
    xs, s := Then(Small(), [], Small(), false, Create(owner));
    xs, s := Then(Small(), xs, s, false, ReadMembers(0));
    assert s.refills[0].ids == {owner};
    xs, s := Settle(xs, s, false, u);
    xs, s := Then(Small(), xs, s, false, WriteMembers(0, true));
  }

  /** A whole refill in the middle of a question. */
  lemma RefillAtOnce(xs: seq<Action>, s: State) returns (ys: seq<Action>, s': State)
    requires Run(Small(), xs, s, true) && |s.refills| == 1 && s.refills[0].NotRefilling?
    ensures Run(Small(), ys, s', true)
    ensures s' == s.(cache := Some(EntryFor(ActiveOf(s.rows), s.now)))
  {
    ys, s' := Then(Small(), xs, s, true, ReadMembers(0));
    assert s'.refills[0] == HasRead(ActiveOf(s.rows), s.now);
    ys, s' := Then(Small(), ys, s', true, WriteMembers(0, true));
    ys, s' := Then(Small(), ys, s', true, EndRefill(0));
    assert s'.refills == s.refills;
  }

  /** Even with quick refills, one that lands between a question's two reads denies a settled member. */
  lemma RefillBetweenReadsDeniesMember(owner: UserId, u: UserId) returns (xs: seq<Action>, s: State)
    requires owner > 0 && owner != u
    ensures Initial(Small()) && Run(Small(), xs, s, true) && u in s.settled && u in ActiveOf(s.rows)
    ensures s.questions == [Answered(u, false, Standing(true, false, s.now), CachePresent(false))]
  {
    xs, s := Then(Small(), [], Small(), true, Create(owner));
    xs, s := Settle(xs, s, true, u);
    xs, s := AskAbsent(xs, s, u);
    xs, s := RefillAtOnce(xs, s);
    xs, s := Then(Small(), xs, s, true, SecondRead(0));
  }

  /** A question that finds no cache, up to its second read. */
  lemma AskAbsent(xs: seq<Action>, s: State, u: UserId) returns (ys: seq<Action>, s': State)
    requires Run(Small(), xs, s, true) && |s.questions| == 1 && s.questions[0].NotAsking? && s.cache.None?
    ensures Run(Small(), ys, s', true)
    ensures s' == s.(questions := [Missed(u, Standing(u in s.settled, IsOwner(s, u), s.now), false)])
  {
    ys, s' := Then(Small(), xs, s, true, Ask(0, u));
    ys, s' := Then(Small(), ys, s', true, FirstRead(0));
  }

  /**
   A placeholder read before the group was created and cached `late` ms after it denies the owner until it
   expires, in a timely run. The latest such moment, for 199 ms, is the last one before `OwnerSafeFrom`.
   */
  lemma PlaceholderShutsOutOwner(owner: UserId, late: nat, wait: nat) returns (xs: seq<Action>, s: State)
    requires owner > 0 && late < SECOND_DELETE_AFTER && wait < PLACEHOLDER_TTL
    ensures Initial(Small()) && Run(Small(), xs, s, true)
    ensures s.group == Some(Founding(owner, 0)) && s.now == late + wait && owner in ActiveOf(s.rows)
    ensures Present(s.cache, s.now) && owner !in s.cache.value.ids
    ensures s.questions == [Answered(owner, false, Standing(false, true, s.now), CachePresent(true))]
    ensures late == SECOND_DELETE_AFTER - 1 && wait == PLACEHOLDER_TTL - 1 ==> s.now + 1 == OwnerSafeFrom(s.group.value)
  {
    xs, s := CacheLate(owner, late);
    xs, s := Then(Small(), xs, s, true, Tick(wait));
    xs, s := AskPresent(xs, s, owner);
  }

  /** A refill reads before the group is created and writes after it. */
  lemma CacheLate(owner: UserId, late: nat) returns (xs: seq<Action>, s: State)
    requires owner > 0 && late < SECOND_DELETE_AFTER
    ensures Run(Small(), xs, s, true)
    ensures s == Small().(group := Some(Founding(owner, 0)), rows := map[owner := 0], now := late,
      cache := Some(Entry({PLACEHOLDER}, late + PLACEHOLDER_TTL)), refills := [Written({}, 0)])
  {
    xs, s := Then(Small(), [], Small(), true, ReadMembers(0));
    assert ActiveOf(map[]) == {};
    assert s == Small().(refills := [HasRead({}, 0)]);
    xs, s := Then(Small(), xs, s, true, Create(owner));
    xs, s := Then(Small(), xs, s, true, Tick(late));
    xs, s := Then(Small(), xs, s, true, WriteMembers(0, true));
  }

  /** A question about a user whom the present cache does not have. */
  lemma AskPresent(xs: seq<Action>, s: State, u: UserId) returns (ys: seq<Action>, s': State)
    requires Run(Small(), xs, s, true) && |s.questions| == 1 && s.questions[0].NotAsking?
    requires Present(s.cache, s.now) && u !in s.cache.value.ids
    ensures Run(Small(), ys, s', true)
    ensures s' == s.(questions := [Answered(u, false, Standing(u in s.settled, IsOwner(s, u), s.now), CachePresent(true))])
  {
    ys, s' := Then(Small(), xs, s, true, Ask(0, u));
    ys, s' := Then(Small(), ys, s', true, FirstRead(0));
    ys, s' := Then(Small(), ys, s', true, SecondRead(0));
  }
}
