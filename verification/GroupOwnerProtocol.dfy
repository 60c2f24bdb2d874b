/**
 The owner of a group, whom creating the group makes a member without deleting any cache: when cached
 members lack the owner, for how long they can, and when a question about the owner is answered wrongly.
 */
module GroupOwnerProtocol {
  import opened Option
  import opened GroupServer
  import opened GroupCacheProtocol

  // ----- in every run: only the placeholder lacks the owner

  /** What was read has the owner, or was read before there was one and is empty. */
  predicate ReadOk(s: State, r: Refill) {
    r.NotRefilling? || r.ids == {} || (s.group.Some? && s.group.value.owner in r.ids)
  }

  predicate OwnerQuestionOk(s: State, q: Question) {
    match q
    case NotAsking => true
    case Asked(_) => true
    case Missed(u, standing, _) => standing.owner ==> IsOwner(s, u)
    case MissedTwice(u, standing) => standing.owner ==> IsOwner(s, u)
    case Waiting(u, standing, ids) => standing.owner ==> u in ids || ids == {}
    case Answered(u, answer, standing, basis) =>
      standing.owner ==> (!answer <==> basis.CachePresent? || basis == FromRefill({}))
  }

  ghost predicate OwnerOk(s: State) {
    && (s.group.None? ==> s.rows == map[])
    && (s.group.Some? ==> s.group.value.owner > 0 && s.group.value.owner in ActiveOf(s.rows))
    && (s.cache.Some? ==> s.cache.value.ids == {PLACEHOLDER} || (s.group.Some? && s.group.value.owner in s.cache.value.ids))
    && (forall j :: 0 <= j < |s.refills| ==> ReadOk(s, s.refills[j]))
    && (forall k :: 0 <= k < |s.questions| ==> OwnerQuestionOk(s, s.questions[k]))
  }

  lemma InitialOwnerOk(s: State)
    requires Initial(s)
    ensures OwnerOk(s)
  {
  }

  lemma NextKeepsOwnerOk(s: State, a: Action)
    requires OwnerOk(s) && Enabled(s, a)
    ensures OwnerOk(Next(s, a))
  {
    ActiveGrows(s, a);
    var s' := Next(s, a);
    forall j | 0 <= j < |s'.refills| ensures ReadOk(s', s'.refills[j]) {
      assert ReadOk(s, s.refills[j]);
    }
    forall k | 0 <= k < |s'.questions| ensures OwnerQuestionOk(s', s'.questions[k]) {
      assert OwnerQuestionOk(s, s.questions[k]);
      if a.Join? {
        assert ReadOk(s, s.refills[a.j]);
      }
    }
  }

  lemma {:induction false} RunKeepsOwnerOk(s: State, xs: seq<Action>, s': State, timely: bool)
    requires OwnerOk(s) && Run(s, xs, s', timely)
    ensures OwnerOk(s')
    decreases |xs|
  {
    if xs != [] {
      NextKeepsOwnerOk(s, xs[0]);
      RunKeepsOwnerOk(Next(s, xs[0]), xs[1..], s', timely);
    }
  }

  // ----- in timely runs: the placeholder is soon gone

  /** From this moment on nothing cached that lacks the owner has not expired. */
  function OwnerSafeFrom(g: Founding): nat {
    g.at + SECOND_DELETE_AFTER - 1 + PLACEHOLDER_TTL
  }

  predicate LateOwner(s: State, standing: Standing) {
    standing.owner && s.group.Some? && OwnerSafeFrom(s.group.value) <= standing.at
  }

  predicate LateQuestionOk(s: State, q: Question) {
    match q
    case NotAsking => true
    case Asked(_) => true
    case Missed(_, standing, first) => standing.at <= s.now && (LateOwner(s, standing) ==> !first)
    case MissedTwice(_, standing) => standing.at <= s.now
    case Waiting(_, standing, ids) => standing.at <= s.now && (LateOwner(s, standing) ==> ids != {})
    case Answered(_, answer, standing, basis) =>
      standing.at <= s.now && (LateOwner(s, standing) ==> (!answer <==> basis == CachePresent(false)))
  }

  predicate RefillTimeOk(s: State, r: Refill) {
    r.NotRefilling? || (r.at <= s.now && (s.group.Some? && r.ids == {} ==> r.at <= s.group.value.at))
  }

  /** Every placeholder in the cache expires before the owner's safe time, or that of an owner yet to come. */
  predicate PlaceholderTimeOk(s: State) {
    s.cache.Some? && s.cache.value.ids == {PLACEHOLDER} ==>
      s.cache.value.expires <= if s.group.Some? then OwnerSafeFrom(s.group.value) else s.now + PLACEHOLDER_TTL
  }

  ghost predicate OwnerTimesOk(s: State) {
    && OwnerOk(s) && PlaceholderTimeOk(s)
    && (s.group.Some? ==> s.group.value.at <= s.now)
    && (forall j :: 0 <= j < |s.refills| ==> RefillTimeOk(s, s.refills[j]))
    && (forall k :: 0 <= k < |s.questions| ==> LateQuestionOk(s, s.questions[k]))
  }

  lemma PlaceholderStays(s: State, a: Action)
    requires OwnerTimesOk(s) && Enabled(s, a) && Timely(s, a)
    ensures PlaceholderTimeOk(Next(s, a))
  {
    if a.WriteMembers? {
      assert ReadOk(s, s.refills[a.j]) && RefillTimeOk(s, s.refills[a.j]);
    }
  }

  lemma QuestionsStay(s: State, a: Action, k: nat)
    requires OwnerTimesOk(s) && Enabled(s, a) && Timely(s, a) && k < |s.questions|
    ensures LateQuestionOk(Next(s, a), Next(s, a).questions[k])
  {
    assert LateQuestionOk(s, s.questions[k]) && OwnerQuestionOk(s, s.questions[k]);
    if a.Join? {
      assert ReadOk(s, s.refills[a.j]) && RefillTimeOk(s, s.refills[a.j]);
    }
  }

  lemma NextKeepsOwnerTimes(s: State, a: Action)
    requires OwnerTimesOk(s) && Enabled(s, a) && Timely(s, a)
    ensures OwnerTimesOk(Next(s, a))
  {
    var s' := Next(s, a);
    NextKeepsOwnerOk(s, a);
    PlaceholderStays(s, a);
    forall j | 0 <= j < |s'.refills| ensures RefillTimeOk(s', s'.refills[j]) {
      assert RefillTimeOk(s, s.refills[j]);
    }
    forall k | 0 <= k < |s'.questions| ensures LateQuestionOk(s', s'.questions[k]) {
      QuestionsStay(s, a, k);
    }
  }

  lemma {:induction false} RunKeepsOwnerTimes(s: State, xs: seq<Action>, s': State)
    requires OwnerTimesOk(s) && Run(s, xs, s', true)
    ensures OwnerTimesOk(s')
    decreases |xs|
  {
    if xs != [] {
      NextKeepsOwnerTimes(s, xs[0]);
      RunKeepsOwnerTimes(Next(s, xs[0]), xs[1..], s');
    }
  }

  // ----- the main theorems

  /** Cached members lack the owner exactly if they are the placeholder, in every run. */
  lemma OwnerIsHiddenIff(s0: State, xs: seq<Action>, s: State, timely: bool)
    requires Initial(s0) && Run(s0, xs, s, timely) && s.group.Some?
    ensures s.group.value.owner in ActiveOf(s.rows)
    ensures s.cache.Some? ==> (s.group.value.owner !in s.cache.value.ids <==> s.cache.value.ids == {PLACEHOLDER})
  {
    InitialOwnerOk(s0);
    RunKeepsOwnerOk(s0, xs, s, timely);
  }

  /** A question about the owner of an existing group is denied exactly on a present cache or by a refill that found nobody. */
  lemma OwnerAnswerIsRightUnless(s0: State, xs: seq<Action>, s: State, timely: bool, k: nat)
    requires Initial(s0) && Run(s0, xs, s, timely)
    requires k < |s.questions| && s.questions[k].Answered? && s.questions[k].standing.owner
    ensures var q := s.questions[k]; !q.answer <==> q.basis.CachePresent? || q.basis == FromRefill({})
  {
    InitialOwnerOk(s0);
    RunKeepsOwnerOk(s0, xs, s, timely);
    assert OwnerQuestionOk(s, s.questions[k]);
  }

  /** With quick refills no unexpired entry lacks the owner from 199 ms and a placeholder's life after the creation on. */
  lemma OwnerIsCachedFrom(s0: State, xs: seq<Action>, s: State)
    requires Initial(s0) && Run(s0, xs, s, true) && s.group.Some? && OwnerSafeFrom(s.group.value) <= s.now
    ensures Present(s.cache, s.now) ==> s.group.value.owner in s.cache.value.ids
  {
    InitialOwnerOk(s0);
    RunKeepsOwnerTimes(s0, xs, s);
  }

  /** And a question first read from then on is as safe as that of a settled user. */
  lemma LateOwnerAnswerIsRightUnless(s0: State, xs: seq<Action>, s: State, k: nat)
    requires Initial(s0) && Run(s0, xs, s, true) && s.group.Some?
    requires k < |s.questions| && s.questions[k].Answered?
    requires s.questions[k].standing.owner && OwnerSafeFrom(s.group.value) <= s.questions[k].standing.at
    ensures !s.questions[k].answer <==> s.questions[k].basis == CachePresent(false)
  {
    InitialOwnerOk(s0);
    RunKeepsOwnerTimes(s0, xs, s);
    assert LateQuestionOk(s, s.questions[k]);
  }
}
