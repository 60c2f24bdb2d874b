/**
 One group's members in the database and in the cache, with calls running concurrently and a clock
 in milliseconds. Adding a user deletes the cached members twice, the second time at least 200 ms
 after the first; a refill reads the database and writes what it read to the cache later.
 */
module GroupCacheProtocol {
  import opened Option
  import opened GroupServer

  datatype Adder =
    | NotAdding
    | Inserting(u: UserId)
    | Inserted(u: UserId)
    | DeletedOnce(u: UserId, at: nat)

  /** A refill is under way until it returns what it read to those who wait for it. */
  datatype Refill =
    | NotRefilling
    | HasRead(ids: set<UserId>, at: nat)
    | Written(ids: set<UserId>, at: nat)

  /** How things stood at a question's first read: was the user settled, was it the group's owner, when was it? */
  datatype Standing = Standing(settled: bool, owner: bool, at: nat)

  /** What an answer rests on; `first` says whether the cache was present at the first read already. */
  datatype Basis = InCache | CachePresent(first: bool) | FromRefill(ids: set<UserId>)

  datatype Question =
    | NotAsking
    | Asked(u: UserId)
    | Missed(u: UserId, standing: Standing, first: bool)
    | MissedTwice(u: UserId, standing: Standing)
    | Waiting(u: UserId, standing: Standing, ids: set<UserId>)
    | Answered(u: UserId, answer: bool, standing: Standing, basis: Basis)

  datatype Founding = Founding(owner: UserId, at: nat)

  /** `settled` records whom both deletes were done for, and when the first was. */
  datatype State = State(
    group: Option<Founding>, rows: Rows, cache: Option<Entry>, now: nat, settled: map<UserId, nat>,
    adders: seq<Adder>, refills: seq<Refill>, questions: seq<Question>)

  datatype Action =
    | Tick(d: nat)
    | Create(owner: UserId)
    | Add(i: nat, u: UserId)
    | Insert(i: nat)
    | FirstDelete(i: nat, reached: bool)
    | SecondDelete(i: nat, reached: bool)
    | Crash(i: nat)
    | ReadMembers(j: nat)
    | WriteMembers(j: nat, reached: bool)
    | EndRefill(j: nat)
    | Ask(k: nat, u: UserId)
    | FirstRead(k: nat)
    | SecondRead(k: nat)
    | Join(k: nat, j: nat)
    | TakeAnswer(k: nat)
    | Forget(k: nat)

  predicate Enabled(s: State, a: Action) {
    match a
    case Tick(_) => true
    case Create(owner) => s.group.None? && s.rows == map[] && owner > 0
    case Add(i, _) => i < |s.adders| && s.adders[i].NotAdding?
    case Insert(i) => i < |s.adders| && s.adders[i].Inserting?
    case FirstDelete(i, _) => i < |s.adders| && s.adders[i].Inserted?
    case SecondDelete(i, _) => i < |s.adders| && s.adders[i].DeletedOnce? && s.adders[i].at + SECOND_DELETE_AFTER <= s.now
    case Crash(i) => i < |s.adders|
    case ReadMembers(j) => j < |s.refills| && s.refills[j].NotRefilling?
    case WriteMembers(j, _) => j < |s.refills| && s.refills[j].HasRead?
    case EndRefill(j) => j < |s.refills| && !s.refills[j].NotRefilling?
    case Ask(k, _) => k < |s.questions| && s.questions[k].NotAsking?
    case FirstRead(k) => k < |s.questions| && s.questions[k].Asked?
    case SecondRead(k) => k < |s.questions| && s.questions[k].Missed?
    case Join(k, j) => k < |s.questions| && s.questions[k].MissedTwice? && j < |s.refills| && !s.refills[j].NotRefilling?
    case TakeAnswer(k) => k < |s.questions| && s.questions[k].Waiting?
    case Forget(k) => k < |s.questions| && s.questions[k].Answered?
  }

  predicate IsOwner(s: State, u: UserId) {
    s.group.Some? && s.group.value.owner == u
  }

  function Next(s: State, a: Action): State
    requires Enabled(s, a)
  {
    match a
    case Tick(d) => s.(now := s.now + d)
    case Create(owner) => s.(group := Some(Founding(owner, s.now)), rows := map[owner := 0])
    case Add(i, u) => s.(adders := s.adders[i := Inserting(u)])
    case Insert(i) =>
      var u := s.adders[i].u;
      if s.group.None? || u in s.rows then s.(adders := s.adders[i := NotAdding])
      else s.(rows := WithMember(s.rows, u), adders := s.adders[i := Inserted(u)])
    case FirstDelete(i, reached) =>
      s.(cache := if reached then None else s.cache, adders := s.adders[i := DeletedOnce(s.adders[i].u, s.now)])
    case SecondDelete(i, reached) =>
      s.(cache := if reached then None else s.cache, adders := s.adders[i := NotAdding],
         settled := if reached then s.settled[s.adders[i].u := s.adders[i].at] else s.settled)
    case Crash(i) => s.(adders := s.adders[i := NotAdding])
    case ReadMembers(j) => s.(refills := s.refills[j := HasRead(ActiveOf(s.rows), s.now)])
    case WriteMembers(j, reached) =>
      s.(cache := if reached then Some(EntryFor(s.refills[j].ids, s.now)) else s.cache,
         refills := s.refills[j := Written(s.refills[j].ids, s.refills[j].at)])
    case EndRefill(j) => s.(refills := s.refills[j := NotRefilling])
    case Ask(k, u) => s.(questions := s.questions[k := Asked(u)])
    case FirstRead(k) =>
      var u, present := s.questions[k].u, Present(s.cache, s.now);
      var standing := Standing(u in s.settled, IsOwner(s, u), s.now);
      s.(questions := s.questions[k :=
        if present && u in s.cache.value.ids then Answered(u, true, standing, InCache)
        else Missed(u, standing, present)])
    case SecondRead(k) =>
      var q := s.questions[k];
      s.(questions := s.questions[k :=
        if Present(s.cache, s.now) then Answered(q.u, false, q.standing, CachePresent(q.first))
        else MissedTwice(q.u, q.standing)])
    case Join(k, j) =>
      var q := s.questions[k];
      s.(questions := s.questions[k := Waiting(q.u, q.standing, s.refills[j].ids)])
    case TakeAnswer(k) =>
      var q := s.questions[k];
      s.(questions := s.questions[k := Answered(q.u, q.u in q.ids, q.standing, FromRefill(q.ids))])
    case Forget(k) => s.(questions := s.questions[k := NotAsking])
  }

  /** No refill takes 200 ms from its read to its write, nor is it joined so late; when it returns does not matter. */
  predicate Timely(s: State, a: Action)
    requires Enabled(s, a)
  {
    match a
    case WriteMembers(j, _) => s.now < s.refills[j].at + SECOND_DELETE_AFTER
    case Join(_, j) => s.now < s.refills[j].at + SECOND_DELETE_AFTER
    case _ => true
  }

  predicate Initial(s: State) {
    && s.group == None && s.rows == map[] && s.cache == None && s.settled == map[]
    && (forall i :: 0 <= i < |s.adders| ==> s.adders[i].NotAdding?)
    && (forall j :: 0 <= j < |s.refills| ==> s.refills[j].NotRefilling?)
    && (forall k :: 0 <= k < |s.questions| ==> s.questions[k].NotAsking?)
  }

  // ----- in every run: the cache and the answers never go beyond the members

  ghost predicate WithinMembers(s: State) {
    && (s.group.None? ==> s.rows == map[])
    && (s.cache.Some? ==> s.cache.value.ids <= ActiveOf(s.rows) + {PLACEHOLDER})
    && (forall j :: 0 <= j < |s.refills| && !s.refills[j].NotRefilling? ==> s.refills[j].ids <= ActiveOf(s.rows))
    && (forall k :: 0 <= k < |s.questions| && s.questions[k].Waiting? ==> s.questions[k].ids <= ActiveOf(s.rows))
    && (forall k :: 0 <= k < |s.questions| && s.questions[k].Answered? && s.questions[k].answer ==>
          s.questions[k].u in ActiveOf(s.rows) + {PLACEHOLDER})
    && (forall k :: 0 <= k < |s.questions| ==> FollowsBasis(s.questions[k]))
  }

  /** Who is found is confirmed, and who is not is denied. */
  predicate FollowsBasis(q: Question) {
    q.Answered? ==>
      (q.answer <==> match q.basis
        case InCache => true
        case CachePresent(_) => false
        case FromRefill(ids) => q.u in ids)
  }

  lemma ActiveGrows(s: State, a: Action)
    requires Enabled(s, a)
    ensures ActiveOf(s.rows) <= ActiveOf(Next(s, a).rows)
  {
  }

  lemma NextKeepsWithin(s: State, a: Action)
    requires WithinMembers(s) && Enabled(s, a)
    ensures WithinMembers(Next(s, a))
  {
    ActiveGrows(s, a);
  }

  ghost predicate Run(s: State, xs: seq<Action>, s': State, timely: bool)
    decreases |xs|
  {
    if xs == [] then s' == s
    else Enabled(s, xs[0]) && (timely ==> Timely(s, xs[0])) && Run(Next(s, xs[0]), xs[1..], s', timely)
  }

  lemma {:induction false} RunKeepsWithin(s: State, xs: seq<Action>, s': State, timely: bool)
    requires WithinMembers(s) && Run(s, xs, s', timely)
    ensures WithinMembers(s')
    decreases |xs|
  {
    if xs != [] {
      NextKeepsWithin(s, xs[0]);
      RunKeepsWithin(Next(s, xs[0]), xs[1..], s', timely);
    }
  }

  // ----- in timely runs: a settled user is in every cache entry

  ghost predicate SettledOk(s: State) {
    forall u :: u in s.settled ==>
      && u in ActiveOf(s.rows)
      && s.settled[u] + SECOND_DELETE_AFTER <= s.now
      && (s.cache.Some? ==> u in s.cache.value.ids)
      && ReadSince(s, u, s.settled[u])
  }

  /** Whatever was read from the database after `at` has the user. */
  ghost predicate ReadSince(s: State, u: UserId, at: nat) {
    forall j :: 0 <= j < |s.refills| && !s.refills[j].NotRefilling? && s.refills[j].at > at ==> u in s.refills[j].ids
  }

  ghost predicate AddersOk(s: State) {
    forall i :: 0 <= i < |s.adders| ==>
      match s.adders[i]
      case NotAdding => true
      case Inserting(_) => true
      case Inserted(u) => u in ActiveOf(s.rows)
      case DeletedOnce(u, at) => u in ActiveOf(s.rows) && at <= s.now && ReadSince(s, u, at)
  }

  predicate QuestionOk(s: State, q: Question) {
    match q
    case NotAsking => true
    case Asked(_) => true
    case Missed(u, standing, first) => standing.settled ==> u in s.settled && !first
    case MissedTwice(u, standing) => standing.settled ==> u in s.settled
    case Waiting(u, standing, ids) => standing.settled ==> u in ids
    case Answered(u, answer, standing, basis) => standing.settled ==> (!answer <==> basis == CachePresent(false))
  }

  ghost predicate Inv(s: State) {
    && WithinMembers(s) && SettledOk(s) && AddersOk(s)
    && (forall j :: 0 <= j < |s.refills| && !s.refills[j].NotRefilling? ==> s.refills[j].at <= s.now)
    && (forall k :: 0 <= k < |s.questions| ==> QuestionOk(s, s.questions[k]))
  }

  lemma InitialInv(s: State)
    requires Initial(s)
    ensures Inv(s)
  {
  }

  lemma SettledStays(s: State, a: Action)
    requires Inv(s) && Enabled(s, a) && Timely(s, a)
    ensures SettledOk(Next(s, a))
  {
    ActiveGrows(s, a);
  }

  lemma AddersStay(s: State, a: Action)
    requires Inv(s) && Enabled(s, a)
    ensures AddersOk(Next(s, a))
  {
    ActiveGrows(s, a);
  }

  lemma NextKeepsInv(s: State, a: Action)
    requires Inv(s) && Enabled(s, a) && Timely(s, a)
    ensures Inv(Next(s, a))
  {
    NextKeepsWithin(s, a);
    SettledStays(s, a);
    AddersStay(s, a);
  }

  lemma {:induction false} RunKeepsInv(s: State, xs: seq<Action>, s': State)
    requires Inv(s) && Run(s, xs, s', true)
    ensures Inv(s')
    decreases |xs|
  {
    if xs != [] {
      NextKeepsInv(s, xs[0]);
      RunKeepsInv(Next(s, xs[0]), xs[1..], s');
    }
  }

  // ----- the main theorems

  /** The cache holds members only, or the placeholder besides; and so do positive answers. */
  lemma NeverMoreThanMembers(s0: State, xs: seq<Action>, s: State, k: nat)
    requires Initial(s0) && Run(s0, xs, s, false)
    ensures s.cache.Some? ==> s.cache.value.ids <= ActiveOf(s.rows) + {PLACEHOLDER}
    ensures k < |s.questions| && s.questions[k].Answered? && s.questions[k].answer && s.questions[k].u != PLACEHOLDER
      ==> s.questions[k].u in ActiveOf(s.rows)
  {
    RunKeepsWithin(s0, xs, s, false);
  }

  /** In every run an answer is yes exactly if the user was in the cache, or in what the joined refill read. */
  lemma AnswersFollowBasis(s0: State, xs: seq<Action>, s: State, timely: bool, k: nat)
    requires Initial(s0) && Run(s0, xs, s, timely) && k < |s.questions| && s.questions[k].Answered?
    ensures var q := s.questions[k];
      q.answer <==> q.basis.InCache? || (q.basis.FromRefill? && q.u in q.basis.ids)
  {
    RunKeepsWithin(s0, xs, s, timely);
    assert FollowsBasis(s.questions[k]);
  }

  /** A first read finds whoever the present cache holds. */
  lemma FirstReadFinds(s: State, k: nat)
    requires Enabled(s, FirstRead(k))
    ensures var q, u := Next(s, FirstRead(k)).questions[k], s.questions[k].u;
      (q.Answered? && q.answer && q.u == u) <==> (s.cache.Some? && s.now < s.cache.value.expires && u in s.cache.value.ids)
  {
  }

  /** Once both deletes are done for a user, no cache entry lacks the user, however refills interleave. */
  lemma SettledUserIsCached(s0: State, xs: seq<Action>, s: State, u: UserId)
    requires Initial(s0) && Run(s0, xs, s, true) && u in s.settled
    ensures u in ActiveOf(s.rows)
    ensures s.cache.Some? ==> u in s.cache.value.ids
  {
    InitialInv(s0);
    RunKeepsInv(s0, xs, s);
  }

  /** For a settled user the answer is wrong exactly when the cache was empty at the first read and filled at the second. */
  lemma SettledAnswerIsRightUnless(s0: State, xs: seq<Action>, s: State, k: nat)
    requires Initial(s0) && Run(s0, xs, s, true)
    requires k < |s.questions| && s.questions[k].Answered? && s.questions[k].standing.settled
    ensures !s.questions[k].answer <==> s.questions[k].basis == CachePresent(false)
  {
    InitialInv(s0);
    RunKeepsInv(s0, xs, s);
    assert QuestionOk(s, s.questions[k]);
  }
}
