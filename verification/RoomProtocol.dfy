/**
 The room registry under concurrency. Every thread repeatedly calls JoinRoom,
 LeaveRoom or BroadcastRoom; each call runs as the atomic sections its locks
 delimit, and a step of the system runs one section of one thread.

 A room object is named by its position in `heap`, where it stays for ever; it
 is reachable for new calls only while `mapped` names it. `bucketOf` is the hash
 that picks the bucket, and so the lock, of a room id.
 */
module RoomProtocol {
  import opened Option
  import opened Roster
  import opened RoomSpec

  type Chan = nat
  type Ref = nat
  type Members = seq<Entry<Chan>>

  // ----- the atomic object: a call is invoked, performed once at one instant, and returns

  datatype Call = NoCall | Waiting(op: Op<Chan>) | Performed(op: Op<Chan>, resp: Resp<Chan>)
  datatype Atomic = Atomic(rooms: Rooms<Chan>, calls: seq<Call>)
  datatype AtomicAction = AInvoke(t: nat, op: Op<Chan>) | APerform(t: nat) | AReturn(t: nat)

  datatype Event = Called(t: nat, op: Op<Chan>) | Returned(t: nat, op: Op<Chan>, resp: Resp<Chan>)

  predicate AtomicEnabled(a: Atomic, x: AtomicAction) {
    x.t < |a.calls| &&
    match x
    case AInvoke(t, op) => a.calls[t].NoCall?
    case APerform(t) => a.calls[t].Waiting?
    case AReturn(t) => a.calls[t].Performed?
  }

  function AtomicNext(a: Atomic, x: AtomicAction): Atomic
    requires AtomicEnabled(a, x)
  {
    match x
    case AInvoke(t, op) => a.(calls := a.calls[t := Waiting(op)])
    case APerform(t) =>
      var (rooms, resp) := Perform(a.rooms, a.calls[t].op);
      Atomic(rooms, a.calls[t := Performed(a.calls[t].op, resp)])
    case AReturn(t) => a.(calls := a.calls[t := NoCall])
  }

  function AtomicEvents(a: Atomic, x: AtomicAction): seq<Event>
    requires AtomicEnabled(a, x)
  {
    match x
    case AInvoke(t, op) => [Called(t, op)]
    case APerform(t) => []
    case AReturn(t) => [Returned(t, a.calls[t].op, a.calls[t].resp)]
  }

  ghost predicate AtomicRun(a: Atomic, xs: seq<AtomicAction>, a': Atomic, events: seq<Event>)
    decreases |xs|
  {
    if xs == [] then a' == a && events == []
    else
      AtomicEnabled(a, xs[0]) &&
      AtomicEvents(a, xs[0]) <= events &&
      AtomicRun(AtomicNext(a, xs[0]), xs[1..], a', events[|AtomicEvents(a, xs[0])|..])
  }

  // ----- the code: one section per step

  datatype PC =
    | Idle
    | Begun(op: Op<Chan>)
    | JoinHolding(room: RoomId, user: UserId, send: Chan, ref: Ref)
    | LeaveFound(room: RoomId, user: UserId, only: Option<Chan>, ref: Ref)
    | ReapWaiting(room: RoomId, user: UserId, only: Option<Chan>, ref: Ref)
    | ReapHolding(room: RoomId, user: UserId, only: Option<Chan>, ref: Ref)
    | ReapDecided(room: RoomId, user: UserId, only: Option<Chan>, ref: Ref, isEmpty: bool)
    | BroadcastFound(room: RoomId, from: UserId, ref: Ref)
    | Returning(op: Op<Chan>, resp: Resp<Chan>)

  datatype State = State(mapped: map<RoomId, Ref>, heap: seq<Members>, threads: seq<PC>)

  datatype Action = Invoke(t: nat, op: Op<Chan>) | Advance(t: nat) | Return(t: nat)

  function Init(threads: nat): State {
    State(map[], [], seq(threads, i => Idle))
  }

  predicate HasRef(pc: PC) {
    pc.JoinHolding? || pc.LeaveFound? || pc.ReapWaiting? || pc.ReapHolding? || pc.ReapDecided? || pc.BroadcastFound?
  }

  /** The thread owns the write lock of its room's bucket. */
  predicate Holding(pc: PC) {
    pc.JoinHolding? || pc.ReapHolding? || pc.ReapDecided?
  }

  predicate BucketFree(bucketOf: RoomId -> nat, s: State, room: RoomId) {
    forall t :: 0 <= t < |s.threads| && Holding(s.threads[t]) ==> bucketOf(s.threads[t].room) != bucketOf(room)
  }

  predicate RefsInHeap(s: State) {
    && (forall room :: room in s.mapped ==> s.mapped[room] < |s.heap|)
    && (forall t :: 0 <= t < |s.threads| && HasRef(s.threads[t]) ==> s.threads[t].ref < |s.heap|)
  }

  predicate MappedAt(s: State, room: RoomId, ref: Ref) {
    room in s.mapped && s.mapped[room] == ref
  }

  predicate Enabled(bucketOf: RoomId -> nat, s: State, x: Action) {
    x.t < |s.threads| &&
    var pc := s.threads[x.t];
    match x
    case Invoke(t, op) => pc.Idle?
    case Return(t) => pc.Returning?
    case Advance(t) =>
      match pc
      case Idle => false
      case Returning(_, _) => false
      case Begun(op) => BucketFree(bucketOf, s, op.room)
      case ReapWaiting(room, _, _, _) => BucketFree(bucketOf, s, room)
      case _ => true
  }

  function Goto(s: State, t: nat, pc: PC): State
    requires t < |s.threads|
  {
    s.(threads := s.threads[t := pc])
  }

  /** First section of each call: the bucket lookup; a join also takes the write lock and creates. */
  function Lookup(s: State, t: nat, op: Op<Chan>): State
    requires t < |s.threads|
  {
    match op
    case Join(room, user, send) =>
      if room in s.mapped then Goto(s, t, JoinHolding(room, user, send, s.mapped[room]))
      else State(s.mapped[room := |s.heap|], s.heap + [[]], s.threads[t := JoinHolding(room, user, send, |s.heap|)])
    case Leave(room, user, only) =>
      if room in s.mapped then Goto(s, t, LeaveFound(room, user, only, s.mapped[room]))
      else Goto(s, t, Returning(op, Unit))
    case Broadcast(room, from) =>
      if room in s.mapped then Goto(s, t, BroadcastFound(room, from, s.mapped[room]))
      else Goto(s, t, Returning(op, SendTo([])))
  }

  function Section(s: State, t: nat): State
    requires RefsInHeap(s) && t < |s.threads| && !s.threads[t].Idle? && !s.threads[t].Returning?
  {
    match s.threads[t]
    case Begun(op) => Lookup(s, t, op)
    case JoinHolding(room, user, send, ref) =>
      Goto(s, t, Returning(Join(room, user, send), Unit)).(heap := s.heap[ref := Joined(s.heap[ref], user, send)])
    case LeaveFound(room, user, only, ref) =>
      var members := Left(s.heap[ref], user, only);
      var pc := if members == [] then ReapWaiting(room, user, only, ref) else Returning(Leave(room, user, only), Unit);
      Goto(s, t, pc).(heap := s.heap[ref := members])
    case ReapWaiting(room, user, only, ref) =>
      if MappedAt(s, room, ref) then Goto(s, t, ReapHolding(room, user, only, ref))
      else Goto(s, t, Returning(Leave(room, user, only), Unit))
    case ReapHolding(room, user, only, ref) =>
      Goto(s, t, ReapDecided(room, user, only, ref, s.heap[ref] == []))
    case ReapDecided(room, user, only, ref, isEmpty) =>
      Goto(s, t, Returning(Leave(room, user, only), Unit)).(mapped := if isEmpty then s.mapped - {room} else s.mapped)
    case BroadcastFound(room, from, ref) =>
      Goto(s, t, Returning(Broadcast(room, from), SendTo(Targets(s.heap[ref], from))))
  }

  function Next(bucketOf: RoomId -> nat, s: State, x: Action): State
    requires RefsInHeap(s) && Enabled(bucketOf, s, x)
  {
    match x
    case Invoke(t, op) => Goto(s, t, Begun(op))
    case Advance(t) => Section(s, t)
    case Return(t) => Goto(s, t, Idle)
  }

  function Events(s: State, x: Action): seq<Event>
    requires x.t < |s.threads| && (x.Return? ==> s.threads[x.t].Returning?)
  {
    match x
    case Invoke(t, op) => [Called(t, op)]
    case Advance(t) => []
    case Return(t) => [Returned(t, s.threads[t].op, s.threads[t].resp)]
  }

  /** `s'` is reached from `s` by the actions `xs`, seen from outside as `events`. */
  ghost predicate Run(bucketOf: RoomId -> nat, s: State, xs: seq<Action>, s': State, events: seq<Event>)
    decreases |xs|
  {
    if xs == [] then s' == s && events == []
    else
      RefsInHeap(s) && Enabled(bucketOf, s, xs[0]) &&
      Events(s, xs[0]) <= events &&
      Run(bucketOf, Next(bucketOf, s, xs[0]), xs[1..], s', events[|Events(s, xs[0])|..])
  }

  /** The actions that are seen from outside. */
  function Visible(xs: seq<Action>): seq<Action> {
    if xs == [] then [] else (if xs[0].Advance? then [] else [xs[0]]) + Visible(xs[1..])
  }

  predicate Shows(e: Event, x: Action) {
    match x
    case Invoke(t, op) => e == Called(t, op)
    case Return(t) => e.Returned? && e.t == t
    case Advance(_) => false
  }

  /** Every call and every return of a run is seen, in order, and nothing else. */
  lemma {:induction false} EventsAreVisible(bucketOf: RoomId -> nat, s: State, xs: seq<Action>, s': State, events: seq<Event>)
    requires Run(bucketOf, s, xs, s', events)
    ensures |events| == |Visible(xs)| && forall k :: 0 <= k < |events| ==> Shows(events[k], Visible(xs)[k])
    decreases |xs|
  {
    if xs != [] {
      var first := Events(s, xs[0]);
      EventsAreVisible(bucketOf, Next(bucketOf, s, xs[0]), xs[1..], s', events[|first|..]);
      assert events == first + events[|first|..];
    }
  }

  // ----- what every step keeps

  /** Different room ids have different room objects. */
  predicate Injective(s: State) {
    forall r1, r2 :: r1 in s.mapped && r2 in s.mapped && s.mapped[r1] == s.mapped[r2] ==> r1 == r2
  }

  ghost predicate Unmapped(s: State, ref: Ref) {
    forall room :: room in s.mapped ==> s.mapped[room] != ref
  }

  ghost predicate HeapOk(s: State) {
    forall ref :: 0 <= ref < |s.heap| ==> Unique(s.heap[ref]) && (Unmapped(s, ref) ==> s.heap[ref] == [])
  }

  /** A thread's room object, while mapped, is mapped under the thread's room id. */
  ghost predicate ThreadOk(s: State, pc: PC) {
    && (HasRef(pc) ==> forall room :: room in s.mapped && s.mapped[room] == pc.ref ==> room == pc.room)
    && (Holding(pc) ==> MappedAt(s, pc.room, pc.ref))
    && (pc.ReapDecided? && pc.isEmpty && pc.ref < |s.heap| ==> s.heap[pc.ref] == [])
  }

  ghost predicate ThreadsOk(s: State) {
    forall t :: 0 <= t < |s.threads| ==> ThreadOk(s, s.threads[t])
  }

  ghost predicate Exclusive(bucketOf: RoomId -> nat, s: State) {
    forall t, u :: 0 <= t < u < |s.threads| && Holding(s.threads[t]) && Holding(s.threads[u])
      ==> bucketOf(s.threads[t].room) != bucketOf(s.threads[u].room)
  }

  /** The thread will yet put a member into the room, or run the double-checked delete on it. */
  predicate Due(pc: PC, room: RoomId, ref: Ref) {
    && (pc.JoinHolding? || pc.ReapWaiting? || pc.ReapHolding? || (pc.ReapDecided? && pc.isEmpty))
    && pc.room == room && pc.ref == ref
  }

  ghost predicate SomeoneDue(s: State, room: RoomId, ref: Ref) {
    exists t :: 0 <= t < |s.threads| && Due(s.threads[t], room, ref)
  }

  ghost predicate EmptyIsDue(s: State)
    requires RefsInHeap(s)
  {
    forall room :: room in s.mapped && s.heap[s.mapped[room]] == [] ==> SomeoneDue(s, room, s.mapped[room])
  }

  ghost predicate Inv(bucketOf: RoomId -> nat, s: State) {
    RefsInHeap(s) && Injective(s) && HeapOk(s) && ThreadsOk(s) && Exclusive(bucketOf, s) && EmptyIsDue(s)
  }

  lemma InitInv(bucketOf: RoomId -> nat, n: nat)
    ensures Inv(bucketOf, Init(n))
  {
  }

  lemma DueStays(s: State, s': State, t: nat, room: RoomId, ref: Ref)
    requires SomeoneDue(s, room, ref) && t < |s.threads| == |s'.threads|
    requires forall u :: 0 <= u < |s.threads| && u != t ==> s'.threads[u] == s.threads[u]
    requires Due(s.threads[t], room, ref) ==> Due(s'.threads[t], room, ref)
    ensures SomeoneDue(s', room, ref)
  {
    var u :| 0 <= u < |s.threads| && Due(s.threads[u], room, ref);
    assert Due(s'.threads[u], room, ref);
  }

  /** The thread moves on; rooms stay as they are. */
  lemma QuietKeepsInv(bucketOf: RoomId -> nat, s: State, t: nat, pc: PC)
    requires Inv(bucketOf, s) && t < |s.threads|
    requires s.threads[t].Idle? || s.threads[t].Begun? || s.threads[t].BroadcastFound? || s.threads[t].Returning?
    requires HasRef(pc) ==> MappedAt(s, pc.room, pc.ref) && !pc.ReapDecided?
    requires Holding(pc) ==> BucketFree(bucketOf, s, pc.room)
    ensures Inv(bucketOf, Goto(s, t, pc))
  {
    var s' := Goto(s, t, pc);
    assert ThreadOk(s', pc);
    forall u | 0 <= u < |s'.threads| && u != t ensures ThreadOk(s', s'.threads[u]) {
      assert ThreadOk(s, s.threads[u]);
    }
    forall room | room in s'.mapped && s'.heap[s'.mapped[room]] == [] ensures SomeoneDue(s', room, s'.mapped[room]) {
      DueStays(s, s', t, room, s.mapped[room]);
    }
  }

  lemma CreateKeepsInv(bucketOf: RoomId -> nat, s: State, t: nat, op: Op<Chan>)
    requires Inv(bucketOf, s) && t < |s.threads| && s.threads[t] == Begun(op) && BucketFree(bucketOf, s, op.room)
    requires op.Join? && op.room !in s.mapped
    ensures Inv(bucketOf, Lookup(s, t, op))
  {
    var s' := Lookup(s, t, op);
    forall ref | 0 <= ref < |s'.heap| ensures Unique(s'.heap[ref]) && (Unmapped(s', ref) ==> s'.heap[ref] == []) {
      if ref < |s.heap| {
        assert s'.heap[ref] == s.heap[ref];
        if room :| room in s.mapped && s.mapped[room] == ref {
          assert MappedAt(s', room, ref);
        } else {
          assert Unmapped(s, ref);
        }
      }
    }
    forall u | 0 <= u < |s'.threads| ensures ThreadOk(s', s'.threads[u]) {
      assert ThreadOk(s, s.threads[u]);
    }
    forall room | room in s'.mapped && s'.heap[s'.mapped[room]] == [] ensures SomeoneDue(s', room, s'.mapped[room]) {
      if room == op.room {
        assert Due(s'.threads[t], room, s'.mapped[room]);
      } else {
        DueStays(s, s', t, room, s.mapped[room]);
      }
    }
  }

  lemma LookupKeepsInv(bucketOf: RoomId -> nat, s: State, t: nat, op: Op<Chan>)
    requires Inv(bucketOf, s) && t < |s.threads| && s.threads[t] == Begun(op) && BucketFree(bucketOf, s, op.room)
    ensures Inv(bucketOf, Lookup(s, t, op))
  {
    if op.Join? && op.room !in s.mapped {
      CreateKeepsInv(bucketOf, s, t, op);
    } else {
      QuietKeepsInv(bucketOf, s, t, Lookup(s, t, op).threads[t]);
    }
  }

  lemma HeapStepKeepsHeap(bucketOf: RoomId -> nat, s: State, t: nat)
    requires Inv(bucketOf, s) && t < |s.threads| && (s.threads[t].JoinHolding? || s.threads[t].LeaveFound?)
    ensures HeapOk(Section(s, t))
  {
    var s' := Section(s, t);
    var pc := s.threads[t];
    assert ThreadOk(s, pc);
    if pc.JoinHolding? {
      UniqueJoined(s.heap[pc.ref], pc.user, pc.send);
    } else {
      UniqueLeft(s.heap[pc.ref], pc.user, pc.only);
      assert s.heap[pc.ref] == [] ==> s'.heap[pc.ref] == [];
    }
  }

  lemma HeapStepKeepsThreads(bucketOf: RoomId -> nat, s: State, t: nat)
    requires Inv(bucketOf, s) && t < |s.threads| && (s.threads[t].JoinHolding? || s.threads[t].LeaveFound?)
    ensures ThreadsOk(Section(s, t))
  {
    var s' := Section(s, t);
    var pc := s.threads[t];
    assert pc.LeaveFound? && s.heap[pc.ref] == [] ==> s'.heap[pc.ref] == [];
    forall u | 0 <= u < |s'.threads| ensures ThreadOk(s', s'.threads[u]) {
      assert ThreadOk(s, s.threads[u]);
      if u != t && pc.JoinHolding? && s.threads[u].ReapDecided? {
        assert Holding(s.threads[t]) && Holding(s.threads[u]) && ThreadOk(s, pc);
      }
    }
  }

  lemma HeapStepKeepsDue(bucketOf: RoomId -> nat, s: State, t: nat)
    requires Inv(bucketOf, s) && t < |s.threads| && (s.threads[t].JoinHolding? || s.threads[t].LeaveFound?)
    ensures RefsInHeap(Section(s, t)) && EmptyIsDue(Section(s, t))
  {
    var s' := Section(s, t);
    var pc := s.threads[t];
    if pc.JoinHolding? {
      UniqueJoined(s.heap[pc.ref], pc.user, pc.send);
    }
    forall room | room in s'.mapped && s'.heap[s'.mapped[room]] == [] ensures SomeoneDue(s', room, s'.mapped[room]) {
      if s.mapped[room] == pc.ref {
        assert ThreadOk(s, pc) && Due(s'.threads[t], room, pc.ref);
      } else {
        DueStays(s, s', t, room, s.mapped[room]);
      }
    }
  }

  lemma HeapStepKeepsInv(bucketOf: RoomId -> nat, s: State, t: nat)
    requires Inv(bucketOf, s) && t < |s.threads| && (s.threads[t].JoinHolding? || s.threads[t].LeaveFound?)
    ensures Inv(bucketOf, Section(s, t))
  {
    HeapStepKeepsHeap(bucketOf, s, t);
    HeapStepKeepsThreads(bucketOf, s, t);
    HeapStepKeepsDue(bucketOf, s, t);
  }

  lemma ReapStepKeepsInv(bucketOf: RoomId -> nat, s: State, t: nat)
    requires Inv(bucketOf, s) && t < |s.threads|
    requires s.threads[t].ReapWaiting? || s.threads[t].ReapHolding? || s.threads[t].ReapDecided?
    requires s.threads[t].ReapWaiting? ==> BucketFree(bucketOf, s, s.threads[t].room)
    ensures Inv(bucketOf, Section(s, t))
  {
    var s' := Section(s, t);
    assert ThreadOk(s, s.threads[t]);
    forall u | 0 <= u < |s'.threads| ensures ThreadOk(s', s'.threads[u]) {
      assert ThreadOk(s, s.threads[u]);
      if u != t && Holding(s.threads[u]) && s.threads[t].ReapDecided? {
        assert bucketOf(s.threads[u].room) != bucketOf(s.threads[t].room);
      }
    }
    forall ref | 0 <= ref < |s'.heap| ensures Unmapped(s', ref) ==> s'.heap[ref] == [] {
      if Unmapped(s', ref) && !Unmapped(s, ref) {
        var room :| room in s.mapped && s.mapped[room] == ref;
        assert room !in s'.mapped;
      }
    }
    forall room | room in s'.mapped && s'.heap[s'.mapped[room]] == [] ensures SomeoneDue(s', room, s'.mapped[room]) {
      DueStays(s, s', t, room, s.mapped[room]);
    }
  }

  /** Every step of every thread keeps the invariant. */
  lemma NextKeepsInv(bucketOf: RoomId -> nat, s: State, x: Action)
    requires Inv(bucketOf, s) && Enabled(bucketOf, s, x)
    ensures Inv(bucketOf, Next(bucketOf, s, x))
  {
    var pc := s.threads[x.t];
    if x.Advance? && !pc.BroadcastFound? {
      if pc.Begun? {
        LookupKeepsInv(bucketOf, s, x.t, pc.op);
      } else if pc.JoinHolding? || pc.LeaveFound? {
        HeapStepKeepsInv(bucketOf, s, x.t);
      } else {
        ReapStepKeepsInv(bucketOf, s, x.t);
      }
    } else {
      QuietKeepsInv(bucketOf, s, x.t, Next(bucketOf, s, x).threads[x.t]);
    }
  }

  lemma {:induction false} RunKeepsInv(bucketOf: RoomId -> nat, s: State, xs: seq<Action>, s': State, events: seq<Event>)
    requires Inv(bucketOf, s) && Run(bucketOf, s, xs, s', events)
    ensures Inv(bucketOf, s') && |s'.threads| == |s.threads|
    decreases |xs|
  {
    if xs != [] {
      NextKeepsInv(bucketOf, s, xs[0]);
      RunKeepsInv(bucketOf, Next(bucketOf, s, xs[0]), xs[1..], s', events[|Events(s, xs[0])|..]);
    }
  }
}
