/**
 Every interleaving of the registry's sections looks from outside like an
 interleaving of whole calls, each done at one instant on one flat map.

 A call is performed at its own section on the room, with one exception: a leave
 or a broadcast that holds a room which another thread unmaps is performed at
 that unmapping, on behalf of the waiting thread.
 */
module RoomLinearizability {
  import opened Roster
  import opened RoomSpec
  import opened RoomProtocol

  function AbsRooms(s: State): Rooms<Chan>
    requires RefsInHeap(s)
  {
    map room | room in s.mapped && s.heap[s.mapped[room]] != [] :: s.heap[s.mapped[room]]
  }

  function AbsCall(s: State, pc: PC): Call {
    match pc
    case Idle => NoCall
    case Begun(op) => Waiting(op)
    case JoinHolding(room, user, send, _) => Waiting(Join(room, user, send))
    case LeaveFound(room, user, only, ref) =>
      if MappedAt(s, room, ref) then Waiting(Leave(room, user, only)) else Performed(Leave(room, user, only), Unit)
    case ReapWaiting(room, user, only, _) => Performed(Leave(room, user, only), Unit)
    case ReapHolding(room, user, only, _) => Performed(Leave(room, user, only), Unit)
    case ReapDecided(room, user, only, _, _) => Performed(Leave(room, user, only), Unit)
    case BroadcastFound(room, from, ref) =>
      if MappedAt(s, room, ref) then Waiting(Broadcast(room, from)) else Performed(Broadcast(room, from), SendTo([]))
    case Returning(op, resp) => Performed(op, resp)
  }

  function AbsCalls(s: State): seq<Call> {
    seq(|s.threads|, t requires 0 <= t < |s.threads| => AbsCall(s, s.threads[t]))
  }

  function Abs(s: State): Atomic
    requires RefsInHeap(s)
  {
    Atomic(AbsRooms(s), AbsCalls(s))
  }

  /** The thread waits on the room `ref`, found earlier. */
  predicate WaitsOn(pc: PC, ref: Ref) {
    (pc.LeaveFound? || pc.BroadcastFound?) && pc.ref == ref
  }

  /** The calls performed for other threads when `ref` is unmapped, from thread `t` on. */
  function Helping(s: State, ref: Ref, t: nat): seq<AtomicAction>
    decreases |s.threads| - t
  {
    if t >= |s.threads| then []
    else (if WaitsOn(s.threads[t], ref) then [APerform(t)] else []) + Helping(s, ref, t + 1)
  }

  /** The atomic actions that one step of the code stands for. */
  function Lift(s: State, x: Action): seq<AtomicAction>
    requires x.t < |s.threads|
  {
    match x
    case Invoke(t, op) => [AInvoke(t, op)]
    case Return(t) => [AReturn(t)]
    case Advance(t) =>
      match s.threads[t]
      case Begun(op) => if op.Join? || op.room in s.mapped then [] else [APerform(t)]
      case JoinHolding(_, _, _, _) => [APerform(t)]
      case LeaveFound(room, _, _, ref) => if MappedAt(s, room, ref) then [APerform(t)] else []
      case BroadcastFound(room, _, ref) => if MappedAt(s, room, ref) then [APerform(t)] else []
      case ReapDecided(_, _, _, ref, isEmpty) => if isEmpty then Helping(s, ref, 0) else []
      case _ => []
  }

  // ----- runs of the atomic object

  lemma RunOne(a: Atomic, x: AtomicAction)
    requires AtomicEnabled(a, x)
    ensures AtomicRun(a, [x], AtomicNext(a, x), AtomicEvents(a, x))
  {
    assert AtomicRun(AtomicNext(a, x), [], AtomicNext(a, x), []);
    assert AtomicEvents(a, x)[|AtomicEvents(a, x)|..] == [];
    assert [x][1..] == [];
  }

  lemma RunSilent(a: Atomic, x: AtomicAction, xs: seq<AtomicAction>, b: Atomic, es: seq<Event>)
    requires AtomicEnabled(a, x) && AtomicEvents(a, x) == [] && AtomicRun(AtomicNext(a, x), xs, b, es)
    ensures AtomicRun(a, [x] + xs, b, es)
  {
    assert ([x] + xs)[1..] == xs && es[0..] == es;
  }

  lemma {:induction false} RunAppend(
    a: Atomic, xs: seq<AtomicAction>, b: Atomic, es: seq<Event>, ys: seq<AtomicAction>, c: Atomic, fs: seq<Event>)
    requires AtomicRun(a, xs, b, es) && AtomicRun(b, ys, c, fs)
    ensures AtomicRun(a, xs + ys, c, es + fs)
    decreases |xs|
  {
    if xs == [] {
      assert xs + ys == ys && es + fs == fs;
    } else {
      var n := |AtomicEvents(a, xs[0])|;
      RunAppend(AtomicNext(a, xs[0]), xs[1..], b, es[n..], ys, c, fs);
      assert (xs + ys)[1..] == xs[1..] + ys;
      assert (es + fs)[n..] == es[n..] + fs;
    }
  }

  // ----- performing the calls of the waiting threads

  /** Before `t`, the threads have been helped; from `t` on they have not. */
  ghost function HelpedUpTo(s: State, s': State, t: nat): Atomic
    requires RefsInHeap(s) && |s'.threads| == |s.threads|
  {
    Atomic(AbsRooms(s), seq(|s.threads|, u requires 0 <= u < |s.threads| =>
      if u < t then AbsCall(s', s'.threads[u]) else AbsCall(s, s.threads[u])))
  }

  lemma HelpOne(bucketOf: RoomId -> nat, s: State, r: nat, t: nat)
    requires Inv(bucketOf, s) && r < |s.threads| && t < |s.threads|
    requires s.threads[r].ReapDecided? && s.threads[r].isEmpty
    ensures var s' := Section(s, r); var ref := s.threads[r].ref;
      if WaitsOn(s.threads[t], ref) then
        AtomicEnabled(HelpedUpTo(s, s', t), APerform(t)) &&
        AtomicNext(HelpedUpTo(s, s', t), APerform(t)) == HelpedUpTo(s, s', t + 1)
      else HelpedUpTo(s, s', t) == HelpedUpTo(s, s', t + 1)
  {
    var s' := Section(s, r);
    var pc := s.threads[t];
    var room, ref := s.threads[r].room, s.threads[r].ref;
    assert ThreadOk(s, s.threads[r]) && ThreadOk(s, pc);
    var before, after := HelpedUpTo(s, s', t), HelpedUpTo(s, s', t + 1);
    if WaitsOn(pc, ref) {
      assert pc.room == room && before.calls[t].Waiting?;
      assert room !in AbsRooms(s);
      assert Put(AbsRooms(s), room, []) == AbsRooms(s);
      assert AtomicNext(before, APerform(t)).calls == after.calls;
    } else {
      assert before.calls == after.calls;
    }
  }

  lemma {:induction false} HelpingRuns(bucketOf: RoomId -> nat, s: State, r: nat, t: nat)
    requires Inv(bucketOf, s) && r < |s.threads| && t <= |s.threads|
    requires s.threads[r].ReapDecided? && s.threads[r].isEmpty
    ensures var s' := Section(s, r);
      AtomicRun(HelpedUpTo(s, s', t), Helping(s, s.threads[r].ref, t), HelpedUpTo(s, s', |s.threads|), [])
    decreases |s.threads| - t
  {
    if t < |s.threads| {
      var s', ref := Section(s, r), s.threads[r].ref;
      var end, rest := HelpedUpTo(s, s', |s.threads|), Helping(s, ref, t + 1);
      HelpingRuns(bucketOf, s, r, t + 1);
      HelpOne(bucketOf, s, r, t);
      if WaitsOn(s.threads[t], ref) {
        RunSilent(HelpedUpTo(s, s', t), APerform(t), rest, end, []);
      } else {
        assert Helping(s, ref, t) == [] + rest == rest;
      }
    }
  }

  // ----- each step of the code is a run of the atomic object

  lemma HeapUpdateIsPut(s: State, s': State, room: RoomId, ref: Ref)
    requires RefsInHeap(s) && Injective(s) && MappedAt(s, room, ref) && RefsInHeap(s')
    requires s'.mapped == s.mapped && s'.heap == s.heap[ref := s'.heap[ref]]
    ensures AbsRooms(s') == Put(AbsRooms(s), room, s'.heap[ref])
  {
    forall r | r in s.mapped && r != room ensures s'.heap[s.mapped[r]] == s.heap[s.mapped[r]] {
    }
  }

  /** A join, leave or broadcast that acts on its mapped room acts on the flat map. */
  lemma OwnSectionPerforms(bucketOf: RoomId -> nat, s: State, t: nat)
    requires Inv(bucketOf, s) && t < |s.threads|
    requires var pc := s.threads[t];
      && (pc.JoinHolding? || pc.LeaveFound? || pc.BroadcastFound?)
      && MappedAt(s, pc.room, pc.ref)
    ensures AtomicEnabled(Abs(s), APerform(t)) && RefsInHeap(Section(s, t))
    ensures AtomicNext(Abs(s), APerform(t)) == Abs(Section(s, t))
  {
    var s', pc := Section(s, t), s.threads[t];
    assert ThreadOk(s, pc);
    var members := s.heap[pc.ref];
    assert At(AbsRooms(s), pc.room) == members;
    HeapUpdateIsPut(s, s', pc.room, pc.ref);
    assert AtomicNext(Abs(s), APerform(t)).calls == Abs(s').calls;
  }

  lemma InvokeAndReturnLift(bucketOf: RoomId -> nat, s: State, x: Action)
    requires Inv(bucketOf, s) && Enabled(bucketOf, s, x) && !x.Advance?
    ensures RefsInHeap(Next(bucketOf, s, x))
    ensures AtomicRun(Abs(s), Lift(s, x), Abs(Next(bucketOf, s, x)), Events(s, x))
  {
    var s' := Next(bucketOf, s, x);
    assert AbsRooms(s') == AbsRooms(s);
    assert AtomicNext(Abs(s), Lift(s, x)[0]).calls == Abs(s').calls;
    RunOne(Abs(s), Lift(s, x)[0]);
  }

  lemma UnmapShowsInNoRoom(bucketOf: RoomId -> nat, s: State, t: nat)
    requires Inv(bucketOf, s) && t < |s.threads| && s.threads[t].ReapDecided? && s.threads[t].isEmpty
    ensures RefsInHeap(Section(s, t)) && |Section(s, t).threads| == |s.threads|
    ensures AbsRooms(Section(s, t)) == AbsRooms(s)
  {
    assert ThreadOk(s, s.threads[t]);
  }

  lemma UnmapLifts(bucketOf: RoomId -> nat, s: State, t: nat)
    requires Inv(bucketOf, s) && t < |s.threads| && s.threads[t].ReapDecided? && s.threads[t].isEmpty
    ensures RefsInHeap(Section(s, t))
    ensures AtomicRun(Abs(s), Helping(s, s.threads[t].ref, 0), Abs(Section(s, t)), [])
  {
    var s' := Section(s, t);
    UnmapShowsInNoRoom(bucketOf, s, t);
    HelpingRuns(bucketOf, s, t, 0);
    assert HelpedUpTo(s, s', 0).calls == Abs(s).calls;
    assert HelpedUpTo(s, s', |s.threads|).calls == Abs(s').calls;
  }

  lemma StepLifts(bucketOf: RoomId -> nat, s: State, x: Action)
    requires Inv(bucketOf, s) && Enabled(bucketOf, s, x)
    ensures RefsInHeap(Next(bucketOf, s, x))
    ensures AtomicRun(Abs(s), Lift(s, x), Abs(Next(bucketOf, s, x)), Events(s, x))
  {
    NextKeepsInv(bucketOf, s, x);
    var s', pc := Next(bucketOf, s, x), s.threads[x.t];
    assert ThreadOk(s, pc);
    if !x.Advance? {
      InvokeAndReturnLift(bucketOf, s, x);
    } else if pc.ReapDecided? && pc.isEmpty {
      UnmapLifts(bucketOf, s, x.t);
    } else if HasRef(pc) && MappedAt(s, pc.room, pc.ref) && !pc.ReapWaiting? && !pc.ReapHolding? && !pc.ReapDecided? {
      OwnSectionPerforms(bucketOf, s, x.t);
      RunOne(Abs(s), APerform(x.t));
    } else if pc.Begun? {
      LookupLifts(bucketOf, s, x.t, pc.op);
    } else {
      StaleLifts(bucketOf, s, x.t);
    }
  }

  lemma LookupKeepsRooms(s: State, t: nat, op: Op<Chan>)
    requires RefsInHeap(s) && t < |s.threads| && s.threads[t] == Begun(op)
    ensures RefsInHeap(Lookup(s, t, op)) && AbsRooms(Lookup(s, t, op)) == AbsRooms(s)
  {
    var s' := Lookup(s, t, op);
    forall room | room in s.mapped ensures MappedAt(s', room, s.mapped[room]) && s'.heap[s.mapped[room]] == s.heap[s.mapped[room]] {
    }
    assert forall room :: room in s'.mapped && room !in s.mapped ==> s'.heap[s'.mapped[room]] == [];
  }

  /** Creating a room maps a fresh object, which no thread can be waiting on. */
  lemma LookupKeepsCalls(s: State, t: nat, op: Op<Chan>)
    requires RefsInHeap(s) && t < |s.threads| && s.threads[t] == Begun(op) && (op.Join? || op.room in s.mapped)
    ensures AbsCalls(Lookup(s, t, op)) == AbsCalls(s)
  {
    var s' := Lookup(s, t, op);
    forall u | 0 <= u < |s.threads| ensures AbsCalls(s')[u] == AbsCalls(s)[u] {
      if HasRef(s.threads[u]) {
        assert s.threads[u].ref < |s.heap|;
      }
    }
  }

  lemma LookupLifts(bucketOf: RoomId -> nat, s: State, t: nat, op: Op<Chan>)
    requires Inv(bucketOf, s) && t < |s.threads| && s.threads[t] == Begun(op) && BucketFree(bucketOf, s, op.room)
    ensures RefsInHeap(Lookup(s, t, op))
    ensures AtomicRun(Abs(s), Lift(s, Advance(t)), Abs(Lookup(s, t, op)), [])
  {
    var s' := Lookup(s, t, op);
    LookupKeepsRooms(s, t, op);
    if op.Join? || op.room in s.mapped {
      LookupKeepsCalls(s, t, op);
    } else {
      assert At(AbsRooms(s), op.room) == [] && Put(AbsRooms(s), op.room, []) == AbsRooms(s);
      assert AtomicNext(Abs(s), APerform(t)).calls == Abs(s').calls;
      RunOne(Abs(s), APerform(t));
    }
  }

  /** A leave or a broadcast on an unmapped room finds it empty, and nobody sees it. */
  lemma StaleRoomLifts(bucketOf: RoomId -> nat, s: State, t: nat)
    requires Inv(bucketOf, s) && t < |s.threads|
    requires var pc := s.threads[t]; (pc.LeaveFound? || pc.BroadcastFound?) && !MappedAt(s, pc.room, pc.ref)
    ensures RefsInHeap(Section(s, t)) && Abs(Section(s, t)) == Abs(s)
  {
    var s', pc := Section(s, t), s.threads[t];
    assert ThreadOk(s, pc);
    assert Unmapped(s, pc.ref);
    assert s.heap[pc.ref] == [] && s'.heap == s.heap;
    assert Abs(s').calls == Abs(s).calls;
  }

  /** The double-checked delete up to the deletion is invisible too, as its leave is performed already. */
  lemma ReapLifts(bucketOf: RoomId -> nat, s: State, t: nat)
    requires Inv(bucketOf, s) && t < |s.threads|
    requires var pc := s.threads[t]; pc.ReapWaiting? || pc.ReapHolding? || (pc.ReapDecided? && !pc.isEmpty)
    ensures RefsInHeap(Section(s, t)) && Abs(Section(s, t)) == Abs(s)
  {
    var s' := Section(s, t);
    assert s'.heap == s.heap && s'.mapped == s.mapped;
    assert Abs(s').calls == Abs(s).calls;
  }

  lemma StaleLifts(bucketOf: RoomId -> nat, s: State, t: nat)
    requires Inv(bucketOf, s) && t < |s.threads|
    requires var pc := s.threads[t];
      || ((pc.LeaveFound? || pc.BroadcastFound?) && !MappedAt(s, pc.room, pc.ref))
      || pc.ReapWaiting? || pc.ReapHolding? || (pc.ReapDecided? && !pc.isEmpty)
    ensures RefsInHeap(Section(s, t)) && Abs(Section(s, t)) == Abs(s)
  {
    if s.threads[t].LeaveFound? || s.threads[t].BroadcastFound? {
      StaleRoomLifts(bucketOf, s, t);
    } else {
      ReapLifts(bucketOf, s, t);
    }
  }

  // ----- the main theorems

  function AtomicInit(n: nat): Atomic {
    Atomic(map[], seq(n, i => NoCall))
  }

  /** Whatever the code does, seen from outside, the atomic object can do. */
  lemma {:induction false} Linearizable(
    bucketOf: RoomId -> nat, s: State, xs: seq<Action>, s': State, events: seq<Event>) returns (ys: seq<AtomicAction>)
    requires Inv(bucketOf, s) && Run(bucketOf, s, xs, s', events)
    ensures Inv(bucketOf, s') && AtomicRun(Abs(s), ys, Abs(s'), events)
    decreases |xs|
  {
    if xs == [] {
      ys := [];
    } else {
      var next, first := Next(bucketOf, s, xs[0]), Events(s, xs[0]);
      NextKeepsInv(bucketOf, s, xs[0]);
      var rest := Linearizable(bucketOf, next, xs[1..], s', events[|first|..]);
      ys := Lift(s, xs[0]) + rest;
      LiftFirst(bucketOf, s, xs[0], rest, Abs(s'), events[|first|..]);
      assert first + events[|first|..] == events;
    }
  }

  lemma LiftFirst(bucketOf: RoomId -> nat, s: State, x: Action, rest: seq<AtomicAction>, end: Atomic, events: seq<Event>)
    requires Inv(bucketOf, s) && Enabled(bucketOf, s, x) && RefsInHeap(Next(bucketOf, s, x))
    requires AtomicRun(Abs(Next(bucketOf, s, x)), rest, end, events)
    ensures AtomicRun(Abs(s), Lift(s, x) + rest, end, Events(s, x) + events)
  {
    StepLifts(bucketOf, s, x);
    RunAppend(Abs(s), Lift(s, x), Abs(Next(bucketOf, s, x)), Events(s, x), rest, end, events);
  }

  /** From the empty registry, for any number of threads and any hash. */
  lemma RegistryIsLinearizable(bucketOf: RoomId -> nat, n: nat, xs: seq<Action>, s': State, events: seq<Event>)
    requires Run(bucketOf, Init(n), xs, s', events)
    ensures Inv(bucketOf, s')
    ensures exists ys :: AtomicRun(AtomicInit(n), ys, Abs(s'), events)
  {
    InitInv(bucketOf, n);
    var ys := Linearizable(bucketOf, Init(n), xs, s', events);
    assert Abs(Init(n)).calls == AtomicInit(n).calls;
    assert Abs(Init(n)) == AtomicInit(n);
  }

  // ----- what a call of a run answers

  /** The actions can be done one after the other. */
  predicate Possible(a: Atomic, ys: seq<AtomicAction>)
    decreases |ys|
  {
    ys == [] || (AtomicEnabled(a, ys[0]) && Possible(AtomicNext(a, ys[0]), ys[1..]))
  }

  function After(a: Atomic, ys: seq<AtomicAction>): Atomic
    requires Possible(a, ys)
    decreases |ys|
  {
    if ys == [] then a else After(AtomicNext(a, ys[0]), ys[1..])
  }

  lemma {:induction false} RunIsPossible(a: Atomic, ys: seq<AtomicAction>, b: Atomic, events: seq<Event>)
    requires AtomicRun(a, ys, b, events)
    ensures Possible(a, ys) && After(a, ys) == b
    decreases |ys|
  {
    if ys != [] {
      RunIsPossible(AtomicNext(a, ys[0]), ys[1..], b, events[|AtomicEvents(a, ys[0])|..]);
    }
  }

  /** At its i-th action the run performs the call `op` of thread `t`, with that answer. */
  predicate PerformsAt(a: Atomic, ys: seq<AtomicAction>, i: nat, t: nat, op: Op<Chan>, resp: Resp<Chan>) {
    && i < |ys| && ys[i] == APerform(t) && Possible(a, ys[..i])
    && var mid := After(a, ys[..i]);
    && t < |mid.calls| && mid.calls[t] == Waiting(op) && resp == Perform(mid.rooms, op).1
  }

  predicate HasPerformed(a: Atomic, t: nat, op: Op<Chan>, resp: Resp<Chan>) {
    t < |a.calls| && a.calls[t] == Performed(op, resp)
  }

  lemma PerformsLater(a: Atomic, ys: seq<AtomicAction>, i: nat, t: nat, op: Op<Chan>, resp: Resp<Chan>)
    requires ys != [] && AtomicEnabled(a, ys[0]) && PerformsAt(AtomicNext(a, ys[0]), ys[1..], i, t, op, resp)
    ensures PerformsAt(a, ys, i + 1, t, op, resp)
  {
    assert ys[..i + 1][1..] == ys[1..][..i] && ys[..i + 1][0] == ys[0];
  }

  /** Whatever a call returns was answered at the moment it was performed. */
  lemma {:induction false} ReturnedWasPerformed(a: Atomic, ys: seq<AtomicAction>, b: Atomic, events: seq<Event>, k: nat)
    returns (i: nat)
    requires AtomicRun(a, ys, b, events) && k < |events| && events[k].Returned?
    ensures HasPerformed(a, events[k].t, events[k].op, events[k].resp)
         || PerformsAt(a, ys, i, events[k].t, events[k].op, events[k].resp)
    decreases |ys|
  {
    i := 0;
    var next, n, e := AtomicNext(a, ys[0]), |AtomicEvents(a, ys[0])|, events[k];
    if k < n {
      assert events[k] == AtomicEvents(a, ys[0])[k];
    } else {
      i := ReturnedWasPerformed(next, ys[1..], b, events[n..], k - n);
      if PerformsAt(next, ys[1..], i, e.t, e.op, e.resp) {
        PerformsLater(a, ys, i, e.t, e.op, e.resp);
        i := i + 1;
      } else if ys[0] == APerform(e.t) {
        i := 0;
        assert ys[..0] == [];
      }
    }
  }

  lemma {:induction false} PossibleKeepsUnique(a: Atomic, ys: seq<AtomicAction>)
    requires Possible(a, ys) && AllUnique(a.rooms)
    ensures AllUnique(After(a, ys).rooms)
    decreases |ys|
  {
    if ys != [] {
      if ys[0].APerform? {
        PerformKeepsUnique(a.rooms, a.calls[ys[0].t].op);
      }
      PossibleKeepsUnique(AtomicNext(a, ys[0]), ys[1..]);
    }
  }

  /**
   A broadcast that returns in a run was sent to the channels of all members but the sender, of the room as it was at
   the one instant at which the broadcast was performed.
   */
  lemma ReturnedBroadcastAnswers(bucketOf: RoomId -> nat, n: nat, xs: seq<Action>, s': State, events: seq<Event>, k: nat)
    returns (ys: seq<AtomicAction>, i: nat)
    requires Run(bucketOf, Init(n), xs, s', events)
    requires k < |events| && events[k].Returned? && events[k].op.Broadcast?
    ensures Inv(bucketOf, s') && AtomicRun(AtomicInit(n), ys, Abs(s'), events)
    ensures PerformsAt(AtomicInit(n), ys, i, events[k].t, events[k].op, events[k].resp)
    ensures Answers(After(AtomicInit(n), ys[..i]).rooms, events[k].op.room, events[k].op.from, events[k].resp)
  {
    RegistryIsLinearizable(bucketOf, n, xs, s', events);
    ys :| AtomicRun(AtomicInit(n), ys, Abs(s'), events);
    i := ReturnedWasPerformed(AtomicInit(n), ys, Abs(s'), events, k);
    PossibleKeepsUnique(AtomicInit(n), ys[..i]);
    PerformAnswers(After(AtomicInit(n), ys[..i]).rooms, events[k].op);
  }

  /** At every moment an unmapped room is empty, and an empty mapped room is about to be filled or checked for deletion. */
  lemma EmptyRoomsAreLookedAfter(bucketOf: RoomId -> nat, n: nat, xs: seq<Action>, s: State, events: seq<Event>, ref: Ref)
    requires Run(bucketOf, Init(n), xs, s, events) && ref < |s.heap|
    ensures Unmapped(s, ref) ==> s.heap[ref] == []
    ensures forall room :: MappedAt(s, room, ref) && s.heap[ref] == [] ==> SomeoneDue(s, room, ref)
  {
    InitInv(bucketOf, n);
    RunKeepsInv(bucketOf, Init(n), xs, s, events);
  }

  /** A room that was unmapped is never mapped again. */
  lemma UnmappedForGood(bucketOf: RoomId -> nat, s: State, x: Action, ref: Ref)
    requires RefsInHeap(s) && Enabled(bucketOf, s, x) && ref < |s.heap| && Unmapped(s, ref)
    ensures Unmapped(Next(bucketOf, s, x), ref)
  {
    var s' := Next(bucketOf, s, x);
    assert forall room :: room in s'.mapped ==> MappedAt(s, room, s'.mapped[room]) || s'.mapped[room] == |s.heap|;
  }

  /** A registry with no call half done holds no empty room, and no member outside a mapped room. */
  lemma QuiescentIsTidy(bucketOf: RoomId -> nat, n: nat, xs: seq<Action>, s: State, events: seq<Event>)
    requires Run(bucketOf, Init(n), xs, s, events)
    requires forall t :: 0 <= t < |s.threads| ==> s.threads[t].Idle? || s.threads[t].Begun? || s.threads[t].Returning?
    ensures RefsInHeap(s)
    ensures forall room :: room in s.mapped <==> room in AbsRooms(s)
    ensures forall ref :: (0 <= ref < |s.heap| && s.heap[ref] != [] ==>
      exists room :: room in s.mapped && s.mapped[room] == ref && AbsRooms(s)[room] == s.heap[ref])
  {
    InitInv(bucketOf, n);
    RunKeepsInv(bucketOf, Init(n), xs, s, events);
    assert forall room, ref :: !SomeoneDue(s, room, ref);
    forall ref | 0 <= ref < |s.heap| && s.heap[ref] != []
      ensures exists room :: room in s.mapped && s.mapped[room] == ref && AbsRooms(s)[room] == s.heap[ref]
    {
      assert !Unmapped(s, ref);
    }
  }

  // ----- what one section does to the flat map

  /** The call of `u` is performed by the section `t` runs. */
  predicate Performs(s: State, s': State, u: nat)
    requires u < |s.threads| && |s'.threads| == |s.threads|
  {
    AbsCalls(s)[u].Waiting? && AbsCalls(s')[u].Performed? && AbsCalls(s')[u].op == AbsCalls(s)[u].op
  }

  predicate EffectOn(s: State, s': State, t: nat, u: nat)
    requires RefsInHeap(s) && RefsInHeap(s') && |s'.threads| == |s.threads| && t < |s.threads| && u < |s.threads|
  {
    && (AbsCalls(s')[u] == AbsCalls(s)[u] || Performs(s, s', u))
    && (if Performs(s, s', t) then AbsRooms(s') == Perform(AbsRooms(s), AbsCalls(s)[t].op).0
        else AbsRooms(s') == AbsRooms(s))
    && (Performs(s, s', u) && u != t ==> AbsRooms(s') == AbsRooms(s) && At(AbsRooms(s'), AbsCalls(s)[u].op.room) == [])
  }

  lemma OwnEffect(bucketOf: RoomId -> nat, s: State, t: nat, u: nat)
    requires Inv(bucketOf, s) && t < |s.threads| && u < |s.threads|
    requires AtomicEnabled(Abs(s), APerform(t)) && !s.threads[t].Idle? && !s.threads[t].Returning?
    requires RefsInHeap(Section(s, t)) && AtomicNext(Abs(s), APerform(t)) == Abs(Section(s, t))
    ensures EffectOn(s, Section(s, t), t, u)
  {
    assert Abs(Section(s, t)).calls == AbsCalls(Section(s, t));
  }

  lemma UnmapEffect(bucketOf: RoomId -> nat, s: State, t: nat, u: nat)
    requires Inv(bucketOf, s) && t < |s.threads| && u < |s.threads|
    requires s.threads[t].ReapDecided? && s.threads[t].isEmpty
    ensures RefsInHeap(Section(s, t)) && EffectOn(s, Section(s, t), t, u)
  {
    var s' := Section(s, t);
    assert ThreadOk(s, s.threads[t]) && ThreadOk(s, s.threads[u]);
    assert AbsRooms(s') == AbsRooms(s);
    assert AbsCalls(s)[u] == AbsCall(s, s.threads[u]) && AbsCalls(s')[u] == AbsCall(s', s'.threads[u]);
    if u != t && Performs(s, s', u) {
      assert s.threads[u].room == s.threads[t].room;
    }
  }

  /**
   A section performs its own call, or nothing, or other threads' calls on a room that is
   empty; only its own call changes the flat map.
   */
  lemma SectionEffect(bucketOf: RoomId -> nat, s: State, t: nat, u: nat)
    requires Inv(bucketOf, s) && Enabled(bucketOf, s, Advance(t)) && u < |s.threads|
    ensures Inv(bucketOf, Section(s, t)) && |Section(s, t).threads| == |s.threads|
    ensures EffectOn(s, Section(s, t), t, u)
  {
    NextKeepsInv(bucketOf, s, Advance(t));
    var pc := s.threads[t];
    if pc.ReapDecided? && pc.isEmpty {
      UnmapEffect(bucketOf, s, t, u);
    } else if HasRef(pc) && MappedAt(s, pc.room, pc.ref) && !pc.ReapWaiting? && !pc.ReapHolding? && !pc.ReapDecided? {
      OwnSectionPerforms(bucketOf, s, t);
      OwnEffect(bucketOf, s, t, u);
    } else if pc.Begun? {
      LookupEffect(bucketOf, s, t, u);
    } else {
      assert ThreadOk(s, pc);
      StaleLifts(bucketOf, s, t);
      assert Abs(Section(s, t)).calls == AbsCalls(s);
    }
  }

  lemma LookupEffect(bucketOf: RoomId -> nat, s: State, t: nat, u: nat)
    requires Inv(bucketOf, s) && t < |s.threads| && u < |s.threads| && s.threads[t].Begun?
    ensures RefsInHeap(Section(s, t)) && EffectOn(s, Section(s, t), t, u)
  {
    var op := s.threads[t].op;
    LookupKeepsRooms(s, t, op);
    if op.Join? || op.room in s.mapped {
      LookupKeepsCalls(s, t, op);
    } else {
      assert At(AbsRooms(s), op.room) == [] && Put(AbsRooms(s), op.room, []) == AbsRooms(s);
      assert AtomicNext(Abs(s), APerform(t)).calls == Abs(Section(s, t)).calls;
      OwnEffect(bucketOf, s, t, u);
    }
  }
}
