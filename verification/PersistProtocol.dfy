/**
 Persisting one topic: any number of consumers over the topic's partitions, writing one table.
 A consumer starts from its partition's committed offset, may crash anywhere, may have its
 partition taken over while it still runs, and may see an insert fail that was in fact written,
 or that is written only later, at whatever moment.

 `logs[p]` is what partition `p` comes to hold.
 */
module PersistProtocol {
  import opened Option
  import opened MessageTable
  import opened PersistConsumer

  datatype PC = Stopped | Polling | Handling | Waiting | Handled

  /** `next` is the offset in hand or to take next; `marked` is one past the last marked offset. */
  datatype Worker = Worker(part: nat, next: nat, marked: nat, pc: PC)

  /** `adrift` holds, by partition and offset, the inserts given up that may still reach the table. */
  datatype State = State(table: seq<Row>, committed: seq<nat>, workers: seq<Worker>, adrift: set<(nat, nat)>)

  datatype Action =
    | Claim(w: nat, part: nat)
    | Take(w: nat)
    | Attempt(w: nat, outcome: Outcome)
    | Retry(w: nat)
    | Mark(w: nat)
    | Commit(w: nat)
    | Stop(w: nat)
    | Land(part: nat, offset: nat)

  predicate Enabled(logs: seq<Log>, s: State, x: Action) {
    |s.committed| == |logs| &&
    if x.Land? then (x.part, x.offset) in s.adrift && x.part < |logs| && x.offset < |logs[x.part]|
    else
      x.w < |s.workers| &&
      var me := s.workers[x.w];
      match x
      case Claim(_, part) => me.pc.Stopped? && part < |logs|
      case Take(_) => me.pc.Polling? && me.part < |logs| && me.next < |logs[me.part]|
      case Attempt(_, _) => me.pc.Handling? && me.part < |logs| && me.next < |logs[me.part]|
      case Retry(_) => me.pc.Waiting?
      case Mark(_) => me.pc.Handled?
      case Commit(_) => !me.pc.Stopped? && me.part < |logs|
      case Stop(_) => true
  }

  function Set(s: State, w: nat, me: Worker): State
    requires w < |s.workers|
  {
    s.(workers := s.workers[w := me])
  }

  /** One attempt at message `m`; its row reaches the table now, or perhaps later. */
  function AttemptOne(s: State, w: nat, m: Option<Row>, outcome: Outcome): State
    requires w < |s.workers|
  {
    var me := s.workers[w];
    if m.None? then Set(s, w, me.(pc := Handled))
    else if outcome == Stored then Set(s.(table := Insert(s.table, m.value)), w, me.(pc := Handled))
    else if outcome == FailedWritten then Set(s.(table := Insert(s.table, m.value)), w, me.(pc := Waiting))
    else Set(s.(adrift := s.adrift + {(me.part, me.next)}), w, me.(pc := Waiting))
  }

  function Next(logs: seq<Log>, s: State, x: Action): State
    requires Enabled(logs, s, x)
  {
    if x.Land? then s.(table := AbsorbOne(s.table, logs[x.part][x.offset]))
    else
      var me := s.workers[x.w];
      match x
      case Claim(w, part) => Set(s, w, Worker(part, s.committed[part], s.committed[part], Polling))
      case Take(w) => Set(s, w, me.(pc := Handling))
      case Attempt(w, outcome) => AttemptOne(s, w, logs[me.part][me.next], outcome)
      case Retry(w) => Set(s, w, me.(pc := Handling))
      case Mark(w) => Set(s, w, me.(next := me.next + 1, marked := me.next + 1, pc := Polling))
      case Commit(_) => s.(committed := s.committed[me.part := me.marked])
      case Stop(w) => Set(s, w, me.(pc := Stopped))
  }

  /**
   An attempt at a decodable message that is reported to have failed leaves the consumer with the same message to
   retry; its row is in the table, or is not but may still land.
   */
  lemma FailedAttempt(logs: seq<Log>, s: State, w: nat, outcome: Outcome)
    requires Enabled(logs, s, Attempt(w, outcome)) && outcome != Stored
    requires logs[s.workers[w].part][s.workers[w].next].Some?
    ensures var me := s.workers[w]; var m, s' := logs[me.part][me.next], Next(logs, s, Attempt(w, outcome));
      && s'.workers == s.workers[w := me.(pc := Waiting)] && s'.committed == s.committed
      && (outcome == FailedWritten ==> TakenIn(s'.table, m))
      && (outcome == FailedUnwritten ==>
            && s'.table == s.table && Enabled(logs, s', Land(me.part, me.next))
            && TakenIn(Next(logs, s', Land(me.part, me.next)).table, m))
      && Enabled(logs, s', Retry(w)) && Next(logs, s', Retry(w)).workers == s.workers
  {
    var me := s.workers[w];
    InsertTakesIn(s.table, logs[me.part][me.next].value);
    assert s.workers[w := me.(pc := Waiting)][w := me] == s.workers;
  }

  // ----- merging the logs

  /** The setting of a run: the table and the committed offsets at its start. */
  datatype Setting = Setting(logs: seq<Log>, table: seq<Row>, start: seq<nat>)

  ghost predicate SettingOk(e: Setting) {
    |e.start| == |e.logs| && forall p :: 0 <= p < |e.logs| ==> e.start[p] <= |e.logs[p]|
  }

  /** `order` says from which partition the next message comes, each time; this is how far the partitions get. */
  function Front(e: Setting, order: seq<nat>): (front: seq<nat>)
    ensures |front| == |e.start|
    ensures forall p :: 0 <= p < |front| ==> e.start[p] <= front[p]
  {
    if order == [] then e.start
    else
      var before, p := Front(e, order[..|order| - 1]), order[|order| - 1];
      if p < |before| then before[p := before[p] + 1] else before
  }

  predicate Orders(e: Setting, order: seq<nat>) {
    order == [] ||
    var before, p := order[..|order| - 1], order[|order| - 1];
    Orders(e, before) && p < |e.start| && p < |e.logs| && Front(e, before)[p] < |e.logs[p]|
  }

  /** The messages in that order: a merge of the logs, each from its start. */
  function Merged(e: Setting, order: seq<nat>): Log
    requires Orders(e, order)
  {
    if order == [] then []
    else
      var before, p := order[..|order| - 1], order[|order| - 1];
      Merged(e, before) + [e.logs[p][Front(e, before)[p]]]
  }

  predicate HasMore(e: Setting, order: seq<nat>, p: nat) {
    p < |e.start| && p < |e.logs| && Front(e, order)[p] < |e.logs[p]|
  }

  lemma LastOf(order: seq<nat>, p: nat)
    ensures (order + [p])[..|order + [p]| - 1] == order
  {
  }

  lemma OrderSnoc(e: Setting, order: seq<nat>, p: nat)
    requires Orders(e, order) && HasMore(e, order, p)
    ensures Orders(e, order + [p])
  {
    LastOf(order, p);
  }

  lemma FrontSnoc(e: Setting, order: seq<nat>, p: nat)
    requires p < |e.start|
    ensures Front(e, order + [p]) == Front(e, order)[p := Front(e, order)[p] + 1]
  {
    LastOf(order, p);
  }

  lemma MergedSnoc(e: Setting, order: seq<nat>, p: nat)
    requires Orders(e, order) && HasMore(e, order, p) && Orders(e, order + [p])
    ensures Merged(e, order + [p]) == Merged(e, order) + [e.logs[p][Front(e, order)[p]]]
  {
    LastOf(order, p);
  }

  /** What a merged pass has gone through it has taken in. */
  lemma {:induction false} MergedTakesIn(e: Setting, order: seq<nat>, p: nat, offset: nat)
    requires Orders(e, order) && SettingOk(e) && p < |e.logs| && e.start[p] <= offset < Front(e, order)[p]
    ensures offset < |e.logs[p]| && TakenIn(Absorb(e.table, Merged(e, order)), e.logs[p][offset])
  {
    var log, front, last := LastOfOrder(e, order);
    var m := e.logs[last][front[last]];
    AbsorbSnoc(e.table, log, m);
    if m.Some? {
      InsertTakesIn(Absorb(e.table, log), m.value);
    }
    if offset < front[p] {
      MergedTakesIn(e, order[..|order| - 1], p, offset);
    }
  }

  lemma LastOfOrder(e: Setting, order: seq<nat>) returns (log: Log, front: seq<nat>, p: nat)
    requires Orders(e, order) && order != []
    ensures Orders(e, order[..|order| - 1])
    ensures log == Merged(e, order[..|order| - 1]) && front == Front(e, order[..|order| - 1])
    ensures p < |front| && p < |e.logs| && front[p] < |e.logs[p]|
    ensures Merged(e, order) == log + [e.logs[p][front[p]]] && Front(e, order) == front[p := front[p] + 1]
  {
    p := order[|order| - 1];
    log, front := Merged(e, order[..|order| - 1]), Front(e, order[..|order| - 1]);
  }

  // ----- the invariant: the table is one pass over a merge of the logs

  predicate WorkerOk(e: Setting, me: Worker, front: seq<nat>)
    requires |front| == |e.logs| == |e.start|
  {
    me.pc.Stopped? ||
    (&& me.part < |e.logs| && e.start[me.part] <= me.marked <= me.next <= front[me.part]
     && (!me.pc.Polling? ==> me.next < |e.logs[me.part]|)
     && (me.pc.Handled? ==> me.next < front[me.part]))
  }

  /** Nobody is ahead of how far the partitions have been taken in. */
  ghost predicate WithinFront(e: Setting, s: State, front: seq<nat>) {
    && |e.start| == |e.logs| == |s.committed| == |front|
    && (forall p :: 0 <= p < |e.logs| ==> e.start[p] <= s.committed[p] <= front[p] <= |e.logs[p]|)
    && (forall w :: 0 <= w < |s.workers| ==> WorkerOk(e, s.workers[w], front))
    && (forall p: nat, o: nat :: (p, o) in s.adrift ==> p < |e.logs| && e.start[p] <= o <= front[p])
  }

  ghost predicate Inv(e: Setting, s: State, order: seq<nat>) {
    && SettingOk(e) && Orders(e, order)
    && s.table == Absorb(e.table, Merged(e, order))
    && WithinFront(e, s, Front(e, order))
  }

  /** At the start nobody runs, and no insert is under way. */
  ghost predicate Initial(e: Setting, s: State) {
    && SettingOk(e) && s.table == e.table && s.committed == e.start && s.adrift == {}
    && forall w :: w in s.workers ==> w.pc.Stopped?
  }

  /** Writing the message at the front of its partition is the next step of the pass. */
  lemma WriteAtFront(e: Setting, s: State, order: seq<nat>, p: nat)
    requires Inv(e, s, order) && HasMore(e, order, p)
    ensures Inv(e, s.(table := AbsorbOne(s.table, e.logs[p][Front(e, order)[p]])), order + [p])
    ensures Front(e, order)[p] < Front(e, order + [p])[p]
  {
    OrderSnoc(e, order, p);
    FrontSnoc(e, order, p);
    MergedSnoc(e, order, p);
    AbsorbSnoc(e.table, Merged(e, order), e.logs[p][Front(e, order)[p]]);
    FrontMoves(e, s, Front(e, order), p);
  }

  /** Writing a message that has been reached: at the front it is the next of the pass, behind it nothing happens. */
  lemma WriteKeepsInv(e: Setting, s: State, order: seq<nat>, p: nat, offset: nat) returns (order': seq<nat>)
    requires Inv(e, s, order) && p < |e.logs| && e.start[p] <= offset <= Front(e, order)[p] && offset < |e.logs[p]|
    ensures Inv(e, s.(table := AbsorbOne(s.table, e.logs[p][offset])), order') && offset < Front(e, order')[p]
  {
    if offset == Front(e, order)[p] {
      WriteAtFront(e, s, order, p);
      order' := order + [p];
    } else {
      MergedTakesIn(e, order, p, offset);
      order' := order;
    }
  }

  lemma FrontMoves(e: Setting, s: State, front: seq<nat>, p: nat)
    requires WithinFront(e, s, front) && p < |e.logs| && front[p] < |e.logs[p]|
    ensures WithinFront(e, s, front[p := front[p] + 1])
  {
    forall w | 0 <= w < |s.workers| ensures WorkerOk(e, s.workers[w], front[p := front[p] + 1]) {
      assert WorkerOk(e, s.workers[w], front);
    }
  }

  /** The action counts its message as handled, or is about to write it. */
  predicate Writes(logs: seq<Log>, s: State, x: Action)
    requires Enabled(logs, s, x)
  {
    x.Attempt? && (logs[s.workers[x.w].part][s.workers[x.w].next].None? || x.outcome != FailedUnwritten)
  }

  lemma NextKeepsWithin(e: Setting, s: State, front: seq<nat>, x: Action)
    requires WithinFront(e, s, front) && Enabled(e.logs, s, x)
    requires Writes(e.logs, s, x) ==> s.workers[x.w].next < front[s.workers[x.w].part]
    ensures WithinFront(e, Next(e.logs, s, x), front)
  {
    var s' := Next(e.logs, s, x);
    forall w | 0 <= w < |s.workers| ensures WorkerOk(e, s'.workers[w], front) {
      assert WorkerOk(e, s.workers[w], front);
    }
    if !x.Land? {
      assert WorkerOk(e, s.workers[x.w], front);
    }
  }

  /** The table after the action. */
  function TableAfter(logs: seq<Log>, s: State, x: Action): seq<Row>
    requires Enabled(logs, s, x)
  {
    if x.Land? then AbsorbOne(s.table, logs[x.part][x.offset])
    else if Writes(logs, s, x) then AbsorbOne(s.table, logs[s.workers[x.w].part][s.workers[x.w].next])
    else s.table
  }

  lemma NextTable(logs: seq<Log>, s: State, x: Action)
    requires Enabled(logs, s, x)
    ensures Next(logs, s, x).table == TableAfter(logs, s, x)
  {
  }

  lemma TableKeepsInv(e: Setting, s: State, order: seq<nat>, x: Action) returns (order': seq<nat>)
    requires Inv(e, s, order) && Enabled(e.logs, s, x)
    ensures Inv(e, s.(table := TableAfter(e.logs, s, x)), order')
    ensures Writes(e.logs, s, x) ==> s.workers[x.w].next < Front(e, order')[s.workers[x.w].part]
  {
    order' := order;
    if x.Land? {
      order' := WriteKeepsInv(e, s, order, x.part, x.offset);
    } else if Writes(e.logs, s, x) {
      assert WorkerOk(e, s.workers[x.w], Front(e, order));
      order' := WriteKeepsInv(e, s, order, s.workers[x.w].part, s.workers[x.w].next);
    }
  }

  lemma NextKeepsInv(e: Setting, s: State, order: seq<nat>, x: Action) returns (order': seq<nat>)
    requires Inv(e, s, order) && Enabled(e.logs, s, x)
    ensures Inv(e, Next(e.logs, s, x), order')
  {
    order' := TableKeepsInv(e, s, order, x);
    SameWithin(e, s, s.(table := TableAfter(e.logs, s, x)), Front(e, order'));
    NextKeepsWithin(e, s, Front(e, order'), x);
    NextTable(e.logs, s, x);
  }

  lemma SameWithin(e: Setting, s: State, s': State, front: seq<nat>)
    requires WithinFront(e, s', front) && s == s'.(table := s.table)
    ensures WithinFront(e, s, front)
  {
  }

  ghost predicate Run(logs: seq<Log>, s: State, xs: seq<Action>, s': State)
    decreases |xs|
  {
    if xs == [] then s' == s else Enabled(logs, s, xs[0]) && Run(logs, Next(logs, s, xs[0]), xs[1..], s')
  }

  lemma {:induction false} RunKeepsInv(e: Setting, s: State, order: seq<nat>, xs: seq<Action>, s': State)
    returns (order': seq<nat>)
    requires Inv(e, s, order) && Run(e.logs, s, xs, s')
    ensures Inv(e, s', order')
    decreases |xs|
  {
    if xs == [] {
      order' := order;
    } else {
      var next := NextKeepsInv(e, s, order, xs[0]);
      order' := RunKeepsInv(e, Next(e.logs, s, xs[0]), next, xs[1..], s');
    }
  }

  // ----- the main theorems

  /**
   In every run, however inserts fail or land late and consumers crash and overlap, and whatever ids and
   keys the messages have, the table is one insert-or-ignore pass over a merge of prefixes of the logs that
   keeps each log's order, each prefix covering what is committed.
   */
  lemma EveryRunIsOnePass(e: Setting, s: State, xs: seq<Action>, s': State) returns (order: seq<nat>)
    requires Initial(e, s) && Run(e.logs, s, xs, s')
    ensures Orders(e, order) && s'.table == Absorb(e.table, Merged(e, order)) && |s'.committed| == |e.logs|
    ensures forall p :: 0 <= p < |e.logs| ==> e.start[p] <= s'.committed[p] <= Front(e, order)[p] <= |e.logs[p]|
  {
    order := RunKeepsInv(e, s, [], xs, s');
  }

  /** A worker has marked only messages that are stored, clash with a stored one, or cannot be decoded. */
  lemma MarkedIsStored(e: Setting, s: State, xs: seq<Action>, s': State, w: nat, offset: nat)
    requires Initial(e, s) && Run(e.logs, s, xs, s')
    requires w < |s'.workers| && !s'.workers[w].pc.Stopped?
    ensures s'.workers[w].part < |e.logs|
    ensures var me := s'.workers[w];
      e.start[me.part] <= offset < me.marked ==> offset < |e.logs[me.part]| && TakenIn(s'.table, e.logs[me.part][offset])
  {
    var order := RunKeepsInv(e, s, [], xs, s');
    var me := s'.workers[w];
    assert WorkerOk(e, me, Front(e, order));
    if e.start[me.part] <= offset < me.marked {
      MergedTakesIn(e, order, me.part, offset);
    }
  }

  /** And so has a partition committed only such messages. */
  lemma CommittedIsStored(e: Setting, s: State, xs: seq<Action>, s': State, p: nat, offset: nat)
    requires Initial(e, s) && Run(e.logs, s, xs, s') && p < |e.logs|
    ensures |s'.committed| == |e.logs|
    ensures e.start[p] <= offset < s'.committed[p] ==> offset < |e.logs[p]| && TakenIn(s'.table, e.logs[p][offset])
  {
    var order := RunKeepsInv(e, s, [], xs, s');
    if e.start[p] <= offset < s'.committed[p] {
      MergedTakesIn(e, order, p, offset);
    }
  }

  /** With one partition the whole table is one pass over a prefix of the log. */
  lemma OnePartitionOnePass(e: Setting, s: State, xs: seq<Action>, s': State)
    requires Initial(e, s) && Run(e.logs, s, xs, s') && |e.logs| == 1
    ensures |s'.committed| == 1
    ensures exists upTo :: (e.start[0] <= s'.committed[0] <= upTo <= |e.logs[0]| &&
      s'.table == Absorb(e.table, e.logs[0][e.start[0]..upTo]))
  {
    var order := EveryRunIsOnePass(e, s, xs, s');
    MergedOfOne(e, order);
  }

  lemma {:induction false} MergedOfOne(e: Setting, order: seq<nat>)
    requires SettingOk(e) && |e.logs| == 1 && Orders(e, order)
    ensures Front(e, order)[0] <= |e.logs[0]|
    ensures Merged(e, order) == e.logs[0][e.start[0]..Front(e, order)[0]]
  {
    if order != [] {
      MergedOfOne(e, order[..|order| - 1]);
    }
  }
}
