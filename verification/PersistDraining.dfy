/** Runs in which one consumer takes in whole partitions, one after the other, with no failure. */
module PersistDraining {
  import opened Option
  import opened MessageTable
  import opened PersistConsumer
  import opened PersistProtocol

  lemma {:induction false} RunAppend(logs: seq<Log>, s: State, xs: seq<Action>, s': State, ys: seq<Action>, s'': State)
    requires Run(logs, s, xs, s') && Run(logs, s', ys, s'')
    ensures Run(logs, s, xs + ys, s'')
    decreases |xs|
  {
    if xs == [] {
      assert xs + ys == ys;
    } else {
      RunAppend(logs, Next(logs, s, xs[0]), xs[1..], s', ys, s'');
      assert (xs + ys)[1..] == xs[1..] + ys;
    }
  }

  lemma Then(logs: seq<Log>, s: State, xs: seq<Action>, s': State, x: Action) returns (ys: seq<Action>, s'': State)
    requires Run(logs, s, xs, s') && Enabled(logs, s', x)
    ensures Run(logs, s, ys, s'') && s'' == Next(logs, s', x)
  {
    s'' := Next(logs, s', x);
    assert Run(logs, s'', [], s'') && [x][1..] == [];
    RunAppend(logs, s, xs, s', [x], s'');
    ys := xs + [x];
  }

  /** Worker `w` handles the message it has next. */
  lemma HandleOne(logs: seq<Log>, s: State, w: nat) returns (xs: seq<Action>, s': State)
    requires w < |s.workers| && |s.committed| == |logs|
    requires var me := s.workers[w]; me.pc.Polling? && me.part < |logs| && me.next < |logs[me.part]|
    ensures Run(logs, s, xs, s')
    ensures var me := s.workers[w];
      s' == s.(table := AbsorbOne(s.table, logs[me.part][me.next]),
               workers := s.workers[w := Worker(me.part, me.next + 1, me.next + 1, Polling)])
  {
    xs, s' := Then(logs, s, [], s, Take(w));
    xs, s' := Then(logs, s, xs, s', Attempt(w, Stored));
    xs, s' := Then(logs, s, xs, s', Mark(w));
  }

  /** Worker `w` handles all that is left of its partition. */
  lemma {:induction false} HandleRest(logs: seq<Log>, s: State, w: nat) returns (xs: seq<Action>, s': State)
    requires w < |s.workers| && |s.committed| == |logs|
    requires var me := s.workers[w]; me.pc.Polling? && me.part < |logs| && me.marked == me.next <= |logs[me.part]|
    ensures Run(logs, s, xs, s')
    ensures var me := s.workers[w]; var end := |logs[me.part]|;
      s' == s.(table := Absorb(s.table, logs[me.part][me.next..]), workers := s.workers[w := Worker(me.part, end, end, Polling)])
    decreases |logs[s.workers[w].part]| - s.workers[w].next
  {
    var me := s.workers[w];
    var log := logs[me.part];
    if me.next == |log| {
      xs, s' := [], s;
      assert log[me.next..] == [];
    } else {
      var first, mid := HandleOne(logs, s, w);
      var rest, end := HandleRest(logs, mid, w);
      RunAppend(logs, s, first, mid, rest, end);
      AbsorbFirst(s.table, log[me.next], log[me.next + 1..]);
      assert log[me.next..] == [log[me.next]] + log[me.next + 1..];
      xs, s' := first + rest, end;
    }
  }

  /** Worker `w` takes partition `p`, handles and commits all of it, and stops. */
  lemma DrainOne(logs: seq<Log>, s: State, w: nat, p: nat) returns (xs: seq<Action>, s': State)
    requires w < |s.workers| && s.workers[w].pc.Stopped?
    requires |s.committed| == |logs| && p < |logs| && s.committed[p] <= |logs[p]|
    ensures Run(logs, s, xs, s') && w < |s'.workers| && s'.workers[w].pc.Stopped?
    ensures s'.table == Absorb(s.table, logs[p][s.committed[p]..]) && s'.committed == s.committed[p := |logs[p]|]
  {
    xs, s' := Then(logs, s, [], s, Claim(w, p));
    var rest, end := HandleRest(logs, s', w);
    RunAppend(logs, s, xs, s', rest, end);
    xs, s' := xs + rest, end;
    xs, s' := Then(logs, s, xs, s', Commit(w));
    xs, s' := Then(logs, s, xs, s', Stop(w));
  }

  /** Whatever went wrong before, a consumer with a message in hand can still store it, mark it and go on to the next. */
  lemma CanAlwaysGetOn(logs: seq<Log>, s: State, w: nat) returns (xs: seq<Action>, s': State)
    requires w < |s.workers| && |s.committed| == |logs|
    requires var me := s.workers[w]; (me.pc.Waiting? || me.pc.Handling?) && me.part < |logs| && me.next < |logs[me.part]|
    ensures Run(logs, s, xs, s')
    ensures var me := s.workers[w];
      && s'.workers == s.workers[w := Worker(me.part, me.next + 1, me.next + 1, Polling)]
      && TakenIn(s'.table, logs[me.part][me.next])
  {
    var me := s.workers[w];
    var m, ready := logs[me.part][me.next], s.(workers := s.workers[w := me.(pc := Handling)]);
    TakenInAfter(s.table, m);
    xs, s' := FinishOne(logs, ready, w);
    if me.pc.Waiting? {
      var first, mid := Then(logs, s, [], s, Retry(w));
      RunAppend(logs, s, first, mid, xs, s');
      xs := first + xs;
    } else {
      assert s.workers[w := me] == s.workers;
    }
  }

  lemma TakenInAfter(table: seq<Row>, m: Option<Row>)
    ensures TakenIn(AbsorbOne(table, m), m)
  {
    if m.Some? {
      InsertTakesIn(table, m.value);
    }
  }

  /** Worker `w` stores and marks the message it has in hand. */
  lemma FinishOne(logs: seq<Log>, s: State, w: nat) returns (xs: seq<Action>, s': State)
    requires w < |s.workers| && |s.committed| == |logs|
    requires var me := s.workers[w]; me.pc.Handling? && me.part < |logs| && me.next < |logs[me.part]|
    ensures Run(logs, s, xs, s')
    ensures var me := s.workers[w];
      s' == s.(table := AbsorbOne(s.table, logs[me.part][me.next]),
               workers := s.workers[w := Worker(me.part, me.next + 1, me.next + 1, Polling)])
  {
    xs, s' := Then(logs, s, [], s, Attempt(w, Stored));
    xs, s' := Then(logs, s, xs, s', Mark(w));
  }

  ghost predicate Drained(logs: seq<Log>, s: State) {
    |s.committed| == |logs| && forall p :: 0 <= p < |logs| ==> s.committed[p] == |logs[p]|
  }

  /** From partition `p` on, one after the other. */
  lemma {:induction false} DrainFrom(logs: seq<Log>, s: State, w: nat, p: nat) returns (xs: seq<Action>, s': State)
    requires w < |s.workers| && s.workers[w].pc.Stopped?
    requires |s.committed| == |logs| && p <= |logs| && forall k :: 0 <= k < |logs| ==> s.committed[k] <= |logs[k]|
    requires forall k :: 0 <= k < p ==> s.committed[k] == |logs[k]|
    ensures Run(logs, s, xs, s') && Drained(logs, s') && s.table <= s'.table
    decreases |logs| - p
  {
    if p == |logs| {
      xs, s' := [], s;
    } else {
      var first, mid := DrainOne(logs, s, w, p);
      AbsorbGrows(s.table, logs[p][s.committed[p]..], 0);
      var rest, end := DrainFrom(logs, mid, w, p + 1);
      RunAppend(logs, s, first, mid, rest, end);
      xs, s' := first + rest, end;
    }
  }

  /** All partitions are drained, `p` before the others. */
  lemma DrainStartingWith(logs: seq<Log>, s: State, w: nat, p: nat) returns (xs: seq<Action>, s': State)
    requires w < |s.workers| && s.workers[w].pc.Stopped?
    requires |s.committed| == |logs| && p < |logs| && forall k :: 0 <= k < |logs| ==> s.committed[k] <= |logs[k]|
    ensures Run(logs, s, xs, s') && Drained(logs, s')
    ensures Absorb(s.table, logs[p][s.committed[p]..]) <= s'.table
  {
    var first, mid := DrainOne(logs, s, w, p);
    var rest, end := DrainFrom(logs, mid, w, 0);
    RunAppend(logs, s, first, mid, rest, end);
    xs, s' := first + rest, end;
  }
}
