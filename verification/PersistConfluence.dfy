/**
 What becomes of each partition's messages when many partitions write one table. `route` is the hash of the
 message key, which is the recipient or the group, and so part of the table's second unique key. The server id,
 the first unique key, is not tied to the partition, and that decides everything here.
 */
module PersistConfluence {
  import opened Option
  import opened MessageTable
  import opened PersistProtocol
  import opened PersistDraining

  /** Every message is in the partition of its destination. */
  ghost predicate Routed(route: int -> nat, e: Setting) {
    && SettingOk(e) && (forall d :: route(d) < |e.logs|)
    && forall p, i :: 0 <= p < |e.logs| && 0 <= i < |e.logs[p]| && e.logs[p][i].Some? ==> route(e.logs[p][i].value.dest) == p
  }

  /** What partition `p` adds to the table up to an offset, when it is alone. */
  function AddedBy(e: Setting, p: nat, upTo: nat): seq<Row>
    requires p < |e.logs| && p < |e.start| && e.start[p] <= upTo <= |e.logs[p]|
  {
    Added(e.table, e.logs[p][e.start[p]..upTo])
  }

  function Survivors(e: Setting, p: nat): seq<Row>
    requires p < |e.logs| && p < |e.start| && e.start[p] <= |e.logs[p]|
  {
    AddedBy(e, p, |e.logs[p]|)
  }

  /** What two partitions add, each alone, has no server id in common. */
  ghost predicate Apart(e: Setting)
    requires SettingOk(e)
  {
    forall p, q, r, t :: 0 <= p < |e.logs| && 0 <= q < |e.logs| && p != q && r in Survivors(e, p) && t in Survivors(e, q) ==>
      r.msgID != t.msgID
  }

  lemma AddedByGrows(e: Setting, p: nat, upTo: nat)
    requires SettingOk(e) && p < |e.logs| && e.start[p] <= upTo <= |e.logs[p]|
    ensures AddedBy(e, p, upTo) <= Survivors(e, p)
  {
    var log, k := e.logs[p][e.start[p]..], upTo - e.start[p];
    AbsorbGrows(e.table, log, k);
    assert log[..k] == e.logs[p][e.start[p]..upTo] && log == e.logs[p][e.start[p]..|e.logs[p]|];
  }

  // ----- the rows of one partition

  /** The rows that come from partition `p`. */
  function Part(route: int -> nat, rows: seq<Row>, p: nat): seq<Row> {
    if rows == [] then []
    else
      var n := |rows| - 1;
      Part(route, rows[..n], p) + (if route(rows[n].dest) == p then [rows[n]] else [])
  }

  lemma PartSnoc(route: int -> nat, rows: seq<Row>, r: Row, p: nat)
    ensures Part(route, rows + [r], p) == Part(route, rows, p) + (if route(r.dest) == p then [r] else [])
  {
    assert (rows + [r])[..|rows|] == rows;
  }

  lemma {:induction false} PartMembers(route: int -> nat, rows: seq<Row>, p: nat)
    ensures forall r :: r in Part(route, rows, p) <==> r in rows && route(r.dest) == p
  {
    if rows != [] {
      var n := |rows| - 1;
      PartMembers(route, rows[..n], p);
      assert rows == rows[..n] + [rows[n]];
    }
  }

  lemma ClashesIff(table: seq<Row>, r: Row)
    ensures Clashes(table, r) <==> exists q :: q in table && Clash(q, r)
  {
    if q :| q in table && Clash(q, r) {
      var i :| 0 <= i < |table| && table[i] == q;
    }
  }

  /** The rows added by a merged pass are, partition by partition, what the partitions add alone. */
  ghost predicate Splits(route: int -> nat, e: Setting, rows: seq<Row>, front: seq<nat>) {
    && |front| == |e.logs| == |e.start|
    && forall p :: 0 <= p < |e.logs| ==> e.start[p] <= front[p] <= |e.logs[p]| && Part(route, rows, p) == AddedBy(e, p, front[p])
  }

  /** So the next message of a partition clashes exactly if it clashes when the partition is alone. */
  lemma ClashIsOwn(route: int -> nat, e: Setting, rows: seq<Row>, front: seq<nat>, p: nat)
    requires Routed(route, e) && Apart(e) && Splits(route, e, rows, front)
    requires p < |e.logs| && front[p] < |e.logs[p]| && e.logs[p][front[p]].Some?
    ensures var m := e.logs[p][front[p]].value;
      Clashes(e.table + rows, m) <==> Clashes(e.table + AddedBy(e, p, front[p]), m)
  {
    var m, own := e.logs[p][front[p]].value, AddedBy(e, p, front[p]);
    PartMembers(route, rows, p);
    ClashesIff(e.table + rows, m);
    ClashesIff(e.table + own, m);
    if !Clashes(e.table + own, m) {
      StoredAlone(e, p, front[p]);
      forall r | r in rows ensures !Clash(r, m) {
        var q := route(r.dest);
        PartMembers(route, rows, q);
        AddedByGrows(e, q, front[q]);
        if q != p {
          assert r in Survivors(e, q) && m in Survivors(e, p);
        }
      }
    }
  }

  lemma AddedByNext(e: Setting, p: nat, at: nat)
    requires SettingOk(e) && p < |e.logs| && e.start[p] <= at < |e.logs[p]|
    ensures e.table + AddedBy(e, p, at + 1) == AbsorbOne(e.table + AddedBy(e, p, at), e.logs[p][at])
  {
    var log := e.logs[p][e.start[p]..at];
    AbsorbSnoc(e.table, log, e.logs[p][at]);
    assert e.logs[p][e.start[p]..at + 1] == log + [e.logs[p][at]];
  }

  lemma StoredAlone(e: Setting, p: nat, at: nat)
    requires SettingOk(e) && p < |e.logs| && e.start[p] <= at < |e.logs[p]|
    requires e.logs[p][at].Some? && !Clashes(e.table + AddedBy(e, p, at), e.logs[p][at].value)
    ensures e.logs[p][at].value in Survivors(e, p)
  {
    AddedByNext(e, p, at);
    AddedByGrows(e, p, at + 1);
    var rows := AddedBy(e, p, at + 1);
    assert rows == AddedBy(e, p, at) + [e.logs[p][at].value];
    assert rows[|rows| - 1] in Survivors(e, p);
  }

  /** What inserting `m` adds to the rows, merged and alone. */
  function Extra(table: seq<Row>, rows: seq<Row>, m: Option<Row>): seq<Row> {
    if m.None? || Clashes(table + rows, m.value) then [] else [m.value]
  }

  lemma InsertAfter(table: seq<Row>, rows: seq<Row>, m: Option<Row>, rows': seq<Row>)
    requires table + rows' == AbsorbOne(table + rows, m)
    ensures rows' == rows + Extra(table, rows, m)
  {
    var extra := Extra(table, rows, m);
    assert table + rows' == table + (rows + extra);
    SameAfter(table, rows', rows + extra);
  }

  lemma SameAfter(table: seq<Row>, rows: seq<Row>, rows': seq<Row>)
    requires table + rows == table + rows'
    ensures rows == rows'
  {
    assert rows == (table + rows)[|table|..] && rows' == (table + rows')[|table|..];
  }

  /** The next message of a partition is stored both merged and alone, or in neither case. */
  lemma StoredInBothOrNeither(route: int -> nat, e: Setting, rows: seq<Row>, front: seq<nat>, p: nat, rows': seq<Row>) returns (extra: seq<Row>)
    requires Routed(route, e) && Apart(e) && Splits(route, e, rows, front) && p < |e.logs| && front[p] < |e.logs[p]|
    requires e.table + rows' == AbsorbOne(e.table + rows, e.logs[p][front[p]])
    ensures rows' == rows + extra && AddedBy(e, p, front[p] + 1) == AddedBy(e, p, front[p]) + extra
    ensures extra == [] || (|extra| == 1 && route(extra[0].dest) == p)
  {
    var m := e.logs[p][front[p]];
    extra := Extra(e.table, rows, m);
    AddedByNext(e, p, front[p]);
    InsertAfter(e.table, rows, m, rows');
    InsertAfter(e.table, AddedBy(e, p, front[p]), m, AddedBy(e, p, front[p] + 1));
    if m.Some? {
      ClashIsOwn(route, e, rows, front, p);
    }
  }

  lemma PartAppend(route: int -> nat, rows: seq<Row>, extra: seq<Row>, p: nat, q: nat)
    requires extra == [] || (|extra| == 1 && route(extra[0].dest) == p)
    ensures Part(route, rows + extra, q) == Part(route, rows, q) + (if p == q then extra else [])
  {
    if extra == [] {
      assert rows + extra == rows;
    } else {
      assert extra == [extra[0]];
      PartSnoc(route, rows, extra[0], q);
    }
  }

  lemma NextSplits(route: int -> nat, e: Setting, rows: seq<Row>, front: seq<nat>, p: nat, rows': seq<Row>)
    requires Routed(route, e) && Apart(e) && Splits(route, e, rows, front) && p < |e.logs| && front[p] < |e.logs[p]|
    requires e.table + rows' == AbsorbOne(e.table + rows, e.logs[p][front[p]])
    ensures Splits(route, e, rows', front[p := front[p] + 1])
  {
    var extra := StoredInBothOrNeither(route, e, rows, front, p, rows');
    forall q | 0 <= q < |e.logs| ensures Part(route, rows', q) == Part(route, rows, q) + (if p == q then extra else []) {
      PartAppend(route, rows, extra, p, q);
    }
  }

  lemma {:induction false} OrderSplits(route: int -> nat, e: Setting, order: seq<nat>)
    requires Routed(route, e) && Apart(e) && Orders(e, order)
    ensures Splits(route, e, Added(e.table, Merged(e, order)), Front(e, order))
  {
    if order == [] {
      NothingSplits(route, e);
    } else {
      OrderSplits(route, e, order[..|order| - 1]);
      var log, front, p := LastOfOrder(e, order);
      StepSplits(route, e, log, front, p);
    }
  }

  lemma StepSplits(route: int -> nat, e: Setting, log: Log, front: seq<nat>, p: nat)
    requires Routed(route, e) && Apart(e) && Splits(route, e, Added(e.table, log), front)
    requires p < |e.logs| && front[p] < |e.logs[p]|
    ensures Splits(route, e, Added(e.table, log + [e.logs[p][front[p]]]), front[p := front[p] + 1])
  {
    AbsorbSnoc(e.table, log, e.logs[p][front[p]]);
    NextSplits(route, e, Added(e.table, log), front, p, Added(e.table, log + [e.logs[p][front[p]]]));
  }

  lemma NothingSplits(route: int -> nat, e: Setting)
    requires Routed(route, e)
    ensures Added(e.table, []) == [] && Splits(route, e, [], e.start)
  {
    forall p | 0 <= p < |e.logs| ensures AddedBy(e, p, e.start[p]) == [] {
      assert e.logs[p][e.start[p]..e.start[p]] == [];
    }
  }

  // ----- when survivors are apart, each partition is as if it were alone

  /** The rows that a run has added. */
  function NewRows(e: Setting, s: State): seq<Row>
    requires |e.table| <= |s.table|
  {
    s.table[|e.table|..]
  }

  /**
   In every run the rows added from a partition are what one in-order insert-or-ignore pass over a prefix of
   its log adds, and the committed offset is within that prefix.
   */
  lemma ExactlyOnceEffect(route: int -> nat, e: Setting, s: State, xs: seq<Action>, s': State, p: nat)
    requires Initial(e, s) && Run(e.logs, s, xs, s') && Routed(route, e) && Apart(e) && p < |e.logs|
    ensures |s'.committed| == |e.logs| && e.table <= s'.table
    ensures exists upTo :: (e.start[p] <= s'.committed[p] <= upTo <= |e.logs[p]| &&
      Part(route, NewRows(e, s'), p) == AddedBy(e, p, upTo))
  {
    var order := EveryRunIsOnePass(e, s, xs, s');
    OrderSplits(route, e, order);
    assert NewRows(e, s') == Added(e.table, Merged(e, order));
    assert Part(route, NewRows(e, s'), p) == AddedBy(e, p, Front(e, order)[p]);
  }

  lemma DrainedPart(route: int -> nat, e: Setting, s: State, xs: seq<Action>, s': State, p: nat)
    requires Initial(e, s) && Run(e.logs, s, xs, s') && Routed(route, e) && Apart(e) && Drained(e.logs, s') && p < |e.logs|
    ensures e.table <= s'.table && Part(route, NewRows(e, s'), p) == Survivors(e, p)
  {
    ExactlyOnceEffect(route, e, s, xs, s', p);
  }

  lemma CountSnoc(rows: seq<Row>, extra: seq<Row>, r: Row)
    ensures multiset(rows + extra)[r] == multiset(rows)[r] + multiset(extra)[r]
  {
  }

  lemma {:induction false} PartCounts(route: int -> nat, rows: seq<Row>, r: Row)
    ensures multiset(rows)[r] == multiset(Part(route, rows, route(r.dest)))[r]
  {
    if rows != [] {
      var front, last, p := rows[..|rows| - 1], rows[|rows| - 1], route(r.dest);
      PartCounts(route, front, r);
      assert rows == front + [last];
      CountSnoc(front, [last], r);
      CountSnoc(Part(route, front, p), if route(last.dest) == p then [last] else [], r);
    }
  }

  lemma DrainedCount(route: int -> nat, e: Setting, s: State, xs: seq<Action>, s': State, r: Row)
    requires Initial(e, s) && Run(e.logs, s, xs, s') && Routed(route, e) && Apart(e) && Drained(e.logs, s')
    ensures multiset(s'.table)[r] == multiset(e.table)[r] + multiset(Survivors(e, route(r.dest)))[r]
  {
    DrainedPart(route, e, s, xs, s', route(r.dest));
    PartCounts(route, NewRows(e, s'), r);
    assert s'.table == e.table + NewRows(e, s');
  }

  /** Once everything is committed, the rows are the same whatever the interleaving and the failures were. */
  lemma DrainedRunsAgree(route: int -> nat, e: Setting, s: State, xs: seq<Action>, s1: State, ys: seq<Action>, s2: State)
    requires Initial(e, s) && Run(e.logs, s, xs, s1) && Run(e.logs, s, ys, s2)
    requires Routed(route, e) && Apart(e) && Drained(e.logs, s1) && Drained(e.logs, s2)
    ensures multiset(s1.table) == multiset(s2.table)
  {
    forall r: Row ensures multiset(s1.table)[r] == multiset(s2.table)[r] {
      DrainedCount(route, e, s, xs, s1, r);
      DrainedCount(route, e, s, ys, s2, r);
    }
  }

  // ----- and only then

  lemma AddedIdsDiffer(table: seq<Row>, log: Log, i: nat, j: nat)
    requires i < j < |Added(table, log)|
    ensures Added(table, log)[i].msgID != Added(table, log)[j].msgID
  {
    var all := Absorb(table, log);
    AddedRows(table, log, |table| + j);
    assert !Clash(all[|table| + i], all[|table| + j]);
  }

  /** Rows of a run that are not the initial ones have ids of their own. */
  lemma NewIdsDiffer(e: Setting, s: State, xs: seq<Action>, s': State, r: Row, t: Row)
    requires Initial(e, s) && Run(e.logs, s, xs, s') && r != t
    requires |e.table| <= |s'.table| && r in NewRows(e, s') && t in NewRows(e, s')
    ensures r.msgID != t.msgID
  {
    var order := EveryRunIsOnePass(e, s, xs, s');
    var log, rows := Merged(e, order), NewRows(e, s');
    assert rows == Added(e.table, log);
    var i :| 0 <= i < |rows| && rows[i] == r;
    var j :| 0 <= j < |rows| && rows[j] == t;
    if i < j {
      AddedIdsDiffer(e.table, log, i, j);
    } else {
      AddedIdsDiffer(e.table, log, j, i);
    }
  }

  lemma AddedIsNew(table: seq<Row>, log: Log, r: Row)
    requires r in Added(table, log)
    ensures r !in table && Some(r) in log
  {
    var i :| 0 <= i < |Added(table, log)| && Added(table, log)[i] == r;
    var all, j := Absorb(table, log), |table| + i;
    assert all[j] == r;
    AddedRows(table, log, j);
    assert forall k :: 0 <= k < |table| ==> all[k] == table[k] && !Clash(all[k], r);
  }

  /** A survivor is none of the rows that were there before. */
  lemma SurvivorIsNew(e: Setting, p: nat, r: Row)
    requires SettingOk(e) && p < |e.logs| && r in Survivors(e, p)
    ensures r !in e.table && Some(r) in e.logs[p]
  {
    AddedIsNew(e.table, e.logs[p][e.start[p]..|e.logs[p]|], r);
  }

  /** If survivors of two partitions share an id, a drained run that starts with one has its row and not the other's. */
  lemma FirstComeFirstServed(route: int -> nat, e: Setting, s: State, p: nat, q: nat, r: Row, t: Row)
    returns (xs: seq<Action>, s': State)
    requires Initial(e, s) && Routed(route, e) && |s.workers| > 0 && p < |e.logs| && q < |e.logs| && p != q
    requires r in Survivors(e, p) && t in Survivors(e, q) && r.msgID == t.msgID
    ensures Run(e.logs, s, xs, s') && Drained(e.logs, s') && r in s'.table && t !in s'.table
  {
    SurvivorIsNew(e, p, r);
    SurvivorIsNew(e, q, t);
    assert route(r.dest) == p && route(t.dest) == q;
    xs, s' := DrainStartingWith(e.logs, s, 0, p);
    SurvivorStays(e, p, r, s'.table);
    if t in s'.table {
      assert s'.table == e.table + NewRows(e, s') && t in NewRows(e, s');
      NewIdsDiffer(e, s, xs, s', r, t);
    }
  }

  lemma SurvivorStays(e: Setting, p: nat, r: Row, table: seq<Row>)
    requires SettingOk(e) && p < |e.logs| && r in Survivors(e, p)
    requires Absorb(e.table, e.logs[p][e.start[p]..]) <= table
    ensures e.table <= table && r in table[|e.table|..] && r in table
  {
    assert e.logs[p][e.start[p]..|e.logs[p]|] == e.logs[p][e.start[p]..];
    MiddleStays(e.table, Survivors(e, p), table, r);
  }

  lemma MiddleStays(first: seq<Row>, middle: seq<Row>, all: seq<Row>, r: Row)
    requires first + middle <= all && r in middle
    ensures first <= all && r in all[|first|..] && r in all
  {
    var i :| 0 <= i < |middle| && middle[i] == r;
    assert all[|first| + i] == (first + middle)[|first| + i] == r && all[|first|..][i] == r;
  }

  ghost predicate DrainsTo(e: Setting, s: State, s': State) {
    Drained(e.logs, s') && exists xs :: Run(e.logs, s, xs, s')
  }

  /** Drained runs all store the same rows if and only if the partitions' survivors have no server id in common. */
  lemma DrainedRunsAgreeIff(route: int -> nat, e: Setting, s: State)
    requires Initial(e, s) && Routed(route, e) && |s.workers| > 0
    ensures Apart(e) <==>
      forall s1, s2 :: DrainsTo(e, s, s1) && DrainsTo(e, s, s2) ==> multiset(s1.table) == multiset(s2.table)
  {
    if Apart(e) {
      forall s1, s2 | DrainsTo(e, s, s1) && DrainsTo(e, s, s2) ensures multiset(s1.table) == multiset(s2.table) {
        var xs :| Run(e.logs, s, xs, s1);
        var ys :| Run(e.logs, s, ys, s2);
        DrainedRunsAgree(route, e, s, xs, s1, ys, s2);
      }
    } else {
      var p, q, r, t :| 0 <= p < |e.logs| && 0 <= q < |e.logs| && p != q && r in Survivors(e, p) && t in Survivors(e, q) && r.msgID == t.msgID;
      var xs, s1 := FirstComeFirstServed(route, e, s, p, q, r, t);
      var ys, s2 := FirstComeFirstServed(route, e, s, q, p, t, r);
      assert DrainsTo(e, s, s1) && DrainsTo(e, s, s2);
      assert multiset(s1.table)[r] > 0 && multiset(s2.table)[r] == 0;
    }
  }

  // ----- which message of a key survives

  /** The messages of a partition that come first with their key. */
  function FirstsOf(e: Setting, p: nat, upTo: nat): seq<Row>
    requires p < |e.logs| && p < |e.start| && e.start[p] <= upTo <= |e.logs[p]|
  {
    var log := e.logs[p][e.start[p]..upTo];
    FirstsRows(e.table, log);
    Firsts(e.table, log)[|e.table|..]
  }

  /** They have server ids of their own, among themselves and against the initial rows. */
  ghost predicate FirstsDiffer(e: Setting, p: nat, upTo: nat)
    requires p < |e.logs| && p < |e.start| && e.start[p] <= upTo <= |e.logs[p]|
  {
    IdsDiffer(Firsts(e.table, e.logs[p][e.start[p]..upTo]), |e.table|)
  }

  lemma AddedAreFirstsIff(e: Setting, p: nat, upTo: nat)
    requires SettingOk(e) && p < |e.logs| && e.start[p] <= upTo <= |e.logs[p]|
    ensures AddedBy(e, p, upTo) == FirstsOf(e, p, upTo) <==> FirstsDiffer(e, p, upTo)
  {
    var log := e.logs[p][e.start[p]..upTo];
    FirstsRows(e.table, log);
    EarliestSurvivesIff(e.table, log);
    assert Absorb(e.table, log) == e.table + AddedBy(e, p, upTo) && Firsts(e.table, log) == e.table + FirstsOf(e, p, upTo);
  }

  lemma {:induction false} FirstsDifferBefore(table: seq<Row>, log: Log, k: nat)
    requires k <= |log| && IdsDiffer(Firsts(table, log), |table|)
    ensures IdsDiffer(Firsts(table, log[..k]), |table|)
  {
    var n := |log| - 1;
    if k == |log| {
      assert log[..k] == log;
    } else {
      assert Firsts(table, log[..n]) <= Firsts(table, log);
      FirstsDifferBefore(table, log[..n], k);
      assert log[..n][..k] == log[..k];
    }
  }

  /** In every run the rows added from a partition are the messages that came first with their key, of each key one. */
  lemma EarliestOfEachKeyPersists(route: int -> nat, e: Setting, s: State, xs: seq<Action>, s': State, p: nat)
    requires Initial(e, s) && Run(e.logs, s, xs, s') && Routed(route, e) && Apart(e)
    requires p < |e.logs| && FirstsDiffer(e, p, |e.logs[p]|)
    ensures |s'.committed| == |e.logs| && e.table <= s'.table
    ensures exists upTo :: (e.start[p] <= s'.committed[p] <= upTo <= |e.logs[p]| &&
      Part(route, NewRows(e, s'), p) == FirstsOf(e, p, upTo))
  {
    ExactlyOnceEffect(route, e, s, xs, s', p);
    var upTo :| e.start[p] <= s'.committed[p] <= upTo <= |e.logs[p]| && Part(route, NewRows(e, s'), p) == AddedBy(e, p, upTo);
    var log, k := e.logs[p][e.start[p]..|e.logs[p]|], upTo - e.start[p];
    FirstsDifferBefore(e.table, log, k);
    assert log[..k] == e.logs[p][e.start[p]..upTo];
    AddedAreFirstsIff(e, p, upTo);
  }

  /** And in a drained run they are that if and only if these messages have server ids of their own. */
  lemma EarliestOfEachKeyPersistsIff(route: int -> nat, e: Setting, s: State, xs: seq<Action>, s': State, p: nat)
    requires Initial(e, s) && Run(e.logs, s, xs, s') && Routed(route, e) && Apart(e) && Drained(e.logs, s') && p < |e.logs|
    ensures e.table <= s'.table
    ensures Part(route, NewRows(e, s'), p) == FirstsOf(e, p, |e.logs[p]|) <==> FirstsDiffer(e, p, |e.logs[p]|)
  {
    DrainedPart(route, e, s, xs, s', p);
    AddedAreFirstsIff(e, p, |e.logs[p]|);
  }

  /** With such ids within each partition, survivors are apart exactly if no two firsts of different partitions share an id. */
  lemma ApartIff(e: Setting)
    requires SettingOk(e) && forall p :: 0 <= p < |e.logs| ==> FirstsDiffer(e, p, |e.logs[p]|)
    ensures Apart(e) <==> (forall p, q, r, t ::
      (0 <= p < |e.logs| && 0 <= q < |e.logs| && p != q && r in FirstsOf(e, p, |e.logs[p]|) && t in FirstsOf(e, q, |e.logs[q]|) ==>
        r.msgID != t.msgID))
  {
    forall p | 0 <= p < |e.logs| ensures Survivors(e, p) == FirstsOf(e, p, |e.logs[p]|) {
      AddedAreFirstsIff(e, p, |e.logs[p]|);
    }
  }

  /** It is enough that no server id occurs in two partitions' logs. */
  lemma UnsharedIdsSuffice(e: Setting)
    requires SettingOk(e)
    requires forall p, q, r, t :: 0 <= p < |e.logs| && 0 <= q < |e.logs| && p != q && Some(r) in e.logs[p] && Some(t) in e.logs[q] ==>
      r.msgID != t.msgID
    ensures Apart(e)
  {
    forall p, q, r, t | 0 <= p < |e.logs| && 0 <= q < |e.logs| && p != q && r in Survivors(e, p) && t in Survivors(e, q)
      ensures r.msgID != t.msgID
    {
      SurvivorIsNew(e, p, r);
      SurvivorIsNew(e, q, t);
    }
  }

  // ----- a setting in which order matters

  /** Two messages with one server id, for destinations of different partitions. */
  function TwoPartitions(a: Row, b: Row): Setting {
    Setting([[Some(a)], [Some(b)]], [], [0, 0])
  }

  /** The one that is consumed first is stored, the other one never. */
  lemma SharedIdsMakeOrderMatter(a: Row, b: Row) returns (xs: seq<Action>, s1: State, ys: seq<Action>, s2: State)
    requires a.msgID == b.msgID && a.dest != b.dest
    ensures var e := TwoPartitions(a, b); var s := State([], [0, 0], [Worker(0, 0, 0, Stopped)], {});
      && Initial(e, s) && Run(e.logs, s, xs, s1) && Run(e.logs, s, ys, s2)
      && Drained(e.logs, s1) && Drained(e.logs, s2)
      && a in s1.table && b !in s1.table && b in s2.table && a !in s2.table
  {
    var e, s := TwoPartitions(a, b), State([], [0, 0], [Worker(0, 0, 0, Stopped)], {});
    var route := d => if d == a.dest then 0 else 1;
    SoleSurvivor(e, 0, a);
    SoleSurvivor(e, 1, b);
    xs, s1 := FirstComeFirstServed(route, e, s, 0, 1, a, b);
    ys, s2 := FirstComeFirstServed(route, e, s, 1, 0, b, a);
  }

  lemma SoleSurvivor(e: Setting, p: nat, r: Row)
    requires SettingOk(e) && p < |e.logs| && e.table == [] && e.start[p] == 0 && e.logs[p] == [Some(r)]
    ensures r in Survivors(e, p)
  {
    assert e.logs[p][0..0] == [];
    StoredAlone(e, p, 0);
  }
}
