/**
 The persisted messages. A table has two unique keys, the server's message id and the
 client's (sender, destination, client message id); an insert that clashes with either does nothing.
 The destination is the recipient for single chat and the group for group chat.
 */
module MessageTable {
  import opened Option

  datatype Row = Row(
    msgID: int, from: int, dest: int, clientMsgID: int, content: seq<bv8>, msgType: int, createTime: int)

  datatype Key = Key(from: int, dest: int, clientMsgID: int)

  function KeyOf(r: Row): Key {
    Key(r.from, r.dest, r.clientMsgID)
  }

  predicate Clash(a: Row, b: Row) {
    a.msgID == b.msgID || KeyOf(a) == KeyOf(b)
  }

  predicate Clashes(table: seq<Row>, r: Row) {
    exists i :: 0 <= i < |table| && Clash(table[i], r)
  }

  /** Insert, doing nothing on a clash with either unique key. */
  function Insert(table: seq<Row>, r: Row): seq<Row> {
    if Clashes(table, r) then table else table + [r]
  }

  /** The unique keys column by column: the server's id, or all three parts of the client's key. */
  predicate SameIds(a: Row, b: Row) {
    a.msgID == b.msgID || (a.from == b.from && a.dest == b.dest && a.clientMsgID == b.clientMsgID)
  }

  lemma ClashMeans(a: Row, b: Row)
    ensures Clash(a, b) <==> SameIds(a, b)
  {
  }

  /** A row goes to the end of the table, as it is, exactly if the table has none with its server id or its client key. */
  lemma InsertMeans(table: seq<Row>, r: Row)
    ensures if forall q :: q in table ==> !SameIds(q, r) then Insert(table, r) == table + [r] else Insert(table, r) == table
  {
    if !forall q :: q in table ==> !SameIds(q, r) {
      var q :| q in table && SameIds(q, r);
      var i :| 0 <= i < |table| && table[i] == q;
      assert Clash(table[i], r);
    }
    if i :| 0 <= i < |table| && Clash(table[i], r) {
      assert table[i] in table && SameIds(table[i], r);
    }
  }

  /** A log holds decoded messages; `None` is one that cannot be decoded. */
  type Log = seq<Option<Row>>

  function AbsorbOne(table: seq<Row>, m: Option<Row>): seq<Row> {
    if m.None? then table else Insert(table, m.value)
  }

  /** One in-order pass over the log. */
  function Absorb(table: seq<Row>, log: Log): seq<Row> {
    if log == [] then table else AbsorbOne(Absorb(table, log[..|log| - 1]), log[|log| - 1])
  }

  lemma AbsorbSnoc(table: seq<Row>, log: Log, m: Option<Row>)
    ensures Absorb(table, log + [m]) == AbsorbOne(Absorb(table, log), m)
  {
    assert (log + [m])[..|log|] == log;
  }

  lemma {:induction false} AbsorbFirst(table: seq<Row>, m: Option<Row>, log: Log)
    ensures Absorb(table, [m] + log) == Absorb(AbsorbOne(table, m), log)
  {
    var all := [m] + log;
    var n := |log|;
    assert all[..n] == if n == 0 then [] else [m] + log[..n - 1];
    if n > 0 {
      AbsorbFirst(table, m, log[..n - 1]);
    }
  }

  /** What the table has taken in, it never takes in again. */
  predicate TakenIn(table: seq<Row>, m: Option<Row>) {
    m.Some? ==> Clashes(table, m.value)
  }

  lemma InsertTakesIn(table: seq<Row>, r: Row)
    ensures Clashes(Insert(table, r), r) && table <= Insert(table, r)
    ensures Insert(Insert(table, r), r) == Insert(table, r)
    ensures forall q :: Clashes(table, q) ==> Clashes(Insert(table, r), q)
  {
    if !Clashes(table, r) {
      assert Clash((table + [r])[|table|], r);
    }
    forall q | Clashes(table, q) ensures Clashes(Insert(table, r), q) {
      var i :| 0 <= i < |table| && Clash(table[i], q);
      assert Clash(Insert(table, r)[i], q);
    }
  }

  /** Every message of the log is in the table afterwards, or clashes with one that is. */
  lemma {:induction false} AbsorbTakesIn(table: seq<Row>, log: Log, i: nat)
    requires i < |log|
    ensures TakenIn(Absorb(table, log), log[i])
  {
    var n := |log| - 1;
    if log[n].Some? {
      InsertTakesIn(Absorb(table, log[..n]), log[n].value);
    }
    if i < n {
      AbsorbTakesIn(table, log[..n], i);
    }
  }

  lemma {:induction false} AbsorbGrows(table: seq<Row>, log: Log, k: nat)
    requires k <= |log|
    ensures Absorb(table, log[..k]) <= Absorb(table, log)
  {
    var n := |log| - 1;
    if k == |log| {
      assert log[..k] == log;
    } else {
      AbsorbGrows(table, log[..n], k);
      assert log[..n][..k] == log[..k];
    }
  }

  /** The rows that a pass adds to the table. */
  function Added(table: seq<Row>, log: Log): (rows: seq<Row>)
    ensures Absorb(table, log) == table + rows
  {
    assert log[..0] == [];
    AbsorbGrows(table, log, 0);
    Absorb(table, log)[|table|..]
  }

  /** A row that a pass adds comes from the log, and clashes with no row before it. */
  lemma {:induction false} AddedRows(table: seq<Row>, log: Log, j: nat)
    requires |table| <= j < |Absorb(table, log)|
    ensures Some(Absorb(table, log)[j]) in log
    ensures forall i :: 0 <= i < j ==> !Clash(Absorb(table, log)[i], Absorb(table, log)[j])
  {
    if log != [] {
      var n := |log| - 1;
      if j < |Absorb(table, log[..n])| {
        AddedRows(table, log[..n], j);
        assert log == log[..n] + [log[n]];
      }
    }
  }

  // ----- which message survives

  /** The table and, after it, the messages that are the first of their key. */
  function Firsts(table: seq<Row>, log: Log): seq<Row> {
    if log == [] then table
    else
      var n := |log| - 1;
      Firsts(table, log[..n]) + (if IsFirst(table, log[..n], log[n]) then [log[n].value] else [])
  }

  predicate IsFirst(table: seq<Row>, before: Log, m: Option<Row>) {
    m.Some? && KeyOf(m.value) !in Keys(table) && !HasKey(before, KeyOf(m.value))
  }

  function Keys(table: seq<Row>): set<Key> {
    set i | 0 <= i < |table| :: KeyOf(table[i])
  }

  predicate HasKey(log: Log, k: Key) {
    exists j :: 0 <= j < |log| && log[j].Some? && KeyOf(log[j].value) == k
  }

  lemma {:induction false} FirstsKeys(table: seq<Row>, log: Log)
    ensures forall k :: k in Keys(Firsts(table, log)) <==> k in Keys(table) || HasKey(log, k)
  {
    if log != [] {
      var n := |log| - 1;
      FirstsKeys(table, log[..n]);
      HasKeySnoc(log[..n], log[n]);
      assert log == log[..n] + [log[n]];
      if IsFirst(table, log[..n], log[n]) {
        KeysSnoc(Firsts(table, log[..n]), log[n].value);
      } else {
        assert Firsts(table, log) == Firsts(table, log[..n]);
      }
    }
  }

  lemma HasKeySnoc(before: Log, m: Option<Row>)
    ensures forall k :: HasKey(before + [m], k) <==> HasKey(before, k) || (m.Some? && KeyOf(m.value) == k)
  {
    forall k ensures HasKey(before + [m], k) <==> HasKey(before, k) || (m.Some? && KeyOf(m.value) == k) {
      if j :| 0 <= j < |before| && before[j].Some? && KeyOf(before[j].value) == k {
        assert (before + [m])[j] == before[j];
      }
      if m.Some? && KeyOf(m.value) == k {
        assert (before + [m])[|before|] == m;
      }
    }
  }

  lemma KeysSnoc(rows: seq<Row>, r: Row)
    ensures Keys(rows + [r]) == Keys(rows) + {KeyOf(r)}
  {
    forall k | k in Keys(rows) || k == KeyOf(r) ensures k in Keys(rows + [r]) {
      if k in Keys(rows) {
        var i :| 0 <= i < |rows| && KeyOf(rows[i]) == k;
        assert KeyOf((rows + [r])[i]) == k;
      } else {
        assert KeyOf((rows + [r])[|rows|]) == k;
      }
    }
  }

  /** Firsts come from the log, each with a key of its own. */
  lemma {:induction false} FirstsRows(table: seq<Row>, log: Log)
    ensures table <= Firsts(table, log)
    ensures forall j :: |table| <= j < |Firsts(table, log)| ==> Some(Firsts(table, log)[j]) in log
    ensures forall i, j :: 0 <= i < j < |Firsts(table, log)| && |table| <= j ==>
      KeyOf(Firsts(table, log)[i]) != KeyOf(Firsts(table, log)[j])
  {
    if log != [] {
      var n := |log| - 1;
      var front, last := log[..n], log[n];
      FirstsRows(table, front);
      FirstsKeys(table, front);
      assert log == front + [last];
      if last.Some? {
        assert forall i :: 0 <= i < |Firsts(table, front)| ==> KeyOf(Firsts(table, front)[i]) in Keys(Firsts(table, front));
      }
    }
  }

  /** The rows from `from` on have server ids of their own. */
  ghost predicate IdsDiffer(rows: seq<Row>, from: nat) {
    forall i, j :: 0 <= i < j < |rows| && from <= j ==> rows[i].msgID != rows[j].msgID
  }

  lemma ClashesFirsts(table: seq<Row>, log: Log, r: Row)
    ensures Clashes(Firsts(table, log), r) <==>
      KeyOf(r) in Keys(table) || HasKey(log, KeyOf(r)) || exists i :: 0 <= i < |Firsts(table, log)| && Firsts(table, log)[i].msgID == r.msgID
  {
    var rows := Firsts(table, log);
    FirstsKeys(table, log);
    if KeyOf(r) in Keys(rows) {
      var i :| 0 <= i < |rows| && KeyOf(rows[i]) == KeyOf(r);
      assert Clash(rows[i], r);
    }
    if i :| 0 <= i < |rows| && rows[i].msgID == r.msgID {
      assert Clash(rows[i], r);
    }
    if i :| 0 <= i < |rows| && Clash(rows[i], r) {
      assert KeyOf(rows[i]) in Keys(rows);
    }
  }

  /**
   Of the messages with one key exactly the earliest survives, if and only if these earliest
   messages have server ids of their own. Otherwise one of them is lost for good.
   */
  lemma {:induction false} EarliestSurvivesIff(table: seq<Row>, log: Log)
    ensures Absorb(table, log) == Firsts(table, log) <==> IdsDiffer(Firsts(table, log), |table|)
  {
    var rows := Firsts(table, log);
    if Absorb(table, log) == rows {
      forall i, j | 0 <= i < j < |rows| && |table| <= j ensures rows[i].msgID != rows[j].msgID {
        AddedRows(table, log, j);
        assert !Clash(rows[i], rows[j]);
      }
    }
    if IdsDiffer(rows, |table|) {
      EarliestSurvives(table, log);
    }
  }

  lemma {:induction false} EarliestSurvives(table: seq<Row>, log: Log)
    requires IdsDiffer(Firsts(table, log), |table|)
    ensures Absorb(table, log) == Firsts(table, log)
  {
    if log != [] {
      var n := |log| - 1;
      var front, last, rows := log[..n], log[n], Firsts(table, log);
      FirstsRows(table, front);
      assert Firsts(table, front) <= rows;
      EarliestSurvives(table, front);
      if last.Some? {
        ClashesFirsts(table, front, last.value);
        if rows == Firsts(table, front) + [last.value] {
          assert rows[|rows| - 1] == last.value;
          assert forall i :: 0 <= i < |rows| - 1 ==> rows[i] == Firsts(table, front)[i];
        }
      }
    }
  }

  // ----- a condition on the messages themselves

  predicate IdFollowsKey(a: Row, b: Row) {
    a.msgID == b.msgID ==> KeyOf(a) == KeyOf(b)
  }

  /** Two messages have the same server id only when they are the same client message. */
  ghost predicate IdsFollowKeys(table: seq<Row>, log: Log) {
    && (forall i, j :: 0 <= i < |log| && 0 <= j < |log| && log[i].Some? && log[j].Some? ==>
          IdFollowsKey(log[i].value, log[j].value))
    && (forall i, j :: 0 <= i < |table| && 0 <= j < |log| && log[j].Some? ==> IdFollowsKey(table[i], log[j].value))
  }

  lemma IdsFollowKeysSuffices(table: seq<Row>, log: Log)
    requires IdsFollowKeys(table, log)
    ensures IdsDiffer(Firsts(table, log), |table|)
  {
    var rows := Firsts(table, log);
    FirstsRows(table, log);
    forall i, j | 0 <= i < j < |rows| && |table| <= j ensures rows[i].msgID != rows[j].msgID {
      assert Some(rows[j]) in log && (i < |table| ==> rows[i] == table[i]) && (i >= |table| ==> Some(rows[i]) in log);
      assert IdFollowsKey(rows[i], rows[j]);
    }
  }
}
