/** The persisting consumer's loop over one claim, retrying each message until it is stored or the session ends. */
module PersistConsumer {
  import opened Option
  import opened MessageTable

  type Bytes = seq<bv8>

  datatype KafkaMessage = KafkaMessage(topic: string, value: Bytes)

  /** How one attempt to insert ends; a timeout may leave the row in the table or not, at least so far. */
  datatype Outcome = Stored | FailedUnwritten | FailedWritten

  datatype Tables = Tables(messages: seq<Row>, groupMessages: seq<Row>)

  const CHAT_TOPIC := "chat_messages"
  const GROUP_TOPIC := "group_chat_messages"

  class Database {
    var messages: seq<Row>
    var groupMessages: seq<Row>

    ghost function Contents(): Tables
      reads this
    {
      Tables(messages, groupMessages)
    }

    method Create(group: bool, r: Row, outcome: Outcome) returns (ok: bool)
      modifies this
      ensures ok <==> outcome == Stored
      ensures Contents() == if outcome == FailedUnwritten then old(Contents()) else Write(old(Contents()), group, r)
    {
      if outcome != FailedUnwritten {
        if group {
          groupMessages := Insert(groupMessages, r);
        } else {
          messages := Insert(messages, r);
        }
      }
      ok := outcome == Stored;
    }
  }

  function Write(t: Tables, group: bool, r: Row): Tables {
    if group then t.(groupMessages := Insert(t.groupMessages, r)) else t.(messages := Insert(t.messages, r))
  }

  class PersistConsumer {
    const db: Database?
    const decodeChat: Bytes -> Option<Row>
    const decodeGroup: Bytes -> Option<Row>

    constructor (db: Database?, decodeChat: Bytes -> Option<Row>, decodeGroup: Bytes -> Option<Row>)
      ensures this.db == db && this.decodeChat == decodeChat && this.decodeGroup == decodeGroup
    {
      this.db := db;
      this.decodeChat := decodeChat;
      this.decodeGroup := decodeGroup;
    }

    /** What a message means for the tables: nothing, if its topic is not handled or it cannot be decoded. */
    function Handle(t: Tables, m: KafkaMessage): Tables {
      if m.topic == CHAT_TOPIC then t.(messages := AbsorbOne(t.messages, decodeChat(m.value)))
      else if m.topic == GROUP_TOPIC then t.(groupMessages := AbsorbOne(t.groupMessages, decodeGroup(m.value)))
      else t
    }

    /** The message needs no insert: its topic is not handled, or it cannot be decoded. */
    predicate NothingToStore(m: KafkaMessage) {
      if m.topic == CHAT_TOPIC then decodeChat(m.value).None?
      else if m.topic == GROUP_TOPIC then decodeGroup(m.value).None?
      else true
    }

    function HandleAll(t: Tables, ms: seq<KafkaMessage>): Tables
      decreases |ms|
    {
      if ms == [] then t else HandleAll(Handle(t, ms[0]), ms[1..])
    }

    /**
     The tables and the number of marked messages after a session whose attempts end as
     `outcomes` says, one after the other; when they are used up the session is over.
     */
    function Consumed(t: Tables, claim: seq<KafkaMessage>, outcomes: seq<Outcome>): (Tables, nat)
      decreases |outcomes|
    {
      if claim == [] || outcomes == [] then (t, 0)
      else
        var m, outcome := claim[0], outcomes[0];
        if NothingToStore(m) || (db != null && outcome == Stored) then
          var (t', marked) := Consumed(Handle(t, m), claim[1..], outcomes[1..]);
          (t', marked + 1)
        else
          Consumed(if db != null && outcome == FailedWritten then Handle(t, m) else t, claim, outcomes[1..])
    }

    /** A handled topic's message goes to its own table; nothing else does anything. */
    lemma HandleMeans(t: Tables, m: KafkaMessage)
      ensures m.topic == "chat_messages" ==>
        && Handle(t, m).groupMessages == t.groupMessages
        && Handle(t, m).messages == if decodeChat(m.value).Some? then Insert(t.messages, decodeChat(m.value).value) else t.messages
      ensures m.topic == "group_chat_messages" ==>
        && Handle(t, m).messages == t.messages
        && Handle(t, m).groupMessages == if decodeGroup(m.value).Some? then Insert(t.groupMessages, decodeGroup(m.value).value) else t.groupMessages
      ensures m.topic != "chat_messages" && m.topic != "group_chat_messages" ==> Handle(t, m) == t
    {
      TopicsDiffer();
    }

    lemma TopicsDiffer()
      ensures CHAT_TOPIC != GROUP_TOPIC
    {
      assert |CHAT_TOPIC| == 13 && |GROUP_TOPIC| == 19;
    }

    /** An attempt settles a message that needs no insert, and one whose insert is reported to have succeeded. */
    predicate Settles(m: KafkaMessage, outcome: Outcome) {
      NothingToStore(m) || (db != null && outcome == Stored)
    }

    /**
     A session by its attempts, one after the other: each is for the first message not marked yet, writes it unless the
     insert did not get through, and marks it exactly if it is settled; otherwise the next attempt is for the same message.
     */
    lemma {:induction false} OneMoreAttempt(t: Tables, claim: seq<KafkaMessage>, outcomes: seq<Outcome>, outcome: Outcome)
      ensures Consumed(t, claim, []) == (t, 0)
      ensures var (t', marked) := Consumed(t, claim, outcomes);
        && marked <= |claim|
        && Consumed(t, claim, outcomes + [outcome]) ==
          if marked == |claim| then (t', marked)
          else
            (if NothingToStore(claim[marked]) || (db != null && outcome != FailedUnwritten) then Handle(t', claim[marked]) else t',
             if Settles(claim[marked], outcome) then marked + 1 else marked)
      decreases |outcomes|
    {
      var more := outcomes + [outcome];
      if claim != [] && outcomes != [] {
        assert more[1..] == outcomes[1..] + [outcome];
        if Settles(claim[0], outcomes[0]) {
          OneMoreAttempt(Handle(t, claim[0]), claim[1..], outcomes[1..], outcome);
          var k := Consumed(Handle(t, claim[0]), claim[1..], outcomes[1..]).1;
          assert k < |claim| - 1 ==> claim[1..][k] == claim[k + 1];
        } else {
          var t1 := if db != null && outcomes[0] == FailedWritten then Handle(t, claim[0]) else t;
          OneMoreAttempt(t1, claim, outcomes[1..], outcome);
        }
      } else if claim != [] {
        assert more == [outcome] && more[1..] == [];
        if NothingToStore(claim[0]) {
          NothingStored(t, claim[0]);
        }
      }
    }

    lemma NothingStored(t: Tables, m: KafkaMessage)
      requires NothingToStore(m)
      ensures Handle(t, m) == t
    {
    }

    /** Every success is for a message that is then marked, until all are. */
    lemma {:induction false} SuccessesAreMarked(t: Tables, claim: seq<KafkaMessage>, outcomes: seq<Outcome>)
      requires db != null
      ensures var marked := Consumed(t, claim, outcomes).1; marked == |claim| || marked >= multiset(outcomes)[Stored]
      decreases |outcomes|
    {
      if claim != [] && outcomes != [] {
        assert outcomes == [outcomes[0]] + outcomes[1..];
        if Settles(claim[0], outcomes[0]) {
          SuccessesAreMarked(Handle(t, claim[0]), claim[1..], outcomes[1..]);
        } else {
          SuccessesAreMarked(if outcomes[0] == FailedWritten then Handle(t, claim[0]) else t, claim, outcomes[1..]);
        }
      }
    }

    /** When each attempt settles its message, and there are enough, the whole claim is handled and marked. */
    lemma {:induction false} AllSettled(t: Tables, claim: seq<KafkaMessage>, outcomes: seq<Outcome>)
      requires |claim| <= |outcomes|
      requires forall m, o :: m in claim && o in outcomes ==> Settles(m, o)
      ensures Consumed(t, claim, outcomes) == (HandleAll(t, claim), |claim|)
      decreases |outcomes|
    {
      if claim != [] {
        assert claim[0] in claim && outcomes[0] in outcomes;
        AllSettled(Handle(t, claim[0]), claim[1..], outcomes[1..]);
      }
    }

    lemma HandleTwice(t: Tables, m: KafkaMessage)
      ensures Handle(Handle(t, m), m) == Handle(t, m)
    {
      if m.topic == CHAT_TOPIC && decodeChat(m.value).Some? {
        InsertTakesIn(t.messages, decodeChat(m.value).value);
      } else if m.topic == GROUP_TOPIC && decodeGroup(m.value).Some? {
        InsertTakesIn(t.groupMessages, decodeGroup(m.value).value);
      }
    }

    /**
     However the attempts end, a session leaves one pass over a prefix of its claim: what it
     marked, and at most the next message besides.
     */
    lemma {:induction false} SessionIsOnePass(t: Tables, claim: seq<KafkaMessage>, outcomes: seq<Outcome>) returns (handled: nat)
      requires db != null
      ensures var (t', marked) := Consumed(t, claim, outcomes);
        && marked <= handled <= marked + 1 && handled <= |claim|
        && t' == HandleAll(t, claim[..handled])
      decreases |outcomes|
    {
      if claim == [] || outcomes == [] {
        handled := 0;
      } else {
        var m, outcome := claim[0], outcomes[0];
        if NothingToStore(m) || outcome == Stored {
          var rest := SessionIsOnePass(Handle(t, m), claim[1..], outcomes[1..]);
          handled := rest + 1;
          assert claim[..handled][1..] == claim[1..][..rest];
        } else if outcome == FailedWritten {
          handled := SessionIsOnePass(Handle(t, m), claim, outcomes[1..]);
          HandleTwice(t, m);
          if handled == 0 {
            handled := 1;
            assert claim[..1][1..] == [];
          }
          assert handled <= Consumed(t, claim, outcomes).1 + 1;
        } else {
          handled := SessionIsOnePass(t, claim, outcomes[1..]);
        }
      }
    }

    /** What a claim means for one of the tables, message by message. */
    function LogOf(claim: seq<KafkaMessage>, topic: string): (log: Log)
      ensures |log| == |claim|
    {
      seq(|claim|, i requires 0 <= i < |claim| => RowOf(claim[i], topic))
    }

    function RowOf(m: KafkaMessage, topic: string): Option<Row> {
      if m.topic != topic then None
      else if topic == CHAT_TOPIC then decodeChat(m.value)
      else decodeGroup(m.value)
    }

    /** Handling messages one by one is one insert-or-ignore pass over each table's log. */
    lemma {:induction false} HandleAllIsOnePass(t: Tables, claim: seq<KafkaMessage>)
      ensures HandleAll(t, claim).messages == Absorb(t.messages, LogOf(claim, CHAT_TOPIC))
      ensures HandleAll(t, claim).groupMessages == Absorb(t.groupMessages, LogOf(claim, GROUP_TOPIC))
      decreases |claim|
    {
      if claim != [] {
        HandleAllIsOnePass(Handle(t, claim[0]), claim[1..]);
        AbsorbFirst(t.messages, RowOf(claim[0], CHAT_TOPIC), LogOf(claim[1..], CHAT_TOPIC));
        AbsorbFirst(t.groupMessages, RowOf(claim[0], GROUP_TOPIC), LogOf(claim[1..], GROUP_TOPIC));
        assert LogOf(claim, CHAT_TOPIC) == [RowOf(claim[0], CHAT_TOPIC)] + LogOf(claim[1..], CHAT_TOPIC);
        assert LogOf(claim, GROUP_TOPIC) == [RowOf(claim[0], GROUP_TOPIC)] + LogOf(claim[1..], GROUP_TOPIC);
      }
    }

    /** Without a database only messages that need none are marked. */
    lemma {:induction false} NoDatabaseNoMark(t: Tables, claim: seq<KafkaMessage>, outcomes: seq<Outcome>)
      requires db == null
      ensures var marked := Consumed(t, claim, outcomes).1;
        marked <= |claim| && forall i :: 0 <= i < marked ==> NothingToStore(claim[i])
      decreases |outcomes|
    {
      if claim != [] && outcomes != [] {
        if NothingToStore(claim[0]) {
          NoDatabaseNoMark(Handle(t, claim[0]), claim[1..], outcomes[1..]);
        } else {
          NoDatabaseNoMark(t, claim, outcomes[1..]);
        }
      }
    }

    /** One attempt at one message. */
    method Process(m: KafkaMessage, outcome: Outcome) returns (badMessage: bool, ok: bool)
      modifies if db == null then {} else {db}
      ensures badMessage || ok <==> NothingToStore(m) || (db != null && outcome == Stored)
      ensures badMessage || ok <==>
        if m.topic == "chat_messages" then decodeChat(m.value).None? || (db != null && outcome == Stored)
        else if m.topic == "group_chat_messages" then decodeGroup(m.value).None? || (db != null && outcome == Stored)
        else true
      ensures db != null && (NothingToStore(m) || outcome == FailedUnwritten) ==> db.Contents() == old(db.Contents())
      ensures db != null && outcome != FailedUnwritten ==> db.Contents() == Handle(old(db.Contents()), m)
    {
      badMessage, ok := false, true;
      if m.topic == CHAT_TOPIC {
        var row := decodeChat(m.value);
        if row.None? {
          badMessage := true;
        } else if db == null {
          ok := false;
        } else {
          ok := db.Create(false, row.value, outcome);
        }
      } else if m.topic == GROUP_TOPIC {
        var row := decodeGroup(m.value);
        if row.None? {
          badMessage := true;
        } else if db == null {
          ok := false;
        } else {
          ok := db.Create(true, row.value, outcome);
        }
      }
    }

    lemma MarksMean(t: Tables, claim: seq<KafkaMessage>, outcomes: seq<Outcome>)
      ensures var (t', marked) := Consumed(t, claim, outcomes);
        && marked <= |claim|
        && (db != null ==> marked == |claim| || marked >= multiset(outcomes)[Stored])
        && (|claim| <= |outcomes| && (forall m, o :: m in claim && o in outcomes ==> Settles(m, o)) ==>
              marked == |claim| && t' == HandleAll(t, claim))
    {
      OneMoreAttempt(t, claim, outcomes, Stored);
      if db != null {
        SuccessesAreMarked(t, claim, outcomes);
      }
      if |claim| <= |outcomes| && forall m, o :: m in claim && o in outcomes ==> Settles(m, o) {
        AllSettled(t, claim, outcomes);
      }
    }

    /** Consumes a claim; messages are marked in order, so `marked` is a count. */
    method ConsumeClaim(claim: seq<KafkaMessage>, outcomes: seq<Outcome>) returns (marked: nat)
      modifies if db == null then {} else {db}
      ensures db != null ==> (db.Contents(), marked) == Consumed(old(db.Contents()), claim, outcomes)
      ensures db == null ==> marked == Consumed(Tables([], []), claim, outcomes).1
      ensures marked <= |claim|
      ensures db != null ==> marked == |claim| || marked >= multiset(outcomes)[Stored]
      ensures |claim| <= |outcomes| && (forall m, o :: m in claim && o in outcomes ==> Settles(m, o)) ==>
        marked == |claim| && (db != null ==> db.Contents() == HandleAll(old(db.Contents()), claim))
    {
      MarksMean(if db == null then Tables([], []) else db.Contents(), claim, outcomes);
      marked := 0;
      var used := 0;
      ghost var t := if db == null then Tables([], []) else db.Contents();
      ghost var (all, total) := Consumed(t, claim, outcomes);
      while marked < |claim|
        invariant marked <= |claim| && used <= |outcomes|
        invariant db != null ==> t == db.Contents()
        invariant var (t', more) := Consumed(t, claim[marked..], outcomes[used..]); marked + more == total && (db != null ==> t' == all)
      {
        var msg := claim[marked];
        while true
          invariant used <= |outcomes|
          invariant db != null ==> t == db.Contents()
          invariant var (t', more) := Consumed(t, claim[marked..], outcomes[used..]); marked + more == total && (db != null ==> t' == all)
          decreases |outcomes| - used
        {
          if used == |outcomes| {
            return;
          }
          var badMessage, ok := Process(msg, outcomes[used]);
          assert outcomes[used..][1..] == outcomes[used + 1..] && claim[marked..][1..] == claim[marked + 1..];
          used := used + 1;
          t := if db == null then t else db.Contents();
          if badMessage || ok {
            break;
          }
        }
        marked := marked + 1;
      }
    }
  }
}
