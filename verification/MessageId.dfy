/** Message ids: the millisecond in the high bits, a 20-bit sequence from a process-wide counter in the low bits. */
module MessageId {
  const SEQ_SPAN: nat := 0x10_0000            // 2^20
  const UINT64_SPAN: nat := 0x1_0000_0000_0000_0000
  const MILLI_SPAN: nat := 0x800_0000_0000    // 2^43: the milliseconds that survive the shift in an int64

  type Uint64 = x: int | 0 <= x < UINT64_SPAN

  /** The low 64 bits of `x`, read as a signed number. */
  function Signed64(x: int): int {
    var low := x % UINT64_SPAN;
    if low < UINT64_SPAN / 2 then low else low - UINT64_SPAN
  }

  /** Shifting leaves the low 20 bits zero, so that putting the sequence there is adding it. */
  function IdOf(nowMilli: int, counter: Uint64): int {
    Signed64(nowMilli * SEQ_SPAN) + counter % SEQ_SPAN
  }

  function Bump(counter: Uint64, times: nat): Uint64 {
    (counter + times) % UINT64_SPAN
  }

  class IdSource {
    var localMsgSeq: Uint64

    constructor ()
      ensures localMsgSeq == 0
    {
      localMsgSeq := 0;
    }

    method NextMessageID(nowMilli: int) returns (id: int)
      modifies this
      ensures localMsgSeq == (old(localMsgSeq) + 1) % UINT64_SPAN
      ensures id == IdOf(nowMilli, localMsgSeq)
      ensures 0 <= nowMilli < 0x800_0000_0000 ==> id == nowMilli * 0x10_0000 + localMsgSeq % 0x10_0000
    {
      localMsgSeq := if localMsgSeq + 1 == UINT64_SPAN then 0 else localMsgSeq + 1;
      var seq_ := localMsgSeq % SEQ_SPAN;
      id := Signed64(nowMilli * SEQ_SPAN) + seq_;
    }
  }

  /** An id gives back its millisecond and sequence. */
  lemma Decode(nowMilli: nat, counter: Uint64)
    requires nowMilli < MILLI_SPAN
    ensures 0 <= IdOf(nowMilli, counter) < UINT64_SPAN / 2
    ensures IdOf(nowMilli, counter) / SEQ_SPAN == nowMilli && IdOf(nowMilli, counter) % SEQ_SPAN == counter % SEQ_SPAN
  {
    assert nowMilli * SEQ_SPAN < UINT64_SPAN / 2;
  }

  /** Two ids are the same only for the same millisecond and counters that agree in 20 bits; later milliseconds are larger. */
  lemma CollideIff(now1: nat, c1: Uint64, now2: nat, c2: Uint64)
    requires now1 < MILLI_SPAN && now2 < MILLI_SPAN
    ensures IdOf(now1, c1) == IdOf(now2, c2) <==> now1 == now2 && c1 % SEQ_SPAN == c2 % SEQ_SPAN
    ensures now1 < now2 ==> IdOf(now1, c1) < IdOf(now2, c2)
  {
    Decode(now1, c1);
    Decode(now2, c2);
  }

  /** Past 2^43 the shift loses bits, and milliseconds 2^44 apart share all their ids. */
  lemma ShiftWrapsAround(nowMilli: int, counter: Uint64)
    ensures IdOf(nowMilli + 2 * MILLI_SPAN, counter) == IdOf(nowMilli, counter)
  {
    assert (nowMilli + 2 * MILLI_SPAN) * SEQ_SPAN == nowMilli * SEQ_SPAN + UINT64_SPAN;
    OneTurn(nowMilli * SEQ_SPAN);
  }

  lemma OneTurn(x: int)
    ensures Signed64(x + UINT64_SPAN) == Signed64(x)
  {
  }

  /** The i-th id of a run of draws that finds the counter at `start`; calls are ordered by their draw. */
  function Drawn(start: Uint64, nows: seq<nat>, i: nat): int
    requires i < |nows|
  {
    IdOf(nows[i], Bump(start, i + 1))
  }

  ghost predicate CollisionFree(start: Uint64, nows: seq<nat>) {
    forall i, j :: 0 <= i < j < |nows| ==> Drawn(start, nows, i) != Drawn(start, nows, j)
  }

  ghost predicate InRange(nows: seq<nat>) {
    forall i :: 0 <= i < |nows| ==> nows[i] < MILLI_SPAN
  }

  /** These are the ids that calls of `NextMessageID` give, one for each reading. */
  method DrawAll(source: IdSource, nows: seq<nat>) returns (ids: seq<int>)
    modifies source
    ensures |ids| == |nows| && forall i :: 0 <= i < |nows| ==> ids[i] == Drawn(old(source.localMsgSeq), nows, i)
    ensures source.localMsgSeq == Bump(old(source.localMsgSeq), |nows|)
  {
    ids := [];
    ghost var start := source.localMsgSeq;
    for i := 0 to |nows|
      invariant |ids| == i && source.localMsgSeq == Bump(start, i)
      invariant forall k :: 0 <= k < i ==> ids[k] == Drawn(start, nows, k)
    {
      BumpOnce(start, i);
      var id := source.NextMessageID(nows[i]);
      ids := ids + [id];
    }
  }

  lemma BumpOnce(start: Uint64, times: nat)
    ensures (Bump(start, times) + 1) % UINT64_SPAN == Bump(start, times + 1)
  {
  }

  /** Whether two draws collide does not depend on where the counter stood, nor on its wrapping round. */
  lemma DrawsCollideIff(start: Uint64, nows: seq<nat>, i: nat, j: nat)
    requires i < j < |nows| && InRange(nows)
    ensures Drawn(start, nows, i) == Drawn(start, nows, j) <==> nows[i] == nows[j] && (j - i) % SEQ_SPAN == 0
  {
    CollideIff(nows[i], Bump(start, i + 1), nows[j], Bump(start, j + 1));
    LowBits(start + i + 1);
    LowBits(start + j + 1);
    SameLowBits(start + i + 1, start + j + 1);
  }

  lemma SameLowBits(x: nat, y: nat)
    requires x <= y
    ensures x % SEQ_SPAN == y % SEQ_SPAN <==> (y - x) % SEQ_SPAN == 0
  {
    var d, r := y / SEQ_SPAN - x / SEQ_SPAN, y % SEQ_SPAN - x % SEQ_SPAN;
    assert y - x == d * SEQ_SPAN + r;
  }

  lemma LowBits(x: nat)
    ensures x % UINT64_SPAN % SEQ_SPAN == x % SEQ_SPAN
  {
    var q, r := x / UINT64_SPAN, x % UINT64_SPAN;
    assert x == SEQ_SPAN * (q * (UINT64_SPAN / SEQ_SPAN)) + r;
    assert (r + SEQ_SPAN * (q * (UINT64_SPAN / SEQ_SPAN))) % SEQ_SPAN == r % SEQ_SPAN;
  }

  /** Ids are unique exactly if no two draws of one millisecond lie a multiple of 2^20 draws apart. */
  lemma UniqueIff(start: Uint64, nows: seq<nat>)
    requires InRange(nows)
    ensures CollisionFree(start, nows) <==>
      !exists i, j :: 0 <= i < j < |nows| && (j - i) % SEQ_SPAN == 0 && nows[i] == nows[j]
  {
    forall i, j | 0 <= i < j < |nows|
      ensures Drawn(start, nows, i) == Drawn(start, nows, j) <==> (j - i) % SEQ_SPAN == 0 && nows[i] == nows[j]
    {
      DrawsCollideIff(start, nows, i, j);
    }
  }

  /** The draws of any one millisecond lie within 2^20 draws, those of other milliseconds between them included. */
  ghost predicate CloseTogether(nows: seq<nat>) {
    forall i, j :: 0 <= i < j < |nows| && nows[i] == nows[j] ==> j - i < SEQ_SPAN
  }

  /** Then ids are unique, in whatever order the clock readings come. */
  lemma UniqueIfCloseTogether(start: Uint64, nows: seq<nat>)
    requires InRange(nows) && CloseTogether(nows)
    ensures CollisionFree(start, nows)
  {
    UniqueIff(start, nows);
    assert forall d :: 0 < d < SEQ_SPAN ==> d % SEQ_SPAN == d;
  }

  /** When draws come in clock order, that is also necessary: ids are unique exactly if no millisecond sees more than 2^20 draws. */
  lemma UniqueInClockOrderIff(start: Uint64, nows: seq<nat>)
    requires InRange(nows) && forall i, j :: 0 <= i < j < |nows| ==> nows[i] <= nows[j]
    ensures CollisionFree(start, nows) <==> CloseTogether(nows)
  {
    if CloseTogether(nows) {
      UniqueIfCloseTogether(start, nows);
    } else {
      var i, j :| 0 <= i < j < |nows| && nows[i] == nows[j] && SEQ_SPAN <= j - i;
      assert nows[i] <= nows[i + SEQ_SPAN] <= nows[j];
      DrawsCollideIff(start, nows, i, i + SEQ_SPAN);
    }
  }

  /**
   A caller reads the clock before it draws, so one that is slow in between draws late for its millisecond.
   Then an id is issued twice although no draw has the millisecond of the one 2^20 draws before it.
   */
  lemma LateDrawCollides(start: Uint64, nowMilli: nat) returns (nows: seq<nat>)
    requires nowMilli + 1 < MILLI_SPAN
    ensures InRange(nows) && |nows| == 2 * SEQ_SPAN + 1
    ensures forall i :: 0 <= i < |nows| - SEQ_SPAN ==> nows[i] != nows[i + SEQ_SPAN]
    ensures Drawn(start, nows, 0) == Drawn(start, nows, 2 * SEQ_SPAN)
  {
    nows := seq(2 * SEQ_SPAN + 1, i => if SEQ_SPAN <= i < 2 * SEQ_SPAN then nowMilli + 1 else nowMilli);
    DrawsCollideIff(start, nows, 0, 2 * SEQ_SPAN);
  }
}
