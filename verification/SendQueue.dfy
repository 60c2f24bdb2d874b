/** A connection's buffered outgoing channel, with the non-blocking send the code uses throughout. */
module SendQueue {
  type Payload = seq<bv8>

  /** `copies` further copies of `p`, as far as there is room. */
  function Filled(q: seq<Payload>, capacity: nat, p: Payload, copies: nat): (r: seq<Payload>)
    decreases copies
    ensures |r| == if |q| >= capacity then |q| else if |q| + copies <= capacity then |q| + copies else capacity
    ensures q <= r && forall i :: |q| <= i < |r| ==> r[i] == p
  {
    if copies == 0 || |q| >= capacity then q else Filled(q + [p], capacity, p, copies - 1)
  }

  class SendQueue {
    const capacity: nat
    var items: seq<Payload>

    ghost predicate Valid()
      reads this
    {
      |items| <= capacity
    }

    constructor (capacity: nat)
      ensures Valid() && items == [] && this.capacity == capacity
    {
      this.capacity := capacity;
      items := [];
    }

    /** Sends if the buffer has room and gives up otherwise. */
    method TrySend(p: Payload) returns (ok: bool)
      requires Valid()
      modifies this
      ensures Valid()
      ensures ok <==> |old(items)| < capacity
      ensures items == if ok then old(items) + [p] else old(items)
    {
      ok := |items| < capacity;
      if ok {
        items := items + [p];
      }
    }
  }
}
