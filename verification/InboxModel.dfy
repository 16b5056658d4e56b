/** What each operation does to an inbox under its lock: which messages are
    queued, in the order they arrived, and which are taken. */
module InboxModel {
  import opened Sequences
  import opened Wrappers

  /** Messages by id. An open inbox has no close in force. */
  datatype Core = Core(closed: Option<string>, queue: seq<nat>, taken: set<nat>, next: nat)

  const OPEN := Core(None, [], {}, 0)

  /** The queue is in id order; no message is both queued and taken, or not yet
      admitted; and a closed inbox holds nothing. */
  predicate Ordered(c: Core) {
    && Ascending(c.queue)
    && (forall id | id in c.queue :: id < c.next && id !in c.taken)
    && (forall id | id in c.taken :: id < c.next)
    && (c.closed.Some? ==> c.queue == [] && c.taken == {})
  }

  /** Where in the queue the message that arrived as `id` belongs. */
  function Place(queue: seq<nat>, id: nat): (at: nat)
    ensures at <= |queue|
    ensures forall i | 0 <= i < at :: queue[i] < id
    ensures at < |queue| ==> id <= queue[at]
  {
    if queue == [] || id <= queue[0] then 0 else 1 + Place(queue[1..], id)
  }

  function Insert(queue: seq<nat>, id: nat): (inserted: seq<nat>) {
    var at := Place(queue, id);
    queue[..at] + [id] + queue[at..]
  }

  function Without(queue: seq<nat>, id: nat): (rest: seq<nat>)
    ensures forall other :: other in rest <==> other in queue && other != id
  {
    if queue == [] then []
    else if queue[0] == id then Without(queue[1..], id)
    else [queue[0]] + Without(queue[1..], id)
  }

  /** Admit a message under the next id; refused where the inbox is closed. */
  function Offer(c: Core): Core {
    if c.closed.Some? then c else c.(queue := c.queue + [c.next], next := c.next + 1)
  }

  /** Take one queued message back: its sender withdraws it, or its gate let it
      be known withdrawn. */
  function Withdraw(c: Core, id: nat): Core {
    c.(queue := Without(c.queue, id))
  }

  /** Hand a queued message to the receiver. */
  function Take(c: Core, id: nat): Core {
    c.(queue := Without(c.queue, id), taken := c.taken + {id})
  }

  /** Hand a taken message back: gone where its sender's deadline has passed, and
      otherwise queued where it arrived. */
  function Release(c: Core, id: nat, expired: bool): Core {
    if id !in c.taken then c
    else c.(taken := c.taken - {id}, queue := if expired then c.queue else Insert(c.queue, id))
  }

  /** A taken message is answered, or let go. */
  function Settle(c: Core, id: nat): Core {
    c.(taken := c.taken - {id})
  }

  /** The first close empties the inbox; a later one changes nothing. */
  function Close(c: Core, reason: string): Core {
    if c.closed.Some? then c else c.(closed := Some(reason), queue := [], taken := {})
  }

  lemma {:induction false} WithoutAscending(queue: seq<nat>, id: nat)
    requires Ascending(queue)
    ensures Ascending(Without(queue, id))
  {
    if queue != [] {
      WithoutAscending(queue[1..], id);
      var rest := Without(queue[1..], id);
      forall i | 0 <= i < |rest|
        ensures queue[0] < rest[i]
      {
        assert rest[i] in rest;
      }
    }
  }

  lemma {:induction false} WithoutAbsent(queue: seq<nat>, id: nat)
    requires id !in queue
    ensures Without(queue, id) == queue
  {
    if queue != [] {
      WithoutAbsent(queue[1..], id);
    }
  }

  /** Inserting keeps the order, and adds the one id. */
  lemma InsertAscending(queue: seq<nat>, id: nat)
    requires Ascending(queue) && id !in queue
    ensures Ascending(Insert(queue, id))
    ensures forall other :: other in Insert(queue, id) <==> other in queue || other == id
  {
    var at := Place(queue, id);
    InsertedIds(queue, id);
    assert at < |queue| ==> queue[at] in queue;
    hide Place;
    assert forall i | 0 <= i < at :: queue[i] < id;
    assert forall i | at <= i < |queue| :: id < queue[i];
    AscendingParts(queue, at);
    AscendingPush(queue[..at], id);
    AscendingConcat(queue[..at] + [id], queue[at..]);
  }

  lemma InsertedIds(queue: seq<nat>, id: nat)
    ensures forall other :: other in Insert(queue, id) <==> other in queue || other == id
  {
    var at := Place(queue, id);
    hide Place;
    assert queue == queue[..at] + queue[at..];
  }

  lemma AscendingParts(queue: seq<nat>, at: nat)
    requires Ascending(queue) && at <= |queue|
    ensures Ascending(queue[..at]) && Ascending(queue[at..])
  {
  }

  /** Every operation keeps the queue in arrival order. */
  lemma OperationsKeepOrder(c: Core, id: nat, expired: bool, reason: string)
    requires Ordered(c)
    ensures Ordered(Offer(c)) && Ordered(Withdraw(c, id)) && Ordered(Settle(c, id)) && Ordered(Close(c, reason))
    ensures id in c.queue ==> Ordered(Take(c, id))
    ensures Ordered(Release(c, id, expired))
  {
    WithoutAscending(c.queue, id);
    AscendingPush(c.queue, c.next);
    if id in c.taken {
      InsertAscending(c.queue, id);
    }
  }

  /** A message handed back regains its place: taking it and releasing it before
      its deadline leaves the inbox as it was. */
  lemma ReleaseUndoesTake(c: Core, id: nat)
    requires Ordered(c) && id in c.queue
    ensures Release(Take(c, id), id, false) == c
  {
    WithoutAscending(c.queue, id);
    InsertAscending(Without(c.queue, id), id);
    SameElements(Insert(Without(c.queue, id), id), c.queue);
  }

  /** An ascending sequence is decided by what is in it. */
  lemma {:induction false} SameElements(a: seq<nat>, b: seq<nat>)
    requires Ascending(a) && Ascending(b) && forall x :: x in a <==> x in b
    ensures a == b
  {
    if a != [] || b != [] {
      assert a != [] ==> a[0] in b;
      assert b != [] ==> b[0] in a;
      assert a[0] == b[0];
      forall x
        ensures x in a[1..] <==> x in b[1..]
      {
        assert x in a <==> x == a[0] || x in a[1..];
        assert x in b <==> x == b[0] || x in b[1..];
      }
      SameElements(a[1..], b[1..]);
    }
  }

  /** Taking one id out of an ascending queue takes out its one place. */
  lemma {:induction false} WithoutAt(queue: seq<nat>, at: nat)
    requires Ascending(queue) && at < |queue|
    ensures Without(queue, queue[at]) == queue[..at] + queue[at + 1..]
  {
    if at == 0 {
      WithoutAbsent(queue[1..], queue[0]);
    } else {
      WithoutAt(queue[1..], at - 1);
      assert queue[1..][..at - 1] == queue[1..at] && queue[1..][at..] == queue[at + 1..];
      assert queue[..at] == [queue[0]] + queue[1..at];
    }
  }

  lemma AscendingConcat(a: seq<nat>, b: seq<nat>)
    requires Ascending(a) && Ascending(b)
    requires forall x, y | x in a && y in b :: x < y
    ensures Ascending(a + b)
  {
    assert forall i | 0 <= i < |a| :: a[i] in a;
    assert forall i | 0 <= i < |b| :: b[i] in b;
  }

  /** Dropping messages from the queue, and handing at most one of them over,
      keeps an inbox ordered. */
  lemma ThinnedOrdered(c: Core, left: seq<nat>, handed: set<nat>)
    requires Ordered(c) && Ascending(left)
    requires forall id | id in left :: id in c.queue && id !in handed
    requires forall id | id in handed :: id in c.queue
    ensures Ordered(c.(queue := left, taken := c.taken + handed))
  {
    if left != [] {
      assert left[0] in left;
    }
  }
}
