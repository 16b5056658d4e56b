/** An inbox's shared state as its senders and receiver change it in place, each
    operation under the one lock. */
module Inboxes {
  import opened InboxModel
  import opened Sequences
  import opened Wrappers

  /** What a message's gate answers a claim: its sender may have withdrawn it, or
      nothing could be decided now. */
  datatype Claimed = Taken | Withdrawn | Undecided

  /** A queued message; one that came in process has no gate. */
  datatype Queued<M> = Queued(id: nat, message: M, gated: bool)

  /** How the gates answer while the lock is held. */
  datatype Gates = Gates(claim: nat -> Claimed, lapsed: nat -> bool)

  datatype Verdict = HandsOver | Drops | Passes

  /** What a scan does with one message: a rejected one is asked only whether it
      lapsed, an accepted one is claimed. */
  function Judge<M(!new)>(q: Queued<M>, accepts: M -> bool, gates: Gates): Verdict {
    if !accepts(q.message) then
      if q.gated && gates.lapsed(q.id) then Drops else Passes
    else if !q.gated then HandsOver
    else match gates.claim(q.id)
      case Taken => HandsOver
      case Withdrawn => Drops
      case Undecided => Passes
  }

  /** The first message a scan hands over; the length where there is none. */
  function FirstHanded<M(!new)>(queue: seq<Queued<M>>, accepts: M -> bool, gates: Gates): (k: nat)
    ensures k <= |queue|
    ensures k < |queue| ==> Judge(queue[k], accepts, gates).HandsOver?
    ensures forall i | 0 <= i < k :: !Judge(queue[i], accepts, gates).HandsOver?
  {
    if queue == [] || Judge(queue[0], accepts, gates).HandsOver? then 0
    else 1 + FirstHanded(queue[1..], accepts, gates)
  }

  /** The messages a scan leaves, in their order. */
  function Surviving<M(!new)>(queue: seq<Queued<M>>, accepts: M -> bool, gates: Gates): (left: seq<Queued<M>>)
    ensures forall q :: q in left <==> q in queue && !Judge(q, accepts, gates).Drops?
  {
    if queue == [] then []
    else
      var left := Surviving(queue[..|queue| - 1], accepts, gates);
      var last := queue[|queue| - 1];
      if Judge(last, accepts, gates).Drops? then left else left + [last]
  }

  function Ids<M(!new)>(queue: seq<Queued<M>>): (ids: seq<nat>)
    ensures |ids| == |queue| && forall i | 0 <= i < |queue| :: ids[i] == queue[i].id
  {
    seq(|queue|, i requires 0 <= i < |queue| => queue[i].id)
  }

  /** What a scan makes of the queue. */
  function Scanned<M(!new)>(queue: seq<Queued<M>>, accepts: M -> bool, gates: Gates): seq<Queued<M>> {
    var k := FirstHanded(queue, accepts, gates);
    Surviving(queue[..k], accepts, gates) + (if k < |queue| then queue[k + 1..] else [])
  }

  lemma IdsConcat<M(!new)>(a: seq<Queued<M>>, b: seq<Queued<M>>)
    ensures Ids(a + b) == Ids(a) + Ids(b)
  {
  }

  lemma OrderedAscends(c: Core)
    requires Ordered(c)
    ensures Ascending(c.queue)
  {
  }

  lemma RemoveAtIds<M(!new)>(queue: seq<Queued<M>>, at: nat)
    requires Ascending(Ids(queue)) && at < |queue|
    ensures Ids(RemoveAt(queue, at)) == Without(Ids(queue), queue[at].id)
  {
    WithoutAt(Ids(queue), at);
    IdsConcat(queue[..at], queue[at + 1..]);
    assert Ids(queue[..at]) == Ids(queue)[..at] && Ids(queue[at + 1..]) == Ids(queue)[at + 1..];
  }

  /** The messages left are in arrival order, and every one was there before. */
  lemma {:induction false} SurvivingOrdered<M(!new)>(queue: seq<Queued<M>>, accepts: M -> bool, gates: Gates)
    requires Ascending(Ids(queue))
    ensures var left := Ids(Surviving(queue, accepts, gates));
            Ascending(left) && forall id | id in left :: id in Ids(queue)
  {
    if queue != [] {
      var n := |queue| - 1;
      assert Ids(queue[..n]) == Ids(queue)[..n];
      SurvivingOrdered(queue[..n], accepts, gates);
      var left := Surviving(queue[..n], accepts, gates);
      IdsConcat(left, [queue[n]]);
      assert forall id | id in Ids(queue)[..n] :: id < queue[n].id;
      AscendingConcat(Ids(left), Ids([queue[n]]));
    }
  }

  lemma IdsParts<M(!new)>(queue: seq<Queued<M>>, k: nat)
    requires k < |queue|
    ensures Ids(queue[..k]) == Ids(queue)[..k] && Ids(queue[k + 1..]) == Ids(queue)[k + 1..]
  {
  }

  lemma AscendingParts(ids: seq<nat>, k: nat)
    requires Ascending(ids) && k < |ids|
    ensures Ascending(ids[..k]) && Ascending(ids[k + 1..]) && ids[k] in ids
    ensures forall id | id in ids[..k] :: id in ids && id < ids[k]
    ensures forall id | id in ids[k + 1..] :: id in ids && ids[k] < id
  {
  }

  /** A scan leaves the queue in arrival order, with nothing new in it, and the
      message it handed over out of it. */
  lemma ScannedOrdered<M(!new)>(queue: seq<Queued<M>>, accepts: M -> bool, gates: Gates)
    requires Ascending(Ids(queue))
    ensures var left := Ids(Scanned(queue, accepts, gates));
            var k := FirstHanded(queue, accepts, gates);
            && Ascending(left)
            && (forall id | id in left :: id in Ids(queue))
            && (k < |queue| ==> queue[k].id in Ids(queue) && queue[k].id !in left)
  {
    var ids := Ids(queue);
    var k := FirstHanded(queue, accepts, gates);
    var left := Surviving(queue[..k], accepts, gates);
    hide Ids, Ascending, Judge, Surviving, FirstHanded;
    if k < |queue| {
      IdsParts(queue, k);
      AscendingParts(ids, k);
      SurvivingOrdered(queue[..k], accepts, gates);
      IdsConcat(left, queue[k + 1..]);
      AscendingConcat(Ids(left), ids[k + 1..]);
    } else {
      assert queue[..k] == queue && left + [] == left;
      SurvivingOrdered(queue, accepts, gates);
    }
  }

  lemma UngatedJudged<M(!new)>(queue: seq<Queued<M>>, accepts: M -> bool, gates: Gates)
    requires forall q | q in queue :: !q.gated
    ensures forall i | 0 <= i < |queue| :: Judge(queue[i], accepts, gates).HandsOver? <==> accepts(queue[i].message)
  {
    assert forall i | 0 <= i < |queue| :: queue[i] in queue;
  }

  /** Where no message has a gate, a scan takes exactly one message out — the
      first the predicate accepts — and leaves every other in its place. */
  lemma UngatedScanTakesOne<M(!new)>(queue: seq<Queued<M>>, accepts: M -> bool, gates: Gates)
    requires Ascending(Ids(queue)) && forall q | q in queue :: !q.gated
    ensures var k := FirstHanded(queue, accepts, gates);
            && (forall i | 0 <= i < k :: !accepts(queue[i].message))
            && (k < |queue| ==> accepts(queue[k].message))
            && Scanned(queue, accepts, gates) == (if k < |queue| then RemoveAt(queue, k) else queue)
  {
    hide Ids, Ascending, Judge, FirstHanded, Surviving;
    UngatedJudged(queue, accepts, gates);
    var k := FirstHanded(queue, accepts, gates);
    NothingDropped(queue[..k], accepts, gates);
    if k == |queue| {
      assert queue[..k] == queue && queue + [] == queue;
    }
  }

  /** So that what it does to an ungated inbox is one take. */
  lemma UngatedScanIsTake<M(!new)>(queue: seq<Queued<M>>, accepts: M -> bool, gates: Gates)
    requires Ascending(Ids(queue)) && forall q | q in queue :: !q.gated
    ensures var k := FirstHanded(queue, accepts, gates);
            k < |queue| ==> Ids(Scanned(queue, accepts, gates)) == Without(Ids(queue), queue[k].id)
  {
    hide Ids, Ascending, FirstHanded, Scanned, RemoveAt;
    UngatedScanTakesOne(queue, accepts, gates);
    if FirstHanded(queue, accepts, gates) < |queue| {
      RemoveAtIds(queue, FirstHanded(queue, accepts, gates));
    }
  }

  lemma {:induction false} NothingDropped<M(!new)>(queue: seq<Queued<M>>, accepts: M -> bool, gates: Gates)
    requires forall q | q in queue :: !q.gated
    ensures Surviving(queue, accepts, gates) == queue
  {
    if queue != [] {
      NothingDropped(queue[..|queue| - 1], accepts, gates);
    }
  }

  /** Whether a scan may hand this message over: it is accepted, and has no gate or
      its gate gives it up. */
  predicate MayHave<M(!new)>(q: Queued<M>, accepts: M -> bool, gates: Gates) {
    accepts(q.message) && (q.gated ==> gates.claim(q.id) == Taken)
  }

  /** Whether a scan that passes this message takes it off the queue: its gate says it
      was withdrawn, or — of one not accepted — that it lapsed. */
  predicate IsGone<M(!new)>(q: Queued<M>, accepts: M -> bool, gates: Gates) {
    q.gated && if accepts(q.message) then gates.claim(q.id) == Withdrawn else gates.lapsed(q.id)
  }

  lemma {:induction false} SurvivingAreNotGone<M(!new)>(queue: seq<Queued<M>>, accepts: M -> bool, gates: Gates)
    ensures Surviving(queue, accepts, gates) == Kept(queue, (q: Queued<M>) => !IsGone(q, accepts, gates))
  {
    if queue != [] {
      SurvivingAreNotGone(queue[..|queue| - 1], accepts, gates);
    }
  }

  /** What a scan delivers and leaves, by what the predicate accepts and the gates
      answer alone: the first message it may have, or none where it may have none; and
      every message in its order but that one and those gone before it. */
  ghost predicate ScansTo<M(!new)>(was: seq<Queued<M>>, accepts: M -> bool, gates: Gates, delivered: Option<Queued<M>>,
                                   left: seq<Queued<M>>) {
    var stays := (q: Queued<M>) => !IsGone(q, accepts, gates);
    match delivered
    case None => (forall q | q in was :: !MayHave(q, accepts, gates)) && left == Kept(was, stays)
    case Some(q) => exists k :: ScansAt(was, accepts, gates, q, left, k)
  }

  ghost predicate ScansAt<M(!new)>(was: seq<Queued<M>>, accepts: M -> bool, gates: Gates, q: Queued<M>,
                                   left: seq<Queued<M>>, k: nat) {
    && k < |was| && was[k] == q && MayHave(q, accepts, gates)
    && (forall i | 0 <= i < k :: !MayHave(was[i], accepts, gates))
    && left == Kept(was[..k], (q: Queued<M>) => !IsGone(q, accepts, gates)) + was[k + 1..]
  }

  lemma ScannedByGates<M(!new)>(queue: seq<Queued<M>>, accepts: M -> bool, gates: Gates)
    ensures var k := FirstHanded(queue, accepts, gates);
            ScansTo(queue, accepts, gates, if k < |queue| then Some(queue[k]) else None, Scanned(queue, accepts, gates))
  {
    hide Surviving, FirstHanded, Kept;
    var k := FirstHanded(queue, accepts, gates);
    SurvivingAreNotGone(queue[..k], accepts, gates);
    forall i | 0 <= i < |queue|
      ensures MayHave(queue[i], accepts, gates) <==> Judge(queue[i], accepts, gates).HandsOver?
    {
    }
    hide Judge, IsGone, MayHave;
    if k == |queue| {
      assert queue[..k] == queue;
      var left := Kept(queue, (q: Queued<M>) => !IsGone(q, accepts, gates));
      assert left + [] == left;
    } else {
      assert ScansAt(queue, accepts, gates, queue[k], Scanned(queue, accepts, gates), k);
    }
  }

  /** One message further into a scan. */
  lemma SurvivingStep<M(!new)>(was: seq<Queued<M>>, accepts: M -> bool, gates: Gates, seen: nat)
    requires seen < |was|
    ensures var left := Surviving(was[..seen], accepts, gates);
            var queue := left + was[seen..];
            && queue[|left|] == was[seen]
            && RemoveAt(queue, |left|) == left + was[seen + 1..]
            && queue == left + [was[seen]] + was[seen + 1..]
            && Surviving(was[..seen + 1], accepts, gates)
               == left + (if Judge(was[seen], accepts, gates).Drops? then [] else [was[seen]])
  {
    assert was[..seen + 1][..seen] == was[..seen];
  }

  predicate NoneHanded<M(!new)>(queue: seq<Queued<M>>, accepts: M -> bool, gates: Gates) {
    forall i | 0 <= i < |queue| :: !Judge(queue[i], accepts, gates).HandsOver?
  }

  lemma FirstIs<M(!new)>(queue: seq<Queued<M>>, accepts: M -> bool, gates: Gates, k: nat)
    requires k <= |queue| && NoneHanded(queue[..k], accepts, gates)
    requires k < |queue| ==> Judge(queue[k], accepts, gates).HandsOver?
    ensures FirstHanded(queue, accepts, gates) == k
    ensures Scanned(queue, accepts, gates)
            == Surviving(queue[..k], accepts, gates) + (if k < |queue| then queue[k + 1..] else [])
  {
  }

  lemma OrderedIds(c: Core)
    requires Ordered(c)
    ensures Ascending(c.queue)
  {
  }

  /** A scan keeps an inbox ordered. */
  lemma ScannedThinned<M(!new)>(c: Core, queue: seq<Queued<M>>, accepts: M -> bool, gates: Gates)
    requires Ordered(c) && c.queue == Ids(queue)
    ensures var k := FirstHanded(queue, accepts, gates);
            Ordered(c.(queue := Ids(Scanned(queue, accepts, gates)),
                       taken := c.taken + if k < |queue| then {queue[k].id} else {}))
  {
    var k := FirstHanded(queue, accepts, gates);
    ScannedOrdered(queue, accepts, gates);
    ThinnedOrdered(c, Ids(Scanned(queue, accepts, gates)), if k < |queue| then {queue[k].id} else {});
  }

  /** And of an ungated one makes one take, or nothing. */
  lemma UngatedScanned<M(!new)>(c: Core, queue: seq<Queued<M>>, accepts: M -> bool, gates: Gates)
    requires Ordered(c) && c.queue == Ids(queue) && forall q | q in queue :: !q.gated
    ensures var k := FirstHanded(queue, accepts, gates);
            c.(queue := Ids(Scanned(queue, accepts, gates)), taken := c.taken + if k < |queue| then {queue[k].id} else {})
            == if k < |queue| then Take(c, queue[k].id) else c
  {
    hide Ids, FirstHanded, Scanned, RemoveAt, Without;
    OrderedIds(c);
    UngatedScanTakesOne(queue, accepts, gates);
    UngatedScanIsTake(queue, accepts, gates);
  }

  predicate IsWithdrawn<M>(q: Queued<M>, gates: Gates) {
    q.gated && gates.claim(q.id).Withdrawn?
  }

  predicate Undecidable<M>(q: Queued<M>, gates: Gates) {
    q.gated && gates.claim(q.id).Undecided?
  }

  /** The first message no gate says was withdrawn. */
  function FirstStanding<M>(queue: seq<Queued<M>>, gates: Gates): (k: nat)
    ensures k <= |queue|
    ensures k < |queue| ==> !IsWithdrawn(queue[k], gates)
    ensures forall i | 0 <= i < k :: IsWithdrawn(queue[i], gates)
  {
    if queue == [] || !IsWithdrawn(queue[0], gates) then 0 else 1 + FirstStanding(queue[1..], gates)
  }

  /** What taking the front delivers and leaves, by what the gates answer alone: the
      first message not withdrawn, where it has no gate or its gate gives it up; the
      withdrawn ones before it gone. */
  ghost predicate PopsTo<M>(was: seq<Queued<M>>, gates: Gates, delivered: Option<Queued<M>>, left: seq<Queued<M>>) {
    exists k :: PopsAt(was, gates, delivered, left, k)
  }

  ghost predicate PopsAt<M>(was: seq<Queued<M>>, gates: Gates, delivered: Option<Queued<M>>, left: seq<Queued<M>>, k: nat) {
    && k <= |was|
    && (forall i | 0 <= i < k :: was[i].gated && gates.claim(was[i].id) == Withdrawn)
    && match delivered
       case None => left == was[k..] && (k < |was| ==> was[k].gated && gates.claim(was[k].id) == Undecided)
       case Some(q) =>
         && k < |was| && q == was[k] && left == was[k + 1..]
         && (q.gated ==> gates.claim(q.id) == Taken)
  }

  lemma PoppedByGates<M(!new)>(queue: seq<Queued<M>>, gates: Gates)
    ensures var k := FirstStanding(queue, gates);
            if k == |queue| then PopsTo(queue, gates, None, [])
            else if Undecidable(queue[k], gates) then PopsTo(queue, gates, None, queue[k..])
            else PopsTo(queue, gates, Some(queue[k]), queue[k + 1..])
  {
    hide FirstStanding, PopsTo;
    var k := FirstStanding(queue, gates);
    assert forall i | 0 <= i < k :: IsWithdrawn(queue[i], gates);
    if k == |queue| || Undecidable(queue[k], gates) {
      PopIsSo(queue, gates, None, queue[k..], k);
      assert queue[|queue|..] == [];
    } else {
      PopIsSo(queue, gates, Some(queue[k]), queue[k + 1..], k);
    }
  }

  lemma PopIsSo<M(!new)>(was: seq<Queued<M>>, gates: Gates, delivered: Option<Queued<M>>, left: seq<Queued<M>>, k: nat)
    requires PopsAt(was, gates, delivered, left, k)
    ensures PopsTo(was, gates, delivered, left)
  {
  }

  /** With no gates the first message is the one handed over. */
  lemma UngatedFront<M(!new)>(queue: seq<Queued<M>>, gates: Gates)
    requires Ascending(Ids(queue)) && queue != [] && forall q | q in queue :: !q.gated
    ensures FirstStanding(queue, gates) == 0 && !Undecidable(queue[0], gates)
    ensures Ids(queue[1..]) == Without(Ids(queue), queue[0].id)
  {
    assert queue[0] in queue;
    RemoveAtIds(queue, 0);
    assert RemoveAt(queue, 0) == queue[1..];
  }

  /** So that popping an ungated inbox is one take. */
  lemma UngatedPopped<M(!new)>(c: Core, queue: seq<Queued<M>>, gates: Gates)
    requires Ordered(c) && c.queue == Ids(queue) && queue != [] && forall q | q in queue :: !q.gated
    ensures FirstStanding(queue, gates) == 0 && !Undecidable(queue[0], gates)
    ensures c.(queue := Ids(queue[1..]), taken := c.taken + {queue[0].id}) == Take(c, queue[0].id)
  {
    hide Ids, Without;
    OrderedIds(c);
    UngatedFront(queue, gates);
  }

  lemma TailOrdered<M(!new)>(queue: seq<Queued<M>>, k: nat)
    requires Ascending(Ids(queue)) && k <= |queue|
    ensures Ascending(Ids(queue[k..])) && forall id | id in Ids(queue[k..]) :: id in Ids(queue)
    ensures k > 0 ==> queue[k - 1].id in Ids(queue) && queue[k - 1].id !in Ids(queue[k..])
  {
    assert Ids(queue[k..]) == Ids(queue)[k..];
    assert forall i | 0 <= i < |queue| :: Ids(queue)[i] in Ids(queue);
  }

  /** Dropping a queue's front, and handing over the message at it or not, keeps
      an inbox ordered. */
  lemma TailThinned<M(!new)>(c: Core, queue: seq<Queued<M>>, k: nat)
    requires Ordered(c) && c.queue == Ids(queue) && k <= |queue|
    ensures Ordered(c.(queue := Ids(queue[k..])))
    ensures k < |queue| ==> Ordered(c.(queue := Ids(queue[k + 1..]), taken := c.taken + {queue[k].id}))
    ensures k < |queue| ==> queue[k..][1..] == queue[k + 1..]
  {
    TailOrdered(queue, k);
    ThinnedOrdered(c, Ids(queue[k..]), {});
    assert c.taken + {} == c.taken;
    if k < |queue| {
      TailOrdered(queue, k + 1);
      ThinnedOrdered(c, Ids(queue[k + 1..]), {queue[k].id});
    }
  }

  /** A scan that has looked at `seen` messages and handed over none. */
  ghost predicate Scanning<M(!new)>(was: seq<Queued<M>>, accepts: M -> bool, gates: Gates, seen: nat,
                                    queue: seq<Queued<M>>, at: nat) {
    && seen <= |was|
    && NoneHanded(was[..seen], accepts, gates)
    && at == |Surviving(was[..seen], accepts, gates)|
    && queue == Surviving(was[..seen], accepts, gates) + was[seen..]
  }

  lemma ScanStarts<M(!new)>(was: seq<Queued<M>>, accepts: M -> bool, gates: Gates)
    ensures Scanning(was, accepts, gates, 0, was, 0)
  {
    assert Surviving(was[..0], accepts, gates) == [] && was[0..] == was;
  }

  lemma ScanGoesOn<M(!new)>(was: seq<Queued<M>>, accepts: M -> bool, gates: Gates, seen: nat,
                            queue: seq<Queued<M>>, at: nat)
    requires Scanning(was, accepts, gates, seen, queue, at) && at < |queue|
    ensures seen < |was| && queue[at] == was[seen]
    ensures match Judge(queue[at], accepts, gates)
            case Passes => Scanning(was, accepts, gates, seen + 1, queue, at + 1)
            case Drops => Scanning(was, accepts, gates, seen + 1, RemoveAt(queue, at), at)
            case HandsOver =>
              RemoveAt(queue, at) == Scanned(was, accepts, gates) && FirstHanded(was, accepts, gates) == seen
  {
    SurvivingStep(was, accepts, gates, seen);
    hide Judge, Surviving, FirstHanded, Scanned, RemoveAt;
    assert was[..seen + 1] == was[..seen] + [was[seen]];
    if Judge(queue[at], accepts, gates).HandsOver? {
      FirstIs(was, accepts, gates, seen);
    }
  }

  lemma ScanEnds<M(!new)>(was: seq<Queued<M>>, accepts: M -> bool, gates: Gates, seen: nat,
                          queue: seq<Queued<M>>, at: nat)
    requires Scanning(was, accepts, gates, seen, queue, at) && at >= |queue|
    ensures queue == Scanned(was, accepts, gates) && FirstHanded(was, accepts, gates) == |was|
  {
    FirstIs(was, accepts, gates, seen);
  }

  lemma InsertIds<M(!new)>(queue: seq<Queued<M>>, q: Queued<M>)
    ensures var at := Place(Ids(queue), q.id);
            Ids(queue[..at] + [q] + queue[at..]) == Insert(Ids(queue), q.id)
  {
  }

  class Inbox<M(!new)> {
    var closed: Option<string>
    var queue: seq<Queued<M>>
    var taken: set<nat>
    var answered: seq<(M, string)>
    var next: nat

    function View(): Core
      reads this
    {
      Core(closed, Ids(queue), taken, next)
    }

    ghost predicate Valid()
      reads this
    {
      Ordered(View())
    }

    constructor ()
      ensures Valid() && View() == OPEN && answered == []
    {
      closed, queue, taken, answered, next := None, [], {}, [], 0;
    }

    /** Queue one message: refused where the inbox is closed; and given an id but
        never queued where its gate cannot say it was admitted. */
    method Offer(message: M, gated: bool, said: bool) returns (id: Option<nat>)
      requires Valid()
      modifies this
      ensures Valid() && answered == old(answered)
      ensures id == if old(closed).Some? then None else Some(old(next))
      ensures !gated || said ==> View() == InboxModel.Offer(old(View()))
      ensures gated && !said && id.Some? ==> View() == old(View()).(next := old(next) + 1)
      ensures queue == if id.Some? && (!gated || said) then old(queue) + [Queued(old(next), message, gated)]
                       else old(queue)
    {
      if closed.Some? {
        return None;
      }
      id := Some(next);
      OperationsKeepOrder(View(), 0, false, "");
      next := next + 1;
      if gated && !said {
        return;
      }
      queue := queue + [Queued(next - 1, message, gated)];
      assert Ids(queue) == Ids(old(queue)) + [old(next)];
    }

    method PushBack(message: M)
      requires Valid() && closed.None?
      modifies this`queue, this`next
      ensures Valid() && View() == InboxModel.Offer(old(View()))
      ensures queue == old(queue) + [Queued(old(next), message, false)] && next == old(next) + 1
    {
      OperationsKeepOrder(View(), 0, false, "");
      hide Ordered;
      queue := queue + [Queued(next, message, false)];
      next := next + 1;
      assert Ids(queue) == Ids(old(queue)) + [old(next)];
    }

    /** Queue every message at once, once the store has given them up; or none. */
    method OfferAll(messages: seq<M>, committed: bool) returns (count: Option<nat>)
      requires Valid()
      modifies this`queue, this`next
      ensures Valid()
      ensures count == if closed.None? && committed then Some(|messages|) else None
      ensures count.None? ==> View() == old(View()) && queue == old(queue)
      ensures count.Some? ==>
                && next == old(next) + |messages| && |queue| == |old(queue)| + |messages|
                && queue[..|old(queue)|] == old(queue)
                && forall i | 0 <= i < |messages| ::
                     queue[|old(queue)| + i] == Queued(old(next) + i, messages[i], false)
    {
      hide Ordered, Ids;
      if closed.Some? || !committed {
        return None;
      }
      for i := 0 to |messages|
        invariant Valid()
        invariant next == old(next) + i && |queue| == |old(queue)| + i
        invariant queue[..|old(queue)|] == old(queue)
        invariant forall k | 0 <= k < i :: queue[|old(queue)| + k] == Queued(old(next) + k, messages[k], false)
      {
        PushBack(messages[i]);
      }
      count := Some(|messages|);
    }

    /** Take a queued message back, if no take has had it. */
    method Withdraw(id: nat) returns (withdrawn: bool)
      requires Valid()
      modifies this`queue
      ensures Valid() && View() == InboxModel.Withdraw(old(View()), id)
      ensures withdrawn <==> id in Ids(old(queue))
      ensures !withdrawn ==> queue == old(queue)
      ensures withdrawn ==>
                exists at :: 0 <= at < |old(queue)| && old(queue)[at].id == id && queue == RemoveAt(old(queue), at)
    {
      hide Ordered, Ascending, Without;
      OperationsKeepOrder(View(), id, false, "");
      OrderedAscends(View());
      var at := 0;
      while at < |queue| && queue[at].id != id
        invariant at <= |queue| && forall i | 0 <= i < at :: queue[i].id != id
      {
        at := at + 1;
      }
      if at == |queue| {
        WithoutAbsent(Ids(queue), id);
        return false;
      }
      RemoveAtIds(queue, at);
      assert Ids(queue)[at] == id;
      queue := RemoveAt(queue, at);
      withdrawn := true;
    }

    /** Claim the first message the predicate accepts and its gate gives up,
        dropping the withdrawn and lapsed ones on the way. */
    method Select(accepts: M -> bool, gates: Gates) returns (delivered: Option<Queued<M>>)
      requires Valid()
      modifies this`queue, this`taken
      ensures Valid()
      ensures queue == Scanned(old(queue), accepts, gates)
      ensures var k := FirstHanded(old(queue), accepts, gates);
              && delivered == (if k < |old(queue)| then Some(old(queue)[k]) else None)
              && taken == old(taken) + (if k < |old(queue)| then {old(queue)[k].id} else {})
      ensures ScansTo(old(queue), accepts, gates, delivered, queue)
      ensures (forall q | q in old(queue) :: !q.gated) ==>
                View() == if delivered.Some? then Take(old(View()), delivered.value.id) else old(View())
    {
      hide Ordered, Scanned, FirstHanded, Ids, Take, ScansTo;
      ScannedByGates(queue, accepts, gates);
      ScannedThinned(View(), queue, accepts, gates);
      if forall q | q in queue :: !q.gated {
        UngatedScanned(View(), queue, accepts, gates);
      }
      delivered := Scan(accepts, gates);
      if delivered.Some? {
        taken := taken + {delivered.value.id};
      } else {
        assert taken + {} == taken;
      }
    }

    /** The scan itself, front to back. */
    method Scan(accepts: M -> bool, gates: Gates) returns (handed: Option<Queued<M>>)
      modifies this`queue
      ensures queue == Scanned(old(queue), accepts, gates)
      ensures var k := FirstHanded(old(queue), accepts, gates);
              handed == if k < |old(queue)| then Some(old(queue)[k]) else None
    {
      ghost var was, seen := queue, 0;
      var at := 0;
      ScanStarts(was, accepts, gates);
      hide Judge, FirstHanded, Scanned, Scanning, RemoveAt;
      while at < |queue|
        invariant Scanning(was, accepts, gates, seen, queue, at)
        decreases |was| - seen
      {
        ScanGoesOn(was, accepts, gates, seen, queue, at);
        match Judge(queue[at], accepts, gates) {
          case Passes => at := at + 1;
          case Drops => queue := RemoveAt(queue, at);
          case HandsOver =>
            handed := Some(queue[at]);
            queue := RemoveAt(queue, at);
            return;
        }
        seen := seen + 1;
      }
      ScanEnds(was, accepts, gates, seen, queue, at);
      handed := None;
    }

    /** Take the front message, dropping the withdrawn ones before it; nothing where
        the first that is not withdrawn cannot be decided now. */
    method Pop(gates: Gates) returns (delivered: Option<Queued<M>>)
      requires Valid()
      modifies this`queue, this`taken
      ensures Valid()
      ensures var k := FirstStanding(old(queue), gates);
              if k == |old(queue)| then queue == [] && delivered.None? && taken == old(taken)
              else if Undecidable(old(queue)[k], gates) then
                queue == old(queue)[k..] && delivered.None? && taken == old(taken)
              else
                && queue == old(queue)[k + 1..] && delivered == Some(old(queue)[k])
                && taken == old(taken) + {old(queue)[k].id}
      ensures PopsTo(old(queue), gates, delivered, queue)
      ensures (forall q | q in old(queue) :: !q.gated) ==>
                View() == if old(queue) == [] then old(View()) else Take(old(View()), old(queue)[0].id)
    {
      hide Ordered, Ids, IsWithdrawn, Undecidable, FirstStanding, PopsTo, Take;
      if queue != [] && forall q | q in queue :: !q.gated {
        UngatedPopped(View(), queue, gates);
      }
      TailThinned(View(), queue, FirstStanding(queue, gates));
      PoppedByGates(queue, gates);
      DropWithdrawn(gates);
      if queue == [] || Undecidable(queue[0], gates) {
        return None;
      }
      delivered := Some(queue[0]);
      taken := taken + {queue[0].id};
      queue := queue[1..];
    }

    /** Drop the withdrawn messages at the front. */
    method DropWithdrawn(gates: Gates)
      modifies this`queue
      ensures queue == old(queue)[FirstStanding(old(queue), gates)..]
    {
      ghost var was, dropped := queue, 0;
      while queue != [] && IsWithdrawn(queue[0], gates)
        invariant dropped <= |was| && queue == was[dropped..]
        invariant forall i | 0 <= i < dropped :: IsWithdrawn(was[i], gates)
        decreases |queue|
      {
        queue := queue[1..];
        dropped := dropped + 1;
      }
      assert dropped == FirstStanding(was, gates);
    }

    /** Hand a taken message back where it arrived, unless its sender's deadline
        has passed; nothing where a close already took its reply. */
    method Release(q: Queued<M>, expired: bool) returns (told: bool)
      requires Valid()
      modifies this`queue, this`taken
      ensures Valid() && View() == InboxModel.Release(old(View()), q.id, expired)
      ensures told <==> q.id in old(taken) && expired
      ensures queue == if q.id !in old(taken) || expired then old(queue)
                       else var at := Place(Ids(old(queue)), q.id); old(queue)[..at] + [q] + old(queue)[at..]
    {
      OperationsKeepOrder(View(), q.id, expired, "");
      hide Ordered;
      if q.id !in taken {
        return false;
      }
      taken := taken - {q.id};
      if expired {
        return true;
      }
      var at := Place(Ids(queue), q.id);
      InsertIds(queue, q);
      queue := queue[..at] + [q] + queue[at..];
      told := false;
    }

    /** Record the answer, and say whether the sender is still to be told it: one
        a close already answered is not answered twice. */
    method Answer(q: Queued<M>, disposition: string) returns (reply: bool)
      requires Valid()
      modifies this
      ensures Valid() && View() == Settle(old(View()), q.id) && queue == old(queue)
      ensures answered == old(answered) + [(q.message, disposition)]
      ensures reply <==> q.id in old(taken)
    {
      OperationsKeepOrder(View(), q.id, false, "");
      answered := answered + [(q.message, disposition)];
      reply := q.id in taken;
      taken := taken - {q.id};
    }

    /** Close: every queued and every taken message's sender is told, and later
        ones are refused. A second close tells nobody. */
    method Close(reason: string) returns (told: set<nat>)
      requires Valid()
      modifies this
      ensures Valid() && View() == InboxModel.Close(old(View()), reason) && answered == old(answered)
      ensures told == if old(closed).Some? then {} else old(taken) + set i | 0 <= i < |old(queue)| :: old(queue)[i].id
    {
      if closed.Some? {
        return {};
      }
      told := taken + set i | 0 <= i < |queue| :: queue[i].id;
      closed, queue, taken := Some(reason), [], {};
      assert Ids(queue) == [];
    }
  }
}
