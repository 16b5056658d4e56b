/** An event queue: its records, its policy, the log's lines, and the one
    transition function that folds a line into what is waiting and pending. */
module QueueModel {
  import opened Wrappers
  import opened Json
  import opened Sequences

  const LAST_U64 := 0xFFFF_FFFF_FFFF_FFFF

  type u64 = n: nat | n <= LAST_U64

  /** A record: the four fields the queue owns, and the consumer's own. */
  datatype Record = Record(id: u64, blocking: bool, abandoned: bool, asker: Option<string>, rest: Json)

  datatype Event = Queued | Claimed | Answered | Abandoned | Attended

  /** One line of the log. A line with no event is an older writer's. */
  datatype Line = Line(event: Option<Event>, record: Record)

  /** A line as the transport keeps it, with the position after it. */
  datatype Stored = Stored(line: Line, after: nat)

  /** Which newly queued records replace which waiting ones. */
  datatype Supersede = Supersede(key: Record -> Option<Json>, when: Option<Record -> bool>)
  {
    predicate Admits(record: Record) {
      when.None? || when.value(record)
    }
  }

  datatype Policy = Policy(supersedeOn: Option<Supersede>, holdPending: bool, blockingFirst: bool, projection: bool)
  {
    /** Whether queueing `newer` takes the waiting record `older` away. */
    predicate Replaces(newer: Record, older: Record) {
      && supersedeOn.Some?
      && supersedeOn.value.Admits(newer)
      && supersedeOn.value.key(older) == supersedeOn.value.key(newer)
    }
  }

  /** The log folded: what a claim finds waiting, oldest first, what holds the
      pending slot, and the id the next record takes. */
  datatype Folded = Folded(waiting: seq<Record>, pending: Option<Record>, nextId: u64)

  const EMPTY := Folded([], None, 0)

  /** The waiting records `newer` leaves. */
  function Retain(policy: Policy, waiting: seq<Record>, newer: Record): (kept: seq<Record>)
    ensures forall r :: r in kept <==> r in waiting && !policy.Replaces(newer, r)
  {
    if waiting == [] then []
    else
      var kept := Retain(policy, waiting[..|waiting| - 1], newer);
      var last := waiting[|waiting| - 1];
      if policy.Replaces(newer, last) then kept else kept + [last]
  }

  /** What is kept is every waiting record `newer` does not replace, as often as it
      is there and in its order. */
  lemma {:induction false} RetainKeeps(policy: Policy, waiting: seq<Record>, newer: Record)
    ensures Retain(policy, waiting, newer) == Kept(waiting, (r: Record) => !policy.Replaces(newer, r))
  {
    if waiting != [] {
      RetainKeeps(policy, waiting[..|waiting| - 1], newer);
    }
  }

  /** Where the first waiting record with this id is; the length where none is. */
  function IndexOf(waiting: seq<Record>, id: u64): (at: nat)
    ensures at <= |waiting|
    ensures at < |waiting| ==> waiting[at].id == id
    ensures forall i | 0 <= i < at :: waiting[i].id != id
  {
    if waiting == [] || waiting[0].id == id then 0
    else 1 + IndexOf(waiting[1..], id)
  }

  function Flag(record: Record, id: u64, abandoned: bool): Record {
    if record.id == id then record.(abandoned := abandoned) else record
  }

  function FlagAll(waiting: seq<Record>, id: u64, abandoned: bool): (flagged: seq<Record>)
    ensures |flagged| == |waiting|
    ensures forall i | 0 <= i < |waiting| :: flagged[i] == Flag(waiting[i], id, abandoned)
  {
    seq(|waiting|, i requires 0 <= i < |waiting| => Flag(waiting[i], id, abandoned))
  }

  /** The event a line stands for: an older writer's line says none, and logged
      a record when it was queued and again when it was abandoned or taken back. */
  function EventOf(folded: Folded, line: Line): Event {
    match line.event
    case Some(event) => event
    case None =>
      if line.record.id >= folded.nextId then Queued
      else if line.record.abandoned then Abandoned
      else Attended
  }

  /** Whether a claimed record takes the pending slot. */
  predicate TakesSlot(policy: Policy, folded: Folded, taken: Record) {
    policy.holdPending && taken.blocking && (!taken.abandoned || folded.pending.None?)
  }

  function ApplyQueued(policy: Policy, folded: Folded, record: Record): Folded {
    if record.id == LAST_U64 then folded
    else
      Folded(Retain(policy, folded.waiting, record) + [record], folded.pending,
             if folded.nextId > record.id then folded.nextId else record.id + 1)
  }

  function ApplyClaimed(policy: Policy, folded: Folded, id: u64): Folded {
    var at := IndexOf(folded.waiting, id);
    if at == |folded.waiting| then folded
    else
      var taken := folded.waiting[at];
      var rest := RemoveAt(folded.waiting, at);
      if TakesSlot(policy, folded, taken) then
        folded.(waiting := if folded.pending.Some? && folded.pending.value.abandoned
                           then rest + [folded.pending.value] else rest,
                pending := Some(taken))
      else folded.(waiting := rest)
  }

  function ApplyFlag(folded: Folded, id: u64, abandoned: bool): Folded {
    folded.(waiting := FlagAll(folded.waiting, id, abandoned),
            pending := if folded.pending.Some? then Some(Flag(folded.pending.value, id, abandoned)) else None)
  }

  /** One line folded in: the one place the transitions are defined. A line
      about a record the fold does not hold folds to nothing. */
  function Apply(policy: Policy, folded: Folded, line: Line): Folded {
    match EventOf(folded, line)
    case Queued => ApplyQueued(policy, folded, line.record)
    case Claimed => ApplyClaimed(policy, folded, line.record.id)
    case Answered =>
      if folded.pending.Some? && folded.pending.value.id == line.record.id then folded.(pending := None)
      else folded
    case Abandoned => ApplyFlag(folded, line.record.id, true)
    case Attended => ApplyFlag(folded, line.record.id, false)
  }

  /** A line an older writer left, which says no event: of an id not allocated yet it
      queues the record; and of another it says how every held record with the id
      stands, whatever is held, and changes nothing else. */
  lemma OlderWritersLine(policy: Policy, folded: Folded, record: Record)
    ensures var after := Apply(policy, folded, Line(None, record));
            if record.id >= folded.nextId then
              (record.id != LAST_U64 ==>
                 && after.waiting != [] && after.waiting[|after.waiting| - 1] == record
                 && after.nextId == record.id + 1 && after.pending == folded.pending)
            else
              && after.nextId == folded.nextId
              && |after.waiting| == |folded.waiting| && (after.pending.Some? <==> folded.pending.Some?)
              && (forall i | 0 <= i < |after.waiting| :: StandsSo(folded.waiting[i], after.waiting[i], record))
              && (after.pending.Some? ==> StandsSo(folded.pending.value, after.pending.value, record))
  {
    hide Retain;
  }

  /** A held record after a line about one: marked as that one stands, where it is that
      one, and otherwise as it was. */
  predicate StandsSo(was: Record, now: Record, told: Record) {
    now == if was.id == told.id then was.(abandoned := told.abandoned) else was
  }

  /** A line about a record the fold does not hold changes nothing, but for one that
      queues it. */
  lemma UnheldFoldsToNothing(policy: Policy, folded: Folded, line: Line)
    requires line.event.Some? && line.event != Some(Event.Queued)
    requires forall r | r in Held(folded) :: r.id != line.record.id
    ensures Apply(policy, folded, line) == folded
  {
    assert forall r | r in folded.waiting :: r in Held(folded);
    assert folded.pending.Some? ==> Held(folded)[|folded.waiting|] == folded.pending.value;
    assert forall i | 0 <= i < |folded.waiting| :: folded.waiting[i] in folded.waiting;
    assert forall i | 0 <= i < |folded.waiting| :: folded.waiting[i].id != line.record.id;
    assert FlagAll(folded.waiting, line.record.id, true) == folded.waiting;
    assert FlagAll(folded.waiting, line.record.id, false) == folded.waiting;
  }

  function FoldFrom(policy: Policy, from: Folded, log: seq<Stored>): Folded {
    if log == [] then from
    else Apply(policy, FoldFrom(policy, from, log[..|log| - 1]), log[|log| - 1].line)
  }

  /** The whole log folded from nothing: what an event queue is. */
  function Fold(policy: Policy, log: seq<Stored>): Folded {
    FoldFrom(policy, EMPTY, log)
  }

  lemma NothingFolded(policy: Policy, from: Folded)
    ensures FoldFrom(policy, from, []) == from
  {
  }

  lemma FoldedOneMore(policy: Policy, from: Folded, log: seq<Stored>, last: Stored)
    ensures FoldFrom(policy, from, log + [last]) == Apply(policy, FoldFrom(policy, from, log), last.line)
  {
    assert (log + [last])[..|log|] == log;
    hide Apply;
  }

  lemma {:induction false} FoldFromConcat(policy: Policy, from: Folded, first: seq<Stored>, second: seq<Stored>)
    ensures FoldFrom(policy, from, first + second) == FoldFrom(policy, FoldFrom(policy, from, first), second)
    decreases |second|
  {
    if second == [] {
      assert first + second == first;
    } else {
      var n := |second| - 1;
      assert (first + second)[..|first + second| - 1] == first + second[..n];
      FoldFromConcat(policy, from, first, second[..n]);
    }
  }

  lemma FoldOfConcat(policy: Policy, first: seq<Stored>, second: seq<Stored>)
    ensures Fold(policy, first + second) == FoldFrom(policy, Fold(policy, first), second)
  {
    FoldFromConcat(policy, EMPTY, first, second);
  }

  /** The waiting record a claim takes: a blocking one first where the policy
      says so, then the oldest nobody abandoned, then the oldest. */
  function Pick(policy: Policy, waiting: seq<Record>): (at: nat)
    requires waiting != []
    ensures at < |waiting|
  {
    var unabandoned := First(waiting, false);
    var next := if policy.blockingFirst && First(waiting, true) < |waiting| then First(waiting, true) else unabandoned;
    if next < |waiting| then next else 0
  }

  /** The first waiting record nobody abandoned — among the blocking ones alone,
      where asked; the length where there is none. */
  function First(waiting: seq<Record>, blockingOnly: bool): (at: nat)
    ensures at <= |waiting|
    ensures at < |waiting| ==> !waiting[at].abandoned && (blockingOnly ==> waiting[at].blocking)
    ensures forall i | 0 <= i < at :: waiting[i].abandoned || (blockingOnly && !waiting[i].blocking)
  {
    if waiting == [] || (!waiting[0].abandoned && (blockingOnly ==> waiting[0].blocking)) then 0
    else 1 + First(waiting[1..], blockingOnly)
  }

  /** The records the fold holds: waiting, then pending. */
  function Held(folded: Folded): seq<Record> {
    folded.waiting + (if folded.pending.Some? then [folded.pending.value] else [])
  }

  /** What a caller asks of an event queue. A mark names the record as the log
      queued it, read before the section was taken. */
  datatype Op =
    | Push(record: Record)
    | Claim
    | Answer(id: u64)
    | AnswerPending
    | Abandon(ids: set<u64>)
    | Attend(asker: string)
    | Mark(logged: Record, abandoned: bool)

  function Marks(held: seq<Record>, affects: Record -> bool, event: Event, abandoned: bool): (lines: seq<Line>)
    ensures forall line :: line in lines <==>
      exists r :: r in held && affects(r) && line == Line(Some(event), r.(abandoned := abandoned))
  {
    if held == [] then []
    else
      (if affects(held[0]) then [Line(Some(event), held[0].(abandoned := abandoned))] else [])
      + Marks(held[1..], affects, event, abandoned)
  }

  /** One line for each held record affected, in the order they are held. */
  lemma {:induction false} MarksEach(held: seq<Record>, affects: Record -> bool, event: Event, abandoned: bool)
    ensures var lines, affected := Marks(held, affects, event, abandoned), Kept(held, affects);
            && |lines| == |affected|
            && forall i | 0 <= i < |lines| :: lines[i] == Line(Some(event), affected[i].(abandoned := abandoned))
  {
    if held != [] {
      MarksEach(held[1..], affects, event, abandoned);
      KeptFirst(held[0], held[1..], affects);
      assert held == [held[0]] + held[1..];
      hide Kept;
    }
  }

  /** The records an abandonment of `ids` is about. */
  function StillAttended(ids: set<u64>): Record -> bool {
    (r: Record) => r.id in ids && !r.abandoned
  }

  /** The records an asker takes back over. */
  function AbandonedBy(asker: string): Record -> bool {
    (r: Record) => r.abandoned && r.asker == Some(asker)
  }

  /** Whether an operation is refused for what the fold holds: the last id there is
      has been allocated. */
  predicate Refuses(folded: Folded, op: Op) {
    op.Push? && folded.nextId == LAST_U64
  }

  /** The lines an operation appends, decided inside the queue's section. */
  function Derive(policy: Policy, folded: Folded, op: Op): seq<Line> {
    match op
    case Push(record) =>
      if folded.nextId == LAST_U64 then []
      else [Line(Some(Event.Queued), record.(id := folded.nextId))]
    case Claim =>
      if folded.waiting == [] then []
      else [Line(Some(Event.Claimed), folded.waiting[Pick(policy, folded.waiting)])]
    case Answer(id) =>
      if folded.pending.Some? && folded.pending.value.id == id
      then [Line(Some(Event.Answered), folded.pending.value)] else []
    case AnswerPending =>
      if folded.pending.Some? then [Line(Some(Event.Answered), folded.pending.value)] else []
    case Abandon(ids) =>
      Marks(Held(folded), StillAttended(ids), Event.Abandoned, true)
    case Attend(asker) =>
      Marks(Held(folded), AbandonedBy(asker), Event.Attended, false)
    case Mark(logged, abandoned) =>
      var at := IndexOf(Held(folded), logged.id);
      var current := if at < |Held(folded)| then Held(folded)[at] else logged;
      [Line(Some(if abandoned then Event.Abandoned else Event.Attended), current.(abandoned := abandoned))]
  }
}
