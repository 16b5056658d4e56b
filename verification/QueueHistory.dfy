/** What holds in every log its own writers wrote: which ids are where, how a
    record leaves the pending slot, and how often one can be claimed and
    answered. */
module QueueHistory {
  import opened Wrappers
  import opened QueueModel
  import opened Sequences

  /** A line an operation would append to a log that folds to `folded`. */
  predicate Legal(policy: Policy, folded: Folded, line: Line) {
    && line.event.Some?
    && match line.event.value {
         case Queued => line.record.id == folded.nextId && folded.nextId < LAST_U64
         case Claimed => folded.waiting != [] && line.record == folded.waiting[Pick(policy, folded.waiting)]
         case Answered => folded.pending == Some(line.record)
         case Abandoned => line.record.id < folded.nextId && line.record.abandoned
         case Attended => line.record.id < folded.nextId && !line.record.abandoned
       }
  }

  /** A log starting empty and extended only by the queue's own operations. */
  ghost predicate OwnLog(policy: Policy, log: seq<Stored>) {
    log != [] ==>
      && OwnLog(policy, log[..|log| - 1])
      && Legal(policy, Fold(policy, log[..|log| - 1]), log[|log| - 1].line)
  }

  predicate Distinct(records: seq<Record>) {
    forall i, j | 0 <= i < j < |records| :: records[i].id != records[j].id
  }

  predicate Below(records: seq<Record>, bound: nat) {
    forall r | r in records :: r.id < bound
  }

  function Ids(records: seq<Record>): (ids: set<nat>) {
    set r | r in records :: r.id
  }

  function PendingIds(folded: Folded): (ids: set<nat>) {
    if folded.pending.Some? then {folded.pending.value.id} else {}
  }

  /** No id is held twice, none is yet to be allocated, and the slot holds only
      a blocking record. */
  predicate WellHeld(folded: Folded) {
    && Distinct(folded.waiting)
    && Below(folded.waiting, folded.nextId)
    && (folded.pending.Some? ==>
          && folded.pending.value.blocking
          && folded.pending.value.id < folded.nextId
          && folded.pending.value.id !in Ids(folded.waiting))
  }

  lemma {:induction false} RetainDistinct(policy: Policy, waiting: seq<Record>, newer: Record)
    requires Distinct(waiting)
    ensures Distinct(Retain(policy, waiting, newer))
    ensures Ids(Retain(policy, waiting, newer)) <= Ids(waiting)
  {
    if waiting != [] {
      RetainDistinct(policy, waiting[..|waiting| - 1], newer);
      var kept := Retain(policy, waiting[..|waiting| - 1], newer);
      forall i | 0 <= i < |kept|
        ensures kept[i].id != waiting[|waiting| - 1].id
      {
        assert kept[i] in kept;
        var k :| 0 <= k < |waiting| - 1 && waiting[k] == kept[i];
      }
    }
  }

  lemma RemovedIds(waiting: seq<Record>, at: nat)
    requires Distinct(waiting) && at < |waiting|
    ensures Distinct(RemoveAt(waiting, at))
    ensures Ids(RemoveAt(waiting, at)) == Ids(waiting) - {waiting[at].id}
  {
    var rest := RemoveAt(waiting, at);
    forall id | id in Ids(waiting) - {waiting[at].id}
      ensures id in Ids(rest)
    {
      var k :| 0 <= k < |waiting| && waiting[k].id == id;
      assert waiting[k] == rest[if k < at then k else k - 1];
    }
  }

  lemma FlaggedIds(waiting: seq<Record>, id: u64, abandoned: bool)
    ensures Ids(FlagAll(waiting, id, abandoned)) == Ids(waiting)
    ensures Distinct(waiting) ==> Distinct(FlagAll(waiting, id, abandoned))
  {
    var flagged := FlagAll(waiting, id, abandoned);
    forall i | 0 <= i < |waiting|
      ensures flagged[i] in flagged && waiting[i] in waiting && flagged[i].id == waiting[i].id
    {
    }
  }

  /** An own-writer's claim finds what it claims. */
  lemma PickedIsFound(waiting: seq<Record>, at: nat)
    requires Distinct(waiting) && at < |waiting|
    ensures IndexOf(waiting, waiting[at].id) == at
  {
  }

  lemma PushedIds(kept: seq<Record>, record: Record)
    ensures Ids(kept + [record]) == Ids(kept) + {record.id}
    ensures Distinct(kept) && record.id !in Ids(kept) ==> Distinct(kept + [record])
  {
    assert forall r :: r in kept + [record] <==> r in kept || r == record;
    forall i | 0 <= i < |kept|
      ensures kept[i].id in Ids(kept)
    {
    }
  }

  lemma QueuedWellHeld(policy: Policy, folded: Folded, record: Record)
    requires WellHeld(folded) && record.id == folded.nextId < LAST_U64
    ensures WellHeld(ApplyQueued(policy, folded, record))
    ensures Ids(ApplyQueued(policy, folded, record).waiting)
            == Ids(Retain(policy, folded.waiting, record)) + {record.id}
  {
    RetainDistinct(policy, folded.waiting, record);
    PushedIds(Retain(policy, folded.waiting, record), record);
  }

  /** What a legal claim makes of the fold: the picked record leaves the waiting
      ones, and an abandoned record it displaces goes behind them. */
  lemma ClaimedWellHeld(policy: Policy, folded: Folded)
    requires WellHeld(folded) && folded.waiting != []
    ensures var at := Pick(policy, folded.waiting);
            var taken := folded.waiting[at];
            var rest := RemoveAt(folded.waiting, at);
            var after := ApplyClaimed(policy, folded, taken.id);
            && WellHeld(after)
            && after.nextId == folded.nextId
            && Ids(rest) == Ids(folded.waiting) - {taken.id}
            && if !TakesSlot(policy, folded, taken) then
                 after.waiting == rest && after.pending == folded.pending
               else
                 && after.pending == Some(taken)
                 && if folded.pending.Some? && folded.pending.value.abandoned
                    then after.waiting == rest + [folded.pending.value]
                         && Ids(after.waiting) == Ids(rest) + PendingIds(folded)
                    else after.waiting == rest
  {
    var at := Pick(policy, folded.waiting);
    var rest := RemoveAt(folded.waiting, at);
    PickedIsFound(folded.waiting, at);
    RemovedIds(folded.waiting, at);
    if folded.pending.Some? {
      PushedIds(rest, folded.pending.value);
    }
  }

  lemma FlagWellHeld(folded: Folded, id: u64, abandoned: bool)
    requires WellHeld(folded)
    ensures WellHeld(ApplyFlag(folded, id, abandoned))
    ensures Ids(ApplyFlag(folded, id, abandoned).waiting) == Ids(folded.waiting)
  {
    FlaggedIds(folded.waiting, id, abandoned);
    forall r | r in FlagAll(folded.waiting, id, abandoned)
      ensures r.id < folded.nextId
    {
      assert r.id in Ids(folded.waiting);
    }
  }

  /** Every line an own writer appends keeps what is held well held. */
  lemma StepWellHeld(policy: Policy, folded: Folded, line: Line)
    requires WellHeld(folded) && Legal(policy, folded, line)
    ensures WellHeld(Apply(policy, folded, line))
  {
    match line.event.value {
      case Queued => QueuedWellHeld(policy, folded, line.record);
      case Claimed => ClaimedWellHeld(policy, folded);
      case Answered =>
      case Abandoned => FlagWellHeld(folded, line.record.id, true);
      case Attended => FlagWellHeld(folded, line.record.id, false);
    }
  }

  lemma {:induction false} OwnWellHeld(policy: Policy, log: seq<Stored>)
    requires OwnLog(policy, log)
    ensures WellHeld(Fold(policy, log))
  {
    hide Apply, Legal;
    if log != [] {
      OwnWellHeld(policy, log[..|log| - 1]);
      StepWellHeld(policy, Fold(policy, log[..|log| - 1]), log[|log| - 1].line);
    }
  }

  // ----- runs -----

  /** The fold of the first `k` lines. */
  function At(policy: Policy, log: seq<Stored>, k: nat): Folded
    requires k <= |log|
  {
    Fold(policy, log[..k])
  }

  predicate Is(stored: Stored, event: Event, id: nat) {
    stored.line.event == Some(event) && stored.line.record.id == id
  }

  lemma {:induction false} OwnPrefix(policy: Policy, log: seq<Stored>, k: nat)
    requires OwnLog(policy, log) && k <= |log|
    ensures OwnLog(policy, log[..k]) && WellHeld(At(policy, log, k))
    ensures k < |log| ==>
      && Legal(policy, At(policy, log, k), log[k].line)
      && At(policy, log, k + 1) == Apply(policy, At(policy, log, k), log[k].line)
  {
    hide Apply, Legal;
    if k == |log| {
      assert log[..k] == log;
    } else {
      var n := |log| - 1;
      OwnPrefix(policy, log[..n], k);
      assert log[..n][..k] == log[..k];
      assert log[..k + 1][..k] == log[..k];
    }
    OwnWellHeld(policy, log[..k]);
  }

  /** The operation a section may run on a log: a mark names a record the log
      has queued. */
  predicate Runnable(folded: Folded, op: Op) {
    op.Mark? ==> op.logged.id < folded.nextId
  }

  predicate IsMark(line: Line, bound: nat) {
    && line.event in {Some(Event.Abandoned), Some(Event.Attended)}
    && line.record.id < bound
    && line.record.abandoned == (line.event == Some(Event.Abandoned))
  }

  lemma MarkIsLegal(policy: Policy, folded: Folded, line: Line)
    requires IsMark(line, folded.nextId)
    ensures Legal(policy, folded, line) && Apply(policy, folded, line).nextId == folded.nextId
  {
  }

  /** Lines that only mark allocated records keep a log its own writers' and
      allocate nothing. */
  lemma {:induction false} MarksKeepOwn(policy: Policy, log: seq<Stored>, appended: seq<Stored>)
    requires OwnLog(policy, log)
    requires forall s | s in appended :: IsMark(s.line, Fold(policy, log).nextId)
    ensures OwnLog(policy, log + appended)
    ensures Fold(policy, log + appended).nextId == Fold(policy, log).nextId
  {
    hide Apply, Legal, IsMark;
    if appended == [] {
      assert log + appended == log;
    } else {
      var n := |appended| - 1;
      MarksKeepOwn(policy, log, appended[..n]);
      assert (log + appended)[..|log| + n] == log + appended[..n];
      assert appended[n] in appended;
      MarkIsLegal(policy, Fold(policy, log + appended[..n]), appended[n].line);
    }
  }

  lemma MarksWellFormed(policy: Policy, folded: Folded, op: Op)
    requires WellHeld(folded) && (op.Abandon? || op.Attend?)
    ensures forall line | line in Derive(policy, folded, op) :: IsMark(line, folded.nextId)
  {
    forall r | r in Held(folded)
      ensures r.id < folded.nextId
    {
    }
  }

  /** However many of an operation's lines are appended before its writer dies,
      the log stays one its own writers wrote. */
  lemma OperationKeepsOwn(policy: Policy, log: seq<Stored>, op: Op, appended: seq<Stored>)
    requires OwnLog(policy, log) && Runnable(Fold(policy, log), op)
    requires var lines := Derive(policy, Fold(policy, log), op);
             |appended| <= |lines| && forall i | 0 <= i < |appended| :: appended[i].line == lines[i]
    ensures OwnLog(policy, log + appended)
  {
    OwnWellHeld(policy, log);
    var folded := Fold(policy, log);
    var lines := Derive(policy, folded, op);
    if op.Abandon? || op.Attend? {
      MarksWellFormed(policy, folded, op);
      forall s | s in appended
        ensures s.line in lines
      {
      }
      MarksKeepOwn(policy, log, appended);
    } else {
      DerivedLineLegal(policy, folded, op);
      if appended == [] {
        assert log + appended == log;
      } else {
        assert (log + appended)[..|log|] == log;
        assert lines[0] in lines;
      }
    }
  }

  lemma DerivedLineLegal(policy: Policy, folded: Folded, op: Op)
    requires WellHeld(folded) && Runnable(folded, op) && !op.Abandon? && !op.Attend?
    ensures |Derive(policy, folded, op)| <= 1
    ensures forall line | line in Derive(policy, folded, op) :: Legal(policy, folded, line)
  {
  }

  // ----- where each id is -----

  /** What the log has taken out of the fold: the records superseded while they
      waited, and those handed out — claimed and not held for an answer. */
  datatype Ledger = Ledger(superseded: set<nat>, handedOut: set<nat>)

  function Account(policy: Policy, log: seq<Stored>): Ledger {
    if log == [] then Ledger({}, {})
    else
      var earlier := Account(policy, log[..|log| - 1]);
      AccountLine(policy, Fold(policy, log[..|log| - 1]), earlier, log[|log| - 1].line)
  }

  function AccountLine(policy: Policy, folded: Folded, earlier: Ledger, line: Line): Ledger {
    match EventOf(folded, line)
    case Queued =>
      earlier.(superseded := earlier.superseded
                 + set r | r in folded.waiting && policy.Replaces(line.record, r) :: r.id)
    case Claimed =>
      if !TakesSlot(policy, folded, line.record) then
        earlier.(handedOut := earlier.handedOut + {line.record.id})
      else if folded.pending.Some? && !folded.pending.value.abandoned then
        earlier.(handedOut := earlier.handedOut + PendingIds(folded))
      else earlier
    case Answered => earlier.(handedOut := earlier.handedOut + PendingIds(folded))
    case _ => earlier
  }

  function Places(folded: Folded, ledger: Ledger): (ids: set<nat>) {
    Ids(folded.waiting) + PendingIds(folded) + ledger.superseded + ledger.handedOut
  }

  /** The ids allocated so far, each in exactly one place. */
  ghost predicate Partitioned(folded: Folded, ledger: Ledger) {
    && (forall id: nat :: id in Places(folded, ledger) <==> id < folded.nextId)
    && Ids(folded.waiting) !! PendingIds(folded) !! ledger.superseded !! ledger.handedOut
  }

  lemma QueuedPartitioned(policy: Policy, folded: Folded, ledger: Ledger, line: Line)
    requires WellHeld(folded) && line.event == Some(Event.Queued) && Legal(policy, folded, line)
    requires Partitioned(folded, ledger)
    ensures Partitioned(Apply(policy, folded, line), AccountLine(policy, folded, ledger, line))
  {
    QueuedWellHeld(policy, folded, line.record);
    RetainedAndReplaced(policy, folded.waiting, line.record);
    assert line.record.id !in Places(folded, ledger);
  }

  lemma ClaimedPartitioned(policy: Policy, folded: Folded, ledger: Ledger, line: Line)
    requires WellHeld(folded) && line.event == Some(Event.Claimed) && Legal(policy, folded, line)
    requires Partitioned(folded, ledger)
    ensures Partitioned(Apply(policy, folded, line), AccountLine(policy, folded, ledger, line))
  {
    ClaimedWellHeld(policy, folded);
    var after, accounted := Apply(policy, folded, line), AccountLine(policy, folded, ledger, line);
    assert line.record.id in Ids(folded.waiting);
    assert Places(after, accounted) == Places(folded, ledger);
  }

  lemma StepPartitioned(policy: Policy, folded: Folded, ledger: Ledger, line: Line)
    requires WellHeld(folded) && Legal(policy, folded, line) && Partitioned(folded, ledger)
    ensures Partitioned(Apply(policy, folded, line), AccountLine(policy, folded, ledger, line))
  {
    match line.event.value {
      case Queued => QueuedPartitioned(policy, folded, ledger, line);
      case Claimed => ClaimedPartitioned(policy, folded, ledger, line);
      case Answered =>
        assert Places(Apply(policy, folded, line), AccountLine(policy, folded, ledger, line)) == Places(folded, ledger);
      case Abandoned =>
        FlagWellHeld(folded, line.record.id, true);
        assert Places(Apply(policy, folded, line), ledger) == Places(folded, ledger);
      case Attended =>
        FlagWellHeld(folded, line.record.id, false);
        assert Places(Apply(policy, folded, line), ledger) == Places(folded, ledger);
    }
  }

  lemma RetainedAndReplaced(policy: Policy, waiting: seq<Record>, newer: Record)
    requires Distinct(waiting)
    ensures var replaced := set r | r in waiting && policy.Replaces(newer, r) :: r.id;
            var kept := Ids(Retain(policy, waiting, newer));
            kept + replaced == Ids(waiting) && kept !! replaced
  {
  }

  /** The ids the log has allocated split into waiting, pending, superseded and
      handed out, with no id in two of them or in one of them twice. */
  lemma {:induction false} IdsPartitioned(policy: Policy, log: seq<Stored>)
    requires OwnLog(policy, log)
    ensures Partitioned(Fold(policy, log), Account(policy, log))
    ensures Distinct(Fold(policy, log).waiting)
  {
    hide Apply, Legal;
    OwnWellHeld(policy, log);
    if log != [] {
      var n := |log| - 1;
      IdsPartitioned(policy, log[..n]);
      OwnWellHeld(policy, log[..n]);
      StepPartitioned(policy, Fold(policy, log[..n]), Account(policy, log[..n]), log[n].line);
    }
  }

  /** A record somebody still listens for leaves the pending slot only by its
      answer, or by the claim of another blocking record somebody listens for. */
  lemma SlotReleased(policy: Policy, log: seq<Stored>, stored: Stored)
    requires OwnLog(policy, log + [stored])
    requires var held := Fold(policy, log).pending; held.Some? && !held.value.abandoned
    ensures var held := Fold(policy, log).pending.value;
            && held.blocking
            && (held.id !in PendingIds(Fold(policy, log + [stored])) ==>
                  || Is(stored, Event.Answered, held.id)
                  || (&& stored.line.event == Some(Event.Claimed)
                      && stored.line.record.blocking
                      && !stored.line.record.abandoned
                      && stored.line.record.id != held.id))
  {
    assert (log + [stored])[..|log|] == log;
    OwnPrefix(policy, log + [stored], |log|);
    var folded := Fold(policy, log);
    assert (log + [stored])[..|log| + 1] == log + [stored];
    if stored.line.event == Some(Event.Claimed) {
      ClaimedWellHeld(policy, folded);
      assert stored.line.record.id in Ids(folded.waiting);
    }
  }

  // ----- how often -----

  /** The claim at `k` displaced the abandoned record `id` from the slot. */
  predicate DisplacedAt(policy: Policy, log: seq<Stored>, id: nat, k: nat) {
    && k < |log|
    && policy.holdPending
    && log[k].line.event == Some(Event.Claimed)
    && log[k].line.record.blocking
    && !log[k].line.record.abandoned
    && log[k].line.record.id != id
    && At(policy, log, k).pending.Some?
    && At(policy, log, k).pending.value.id == id
    && At(policy, log, k).pending.value.abandoned
  }

  /** An id already allocated starts waiting again only by being displaced. */
  lemma StepEnters(policy: Policy, folded: Folded, line: Line, id: nat)
    requires WellHeld(folded) && Legal(policy, folded, line)
    requires id < folded.nextId && id !in Ids(folded.waiting)
    ensures id < Apply(policy, folded, line).nextId
    ensures id in Ids(Apply(policy, folded, line).waiting) ==>
      && policy.holdPending && line.event == Some(Event.Claimed)
      && line.record.blocking && !line.record.abandoned && line.record.id != id
      && folded.pending.Some? && folded.pending.value.id == id && folded.pending.value.abandoned
  {
    match line.event.value {
      case Queued => QueuedWellHeld(policy, folded, line.record); RetainDistinct(policy, folded.waiting, line.record);
      case Claimed =>
        ClaimedWellHeld(policy, folded);
        assert line.record.id in Ids(folded.waiting);
      case Answered =>
      case Abandoned => FlagWellHeld(folded, line.record.id, true);
      case Attended => FlagWellHeld(folded, line.record.id, false);
    }
  }

  lemma {:induction false} WaitsAgain(policy: Policy, log: seq<Stored>, id: nat, i: nat, j: nat) returns (k: nat)
    requires OwnLog(policy, log) && i <= j <= |log|
    requires id < At(policy, log, i).nextId && id !in Ids(At(policy, log, i).waiting)
    requires id in Ids(At(policy, log, j).waiting)
    ensures i <= k < j && DisplacedAt(policy, log, id, k)
    decreases j - i
  {
    hide Apply, Legal;
    OwnPrefix(policy, log, i);
    StepEnters(policy, At(policy, log, i), log[i].line, id);
    if id in Ids(At(policy, log, i + 1).waiting) {
      k := i;
    } else {
      k := WaitsAgain(policy, log, id, i + 1, j);
    }
  }

  /** A claimed record was waiting, and is not any more. */
  lemma StepClaims(policy: Policy, folded: Folded, line: Line)
    requires WellHeld(folded) && Legal(policy, folded, line) && line.event == Some(Event.Claimed)
    ensures line.record in folded.waiting && line.record.id in Ids(folded.waiting)
    ensures line.record.id < Apply(policy, folded, line).nextId
    ensures line.record.id !in Ids(Apply(policy, folded, line).waiting)
  {
    ClaimedWellHeld(policy, folded);
    assert line.record in folded.waiting;
  }

  /** Between two claims of one id, that id sat abandoned in the pending slot
      and the claim of another record, unabandoned and blocking, displaced it. */
  lemma ClaimedAgain(policy: Policy, log: seq<Stored>, id: nat, i: nat, j: nat) returns (k: nat)
    requires OwnLog(policy, log) && i < j < |log|
    requires Is(log[i], Event.Claimed, id) && Is(log[j], Event.Claimed, id)
    ensures i < k < j && DisplacedAt(policy, log, id, k)
  {
    hide Apply, Legal;
    OwnPrefix(policy, log, i);
    OwnPrefix(policy, log, j);
    StepClaims(policy, At(policy, log, i), log[i].line);
    StepClaims(policy, At(policy, log, j), log[j].line);
    k := WaitsAgain(policy, log, id, i + 1, j);
  }

  /** An id that is allocated and held nowhere. */
  predicate Gone(folded: Folded, id: nat) {
    id < folded.nextId && id !in Ids(folded.waiting) && id !in PendingIds(folded)
  }

  lemma StepGone(policy: Policy, folded: Folded, line: Line, id: nat)
    requires WellHeld(folded) && Legal(policy, folded, line) && Gone(folded, id)
    ensures Gone(Apply(policy, folded, line), id)
  {
    StepEnters(policy, folded, line, id);
    if line.event == Some(Event.Claimed) {
      ClaimedWellHeld(policy, folded);
      assert line.record in folded.waiting;
    }
  }

  /** A record that has left the fold never comes back. */
  lemma {:induction false} GoneStays(policy: Policy, log: seq<Stored>, id: nat, i: nat, j: nat)
    requires OwnLog(policy, log) && i <= j <= |log| && Gone(At(policy, log, i), id)
    ensures Gone(At(policy, log, j), id)
    decreases j - i
  {
    hide Apply, Legal;
    if i < j {
      OwnPrefix(policy, log, i);
      StepGone(policy, At(policy, log, i), log[i].line, id);
      GoneStays(policy, log, id, i + 1, j);
    }
  }

  /** A record whose claim does not put it in the slot is gone: whatever is appended
      after, nothing claims it again — so where its claim is recorded and then fails,
      it is handed to nobody. */
  lemma ClaimedForGood(policy: Policy, log: seq<Stored>, i: nat, j: nat)
    requires OwnLog(policy, log) && i < j < |log| && log[i].line.event == Some(Event.Claimed)
    requires !TakesSlot(policy, At(policy, log, i), log[i].line.record)
    ensures !Is(log[j], Event.Claimed, log[i].line.record.id)
  {
    var id := log[i].line.record.id;
    OwnPrefix(policy, log, i);
    ClaimedWellHeld(policy, At(policy, log, i));
    StepClaims(policy, At(policy, log, i), log[i].line);
    hide OwnLog, Apply, Legal, At;
    GoneStays(policy, log, id, i + 1, j);
    if Is(log[j], Event.Claimed, id) {
      OwnPrefix(policy, log, j);
      StepClaims(policy, At(policy, log, j), log[j].line);
    }
  }

  /** A log holds at most one answer to each record. */
  lemma AnsweredOnce(policy: Policy, log: seq<Stored>, id: nat, i: nat, j: nat)
    requires OwnLog(policy, log) && i < |log| && j < |log|
    requires Is(log[i], Event.Answered, id) && Is(log[j], Event.Answered, id)
    ensures i == j
  {
    if i != j {
      var first, second := if i < j then i else j, if i < j then j else i;
      OwnPrefix(policy, log, first);
      OwnPrefix(policy, log, second);
      GoneStays(policy, log, id, first + 1, second);
    }
  }
}
