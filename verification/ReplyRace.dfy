/** Replies racing to answer one claimed record, each interleaved with the others
    and with everything else that happens to the queue at its reads, its append
    and its release. */
module ReplyRace {
  import opened Wrappers
  import opened QueueModel
  import opened QueueHistory
  import opened QueueScans
  import opened Projections

  datatype Outcome =
    /** The reply answered the record: its line in the log. */
    | Answered(line: nat)
    /** The reply was appended, and another answered first. */
    | AnsweredFirst
    /** Nothing is pending at the position, and nothing there was answered. */
    | NotPending
    /** The reply reached only other queues, and answers nothing. */
    | Unrouted

  /** How far one call has got. */
  datatype Phase =
    | Starting
    /** It read this record in the slot, and not yet where it was claimed. */
    | SawSlot(record: Record)
    /** The slot does not hold a record claimed where it asked. */
    | Missed
    /** The slot held this record, claimed where it asked. */
    | Checked(held: Record)
    /** The claim it asked for is already answered; its reply is still to append. */
    | Late
    /** Its reply is on the answers queue. */
    | Replied(held: Record)
    | Done(outcome: Outcome)

  datatype Call = Call(position: nat, phase: Phase)

  datatype World = World(log: seq<Stored>, calls: seq<Call>)

  const START := World([], [])

  datatype Step =
    /** Anything else a writer does, whole or cut short. */
    | Other(op: Op, appended: seq<Stored>)
    | Arrive(position: nat)
    | ReadSlot(call: nat)
    | ReadPosition(call: nat)
    | ReadAnswered(call: nat)
    | AppendReply(call: nat, landed: bool)
    | Release(call: nat, appended: seq<Stored>)

  function Moved(w: World, call: nat, phase: Phase): World
    requires call < |w.calls|
  {
    w.(calls := w.calls[call := w.calls[call].(phase := phase)])
  }

  ghost predicate Appends(policy: Policy, log: seq<Stored>, op: Op, appended: seq<Stored>) {
    var lines := Derive(policy, Fold(policy, log), op);
    && Runnable(Fold(policy, log), op)
    && |appended| <= |lines|
    && (forall i | 0 <= i < |appended| :: appended[i].line == lines[i])
    && Increasing(log + appended)
  }

  /** Whether the claim at `position` has been answered since. */
  ghost predicate ClaimAnswered(log: seq<Stored>, position: nat) {
    exists i, j :: 0 <= i < j < |log| && log[i].line.event == Some(Event.Claimed) && log[i].after == position
                   && Is(log[j], Event.Answered, log[i].line.record.id)
  }

  ghost predicate Next(policy: Policy, w: World, step: Step, w': World) {
    match step
    case Other(op, appended) => Appends(policy, w.log, op, appended) && w' == w.(log := w.log + appended)
    case Arrive(position) => w' == w.(calls := w.calls + [Call(position, Starting)])
    case ReadSlot(call) =>
      && call < |w.calls| && w.calls[call].phase.Starting?
      && var held := Fold(policy, w.log).pending;
         w' == Moved(w, call, if held.None? then Missed else SawSlot(held.value))
    case ReadPosition(call) =>
      && call < |w.calls| && w.calls[call].phase.SawSlot?
      && var record, positions := w.calls[call].phase.record, ClaimPositions(w.log);
         var at := if record.id in positions then positions[record.id] else 0;
         w' == Moved(w, call, if at == w.calls[call].position then Checked(record) else Missed)
    case ReadAnswered(call) =>
      && call < |w.calls| && w.calls[call].phase.Missed?
      && w' == Moved(w, call, if ClaimAnswered(w.log, w.calls[call].position) then Late else Done(NotPending))
    case AppendReply(call, landed) =>
      && call < |w.calls| && (w.calls[call].phase.Checked? || w.calls[call].phase.Late?)
      && w' == Moved(w, call,
                     if !landed then Done(Unrouted)
                     else if w.calls[call].phase.Late? then Done(AnsweredFirst)
                     else Replied(w.calls[call].phase.held))
    case Release(call, appended) =>
      && call < |w.calls| && w.calls[call].phase.Replied?
      && var op := Op.Answer(w.calls[call].phase.held.id);
         && Appends(policy, w.log, op, appended)
         && |appended| == |Derive(policy, Fold(policy, w.log), op)|
         && w' == Moved(w.(log := w.log + appended), call,
                        Done(if appended == [] then AnsweredFirst else Outcome.Answered(|w.log|)))
  }

  ghost predicate Run(policy: Policy, worlds: seq<World>, steps: seq<Step>) {
    && |worlds| == |steps| + 1
    && worlds[0] == START
    && forall i | 0 <= i < |steps| :: Next(policy, worlds[i], steps[i], worlds[i + 1])
  }

  /** The log has a claim of this id recorded at this position. */
  ghost predicate ClaimedThere(log: seq<Stored>, id: nat, position: nat) {
    exists i :: 0 <= i < |log| && Is(log[i], Event.Claimed, id) && log[i].after == position
  }

  /** What a call knows of the record it is answering is so. */
  ghost predicate CallSound(log: seq<Stored>, call: Call) {
    match call.phase
    case SawSlot(record) => record.id in ClaimPositions(log)
    case Checked(held) => ClaimedThere(log, held.id, call.position)
    case Replied(held) => ClaimedThere(log, held.id, call.position)
    case Late => ClaimAnswered(log, call.position)
    case Done(Answered(line)) =>
      && line < |log|
      && log[line].line.event == Some(Event.Answered)
      && ClaimedThere(log, log[line].line.record.id, call.position)
    case _ => true
  }

  predicate AnsweredAt(call: Call, line: nat) {
    call.phase == Done(Outcome.Answered(line))
  }

  ghost predicate Sound(policy: Policy, w: World) {
    && OwnLog(policy, w.log)
    && Increasing(w.log)
    && (forall i | 0 <= i < |w.calls| :: CallSound(w.log, w.calls[i]))
    && (forall i, j, line | 0 <= i < |w.calls| && 0 <= j < |w.calls|
            && AnsweredAt(w.calls[i], line) && AnsweredAt(w.calls[j], line) :: i == j)
  }

  lemma {:induction false} PositionsAreClaims(log: seq<Stored>, id: u64)
    requires id in ClaimPositions(log)
    ensures ClaimedThere(log, id, ClaimPositions(log)[id])
  {
    var n := |log| - 1;
    if Is(log[n], Event.Claimed, id) {
      assert ClaimedThere(log, id, log[n].after);
    } else {
      PositionsAreClaims(log[..n], id);
      var i :| 0 <= i < n && Is(log[..n][i], Event.Claimed, id) && log[..n][i].after == ClaimPositions(log)[id];
      assert Is(log[i], Event.Claimed, id);
    }
  }

  lemma {:induction false} PositionsStay(log: seq<Stored>, appended: seq<Stored>, id: u64)
    requires id in ClaimPositions(log)
    ensures id in ClaimPositions(log + appended)
  {
    if appended == [] {
      assert log + appended == log;
    } else {
      var n := |appended| - 1;
      assert (log + appended)[..|log| + n] == log + appended[..n];
      PositionsStay(log, appended[..n], id);
    }
  }

  lemma ClaimStaysAnswered(log: seq<Stored>, appended: seq<Stored>, position: nat)
    requires ClaimAnswered(log, position)
    ensures ClaimAnswered(log + appended, position)
  {
    var i, j :| 0 <= i < j < |log| && log[i].line.event == Some(Event.Claimed) && log[i].after == position
                && Is(log[j], Event.Answered, log[i].line.record.id);
    var longer := log + appended;
    assert longer[i] == log[i] && Is(longer[j], Event.Answered, longer[i].line.record.id);
  }

  lemma CallStaysSound(log: seq<Stored>, appended: seq<Stored>, call: Call)
    requires CallSound(log, call)
    ensures CallSound(log + appended, call)
  {
    if call.phase.SawSlot? {
      PositionsStay(log, appended, call.phase.record.id);
    }
    if call.phase.Late? {
      ClaimStaysAnswered(log, appended, call.position);
    }
    forall id | ClaimedThere(log, id, call.position)
      ensures ClaimedThere(log + appended, id, call.position)
    {
      var i :| 0 <= i < |log| && Is(log[i], Event.Claimed, id) && log[i].after == call.position;
      assert Is((log + appended)[i], Event.Claimed, id);
    }
  }

  lemma CallsStaySound(policy: Policy, w: World, appended: seq<Stored>)
    requires Sound(policy, w) && OwnLog(policy, w.log + appended) && Increasing(w.log + appended)
    ensures Sound(policy, w.(log := w.log + appended))
  {
    forall i | 0 <= i < |w.calls|
      ensures CallSound(w.log + appended, w.calls[i])
    {
      CallStaysSound(w.log, appended, w.calls[i]);
    }
  }

  /** What a release appends: the answer to its record, or nothing. */
  lemma AnswerAppends(policy: Policy, log: seq<Stored>, id: u64, appended: seq<Stored>)
    requires OwnLog(policy, log) && Appends(policy, log, Op.Answer(id), appended)
    ensures OwnLog(policy, log + appended) && Increasing(log + appended)
    ensures appended != [] ==> Is((log + appended)[|log|], Event.Answered, id)
  {
    OperationKeepsOwn(policy, log, Op.Answer(id), appended);
    hide OwnLog, Increasing, Fold;
  }

  lemma ReleaseKeepsSound(policy: Policy, w: World, step: Step, w': World)
    requires Sound(policy, w) && step.Release? && Next(policy, w, step, w')
    ensures Sound(policy, w')
  {
    hide OwnLog, Increasing, Fold, Derive, Appends;
    var call, appended := w.calls[step.call], step.appended;
    AnswerAppends(policy, w.log, call.phase.held.id, appended);
    CallsStaySound(policy, w, appended);
    if appended != [] {
      forall i | 0 <= i < |w.calls|
        ensures !AnsweredAt(w.calls[i], |w.log|)
      {
        assert CallSound(w.log, w.calls[i]);
      }
      CallStaysSound(w.log, appended, call);
    }
  }

  lemma ReadSlotKeepsSound(policy: Policy, w: World, step: Step, w': World)
    requires Sound(policy, w) && step.ReadSlot? && Next(policy, w, step, w')
    ensures Sound(policy, w')
  {
    hide OwnLog, Increasing, Fold, HeldSince;
    if Fold(policy, w.log).pending.Some? {
      var i := HeldPosition(policy, w.log);
    }
  }

  lemma ReadPositionKeepsSound(policy: Policy, w: World, step: Step, w': World)
    requires Sound(policy, w) && step.ReadPosition? && Next(policy, w, step, w')
    ensures Sound(policy, w')
  {
    hide OwnLog, Increasing, ClaimedThere, ClaimPositions;
    assert CallSound(w.log, w.calls[step.call]);
    PositionsAreClaims(w.log, w.calls[step.call].phase.record.id);
  }

  /** A step that only moves one call, and not to an answer of its own. */
  lemma OtherStepKeepsSound(policy: Policy, w: World, step: Step, w': World)
    requires Sound(policy, w) && Next(policy, w, step, w')
    requires step.Arrive? || step.ReadAnswered? || step.AppendReply?
    ensures Sound(policy, w')
  {
    hide OwnLog, Increasing, ClaimedThere, ClaimPositions;
    if step.AppendReply? {
      assert CallSound(w.log, w.calls[step.call]);
    }
  }

  lemma StepKeepsSound(policy: Policy, w: World, step: Step, w': World)
    requires Sound(policy, w) && Next(policy, w, step, w')
    ensures Sound(policy, w')
  {
    match step {
      case Other(op, appended) =>
        OperationKeepsOwn(policy, w.log, op, appended);
        CallsStaySound(policy, w, appended);
      case Release(_, _) =>
        hide Sound, Next;
        ReleaseKeepsSound(policy, w, step, w');
      case ReadSlot(_) =>
        hide Sound, Next;
        ReadSlotKeepsSound(policy, w, step, w');
      case ReadPosition(_) =>
        hide Sound, Next;
        ReadPositionKeepsSound(policy, w, step, w');
      case _ =>
        hide Sound, Next;
        OtherStepKeepsSound(policy, w, step, w');
    }
  }

  lemma {:induction false} EveryRunIsSound(policy: Policy, worlds: seq<World>, steps: seq<Step>, i: nat)
    requires Run(policy, worlds, steps) && i < |worlds|
    ensures Sound(policy, worlds[i])
  {
    hide Sound, Next;
    if i == 0 {
      StartIsSound(policy);
    } else {
      EveryRunIsSound(policy, worlds, steps, i - 1);
      StepKeepsSound(policy, worlds[i - 1], steps[i - 1], worlds[i]);
    }
  }

  lemma StartIsSound(policy: Policy)
    ensures Sound(policy, START)
  {
  }

  /** However many replies race for the record claimed at one position, the log
      holds at most one answer to it, and at most one of them answers. */
  lemma OneReplyAnswers(policy: Policy, worlds: seq<World>, steps: seq<Step>, i: nat)
    requires Run(policy, worlds, steps) && i < |worlds|
    ensures var w := worlds[i];
            && (forall id, j, k | 0 <= j < |w.log| && 0 <= k < |w.log|
                    && Is(w.log[j], Event.Answered, id) && Is(w.log[k], Event.Answered, id) :: j == k)
            && (forall a, b, line, line' | 0 <= a < |w.calls| && 0 <= b < |w.calls|
                    && w.calls[a].position == w.calls[b].position
                    && AnsweredAt(w.calls[a], line) && AnsweredAt(w.calls[b], line') :: a == b)
  {
    EveryRunIsSound(policy, worlds, steps, i);
    var w := worlds[i];
    forall id, j, k | 0 <= j < |w.log| && 0 <= k < |w.log|
        && Is(w.log[j], Event.Answered, id) && Is(w.log[k], Event.Answered, id)
      ensures j == k
    {
      AnsweredOnce(policy, w.log, id, j, k);
    }
    forall a, b, line, line' | 0 <= a < |w.calls| && 0 <= b < |w.calls|
        && w.calls[a].position == w.calls[b].position
        && AnsweredAt(w.calls[a], line) && AnsweredAt(w.calls[b], line')
      ensures a == b
    {
      SameClaim(policy, w, a, b, line, line');
    }
  }

  lemma SameClaim(policy: Policy, w: World, a: nat, b: nat, line: nat, line': nat)
    requires Sound(policy, w) && a < |w.calls| && b < |w.calls|
    requires w.calls[a].position == w.calls[b].position
    requires AnsweredAt(w.calls[a], line) && AnsweredAt(w.calls[b], line')
    ensures a == b
  {
    assert CallSound(w.log, w.calls[a]) && CallSound(w.log, w.calls[b]);
    var id, id', position := w.log[line].line.record.id, w.log[line'].line.record.id, w.calls[a].position;
    var i :| 0 <= i < |w.log| && Is(w.log[i], Event.Claimed, id) && w.log[i].after == position;
    var j :| 0 <= j < |w.log| && Is(w.log[j], Event.Claimed, id') && w.log[j].after == position;
    assert i == j && id == id';
    AnsweredOnce(policy, w.log, id, line, line');
  }

  /** The line that takes `id` out of the slot. */
  ghost predicate LeavesAt(policy: Policy, log: seq<Stored>, id: nat, m: nat) {
    m < |log| && id in PendingIds(At(policy, log, m)) && id !in PendingIds(At(policy, log, m + 1))
  }

  /** A reply that finds the slot no longer holding its record lost it, last, to
      that record's answer — or to the claim of another blocking one. */
  lemma {:induction false} SlotLost(policy: Policy, log: seq<Stored>, id: nat, i: nat, j: nat) returns (m: nat)
    requires OwnLog(policy, log) && i <= j <= |log|
    requires id in PendingIds(At(policy, log, i)) && id !in PendingIds(At(policy, log, j))
    ensures i <= m < j && LeavesAt(policy, log, id, m)
    ensures forall k | m < k <= j :: id !in PendingIds(At(policy, log, k))
    ensures || Is(log[m], Event.Answered, id)
            || (&& log[m].line.event == Some(Event.Claimed) && log[m].line.record.id != id
                && log[m].line.record.blocking && !log[m].line.record.abandoned)
    decreases j
  {
    hide Apply, Legal, OwnLog, At;
    if id in PendingIds(At(policy, log, j - 1)) {
      m := j - 1;
      OwnPrefix(policy, log, m);
      StepLosesSlot(policy, At(policy, log, m), log[m].line, id);
    } else {
      m := SlotLost(policy, log, id, i, j - 1);
    }
  }

  lemma StepLosesSlot(policy: Policy, folded: Folded, line: Line, id: nat)
    requires WellHeld(folded) && Legal(policy, folded, line)
    requires id in PendingIds(folded) && id !in PendingIds(Apply(policy, folded, line))
    ensures || (line.event == Some(Event.Answered) && line.record.id == id)
            || (&& line.event == Some(Event.Claimed) && line.record.id != id
                && line.record.blocking && !line.record.abandoned)
  {
    if line.event == Some(Event.Claimed) {
      ClaimedWellHeld(policy, folded);
      assert line.record.id in Ids(folded.waiting);
    }
  }
}
