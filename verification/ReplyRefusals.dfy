/** When a reply that is told another answered first is told the truth, and when a
    reply that answers answers the very claim it was for. */
module ReplyRefusals {
  import opened Wrappers
  import opened QueueModel
  import opened QueueHistory
  import opened QueueScans
  import opened Projections
  import opened ReplyRace

  // ----- what a call read, and when -----

  predicate HasRead(phase: Phase) {
    phase.SawSlot? || phase.Checked? || phase.Replied?
  }

  function WhatItRead(phase: Phase): Record
    requires HasRead(phase)
  {
    match phase
    case SawSlot(record) => record
    case Checked(held) => held
    case Replied(held) => held
  }

  /** The step at which a call read the slot, the record it has gone on with there. */
  lemma {:induction false} SlotWasRead(policy: Policy, worlds: seq<World>, steps: seq<Step>, n: nat, call: nat)
    returns (q: nat)
    requires Run(policy, worlds, steps) && n < |worlds| && call < |worlds[n].calls|
    requires HasRead(worlds[n].calls[call].phase)
    ensures q < n && steps[q] == ReadSlot(call)
    ensures Fold(policy, worlds[q].log).pending == Some(WhatItRead(worlds[n].calls[call].phase))
    ensures worlds[q].log <= worlds[n].log
  {
    hide Fold, Appends, ClaimPositions, ClaimAnswered;
    var w, step := worlds[n - 1], steps[n - 1];
    assert Next(policy, w, step, worlds[n]);
    if step != ReadSlot(call) {
      q := SlotWasRead(policy, worlds, steps, n - 1, call);
    } else {
      q := n - 1;
    }
  }

  // ----- leaving the slot -----

  ghost predicate Answered(log: seq<Stored>, id: nat) {
    exists k :: 0 <= k < |log| && Is(log[k], Event.Answered, id)
  }

  /** An answer takes its record out of the slot for good, and finds it there. */
  lemma AnswerIsADeparture(policy: Policy, log: seq<Stored>, id: nat, k: nat)
    requires OwnLog(policy, log) && k < |log| && Is(log[k], Event.Answered, id)
    ensures LeavesAt(policy, log, id, k) && Gone(At(policy, log, k + 1), id)
  {
    hide OwnLog;
    OwnPrefix(policy, log, k);
  }

  /** A record out of the slot was answered exactly where the last line to take it
      out was not a claim. */
  lemma AnsweredExactlyUnlessDisplacedLast(policy: Policy, log: seq<Stored>, id: nat, m: nat)
    requires OwnLog(policy, log) && LeavesAt(policy, log, id, m)
    requires forall k | m < k <= |log| :: id !in PendingIds(At(policy, log, k))
    ensures Answered(log, id) <==> log[m].line.event != Some(Event.Claimed)
    ensures !Answered(log, id) ==>
              log[m].line.record.id != id && log[m].line.record.blocking && !log[m].line.record.abandoned
  {
    hide OwnLog, At, QueueModel.Apply, Legal;
    OwnPrefix(policy, log, m);
    StepLosesSlot(policy, At(policy, log, m), log[m].line, id);
    if log[m].line.event != Some(Event.Claimed) {
      assert Is(log[m], Event.Answered, id);
    }
    if Answered(log, id) {
      var k :| 0 <= k < |log| && Is(log[k], Event.Answered, id);
      AnswerIsADeparture(policy, log, id, k);
      if k < m {
        GoneStays(policy, log, id, k + 1, m);
      }
      assert k == m;
    }
  }

  // ----- what a run's steps recorded -----

  lemma {:induction false} LogGrows(policy: Policy, worlds: seq<World>, steps: seq<Step>, i: nat, n: nat)
    requires Run(policy, worlds, steps) && i <= n < |worlds|
    ensures worlds[i].log <= worlds[n].log
    decreases n - i
  {
    if i < n {
      LogGrows(policy, worlds, steps, i, n - 1);
      assert Next(policy, worlds[n - 1], steps[n - 1], worlds[n]);
    }
  }

  /** The line was recorded by this step. */
  predicate RecordedAt(worlds: seq<World>, s: nat, m: nat) {
    s + 1 < |worlds| && |worlds[s].log| <= m < |worlds[s + 1].log|
  }

  /** The step that recorded a line: one alone. */
  lemma {:induction false} RecordedBy(policy: Policy, worlds: seq<World>, steps: seq<Step>, n: nat, m: nat) returns (s: nat)
    requires Run(policy, worlds, steps) && n < |worlds| && m < |worlds[n].log|
    ensures s < n && RecordedAt(worlds, s, m) && worlds[s + 1].log[m] == worlds[n].log[m]
  {
    if m < |worlds[n - 1].log| {
      s := RecordedBy(policy, worlds, steps, n - 1, m);
    } else {
      s := n - 1;
    }
    LogGrows(policy, worlds, steps, s + 1, n);
  }

  lemma RecordedOnce(policy: Policy, worlds: seq<World>, steps: seq<Step>, s: nat, s': nat, m: nat)
    requires Run(policy, worlds, steps) && RecordedAt(worlds, s, m) && RecordedAt(worlds, s', m)
    ensures s == s'
  {
    if s < s' {
      LogGrows(policy, worlds, steps, s + 1, s');
    } else if s' < s {
      LogGrows(policy, worlds, steps, s' + 1, s);
    }
  }

  /** A step by which a reply answers: the release of one in the race, or an answer
      made with a reply on the answers queue otherwise. */
  predicate IsReply(step: Step) {
    step.Release? || (step.Other? && step.op.Answer?)
  }

  /** Which steps record an answer, and which a claim. */
  lemma RecordsWhat(policy: Policy, w: World, step: Step, w': World, m: nat)
    requires Next(policy, w, step, w') && |w.log| <= m < |w'.log|
    ensures IsReply(step) ==> w'.log[m].line.event == Some(Event.Answered)
    ensures w'.log[m].line.event == Some(Event.Answered) ==> IsReply(step) || (step.Other? && step.op.AnswerPending?)
    ensures w'.log[m].line.event == Some(Event.Claimed) ==> step.Other? && step.op.Claim?
  {
    hide Fold, Increasing, OwnLog, Retain, Pick;
    var lines := Derive(policy, Fold(policy, w.log), if step.Other? then step.op else Op.Answer(w.calls[step.call].phase.held.id));
    assert w'.log[m] == step.appended[m - |w.log|];
    assert w'.log[m].line in lines;
  }

  /** A call that has released its reply is done for good. */
  lemma {:induction false} ReleasedIsDone(policy: Policy, worlds: seq<World>, steps: seq<Step>, s: nat, n: nat)
    requires Run(policy, worlds, steps) && s < n < |worlds| && steps[s].Release?
    ensures steps[s].call < |worlds[n].calls| && worlds[n].calls[steps[s].call].phase.Done?
    decreases n - s
  {
    hide Fold, Appends, ClaimPositions, ClaimAnswered;
    if s + 1 < n {
      ReleasedIsDone(policy, worlds, steps, s, n - 1);
    }
    assert Next(policy, worlds[n - 1], steps[n - 1], worlds[n]);
  }

  // ----- a refused reply -----

  /** Some other reply than `call`'s had answered the record by this point of a run. */
  ghost predicate AnsweredByAnother(worlds: seq<World>, steps: seq<Step>, n: nat, call: nat, id: nat)
    requires |worlds| == |steps| + 1 && n < |worlds|
  {
    exists s: nat, m: nat :: 0 <= s < n && RecordedAt(worlds, s, m) && Is(worlds[s + 1].log[m], Event.Answered, id)
                   && IsReply(steps[s]) && !(steps[s].Release? && steps[s].call == call)
  }

  /** Of a record answered by one line, another reply answered it exactly where the
      step that recorded that line is a reply. */
  lemma AnsweredByThatStep(policy: Policy, worlds: seq<World>, steps: seq<Step>, n: nat, call: nat, m: nat, s: nat)
    requires Run(policy, worlds, steps) && n < |worlds|
    requires call < |worlds[n].calls| && !worlds[n].calls[call].phase.Done?
    requires s < n && RecordedAt(worlds, s, m) && worlds[s + 1].log[m].line.event == Some(Event.Answered)
    ensures AnsweredByAnother(worlds, steps, n, call, worlds[s + 1].log[m].line.record.id) <==> IsReply(steps[s])
  {
    hide Next, OwnLog, Increasing, IsReply;
    var id := worlds[s + 1].log[m].line.record.id;
    if steps[s].Release? {
      ReleasedIsDone(policy, worlds, steps, s, n);
    }
    if AnsweredByAnother(worlds, steps, n, call, id) {
      var s': nat, m': nat :| 0 <= s' < n && RecordedAt(worlds, s', m') && Is(worlds[s' + 1].log[m'], Event.Answered, id)
                    && IsReply(steps[s']);
      LogGrows(policy, worlds, steps, s + 1, n);
      LogGrows(policy, worlds, steps, s' + 1, n);
      EveryRunIsSound(policy, worlds, steps, n);
      AnsweredOnce(policy, worlds[n].log, id, m, m');
      RecordedOnce(policy, worlds, steps, s, s', m);
    }
  }

  /** A reply refused at its release, in any run, is told the truth — that another
      reply answered the record first — exactly when the step that last took the
      record out of the slot since this reply read it is a reply; otherwise it is the
      claim of another record, or a release of whatever the slot held. */
  lemma RefusalIsTrueExactly(policy: Policy, worlds: seq<World>, steps: seq<Step>, r: nat) returns (q: nat, m: nat, s: nat)
    requires Run(policy, worlds, steps) && r < |steps| && steps[r].Release? && steps[r].appended == []
    ensures var call := steps[r].call;
            && worlds[r + 1].calls[call].phase == Done(AnsweredFirst)
            && q <= s < r && steps[q] == ReadSlot(call)
    ensures var log := worlds[r].log;
            var id := WhatItRead(worlds[r].calls[steps[r].call].phase).id;
            && RecordedAt(worlds, s, m) && m < |log| && LeavesAt(policy, log, id, m)
            && (forall k | m < k <= |log| :: id !in PendingIds(At(policy, log, k)))
            && (AnsweredByAnother(worlds, steps, r, steps[r].call, id) <==> IsReply(steps[s]))
            && (!IsReply(steps[s]) ==>
                  && steps[s].Other?
                  && (steps[s].op.AnswerPending? || (steps[s].op.Claim? && log[m].line.record.id != id)))
  {
    var call := steps[r].call;
    assert Next(policy, worlds[r], steps[r], worlds[r + 1]);
    ReleaseFindsItGone(policy, worlds[r], steps[r], worlds[r + 1]);
    hide Next, Fold, OwnLog, IsReply;
    EveryRunIsSound(policy, worlds, steps, r);
    q := SlotWasRead(policy, worlds, steps, r, call);
    var log, id := worlds[r].log, WhatItRead(worlds[r].calls[call].phase).id;
    assert log[..|worlds[q].log|] == worlds[q].log && log[..|log|] == log;
    m := SlotLost(policy, log, id, |worlds[q].log|, |log|);
    s := RecordedBy(policy, worlds, steps, r, m);
    if s < q {
      LogGrows(policy, worlds, steps, s + 1, q);
    }
    DepartureTold(policy, worlds, steps, r, call, id, m, s);
  }

  /** What the step that took a record out of the slot for the last time says of
      whether another reply answered it. */
  lemma DepartureTold(policy: Policy, worlds: seq<World>, steps: seq<Step>, r: nat, call: nat, id: nat, m: nat, s: nat)
    requires Run(policy, worlds, steps) && r < |worlds|
    requires call < |worlds[r].calls| && !worlds[r].calls[call].phase.Done?
    requires s < r && RecordedAt(worlds, s, m) && m < |worlds[r].log| && worlds[s + 1].log[m] == worlds[r].log[m]
    requires LeavesAt(policy, worlds[r].log, id, m)
    requires forall k | m < k <= |worlds[r].log| :: id !in PendingIds(At(policy, worlds[r].log, k))
    ensures AnsweredByAnother(worlds, steps, r, call, id) <==> IsReply(steps[s])
    ensures !IsReply(steps[s]) ==>
              && steps[s].Other?
              && (steps[s].op.AnswerPending? || (steps[s].op.Claim? && worlds[r].log[m].line.record.id != id))
  {
    hide Fold, OwnLog, QueueModel.Apply, Legal, At;
    var log := worlds[r].log;
    EveryRunIsSound(policy, worlds, steps, r);
    assert Next(policy, worlds[s], steps[s], worlds[s + 1]);
    hide Next;
    RecordsWhat(policy, worlds[s], steps[s], worlds[s + 1], m);
    OwnPrefix(policy, log, m);
    StepLosesSlot(policy, At(policy, log, m), log[m].line, id);
    if Is(log[m], Event.Answered, id) {
      AnsweredByThatStep(policy, worlds, steps, r, call, m, s);
    } else {
      AnsweredExactlyUnlessDisplacedLast(policy, log, id, m);
      if AnsweredByAnother(worlds, steps, r, call, id) {
        AnotherIsInTheLog(policy, worlds, steps, r, call, id);
      }
    }
  }

  lemma AnotherIsInTheLog(policy: Policy, worlds: seq<World>, steps: seq<Step>, n: nat, call: nat, id: nat)
    requires Run(policy, worlds, steps) && n < |worlds| && AnsweredByAnother(worlds, steps, n, call, id)
    ensures Answered(worlds[n].log, id)
  {
    hide Next;
    var s: nat, m: nat :| 0 <= s < n && RecordedAt(worlds, s, m) && Is(worlds[s + 1].log[m], Event.Answered, id)
                && IsReply(steps[s]);
    LogGrows(policy, worlds, steps, s + 1, n);
    assert Is(worlds[n].log[m], Event.Answered, id);
  }

  lemma ReleaseFindsItGone(policy: Policy, w: World, step: Step, w': World)
    requires step.Release? && step.appended == [] && Next(policy, w, step, w')
    ensures step.call < |w.calls| && w.calls[step.call].phase.Replied?
    ensures w.calls[step.call].phase.held.id !in PendingIds(Fold(policy, w.log))
    ensures step.call < |w'.calls| && w'.calls[step.call].phase == Done(AnsweredFirst)
  {
    hide Fold, Increasing;
  }

  /** A reply refused because the claim it asks for is answered already, in any run, is
      told the truth exactly when the step that recorded that answer is a reply, and not
      a release of whatever the slot held. */
  lemma LateRefusalIsTrueExactly(policy: Policy, worlds: seq<World>, steps: seq<Step>, r: nat)
    returns (i: nat, m: nat, s: nat)
    requires Run(policy, worlds, steps) && r < |steps| && steps[r].AppendReply? && steps[r].landed
    requires steps[r].call < |worlds[r].calls| && worlds[r].calls[steps[r].call].phase.Late?
    ensures steps[r].call < |worlds[r + 1].calls| && worlds[r + 1].calls[steps[r].call].phase == Done(AnsweredFirst)
    ensures var log, call := worlds[r].log, worlds[r].calls[steps[r].call];
            && i < m < |log| && log[i].line.event == Some(Event.Claimed) && log[i].after == call.position
            && Is(log[m], Event.Answered, log[i].line.record.id)
            && s < r && RecordedAt(worlds, s, m)
            && (AnsweredByAnother(worlds, steps, r, steps[r].call, log[i].line.record.id) <==> IsReply(steps[s]))
            && (!IsReply(steps[s]) ==> steps[s].Other? && steps[s].op.AnswerPending?)
  {
    assert Next(policy, worlds[r], steps[r], worlds[r + 1]);
    hide OwnLog, Increasing, IsReply;
    EveryRunIsSound(policy, worlds, steps, r);
    var log, call := worlds[r].log, worlds[r].calls[steps[r].call];
    assert CallSound(log, call);
    i, m :| 0 <= i < m < |log| && log[i].line.event == Some(Event.Claimed) && log[i].after == call.position
            && Is(log[m], Event.Answered, log[i].line.record.id);
    s := RecordedBy(policy, worlds, steps, r, m);
    assert Next(policy, worlds[s], steps[s], worlds[s + 1]);
    hide Next;
    RecordsWhat(policy, worlds[s], steps[s], worlds[s + 1], m);
    AnsweredByThatStep(policy, worlds, steps, r, steps[r].call, m, s);
  }

  // ----- which claim an answer answers -----

  lemma DisplacedLeaves(policy: Policy, log: seq<Stored>, id: nat, k: nat)
    requires OwnLog(policy, log) && DisplacedAt(policy, log, id, k)
    ensures id !in PendingIds(At(policy, log, k + 1))
  {
    hide OwnLog;
    OwnPrefix(policy, log, k);
    ClaimedWellHeld(policy, At(policy, log, k));
  }

  /** The record claimed at `i` and now in the slot has been there since exactly
      when nothing displaced it since; and otherwise a later claim put it there. */
  lemma HeldSinceUnlessDisplaced(policy: Policy, log: seq<Stored>, id: nat, i: nat)
    requires OwnLog(policy, log) && i < |log| && Is(log[i], Event.Claimed, id)
    requires id in PendingIds(Fold(policy, log))
    ensures HeldSince(policy, log, id, i) <==> forall k | i < k < |log| :: !DisplacedAt(policy, log, id, k)
  {
    hide OwnLog, Fold, QueueModel.Apply, Legal;
    assert log[..|log|] == log;
    var j := HeldPosition(policy, log);
    if j < i {
      OwnPrefix(policy, log, i);
      StepSlot(policy, At(policy, log, i), log[i].line, id);
    } else if i < j {
      var k := ClaimedAgain(policy, log, id, i, j);
    }
    forall k | i < k < |log| && DisplacedAt(policy, log, id, k)
      ensures !HeldSince(policy, log, id, i)
    {
      DisplacedLeaves(policy, log, id, k);
    }
  }

  /** A reply that answers, in any run, answers the very claim it was for exactly
      when that claim's record has not been displaced from the slot since. */
  lemma AnswersItsOwnClaimExactly(policy: Policy, worlds: seq<World>, steps: seq<Step>, r: nat) returns (i: nat)
    requires Run(policy, worlds, steps) && r < |steps| && steps[r].Release? && steps[r].appended != []
    ensures steps[r].call < |worlds[r].calls| && steps[r].call < |worlds[r + 1].calls|
    ensures var w, call := worlds[r], worlds[r].calls[steps[r].call];
            && call.phase.Replied?
            && i < |w.log| && Is(w.log[i], Event.Claimed, call.phase.held.id) && w.log[i].after == call.position
            && worlds[r + 1].calls[steps[r].call].phase == Done(Outcome.Answered(|w.log|))
            && (HeldSince(policy, w.log, call.phase.held.id, i)
                <==> forall k | i < k < |w.log| :: !DisplacedAt(policy, w.log, call.phase.held.id, k))
  {
    var w, step := worlds[r], steps[r];
    assert Next(policy, w, step, worlds[r + 1]);
    ReleaseFindsItHeld(policy, w, step, worlds[r + 1]);
    hide Next, OwnLog, Fold, Increasing, HeldSince, DisplacedAt;
    EveryRunIsSound(policy, worlds, steps, r);
    var call := w.calls[step.call];
    assert CallSound(w.log, call);
    var id := call.phase.held.id;
    i :| 0 <= i < |w.log| && Is(w.log[i], Event.Claimed, id) && w.log[i].after == call.position;
    HeldSinceUnlessDisplaced(policy, w.log, id, i);
  }

  lemma ReleaseFindsItHeld(policy: Policy, w: World, step: Step, w': World)
    requires step.Release? && step.appended != [] && Next(policy, w, step, w')
    ensures step.call < |w.calls| && w.calls[step.call].phase.Replied?
    ensures w.calls[step.call].phase.held.id in PendingIds(Fold(policy, w.log))
    ensures step.call < |w'.calls| && w'.calls[step.call].phase == Done(Outcome.Answered(|w.log|))
  {
    hide Fold, Increasing;
  }
}
