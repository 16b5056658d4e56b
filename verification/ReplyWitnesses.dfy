/** Runs of racing replies in which what a reply is told is not so, or what it answers
    is not what it was for. */
module ReplyWitnesses {
  import opened Json
  import opened Sequences
  import opened Wrappers
  import opened QueueModel
  import opened QueueHistory
  import opened QueueScans
  import opened Projections
  import opened ReplyRace
  import opened ReplyRefusals
  import Binds = BoundReplies

  const HOLDING := Policy(None, true, false, false)
  const FIRST := Record(0, true, false, None, Json.Null)
  const SECOND := Record(1, true, false, None, Json.Null)

  const FIRST_QUEUED := Stored(Line(Some(Event.Queued), FIRST), 10)
  const SECOND_QUEUED := Stored(Line(Some(Event.Queued), SECOND), 20)
  const FIRST_CLAIMED := Stored(Line(Some(Event.Claimed), FIRST), 30)
  const SECOND_CLAIMED := Stored(Line(Some(Event.Claimed), SECOND), 40)

  const ONE_QUEUED := [FIRST_QUEUED]
  const BOTH_QUEUED := ONE_QUEUED + [SECOND_QUEUED]
  const ONE_CLAIMED := BOTH_QUEUED + [FIRST_CLAIMED]
  const BOTH_CLAIMED := ONE_CLAIMED + [SECOND_CLAIMED]

  const RELEASED := ONE_CLAIMED + [Stored(Line(Some(Event.Answered), FIRST), 40)]

  lemma {:induction false} NothingReplaced(policy: Policy, waiting: seq<Record>, newer: Record)
    requires policy.supersedeOn.None?
    ensures Retain(policy, waiting, newer) == waiting
  {
    if waiting != [] {
      NothingReplaced(policy, waiting[..|waiting| - 1], newer);
    }
  }

  lemma OneMoreQueued(waiting: seq<Record>, record: Record)
    requires record.id < LAST_U64
    ensures var folded := Folded(waiting, None, record.id);
            var line := Line(Some(Event.Queued), record);
            && Derive(HOLDING, folded, Op.Push(record)) == [line]
            && QueueModel.Apply(HOLDING, folded, line) == Folded(waiting + [record], None, record.id + 1)
  {
    NothingReplaced(HOLDING, waiting, record);
    hide Retain;
  }

  lemma OldestClaimed(first: Record, rest: seq<Record>, pending: Option<Record>, nextId: u64)
    requires first.blocking && !first.abandoned && (pending.Some? ==> !pending.value.abandoned)
    ensures var folded := Folded([first] + rest, pending, nextId);
            var line := Line(Some(Event.Claimed), first);
            && Derive(HOLDING, folded, Op.Claim) == [line]
            && QueueModel.Apply(HOLDING, folded, line) == Folded(rest, Some(first), nextId)
  {
    var waiting := [first] + rest;
    assert waiting[0] == first;
    assert First(waiting, false) == 0 && IndexOf(waiting, first.id) == 0;
    assert RemoveAt(waiting, 0) == rest;
  }

  /** Two blocking records pushed, and both claimed. */
  lemma BothClaimed()
    ensures Fold(HOLDING, ONE_QUEUED) == Folded([FIRST], None, 1)
    ensures Fold(HOLDING, BOTH_QUEUED) == Folded([FIRST, SECOND], None, 2)
    ensures Fold(HOLDING, ONE_CLAIMED) == Folded([SECOND], Some(FIRST), 2)
    ensures Fold(HOLDING, BOTH_CLAIMED) == Folded([], Some(SECOND), 2)
  {
    hide FoldFrom, QueueModel.Apply, Derive;
    NothingFolded(HOLDING, EMPTY);
    FoldedOneMore(HOLDING, EMPTY, [], FIRST_QUEUED);
    FoldedOneMore(HOLDING, EMPTY, ONE_QUEUED, SECOND_QUEUED);
    FoldedOneMore(HOLDING, EMPTY, BOTH_QUEUED, FIRST_CLAIMED);
    FoldedOneMore(HOLDING, EMPTY, ONE_CLAIMED, SECOND_CLAIMED);
    assert [] + ONE_QUEUED == ONE_QUEUED && [] + [FIRST] == [FIRST];
    assert [FIRST] + [SECOND] == [FIRST, SECOND] && [SECOND] + [] == [SECOND];
    OneMoreQueued([], FIRST);
    OneMoreQueued([FIRST], SECOND);
    OldestClaimed(FIRST, [SECOND], None, 2);
    OldestClaimed(SECOND, [], Some(FIRST), 2);
  }

  lemma PositionOfFirst()
    ensures 0 in ClaimPositions(ONE_CLAIMED) && ClaimPositions(ONE_CLAIMED)[0] == 30
  {
    assert ONE_CLAIMED[3 - 1] == FIRST_CLAIMED;
  }

  /** Appending the one line an operation derives, or none where it derives none. */
  lemma DerivedAppends(log: seq<Stored>, op: Op, appended: seq<Stored>)
    requires |appended| <= 1 && !op.Mark?
    requires Derive(HOLDING, Fold(HOLDING, log), op) == if appended == [] then [] else [appended[0].line]
    requires Increasing(log + appended)
    ensures Appends(HOLDING, log, op, appended)
  {
    hide Fold, Derive, Increasing;
  }

  /** Another writer's step that appends the one line its operation derives. */
  lemma OtherAppends(log: seq<Stored>, calls: seq<Call>, op: Op, stored: Stored)
    requires Derive(HOLDING, Fold(HOLDING, log), op) == [stored.line] && !op.Mark?
    requires Increasing(log + [stored])
    ensures Next(HOLDING, World(log, calls), Other(op, [stored]), World(log + [stored], calls))
  {
    DerivedAppends(log, op, [stored]);
    hide Fold, Derive, Increasing, Appends;
  }

  lemma OneMoreIncreases(log: seq<Stored>, last: Stored)
    requires Increasing(log) && (log != [] ==> log[|log| - 1].after < last.after) && 0 < last.after <= LAST_U64
    ensures Increasing(log + [last])
  {
  }

  lemma PositionsIncrease()
    ensures Increasing(ONE_QUEUED) && Increasing(BOTH_QUEUED) && Increasing(ONE_CLAIMED) && Increasing(BOTH_CLAIMED)
  {
    OneMoreIncreases([], FIRST_QUEUED);
    assert [] + [FIRST_QUEUED] == ONE_QUEUED;
    OneMoreIncreases(ONE_QUEUED, SECOND_QUEUED);
    OneMoreIncreases(BOTH_QUEUED, FIRST_CLAIMED);
    OneMoreIncreases(ONE_CLAIMED, SECOND_CLAIMED);
    hide Increasing;
  }

  lemma WritersSteps(calls: seq<Call>)
    ensures Next(HOLDING, World([], calls), Other(Op.Push(FIRST), [FIRST_QUEUED]), World(ONE_QUEUED, calls))
    ensures Next(HOLDING, World(ONE_QUEUED, calls), Other(Op.Push(SECOND), [SECOND_QUEUED]), World(BOTH_QUEUED, calls))
    ensures Next(HOLDING, World(BOTH_QUEUED, calls), Other(Op.Claim, [FIRST_CLAIMED]), World(ONE_CLAIMED, calls))
    ensures Next(HOLDING, World(ONE_CLAIMED, calls), Other(Op.Claim, [SECOND_CLAIMED]), World(BOTH_CLAIMED, calls))
  {
    hide Next, FoldFrom, QueueModel.Apply, Derive, Increasing;
    BothClaimed();
    PositionsIncrease();
    NothingFolded(HOLDING, EMPTY);
    assert [] + ONE_QUEUED == ONE_QUEUED;
    assert [FIRST] + [SECOND] == [FIRST, SECOND] && [SECOND] + [] == [SECOND];
    OneMoreQueued([], FIRST);
    OneMoreQueued([FIRST], SECOND);
    OldestClaimed(FIRST, [SECOND], None, 2);
    OldestClaimed(SECOND, [], Some(FIRST), 2);
    OtherAppends([], calls, Op.Push(FIRST), FIRST_QUEUED);
    OtherAppends(ONE_QUEUED, calls, Op.Push(SECOND), SECOND_QUEUED);
    OtherAppends(BOTH_QUEUED, calls, Op.Claim, FIRST_CLAIMED);
    OtherAppends(ONE_CLAIMED, calls, Op.Claim, SECOND_CLAIMED);
  }

  /** One call, asking at the position the first record was claimed at. */
  function Asking(log: seq<Stored>, phase: Phase): World {
    World(log, [Call(30, phase)])
  }

  lemma CallsSteps()
    ensures Next(HOLDING, World(ONE_CLAIMED, []), Arrive(30), Asking(ONE_CLAIMED, Starting))
    ensures Next(HOLDING, Asking(ONE_CLAIMED, Starting), ReadSlot(0), Asking(ONE_CLAIMED, SawSlot(FIRST)))
    ensures Next(HOLDING, Asking(ONE_CLAIMED, SawSlot(FIRST)), ReadPosition(0), Asking(ONE_CLAIMED, Checked(FIRST)))
    ensures Next(HOLDING, Asking(BOTH_CLAIMED, Checked(FIRST)), AppendReply(0, true), Asking(BOTH_CLAIMED, Replied(FIRST)))
    ensures Next(HOLDING, Asking(BOTH_CLAIMED, Replied(FIRST)), Release(0, []), Asking(BOTH_CLAIMED, Done(AnsweredFirst)))
  {
    BothClaimed();
    PositionOfFirst();
    hide Fold, ClaimPositions;
    assert BOTH_CLAIMED + [] == BOTH_CLAIMED;
    assert [] + [Call(30, Starting)] == [Call(30, Starting)];
  }

  /** Nothing a run did is a reply's answer. */
  predicate NoReplyAnswers(steps: seq<Step>) {
    forall i :: 0 <= i < |steps| && IsReply(steps[i]) ==> steps[i].Release? && steps[i].appended == []
  }

  /** Where no reply ever answered, none was first. */
  lemma NobodyAnswered(policy: Policy, worlds: seq<World>, steps: seq<Step>, n: nat, call: nat, id: nat)
    requires Run(policy, worlds, steps) && n < |worlds| && NoReplyAnswers(steps)
    ensures !AnsweredByAnother(worlds, steps, n, call, id)
  {
    hide OwnLog;
    forall s: nat | s < n && IsReply(steps[s])
      ensures worlds[s + 1].log == worlds[s].log
    {
      assert Next(policy, worlds[s], steps[s], worlds[s + 1]);
    }
  }

  /** A reply told that another answered its record first, where nothing ever
      answered it: the record was claimed, the reply read its slot and its position,
      a second blocking record was claimed, and then the reply was appended and
      refused. */
  lemma RefusedByAClaim() returns (worlds: seq<World>, steps: seq<Step>)
    ensures Run(HOLDING, worlds, steps) && |steps| == 9
    ensures steps[8].Release? && worlds[9].calls == [Call(30, Done(AnsweredFirst))]
    ensures !AnsweredByAnother(worlds, steps, 8, 0, FIRST.id)
    ensures forall k | 0 <= k < |worlds[9].log| :: worlds[9].log[k].line.event != Some(Event.Answered)
  {
    hide Next;
    WritersSteps([]);
    WritersSteps([Call(30, Checked(FIRST))]);
    CallsSteps();
    worlds := [
      START, World(ONE_QUEUED, []), World(BOTH_QUEUED, []), World(ONE_CLAIMED, []),
      Asking(ONE_CLAIMED, Starting), Asking(ONE_CLAIMED, SawSlot(FIRST)), Asking(ONE_CLAIMED, Checked(FIRST)),
      Asking(BOTH_CLAIMED, Checked(FIRST)), Asking(BOTH_CLAIMED, Replied(FIRST)), Asking(BOTH_CLAIMED, Done(AnsweredFirst))];
    steps := [
      Other(Op.Push(FIRST), [FIRST_QUEUED]), Other(Op.Push(SECOND), [SECOND_QUEUED]), Other(Op.Claim, [FIRST_CLAIMED]),
      Arrive(30), ReadSlot(0), ReadPosition(0),
      Other(Op.Claim, [SECOND_CLAIMED]), AppendReply(0, true), Release(0, [])];
    NobodyAnswered(HOLDING, worlds, steps, 8, 0, FIRST.id);
  }

  /** Releasing whatever the slot holds, once the first record is claimed. */
  lemma ReleaseStep(calls: seq<Call>)
    ensures Fold(HOLDING, RELEASED) == Folded([SECOND], None, 2)
    ensures Next(HOLDING, World(ONE_CLAIMED, calls), Other(Op.AnswerPending, [RELEASED[3]]), World(RELEASED, calls))
  {
    hide FoldFrom, Increasing, Next;
    BothClaimed();
    PositionsIncrease();
    FoldedOneMore(HOLDING, EMPTY, ONE_CLAIMED, RELEASED[3]);
    OneMoreIncreases(ONE_CLAIMED, RELEASED[3]);
    OtherAppends(ONE_CLAIMED, calls, Op.AnswerPending, RELEASED[3]);
  }

  lemma RefusedSteps()
    ensures Next(HOLDING, Asking(RELEASED, Checked(FIRST)), AppendReply(0, true), Asking(RELEASED, Replied(FIRST)))
    ensures Next(HOLDING, Asking(RELEASED, Replied(FIRST)), Release(0, []), Asking(RELEASED, Done(AnsweredFirst)))
  {
    ReleaseStep([]);
    hide Fold, ClaimPositions;
    assert RELEASED + [] == RELEASED;
  }

  /** And another, where the slot was released with no reply at all. */
  lemma RefusedByARelease() returns (worlds: seq<World>, steps: seq<Step>)
    ensures Run(HOLDING, worlds, steps) && |steps| == 9
    ensures steps[8].Release? && worlds[9].calls == [Call(30, Done(AnsweredFirst))]
    ensures !AnsweredByAnother(worlds, steps, 8, 0, FIRST.id)
  {
    hide Next;
    WritersSteps([]);
    ReleaseStep([Call(30, Checked(FIRST))]);
    CallsSteps();
    RefusedSteps();
    worlds := [
      START, World(ONE_QUEUED, []), World(BOTH_QUEUED, []), World(ONE_CLAIMED, []),
      Asking(ONE_CLAIMED, Starting), Asking(ONE_CLAIMED, SawSlot(FIRST)), Asking(ONE_CLAIMED, Checked(FIRST)),
      Asking(RELEASED, Checked(FIRST)), Asking(RELEASED, Replied(FIRST)), Asking(RELEASED, Done(AnsweredFirst))];
    steps := [
      Other(Op.Push(FIRST), [FIRST_QUEUED]), Other(Op.Push(SECOND), [SECOND_QUEUED]), Other(Op.Claim, [FIRST_CLAIMED]),
      Arrive(30), ReadSlot(0), ReadPosition(0),
      Other(Op.AnswerPending, [RELEASED[3]]), AppendReply(0, true), Release(0, [])];
    NobodyAnswered(HOLDING, worlds, steps, 8, 0, FIRST.id);
  }

  lemma LateSteps()
    ensures Next(HOLDING, World(RELEASED, []), Arrive(30), Asking(RELEASED, Starting))
    ensures Next(HOLDING, Asking(RELEASED, Starting), ReadSlot(0), Asking(RELEASED, Missed))
    ensures Next(HOLDING, Asking(RELEASED, Missed), ReadAnswered(0), Asking(RELEASED, Late))
    ensures Next(HOLDING, Asking(RELEASED, Late), AppendReply(0, true), Asking(RELEASED, Done(AnsweredFirst)))
  {
    ReleaseStep([]);
    hide Fold, ClaimPositions;
    assert [] + [Call(30, Starting)] == [Call(30, Starting)];
    assert Is(RELEASED[3], Event.Answered, RELEASED[2].line.record.id);
    assert ClaimAnswered(RELEASED, 30);
  }

  /** And one that came after such a release. */
  lemma RefusedLate() returns (worlds: seq<World>, steps: seq<Step>)
    ensures Run(HOLDING, worlds, steps) && |steps| == 8
    ensures worlds[7].calls == [Call(30, Late)] && worlds[8].calls == [Call(30, Done(AnsweredFirst))]
    ensures !AnsweredByAnother(worlds, steps, 7, 0, FIRST.id)
  {
    hide Next;
    WritersSteps([]);
    ReleaseStep([]);
    LateSteps();
    worlds := [
      START, World(ONE_QUEUED, []), World(BOTH_QUEUED, []), World(ONE_CLAIMED, []), World(RELEASED, []),
      Asking(RELEASED, Starting), Asking(RELEASED, Missed), Asking(RELEASED, Late), Asking(RELEASED, Done(AnsweredFirst))];
    steps := [
      Other(Op.Push(FIRST), [FIRST_QUEUED]), Other(Op.Push(SECOND), [SECOND_QUEUED]), Other(Op.Claim, [FIRST_CLAIMED]),
      Other(Op.AnswerPending, [RELEASED[3]]), Arrive(30), ReadSlot(0), ReadAnswered(0), AppendReply(0, true)];
    NobodyAnswered(HOLDING, worlds, steps, 7, 0, FIRST.id);
  }

  // ----- an answer to a later claim -----

  const ABANDONED := FIRST.(abandoned := true)

  const THE_MARK := Stored(Line(Some(Event.Abandoned), ABANDONED), 40)
  const THE_DISPLACING := Stored(Line(Some(Event.Claimed), SECOND), 50)
  const THE_RELEASE := Stored(Line(Some(Event.Answered), SECOND), 60)
  const THE_CLAIM := Stored(Line(Some(Event.Claimed), ABANDONED), 70)
  const THE_ANSWER := Stored(Line(Some(Event.Answered), ABANDONED), 80)

  const MARKED := ONE_CLAIMED + [THE_MARK]
  const DISPLACED := MARKED + [THE_DISPLACING]
  const EMPTIED := DISPLACED + [THE_RELEASE]
  const CLAIMED_AGAIN := EMPTIED + [THE_CLAIM]
  const ANSWERED_AFTER := CLAIMED_AGAIN + [THE_ANSWER]

  /** The first record, held, is marked abandoned; the second's claim displaces it; the
      slot is released; and the first is claimed again. */
  lemma FirstClaimedAgain()
    ensures Fold(HOLDING, MARKED) == Folded([SECOND], Some(ABANDONED), 2)
    ensures Fold(HOLDING, DISPLACED) == Folded([ABANDONED], Some(SECOND), 2)
    ensures Fold(HOLDING, EMPTIED) == Folded([ABANDONED], None, 2)
    ensures Fold(HOLDING, CLAIMED_AGAIN) == Folded([], Some(ABANDONED), 2)
  {
    hide FoldFrom, QueueModel.Apply;
    BothClaimed();
    AgainApplied();
    FoldedOneMore(HOLDING, EMPTY, ONE_CLAIMED, THE_MARK);
    FoldedOneMore(HOLDING, EMPTY, MARKED, THE_DISPLACING);
    FoldedOneMore(HOLDING, EMPTY, DISPLACED, THE_RELEASE);
    FoldedOneMore(HOLDING, EMPTY, EMPTIED, THE_CLAIM);
  }

  lemma AgainApplied()
    ensures QueueModel.Apply(HOLDING, Folded([SECOND], Some(FIRST), 2), THE_MARK.line)
            == Folded([SECOND], Some(ABANDONED), 2)
    ensures QueueModel.Apply(HOLDING, Folded([SECOND], Some(ABANDONED), 2), THE_DISPLACING.line)
            == Folded([ABANDONED], Some(SECOND), 2)
    ensures QueueModel.Apply(HOLDING, Folded([ABANDONED], Some(SECOND), 2), THE_RELEASE.line)
            == Folded([ABANDONED], None, 2)
    ensures QueueModel.Apply(HOLDING, Folded([ABANDONED], None, 2), THE_CLAIM.line) == Folded([], Some(ABANDONED), 2)
  {
    assert FlagAll([SECOND], FIRST.id, true) == [SECOND];
    assert RemoveAt([SECOND], 0) == [] && RemoveAt([ABANDONED], 0) == [] && [] + [ABANDONED] == [ABANDONED];
  }

  lemma AgainDerived()
    ensures Derive(HOLDING, Folded([SECOND], Some(FIRST), 2), Op.Abandon({0})) == [THE_MARK.line]
    ensures Derive(HOLDING, Folded([SECOND], Some(ABANDONED), 2), Op.Claim) == [THE_DISPLACING.line]
    ensures Derive(HOLDING, Folded([ABANDONED], Some(SECOND), 2), Op.AnswerPending) == [THE_RELEASE.line]
    ensures Derive(HOLDING, Folded([ABANDONED], None, 2), Op.Claim) == [THE_CLAIM.line]
    ensures Derive(HOLDING, Folded([], Some(ABANDONED), 2), Op.Answer(0)) == [THE_ANSWER.line]
  {
    var held := QueueModel.Held(Folded([SECOND], Some(FIRST), 2));
    assert held == [SECOND, FIRST] && held[1..] == [FIRST] && held[1..][1..] == [];
    assert Marks([FIRST], StillAttended({0}), Event.Abandoned, true) == [THE_MARK.line];
  }

  lemma AgainSteps(calls: seq<Call>)
    ensures Next(HOLDING, World(ONE_CLAIMED, calls), Other(Op.Abandon({0}), [THE_MARK]), World(MARKED, calls))
    ensures Next(HOLDING, World(MARKED, calls), Other(Op.Claim, [THE_DISPLACING]), World(DISPLACED, calls))
    ensures Next(HOLDING, World(DISPLACED, calls), Other(Op.AnswerPending, [THE_RELEASE]), World(EMPTIED, calls))
    ensures Next(HOLDING, World(EMPTIED, calls), Other(Op.Claim, [THE_CLAIM]), World(CLAIMED_AGAIN, calls))
  {
    hide Next, Fold, Derive, QueueModel.Apply, Increasing;
    BothClaimed();
    FirstClaimedAgain();
    AgainDerived();
    PositionsStillIncrease();
    OtherAppends(ONE_CLAIMED, calls, Op.Abandon({0}), THE_MARK);
    OtherAppends(MARKED, calls, Op.Claim, THE_DISPLACING);
    OtherAppends(DISPLACED, calls, Op.AnswerPending, THE_RELEASE);
    OtherAppends(EMPTIED, calls, Op.Claim, THE_CLAIM);
  }

  lemma PositionsStillIncrease()
    ensures Increasing(MARKED) && Increasing(DISPLACED) && Increasing(EMPTIED)
    ensures Increasing(CLAIMED_AGAIN) && Increasing(ANSWERED_AFTER)
  {
    PositionsIncrease();
    OneMoreIncreases(ONE_CLAIMED, THE_MARK);
    OneMoreIncreases(MARKED, THE_DISPLACING);
    OneMoreIncreases(DISPLACED, THE_RELEASE);
    OneMoreIncreases(EMPTIED, THE_CLAIM);
    OneMoreIncreases(CLAIMED_AGAIN, THE_ANSWER);
    hide Increasing;
  }

  lemma AnswerSteps()
    ensures Next(HOLDING, Asking(CLAIMED_AGAIN, Checked(FIRST)), AppendReply(0, true), Asking(CLAIMED_AGAIN, Replied(FIRST)))
    ensures Next(HOLDING, Asking(CLAIMED_AGAIN, Replied(FIRST)), Release(0, [THE_ANSWER]),
                 Asking(ANSWERED_AFTER, Done(Outcome.Answered(7))))
  {
    hide Fold, Derive, Increasing, ClaimPositions;
    FirstClaimedAgain();
    AgainDerived();
    PositionsStillIncrease();
  }

  /** A reply that answers, though the claim it was for was displaced since: it was
      checked against the first claim of its record and answers the second. */
  lemma AnswersALaterClaim() returns (worlds: seq<World>, steps: seq<Step>)
    ensures Run(HOLDING, worlds, steps) && |steps| == 12 && steps[11].Release?
    ensures worlds[12].calls == [Call(30, Done(Outcome.Answered(7)))]
    ensures worlds[11].log == CLAIMED_AGAIN && CLAIMED_AGAIN[2] == FIRST_CLAIMED && FIRST_CLAIMED.after == 30
    ensures !HeldSince(HOLDING, CLAIMED_AGAIN, FIRST.id, 2)
  {
    hide Next;
    WritersSteps([]);
    CallsSteps();
    AgainSteps([Call(30, Checked(FIRST))]);
    AnswerSteps();
    worlds := [
      START, World(ONE_QUEUED, []), World(BOTH_QUEUED, []), World(ONE_CLAIMED, []),
      Asking(ONE_CLAIMED, Starting), Asking(ONE_CLAIMED, SawSlot(FIRST)), Asking(ONE_CLAIMED, Checked(FIRST)),
      Asking(MARKED, Checked(FIRST)), Asking(DISPLACED, Checked(FIRST)), Asking(EMPTIED, Checked(FIRST)),
      Asking(CLAIMED_AGAIN, Checked(FIRST)), Asking(CLAIMED_AGAIN, Replied(FIRST)),
      Asking(ANSWERED_AFTER, Done(Outcome.Answered(7)))];
    steps := [
      Other(Op.Push(FIRST), [FIRST_QUEUED]), Other(Op.Push(SECOND), [SECOND_QUEUED]), Other(Op.Claim, [FIRST_CLAIMED]),
      Arrive(30), ReadSlot(0), ReadPosition(0),
      Other(Op.Abandon({0}), [THE_MARK]), Other(Op.Claim, [THE_DISPLACING]), Other(Op.AnswerPending, [THE_RELEASE]),
      Other(Op.Claim, [THE_CLAIM]), AppendReply(0, true), Release(0, [THE_ANSWER])];
    NotHeldSince();
  }

  lemma NotHeldSince()
    ensures !HeldSince(HOLDING, CLAIMED_AGAIN, FIRST.id, 2)
  {
    FirstClaimedAgain();
    hide Fold;
    assert CLAIMED_AGAIN[..5] == DISPLACED;
    assert FIRST.id !in PendingIds(At(HOLDING, CLAIMED_AGAIN, 5));
  }

  /** Reading the slot when the first record is first claimed and the positions when it
      has been claimed again reports the second claim, not the one that filled the
      slot then read. */
  lemma PositionOfALaterClaim()
    ensures OwnLog(HOLDING, CLAIMED_AGAIN) && Increasing(CLAIMED_AGAIN)
    ensures HeldSince(HOLDING, CLAIMED_AGAIN[..3], FIRST.id, 2)
    ensures FIRST.id in ClaimPositions(CLAIMED_AGAIN)
    ensures ClaimPositions(CLAIMED_AGAIN)[FIRST.id] != CLAIMED_AGAIN[2].after
  {
    hide OwnLog, Increasing, Fold;
    ClaimedAgainIsOwn();
    PositionsStillIncrease();
    BothClaimed();
    assert CLAIMED_AGAIN[..3] == ONE_CLAIMED && ONE_CLAIMED[..3] == ONE_CLAIMED && ONE_CLAIMED[..2] == BOTH_QUEUED;
    assert CLAIMED_AGAIN[|CLAIMED_AGAIN| - 1] == THE_CLAIM;
  }

  lemma ClaimedAgainIsOwn()
    ensures OwnLog(HOLDING, CLAIMED_AGAIN)
  {
    hide Next, OwnLog, Fold, HeldSince;
    var worlds, steps := AnswersALaterClaim();
    EveryRunIsSound(HOLDING, worlds, steps, 11);
  }

  // ----- two replies bound to one question -----

  /** The first record carries a correlation, and no other does. */
  const NAMES: Binds.Names := (record: Record) => if record.id == 0 then Some("ask") else None
  const QUESTION := Binds.Question("ask", 0)

  function Two(log: seq<Stored>, echoed: seq<string>, first: Binds.Phase, second: Binds.Phase): Binds.World {
    Binds.World(log, echoed, [first, second])
  }

  const NAMED := Binds.Phase.Starting(Some("ask"))
  const HAS_READ := Binds.Read(Some("ask"), [])
  const BOUND := Binds.Bound(QUESTION)
  const LANDED := Binds.Landed(QUESTION)
  const FOUND := Binds.Found(QUESTION)
  const ANSWER := Stored(Line(Some(Event.Answered), FIRST), 40)

  lemma WriterBinds(log: seq<Stored>, op: Op, stored: Stored)
    requires Next(HOLDING, World(log, []), Other(op, [stored]), World(log + [stored], []))
    ensures Binds.Next(HOLDING, NAMES, Binds.World(log, [], []), Binds.Other(op, [stored]), Binds.World(log + [stored], [], []))
  {
    hide Appends;
  }

  lemma TheQuestion()
    ensures Binds.Binding(Some("ask"), Binds.Outstanding(Binds.Questions(NAMES, ONE_CLAIMED), [])) == Some(QUESTION)
  {
    assert ONE_CLAIMED[..2] == BOTH_QUEUED && BOTH_QUEUED[..1] == ONE_QUEUED && ONE_QUEUED[..0] == [];
    assert Binds.Questions(NAMES, []) == [];
    assert Binds.Questions(NAMES, ONE_QUEUED) == [QUESTION];
    assert Binds.Questions(NAMES, BOTH_QUEUED) == [QUESTION];
    assert Binds.Questions(NAMES, ONE_CLAIMED) == [QUESTION];
    assert [QUESTION][1..] == [] && Binds.Outstanding([], []) == [];
  }

  lemma BothBind()
    ensures Binds.Next(HOLDING, NAMES, Two(ONE_CLAIMED, [], HAS_READ, HAS_READ), Binds.Bind(0), Two(ONE_CLAIMED, [], BOUND, HAS_READ))
    ensures Binds.Next(HOLDING, NAMES, Two(ONE_CLAIMED, [], BOUND, HAS_READ), Binds.Bind(1), Two(ONE_CLAIMED, [], BOUND, BOUND))
  {
    TheQuestion();
    hide Binds.Questions, Binds.Outstanding, Binds.Binding;
  }

  lemma BothLand()
    ensures Binds.Next(HOLDING, NAMES, Two(ONE_CLAIMED, [], BOUND, BOUND), Binds.AppendReply(0, true),
                       Two(ONE_CLAIMED, ["ask"], LANDED, BOUND))
    ensures Binds.Next(HOLDING, NAMES, Two(ONE_CLAIMED, ["ask"], LANDED, BOUND), Binds.AppendReply(1, true),
                       Two(ONE_CLAIMED, ["ask", "ask"], LANDED, LANDED))
  {
    assert [] + ["ask"] == ["ask"] && ["ask"] + ["ask"] == ["ask", "ask"];
  }

  lemma BothFind(echoed: seq<string>)
    ensures Binds.Next(HOLDING, NAMES, Two(ONE_CLAIMED, echoed, LANDED, LANDED), Binds.ReadHeld(0),
                       Two(ONE_CLAIMED, echoed, FOUND, LANDED))
    ensures Binds.Next(HOLDING, NAMES, Two(ONE_CLAIMED, echoed, FOUND, LANDED), Binds.ReadHeld(1),
                       Two(ONE_CLAIMED, echoed, FOUND, FOUND))
  {
    BothClaimed();
    hide Fold;
  }

  lemma AnswersOnce()
    ensures Appends(HOLDING, ONE_CLAIMED, Op.Answer(0), [ANSWER]) && |Derive(HOLDING, Fold(HOLDING, ONE_CLAIMED), Op.Answer(0))| == 1
    ensures Appends(HOLDING, RELEASED, Op.Answer(0), []) && Derive(HOLDING, Fold(HOLDING, RELEASED), Op.Answer(0)) == []
  {
    hide Fold, Increasing, Appends;
    BothClaimed();
    ReleaseStep([]);
    PositionsIncrease();
    OneMoreIncreases(ONE_CLAIMED, ANSWER);
    assert RELEASED == ONE_CLAIMED + [ANSWER] && RELEASED + [] == RELEASED;
    DerivedAppends(ONE_CLAIMED, Op.Answer(0), [ANSWER]);
    DerivedAppends(RELEASED, Op.Answer(0), []);
  }

  lemma OneReleases(echoed: seq<string>)
    ensures Binds.Next(HOLDING, NAMES, Two(ONE_CLAIMED, echoed, FOUND, FOUND), Binds.Release(0, [ANSWER]),
                       Two(RELEASED, echoed, Binds.Reported(QUESTION, true, Some(3)), FOUND))
    ensures Binds.Next(HOLDING, NAMES, Two(RELEASED, echoed, Binds.Reported(QUESTION, true, Some(3)), FOUND),
                       Binds.Release(1, []),
                       Two(RELEASED, echoed, Binds.Reported(QUESTION, true, Some(3)), Binds.Reported(QUESTION, true, None)))
  {
    hide Fold, Derive, Appends;
    AnswersOnce();
    assert RELEASED + [] == RELEASED;
  }

  lemma BothArrive()
    ensures Binds.Next(HOLDING, NAMES, Binds.World(ONE_CLAIMED, [], []), Binds.Arrive(Some("ask")), Binds.World(ONE_CLAIMED, [], [NAMED]))
    ensures Binds.Next(HOLDING, NAMES, Binds.World(ONE_CLAIMED, [], [NAMED]), Binds.Arrive(Some("ask")), Two(ONE_CLAIMED, [], NAMED, NAMED))
    ensures Binds.Next(HOLDING, NAMES, Two(ONE_CLAIMED, [], NAMED, NAMED), Binds.ReadReplies(0), Two(ONE_CLAIMED, [], HAS_READ, NAMED))
    ensures Binds.Next(HOLDING, NAMES, Two(ONE_CLAIMED, [], HAS_READ, NAMED), Binds.ReadReplies(1), Two(ONE_CLAIMED, [], HAS_READ, HAS_READ))
  {
    assert [] + [NAMED] == [NAMED] && [NAMED] + [NAMED] == [NAMED, NAMED];
  }

  /** Two replies to one question, each bound before the other landed: both are told
      that theirs is on the answers queue, and one of them alone recorded its answer. */
  lemma BothReportAnswered() returns (worlds: seq<Binds.World>, steps: seq<Binds.Step>)
    ensures Binds.Run(HOLDING, NAMES, worlds, steps) && |steps| == 15
    ensures worlds[15].calls == [Binds.Reported(QUESTION, true, Some(3)), Binds.Reported(QUESTION, true, None)]
  {
    hide Next, Binds.Next;
    WritersSteps([]);
    assert [] + [FIRST_QUEUED] == ONE_QUEUED;
    WriterBinds([], Op.Push(FIRST), FIRST_QUEUED);
    WriterBinds(ONE_QUEUED, Op.Push(SECOND), SECOND_QUEUED);
    WriterBinds(BOTH_QUEUED, Op.Claim, FIRST_CLAIMED);
    BothArrive();
    BothBind();
    BothLand();
    var both := ["ask", "ask"];
    BothFind(both);
    OneReleases(both);
    worlds := [
      Binds.START, Binds.World(ONE_QUEUED, [], []), Binds.World(BOTH_QUEUED, [], []), Binds.World(ONE_CLAIMED, [], []),
      Binds.World(ONE_CLAIMED, [], [NAMED]), Two(ONE_CLAIMED, [], NAMED, NAMED),
      Two(ONE_CLAIMED, [], HAS_READ, NAMED), Two(ONE_CLAIMED, [], HAS_READ, HAS_READ),
      Two(ONE_CLAIMED, [], BOUND, HAS_READ), Two(ONE_CLAIMED, [], BOUND, BOUND),
      Two(ONE_CLAIMED, ["ask"], LANDED, BOUND), Two(ONE_CLAIMED, both, LANDED, LANDED),
      Two(ONE_CLAIMED, both, FOUND, LANDED), Two(ONE_CLAIMED, both, FOUND, FOUND),
      Two(RELEASED, both, Binds.Reported(QUESTION, true, Some(3)), FOUND),
      Two(RELEASED, both, Binds.Reported(QUESTION, true, Some(3)), Binds.Reported(QUESTION, true, None))];
    steps := [
      Binds.Other(Op.Push(FIRST), [FIRST_QUEUED]), Binds.Other(Op.Push(SECOND), [SECOND_QUEUED]),
      Binds.Other(Op.Claim, [FIRST_CLAIMED]), Binds.Arrive(Some("ask")), Binds.Arrive(Some("ask")),
      Binds.ReadReplies(0), Binds.ReadReplies(1), Binds.Bind(0), Binds.Bind(1),
      Binds.AppendReply(0, true), Binds.AppendReply(1, true), Binds.ReadHeld(0), Binds.ReadHeld(1),
      Binds.Release(0, [ANSWER]), Binds.Release(1, [])];
  }
}
