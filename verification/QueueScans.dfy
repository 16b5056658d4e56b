/** What is read off a whole log rather than off its fold, and that the two
    agree. */
module QueueScans {
  import opened Wrappers
  import opened QueueModel
  import opened Sequences
  import opened QueueHistory

  /** The record as the log queued it: the first line that queues this id. */
  function QueuedRecord(log: seq<Stored>, id: nat): (r: Option<Record>)
    ensures r.Some? ==> r.value.id == id
  {
    if log == [] then None
    else
      var earlier := QueuedRecord(log[..|log| - 1], id);
      var line := log[|log| - 1].line;
      if earlier.Some? then earlier
      else if line.record.id == id && (line.event.None? || line.event == Some(Event.Queued)) then Some(line.record)
      else None
  }

  /** Whether the record stands abandoned: its latest mark decides, and before
      any, how it was queued. */
  function MarkedAbandoned(log: seq<Stored>, id: nat): bool {
    if log == [] then false
    else
      var line := log[|log| - 1].line;
      if line.record.id != id then MarkedAbandoned(log[..|log| - 1], id)
      else match line.event
        case None => line.record.abandoned
        case Some(Queued) => line.record.abandoned
        case Some(Abandoned) => true
        case Some(Attended) => false
        case Some(_) => MarkedAbandoned(log[..|log| - 1], id)
  }

  /** Where each record's latest claim is. */
  function ClaimPositions(log: seq<Stored>): map<u64, nat> {
    if log == [] then map[]
    else
      var last := log[|log| - 1];
      var earlier := ClaimPositions(log[..|log| - 1]);
      if last.line.event == Some(Event.Claimed) then earlier[last.line.record.id := last.after] else earlier
  }

  /** Every record the fold holds is as the log queued it, but for whether it is
      abandoned — and that is what the log's latest mark says. */
  ghost predicate Agrees(log: seq<Stored>, r: Record) {
    && QueuedRecord(log, r.id).Some?
    && r == QueuedRecord(log, r.id).value.(abandoned := r.abandoned)
    && r.abandoned == MarkedAbandoned(log, r.id)
  }

  ghost predicate HeldAgree(log: seq<Stored>, folded: Folded) {
    && (forall r | r in folded.waiting :: Agrees(log, r))
    && (folded.pending.Some? ==> Agrees(log, folded.pending.value))
  }

  /** No log line queues an id the log has not allocated. */
  lemma {:induction false} UnallocatedUnqueued(policy: Policy, log: seq<Stored>, id: nat)
    requires OwnLog(policy, log) && id >= Fold(policy, log).nextId
    ensures QueuedRecord(log, id).None?
  {
    hide Apply;
    if log != [] {
      var n := |log| - 1;
      OwnPrefix(policy, log, n);
      assert log[..n + 1] == log;
      NextIdGrows(policy, Fold(policy, log[..n]), log[n].line);
      UnallocatedUnqueued(policy, log[..n], id);
    }
  }

  lemma NextIdGrows(policy: Policy, folded: Folded, line: Line)
    requires WellHeld(folded) && Legal(policy, folded, line)
    ensures folded.nextId <= Apply(policy, folded, line).nextId
    ensures line.event == Some(Event.Queued) ==> line.record.id < Apply(policy, folded, line).nextId
  {
    if line.event == Some(Event.Claimed) {
      ClaimedWellHeld(policy, folded);
    }
  }

  /** Whatever the line, a record it is not about still agrees, and so does one
      it only claims. */
  lemma AgreementCarries(log: seq<Stored>, stored: Stored, r: Record)
    requires Agrees(log, r)
    requires stored.line.event.Some?
    requires stored.line.record.id == r.id ==> stored.line.event.value in {Event.Claimed, Event.Answered}
    ensures Agrees(log + [stored], r)
  {
    assert (log + [stored])[..|log|] == log;
  }

  lemma FlagAgrees(log: seq<Stored>, stored: Stored, r: Record)
    requires Agrees(log, r)
    requires stored.line.event in {Some(Event.Abandoned), Some(Event.Attended)}
    ensures Agrees(log + [stored], Flag(r, stored.line.record.id, stored.line.event == Some(Event.Abandoned)))
  {
    assert (log + [stored])[..|log|] == log;
  }

  lemma QueuedAgrees(policy: Policy, log: seq<Stored>, stored: Stored)
    requires OwnLog(policy, log) && stored.line.event == Some(Event.Queued)
    requires Legal(policy, Fold(policy, log), stored.line)
    ensures Agrees(log + [stored], stored.line.record)
  {
    assert (log + [stored])[..|log|] == log;
    UnallocatedUnqueued(policy, log, stored.line.record.id);
  }

  /** A line that marks none of the held records leaves them agreeing. */
  lemma UnmarkedAgree(log: seq<Stored>, folded: Folded, stored: Stored)
    requires HeldAgree(log, folded) && stored.line.event.Some?
    requires stored.line.event.value in {Event.Claimed, Event.Answered}
             || stored.line.record.id !in Ids(folded.waiting) + PendingIds(folded)
    ensures HeldAgree(log + [stored], folded)
  {
    forall r | r in folded.waiting || folded.pending == Some(r)
      ensures Agrees(log + [stored], r)
    {
      assert r.id in Ids(folded.waiting) + PendingIds(folded);
      AgreementCarries(log, stored, r);
    }
  }

  lemma QueuedStepAgrees(policy: Policy, log: seq<Stored>, stored: Stored)
    requires OwnLog(policy, log) && HeldAgree(log, Fold(policy, log))
    requires stored.line.event == Some(Event.Queued) && Legal(policy, Fold(policy, log), stored.line)
    ensures HeldAgree(log + [stored], ApplyQueued(policy, Fold(policy, log), stored.line.record))
  {
    OwnWellHeld(policy, log);
    QueuedAgrees(policy, log, stored);
    UnmarkedAgree(log, Fold(policy, log), stored);
  }

  lemma ClaimedStepAgrees(policy: Policy, log: seq<Stored>, stored: Stored)
    requires OwnLog(policy, log) && HeldAgree(log, Fold(policy, log))
    requires stored.line.event == Some(Event.Claimed) && Legal(policy, Fold(policy, log), stored.line)
    ensures HeldAgree(log + [stored], ApplyClaimed(policy, Fold(policy, log), stored.line.record.id))
  {
    var folded := Fold(policy, log);
    OwnWellHeld(policy, log);
    ClaimedWellHeld(policy, folded);
    UnmarkedAgree(log, folded, stored);
    var rest := RemoveAt(folded.waiting, Pick(policy, folded.waiting));
    assert forall r | r in rest :: r in folded.waiting;
  }

  lemma FlagStepAgrees(log: seq<Stored>, folded: Folded, stored: Stored, abandoned: bool)
    requires HeldAgree(log, folded)
    requires stored.line.event == Some(if abandoned then Event.Abandoned else Event.Attended)
    ensures HeldAgree(log + [stored], ApplyFlag(folded, stored.line.record.id, abandoned))
  {
    forall r | r in folded.waiting || folded.pending == Some(r)
      ensures Agrees(log + [stored], Flag(r, stored.line.record.id, abandoned))
    {
      FlagAgrees(log, stored, r);
    }
  }

  lemma StepAgrees(policy: Policy, log: seq<Stored>, stored: Stored)
    requires OwnLog(policy, log) && HeldAgree(log, Fold(policy, log))
    requires Legal(policy, Fold(policy, log), stored.line)
    ensures HeldAgree(log + [stored], Apply(policy, Fold(policy, log), stored.line))
  {
    match stored.line.event.value {
      case Queued => QueuedStepAgrees(policy, log, stored);
      case Claimed => ClaimedStepAgrees(policy, log, stored);
      case Answered => UnmarkedAgree(log, Fold(policy, log), stored);
      case Abandoned => FlagStepAgrees(log, Fold(policy, log), stored, true);
      case Attended => FlagStepAgrees(log, Fold(policy, log), stored, false);
    }
  }

  /** For every record the fold holds, the scan of the whole log for its latest
      mark and the fold's flag agree, and so do the record and its first line. */
  lemma {:induction false} FoldAgreesWithScan(policy: Policy, log: seq<Stored>)
    requires OwnLog(policy, log)
    ensures HeldAgree(log, Fold(policy, log))
  {
    hide Apply;
    if log != [] {
      var n := |log| - 1;
      FoldAgreesWithScan(policy, log[..n]);
      StepAgrees(policy, log[..n], log[n]);
      assert log[..n] + [log[n]] == log;
    }
  }

  /** The claim that put the pending record in its slot: it came in at `i` and
      has been there since. */
  ghost predicate HeldSince(policy: Policy, log: seq<Stored>, id: nat, i: nat) {
    && i < |log|
    && Is(log[i], Event.Claimed, id)
    && id !in PendingIds(At(policy, log, i))
    && forall k | i < k <= |log| :: id in PendingIds(At(policy, log, k))
  }

  /** What a line does to the slot: an id comes into it only by its own claim,
      and no id in it is claimed. */
  lemma StepSlot(policy: Policy, folded: Folded, line: Line, id: nat)
    requires WellHeld(folded) && Legal(policy, folded, line)
    requires id in PendingIds(Apply(policy, folded, line))
    ensures if id in PendingIds(folded) then line.event == Some(Event.Claimed) ==> line.record.id != id
            else line.event == Some(Event.Claimed) && line.record.id == id
  {
    if line.event == Some(Event.Claimed) {
      ClaimedWellHeld(policy, folded);
      assert line.record.id in Ids(folded.waiting);
    }
  }

  lemma HeldSinceGrows(policy: Policy, log: seq<Stored>, id: nat, i: nat)
    requires log != [] && HeldSince(policy, log[..|log| - 1], id, i)
    requires id in PendingIds(Fold(policy, log))
    ensures HeldSince(policy, log, id, i)
  {
    hide Apply;
    var n := |log| - 1;
    assert log[..n][..i] == log[..i];
    forall k | i < k <= |log|
      ensures id in PendingIds(At(policy, log, k))
    {
      if k < |log| {
        assert log[..n][..k] == log[..k];
        assert id in PendingIds(At(policy, log[..n], k));
      } else {
        assert log[..k] == log;
      }
    }
  }

  /** The position reported for the pending record is that of the very claim
      that put it in the slot. */
  lemma {:induction false} HeldPosition(policy: Policy, log: seq<Stored>) returns (i: nat)
    requires OwnLog(policy, log) && Fold(policy, log).pending.Some?
    ensures var id := Fold(policy, log).pending.value.id;
            && HeldSince(policy, log, id, i)
            && id in ClaimPositions(log)
            && ClaimPositions(log)[id] == log[i].after
  {
    hide Apply;
    var n := |log| - 1;
    var id := Fold(policy, log).pending.value.id;
    OwnWellHeld(policy, log[..n]);
    StepSlot(policy, Fold(policy, log[..n]), log[n].line, id);
    if id in PendingIds(Fold(policy, log[..n])) {
      i := HeldPosition(policy, log[..n]);
      HeldSinceGrows(policy, log, id, i);
    } else {
      i := n;
      assert log[..n + 1] == log;
    }
  }

  /** A record no line marks abandoned stands attended throughout. */
  ghost predicate NeverAbandoned(log: seq<Stored>, id: nat) {
    forall i | 0 <= i < |log| && log[i].line.record.id == id ::
      log[i].line.event != Some(Event.Abandoned)
      && (log[i].line.event == Some(Event.Queued) || log[i].line.event.None? ==> !log[i].line.record.abandoned)
  }

  lemma {:induction false} NeverMarked(log: seq<Stored>, id: nat)
    requires NeverAbandoned(log, id)
    ensures !MarkedAbandoned(log, id)
  {
    if log != [] {
      var n := |log| - 1;
      assert forall i | 0 <= i < n :: log[..n][i] == log[i];
      NeverMarked(log[..n], id);
    }
  }

  predicate Queues(line: Line, id: nat) {
    line.record.id == id && (line.event.None? || line.event == Some(Event.Queued))
  }

  lemma {:induction false} QueuedIsFound(log: seq<Stored>, id: nat, i: nat)
    requires i < |log| && Queues(log[i].line, id)
    ensures QueuedRecord(log, id).Some?
  {
    var n := |log| - 1;
    if i < n {
      QueuedIsFound(log[..n], id, i);
    }
  }

  /** A log its own writers wrote queues an id at most once. */
  lemma QueuedOnce(policy: Policy, log: seq<Stored>, id: nat, i: nat, j: nat)
    requires OwnLog(policy, log) && i < |log| && j < |log|
    requires Queues(log[i].line, id) && Queues(log[j].line, id)
    ensures i == j
  {
    hide Apply;
    if i != j {
      var first, second := if i < j then i else j, if i < j then j else i;
      OwnPrefix(policy, log, second);
      QueuedIsFound(log[..second], id, first);
      UnallocatedUnqueued(policy, log[..second], id);
    }
  }

  /** No line marks the record, either way. */
  ghost predicate Unmarked(log: seq<Stored>, id: nat) {
    forall i | 0 <= i < |log| && log[i].line.record.id == id ::
      log[i].line.event != Some(Event.Abandoned) && log[i].line.event != Some(Event.Attended)
  }

  /** A record never marked stands as it was queued: it is abandoned exactly when
      it was queued with the flag set. */
  lemma {:induction false} UnmarkedStandsAsQueued(policy: Policy, log: seq<Stored>, id: nat)
    requires OwnLog(policy, log) && Unmarked(log, id)
    ensures MarkedAbandoned(log, id) <==> QueuedRecord(log, id).Some? && QueuedRecord(log, id).value.abandoned
  {
    hide Apply;
    if log != [] {
      var n := |log| - 1;
      assert forall i | 0 <= i < n :: log[..n][i] == log[i];
      UnmarkedStandsAsQueued(policy, log[..n], id);
      if Queues(log[n].line, id) {
        OwnPrefix(policy, log, n);
        UnallocatedUnqueued(policy, log[..n], id);
      }
    }
  }

  /** And there is such a record: the first one, pushed with its flag set. */
  lemma AbandonedThoughUnmarked(policy: Policy, pushed: Record, after: nat)
    requires pushed.id == 0 && pushed.abandoned
    ensures var log := [Stored(Line(Some(Event.Queued), pushed), after)];
            OwnLog(policy, log) && Unmarked(log, 0) && MarkedAbandoned(log, 0)
  {
    var log := [Stored(Line(Some(Event.Queued), pushed), after)];
    assert log[..0] == [];
    assert Derive(policy, EMPTY, Op.Push(pushed)) == [log[0].line];
  }

  /** Where an id's latest claim is. */
  lemma {:induction false} LatestClaim(log: seq<Stored>, id: u64) returns (i: nat)
    requires id in ClaimPositions(log)
    ensures i < |log| && Is(log[i], Event.Claimed, id) && ClaimPositions(log)[id] == log[i].after
    ensures forall k | i < k < |log| :: !Is(log[k], Event.Claimed, id)
  {
    var n := |log| - 1;
    if Is(log[n], Event.Claimed, id) {
      i := n;
    } else {
      i := LatestClaim(log[..n], id);
    }
  }

  lemma {:induction false} ClaimHasPosition(log: seq<Stored>, id: u64, i: nat)
    requires i < |log| && Is(log[i], Event.Claimed, id)
    ensures id in ClaimPositions(log)
  {
    var n := |log| - 1;
    if i < n {
      ClaimHasPosition(log[..n], id, i);
    }
  }

  /** With no pending slot, or for a record never abandoned, there is at most one
      claim of an id in the whole log. */
  lemma ClaimedOnce(policy: Policy, log: seq<Stored>, id: nat, i: nat, j: nat)
    requires OwnLog(policy, log) && i < |log| && j < |log|
    requires Is(log[i], Event.Claimed, id) && Is(log[j], Event.Claimed, id)
    requires !policy.holdPending || NeverAbandoned(log, id)
    ensures i == j
  {
    if i != j {
      var k := ClaimedAgain(policy, log, id, if i < j then i else j, if i < j then j else i);
      OwnPrefix(policy, log, k);
      FoldAgreesWithScan(policy, log[..k]);
      assert forall m | 0 <= m < k :: log[..k][m] == log[m];
      if NeverAbandoned(log, id) {
        NeverMarked(log[..k], id);
      }
    }
  }
}
