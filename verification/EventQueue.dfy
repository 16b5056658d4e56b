/** An event queue as its callers use it: over a log and a projection document it
    updates in place. */
module EventQueues {
  import opened Wrappers
  import opened QueueModel
  import opened QueueHistory
  import opened QueueScans
  import opened Sequences
  import opened Projections

  /** The claims a section folds lines into, in place. */
  class Working {
    var waiting: seq<Record>
    var pending: Option<Record>
    var nextId: u64

    function View(): Folded
      reads this
    {
      Folded(waiting, pending, nextId)
    }

    constructor (claims: Folded)
      ensures View() == claims
    {
      waiting, pending, nextId := claims.waiting, claims.pending, claims.nextId;
    }

    /** Fold one line in. */
    method Apply(policy: Policy, line: Line)
      modifies this
      ensures View() == QueueModel.Apply(policy, old(View()), line)
    {
      var id := line.record.id;
      match EventOf(View(), line) {
        case Queued =>
          if id == LAST_U64 {
            return;
          }
          waiting := Retain(policy, waiting, line.record) + [line.record];
          if nextId <= id {
            nextId := id + 1;
          }
        case Claimed =>
          var at := IndexOf(waiting, id);
          if at == |waiting| {
            return;
          }
          var taken := waiting[at];
          waiting := RemoveAt(waiting, at);
          if policy.holdPending && taken.blocking && (!taken.abandoned || pending.None?) {
            var displaced := pending;
            pending := Some(taken);
            if displaced.Some? && displaced.value.abandoned {
              waiting := waiting + [displaced.value];
            }
          }
        case Answered =>
          if pending.Some? && pending.value.id == id {
            pending := None;
          }
        case Abandoned => MarkHeld(id, true);
        case Attended => MarkHeld(id, false);
      }
    }

    /** Mark every held record with this id. */
    method MarkHeld(id: u64, abandoned: bool)
      modifies this
      ensures View() == ApplyFlag(old(View()), id, abandoned)
    {
      var at := 0;
      while at < |waiting|
        invariant at <= |waiting| == |old(waiting)|
        invariant pending == old(pending) && nextId == old(nextId)
        invariant forall i | 0 <= i < |waiting| ::
                    waiting[i] == if i < at then Flag(old(waiting)[i], id, abandoned) else old(waiting)[i]
      {
        if waiting[at].id == id {
          waiting := waiting[at := waiting[at].(abandoned := abandoned)];
        }
        at := at + 1;
      }
      if pending.Some? && pending.value.id == id {
        pending := Some(pending.value.(abandoned := abandoned));
      }
      assert waiting == FlagAll(old(waiting), id, abandoned);
    }
  }

  datatype Error =
    /** The last id there is has been allocated. */
    | NoIdLeft
    /** No record on the answers queue ends at the position given. */
    | NoReply
    /** The transport could not append. */
    | AppendFailed
    /** The transport could not write the projection, the appends being done. */
    | ProjectionFailed
    /** The exclusive section failed: it never ran its body, or could not be ended
        once it had. */
    | SectionFailed

  /** How the transport's exclusive section goes for a call: whether its body is run,
      whether the projection can be written in it, and whether it ends well. */
  datatype Section = Section(runs: bool, writes: bool, ends: bool)

  /** How a call whose section's body ends with `body` fails: the section's own failure
      is told before the body's. */
  function Ends(section: Section, body: Option<Error>): Option<Error> {
    if !section.runs || !section.ends then Some(SectionFailed) else body
  }

  function FailureOf<T>(result: Result<T, Error>): Option<Error> {
    if result.Failure? then Some(result.error) else None
  }

  /** A read of the slot followed by a read of the positions reports the claim that
      put the record in the slot exactly when nothing claimed it in between. */
  lemma PositionReadLater(policy: Policy, log: seq<Stored>, n: nat, id: nat, i: nat)
    requires OwnLog(policy, log) && Increasing(log) && n <= |log| && HeldSince(policy, log[..n], id, i)
    ensures id in ClaimPositions(log)
    ensures ClaimPositions(log)[id] == log[i].after <==> forall k | n <= k < |log| :: !Is(log[k], Event.Claimed, id)
  {
    hide OwnLog, QueueModel.Apply, Legal;
    assert log[..n][i] == log[i];
    ClaimHasPosition(log, id, i);
    var j := LatestClaim(log, id);
    assert j >= i;
    if i < j < n {
      OwnPrefix(policy, log, j);
      assert log[..n][..j] == log[..j] && log[..n][..j + 1] == log[..j + 1];
      assert id in PendingIds(QueueHistory.At(policy, log[..n], j)) && id in PendingIds(QueueHistory.At(policy, log[..n], j + 1));
      StepSlot(policy, QueueHistory.At(policy, log, j), log[j].line, id);
    }
  }

  /** A record with the position its line was recorded at. */
  datatype At = At(record: Record, position: nat)

  class EventQueue {
    const spec: Spec
    /** How many bytes a line takes, its newline aside. */
    const size: Line -> nat
    /** Which appends the transport fails, whatever for. */
    const fails: (seq<Stored>, Line) -> bool
    var log: seq<Stored>
    var document: Option<Projection>

    ghost predicate Valid()
      reads this
    {
      && OwnLog(spec.policy, log)
      && Increasing(log)
      && Trustworthy(spec, document, log)
    }

    /** What the queue stands at: its whole log folded. */
    ghost function Claimable(): Folded
      reads this
    {
      Fold(spec.policy, log)
    }

    constructor (spec: Spec, size: Line -> nat, fails: (seq<Stored>, Line) -> bool)
      ensures Valid() && log == [] && document == None && this.spec == spec
    {
      this.spec, this.size, this.fails, log, document := spec, size, fails, [], None;
    }

    /** Whether the transport takes a line after what is logged. */
    predicate Takes(logged: seq<Stored>, line: Line) {
      !fails(logged, line) && End(logged) + size(line) < LAST_U64
    }

    /** The claims `start` with every line of the batch folded in; those about
        records below the floor, where there is one, passed over. */
    method CatchUp(start: Folded, floor: Option<nat>, batch: seq<Stored>) returns (claims: Folded)
      ensures claims == match floor
                        case None => FoldFrom(spec.policy, start, batch)
                        case Some(below) => FoldAbove(spec.policy, start, below, batch)
    {
      hide QueueModel.Apply;
      var working := new Working(start);
      for i := 0 to |batch|
        invariant floor.None? ==> working.View() == FoldFrom(spec.policy, start, batch[..i])
        invariant floor.Some? ==> working.View() == FoldAbove(spec.policy, start, floor.value, batch[..i])
      {
        assert batch[..i + 1][..i] == batch[..i];
        if floor.None? || batch[i].line.record.id >= floor.value {
          working.Apply(spec.policy, batch[i].line);
        }
      }
      assert batch[..|batch|] == batch;
      claims := working.View();
    }

    /** The projection brought up to date with every line the log has grown by,
        and whether anything was folded. */
    method Current() returns (claims: Folded, accounted: nat, foldedAny: bool)
      requires Valid()
      ensures claims == Fold(spec.policy, log) && accounted == End(log)
      ensures !foldedAny && log != [] ==> Checkpoint(spec, document) == Some(Stamp(spec, claims, accounted))
    {
      hide QueueModel.Apply, Legal, OwnLog, Trustworthy;
      ClaimsAreTheFold(spec, document, log);
      var checkpoint := Checkpoint(spec, document);
      var floor: Option<nat>, start, from := None, EMPTY, 0;
      foldedAny := false;
      if checkpoint.Some? {
        start := checkpoint.value.claims;
        if checkpoint.value.accounted.Some? {
          from := checkpoint.value.accounted.value;
        } else {
          floor, foldedAny := Some(start.nextId), true;
        }
      }
      var at := StartAfter(log, from);
      if at.None? {
        start, from, foldedAny, at := EMPTY, 0, true, Some(0);
      }
      var batch := log[at.value..];
      claims := CatchUp(start, floor, batch);
      foldedAny := foldedAny || batch != [];
      accounted := if batch == [] then from else batch[|batch| - 1].after;
    }

    /** The queue as it stands, its projection repaired where the log had grown
        past it. A repair that cannot be written costs only the next reader. */
    method Snapshot(writable: bool) returns (claims: Folded)
      requires Valid()
      modifies this`document
      ensures Valid() && claims == Claimable()
      ensures writable && spec.policy.projection && log != [] ==>
                Checkpoint(spec, document) == Some(Stamp(spec, claims, End(log)))
      ensures !writable || !spec.policy.projection ==> document == old(document)
    {
      var accounted, foldedAny;
      claims, accounted, foldedAny := Current();
      if foldedAny && spec.policy.projection && writable {
        WholeIsFaithful(spec, log);
        document := Some(Stamp(spec, claims, accounted));
      }
    }

    /** Append one line, as the transport does: where it fails, or the line would
        end past the last position there is, nothing is appended. */
    method Append(line: Line) returns (position: Option<nat>)
      requires Increasing(log)
      modifies this`log
      ensures Increasing(log)
      ensures position == if Takes(old(log), line) then Some(old(End(log)) + size(line) + 1) else None
      ensures log == old(log) + if position.Some? then [Stored(line, position.value)] else []
    {
      var end := if log == [] then 0 else log[|log| - 1].after;
      var after := end + size(line) + 1;
      if fails(log, line) || after > LAST_U64 {
        return None;
      }
      log := log + [Stored(line, after)];
      position := Some(after);
    }

    /** Append what the operation decides, under the queue's section. A transport that
        fails part of the way leaves the lines it took and the old projection; a
        section that cannot be ended leaves all that was written. */
    method Record(op: Op, section: Section) returns (recorded: seq<Stored>, failure: Option<Error>)
      requires Valid() && Runnable(Claimable(), op)
      modifies this
      ensures Valid() && log == old(log) + recorded
      ensures Records(old(log), op, section, recorded, failure)
      ensures failure == Some(SectionFailed) <==> !section.runs || !section.ends
      ensures var lines := Derive(spec.policy, old(Claimable()), op);
              && (log == old(log) <==> !section.runs || lines == [] || !Takes(old(log), lines[0]))
              && document == if section.runs && BodyFailure(old(log), op, section, recorded).None? && spec.policy.projection
                             then Some(Stamp(spec, Claimable(), End(log))) else old(document)
    {
      hide QueueModel.Apply, Derive, Legal, OwnLog, Takes, Fold, BodyFailure, Increasing, Trustworthy;
      if !section.runs {
        assert log + [] == log;
        return [], Some(SectionFailed);
      }
      var body;
      recorded, body := RecordInside(op, section);
      failure := Ends(section, body);
      assert old(log) + [] == old(log);
    }

    /** What runs inside the section: append what the operation decides, fold each line
        in, and write the projection as it then stands. */
    method RecordInside(op: Op, section: Section) returns (recorded: seq<Stored>, failure: Option<Error>)
      requires Valid() && Runnable(Claimable(), op)
      modifies this
      ensures Valid() && log == old(log) + recorded
      ensures AppendsOf(old(log), op, recorded)
      ensures failure == BodyFailure(old(log), op, section, recorded) && failure != Some(SectionFailed)
      ensures document == if failure.None? && spec.policy.projection then Some(Stamp(spec, Claimable(), End(log)))
                          else old(document)
    {
      hide QueueModel.Apply, Derive, Legal, OwnLog, Takes, Fold, FoldFrom, Trustworthy, Stamp, AppendsOf, Increasing;
      var claims, accounted, _ := Current();
      var lines := Derive(spec.policy, claims, op);
      recorded := [];
      if Refuses(claims, op) {
        RefusesDerivesNone(claims, op);
        assert log + recorded == log;
        Appended(log, op, recorded);
        return recorded, Some(NoIdLeft);
      }
      var working := new Working(claims);
      recorded := AppendAll(lines, working);
      MutationKeepsValid(old(log), op, recorded);
      Appended(old(log), op, recorded);
      FoldOfConcat(spec.policy, old(log), recorded);
      failure := if |recorded| < |lines| then Some(AppendFailed) else None;
      if failure.None? && spec.policy.projection {
        if section.writes {
          StampIsTrustworthy();
          document := Some(Stamp(spec, working.View(), End(log)));
        } else {
          failure := Some(ProjectionFailed);
        }
      }
    }

    lemma Appended(before: seq<Stored>, op: Op, recorded: seq<Stored>)
      requires var lines := Derive(spec.policy, Fold(spec.policy, before), op);
               && |recorded| <= |lines| && (forall i | 0 <= i < |recorded| :: recorded[i].line == lines[i])
               && (recorded != [] ==> Takes(before, lines[0]) && recorded[0].after == End(before) + size(lines[0]) + 1)
               && (|recorded| < |lines| ==> !Takes(before + recorded, lines[|recorded|]))
      ensures AppendsOf(before, op, recorded)
    {
    }

    lemma StampIsTrustworthy()
      requires Increasing(log)
      ensures End(log) <= LAST_U64 && Trustworthy(spec, Some(Stamp(spec, Claimable(), End(log))), log)
    {
      WholeIsFaithful(spec, log);
    }

    lemma RefusesDerivesNone(folded: Folded, op: Op)
      requires Refuses(folded, op)
      ensures Derive(spec.policy, folded, op) == []
    {
    }

    /** What a section's body that recorded these lines fails with. */
    ghost function BodyFailure(before: seq<Stored>, op: Op, section: Section, recorded: seq<Stored>): Option<Error> {
      var claims := Fold(spec.policy, before);
      if Refuses(claims, op) then Some(NoIdLeft)
      else if |recorded| < |Derive(spec.policy, claims, op)| then Some(AppendFailed)
      else if spec.policy.projection && !section.writes then Some(ProjectionFailed)
      else None
    }

    /** The lines an operation derives, up to the first the transport does not take. */
    ghost predicate AppendsOf(before: seq<Stored>, op: Op, recorded: seq<Stored>) {
      var lines := Derive(spec.policy, Fold(spec.policy, before), op);
      && |recorded| <= |lines| && (forall i | 0 <= i < |recorded| :: recorded[i].line == lines[i])
      && (recorded != [] ==> Takes(before, lines[0]) && recorded[0].after == End(before) + size(lines[0]) + 1)
      && (|recorded| < |lines| ==> !Takes(before + recorded, lines[|recorded|]))
    }

    /** What a call records, nothing where its section never ran its body, and how it
        fails. */
    ghost predicate Records(before: seq<Stored>, op: Op, section: Section, recorded: seq<Stored>, failure: Option<Error>) {
      && (if section.runs then AppendsOf(before, op, recorded) else recorded == [])
      && failure == Ends(section, BodyFailure(before, op, section, recorded))
    }

    /** Append the lines up to the first the transport fails, folding each in as it
        is recorded. */
    method AppendAll(lines: seq<Line>, working: Working) returns (recorded: seq<Stored>)
      requires Increasing(log)
      modifies this`log, working
      ensures log == old(log) + recorded && Increasing(log)
      ensures |recorded| <= |lines| && forall i | 0 <= i < |recorded| :: recorded[i].line == lines[i]
      ensures recorded != [] ==> Takes(old(log), lines[0]) && recorded[0].after == End(old(log)) + size(lines[0]) + 1
      ensures |recorded| < |lines| ==> !Takes(log, lines[|recorded|])
      ensures working.View() == FoldFrom(spec.policy, old(working.View()), recorded)
    {
      hide QueueModel.Apply, Takes, FoldFrom, Increasing, End;
      recorded := [];
      NothingFolded(spec.policy, old(working.View()));
      for i := 0 to |lines|
        invariant |recorded| == i && forall k | 0 <= k < i :: recorded[k].line == lines[k]
        invariant recorded != [] ==> Takes(old(log), lines[0]) && recorded[0].after == End(old(log)) + size(lines[0]) + 1
        invariant log == old(log) + recorded && Increasing(log)
        invariant working.View() == FoldFrom(spec.policy, old(working.View()), recorded)
      {
        var position := Append(lines[i]);
        if position.None? {
          assert log == old(log) + recorded;
          return;
        }
        working.Apply(spec.policy, lines[i]);
        FoldedOneMore(spec.policy, old(working.View()), recorded, Stored(lines[i], position.value));
        recorded := recorded + [Stored(lines[i], position.value)];
      }
    }

    /** How a call that decides on `line`, or on none, ends: whether it fails, and
        the log it leaves. */
    ghost predicate CallEnds(before: seq<Stored>, line: Option<Line>, section: Section, failure: Option<Error>, after: seq<Stored>) {
      var taken := section.runs && line.Some? && Takes(before, line.value);
      && after == before + (if taken then [Stored(line.value, End(before) + size(line.value) + 1)] else [])
      && failure == Ends(section, if line.Some? && !taken then Some(AppendFailed)
                                  else if spec.policy.projection && !section.writes then Some(ProjectionFailed)
                                  else None)
    }

    /** A failed call recorded nothing exactly where its section never ran its body, it
        had nothing to record, or the transport does not take its line. */
    lemma FailedCallRecordsNothingExactly(before: seq<Stored>, line: Option<Line>, section: Section, failure: Option<Error>,
                                          after: seq<Stored>)
      requires CallEnds(before, line, section, failure, after) && failure.Some?
      ensures after == before <==> !section.runs || line.None? || !Takes(before, line.value)
    {
    }

    lemma RecordEnds(before: seq<Stored>, op: Op, section: Section, recorded: seq<Stored>, failure: Option<Error>)
      requires var claims := Fold(spec.policy, before);
               && !Refuses(claims, op) && |Derive(spec.policy, claims, op)| <= 1
               && Records(before, op, section, recorded, failure)
      ensures var lines := Derive(spec.policy, Fold(spec.policy, before), op);
              CallEnds(before, if lines == [] then None else Some(lines[0]), section, failure, before + recorded)
    {
      hide Derive, Takes, Fold;
      assert before + [] == before;
    }

    lemma MutationKeepsValid(before: seq<Stored>, op: Op, recorded: seq<Stored>)
      requires OwnLog(spec.policy, before) && Runnable(Fold(spec.policy, before), op)
      requires Trustworthy(spec, document, before)
      requires var lines := Derive(spec.policy, Fold(spec.policy, before), op);
               |recorded| <= |lines| && forall i | 0 <= i < |recorded| :: recorded[i].line == lines[i]
      ensures OwnLog(spec.policy, before + recorded)
      ensures Trustworthy(spec, document, before + recorded)
    {
      OperationKeepsOwn(spec.policy, before, op, recorded);
      if document.Some? && Intact(spec, document.value) {
        FaithfulGrows(spec, document.value, before, recorded);
      }
    }

    /** Queue a record under the next id. */
    method Push(record: QueueModel.Record, section: Section) returns (pushed: Result<At, Error>)
      requires Valid()
      modifies this
      ensures Valid()
      ensures old(Claimable()).nextId == LAST_U64 ==>
                && FailureOf(pushed) == Ends(section, Some(NoIdLeft))
                && log == old(log) && document == old(document)
      ensures old(Claimable()).nextId != LAST_U64 ==>
                var line := Line(Some(Event.Queued), record.(id := old(Claimable()).nextId));
                && CallEnds(old(log), Some(line), section, FailureOf(pushed), log)
                && (pushed.Success? ==> log[|old(log)|] == Stored(line, pushed.value.position) && pushed.value.record == line.record)
    {
      hide QueueModel.Apply, OwnLog, Trustworthy, Increasing, Takes;
      var recorded, failure := Record(Op.Push(record), section);
      if Claimable().nextId != LAST_U64 || log != old(log) {
        RecordEnds(old(log), Op.Push(record), section, recorded, failure);
      }
      pushed := if failure.Some? then Failure(failure.value) else Success(At(recorded[0].line.record, recorded[0].after));
    }

    /** Claim the next record, the claim recorded before it is handed over. A claim
        whose projection cannot be written, or whose section cannot be ended, has been
        recorded all the same: it hands its record to nobody, and the record waits no
        more. */
    method Claim(section: Section) returns (claimed: Result<Option<At>, Error>)
      requires Valid()
      modifies this
      ensures Valid()
      ensures var waiting := old(Claimable()).waiting;
              var line := if waiting == [] then None
                          else Some(Line(Some(Event.Claimed), waiting[Pick(spec.policy, waiting)]));
              && CallEnds(old(log), line, section, FailureOf(claimed), log)
              && (claimed.Success? ==> (claimed.value.Some? <==> line.Some?))
              && (claimed.Success? && line.Some? ==>
                    && claimed.value.value.record == line.value.record
                    && log[|old(log)|] == Stored(line.value, claimed.value.value.position))
              && (log != old(log) ==> line.Some? && line.value.record.id !in Ids(Claimable().waiting))
    {
      hide QueueModel.Apply, OwnLog, Trustworthy, Increasing, Takes;
      var recorded, failure := Record(Op.Claim, section);
      RecordEnds(old(log), Op.Claim, section, recorded, failure);
      if recorded != [] {
        assert log[..|old(log)|] == old(log);
        OwnPrefix(spec.policy, log, |old(log)|);
        assert log[..|old(log)| + 1] == log;
        StepClaims(spec.policy, old(Claimable()), recorded[0].line);
      }
      if failure.Some? {
        return Failure(failure.value);
      }
      claimed := Success(if recorded == [] then None else Some(At(recorded[0].line.record, recorded[0].after)));
    }

    /** A claim that fails once it is recorded — its append taken, and then its
        projection not written or its section not ended — hands its record to nobody
        for good, whatever `later` appends: the record waits no more, and unless the
        claim put it in the slot nothing claims it again. */
    lemma FailedClaimHandsToNobody(before: seq<Stored>, section: Section, failure: Error, after: seq<Stored>, later: seq<Stored>)
      requires var folded := Fold(spec.policy, before);
               && folded.waiting != [] && after != before
               && CallEnds(before, Some(Line(Some(Event.Claimed), folded.waiting[Pick(spec.policy, folded.waiting)])), section,
                           Some(failure), after)
      requires OwnLog(spec.policy, after + later)
      ensures var folded := Fold(spec.policy, before);
              var record := folded.waiting[Pick(spec.policy, folded.waiting)];
              var all := after + later;
              && |before| < |after| && Is(after[|before|], Event.Claimed, record.id)
              && record.id !in Ids(Fold(spec.policy, after).waiting)
              && if TakesSlot(spec.policy, folded, record) then Fold(spec.policy, after).pending == Some(record)
                 else forall j | |after| <= j < |all| :: !Is(all[j], Event.Claimed, record.id)
    {
      hide OwnLog;
      var all, n := after + later, |before|;
      assert all[..n] == before && all[..n + 1] == after && all[n] == after[n];
      OwnPrefix(spec.policy, all, n);
      StepClaims(spec.policy, Fold(spec.policy, before), all[n].line);
      ClaimedWellHeld(spec.policy, Fold(spec.policy, before));
      hide QueueModel.Apply, Legal, Fold, TakesSlot;
      if !TakesSlot(spec.policy, Fold(spec.policy, before), all[n].line.record) {
        forall j | n < j < |all|
          ensures !Is(all[j], Event.Claimed, all[n].line.record.id)
        {
          ClaimedForGood(spec.policy, all, n, j);
        }
      }
    }

    /** Release the slot `claimed` holds, for a reply on the answers queue. */
    method Answer(claimed: At, replies: set<nat>, reply: nat, section: Section) returns (answered: Result<bool, Error>)
      requires Valid()
      modifies this
      ensures Valid()
      ensures reply !in replies <==> answered == Failure(NoReply)
      ensures reply !in replies ==> log == old(log) && document == old(document)
      ensures reply in replies ==>
                var held := old(Claimable()).pending;
                var line := if claimed.record.id in PendingIds(old(Claimable()))
                            then Some(Line(Some(Event.Answered), held.value)) else None;
                && CallEnds(old(log), line, section, FailureOf(answered), log)
                && (answered.Success? ==> answered.value == line.Some?)
                && (log != old(log) ==> Gone(Claimable(), claimed.record.id))
    {
      if reply !in replies {
        return Failure(NoReply);
      }
      hide QueueModel.Apply, OwnLog, Trustworthy, Increasing, Takes, Derive, PendingIds, Fold, Records, CallEnds, Ends, End, Gone;
      AnswerDerives(Claimable(), claimed.record.id);
      var recorded, failure := Record(Op.Answer(claimed.record.id), section);
      RecordEnds(old(log), Op.Answer(claimed.record.id), section, recorded, failure);
      AnswerRecorded(old(log), claimed.record.id, section, recorded, failure);
      answered := if failure.Some? then Failure(failure.value) else Success(recorded != []);
    }

    /** What a recorded answer does, and when one is. */
    lemma AnswerRecorded(before: seq<Stored>, id: u64, section: Section, recorded: seq<Stored>, failure: Option<Error>)
      requires OwnLog(spec.policy, before) && Records(before, Op.Answer(id), section, recorded, failure)
      requires OwnLog(spec.policy, before + recorded)
      ensures recorded != [] ==> Gone(Fold(spec.policy, before + recorded), id)
      ensures failure.None? ==> (recorded != [] <==> id in PendingIds(Fold(spec.policy, before)))
    {
      hide OwnLog, QueueModel.Apply, Derive, Takes, Fold, PendingIds, Gone;
      AnswerDerives(Fold(spec.policy, before), id);
      if recorded != [] {
        AnsweredIsGone(before, before + recorded, recorded[0]);
      }
    }

    lemma AnswerDerives(folded: Folded, id: u64)
      ensures Derive(spec.policy, folded, Op.Answer(id))
              == if id in PendingIds(folded) then [Line(Some(Event.Answered), folded.pending.value)] else []
      ensures id in PendingIds(folded) ==> folded.pending.Some? && folded.pending.value.id == id
    {
    }

    lemma AnsweredIsGone(before: seq<Stored>, after: seq<Stored>, answer: Stored)
      requires OwnLog(spec.policy, before) && after == before + [answer]
      requires answer.line.event == Some(Event.Answered) && Fold(spec.policy, before).pending == Some(answer.line.record)
      ensures Gone(Fold(spec.policy, after), answer.line.record.id) && Fold(spec.policy, after).pending.None?
    {
      hide OwnLog;
      OwnWellHeld(spec.policy, before);
      assert after[..|before|] == before;
    }

    /** Release whatever the slot holds, and hand it back. */
    method AnswerPending(section: Section) returns (released: Result<Option<QueueModel.Record>, Error>)
      requires Valid()
      modifies this
      ensures Valid()
      ensures var held := old(Claimable()).pending;
              var line := if held.Some? then Some(Line(Some(Event.Answered), held.value)) else None;
              && CallEnds(old(log), line, section, FailureOf(released), log)
              && (released.Success? ==> released.value == held)
              && (released.Success? || log != old(log) ==> Claimable().pending.None?)
    {
      hide QueueModel.Apply, OwnLog, Trustworthy, Increasing, Takes;
      var recorded, failure := Record(Op.AnswerPending, section);
      RecordEnds(old(log), Op.AnswerPending, section, recorded, failure);
      if recorded != [] {
        AnsweredIsGone(old(log), log, recorded[0]);
      } else {
        assert log == old(log);
      }
      if failure.Some? {
        return Failure(failure.value);
      }
      released := Success(if recorded == [] then None else Some(recorded[0].line.record));
    }

    /** Whether the record is marked abandoned, read off the whole log. */
    method IsMarkedAbandoned(id: nat) returns (abandoned: bool)
      ensures abandoned == MarkedAbandoned(log, id)
    {
      abandoned := false;
      for i := 0 to |log|
        invariant abandoned == MarkedAbandoned(log[..i], id)
      {
        assert log[..i + 1][..i] == log[..i];
        var line := log[i].line;
        if line.record.id == id {
          match line.event {
            case Some(Abandoned) => abandoned := true;
            case Some(Attended) => abandoned := false;
            case Some(Queued) => abandoned := line.record.abandoned;
            case None => abandoned := line.record.abandoned;
            case _ =>
          }
        }
      }
      assert log[..|log|] == log;
    }

    /** Where each record's latest claim was recorded. */
    method LatestClaims() returns (positions: map<u64, nat>)
      ensures positions == ClaimPositions(log)
    {
      positions := map[];
      for i := 0 to |log|
        invariant positions == ClaimPositions(log[..i])
      {
        assert log[..i + 1][..i] == log[..i];
        if log[i].line.event == Some(Event.Claimed) {
          positions := positions[log[i].line.record.id := log[i].after];
        }
      }
      assert log[..|log|] == log;
    }

    /** Whatever the slot holds, with the position of its latest claim, read in two: the
        slot, and then, others having appended `between`, the positions — or position 0
        where that second read fails. The position is that of the claim that put the
        record in the slot exactly where it was read and nothing claimed the record in
        between. */
    method Held(writable: bool, between: seq<Stored>, readable: bool) returns (held: Option<At>)
      requires Valid() && OwnLog(spec.policy, log + between) && Increasing(log + between)
      modifies this
      ensures Valid() && (log == old(log) || log == old(log) + between)
      ensures held.None? <==> old(Claimable()).pending.None?
      ensures held.Some? ==>
                && log == old(log) + between
                && old(Claimable()).pending == Some(held.value.record)
                && exists i: nat :: && HeldSince(spec.policy, old(log), held.value.record.id, i)
                               && (held.value.position == old(log)[i].after
                                   <==> readable && forall k | 0 <= k < |between| ::
                                          !Is(between[k], Event.Claimed, held.value.record.id))
    {
      hide OwnLog, Increasing, Trustworthy, HeldSince, Fold, ClaimPositions, Checkpoint, Stamp, End;
      var claims := Snapshot(writable);
      if claims.pending.None? {
        return None;
      }
      var record := claims.pending.value;
      ghost var before := log;
      ghost var i := HeldPosition(spec.policy, log);
      TrustworthyGrows(before, between);
      log := log + between;
      ClaimReadLater(before, between, record.id, i);
      if !readable {
        return Some(At(record, 0));
      }
      var positions := LatestClaims();
      held := Some(At(record, positions[record.id]));
    }

    lemma TrustworthyGrows(before: seq<Stored>, between: seq<Stored>)
      requires Trustworthy(spec, document, before)
      ensures Trustworthy(spec, document, before + between)
    {
      if document.Some? && Intact(spec, document.value) {
        FaithfulGrows(spec, document.value, before, between);
      }
    }

    /** The latest claim of what the slot held, once others have appended: the one that
        put it there exactly where none of what they appended claims it. */
    lemma ClaimReadLater(before: seq<Stored>, between: seq<Stored>, id: nat, i: nat)
      requires OwnLog(spec.policy, before + between) && Increasing(before + between)
      requires HeldSince(spec.policy, before, id, i)
      ensures id in ClaimPositions(before + between) && 0 < before[i].after
      ensures ClaimPositions(before + between)[id] == before[i].after
              <==> forall k | 0 <= k < |between| :: !Is(between[k], Event.Claimed, id)
    {
      var all, n := before + between, |before|;
      assert all[..n] == before && all[i] == before[i];
      hide OwnLog, HeldSince;
      PositionReadLater(spec.policy, all, n, id, i);
      assert forall k | 0 <= k < |between| :: all[n + k] == between[k];
      assert forall k | n <= k < |all| :: all[k] == between[k - n];
    }

    /** The record claimed at `position`, once a reply has answered it. */
    method AnsweredClaim(position: nat) returns (answered: Option<At>)
      requires Increasing(log)
      ensures answered.Some? <==>
                exists i, j :: 0 <= i < j < |log| && log[i].line.event == Some(Event.Claimed) && log[i].after == position
                               && Is(log[j], Event.Answered, log[i].line.record.id)
      ensures answered.Some? ==>
                && answered.value.position == position
                && exists i :: 0 <= i < |log| && log[i] == Stored(Line(Some(Event.Claimed), answered.value.record), position)
    {
      var claim: Option<nat> := None;
      for j := 0 to |log|
        invariant claim.None? ==>
                    forall i | 0 <= i < j :: log[i].line.event != Some(Event.Claimed) || log[i].after != position
        invariant claim.Some? ==>
                    && claim.value < j
                    && log[claim.value].line.event == Some(Event.Claimed) && log[claim.value].after == position
                    && forall k | claim.value < k < j :: !Is(log[k], Event.Answered, log[claim.value].line.record.id)
      {
        var line := log[j].line;
        if line.event == Some(Event.Claimed) && log[j].after == position {
          claim := Some(j);
        } else if claim.Some? && line.event == Some(Event.Answered)
                  && line.record.id == log[claim.value].line.record.id {
          assert Is(log[j], Event.Answered, log[claim.value].line.record.id);
          return Some(At(log[claim.value].line.record, position));
        }
      }
      answered := None;
    }

    lemma MarkingEnds(before: seq<Stored>, affects: QueueModel.Record -> bool, abandoned: bool, section: Section,
                      marked: Result<seq<QueueModel.Record>, Error>, marks: seq<Stored>)
      requires var lines := Marks(QueueModel.Held(Fold(spec.policy, before)), affects, MarkEvent(abandoned), abandoned);
               && |marks| <= |lines| && (forall i | 0 <= i < |marks| :: marks[i].line == lines[i])
               && (marks != [] ==> Takes(before, lines[0]))
               && FailureOf(marked) == Ends(section, if |marks| < |lines| then Some(AppendFailed)
                                        else if spec.policy.projection && !section.writes then Some(ProjectionFailed)
                                        else None)
               && (if !section.runs then marks == [] else |marks| < |lines| ==> !Takes(before + marks, lines[|marks|]))
               && (marked.Success? ==> marked.value == RecordsOf(marks))
      ensures MarksEnd(before, affects, abandoned, section, marked, marks)
    {
      hide Marks, Takes, Fold;
      assert before + [] == before;
    }

    /** Mark every waiting or pending record in `ids` abandoned, and hand back what
        was marked. A call that fails may have marked some of them, or all. */
    method Abandon(ids: set<u64>, section: Section) returns (marked: Result<seq<QueueModel.Record>, Error>, ghost marks: seq<Stored>)
      requires Valid()
      modifies this
      ensures Valid() && log == old(log) + marks
      ensures MarksEnd(old(log), StillAttended(ids), true, section, marked, marks)
      ensures marked.Success? || marked == Failure(ProjectionFailed)
              || |marks| == |Marks(QueueModel.Held(old(Claimable())), StillAttended(ids), Event.Abandoned, true)| ==>
                forall r | r in QueueModel.Held(old(Claimable())) && r.id in ids :: MarkedAbandoned(log, r.id)
      ensures forall s | s in marks ::
                && s.line.event == Some(Event.Abandoned) && s.line.record.id in ids
                && !MarkedAbandoned(old(log), s.line.record.id)
    {
      hide QueueModel.Apply, Legal, OwnLog, Trustworthy, Increasing, Fold, Takes, Marks, MarkedAbandoned;
      var recorded, failure := Record(Op.Abandon(ids), section);
      FoldAgreesWithScan(spec.policy, old(log));
      MarksRecorded(old(log), QueueModel.Held(old(Claimable())),
                    StillAttended(ids), true, recorded);
      marks := recorded;
      marked := if failure.Some? then Failure(failure.value) else Success(RecordsOf(recorded));
      MarkingEnds(old(log), StillAttended(ids), true, section, marked, marks);
    }

    /** Take back over every abandoned record the asker raised, and no other, and
        hand back what was taken. */
    method Attend(asker: string, section: Section) returns (marked: Result<seq<QueueModel.Record>, Error>, ghost marks: seq<Stored>)
      requires Valid()
      modifies this
      ensures Valid() && log == old(log) + marks
      ensures MarksEnd(old(log), AbandonedBy(asker), false, section, marked, marks)
      ensures marked.Success? || marked == Failure(ProjectionFailed)
              || |marks| == |Marks(QueueModel.Held(old(Claimable())), AbandonedBy(asker), Event.Attended, false)| ==>
                forall r | r in QueueModel.Held(old(Claimable())) && r.asker == Some(asker) :: !MarkedAbandoned(log, r.id)
      ensures forall s | s in marks ::
                && s.line.event == Some(Event.Attended) && s.line.record.asker == Some(asker)
                && MarkedAbandoned(old(log), s.line.record.id)
    {
      hide QueueModel.Apply, Legal, OwnLog, Trustworthy, Increasing, Fold, Takes, Marks, MarkedAbandoned;
      var recorded, failure := Record(Op.Attend(asker), section);
      FoldAgreesWithScan(spec.policy, old(log));
      MarksRecorded(old(log), QueueModel.Held(old(Claimable())),
                    AbandonedBy(asker), false, recorded);
      marks := recorded;
      marked := if failure.Some? then Failure(failure.value) else Success(RecordsOf(recorded));
      MarkingEnds(old(log), AbandonedBy(asker), false, section, marked, marks);
    }

    /** How a call that marks several records ends: its marks are the first of those
        it decides on, all of them unless an append fails, and none exactly where its
        section never ran its body, there are none to make, or the first append is what
        fails. */
    ghost predicate MarksEnd(before: seq<Stored>, affects: QueueModel.Record -> bool, abandoned: bool, section: Section,
                             marked: Result<seq<QueueModel.Record>, Error>, marks: seq<Stored>) {
      var lines := Marks(QueueModel.Held(Fold(spec.policy, before)), affects, MarkEvent(abandoned), abandoned);
      && |marks| <= |lines| && (forall i | 0 <= i < |marks| :: marks[i].line == lines[i])
      && FailureOf(marked) == Ends(section, if |marks| < |lines| then Some(AppendFailed)
                                            else if spec.policy.projection && !section.writes then Some(ProjectionFailed)
                                            else None)
      && (section.runs && |marks| < |lines| ==> !Takes(before + marks, lines[|marks|]))
      && (marked.Success? ==> marked.value == RecordsOf(marks))
      && (marks == [] <==> !section.runs || lines == [] || !Takes(before, lines[0]))
    }

    /** Mark one record, whether or not the fold still holds it: nothing is
        recorded where it already stands so, or was never queued. */
    method Mark(id: nat, abandoned: bool, section: Section) returns (marked: Result<bool, Error>)
      requires Valid()
      modifies this
      ensures Valid()
      ensures marked == Success(false) <==>
                MarkedAbandoned(old(log), id) == abandoned || QueuedRecord(old(log), id).None?
      ensures marked == Success(false) ==> log == old(log) && document == old(document)
      ensures marked != Success(false) ==>
                exists line: Line :: && line.event == Some(MarkEvent(abandoned)) && line.record.id == id
                               && CallEnds(old(log), Some(line), section, FailureOf(marked), log)
      ensures log != old(log) ==>
                && MarkedAbandoned(log, id) == abandoned
                && forall other | other != id :: MarkedAbandoned(log, other) == MarkedAbandoned(old(log), other)
    {
      hide QueueModel.Apply, Legal, OwnLog, Trustworthy, Increasing, Fold, Takes;
      var stands := IsMarkedAbandoned(id);
      if stands == abandoned || QueuedRecord(log, id).None? {
        return Success(false);
      }
      if id >= Claimable().nextId {
        UnallocatedUnqueued(spec.policy, log, id);
      }
      var op := Op.Mark(QueuedRecord(log, id).value, abandoned);
      var recorded, failure := Record(op, section);
      RecordEnds(old(log), op, section, recorded, failure);
      if recorded != [] {
        assert log[..|old(log)|] == old(log);
      } else {
        assert log == old(log);
      }
      marked := if failure.Some? then Failure(failure.value) else Success(true);
    }
  }

  function RecordsOf(recorded: seq<Stored>): seq<Record> {
    seq(|recorded|, i requires 0 <= i < |recorded| => recorded[i].line.record)
  }

  function MarkEvent(abandoned: bool): Event {
    if abandoned then Event.Abandoned else Event.Attended
  }

  /** What recording the marks an operation derives does: every line is about a
      held record that did not stand so, and with all of them recorded every
      record the operation affects stands so, and none that did already changes. */
  lemma MarksRecorded(log: seq<Stored>, held: seq<QueueModel.Record>, affects: QueueModel.Record -> bool,
                      abandoned: bool, marked: seq<Stored>)
    requires forall r | r in held :: Agrees(log, r)
    requires var lines := Marks(held, affects, MarkEvent(abandoned), abandoned);
             |marked| <= |lines| && forall i | 0 <= i < |marked| :: marked[i].line == lines[i]
    ensures forall s | s in marked ::
              exists r :: r in held && affects(r) && s.line == Line(Some(MarkEvent(abandoned)), r.(abandoned := abandoned))
                          && r.abandoned == MarkedAbandoned(log, r.id)
    ensures |marked| == |Marks(held, affects, MarkEvent(abandoned), abandoned)| ==>
              forall r | r in held && (affects(r) || r.abandoned == abandoned) ::
                MarkedAbandoned(log + marked, r.id) == abandoned
  {
    var lines := Marks(held, affects, MarkEvent(abandoned), abandoned);
    forall s | s in marked
      ensures s.line in lines
    {
    }
    if |marked| == |lines| {
      forall r | r in held && (affects(r) || r.abandoned == abandoned)
        ensures MarkedAbandoned(log + marked, r.id) == abandoned
      {
        if affects(r) {
          var line := Line(Some(MarkEvent(abandoned)), r.(abandoned := abandoned));
          assert line in lines;
          var k :| 0 <= k < |lines| && lines[k] == line;
          assert marked[k] in marked;
        }
        MarksDecide(log, marked, r.id, abandoned);
      }
    }
  }

  /** A run of one kind of mark decides for the ids it names, and no other. */
  lemma {:induction false} MarksDecide(log: seq<Stored>, marks: seq<Stored>, id: nat, abandoned: bool)
    requires forall s | s in marks :: s.line.event == Some(MarkEvent(abandoned))
    ensures MarkedAbandoned(log + marks, id)
            == if exists s :: s in marks && s.line.record.id == id then abandoned else MarkedAbandoned(log, id)
  {
    if marks == [] {
      assert log + marks == log;
    } else {
      var n := |marks| - 1;
      MarksDecide(log, marks[..n], id, abandoned);
      assert (log + marks)[..|log| + n] == log + marks[..n];
      assert forall s :: s in marks <==> s in marks[..n] || s == marks[n];
    }
  }
}
