/** The order an event queue without a pending slot keeps. */
module QueueOrder {
  import opened Wrappers
  import opened QueueModel
  import opened QueueHistory
  import opened QueueScans
  import opened Sequences

  /** Records in the order they were pushed: that of their ids. */
  predicate InPushOrder(records: seq<Record>) {
    forall i, j | 0 <= i < j < |records| :: records[i].id < records[j].id
  }

  lemma {:induction false} RetainAscending(policy: Policy, waiting: seq<Record>, newer: Record)
    requires InPushOrder(waiting)
    ensures InPushOrder(Retain(policy, waiting, newer))
  {
    if waiting != [] {
      var n := |waiting| - 1;
      RetainAscending(policy, waiting[..n], newer);
      var kept := Retain(policy, waiting[..n], newer);
      forall i | 0 <= i < |kept|
        ensures kept[i].id < waiting[n].id
      {
        assert kept[i] in kept;
        var k :| 0 <= k < n && waiting[k] == kept[i];
      }
    }
  }

  lemma QueuedAscending(policy: Policy, folded: Folded, record: Record)
    requires WellHeld(folded) && InPushOrder(folded.waiting) && record.id == folded.nextId < LAST_U64
    ensures InPushOrder(ApplyQueued(policy, folded, record).waiting)
  {
    RetainAscending(policy, folded.waiting, record);
    var kept := Retain(policy, folded.waiting, record);
    forall i | 0 <= i < |kept|
      ensures kept[i].id < record.id
    {
      assert kept[i] in kept;
    }
  }

  /** Without a pending slot a claim only removes the record it takes. */
  lemma ClaimOnlyRemoves(policy: Policy, folded: Folded)
    requires WellHeld(folded) && folded.waiting != [] && !policy.holdPending
    ensures var at := Pick(policy, folded.waiting);
            ApplyClaimed(policy, folded, folded.waiting[at].id).waiting == RemoveAt(folded.waiting, at)
  {
    ClaimedWellHeld(policy, folded);
  }

  lemma StepAscending(policy: Policy, folded: Folded, line: Line)
    requires WellHeld(folded) && Legal(policy, folded, line) && !policy.holdPending
    requires InPushOrder(folded.waiting)
    ensures InPushOrder(Apply(policy, folded, line).waiting)
  {
    match line.event.value {
      case Queued => QueuedAscending(policy, folded, line.record);
      case Claimed =>
        ClaimOnlyRemoves(policy, folded);
        RemoveAscending(folded.waiting, Pick(policy, folded.waiting));
      case Answered =>
      case Abandoned => FlagAscending(folded.waiting, line.record.id, true);
      case Attended => FlagAscending(folded.waiting, line.record.id, false);
    }
  }

  lemma RemoveAscending(waiting: seq<Record>, at: nat)
    requires InPushOrder(waiting) && at < |waiting|
    ensures InPushOrder(RemoveAt(waiting, at))
  {
  }

  lemma FlagAscending(waiting: seq<Record>, id: u64, abandoned: bool)
    requires InPushOrder(waiting)
    ensures InPushOrder(FlagAll(waiting, id, abandoned))
  {
    var flagged := FlagAll(waiting, id, abandoned);
    assert forall i | 0 <= i < |waiting| :: flagged[i].id == waiting[i].id;
  }

  /** Without a pending slot the waiting records stay in the order they were
      pushed. */
  lemma {:induction false} WaitingAscending(policy: Policy, log: seq<Stored>)
    requires OwnLog(policy, log) && !policy.holdPending
    ensures InPushOrder(Fold(policy, log).waiting)
  {
    hide Apply, Legal;
    if log != [] {
      var n := |log| - 1;
      WaitingAscending(policy, log[..n]);
      OwnWellHeld(policy, log[..n]);
      StepAscending(policy, Fold(policy, log[..n]), log[n].line);
    }
  }

  /** A record a claim would rather take than any of the others. */
  predicate Preferred(policy: Policy, waiting: seq<Record>, r: Record) {
    if exists other :: other in waiting && policy.blockingFirst && other.blocking && !other.abandoned
    then r.blocking && !r.abandoned
    else (exists other :: other in waiting && !other.abandoned) ==> !r.abandoned
  }

  /** A claim takes the oldest preferred record: a blocking one somebody listens
      for where the policy puts those first, else one somebody listens for, else
      any. */
  lemma PickIsOldestPreferred(policy: Policy, waiting: seq<Record>, at: nat)
    requires at < |waiting|
    ensures at == Pick(policy, waiting)
        <==> Preferred(policy, waiting, waiting[at])
             && forall i | 0 <= i < at :: !Preferred(policy, waiting, waiting[i])
  {
    hide First;
    var pick := Pick(policy, waiting);
    OldestPreferred(policy, waiting);
    assert Preferred(policy, waiting, waiting[pick]);
    if pick < at {
      assert Preferred(policy, waiting, waiting[pick]);
    }
  }

  lemma OldestPreferred(policy: Policy, waiting: seq<Record>)
    requires waiting != []
    ensures var pick := Pick(policy, waiting);
            && Preferred(policy, waiting, waiting[pick])
            && forall i | 0 <= i < pick :: !Preferred(policy, waiting, waiting[i])
  {
    var blocking, unabandoned := First(waiting, true), First(waiting, false);
    assert blocking < |waiting| ==> waiting[blocking] in waiting;
    assert unabandoned < |waiting| ==> waiting[unabandoned] in waiting;
    hide First;
  }

  /** Among waiting records of one blocking class somebody listens for, a claim
      takes the first. */
  lemma PickTakesFirst(policy: Policy, waiting: seq<Record>, at: nat)
    requires at < |waiting| && !waiting[at].abandoned
    requires var picked := waiting[Pick(policy, waiting)];
             !picked.abandoned && picked.blocking == waiting[at].blocking
    ensures Pick(policy, waiting) <= at
  {
  }

  /** What a claim would take has nothing of its class that somebody listens for
      before it. */
  lemma PickOvertakesNone(policy: Policy, waiting: seq<Record>, m: nat)
    requires InPushOrder(waiting) && m < |waiting| && !waiting[m].abandoned
    requires waiting[m].blocking == waiting[Pick(policy, waiting)].blocking
    ensures waiting[Pick(policy, waiting)].id <= waiting[m].id
  {
    var at := Pick(policy, waiting);
    assert waiting[m] in waiting;
    assert !waiting[at].abandoned by {
      OldestPreferred(policy, waiting);
    }
    PickTakesFirst(policy, waiting, m);
    hide Pick;
    assert at <= m;
  }

  /** No overtaking: when a record is claimed, no earlier one of its blocking class
      that somebody listens for is left waiting. */
  lemma NoOvertaking(policy: Policy, log: seq<Stored>, j: nat)
    requires OwnLog(policy, log) && !policy.holdPending && j < |log|
    requires log[j].line.event == Some(Event.Claimed)
    ensures var claimed := log[j].line.record;
            forall r | r in At(policy, log, j).waiting && r.blocking == claimed.blocking && !r.abandoned ::
              claimed.id <= r.id
  {
    var claimed := log[j].line.record;
    var waiting := At(policy, log, j).waiting;
    OwnPrefix(policy, log, j);
    WaitingAscending(policy, log[..j]);
    hide OwnLog, Fold, InPushOrder, Pick, QueueModel.Apply;
    forall r | r in waiting && r.blocking == claimed.blocking && !r.abandoned
      ensures claimed.id <= r.id
    {
      var m :| 0 <= m < |waiting| && waiting[m] == r;
      PickOvertakesNone(policy, waiting, m);
    }
  }

  /** So an earlier record of the class that nobody ever abandoned is not waiting
      when a later one is claimed. */
  lemma EarlierNotWaiting(policy: Policy, log: seq<Stored>, j: nat, earlier: nat)
    requires OwnLog(policy, log) && !policy.holdPending && j < |log|
    requires log[j].line.event == Some(Event.Claimed) && earlier < log[j].line.record.id
    requires NeverAbandoned(log, earlier)
    ensures forall r | r in At(policy, log, j).waiting && r.id == earlier :: r.blocking != log[j].line.record.blocking
  {
    NoOvertaking(policy, log, j);
    forall r | r in At(policy, log, j).waiting && r.id == earlier
      ensures r.blocking != log[j].line.record.blocking
    {
      NotAbandonedAt(policy, log, r, j);
    }
  }

  /** A claimed record was waiting since it was queued, where nothing displaces. */
  lemma WaitingUntilClaimed(policy: Policy, log: seq<Stored>, i: nat, j: nat) returns (m: nat)
    requires OwnLog(policy, log) && !policy.holdPending && j <= i < |log|
    requires log[i].line.event == Some(Event.Claimed) && log[i].line.record.id < At(policy, log, j).nextId
    ensures m < |At(policy, log, j).waiting|
    ensures At(policy, log, j).waiting[m].(abandoned := log[i].line.record.abandoned) == log[i].line.record
  {
    var a := log[i].line.record;
    OwnPrefix(policy, log, i);
    OwnPrefix(policy, log, j);
    assert a in At(policy, log, i).waiting;
    if a.id !in Ids(At(policy, log, j).waiting) {
      var k := WaitsAgain(policy, log, a.id, j, i);
    }
    m :| 0 <= m < |At(policy, log, j).waiting| && At(policy, log, j).waiting[m].id == a.id;
    SameRecord(policy, log, i, At(policy, log, j).waiting[m], j);
  }

  /** Two records of one blocking class, both claimed, were claimed in the order they
      were pushed, where nobody ever abandoned the earlier. */
  lemma ClaimedInPushOrder(policy: Policy, log: seq<Stored>, i: nat, j: nat)
    requires OwnLog(policy, log) && !policy.holdPending && i < |log| && j < |log|
    requires log[i].line.event == Some(Event.Claimed) && log[j].line.event == Some(Event.Claimed)
    requires var a, b := log[i].line.record, log[j].line.record;
             a.id < b.id && a.blocking == b.blocking && NeverAbandoned(log, a.id)
    ensures i < j
  {
    if j <= i {
      OwnPrefix(policy, log, j);
      StepClaims(policy, At(policy, log, j), log[j].line);
      hide OwnLog, Fold, QueueModel.Apply, Legal, NeverAbandoned;
      var m := WaitingUntilClaimed(policy, log, i, j);
      var a := At(policy, log, j).waiting[m];
      NotAbandonedAt(policy, log, a, j);
      NoOvertaking(policy, log, j);
    }
  }

  /** A held record and its claim later on are one record, but for its mark. */
  lemma SameRecord(policy: Policy, log: seq<Stored>, i: nat, held: Record, j: nat)
    requires OwnLog(policy, log) && j <= i < |log|
    requires Is(log[i], Event.Claimed, held.id) && held in At(policy, log, j).waiting
    ensures held.(abandoned := log[i].line.record.abandoned) == log[i].line.record
  {
    OwnPrefix(policy, log, i);
    OwnPrefix(policy, log, j);
    FoldAgreesWithScan(policy, log[..i]);
    FoldAgreesWithScan(policy, log[..j]);
    assert log[i].line.record in At(policy, log, i).waiting;
    QueuedRecordStays(log, held.id, j, i);
  }

  lemma {:induction false} QueuedRecordStays(log: seq<Stored>, id: nat, j: nat, i: nat)
    requires j <= i <= |log| && QueuedRecord(log[..j], id).Some?
    ensures QueuedRecord(log[..i], id) == QueuedRecord(log[..j], id)
  {
    if j < i {
      QueuedRecordStays(log, id, j, i - 1);
      assert log[..i][..i - 1] == log[..i - 1];
    }
  }

  lemma NotAbandonedAt(policy: Policy, log: seq<Stored>, held: Record, j: nat)
    requires OwnLog(policy, log) && j <= |log|
    requires held in At(policy, log, j).waiting && NeverAbandoned(log, held.id)
    ensures !held.abandoned
  {
    OwnPrefix(policy, log, j);
    FoldAgreesWithScan(policy, log[..j]);
    assert forall k | 0 <= k < j :: log[..j][k] == log[k];
    NeverMarked(log[..j], held.id);
  }

  // ----- superseding -----

  /** A supersede rule that does not read whether a record is abandoned. */
  ghost predicate IgnoresMarks(supersede: Supersede) {
    forall r: Record, b: bool ::
      && supersede.key(r.(abandoned := b)) == supersede.key(r)
      && supersede.Admits(r.(abandoned := b)) == supersede.Admits(r)
  }

  /** No record the rule admits has an earlier one with its key before it. */
  predicate NewestByKey(supersede: Supersede, waiting: seq<Record>) {
    forall i, j | 0 <= i < j < |waiting| && supersede.Admits(waiting[j]) ::
      supersede.key(waiting[i]) != supersede.key(waiting[j])
  }

  lemma {:induction false} RetainNewest(policy: Policy, waiting: seq<Record>, newer: Record)
    requires policy.supersedeOn.Some? && NewestByKey(policy.supersedeOn.value, waiting)
    ensures NewestByKey(policy.supersedeOn.value, Retain(policy, waiting, newer))
  {
    if waiting != [] {
      var n := |waiting| - 1;
      RetainNewest(policy, waiting[..n], newer);
      var kept := Retain(policy, waiting[..n], newer);
      forall i | 0 <= i < |kept|
        ensures exists k :: 0 <= k < n && waiting[k] == kept[i]
      {
        assert kept[i] in kept;
      }
    }
  }

  lemma QueuedKeepsNewest(policy: Policy, folded: Folded, record: Record)
    requires policy.supersedeOn.Some? && NewestByKey(policy.supersedeOn.value, folded.waiting)
    ensures NewestByKey(policy.supersedeOn.value, ApplyQueued(policy, folded, record).waiting)
  {
    var rule := policy.supersedeOn.value;
    RetainNewest(policy, folded.waiting, record);
    var kept := Retain(policy, folded.waiting, record);
    forall i | 0 <= i < |kept| && rule.Admits(record)
      ensures rule.key(kept[i]) != rule.key(record)
    {
      assert kept[i] in kept;
    }
  }

  lemma RemoveKeepsNewest(rule: Supersede, waiting: seq<Record>, at: nat)
    requires NewestByKey(rule, waiting) && at < |waiting|
    ensures NewestByKey(rule, RemoveAt(waiting, at))
  {
  }

  lemma StepKeepsNewest(policy: Policy, folded: Folded, line: Line)
    requires WellHeld(folded) && Legal(policy, folded, line) && !policy.holdPending
    requires policy.supersedeOn.Some? && IgnoresMarks(policy.supersedeOn.value)
    requires NewestByKey(policy.supersedeOn.value, folded.waiting)
    ensures NewestByKey(policy.supersedeOn.value, Apply(policy, folded, line).waiting)
  {
    hide Pick, NewestByKey, Retain, FlagAll;
    match line.event.value {
      case Queued => QueuedKeepsNewest(policy, folded, line.record);
      case Claimed =>
        ClaimOnlyRemoves(policy, folded);
        RemoveKeepsNewest(policy.supersedeOn.value, folded.waiting, Pick(policy, folded.waiting));
      case Answered =>
      case Abandoned => FlagsKeepNewest(policy.supersedeOn.value, folded.waiting, line.record.id, true);
      case Attended => FlagsKeepNewest(policy.supersedeOn.value, folded.waiting, line.record.id, false);
    }
  }

  /** A superseded record is never left waiting behind the one that replaced it:
      no waiting record the rule admits has an earlier waiting one with its key. */
  lemma {:induction false} SupersedeKeepsNewest(policy: Policy, log: seq<Stored>)
    requires OwnLog(policy, log) && !policy.holdPending
    requires policy.supersedeOn.Some? && IgnoresMarks(policy.supersedeOn.value)
    ensures NewestByKey(policy.supersedeOn.value, Fold(policy, log).waiting)
  {
    hide Apply, Legal;
    if log != [] {
      var n := |log| - 1;
      SupersedeKeepsNewest(policy, log[..n]);
      OwnWellHeld(policy, log[..n]);
      StepKeepsNewest(policy, Fold(policy, log[..n]), log[n].line);
    }
  }

  lemma FlagsKeepNewest(rule: Supersede, waiting: seq<Record>, id: u64, abandoned: bool)
    requires IgnoresMarks(rule) && NewestByKey(rule, waiting)
    ensures NewestByKey(rule, FlagAll(waiting, id, abandoned))
  {
    var flagged := FlagAll(waiting, id, abandoned);
    forall i | 0 <= i < |waiting|
      ensures rule.key(flagged[i]) == rule.key(waiting[i]) && rule.Admits(flagged[i]) == rule.Admits(waiting[i])
    {
      assert flagged[i] == waiting[i] || flagged[i] == waiting[i].(abandoned := abandoned);
    }
  }

  /** Queueing a record on a log its own writers wrote leaves every waiting record
      waiting, each as often and in its order, but — where there is a rule and its
      `when` admits the new record — those with the new one's key; and the new one
      waits last. */
  lemma SupersedesExactly(policy: Policy, log: seq<Stored>, n: nat)
    requires OwnLog(policy, log) && n < |log| && log[n].line.event == Some(Event.Queued)
    ensures var newer := log[n].line.record;
            At(policy, log, n + 1).waiting
            == Kept(At(policy, log, n).waiting, (r: Record) =>
                 || policy.supersedeOn.None?
                 || (policy.supersedeOn.value.when.Some? && !policy.supersedeOn.value.when.value(newer))
                 || policy.supersedeOn.value.key(r) != policy.supersedeOn.value.key(newer))
               + [newer]
  {
    var newer, waiting := log[n].line.record, At(policy, log, n).waiting;
    OwnPrefix(policy, log, n);
    RetainKeeps(policy, waiting, newer);
    assert At(policy, log, n + 1).waiting == Retain(policy, waiting, newer) + [newer];
    hide Retain, Fold, FoldFrom, OwnLog;
    KeptAlike(waiting, (r: Record) => !policy.Replaces(newer, r), (r: Record) =>
      || policy.supersedeOn.None?
      || (policy.supersedeOn.value.when.Some? && !policy.supersedeOn.value.when.value(newer))
      || policy.supersedeOn.value.key(r) != policy.supersedeOn.value.key(newer));
  }
}
