/** Every interleaving of one in-process inbox's senders and receivers, each a
    step at a lock: takes, releases, answers, withdrawals, closes, deliveries to
    waiting senders, and the clock. */
module InboxRuns {
  import opened Wrappers
  import opened InboxModel

  /** What a sender is told of its message. */
  datatype Answer =
    | Disposition(d: string)
    | ClosedWith(reason: string)
    | LetGo

  /** Where an answer lands, and the deadline its sender waits until. */
  datatype Outcome = Pending | Answered(answer: Answer) | Expired
  datatype Ticket = Ticket(outcome: Outcome, deadline: Option<nat>)

  /** How a message ended. */
  datatype End = Replied(answer: Answer) | WithdrawnBySender | ExpiredAtDeadline

  /** How far the sender of a message has got with its offer. */
  datatype Phase =
    /** It holds the offer, and may withdraw it or look for an answer. */
    | Holding
    /** In `wait`, with no deadline. */
    | Waiting
    /** In `wait_until`, before it has seen its deadline pass. */
    | Until(deadline: nat)
    /** Past its deadline, about to withdraw. */
    | Expiring(deadline: nat)
    /** Its withdrawal failed: it waits for the answer, or for a release. */
    | Awaiting(deadline: nat)
    | Returned(result: Result)

  datatype Result = Got(answer: Answer) | TimedOut | TookBack

  datatype World = World(
    core: Core,
    now: nat,
    /** The senders' tickets; a carried message has none. */
    tickets: map<nat, Ticket>,
    senders: map<nat, Phase>,
    /** Replies taken out under the lock and not yet delivered. */
    flight: map<nat, Answer>,
    /** The messages a receiver holds, settled by a close or not. */
    hands: set<nat>,
    /** How each finished message finished. */
    ends: map<nat, End>)

  const START := World(OPEN, 0, map[], map[], map[], {}, map[])

  datatype Step =
    | Tick(now: nat)
    | Admit
    | AdmitCarried(count: nat)
    | TakeOne(id: nat)
    | HandBack(id: nat)
    | Reply(id: nat, d: string)
    | Drop(id: nat)
    | CloseInbox(reason: string)
    | Deliver(id: nat)
    | TakeBack(id: nat)
    | LookForAnswer(id: nat)
    | StartWait(id: nat)
    | StartWaitUntil(id: nat, deadline: nat)
    | Check(id: nat)
    | WithdrawExpired(id: nat)

  function Carry(c: Core, count: nat): Core
    decreases count
  {
    if count == 0 then c else Offer(Carry(c, count - 1))
  }

  predicate PastDeadline(w: World, id: nat) {
    id in w.tickets && w.tickets[id].deadline.Some? && w.now >= w.tickets[id].deadline.value
  }

  /** Take a message's reply out, to be delivered where it has a sender. */
  function Finish(w: World, id: nat, answer: Answer): World {
    w.(ends := w.ends[id := Replied(answer)],
       flight := if id in w.tickets then w.flight[id := answer] else w.flight)
  }

  /** A close takes out every reply it finds queued or taken. */
  function FinishAll(w: World, ids: set<nat>, answer: Answer): World {
    w.(ends := w.ends + (map id | id in ids :: Replied(answer)),
       flight := w.flight + (map id | id in ids && id in w.tickets :: answer))
  }

  function Held(c: Core): set<nat> {
    c.taken + set id | id in c.queue
  }

  function SetOutcome(w: World, id: nat, outcome: Outcome): World
    requires id in w.tickets
  {
    w.(tickets := w.tickets[id := w.tickets[id].(outcome := outcome)])
  }

  function SetPhase(w: World, id: nat, phase: Phase): World {
    w.(senders := w.senders[id := phase])
  }

  /** The sender reads its ticket, leaving nothing there. Only a wait with a
      deadline reads an expiry as one. */
  function Collect(w: World, id: nat): World
    requires id in w.tickets && id in w.senders
  {
    match w.tickets[id].outcome
    case Pending => w
    case Answered(answer) => SetPhase(SetOutcome(w, id, Pending), id, Returned(Got(answer)))
    case Expired =>
      var read := SetOutcome(w, id, Pending);
      if w.senders[id].Until? || w.senders[id].Awaiting? then SetPhase(read, id, Returned(TimedOut)) else read
  }

  predicate Enabled(w: World, step: Step) {
    match step
    case Tick(now) => w.now <= now
    case Admit => true
    case AdmitCarried(_) => true
    case TakeOne(id) => id in w.core.queue
    case HandBack(id) => id in w.hands
    case Reply(id, _) => id in w.hands
    case Drop(id) => id in w.hands
    case CloseInbox(_) => true
    case Deliver(id) => id in w.flight && id in w.tickets
    case TakeBack(id) => id in w.senders && w.senders[id].Holding?
    case LookForAnswer(id) => id in w.senders && id in w.tickets && w.senders[id].Holding?
    case StartWait(id) => id in w.senders && w.senders[id].Holding?
    case StartWaitUntil(id, _) => id in w.senders && id in w.tickets && w.senders[id].Holding?
    case Check(id) =>
      id in w.senders && id in w.tickets && (w.senders[id].Waiting? || w.senders[id].Until? || w.senders[id].Awaiting?)
    case WithdrawExpired(id) => id in w.senders && w.senders[id].Expiring?
  }

  function Apply(w: World, step: Step): World
    requires Enabled(w, step)
  {
    match step
    case Tick(now) => w.(now := now)
    case Admit =>
      if w.core.closed.Some? then w
      else w.(core := Offer(w.core),
              tickets := w.tickets[w.core.next := Ticket(Pending, None)],
              senders := w.senders[w.core.next := Holding])
    case AdmitCarried(count) => w.(core := Carry(w.core, count))
    case TakeOne(id) => w.(core := Take(w.core, id), hands := w.hands + {id})
    case HandBack(id) =>
      var back := w.(core := Release(w.core, id, PastDeadline(w, id)), hands := w.hands - {id});
      if id in w.core.taken && PastDeadline(w, id)
      then SetOutcome(back, id, Expired).(ends := w.ends[id := ExpiredAtDeadline])
      else back
    case Reply(id, d) =>
      var out := w.(core := Settle(w.core, id), hands := w.hands - {id});
      if id in w.core.taken then Finish(out, id, Disposition(d)) else out
    case Drop(id) =>
      var out := w.(core := Settle(w.core, id), hands := w.hands - {id});
      if id in w.core.taken then Finish(out, id, LetGo) else out
    case CloseInbox(reason) =>
      if w.core.closed.Some? then w
      else FinishAll(w.(core := Close(w.core, reason)), Held(w.core), ClosedWith(reason))
    case Deliver(id) => SetOutcome(w.(flight := w.flight - {id}), id, Answered(w.flight[id]))
    case TakeBack(id) =>
      if id in w.core.queue
      then SetPhase(w.(core := Withdraw(w.core, id), ends := w.ends[id := WithdrawnBySender]), id, Returned(TookBack))
      else w
    case LookForAnswer(id) => Collect(w, id)
    case StartWait(id) => SetPhase(w, id, Waiting)
    case StartWaitUntil(id, deadline) =>
      SetPhase(w.(tickets := w.tickets[id := w.tickets[id].(deadline := Some(deadline))]), id, Until(deadline))
    case Check(id) =>
      if !w.tickets[id].outcome.Pending? then Collect(w, id)
      else if w.senders[id].Until? && w.now >= w.senders[id].deadline
      then SetPhase(w, id, Expiring(w.senders[id].deadline))
      else w
    case WithdrawExpired(id) =>
      if id in w.core.queue
      then SetPhase(w.(core := Withdraw(w.core, id), ends := w.ends[id := ExpiredAtDeadline]), id, Returned(TimedOut))
      else SetPhase(w, id, Awaiting(w.senders[id].deadline))
  }

  // ----- one message -----

  /** Everything the inbox and its sender know of one message. */
  datatype Local = Local(admitted: bool, queued: bool, taken: bool, end: Option<End>,
                         ticket: Option<Ticket>, phase: Option<Phase>, flight: Option<Answer>)

  function Find<T>(m: map<nat, T>, id: nat): Option<T> {
    if id in m then Some(m[id]) else None
  }

  function Of(w: World, id: nat): Local {
    Local(id < w.core.next, id in w.core.queue, id in w.core.taken, Find(w.ends, id),
          Find(w.tickets, id), Find(w.senders, id), Find(w.flight, id))
  }

  /** An admitted message is in exactly one of queued, taken and finished; one not
      admitted is nowhere. */
  predicate InOnePlace(l: Local) {
    if l.admitted then
      && (l.queued || l.taken || l.end.Some?)
      && !(l.queued && l.taken) && !(l.queued && l.end.Some?) && !(l.taken && l.end.Some?)
    else !l.queued && !l.taken && l.end.None? && l.ticket.None?
  }

  /** A finished message's sender learns how, once: the answer is in flight, or on
      its ticket, or returned — and nowhere while the message is unfinished. */
  predicate ToldOnce(l: Local)
    requires l.ticket.Some? && l.phase.Some?
  {
    var outcome, phase := l.ticket.value.outcome, l.phase.value;
    match l.end
    case None => l.flight.None? && outcome.Pending? && !phase.Returned?
    case Some(Replied(answer)) =>
      || (l.flight == Some(answer) && outcome.Pending? && !phase.Returned?)
      || (l.flight.None? && outcome == Answered(answer) && !phase.Returned?)
      || (l.flight.None? && outcome.Pending? && phase == Returned(Got(answer)))
    case Some(ExpiredAtDeadline) =>
      || (l.flight.None? && outcome.Expired? && (phase.Until? || phase.Expiring? || phase.Awaiting?))
      || (l.flight.None? && outcome.Pending? && phase == Returned(TimedOut))
    case Some(WithdrawnBySender) => l.flight.None? && outcome.Pending? && phase == Returned(TookBack)
  }

  /** What a sender believes of its deadline is so. */
  predicate DeadlineKept(l: Local, now: nat)
    requires l.ticket.Some? && l.phase.Some?
  {
    match l.phase.value
    case Holding => l.ticket.value.deadline.None?
    case Waiting => l.ticket.value.deadline.None?
    case Until(deadline) => l.ticket.value.deadline == Some(deadline)
    case Expiring(deadline) => l.ticket.value.deadline == Some(deadline) && now >= deadline
    case Awaiting(deadline) => l.ticket.value.deadline == Some(deadline) && now >= deadline && !l.queued
    case Returned(_) => true
  }

  predicate Fine(l: Local, now: nat) {
    && InOnePlace(l)
    && (l.ticket.Some? <==> l.phase.Some?)
    && (if l.ticket.Some? then ToldOnce(l) && DeadlineKept(l, now) else l.flight.None?)
  }

  ghost predicate Sound(w: World) {
    && Ordered(w.core)
    && w.core.taken <= w.hands
    && forall id: nat :: Fine(Of(w, id), w.now)
  }

  /** What is known of a message that finished is never unsaid. */
  predicate Kept(before: Local, after: Local) {
    && (before.admitted ==> after.admitted)
    && (before.end.Some? ==> after.end == before.end)
    && (before.end.Some? && before.flight.None? ==> after.flight.None?)
    && (before.phase.Some? && (before.phase.value.Awaiting? || before.phase.value.Returned?) ==>
          after.phase.Some? && (after.phase == before.phase || after.phase.value.Returned?))
    && (before.phase.Some? && before.phase.value.Returned? ==> after.phase == before.phase)
  }

  lemma {:induction false} CarryOrdered(c: Core, count: nat)
    requires Ordered(c)
    ensures var carried := Carry(c, count);
            && Ordered(carried) && carried.taken == c.taken && carried.closed == c.closed
            && carried.next == (if c.closed.Some? then c.next else c.next + count)
            && forall id :: id in carried.queue <==> id in c.queue || c.next <= id < carried.next
  {
    if count != 0 {
      CarryOrdered(c, count - 1);
      OperationsKeepOrder(Carry(c, count - 1), 0, false, "");
    }
  }

  /** The one message a step is about; none for a step about all of them. */
  function About(step: Step): Option<nat> {
    match step
    case TakeOne(id) => Some(id)
    case HandBack(id) => Some(id)
    case Reply(id, _) => Some(id)
    case Drop(id) => Some(id)
    case Deliver(id) => Some(id)
    case TakeBack(id) => Some(id)
    case LookForAnswer(id) => Some(id)
    case StartWait(id) => Some(id)
    case StartWaitUntil(id, _) => Some(id)
    case Check(id) => Some(id)
    case WithdrawExpired(id) => Some(id)
    case _ => None
  }

  predicate Concerns(step: Step, id: nat) {
    About(step).None? || About(step) == Some(id)
  }

  /** The steps a sender takes without the inbox's lock, and a delivery to it. */
  predicate AtTicket(step: Step) {
    step.LookForAnswer? || step.StartWait? || step.StartWaitUntil? || step.Check? || step.Deliver?
  }

  lemma CollectUntouched(w: World, collected: nat, id: nat)
    requires collected in w.tickets && collected in w.senders && id != collected
    ensures var read := Collect(w, collected);
            && Of(read, id) == Of(w, id) && read.now == w.now && read.core == w.core && read.hands == w.hands
  {
  }

  lemma UntouchedAtTicket(w: World, step: Step, id: nat)
    requires Enabled(w, step) && !Concerns(step, id) && AtTicket(step)
    ensures Of(Apply(w, step), id) == Of(w, id) && Apply(w, step).now == w.now
    ensures Apply(w, step).core == w.core && Apply(w, step).hands == w.hands
  {
    hide Collect;
    if step.LookForAnswer? || step.Check? {
      CollectUntouched(w, step.id, id);
    }
  }

  lemma UntouchedHandBack(w: World, step: Step, id: nat)
    requires Ordered(w.core) && Enabled(w, step) && !Concerns(step, id) && step.HandBack?
    ensures Of(Apply(w, step), id) == Of(w, id) && Apply(w, step).now == w.now
  {
    if step.id in w.core.taken {
      InsertAscending(w.core.queue, step.id);
    }
  }

  lemma UntouchedUnderLock(w: World, step: Step, id: nat)
    requires Enabled(w, step) && !Concerns(step, id) && !AtTicket(step) && !step.HandBack?
    ensures Of(Apply(w, step), id) == Of(w, id) && Apply(w, step).now == w.now
  {
  }

  /** A step about another message leaves this one alone. */
  lemma Untouched(w: World, step: Step, id: nat)
    requires Ordered(w.core) && Enabled(w, step) && !Concerns(step, id)
    ensures Of(Apply(w, step), id) == Of(w, id) && Apply(w, step).now == w.now
  {
    hide Apply, Of, Enabled, Ordered, Concerns;
    if AtTicket(step) {
      UntouchedAtTicket(w, step, id);
    } else if step.HandBack? {
      UntouchedHandBack(w, step, id);
    } else {
      UntouchedUnderLock(w, step, id);
    }
  }

  lemma TakeFine(w: World, step: Step, id: nat)
    requires Fine(Of(w, id), w.now) && Enabled(w, step) && Concerns(step, id) && step.TakeOne?
    ensures Fine(Of(Apply(w, step), id), Apply(w, step).now)
    ensures Kept(Of(w, id), Of(Apply(w, step), id))
  {
  }

  lemma DeliverFine(w: World, step: Step, id: nat)
    requires Fine(Of(w, id), w.now) && Enabled(w, step) && Concerns(step, id) && step.Deliver?
    ensures Fine(Of(Apply(w, step), id), Apply(w, step).now)
    ensures Kept(Of(w, id), Of(Apply(w, step), id))
  {
  }

  lemma ReplyFine(w: World, step: Step, id: nat)
    requires Fine(Of(w, id), w.now) && Enabled(w, step) && Concerns(step, id) && step.Reply?
    ensures Fine(Of(Apply(w, step), id), Apply(w, step).now)
    ensures Kept(Of(w, id), Of(Apply(w, step), id))
  {
  }

  lemma DropFine(w: World, step: Step, id: nat)
    requires Fine(Of(w, id), w.now) && Enabled(w, step) && Concerns(step, id) && step.Drop?
    ensures Fine(Of(Apply(w, step), id), Apply(w, step).now)
    ensures Kept(Of(w, id), Of(Apply(w, step), id))
  {
  }

  lemma HandBackFine(w: World, step: Step, id: nat)
    requires Ordered(w.core) && Fine(Of(w, id), w.now) && Enabled(w, step) && Concerns(step, id)
    requires step.HandBack?
    ensures Fine(Of(Apply(w, step), id), Apply(w, step).now)
    ensures Kept(Of(w, id), Of(Apply(w, step), id))
  {
    if id in w.core.taken {
      InsertAscending(w.core.queue, id);
    }
  }

  lemma WithdrawalFine(w: World, step: Step, id: nat)
    requires Fine(Of(w, id), w.now) && Enabled(w, step) && Concerns(step, id)
    requires step.TakeBack? || step.WithdrawExpired?
    ensures Fine(Of(Apply(w, step), id), Apply(w, step).now)
    ensures Kept(Of(w, id), Of(Apply(w, step), id))
  {
  }

  /** Reading an answer off its ticket, by a sender that still waits for it. */
  lemma CollectFine(w: World, id: nat)
    requires Fine(Of(w, id), w.now) && id in w.tickets && id in w.senders
    requires !w.senders[id].Returned? && !w.senders[id].Expiring?
    ensures var read := Collect(w, id);
            Fine(Of(read, id), read.now) && Kept(Of(w, id), Of(read, id)) && read.now == w.now
  {
  }

  lemma StartFine(w: World, step: Step, id: nat)
    requires Fine(Of(w, id), w.now) && Enabled(w, step) && Concerns(step, id)
    requires step.StartWait? || step.StartWaitUntil?
    ensures Fine(Of(Apply(w, step), id), Apply(w, step).now)
    ensures Kept(Of(w, id), Of(Apply(w, step), id))
  {
  }

  lemma CheckFine(w: World, step: Step, id: nat)
    requires Fine(Of(w, id), w.now) && Enabled(w, step) && Concerns(step, id) && step.Check?
    ensures Fine(Of(Apply(w, step), id), Apply(w, step).now)
    ensures Kept(Of(w, id), Of(Apply(w, step), id))
  {
    if !w.tickets[id].outcome.Pending? {
      CollectFine(w, id);
      hide Collect, Fine, Kept, Of;
    } else {
      hide Collect;
    }
  }

  lemma LookFine(w: World, step: Step, id: nat)
    requires Fine(Of(w, id), w.now) && Enabled(w, step) && Concerns(step, id) && step.LookForAnswer?
    ensures Fine(Of(Apply(w, step), id), Apply(w, step).now)
    ensures Kept(Of(w, id), Of(Apply(w, step), id))
  {
    CollectFine(w, id);
    hide Collect, Fine, Kept, Of;
  }

  lemma CommonStepFine(w: World, step: Step, id: nat)
    requires Ordered(w.core) && Fine(Of(w, id), w.now) && Enabled(w, step)
    requires step.Tick? || step.Admit? || step.AdmitCarried? || step.CloseInbox?
    ensures Fine(Of(Apply(w, step), id), Apply(w, step).now)
    ensures Kept(Of(w, id), Of(Apply(w, step), id))
  {
    if step.AdmitCarried? {
      CarryOrdered(w.core, step.count);
    }
  }

  /** Each step keeps every message fine, and unsays nothing of it. */
  lemma StepFine(w: World, step: Step, id: nat)
    requires Sound(w) && Enabled(w, step)
    ensures Fine(Of(Apply(w, step), id), Apply(w, step).now)
    ensures Kept(Of(w, id), Of(Apply(w, step), id))
  {
    assert Fine(Of(w, id), w.now);
    hide Apply, Fine, Of, Enabled, Ordered;
    if !Concerns(step, id) {
      Untouched(w, step, id);
    } else if step.TakeOne? {
      TakeFine(w, step, id);
    } else if step.Deliver? {
      DeliverFine(w, step, id);
    } else if step.Reply? {
      ReplyFine(w, step, id);
    } else if step.Drop? {
      DropFine(w, step, id);
    } else if step.HandBack? {
      HandBackFine(w, step, id);
    } else if step.TakeBack? || step.WithdrawExpired? {
      WithdrawalFine(w, step, id);
    } else if step.Check? {
      CheckFine(w, step, id);
    } else if step.LookForAnswer? {
      LookFine(w, step, id);
    } else if step.StartWait? || step.StartWaitUntil? {
      StartFine(w, step, id);
    } else {
      CommonStepFine(w, step, id);
    }
  }

  lemma StepOrdered(w: World, step: Step)
    requires Ordered(w.core) && w.core.taken <= w.hands && Enabled(w, step)
    ensures Ordered(Apply(w, step).core) && Apply(w, step).core.taken <= Apply(w, step).hands
  {
    hide Ordered, Insert, Without;
    if AtTicket(step) {
      UntouchedAtTicket(w, step, About(step).value + 1);
    } else if About(step).Some? {
      OperationsKeepOrder(w.core, About(step).value, PastDeadline(w, About(step).value), "");
    } else {
      match step {
        case AdmitCarried(count) => CarryOrdered(w.core, count);
        case CloseInbox(reason) => OperationsKeepOrder(w.core, 0, false, reason);
        case Admit => OperationsKeepOrder(w.core, 0, false, "");
        case _ =>
      }
    }
  }

  lemma StepKeepsSound(w: World, step: Step)
    requires Sound(w) && Enabled(w, step)
    ensures Sound(Apply(w, step))
  {
    hide Apply, Fine, Of, Enabled, Ordered;
    StepOrdered(w, step);
    forall id: nat
      ensures Fine(Of(Apply(w, step), id), Apply(w, step).now)
    {
      StepFine(w, step, id);
    }
  }

  // ----- runs -----

  ghost predicate Run(worlds: seq<World>, steps: seq<Step>) {
    && |worlds| == |steps| + 1
    && worlds[0] == START
    && forall i | 0 <= i < |steps| :: Enabled(worlds[i], steps[i]) && worlds[i + 1] == Apply(worlds[i], steps[i])
  }

  lemma StartIsSound()
    ensures Sound(START)
  {
  }

  /** Whatever the interleaving, every message is fine: an admitted one is in
      exactly one of queued, taken and finished, the queue is in arrival order,
      and a finished one's sender is told how, once. */
  lemma {:induction false} EveryRunIsSound(worlds: seq<World>, steps: seq<Step>, i: nat)
    requires Run(worlds, steps) && i < |worlds|
    ensures Sound(worlds[i])
  {
    hide Sound, Apply, Enabled;
    if i == 0 {
      StartIsSound();
    } else {
      EveryRunIsSound(worlds, steps, i - 1);
      StepKeepsSound(worlds[i - 1], steps[i - 1]);
    }
  }

  lemma {:induction false} KeptLater(worlds: seq<World>, steps: seq<Step>, id: nat, i: nat, j: nat)
    requires Run(worlds, steps) && i <= j < |worlds|
    ensures Kept(Of(worlds[i], id), Of(worlds[j], id))
  {
    hide Sound, Apply, Enabled, Of;
    if i < j {
      KeptLater(worlds, steps, id, i, j - 1);
      EveryRunIsSound(worlds, steps, j - 1);
      StepFine(worlds[j - 1], steps[j - 1], id);
    }
  }

  /** A message finishes once: how it ended never changes, and it is never queued
      or taken again — so a withdrawal and a final take never both succeed. */
  lemma FinishedForGood(worlds: seq<World>, steps: seq<Step>, id: nat, i: nat, j: nat)
    requires Run(worlds, steps) && i <= j < |worlds| && id in worlds[i].ends
    ensures id in worlds[j].ends && worlds[j].ends[id] == worlds[i].ends[id]
    ensures id !in worlds[j].core.queue && id !in worlds[j].core.taken
    ensures j < |steps| ==> steps[j] != TakeOne(id)
  {
    KeptLater(worlds, steps, id, i, j);
    EveryRunIsSound(worlds, steps, j);
    assert Fine(Of(worlds[j], id), worlds[j].now);
  }

  lemma DeliveredIsOutOfFlight(worlds: seq<World>, steps: seq<Step>, id: nat, i: nat, j: nat)
    requires Run(worlds, steps) && i < j < |worlds| && steps[i] == Deliver(id)
    ensures id !in worlds[j].flight
  {
    EveryRunIsSound(worlds, steps, i);
    assert Fine(Of(worlds[i], id), worlds[i].now);
    KeptLater(worlds, steps, id, i + 1, j);
  }

  /** No reply is delivered twice. */
  lemma DeliveredOnce(worlds: seq<World>, steps: seq<Step>, id: nat, i: nat, j: nat)
    requires Run(worlds, steps) && i < |steps| && j < |steps|
    requires steps[i] == Deliver(id) && steps[j] == Deliver(id)
    ensures i == j
  {
    if i < j {
      DeliveredIsOutOfFlight(worlds, steps, id, i, j);
    } else if j < i {
      DeliveredIsOutOfFlight(worlds, steps, id, j, i);
    }
  }

  /** What finishes a message, and how: its receiver's reply or letting it go, a close
      of the open inbox that holds it, its sender's taking it back while it is queued,
      or its deadline — passed when it is handed back, or when its sender withdraws it
      while it is queued. */
  predicate FinishedBy(w: World, step: Step, id: nat, end: End) {
    match end
    case Replied(Disposition(d)) => step == Reply(id, d) && id in w.core.taken
    case Replied(LetGo) => step == Drop(id) && id in w.core.taken
    case Replied(ClosedWith(reason)) =>
      step == CloseInbox(reason) && w.core.closed.None? && (id in w.core.queue || id in w.core.taken)
    case WithdrawnBySender => step == TakeBack(id) && id in w.core.queue
    case ExpiredAtDeadline =>
      || (step == WithdrawExpired(id) && id in w.core.queue)
      || (&& step == HandBack(id) && id in w.core.taken && id in w.tickets
          && w.tickets[id].deadline.Some? && w.tickets[id].deadline.value <= w.now)
  }

  /** Whether a step that finds a message unfinished finishes it so exactly where
      `FinishedBy` says. */
  predicate FinishesAsSaid(w: World, step: Step, id: nat, end: End)
    requires Enabled(w, step)
  {
    Find(Apply(w, step).ends, id) == Some(end) <==> FinishedBy(w, step, id, end)
  }

  lemma ReceiverFinishes(w: World, step: Step, id: nat, end: End)
    requires Enabled(w, step) && id !in w.ends && About(step) == Some(id)
    requires Fine(Of(w, id), w.now) && (step.HandBack? || step.Reply? || step.Drop? || step.TakeOne?)
    ensures FinishesAsSaid(w, step, id, end)
  {
    hide Insert, Without;
  }

  lemma SenderFinishes(w: World, step: Step, id: nat, end: End)
    requires Enabled(w, step) && id !in w.ends && (step.TakeBack? || step.WithdrawExpired?)
    ensures FinishesAsSaid(w, step, id, end)
  {
    hide Without;
  }

  lemma CloseFinishes(w: World, step: Step, id: nat, end: End)
    requires Enabled(w, step) && id !in w.ends && About(step).None?
    ensures FinishesAsSaid(w, step, id, end)
  {
    hide Offer, Carry;
  }

  lemma OthersFinish(w: World, step: Step, id: nat, end: End)
    requires Enabled(w, step) && id !in w.ends && !Concerns(step, id)
    ensures Of(Apply(w, step), id) == Of(w, id) ==> FinishesAsSaid(w, step, id, end)
  {
    hide Apply;
  }

  lemma TicketFinishes(w: World, step: Step, id: nat, end: End)
    requires Enabled(w, step) && id !in w.ends && AtTicket(step)
    ensures FinishesAsSaid(w, step, id, end)
  {
    EndsAtTicket(w, step);
    hide Apply;
  }

  /** A message that is not finished finishes by a step, and so, exactly where that
      step finishes messages so. */
  lemma FinishesExactly(w: World, step: Step, id: nat, end: End)
    requires Sound(w) && Enabled(w, step) && id !in w.ends
    ensures id in Apply(w, step).ends && Apply(w, step).ends[id] == end <==> FinishedBy(w, step, id, end)
  {
    hide Apply, Enabled, FinishedBy, Fine, Ordered, Of, FinishesAsSaid;
    assert Fine(Of(w, id), w.now);
    if AtTicket(step) {
      TicketFinishes(w, step, id, end);
    } else if !Concerns(step, id) {
      Untouched(w, step, id);
      OthersFinish(w, step, id, end);
    } else if About(step).None? {
      CloseFinishes(w, step, id, end);
    } else if step.TakeBack? || step.WithdrawExpired? {
      SenderFinishes(w, step, id, end);
    } else {
      ReceiverFinishes(w, step, id, end);
    }
    FinishesSo(w, step, id, end);
  }

  lemma FinishesSo(w: World, step: Step, id: nat, end: End)
    requires Enabled(w, step) && FinishesAsSaid(w, step, id, end)
    ensures id in Apply(w, step).ends && Apply(w, step).ends[id] == end <==> FinishedBy(w, step, id, end)
  {
    hide Apply, Enabled, FinishedBy;
  }

  lemma EndsAtTicket(w: World, step: Step)
    requires Enabled(w, step) && AtTicket(step)
    ensures Apply(w, step).ends == w.ends
  {
  }

  /** Every message that has finished did so at one step, so. */
  lemma {:induction false} FinishedAt(worlds: seq<World>, steps: seq<Step>, id: nat, n: nat) returns (i: nat)
    requires Run(worlds, steps) && n < |worlds| && id in worlds[n].ends
    ensures i < n && id !in worlds[i].ends && FinishedBy(worlds[i], steps[i], id, worlds[n].ends[id])
  {
    hide Apply, Enabled, Sound, FinishedBy;
    EveryRunIsSound(worlds, steps, n - 1);
    if id in worlds[n - 1].ends {
      FinishedForGood(worlds, steps, id, n - 1, n);
      i := FinishedAt(worlds, steps, id, n - 1);
    } else {
      i := n - 1;
      FinishesExactly(worlds[i], steps[i], id, worlds[n].ends[id]);
    }
  }

  /** A sender handed an answer was handed what finished its message: the disposition
      its receiver replied with, the reason of the close, or that it was let go. */
  lemma AnswersReachTheirSender(worlds: seq<World>, steps: seq<Step>, id: nat, answer: Answer, n: nat) returns (i: nat)
    requires Run(worlds, steps) && n < |worlds|
    requires id in worlds[n].senders && worlds[n].senders[id] == Returned(Got(answer))
    ensures i < n && FinishedBy(worlds[i], steps[i], id, Replied(answer))
  {
    EveryRunIsSound(worlds, steps, n);
    assert Fine(Of(worlds[n], id), worlds[n].now);
    i := FinishedAt(worlds, steps, id, n);
  }

  /** And once its receiver has replied to a message it has taken, that disposition is
      all its sender can ever be handed; and so it is where it was let go, or held when
      the inbox was closed. */
  lemma NothingElseIsHanded(worlds: seq<World>, steps: seq<Step>, id: nat, end: End, i: nat, n: nat)
    requires Run(worlds, steps) && i < n < |worlds|
    requires id in worlds[i].core.queue || id in worlds[i].core.taken
    requires FinishedBy(worlds[i], steps[i], id, end)
    ensures id in worlds[n].ends && worlds[n].ends[id] == end
    ensures forall answer | id in worlds[n].senders && worlds[n].senders[id] == Returned(Got(answer)) :: end == Replied(answer)
  {
    EveryRunIsSound(worlds, steps, i);
    assert Fine(Of(worlds[i], id), worlds[i].now);
    FinishesExactly(worlds[i], steps[i], id, end);
    hide Apply, Enabled, FinishedBy;
    FinishedForGood(worlds, steps, id, i + 1, n);
    EveryRunIsSound(worlds, steps, n);
    assert Fine(Of(worlds[n], id), worlds[n].now);
  }

  /** Once a sender past its deadline has failed to withdraw its message, that
      message is never queued again. */
  lemma NeverRequeued(worlds: seq<World>, steps: seq<Step>, id: nat, i: nat, j: nat)
    requires Run(worlds, steps) && i <= j < |worlds|
    requires id in worlds[i].senders && worlds[i].senders[id].Awaiting?
    ensures id !in worlds[j].core.queue
  {
    KeptLater(worlds, steps, id, i, j);
    EveryRunIsSound(worlds, steps, j);
    assert Fine(Of(worlds[j], id), worlds[j].now);
  }

  /** A sender told its message expired is told so for good: the message is
      neither queued nor taken, and no later take yields it. */
  lemma ExpiredMeansNeverTaken(worlds: seq<World>, steps: seq<Step>, id: nat, i: nat, j: nat)
    requires Run(worlds, steps) && i <= j < |worlds|
    requires id in worlds[i].senders && worlds[i].senders[id] == Returned(TimedOut)
    ensures id !in worlds[j].core.queue && id !in worlds[j].core.taken
    ensures j < |steps| ==> steps[j] != TakeOne(id)
  {
    EveryRunIsSound(worlds, steps, i);
    assert Fine(Of(worlds[i], id), worlds[i].now);
    FinishedForGood(worlds, steps, id, i, j);
  }

  lemma StepKeepsClosed(w: World, step: Step)
    requires Enabled(w, step) && w.core.closed.Some?
    ensures Apply(w, step).core.closed == w.core.closed
  {
    if step.AdmitCarried? {
      CarryClosed(w.core, step.count);
    }
  }

  lemma {:induction false} CarryClosed(c: Core, count: nat)
    requires c.closed.Some?
    ensures Carry(c, count) == c
    decreases count
  {
    if count != 0 {
      CarryClosed(c, count - 1);
    }
  }

  /** After a close the first reason stands, and nothing is queued or taken. */
  lemma {:induction false} ClosedForGood(worlds: seq<World>, steps: seq<Step>, i: nat, j: nat)
    requires Run(worlds, steps) && i <= j < |worlds| && worlds[i].core.closed.Some?
    ensures worlds[j].core.closed == worlds[i].core.closed
    ensures worlds[j].core.queue == [] && worlds[j].core.taken == {}
  {
    hide Apply, Enabled, Fine, Of;
    EveryRunIsSound(worlds, steps, j);
    if i < j {
      ClosedForGood(worlds, steps, i, j - 1);
      StepKeepsClosed(worlds[j - 1], steps[j - 1]);
    }
  }

  // ----- what each step does, and when it may be taken -----

  /** Where a message is: not admitted, queued, taken or finished. */
  datatype Place = Nowhere | Queued | Taken | Finished

  function PlaceOf(w: World, id: nat): Place {
    if id in w.core.queue then Queued
    else if id in w.core.taken then Taken
    else if id in w.ends then Finished
    else Nowhere
  }

  /** Where each step is to leave each message. */
  function PlaceAfter(w: World, step: Step, id: nat): Place {
    var place, next, open := PlaceOf(w, id), w.core.next, w.core.closed.None?;
    match step
    case Admit => if open && id == next then Queued else place
    case AdmitCarried(count) => if open && next <= id < next + count then Queued else place
    case TakeOne(one) => if id == one then Taken else place
    case HandBack(one) =>
      if id != one || place != Taken then place else if PastDeadline(w, id) then Finished else Queued
    case Reply(one, _) => if id == one && place == Taken then Finished else place
    case Drop(one) => if id == one && place == Taken then Finished else place
    case CloseInbox(_) => if place == Nowhere then Nowhere else Finished
    case TakeBack(one) => if id == one && place == Queued then Finished else place
    case WithdrawExpired(one) => if id == one && place == Queued then Finished else place
    case _ => place
  }

  lemma OwnPlace(w: World, step: Step, id: nat)
    requires Ordered(w.core) && Fine(Of(w, id), w.now) && Enabled(w, step) && About(step) == Some(id) && !AtTicket(step)
    ensures PlaceOf(Apply(w, step), id) == PlaceAfter(w, step, id)
  {
    if step.HandBack? && id in w.core.taken {
      InsertAscending(w.core.queue, id);
    }
  }

  lemma CommonPlace(w: World, step: Step, id: nat)
    requires Ordered(w.core) && Fine(Of(w, id), w.now) && Enabled(w, step) && About(step).None?
    ensures PlaceOf(Apply(w, step), id) == PlaceAfter(w, step, id)
  {
    if step.AdmitCarried? {
      CarryOrdered(w.core, step.count);
    }
  }

  lemma SamePlace(w: World, w': World, id: nat)
    requires Of(w, id) == Of(w', id)
    ensures PlaceOf(w', id) == PlaceOf(w, id)
  {
  }

  lemma TicketPlace(w: World, step: Step, id: nat)
    requires Enabled(w, step) && AtTicket(step)
    ensures PlaceOf(Apply(w, step), id) == PlaceOf(w, id) == PlaceAfter(w, step, id)
  {
    EndsAtTicket(w, step);
    UntouchedAtTicket(w, step, About(step).value + 1);
    hide Apply;
  }

  lemma OtherPlace(w: World, step: Step, id: nat)
    requires !Concerns(step, id)
    ensures PlaceAfter(w, step, id) == PlaceOf(w, id)
  {
  }

  /** Each step moves each message exactly as said. */
  lemma MovesExactly(w: World, step: Step, id: nat)
    requires Sound(w) && Enabled(w, step)
    ensures PlaceOf(Apply(w, step), id) == PlaceAfter(w, step, id)
  {
    assert Fine(Of(w, id), w.now);
    hide Apply, Enabled, Fine, Of, Ordered, PlaceOf, PlaceAfter;
    if AtTicket(step) {
      TicketPlace(w, step, id);
    } else if About(step) == Some(id) {
      OwnPlace(w, step, id);
    } else if About(step).None? {
      CommonPlace(w, step, id);
    } else {
      Untouched(w, step, id);
      SamePlace(w, Apply(w, step), id);
      OtherPlace(w, step, id);
    }
  }

  /** A receiver holds what it took until it hands it back, replies or lets it go; and
      only the clock moves the time. */
  lemma HoldsExactly(w: World, step: Step)
    requires Enabled(w, step)
    ensures Apply(w, step).hands
            == match step
               case TakeOne(id) => w.hands + {id}
               case HandBack(id) => w.hands - {id}
               case Reply(id, _) => w.hands - {id}
               case Drop(id) => w.hands - {id}
               case _ => w.hands
    ensures Apply(w, step).now == if step.Tick? then step.now else w.now
  {
    if AtTicket(step) {
      UntouchedAtTicket(w, step, About(step).value + 1);
    }
  }

  /** Which steps a sender may take, by how far it has got. */
  lemma SenderMayStep(w: World, id: nat, deadline: nat)
    requires Sound(w)
    ensures var phase := Find(w.senders, id);
            && (Enabled(w, TakeBack(id)) <==> phase == Some(Holding))
            && (Enabled(w, LookForAnswer(id)) <==> phase == Some(Holding))
            && (Enabled(w, StartWait(id)) <==> phase == Some(Holding))
            && (Enabled(w, StartWaitUntil(id, deadline)) <==> phase == Some(Holding))
            && (Enabled(w, Check(id)) <==> phase.Some? && (phase.value.Waiting? || phase.value.Until? || phase.value.Awaiting?))
            && (Enabled(w, WithdrawExpired(id)) <==> phase.Some? && phase.value.Expiring?)
  {
    assert Fine(Of(w, id), w.now);
    hide Ordered, ToldOnce, DeadlineKept, InOnePlace;
  }

  /** Which a receiver may, by what is queued and what it holds; and a message is
      offered, and the inbox closed, at any time. */
  lemma ReceiverMayStep(w: World, id: nat, d: string, count: nat, reason: string, now: nat)
    requires Sound(w)
    ensures Enabled(w, TakeOne(id)) <==> PlaceOf(w, id) == Queued
    ensures Enabled(w, HandBack(id)) <==> id in w.hands
    ensures Enabled(w, Reply(id, d)) <==> id in w.hands
    ensures Enabled(w, Drop(id)) <==> id in w.hands
    ensures Enabled(w, Deliver(id)) <==> Find(w.flight, id).Some?
    ensures Enabled(w, Admit) && Enabled(w, AdmitCarried(count)) && Enabled(w, CloseInbox(reason))
    ensures Enabled(w, Tick(now)) <==> w.now <= now
  {
    assert Fine(Of(w, id), w.now);
    hide Ordered;
  }

  // ----- every sender can learn how its message finished -----

  function After(w: World, steps: seq<Step>): Option<World>
    decreases |steps|
  {
    if steps == [] then Some(w)
    else if Enabled(w, steps[0]) then After(Apply(w, steps[0]), steps[1..])
    else None
  }

  /** What a sender is to be told of how its message finished. */
  function ResultOf(end: End): Result {
    match end
    case Replied(answer) => Got(answer)
    case WithdrawnBySender => TookBack
    case ExpiredAtDeadline => TimedOut
  }

  /** Whatever the interleaving so far, the sender of a finished message needs no other's
      step to be told how it finished, but the delivery of what is in flight: these are
      the steps, and it is told so. */
  lemma SenderCanLearn(w: World, id: nat) returns (steps: seq<Step>)
    requires Sound(w) && id in w.tickets && id in w.ends
    ensures forall i | 0 <= i < |steps| :: About(steps[i]) == Some(id)
    ensures |steps| <= 3 && After(w, steps).Some?
    ensures Find(After(w, steps).value.senders, id) == Some(Returned(ResultOf(w.ends[id])))
  {
    assert Fine(Of(w, id), w.now);
    if w.senders[id].Returned? {
      steps := [];
      return;
    }
    var delivered := DeliverFirst(w, id);
    var learned := LearnFromTicket(After(w, delivered).value, id);
    steps := delivered + learned;
    AfterBoth(w, delivered, learned);
  }

  lemma {:induction false} AfterBoth(w: World, first: seq<Step>, second: seq<Step>)
    requires After(w, first).Some?
    ensures After(w, first + second) == After(After(w, first).value, second)
    decreases |first|
  {
    hide Apply, Enabled;
    if first == [] {
      assert first + second == second;
    } else {
      assert (first + second)[0] == first[0] && (first + second)[1..] == first[1..] + second;
      AfterBoth(Apply(w, first[0]), first[1..], second);
    }
  }

  /** Has what is in flight to a sender delivered. */
  lemma DeliverFirst(w: World, id: nat) returns (steps: seq<Step>)
    requires Sound(w) && id in w.tickets && id in w.ends && id in w.senders && !w.senders[id].Returned?
    ensures |steps| <= 1 && forall i | 0 <= i < |steps| :: About(steps[i]) == Some(id)
    ensures After(w, steps).Some?
    ensures var w' := After(w, steps).value;
            && Sound(w') && id in w'.tickets && id in w'.ends && id in w'.senders && !w'.senders[id].Returned?
            && w'.ends[id] == w.ends[id] && !w'.tickets[id].outcome.Pending?
  {
    assert Fine(Of(w, id), w.now);
    if id in w.flight {
      steps := [Deliver(id)];
      assert After(Apply(w, Deliver(id)), steps[1..]) == Some(Apply(w, Deliver(id)));
      StepKeepsSound(w, Deliver(id));
    } else {
      steps := [];
    }
  }

  /** A sender whose ticket says how its message finished reads it. */
  lemma LearnFromTicket(w: World, id: nat) returns (steps: seq<Step>)
    requires Sound(w) && id in w.tickets && id in w.ends && id in w.senders && !w.senders[id].Returned?
    requires !w.tickets[id].outcome.Pending?
    ensures |steps| <= 2 && forall i | 0 <= i < |steps| :: About(steps[i]) == Some(id)
    ensures After(w, steps).Some?
    ensures Find(After(w, steps).value.senders, id) == Some(Returned(ResultOf(w.ends[id])))
  {
    assert Fine(Of(w, id), w.now);
    if w.senders[id].Holding? {
      steps := [LookForAnswer(id)];
      assert After(Apply(w, steps[0]), steps[1..]) == Some(Apply(w, steps[0]));
    } else if w.senders[id].Expiring? {
      steps := [WithdrawExpired(id), Check(id)];
      var mid := Apply(w, WithdrawExpired(id));
      assert steps[1..] == [Check(id)] && steps[1..][1..] == [];
      assert After(mid, steps[1..]) == After(Apply(mid, Check(id)), []);
    } else {
      steps := [Check(id)];
      assert After(Apply(w, steps[0]), steps[1..]) == Some(Apply(w, steps[0]));
    }
  }

  /** A sender that waits with a deadline, and has not been answered, goes on to withdraw
      exactly when it looks at its deadline or later; and its message, where it is still
      queued, then expires. */
  lemma WaitEndsExactlyAtItsDeadline(w: World, id: nat, deadline: nat)
    requires Sound(w) && id in w.tickets && id !in w.ends && id in w.senders && w.senders[id] == Until(deadline)
    ensures Enabled(w, Check(id))
    ensures var looked := Apply(w, Check(id));
            looked == if deadline <= w.now then SetPhase(w, id, Expiring(deadline)) else w
    ensures deadline <= w.now && id in w.core.queue ==>
              var expired := After(w, [Check(id), WithdrawExpired(id)]);
              && expired.Some?
              && Find(expired.value.ends, id) == Some(ExpiredAtDeadline)
              && Find(expired.value.senders, id) == Some(Returned(TimedOut))
  {
    assert Fine(Of(w, id), w.now);
    if deadline <= w.now && id in w.core.queue {
      var steps := [Check(id), WithdrawExpired(id)];
      var looked := Apply(w, Check(id));
      assert steps[1..] == [WithdrawExpired(id)] && steps[1..][1..] == [];
      assert After(looked, steps[1..]) == After(Apply(looked, WithdrawExpired(id)), []);
    }
  }
}
