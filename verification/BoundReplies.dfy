/** Replies bound to their question by its correlation rather than by a claim: each
    reads what was replied and what was asked, lands on the answers queue, and then
    releases the slot if it finds its question there. */
module BoundReplies {
  import opened Wrappers
  import opened QueueModel
  import opened QueueHistory
  import opened Projections
  import ReplyRace

  /** A question asked, by the correlation its record carries. */
  datatype Question = Question(correlation: string, id: u64)

  /** What correlation a record carries. */
  type Names = Record -> Option<string>

  datatype Phase =
    /** Naming its correlation, or none. */
    | Starting(named: Option<string>)
    /** It has read which correlations were echoed so far. */
    | Read(named: Option<string>, replied: seq<string>)
    /** No question, or not one alone, is outstanding for it. */
    | Unbound
    | Bound(question: Question)
    /** It is on the answers queue. */
    | Landed(question: Question)
    /** It found its question in the slot. */
    | Found(question: Question)
    /** What the call reports — whether the reply reached the answers queue — and the
        answer it recorded, if it did. */
    | Reported(question: Question, answered: bool, line: Option<nat>)

  /** The questions' log, the correlations echoed on the answers queue, and the calls. */
  datatype World = World(log: seq<Stored>, echoed: seq<string>, calls: seq<Phase>)

  const START := World([], [], [])

  datatype Step =
    /** Anything else a writer does to the questions' log, whole or cut short. */
    | Other(op: Op, appended: seq<Stored>)
    /** Any other reply landing on the answers queue. */
    | Echo(correlation: string)
    | Arrive(named: Option<string>)
    | ReadReplies(call: nat)
    | Bind(call: nat)
    | AppendReply(call: nat, landed: bool)
    | ReadHeld(call: nat)
    | Release(call: nat, appended: seq<Stored>)

  /** The questions a log has queued, in order, each correlation once. */
  function Questions(names: Names, log: seq<Stored>): seq<Question> {
    if log == [] then []
    else
      var earlier, line := Questions(names, log[..|log| - 1]), log[|log| - 1].line;
      if line.event == Some(Event.Queued) && names(line.record).Some?
         && forall q | q in earlier :: q.correlation != names(line.record).value
      then earlier + [Question(names(line.record).value, line.record.id)] else earlier
  }

  function Outstanding(questions: seq<Question>, replied: seq<string>): (outstanding: seq<Question>)
    ensures forall q :: q in outstanding <==> q in questions && q.correlation !in replied
  {
    if questions == [] then []
    else (if questions[0].correlation in replied then [] else [questions[0]]) + Outstanding(questions[1..], replied)
  }

  predicate Asks(names: Names, line: Line, correlation: string) {
    line.event == Some(Event.Queued) && names(line.record) == Some(correlation)
  }

  lemma {:induction false} AskedAlready(names: Names, log: seq<Stored>, correlation: string)
    ensures (exists q :: q in Questions(names, log) && q.correlation == correlation)
        <==> exists i :: 0 <= i < |log| && Asks(names, log[i].line, correlation)
  {
    if log != [] {
      var n := |log| - 1;
      AskedAlready(names, log[..n], correlation);
      assert forall i | 0 <= i < n :: log[..n][i] == log[i];
      var earlier := Questions(names, log[..n]);
      if Asks(names, log[n].line, correlation) && forall q | q in earlier :: q.correlation != correlation {
        assert Questions(names, log) == earlier + [Question(correlation, log[n].line.record.id)];
        assert Question(correlation, log[n].line.record.id) in Questions(names, log);
      }
      assert forall q | q in earlier :: q in Questions(names, log);
    }
  }

  /** Each correlation is asked once, by the first record queued that carries it. */
  lemma {:induction false} FirstToAsk(names: Names, log: seq<Stored>, q: Question)
    ensures q in Questions(names, log) <==> exists i :: AsksFirst(names, log, q, i)
  {
    if log != [] {
      var n := |log| - 1;
      FirstToAsk(names, log[..n], q);
      AskedAlready(names, log[..n], q.correlation);
      assert forall i | 0 <= i < n :: log[..n][i] == log[i];
      assert forall i: nat | i < n :: AsksFirst(names, log, q, i) <==> AsksFirst(names, log[..n], q, i);
      var earlier := Questions(names, log[..n]);
      var asked := Question(q.correlation, log[n].line.record.id);
      if Asks(names, log[n].line, q.correlation) && forall p | p in earlier :: p.correlation != q.correlation {
        assert Questions(names, log) == earlier + [asked];
        assert q in Questions(names, log) <==> q in earlier || q == asked;
        assert AsksFirst(names, log, asked, n);
      } else {
        assert q in Questions(names, log) <==> q in earlier;
        assert !AsksFirst(names, log, q, n);
      }
    }
  }

  predicate AsksFirst(names: Names, log: seq<Stored>, q: Question, i: nat) {
    && i < |log| && Asks(names, log[i].line, q.correlation) && log[i].line.record.id == q.id
    && forall j | 0 <= j < i :: !Asks(names, log[j].line, q.correlation)
  }

  /** The question a reply binds to: the one its correlation names, or, naming none,
      the one outstanding. */
  function Binding(named: Option<string>, outstanding: seq<Question>): (question: Option<Question>)
    ensures question.Some? ==> question.value in outstanding
    ensures question.Some? && named.Some? ==> question.value.correlation == named.value
    ensures named.Some? ==> (question.None? <==> forall q | q in outstanding :: q.correlation != named.value)
    ensures named.None? ==> question == if |outstanding| == 1 then Some(outstanding[0]) else None
  {
    if named.None? then if |outstanding| == 1 then Some(outstanding[0]) else None
    else if outstanding == [] then None
    else if outstanding[0].correlation == named.value then Some(outstanding[0])
    else Binding(named, outstanding[1..])
  }

  function Moved(w: World, call: nat, phase: Phase): World
    requires call < |w.calls|
  {
    w.(calls := w.calls[call := phase])
  }

  predicate Holds(policy: Policy, log: seq<Stored>, id: nat) {
    id in PendingIds(Fold(policy, log))
  }

  ghost predicate Next(policy: Policy, names: Names, w: World, step: Step, w': World) {
    match step
    case Other(op, appended) => ReplyRace.Appends(policy, w.log, op, appended) && w' == w.(log := w.log + appended)
    case Echo(correlation) => w' == w.(echoed := w.echoed + [correlation])
    case Arrive(named) => w' == w.(calls := w.calls + [Starting(named)])
    case ReadReplies(call) =>
      && call < |w.calls| && w.calls[call].Starting?
      && w' == Moved(w, call, Read(w.calls[call].named, w.echoed))
    case Bind(call) =>
      && call < |w.calls| && w.calls[call].Read?
      && var question := Binding(w.calls[call].named, Outstanding(Questions(names, w.log), w.calls[call].replied));
         w' == Moved(w, call, if question.Some? then Bound(question.value) else Unbound)
    case AppendReply(call, landed) =>
      && call < |w.calls| && w.calls[call].Bound?
      && var question := w.calls[call].question;
         w' == if landed then Moved(w.(echoed := w.echoed + [question.correlation]), call, Landed(question))
               else Moved(w, call, Reported(question, false, None))
    case ReadHeld(call) =>
      && call < |w.calls| && w.calls[call].Landed?
      && var question := w.calls[call].question;
         w' == Moved(w, call, if Holds(policy, w.log, question.id) then Found(question) else Reported(question, true, None))
    case Release(call, appended) =>
      && call < |w.calls| && w.calls[call].Found?
      && var question := w.calls[call].question;
         var op := Op.Answer(question.id);
            && ReplyRace.Appends(policy, w.log, op, appended)
            && |appended| == |Derive(policy, Fold(policy, w.log), op)|
            && w' == Moved(w.(log := w.log + appended), call,
                           Reported(question, true, if appended == [] then None else Some(|w.log|)))
  }

  ghost predicate Run(policy: Policy, names: Names, worlds: seq<World>, steps: seq<Step>) {
    && |worlds| == |steps| + 1
    && worlds[0] == START
    && forall i | 0 <= i < |steps| :: Next(policy, names, worlds[i], steps[i], worlds[i + 1])
  }

  // ----- what holds in every run -----

  /** What a call has gone on with is so. */
  predicate CallSound(w: World, phase: Phase) {
    match phase
    case Read(_, replied) => replied <= w.echoed
    case Landed(question) => question.correlation in w.echoed
    case Found(question) => question.correlation in w.echoed
    case Reported(question, answered, line) =>
      && (answered ==> question.correlation in w.echoed)
      && (line.Some? ==> answered && line.value < |w.log| && Is(w.log[line.value], Event.Answered, question.id))
    case _ => true
  }

  predicate Recorded(phase: Phase, line: nat) {
    phase.Reported? && phase.line == Some(line)
  }

  ghost predicate Sound(policy: Policy, w: World) {
    && OwnLog(policy, w.log)
    && Increasing(w.log)
    && (forall i | 0 <= i < |w.calls| :: CallSound(w, w.calls[i]))
    && (forall i, j, line | 0 <= i < |w.calls| && 0 <= j < |w.calls|
            && Recorded(w.calls[i], line) && Recorded(w.calls[j], line) :: i == j)
  }

  /** A log, or an answers queue, that has grown keeps every call sound. */
  lemma CallsStaySound(policy: Policy, w: World, appended: seq<Stored>, echoes: seq<string>)
    requires Sound(policy, w) && OwnLog(policy, w.log + appended) && Increasing(w.log + appended)
    ensures Sound(policy, World(w.log + appended, w.echoed + echoes, w.calls))
  {
    hide OwnLog, Increasing;
    var longer := World(w.log + appended, w.echoed + echoes, w.calls);
    forall i | 0 <= i < |w.calls|
      ensures CallSound(longer, w.calls[i])
    {
      assert CallSound(w, w.calls[i]);
    }
  }

  lemma ReleaseKeepsSound(policy: Policy, names: Names, w: World, step: Step, w': World)
    requires Sound(policy, w) && step.Release? && Next(policy, names, w, step, w')
    ensures Sound(policy, w')
  {
    hide OwnLog, Increasing, Fold, Derive, ReplyRace.Appends, Questions, Outstanding;
    var question := w.calls[step.call].question;
    ReplyRace.AnswerAppends(policy, w.log, question.id, step.appended);
    CallsStaySound(policy, w, step.appended, []);
    assert w.echoed + [] == w.echoed;
    forall i | 0 <= i < |w.calls|
      ensures !Recorded(w.calls[i], |w.log|)
    {
      assert CallSound(w, w.calls[i]);
    }
    assert CallSound(w, w.calls[step.call]);
  }

  /** A step that lengthens the answers queue, and may move the call that did. */
  lemma EchoKeepsSound(policy: Policy, names: Names, w: World, step: Step, w': World)
    requires Sound(policy, w) && (step.Echo? || step.AppendReply?) && Next(policy, names, w, step, w')
    ensures Sound(policy, w')
  {
    hide OwnLog, Increasing;
    assert w.log + [] == w.log;
    CallsStaySound(policy, w, [], [if step.Echo? then step.correlation else w.calls[step.call].question.correlation]);
    hide Holds;
  }

  /** A step that only moves one call, or adds one. */
  lemma MoveKeepsSound(policy: Policy, names: Names, w: World, step: Step, w': World)
    requires Sound(policy, w) && Next(policy, names, w, step, w')
    requires step.Arrive? || step.ReadReplies? || step.Bind? || step.ReadHeld?
    ensures Sound(policy, w')
  {
    hide OwnLog, Increasing, Holds, Questions, Outstanding, Binding;
    if step.ReadHeld? {
      assert CallSound(w, w.calls[step.call]);
    }
  }

  lemma OtherKeepsSound(policy: Policy, names: Names, w: World, step: Step, w': World)
    requires Sound(policy, w) && step.Other? && Next(policy, names, w, step, w')
    ensures Sound(policy, w')
  {
    hide Increasing, Fold, Derive, OwnLog;
    OperationKeepsOwn(policy, w.log, step.op, step.appended);
    CallsStaySound(policy, w, step.appended, []);
    assert w.echoed + [] == w.echoed;
  }

  lemma StepKeepsSound(policy: Policy, names: Names, w: World, step: Step, w': World)
    requires Sound(policy, w) && Next(policy, names, w, step, w')
    ensures Sound(policy, w')
  {
    hide Sound, Next;
    match step
    case Other(_, _) => OtherKeepsSound(policy, names, w, step, w');
    case Echo(_) => EchoKeepsSound(policy, names, w, step, w');
    case AppendReply(_, _) => EchoKeepsSound(policy, names, w, step, w');
    case Release(_, _) => ReleaseKeepsSound(policy, names, w, step, w');
    case _ => MoveKeepsSound(policy, names, w, step, w');
  }

  lemma {:induction false} EveryRunIsSound(policy: Policy, names: Names, worlds: seq<World>, steps: seq<Step>, n: nat)
    requires Run(policy, names, worlds, steps) && n < |worlds|
    ensures Sound(policy, worlds[n])
  {
    hide Sound, Next;
    if n == 0 {
      StartIsSound(policy);
    } else {
      EveryRunIsSound(policy, names, worlds, steps, n - 1);
      StepKeepsSound(policy, names, worlds[n - 1], steps[n - 1], worlds[n]);
    }
  }

  lemma StartIsSound(policy: Policy)
    ensures Sound(policy, START)
  {
  }

  /** However many calls report that their reply to one question reached the answers
      queue, at most one of them recorded its answer. */
  lemma OneRecords(policy: Policy, names: Names, worlds: seq<World>, steps: seq<Step>, n: nat, a: nat, b: nat)
    requires Run(policy, names, worlds, steps) && n < |worlds| && a < |worlds[n].calls| && b < |worlds[n].calls|
    requires worlds[n].calls[a].Reported? && worlds[n].calls[b].Reported?
    requires worlds[n].calls[a].line.Some? && worlds[n].calls[b].line.Some?
    requires worlds[n].calls[a].question.id == worlds[n].calls[b].question.id
    ensures a == b
  {
    hide OwnLog, Increasing, Next;
    EveryRunIsSound(policy, names, worlds, steps, n);
    var w := worlds[n];
    assert CallSound(w, w.calls[a]) && CallSound(w, w.calls[b]);
    AnsweredOnce(policy, w.log, w.calls[a].question.id, w.calls[a].line.value, w.calls[b].line.value);
    assert Recorded(w.calls[a], w.calls[a].line.value) && Recorded(w.calls[b], w.calls[a].line.value);
  }

  /** A call reports that it answered exactly where its reply landed. */
  lemma {:induction false} ReportsWhatLanded(policy: Policy, names: Names, worlds: seq<World>, steps: seq<Step>, n: nat, call: nat)
    returns (a: nat)
    requires Run(policy, names, worlds, steps) && n < |worlds| && call < |worlds[n].calls|
    requires HasQuestion(worlds[n].calls[call]) && !worlds[n].calls[call].Bound?
    ensures a < n && steps[a].AppendReply? && steps[a].call == call
    ensures call < |worlds[a].calls| && worlds[a].calls[call] == Bound(worlds[n].calls[call].question)
    ensures steps[a].landed <==> worlds[n].calls[call].Reported? ==> worlds[n].calls[call].answered
  {
    hide Fold, ReplyRace.Appends, Questions, Outstanding, Holds, Derive;
    assert Next(policy, names, worlds[n - 1], steps[n - 1], worlds[n]);
    if steps[n - 1].AppendReply? && steps[n - 1].call == call {
      a := n - 1;
    } else {
      a := ReportsWhatLanded(policy, names, worlds, steps, n - 1, call);
    }
  }

  /** What is echoed is what landed: by a step of any other reply, or of a call bound to
      that correlation. */
  lemma EchoesExactly(policy: Policy, names: Names, w: World, step: Step, w': World)
    requires Next(policy, names, w, step, w')
    ensures w'.echoed
            == w.echoed
               + if step.Echo? then [step.correlation]
                 else if step.AppendReply? && step.landed then [w.calls[step.call].question.correlation]
                 else []
  {
    hide Fold, ReplyRace.Appends, Questions, Outstanding, Holds, Derive;
  }

  // ----- who else may land on one question -----

  predicate HasQuestion(phase: Phase) {
    phase.Bound? || phase.Landed? || phase.Found? || phase.Reported?
  }

  lemma {:induction false} EchoesGrow(policy: Policy, names: Names, worlds: seq<World>, steps: seq<Step>, i: nat, n: nat)
    requires Run(policy, names, worlds, steps) && i <= n < |worlds|
    ensures worlds[i].echoed <= worlds[n].echoed
    decreases n - i
  {
    hide Fold, ReplyRace.Appends, Questions, Outstanding;
    if i < n {
      EchoesGrow(policy, names, worlds, steps, i, n - 1);
      assert Next(policy, names, worlds[n - 1], steps[n - 1], worlds[n]);
    }
  }

  /** When a call that has read the replies read them. */
  lemma {:induction false} RepliesWereRead(policy: Policy, names: Names, worlds: seq<World>, steps: seq<Step>, n: nat, call: nat)
    returns (b: nat)
    requires Run(policy, names, worlds, steps) && n < |worlds| && call < |worlds[n].calls| && worlds[n].calls[call].Read?
    ensures b < n && steps[b] == ReadReplies(call) && worlds[n].calls[call].replied == worlds[b].echoed
  {
    hide Fold, ReplyRace.Appends, Questions, Outstanding;
    assert Next(policy, names, worlds[n - 1], steps[n - 1], worlds[n]);
    if steps[n - 1] == ReadReplies(call) {
      b := n - 1;
    } else {
      b := RepliesWereRead(policy, names, worlds, steps, n - 1, call);
    }
  }

  /** When a call that is bound bound, to what nothing it had read echoed. */
  lemma {:induction false} WasBound(policy: Policy, names: Names, worlds: seq<World>, steps: seq<Step>, n: nat, call: nat)
    returns (d: nat)
    requires Run(policy, names, worlds, steps) && n < |worlds| && call < |worlds[n].calls|
    requires HasQuestion(worlds[n].calls[call])
    ensures d < n && call < |worlds[d].calls| && worlds[d].calls[call].Read?
    ensures worlds[n].calls[call].question in Questions(names, worlds[d].log)
    ensures worlds[n].calls[call].question.correlation !in worlds[d].calls[call].replied
  {
    hide Fold, ReplyRace.Appends, Questions, Outstanding;
    assert Next(policy, names, worlds[n - 1], steps[n - 1], worlds[n]);
    if steps[n - 1] == Bind(call) {
      d := n - 1;
    } else {
      d := WasBound(policy, names, worlds, steps, n - 1, call);
    }
  }

  /** Two replies to one question can both land: but whenever one lands, every other
      ever bound to its correlation has read the replies already. Read after, it
      binds to no question answered so. */
  lemma BoundBeforeItLanded(policy: Policy, names: Names, worlds: seq<World>, steps: seq<Step>, a: nat, n: nat, other: nat)
    returns (b: nat)
    requires Run(policy, names, worlds, steps) && a < |steps| && steps[a].AppendReply? && steps[a].landed
    requires n < |worlds| && other < |worlds[n].calls| && HasQuestion(worlds[n].calls[other])
    requires steps[a].call < |worlds[a].calls| && worlds[a].calls[steps[a].call].Bound?
    requires worlds[n].calls[other].question.correlation == worlds[a].calls[steps[a].call].question.correlation
    ensures b < a && steps[b] == ReadReplies(other)
  {
    var d := WasBound(policy, names, worlds, steps, n, other);
    b := RepliesWereRead(policy, names, worlds, steps, d, other);
    assert Next(policy, names, worlds[a], steps[a], worlds[a + 1]);
    var echo := |worlds[a].echoed|;
    assert worlds[a + 1].echoed[echo] == worlds[a].calls[steps[a].call].question.correlation;
    hide Next, Questions;
    if a < b {
      EchoesGrow(policy, names, worlds, steps, a + 1, b);
    }
  }

  // ----- when a report says what was recorded -----

  /** A call that reports its reply on the answers queue recorded the question's answer
      exactly when it found the question in the slot, and found it there still when
      it released it. */
  lemma {:induction false} RecordsWhereFound(policy: Policy, names: Names, worlds: seq<World>, steps: seq<Step>, n: nat, call: nat)
    returns (h: nat, r: nat)
    requires Run(policy, names, worlds, steps) && n < |worlds| && call < |worlds[n].calls|
    requires worlds[n].calls[call].Reported? && worlds[n].calls[call].answered
    ensures h < n && steps[h] == ReadHeld(call) && h <= r < n
    ensures var id := worlds[n].calls[call].question.id;
            worlds[n].calls[call].line.Some?
            <==> && Holds(policy, worlds[h].log, id)
                 && steps[r].Release? && steps[r].call == call && Holds(policy, worlds[r].log, id)
  {
    hide Fold, Questions, Outstanding, Binding, Holds, ReplyRace.Appends, Derive;
    var w, step := worlds[n - 1], steps[n - 1];
    assert Next(policy, names, w, step, worlds[n]);
    if step == ReadHeld(call) {
      h, r := n - 1, n - 1;
    } else if step.Release? && step.call == call {
      h := WasFound(policy, names, worlds, steps, n - 1, call);
      r := n - 1;
      ReleaseDerives(policy, w.log, w.calls[call].question.id, step.appended);
    } else {
      h, r := RecordsWhereFound(policy, names, worlds, steps, n - 1, call);
    }
  }

  lemma ReleaseDerives(policy: Policy, log: seq<Stored>, id: u64, appended: seq<Stored>)
    requires |appended| == |Derive(policy, Fold(policy, log), Op.Answer(id))|
    ensures appended != [] <==> Holds(policy, log, id)
  {
    hide Fold;
  }

  lemma {:induction false} WasFound(policy: Policy, names: Names, worlds: seq<World>, steps: seq<Step>, n: nat, call: nat)
    returns (h: nat)
    requires Run(policy, names, worlds, steps) && n < |worlds| && call < |worlds[n].calls| && worlds[n].calls[call].Found?
    ensures h < n && steps[h] == ReadHeld(call) && Holds(policy, worlds[h].log, worlds[n].calls[call].question.id)
  {
    hide Fold, Questions, Outstanding, ReplyRace.Appends;
    assert Next(policy, names, worlds[n - 1], steps[n - 1], worlds[n]);
    if steps[n - 1] == ReadHeld(call) {
      h := n - 1;
    } else {
      h := WasFound(policy, names, worlds, steps, n - 1, call);
    }
  }
}
