/** Several threads over one plugin pipe: a request outside every section waits
    for the section that holds the pipe, so its lines are never broken into. */
module PluginPipe {
  import opened Wrappers
  import opened PluginProtocol

  /** A line sent, with the section it was sent for, and — of an opening — whether
      it was denied: answered otherwise than done. */
  datatype Sent<Req> = Sent(owner: Option<nat>, line: Line<Req>, denied: bool)

  /** A section a holder is in: one it opened by a line, or one it re-entered. */
  datatype Frame = Frame(queue: Queue, sent: bool)

  /** Where an outermost section has got to: numbered and waiting for the pipe,
      running inside its frames, ended but not yet let go, or over. */
  datatype Phase = Waiting(queue: Queue) | In(stack: seq<Frame>) | Ending | Over

  datatype World<Req> = World(heldBy: Option<nat>, holders: seq<Phase>, trace: seq<Sent<Req>>)

  /** What a thread does while it has the pipe's lock, and the numbering that
      comes before. An opening is answered done or it is denied: then its line is
      sent, its body does not run and it is never ended. */
  datatype Step<Req> =
    | Call(req: Req)
    | Number(queue: Queue)
    | Open(holder: nat, done: bool)
    | Inside(holder: nat, req: Req)
    | Nest(holder: nat, queue: Queue, done: bool)
    | Close(holder: nat, failed: bool)
    | Release(holder: nat)

  predicate Holds(stack: seq<Frame>, queue: Queue) {
    exists f :: f in stack && f.queue == queue
  }

  /** Whether a request sent for `who` need not wait. */
  predicate Free<Req>(w: World<Req>, who: Option<nat>) {
    w.heldBy.None? || w.heldBy == who
  }

  predicate Running<Req>(w: World<Req>, holder: nat) {
    holder < |w.holders| && w.holders[holder].In? && w.holders[holder].stack != []
  }

  predicate Enabled<Req>(w: World<Req>, step: Step<Req>) {
    match step
    case Call(_) => Free(w, None)
    case Number(_) => true
    case Open(h, _) => h < |w.holders| && w.holders[h].Waiting? && Free(w, Some(h))
    case Inside(h, _) => Running(w, h) && Free(w, Some(h))
    case Nest(h, queue, _) => Running(w, h) && (Holds(w.holders[h].stack, queue) || Free(w, Some(h)))
    case Close(h, _) => Running(w, h) && (!Last(w.holders[h].stack).sent || Free(w, Some(h)))
    case Release(h) => h < |w.holders| && w.holders[h].Ending?
  }

  function Last<T>(s: seq<T>): T
    requires s != []
  {
    s[|s| - 1]
  }

  function Apply<Req>(w: World<Req>, step: Step<Req>): World<Req>
    requires Enabled(w, step)
  {
    match step
    case Call(req) => w.(trace := w.trace + [Sent(None, Request(req), false)])
    case Number(queue) => w.(holders := w.holders + [Waiting(queue)])
    case Open(h, done) =>
      var queue := w.holders[h].queue;
      var sent := w.trace + [Sent(Some(h), Begin(queue), !done)];
      if done then World(Some(h), w.holders[h := In([Frame(queue, true)])], sent)
      else w.(holders := w.holders[h := Over], trace := sent)
    case Inside(h, req) => w.(trace := w.trace + [Sent(Some(h), Request(req), false)])
    case Nest(h, queue, done) =>
      var stack := w.holders[h].stack;
      var sent := w.trace + [Sent(Some(h), Begin(queue), !done)];
      if Holds(stack, queue) then w.(holders := w.holders[h := In(stack + [Frame(queue, false)])])
      else if done then World(Some(h), w.holders[h := In(stack + [Frame(queue, true)])], sent)
      else w.(trace := sent)
    case Close(h, failed) =>
      var stack := w.holders[h].stack;
      var top, below := Last(stack), stack[..|stack| - 1];
      var after := if below == [] then Ending else In(below);
      if top.sent then w.(holders := w.holders[h := after], trace := w.trace + [Sent(Some(h), End(top.queue, failed), false)])
      else w.(holders := w.holders[h := after])
    case Release(h) => w.(heldBy := None, holders := w.holders[h := Over])
  }

  ghost predicate Reached<Req>(worlds: seq<World<Req>>, steps: seq<Step<Req>>) {
    && |worlds| == |steps| + 1
    && worlds[0] == World(None, [], [])
    && forall i :: 0 <= i < |steps| ==> Enabled(worlds[i], steps[i]) && worlds[i + 1] == Apply(worlds[i], steps[i])
  }

  // ----- what a well-kept line stream is -----

  /** Where its threads take a line stream to stand: outside every section, or within
      one's owner's, the queues it has open outermost first. */
  datatype Standing = Outside | Within(owner: nat, open: seq<Queue>)

  /** One line more: a request from its section or from outside all, an opening
      of a queue not open, one denied, an end of the innermost open queue — or no
      place for it. */
  function Advance<Req>(at: Standing, sent: Sent<Req>): Option<Standing> {
    match at
    case Outside =>
      if sent.line.Request? && sent.owner.None? then Some(Outside)
      else if sent.line.Begin? && sent.owner.Some? then
        Some(if sent.denied then Outside else Within(sent.owner.value, [sent.line.queue]))
      else None
    case Within(owner, open) =>
      if sent.owner != Some(owner) then None
      else if sent.line.Request? then Some(at)
      else if sent.line.Begin? && sent.line.queue !in open then
        Some(if sent.denied then at else Within(owner, open + [sent.line.queue]))
      else if sent.line.End? && open != [] && sent.line.queue == Last(open) then
        Some(if |open| == 1 then Outside else Within(owner, open[..|open| - 1]))
      else None
  }

  function Scan<Req>(at: Standing, trace: seq<Sent<Req>>): Option<Standing>
    decreases |trace|
  {
    if trace == [] then Some(at)
    else match Advance(at, trace[0])
      case None => None
      case Some(next) => Scan(next, trace[1..])
  }

  lemma {:induction false} ScanOfConcat<Req>(at: Standing, a: seq<Sent<Req>>, b: seq<Sent<Req>>)
    ensures Scan(at, a + b) == match Scan(at, a) case None => None case Some(end) => Scan(end, b)
    decreases |a|
  {
    if a == [] {
      assert a + b == b;
    } else {
      assert (a + b)[0] == a[0] && (a + b)[1..] == a[1..] + b;
      match Advance(at, a[0]) {
        case None =>
        case Some(next) => ScanOfConcat(next, a[1..], b);
      }
    }
  }

  lemma ScanOneMore<Req>(at: Standing, trace: seq<Sent<Req>>, sent: Sent<Req>)
    ensures Scan(at, trace + [sent])
            == match Scan(at, trace) case None => None case Some(end) => Advance(end, sent)
  {
    ScanOfConcat(at, trace, [sent]);
  }

  // ----- every run keeps it -----

  function SentQueues(stack: seq<Frame>): seq<Queue> {
    if stack == [] then []
    else
      var below := SentQueues(stack[..|stack| - 1]);
      if Last(stack).sent then below + [Last(stack).queue] else below
  }

  lemma {:induction false} SentAreHeld(stack: seq<Frame>, queue: Queue)
    requires queue in SentQueues(stack)
    ensures Holds(stack, queue)
  {
    if Last(stack).sent && Last(stack).queue == queue {
      assert Last(stack) in stack;
    } else {
      SentAreHeld(stack[..|stack| - 1], queue);
      var f :| f in stack[..|stack| - 1] && f.queue == queue;
      assert f in stack;
    }
  }

  predicate Idle(phase: Phase) {
    phase.Waiting? || phase.Over?
  }

  /** The pipe is held for the one section that is open or ending, and the lines
      stand where that section does. */
  ghost predicate Kept<Req>(w: World<Req>) {
    && (forall h :: 0 <= h < |w.holders| && w.heldBy != Some(h) ==> Idle(w.holders[h]))
    && match w.heldBy
       case None => Scan(Outside, w.trace) == Some(Outside)
       case Some(h) =>
         && h < |w.holders|
         && match w.holders[h]
            case In(stack) =>
              && stack != [] && stack[0].sent
              && Scan(Outside, w.trace) == Some(Within(h, SentQueues(stack)))
            case Ending => Scan(Outside, w.trace) == Some(Outside)
            case _ => false
  }

  lemma {:induction false} FirstSentStays(stack: seq<Frame>)
    requires stack != [] && stack[0].sent
    ensures SentQueues(stack) != []
  {
    if |stack| > 1 {
      FirstSentStays(stack[..|stack| - 1]);
    }
  }

  lemma NestKeeps<Req>(w: World<Req>, h: nat, queue: Queue, done: bool)
    requires Kept(w) && Enabled(w, Nest(h, queue, done))
    ensures Kept(Apply(w, Nest(h, queue, done)))
  {
    var stack := w.holders[h].stack;
    var pushed := stack + [Frame(queue, !Holds(stack, queue))];
    assert pushed[..|pushed| - 1] == stack;
    if !Holds(stack, queue) {
      if queue in SentQueues(stack) {
        SentAreHeld(stack, queue);
      }
      ScanOneMore(Outside, w.trace, Sent(Some(h), Begin(queue), !done));
    }
  }

  /** What a section leaves open when its innermost frame is closed. */
  lemma SentBelow(stack: seq<Frame>)
    requires stack != [] && stack[0].sent
    ensures var below, open := stack[..|stack| - 1], SentQueues(stack);
            && SentQueues(below) == (if Last(stack).sent then open[..|open| - 1] else open)
            && (Last(stack).sent ==> open != [] && Last(open) == Last(stack).queue)
            && (below == [] ==> Last(stack).sent && |open| == 1)
            && (below != [] ==> below[0] == stack[0] && SentQueues(below) != [])
  {
    var below := stack[..|stack| - 1];
    if below != [] {
      FirstSentStays(below);
    }
  }

  lemma CloseKeeps<Req>(w: World<Req>, h: nat, failed: bool)
    requires Kept(w) && Enabled(w, Close(h, failed))
    ensures Kept(Apply(w, Close(h, failed)))
  {
    hide Scan, SentQueues;
    var stack := w.holders[h].stack;
    SentBelow(stack);
    if Last(stack).sent {
      ScanOneMore(Outside, w.trace, Sent(Some(h), End(Last(stack).queue, failed), false));
    }
  }

  lemma StepKeeps<Req>(w: World<Req>, step: Step<Req>)
    requires Kept(w) && Enabled(w, step)
    ensures Kept(Apply(w, step))
  {
    match step
    case Nest(h, queue, done) => NestKeeps(w, h, queue, done);
    case Close(h, failed) => CloseKeeps(w, h, failed);
    case Call(req) => ScanOneMore(Outside, w.trace, Sent(None, Request(req), false));
    case Inside(h, req) => ScanOneMore(Outside, w.trace, Sent(Some(h), Request(req), false));
    case Open(h, done) =>
      var queue := w.holders[h].queue;
      ScanOneMore(Outside, w.trace, Sent(Some(h), Begin(queue), !done));
      assert SentQueues([Frame(queue, true)]) == [queue];
    case Number(_) =>
    case Release(_) =>
  }

  lemma {:induction false} EveryRunIsKept<Req>(worlds: seq<World<Req>>, steps: seq<Step<Req>>, n: nat)
    requires Reached(worlds, steps) && n < |worlds|
    ensures Kept(worlds[n])
  {
    if n > 0 {
      EveryRunIsKept(worlds, steps, n - 1);
      StepKeeps(worlds[n - 1], steps[n - 1]);
    }
  }

  // ----- when a step may be taken, and what it sends -----

  /** What waits, and for what: a request from outside and an opening wait until nobody
      holds the pipe; a section's own steps and its letting go wait for nothing. */
  lemma MayGoExactly<Req>(w: World<Req>, step: Step<Req>)
    requires Kept(w)
    ensures step.Call? ==> (Enabled(w, step) <==> w.heldBy.None?)
    ensures step.Number? ==> Enabled(w, step)
    ensures step.Open? ==>
              (Enabled(w, step) <==> w.heldBy.None? && step.holder < |w.holders| && w.holders[step.holder].Waiting?)
    ensures step.Inside? || step.Nest? || step.Close? ==>
              (Enabled(w, step) <==> w.heldBy == Some(step.holder) && w.holders[step.holder].In?)
    ensures step.Release? ==> (Enabled(w, step) <==> w.heldBy == Some(step.holder) && w.holders[step.holder].Ending?)
  {
    hide Scan, SentQueues, Holds;
  }

  /** What one step sends: a request is one line, its section's own; an opening is one where
      its queue is not held already, and none where it is; a close is one exactly where an
      opening was; and nothing else is sent. */
  lemma SendsExactly<Req>(w: World<Req>, step: Step<Req>)
    requires Kept(w) && Enabled(w, step)
    ensures var sent := Apply(w, step).trace[|w.trace|..];
            && Apply(w, step).trace == w.trace + sent
            && (step.Call? ==> sent == [Sent(None, Request(step.req), false)])
            && (step.Inside? ==> sent == [Sent(w.heldBy, Request(step.req), false)])
            && (step.Open? ==> sent == [Sent(Some(step.holder), Begin(w.holders[step.holder].queue), !step.done)])
            && (step.Nest? ==> sent == if Holds(w.holders[step.holder].stack, step.queue) then []
                                       else [Sent(w.heldBy, Begin(step.queue), !step.done)])
            && (step.Close? ==> var top := Last(w.holders[step.holder].stack);
                                sent == if top.sent then [Sent(w.heldBy, End(top.queue, step.failed), false)] else [])
            && (step.Number? || step.Release? ==> sent == [])
  {
    hide Scan, SentQueues, Holds;
  }

  /** Where one step takes the sections: only the one it is made in moves, into what it
      opened or re-entered, out of what it closed, and past its end once it is let go. */
  lemma MovesExactly<Req>(w: World<Req>, step: Step<Req>)
    requires Kept(w) && Enabled(w, step)
    ensures var w' := Apply(w, step);
            && (step.Number? ==> w' == w.(holders := w.holders + [Waiting(step.queue)]))
            && (step.Call? || step.Inside? ==> w'.holders == w.holders && w'.heldBy == w.heldBy)
            && (!step.Call? && !step.Inside? && !step.Number? ==>
                  && |w'.holders| == |w.holders|
                  && (forall h | 0 <= h < |w.holders| && h != step.holder :: w'.holders[h] == w.holders[h])
                  && w'.heldBy == if step.Release? || (step.Open? && !step.done) then None else Some(step.holder))
            && (step.Open? ==> w'.holders[step.holder]
                               == if step.done then In([Frame(w.holders[step.holder].queue, true)]) else Over)
            && (step.Nest? ==> var stack := w.holders[step.holder].stack;
                               w'.holders[step.holder]
                               == if Holds(stack, step.queue) then In(stack + [Frame(step.queue, false)])
                                  else if step.done then In(stack + [Frame(step.queue, true)])
                                  else In(stack))
            && (step.Close? ==> var stack := w.holders[step.holder].stack;
                                w'.holders[step.holder] == if |stack| == 1 then Ending else In(stack[..|stack| - 1]))
            && (step.Release? ==> w'.holders[step.holder] == Over)
  {
    hide Scan, SentQueues, Holds;
  }

  /** How many steps a phase is from being let go. */
  function ToGo(phase: Phase): nat {
    match phase
    case In(stack) => |stack| + 1
    case Ending => 1
    case _ => 0
  }

  /** Nothing waits for good: from any point of any run the section that holds the pipe can
      close what it is in and let go, and nobody else has moved meanwhile — so whoever waits
      may then go. */
  lemma {:induction false} CanLetGo<Req>(worlds: seq<World<Req>>, steps: seq<Step<Req>>)
    returns (worlds': seq<World<Req>>, steps': seq<Step<Req>>)
    requires Reached(worlds, steps)
    ensures Reached(worlds', steps') && |worlds| <= |worlds'| && worlds'[..|worlds|] == worlds
    ensures Last(worlds').heldBy.None? && |Last(worlds').holders| == |Last(worlds).holders|
    ensures forall h | 0 <= h < |Last(worlds).holders| && Last(worlds).heldBy != Some(h) ::
              Last(worlds').holders[h] == Last(worlds).holders[h]
    ensures forall i | |steps| <= i < |steps'| ::
              && (steps'[i].Close? || steps'[i].Release?) && Last(worlds).heldBy == Some(steps'[i].holder)
    decreases var w := Last(worlds);
              if w.heldBy.Some? && w.heldBy.value < |w.holders| then ToGo(w.holders[w.heldBy.value]) else 0
  {
    hide Scan, SentQueues;
    EveryRunIsKept(worlds, steps, |steps|);
    var w := Last(worlds);
    if w.heldBy.None? {
      return worlds, steps;
    }
    var h := w.heldBy.value;
    var step: Step<Req> := if w.holders[h].In? then Close(h, false) else Release(h);
    MayGoExactly(w, step);
    MovesExactly(w, step);
    var longer, more := worlds + [Apply(w, step)], steps + [step];
    assert longer[..|worlds|] == worlds;
    if step.Release? {
      return longer, more;
    }
    worlds', steps' := CanLetGo(longer, more);
    assert worlds'[..|longer|][..|worlds|] == worlds'[..|worlds|];
  }

  // ----- what it means -----

  function LinesOf<Req>(trace: seq<Sent<Req>>): (lines: seq<Line<Req>>)
    ensures |lines| == |trace|
    ensures forall i :: 0 <= i < |trace| ==> lines[i] == trace[i].line
  {
    seq(|trace|, i requires 0 <= i < |trace| => trace[i].line)
  }

  lemma LinesOfConcat<Req>(a: seq<Sent<Req>>, b: seq<Sent<Req>>)
    ensures LinesOf(a + b) == LinesOf(a) + LinesOf(b)
  {
  }

  lemma LinesOfOne<Req>(sent: Sent<Req>)
    ensures LinesOf([sent]) == [sent.line] && LinesOf<Req>([]) == []
  {
  }

  /** How many of the openings sent were denied. */
  function DeniedIn<Req>(trace: seq<Sent<Req>>): nat {
    if trace == [] then 0
    else (if trace[0].line.Begin? && trace[0].denied then 1 else 0) + DeniedIn(trace[1..])
  }

  lemma {:induction false} DeniedInConcat<Req>(a: seq<Sent<Req>>, b: seq<Sent<Req>>)
    ensures DeniedIn(a + b) == DeniedIn(a) + DeniedIn(b)
  {
    if a == [] {
      assert a + b == b;
    } else {
      assert (a + b)[0] == a[0] && (a + b)[1..] == a[1..] + b;
      DeniedInConcat(a[1..], b);
    }
  }

  predicate AllDone<Req>(trace: seq<Sent<Req>>) {
    forall i :: 0 <= i < |trace| && trace[i].line.Begin? ==> !trace[i].denied
  }

  lemma {:induction false} NoneDenied<Req>(trace: seq<Sent<Req>>)
    ensures DeniedIn(trace) == 0 <==> AllDone(trace)
  {
    if trace != [] {
      NoneDenied(trace[1..]);
      assert forall i :: 1 <= i < |trace| ==> trace[i] == trace[1..][i - 1];
    }
  }

  function Queues(open: seq<Queue>): set<Queue> {
    set q | q in open
  }

  function NoAnswer<Ans>(): Result<Ans, TransportError> {
    Failure(Other(""))
  }

  /** A section's lines after its opening: those of one run made inside it, then
      its end, all of them its owner's; each opening denied is a denial in the run. */
  ghost predicate IsBody<Req, Ans>(owner: nat, open: seq<Queue>, lines: seq<Sent<Req>>, end: Sent<Req>, body: Run<Req, Ans>)
    requires open != []
  {
    && (forall sent :: sent in lines ==> sent.owner == Some(owner))
    && end.owner == Some(owner) && end.line == End(Last(open), FailureOf(body).Some?)
    && LinesOf(lines) == Lines(Queues(open), body)
    && DeniedIn(lines) == Denials(body)
  }

  lemma DeniedInOne<Req>(sent: Sent<Req>)
    ensures DeniedIn([sent]) == if sent.line.Begin? && sent.denied then 1 else 0
    ensures DeniedIn<Req>([]) == 0
  {
  }

  /** A section within a body, by its opening, its lines and its end, and the rest
      of that body. */
  lemma SectionInBody<Req, Ans>(owner: nat, open: seq<Queue>, begin: Sent<Req>, lines: seq<Sent<Req>>, end: Sent<Req>,
                                body: Run<Req, Ans>, after: seq<Sent<Req>>, last: Sent<Req>, rest: Run<Req, Ans>)
    requires open != [] && begin.owner == Some(owner) && begin.line.Begin? && begin.line.queue !in open && !begin.denied
    requires IsBody(owner, open + [begin.line.queue], lines, end, body) && IsBody(owner, open, after, last, rest)
    ensures IsBody(owner, open, [begin] + lines + [end] + after, last, Section(begin.line.queue, body, None, rest))
  {
    hide LinesOf, DeniedIn;
    LinesOfOne(begin);
    LinesOfOne(end);
    LinesOfConcat([begin], lines);
    LinesOfConcat([begin] + lines, [end]);
    LinesOfConcat([begin] + lines + [end], after);
    DeniedInSection(begin, lines, end, after);
    assert Queues(open + [begin.line.queue]) == Queues(open) + {begin.line.queue};
  }

  lemma DeniedInSection<Req>(begin: Sent<Req>, lines: seq<Sent<Req>>, end: Sent<Req>, after: seq<Sent<Req>>)
    requires begin.line.Begin? && !begin.denied && end.line.End?
    ensures DeniedIn([begin] + lines + [end] + after) == DeniedIn(lines) + DeniedIn(after)
  {
    DeniedInOne(begin);
    DeniedInOne(end);
    DeniedInConcat([begin], lines);
    DeniedInConcat([begin] + lines, [end]);
    DeniedInConcat([begin] + lines + [end], after);
  }

  /** Where a section's end is to come, the lines up to it are its body. */
  lemma {:induction false} BodyOf<Req, Ans>(owner: nat, open: seq<Queue>, trace: seq<Sent<Req>>)
    returns (lines: seq<Sent<Req>>, end: Sent<Req>, body: Run<Req, Ans>, after: seq<Sent<Req>>)
    requires open != [] && Scan(Within(owner, open), trace) == Some(Outside)
    ensures trace == lines + [end] + after
    ensures IsBody(owner, open, lines, end, body)
    ensures Scan(if |open| == 1 then Outside else Within(owner, open[..|open| - 1]), after) == Some(Outside)
    decreases |trace|
  {
    hide IsBody, FailureOf, Lines, LinesOf, Queues, DeniedIn;
    var sent := trace[0];
    if sent.line.End? {
      lines, end, after := [], sent, trace[1..];
      body := Finish(if sent.line.failed then Some(Other("")) else None);
      assert trace == lines + [end] + after;
      EmptyBody(owner, open, end, body);
    } else if sent.line.Request? || sent.denied {
      var rest: seq<Sent<Req>>, next: Run<Req, Ans>;
      rest, end, next, after := BodyOf(owner, open, trace[1..]);
      lines := [sent] + rest;
      body := if sent.line.Request? then Called(sent.line.req, NoAnswer(), next)
              else Denied(sent.line.queue, Other(""), next);
      assert trace == [sent] + trace[1..];
      LineInBody(owner, open, sent, rest, end, next);
    } else {
      var deeper := open + [sent.line.queue];
      assert deeper[..|deeper| - 1] == open;
      var inner: seq<Sent<Req>>, innerEnd: Sent<Req>, innerBody: Run<Req, Ans>, rest: seq<Sent<Req>>;
      inner, innerEnd, innerBody, rest := BodyOf(owner, deeper, trace[1..]);
      var more: seq<Sent<Req>>, next: Run<Req, Ans>;
      more, end, next, after := BodyOf(owner, open, rest);
      lines, body := [sent] + inner + [innerEnd] + more, Section(sent.line.queue, innerBody, None, next);
      Joined(trace, inner, innerEnd, more, end, after);
      SectionInBody(owner, open, sent, inner, innerEnd, innerBody, more, end, next);
    }
  }

  lemma Joined<T>(all: seq<T>, inner: seq<T>, innerEnd: T, more: seq<T>, end: T, after: seq<T>)
    requires all != [] && all[1..] == inner + [innerEnd] + (more + [end] + after)
    ensures all == ([all[0]] + inner + [innerEnd] + more) + [end] + after
  {
    assert all == [all[0]] + all[1..];
  }

  lemma EmptyBody<Req, Ans>(owner: nat, open: seq<Queue>, end: Sent<Req>, body: Run<Req, Ans>)
    requires open != [] && body.Finish?
    requires end.owner == Some(owner) && end.line == End(Last(open), body.failure.Some?)
    ensures IsBody(owner, open, [], end, body)
  {
    LinesOfOne(end);
  }

  /** A request in a body, or an opening in it that is denied. */
  lemma LineInBody<Req, Ans>(owner: nat, open: seq<Queue>, sent: Sent<Req>, lines: seq<Sent<Req>>, end: Sent<Req>,
                             body: Run<Req, Ans>)
    requires open != [] && IsBody(owner, open, lines, end, body)
    requires sent.owner == Some(owner) && (sent.line.Request? || (sent.line.Begin? && sent.denied))
    ensures IsBody(owner, open, [sent] + lines, end,
                   if sent.line.Request? then Called(sent.line.req, NoAnswer(), body)
                   else Denied(sent.line.queue, Other(""), body))
  {
    hide LinesOf, DeniedIn;
    LinesOfOne(sent);
    LinesOfConcat([sent], lines);
    DeniedInOne(sent);
    DeniedInConcat([sent], lines);
  }

  /** Whenever no section is open the lines sent so far are those of one run: an
      interleaving of single requests, whole sections and openings denied. */
  lemma {:induction false} WholeRun<Req, Ans>(trace: seq<Sent<Req>>) returns (run: Run<Req, Ans>)
    requires Scan(Outside, trace) == Some(Outside)
    ensures LinesOf(trace) == Lines({}, run) && DeniedIn(trace) == Denials(run)
    decreases |trace|
  {
    hide LinesOf, FailureOf, DeniedIn;
    if trace == [] {
      run := Finish(None);
      EmptyLines(trace);
    } else {
      var sent := trace[0];
      assert trace == [sent] + trace[1..];
      LinesOfOne(sent);
      LinesOfConcat([sent], trace[1..]);
      DeniedInOne(sent);
      DeniedInConcat([sent], trace[1..]);
      if sent.line.Request? {
        var next: Run<Req, Ans> := WholeRun(trace[1..]);
        run := Called(sent.line.req, NoAnswer(), next);
      } else if sent.denied {
        var next: Run<Req, Ans> := WholeRun(trace[1..]);
        run := Denied(sent.line.queue, Other(""), next);
      } else {
        run := WholeSection(trace);
      }
    }
  }

  lemma {:induction false} WholeSection<Req, Ans>(trace: seq<Sent<Req>>) returns (run: Run<Req, Ans>)
    requires Scan(Outside, trace) == Some(Outside)
    requires trace != [] && trace[0].line.Begin? && !trace[0].denied
    ensures LinesOf(trace) == Lines({}, run) && DeniedIn(trace) == Denials(run)
    decreases |trace|, 0
  {
    hide LinesOf, FailureOf, DeniedIn;
    var queue := trace[0].line.queue;
    var lines: seq<Sent<Req>>, end: Sent<Req>, body: Run<Req, Ans>, after: seq<Sent<Req>>;
    lines, end, body, after := BodyOf(trace[0].owner.value, [queue], trace[1..]);
    var next: Run<Req, Ans> := WholeRun(after);
    run := Section(queue, body, None, next);
    assert trace == [trace[0]] + lines + [end] + after;
    LinesOfOne(trace[0]);
    LinesOfOne(end);
    LinesOfConcat([trace[0]], lines);
    LinesOfConcat([trace[0]] + lines, [end]);
    LinesOfConcat([trace[0]] + lines + [end], after);
    DeniedInSection(trace[0], lines, end, after);
    assert Queues([queue]) == {} + {queue};
  }

  lemma EmptyLines<Req>(trace: seq<Sent<Req>>)
    requires trace == []
    ensures LinesOf(trace) == [] && DeniedIn(trace) == 0
  {
  }

  /** Where the section now open began: outside every section, and its owner's
      lines alone since. */
  lemma {:induction false} OpenedAt<Req>(trace: seq<Sent<Req>>, owner: nat, open: seq<Queue>) returns (k: nat)
    requires Scan(Outside, trace) == Some(Within(owner, open))
    ensures k <= |trace| && Scan(Outside, trace[..k]) == Some(Outside)
    ensures forall i :: k <= i < |trace| ==> trace[i].owner == Some(owner)
    decreases |trace|
  {
    var n := |trace| - 1;
    assert trace == trace[..n] + [trace[n]];
    ScanOneMore(Outside, trace[..n], trace[n]);
    match Scan(Outside, trace[..n]).value {
      case Outside => k := n;
      case Within(_, before) =>
        k := OpenedAt(trace[..n], owner, before);
        assert trace[..n][..k] == trace[..k];
        assert forall i :: k <= i < n ==> trace[i] == trace[..n][i];
    }
  }

  /** In every run, at every point: the lines sent are those of one run made on
      the pipe alone — single requests, whole sections, and an opening for each
      section denied — and after them lines of the one section that holds the pipe. */
  lemma LinesAreOneRun<Req, Ans>(worlds: seq<World<Req>>, steps: seq<Step<Req>>, n: nat)
    returns (k: nat, run: Run<Req, Ans>)
    requires Reached(worlds, steps) && n < |worlds|
    ensures k <= |worlds[n].trace| && LinesOf(worlds[n].trace[..k]) == Lines({}, run)
    ensures Denials(run) == DeniedIn(worlds[n].trace[..k])
    ensures forall i :: k <= i < |worlds[n].trace| ==> worlds[n].heldBy.Some? && worlds[n].trace[i].owner == worlds[n].heldBy
  {
    EveryRunIsKept(worlds, steps, n);
    var w := worlds[n];
    k := |w.trace|;
    if w.heldBy.Some? && w.holders[w.heldBy.value].In? {
      k := OpenedAt(w.trace, w.heldBy.value, SentQueues(w.holders[w.heldBy.value].stack));
    } else {
      assert w.trace[..k] == w.trace;
    }
    run := WholeRun(w.trace[..k]);
  }

  /** Whether lines are single requests and whole, properly nested sections. */
  ghost predicate Whole<Req(!new), Ans(!new)>(lines: seq<Line<Req>>) {
    exists run: Run<Req, Ans> :: Denials(run) == 0 && lines == Lines({}, run)
  }

  /** Whenever the pipe is free, the lines sent are single requests and whole, properly
      nested sections exactly when every opening sent was answered done. */
  lemma LinesAreWholeSections<Req(!new), Ans(!new)>(worlds: seq<World<Req>>, steps: seq<Step<Req>>, n: nat)
    requires Reached(worlds, steps) && n < |worlds| && worlds[n].heldBy.None?
    ensures Whole<Req, Ans>(LinesOf(worlds[n].trace)) <==> AllDone(worlds[n].trace)
  {
    EveryRunIsKept(worlds, steps, n);
    hide LinesOf, DeniedIn, AllDone;
    var lines := LinesOf(worlds[n].trace);
    var run: Run<Req, Ans> := WholeRun(worlds[n].trace);
    NoneDenied(worlds[n].trace);
    if Whole<Req, Ans>(lines) {
      var whole: Run<Req, Ans> :| Denials(whole) == 0 && lines == Lines({}, whole);
      DepthOfLines({}, whole);
      DepthOfLines({}, run);
    }
  }

  // ----- who sends inside what the lines have open -----

  /** The sections lines open and do not end, outermost first, with their owners: an
      end of any but the innermost ends nothing. */
  function OpenOn<Req>(trace: seq<Sent<Req>>): (open: seq<Sent<Req>>)
    ensures forall sent :: sent in open ==> sent.line.Begin?
  {
    if trace == [] then []
    else
      var before, last := OpenOn(trace[..|trace| - 1]), Last(trace);
      if last.line.Begin? then before + [last]
      else if last.line.End? && before != [] && Last(before).line.queue == last.line.queue then before[..|before| - 1]
      else before
  }

  /** Where no opening was denied, what its threads take to be open is what the
      lines have open. */
  lemma {:induction false} StandsAsOpen<Req>(trace: seq<Sent<Req>>)
    requires Scan(Outside, trace).Some? && AllDone(trace)
    ensures match Scan(Outside, trace).value
            case Outside => OpenOn(trace) == []
            case Within(owner, open) =>
              |OpenOn(trace)| == |open|
              && forall i :: 0 <= i < |open| ==>
                   OpenOn(trace)[i].owner == Some(owner) && OpenOn(trace)[i].line.queue == open[i]
  {
    if trace != [] {
      hide Scan;
      var n := |trace| - 1;
      assert trace == trace[..n] + [trace[n]];
      ScanOneMore(Outside, trace[..n], trace[n]);
      assert forall i :: 0 <= i < n ==> trace[..n][i] == trace[i];
      StandsAsOpen(trace[..n]);
    }
  }

  /** Where every opening so far was answered done, the line after it, while the lines
      have a section open, is that section's own. */
  lemma OnlyTheHolderSends<Req>(worlds: seq<World<Req>>, steps: seq<Step<Req>>, n: nat, k: nat)
    requires Reached(worlds, steps) && n < |worlds| && k < |worlds[n].trace|
    requires AllDone(worlds[n].trace[..k]) && OpenOn(worlds[n].trace[..k]) != []
    ensures forall sent :: sent in OpenOn(worlds[n].trace[..k]) ==> sent.owner == worlds[n].trace[k].owner
  {
    EveryRunIsKept(worlds, steps, n);
    hide AllDone;
    var trace := worlds[n].trace;
    assert trace == trace[..k] + trace[k..];
    ScanOfConcat(Outside, trace[..k], trace[k..]);
    StandsAsOpen(trace[..k]);
  }

  /** The lines have at least as many sections open as they open and do not end. */
  lemma {:induction false} OpenAtLeast<Req>(trace: seq<Sent<Req>>)
    ensures |OpenOn(trace)| >= Depth(LinesOf(trace))
  {
    hide LinesOf;
    if trace == [] {
      EmptyLines(trace);
    } else {
      var before, last := trace[..|trace| - 1], Last(trace);
      OpenAtLeast(before);
      assert trace == before + [last];
      LinesOfConcat(before, [last]);
      LinesOfOne(last);
      DepthOfConcat(LinesOf(before), [last.line]);
      assert Depth([last.line][1..]) == 0;
    }
  }

  /** Lines whose threads have ended every section they opened leave one open exactly
      where an opening was denied. */
  lemma OpenExactlyAfterDenial<Req>(trace: seq<Sent<Req>>)
    requires Scan(Outside, trace) == Some(Outside)
    ensures OpenOn(trace) == [] <==> AllDone(trace)
  {
    hide LinesOf, DeniedIn, AllDone, OpenOn, Depth, Lines, Denials, Scan;
    if AllDone(trace) {
      StandsAsOpen(trace);
    } else {
      NoneDenied(trace);
      var run: Run<Req, Req> := WholeRun(trace);
      DepthOfLines({}, run);
      OpenAtLeast(trace);
    }
  }

  /** And only there: while no thread holds the pipe a request from outside every
      section may come next, and then the lines have a section open for it to land in
      exactly when an opening was denied. */
  lemma OthersSendInsideAfterDenial<Req>(worlds: seq<World<Req>>, steps: seq<Step<Req>>, req: Req)
    requires Reached(worlds, steps) && Last(worlds).heldBy.None?
    ensures OpenOn(Last(worlds).trace) == [] <==> AllDone(Last(worlds).trace)
    ensures Enabled(Last(worlds), Call(req)) && Reached(worlds + [Apply(Last(worlds), Call(req))], steps + [Call(req)])
    ensures Last(Apply(Last(worlds), Call(req)).trace).owner == None
  {
    hide OpenOn, AllDone, Scan;
    var w := Last(worlds);
    EveryRunIsKept(worlds, steps, |steps|);
    OpenExactlyAfterDenial(w.trace);
    var longer := worlds + [Apply(w, Call(req))];
    assert longer[..|worlds|] == worlds;
  }

  /** Such a run: one thread's opening is denied, and another's request follows. */
  lemma DeniedOpeningBreaksIn<Req(!new), Ans(!new)>(queue: Queue, req: Req)
    returns (worlds: seq<World<Req>>, steps: seq<Step<Req>>)
    ensures Reached(worlds, steps) && Last(worlds).heldBy.None?
    ensures Last(worlds).trace == [Sent(Some(0), Begin(queue), true), Sent(None, Request(req), false)]
    ensures OpenOn(Last(worlds).trace[..1]) != [] && !Whole<Req, Ans>(LinesOf(Last(worlds).trace))
  {
    var begin, request := Sent(Some(0), Begin(queue), true), Sent(None, Request(req), false);
    worlds := [World(None, [], []), World(None, [Waiting(queue)], []), World(None, [Over], [begin]),
               World(None, [Over], [begin, request])];
    steps := [Number(queue), Open(0, false), Call(req)];
    LinesAreWholeSections<Req, Ans>(worlds, steps, 3);
    assert worlds[3].trace[0] == begin && worlds[3].trace[..1][..0] == [];
    hide Whole;
  }
}
