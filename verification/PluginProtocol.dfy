/** A transport served over one pipe: nested exclusive sections flattened to
    request lines by the client, and parsed back by recursion where they are
    served. */
module PluginProtocol {
  import opened Wrappers

  type Queue = string

  /** Why a transport refused: the two refusals a queue acts on, and every other
      by its text. */
  datatype TransportError =
    | PastEnd(queue: Queue, position: nat, end: nat)
    | NotABoundary(queue: Queue, position: nat)
    | Other(text: string)

  /** Why a request was not done, as the wire carries it. */
  datatype PluginError =
    | PastEndReply(queue: Queue, position: nat, end: nat)
    | NotABoundaryReply(queue: Queue, position: nat)
    | Refused(message: string)
    | Protocol(message: string)

  /** A backend's failure, by the transport that met it. */
  function Backend(kind: string, detail: string): TransportError {
    Other("the " + kind + " transport: " + detail)
  }

  function ToWire(e: TransportError): PluginError {
    match e
    case PastEnd(queue, position, end) => PastEndReply(queue, position, end)
    case NotABoundary(queue, position) => NotABoundaryReply(queue, position)
    case Other(text) => Refused(text)
  }

  function FromWire(kind: string, e: PluginError): TransportError {
    match e
    case PastEndReply(queue, position, end) => PastEnd(queue, position, end)
    case NotABoundaryReply(queue, position) => NotABoundary(queue, position)
    case Refused(message) => Backend(kind, message)
    case Protocol(message) => Backend(kind, message)
  }

  /** The refusals a queue acts on come back as they went; only the text of the
      others grows, by the name of the kind that carried it. */
  lemma ErrorsComeBack(kind: string, e: TransportError)
    ensures FromWire(kind, ToWire(e)) == e <==> !e.Other?
    ensures e.Other? ==> FromWire(kind, ToWire(e)) == Other("the " + kind + " transport: " + e.text)
  {
    if e.Other? {
      assert |Backend(kind, e.text).text| > |e.text|;
    }
  }

  /** A transport: single exchanges, and exclusive sections it opens before the
      body runs and closes after — or refuses to open, running no body. */
  datatype Transport<!S, !Req, Ans> = Transport(
    call: (S, Req) -> (S, Result<Ans, TransportError>),
    enter: (S, Queue) -> Result<S, TransportError>,
    leave: (S, Queue, bool) -> (S, Option<TransportError>))

  datatype Line<Req> = Request(req: Req) | Begin(queue: Queue) | End(queue: Queue, failed: bool) | Unreadable | Blank

  datatype Reply<Ans> = Done | Answer(ans: Ans) | Error(error: PluginError)

  // ----- the server -----

  datatype Ending = OutOfInput | Ended(failed: bool)

  /** What serving made: the state, the replies written, the lines left, how it
      ended; and, counted, the sections the transport refused to open and the
      sections the input ended inside. */
  datatype Served<S, Req, Ans> = Served(state: S, replies: seq<Reply<Ans>>, rest: seq<Line<Req>>, ending: Ending,
                                        refused: nat, unclosed: nat)

  /** What a section's body failed with, as the server tells its transport: the
      client said so, or went away inside it. */
  function BodyFailure(queue: Queue, ending: Ending): Option<TransportError> {
    match ending
    case Ended(false) => None
    case Ended(true) => Some(Backend("plugin", "the client's section over " + queue + " failed"))
    case OutOfInput => Some(Backend("plugin", "the client went away inside its section over " + queue))
  }

  /** The reply to a section's end: the body's failure, or else the transport's
      own in closing it. */
  function EndReply<Ans>(failure: Option<TransportError>, own: Option<TransportError>): Reply<Ans> {
    if failure.Some? then Error(ToWire(failure.value))
    else if own.Some? then Error(ToWire(own.value))
    else Done
  }

  function CallReply<Ans>(answer: Result<Ans, TransportError>): Reply<Ans> {
    match answer
    case Success(ans) => Answer(ans)
    case Failure(e) => Error(ToWire(e))
  }

  /** What serving made, after replies already written and counts already made. */
  function Before<S, Req, Ans>(replies: seq<Reply<Ans>>, refused: nat, unclosed: nat, served: Served<S, Req, Ans>)
    : Served<S, Req, Ans>
  {
    Served(served.state, replies + served.replies, served.rest, served.ending, refused + served.refused,
           unclosed + served.unclosed)
  }

  lemma BeforeTwice<S, Req, Ans>(first: seq<Reply<Ans>>, refused: nat, unclosed: nat, second: seq<Reply<Ans>>,
                                 refused': nat, unclosed': nat, served: Served<S, Req, Ans>)
    ensures Before(first, refused, unclosed, Before(second, refused', unclosed', served))
            == Before(first + second, refused + refused', unclosed + unclosed', served)
  {
    assert first + (second + served.replies) == (first + second) + served.replies;
  }

  /** A line that neither opens a section nor ends one: the state after it, the
      replies to it, and whether it is a section the transport refused to open —
      which is acknowledged before it is tried, so it is answered twice. */
  function Exchange<S, Req, Ans>(t: Transport<S, Req, Ans>, s: S, line: Line<Req>): (S, seq<Reply<Ans>>, nat) {
    match line
    case Blank => (s, [], 0)
    case Unreadable => (s, [Error(Protocol("not a request"))], 0)
    case Request(req) =>
      var (s', answer) := t.call(s, req);
      (s', [CallReply(answer)], 0)
    case End(_, _) => (s, [Error(Protocol("no open section holds it"))], 0)
    case Begin(queue) =>
      match t.enter(s, queue)
      case Failure(e) => (s, [Done, Error(ToWire(e))], 1)
      case Success(_) => (s, [Done], 0)
  }

  predicate Opens<S, Req, Ans>(t: Transport<S, Req, Ans>, s: S, line: Line<Req>) {
    line.Begin? && t.enter(s, line.queue).Success?
  }

  /** Serve lines until the input ends, or the end of `section` arrives. */
  function ServeUntil<S, Req, Ans>(t: Transport<S, Req, Ans>, s: S, lines: seq<Line<Req>>, section: Option<Queue>)
    : (served: Served<S, Req, Ans>)
    ensures |served.rest| <= |lines|
    ensures lines != [] ==> |served.rest| < |lines|
    ensures served.ending.OutOfInput? ==> served.rest == []
    ensures section.None? ==> served.ending.OutOfInput?
    ensures served.ending.Ended? ==> served.unclosed == 0
    decreases |lines|, 0
  {
    if lines == [] then Served(s, [], [], OutOfInput, 0, if section.Some? then 1 else 0)
    else
      var line, rest := lines[0], lines[1..];
      if line.End? && section == Some(line.queue) then Served(s, [], rest, Ended(line.failed), 0, 0)
      else if Opens(t, s, line) then ServeSection(t, t.enter(s, line.queue).value, line.queue, rest, section)
      else
        var (s', replies, refused) := Exchange(t, s, line);
        Before(replies, refused, 0, ServeUntil(t, s', rest, section))
  }

  /** Serve the lines of a section the transport opened, up to its end, and then
      what follows it. */
  function ServeSection<S, Req, Ans>(t: Transport<S, Req, Ans>, inside: S, queue: Queue, rest: seq<Line<Req>>,
                                     section: Option<Queue>)
    : (served: Served<S, Req, Ans>)
    ensures |served.rest| <= |rest|
    ensures served.ending.OutOfInput? ==> served.rest == []
    ensures section.None? ==> served.ending.OutOfInput?
    ensures served.ending.Ended? ==> served.unclosed == 0
    decreases |rest|, 1
  {
    var inner := ServeUntil(t, inside, rest, Some(queue));
    var failure := BodyFailure(queue, inner.ending);
    var (closed, own) := t.leave(inner.state, queue, failure.Some?);
    Before([Done] + inner.replies + [EndReply(failure, own)], inner.refused, inner.unclosed,
           ServeUntil(t, closed, inner.rest, section))
  }

  lemma ServeNothing<S, Req, Ans>(t: Transport<S, Req, Ans>, s: S, section: Option<Queue>)
    ensures ServeUntil(t, s, [], section) == Served(s, [], [], OutOfInput, 0, if section.Some? then 1 else 0)
  {
  }

  /** A line that is no request is answered so, and nothing else comes of it; and so is an
      end of no open section. */
  lemma NotARequest<S, Req, Ans>(t: Transport<S, Req, Ans>, s: S, queue: Queue, failed: bool, rest: seq<Line<Req>>,
                                 section: Option<Queue>)
    ensures ServeUntil(t, s, [Unreadable] + rest, section)
            == Before([Error(Protocol("not a request"))], 0, 0, ServeUntil(t, s, rest, section))
    ensures section != Some(queue) ==>
              ServeUntil(t, s, [End(queue, failed)] + rest, section)
              == Before([Error(Protocol("no open section holds it"))], 0, 0, ServeUntil(t, s, rest, section))
    ensures ServeUntil(t, s, [Blank] + rest, section) == Before([], 0, 0, ServeUntil(t, s, rest, section))
  {
    var unreadable, end, blank := [Unreadable] + rest, [End(queue, failed)] + rest, [Blank] + rest;
    assert unreadable[1..] == rest && end[1..] == rest && blank[1..] == rest;
    ServeNext(t, s, unreadable, section);
    ServeNext(t, s, end, section);
    ServeNext(t, s, blank, section);
    hide ServeUntil, ServeSection;
  }

  /** A client lost inside a section: the transport is told that the section failed, and
      so is the end of the input. */
  lemma ClientLostInside<S, Req, Ans>(t: Transport<S, Req, Ans>, s: S, queue: Queue, lines: seq<Line<Req>>,
                                      section: Option<Queue>)
    requires t.enter(s, queue).Success?
    requires ServeUntil(t, t.enter(s, queue).value, lines, Some(queue)).ending.OutOfInput?
    ensures var inner := ServeUntil(t, t.enter(s, queue).value, lines, Some(queue));
            var served := ServeUntil(t, s, [Begin(queue)] + lines, section);
            && served.state == t.leave(inner.state, queue, true).0
            && served.replies
               == [Done] + inner.replies
                  + [Error(ToWire(Backend("plugin", "the client went away inside its section over " + queue)))]
            && served.ending == OutOfInput && served.rest == []
  {
    var all := [Begin(queue)] + lines;
    assert all[0] == Begin(queue) && all[1..] == lines;
    ServeNext(t, s, all, section);
    var inner := ServeUntil(t, t.enter(s, queue).value, lines, Some(queue));
    var failure := BodyFailure(queue, inner.ending);
    ServeNothing(t, t.leave(inner.state, queue, true).0, section);
    hide ServeUntil, ServeSection, BodyFailure;
  }

  /** A section its client ended: the transport is told that it failed exactly where the
      client said so. */
  lemma ClientEndedIt<S, Req, Ans>(t: Transport<S, Req, Ans>, s: S, queue: Queue, failed: bool, rest: seq<Line<Req>>,
                                   section: Option<Queue>)
    requires t.enter(s, queue).Success?
    ensures var (closed, own) := t.leave(t.enter(s, queue).value, queue, failed);
            var after := ServeUntil(t, closed, rest, section);
            var served := ServeUntil(t, s, [Begin(queue), End(queue, failed)] + rest, section);
            && served.state == after.state
            && served.replies
               == [Done, if failed then Error(ToWire(Backend("plugin", "the client's section over " + queue + " failed")))
                         else if own.Some? then Error(ToWire(own.value)) else Done]
                  + after.replies
  {
    var all := [Begin(queue), End(queue, failed)] + rest;
    assert all[0] == Begin(queue) && all[1..][0] == End(queue, failed) && all[1..][1..] == rest;
    ServeNext(t, s, all, section);
    ServeNext(t, t.enter(s, queue).value, all[1..], Some(queue));
    hide ServeUntil, ServeSection;
  }

  /** One line further into serving. */
  lemma ServeNext<S, Req, Ans>(t: Transport<S, Req, Ans>, s: S, lines: seq<Line<Req>>, section: Option<Queue>)
    requires lines != []
    ensures var line, rest := lines[0], lines[1..];
            ServeUntil(t, s, lines, section)
            == if line.End? && section == Some(line.queue) then Served(s, [], rest, Ended(line.failed), 0, 0)
               else if Opens(t, s, line) then
                 var inner := ServeUntil(t, t.enter(s, line.queue).value, rest, Some(line.queue));
                 var failure := BodyFailure(line.queue, inner.ending);
                 var (closed, own) := t.leave(inner.state, line.queue, failure.Some?);
                 Before([Done] + inner.replies + [EndReply(failure, own)], inner.refused, inner.unclosed,
                        ServeUntil(t, closed, inner.rest, section))
               else
                 var (s', replies, refused) := Exchange(t, s, line);
                 Before(replies, refused, 0, ServeUntil(t, s', rest, section))
  {
    hide Exchange, BodyFailure, EndReply;
  }

  /** The loop a plugin runs: it reads lines, writes replies, and runs itself for
      a section's lines. */
  method Serve<S, Req, Ans>(t: Transport<S, Req, Ans>, start: S, lines: seq<Line<Req>>, section: Option<Queue>)
    returns (served: Served<S, Req, Ans>)
    ensures served == ServeUntil(t, start, lines, section)
    decreases |lines|
  {
    hide Exchange, BodyFailure, EndReply, ServeUntil, ServeSection;
    var s, left := start, lines;
    var replies: seq<Reply<Ans>>, refused: nat, unclosed: nat := [], 0, 0;
    while left != []
      invariant |left| <= |lines|
      invariant ServeUntil(t, start, lines, section)
             == Before(replies, refused, unclosed, ServeUntil(t, s, left, section))
      decreases |left|
    {
      var line, rest := left[0], left[1..];
      ServeNext(t, s, left, section);
      if line.End? && section == Some(line.queue) {
        return Served(s, replies, rest, Ended(line.failed), refused, unclosed);
      }
      if Opens(t, s, line) {
        var inner := Serve(t, t.enter(s, line.queue).value, rest, Some(line.queue));
        var failure := BodyFailure(line.queue, inner.ending);
        var (closed, own) := t.leave(inner.state, line.queue, failure.Some?);
        var written := [Done] + inner.replies + [EndReply(failure, own)];
        BeforeTwice(replies, refused, unclosed, written, inner.refused, inner.unclosed,
                    ServeUntil(t, closed, inner.rest, section));
        s, left := closed, inner.rest;
        replies, refused, unclosed := replies + written, refused + inner.refused, unclosed + inner.unclosed;
      } else {
        var (s', written, again) := Exchange(t, s, line);
        BeforeTwice(replies, refused, unclosed, written, again, 0, ServeUntil(t, s', rest, section));
        s, left := s', rest;
        replies, refused := replies + written, refused + again;
      }
    }
    ServeNothing(t, s, section);
    served := Served(s, replies, [], OutOfInput, refused, unclosed + if section.Some? then 1 else 0);
  }

  /** How many of the lines are not blank. */
  function Asked<Req>(lines: seq<Line<Req>>): nat {
    if lines == [] then 0 else (if lines[0].Blank? then 0 else 1) + Asked(lines[1..])
  }

  /** One reply for each line — the end that closes a section answered outside
      it — and one more for each section the transport refused to open, since its
      opening was acknowledged first, and for each the input ended inside. So the
      replies pair with the lines exactly when there is none of either. */
  lemma {:induction false} RepliesCounted<S, Req, Ans>(t: Transport<S, Req, Ans>, s: S, lines: seq<Line<Req>>,
                                                       section: Option<Queue>)
    ensures var served := ServeUntil(t, s, lines, section);
            |served.replies| + (if section.Some? then 1 else 0) + Asked(served.rest)
            == Asked(lines) + served.refused + served.unclosed
    decreases |lines|
  {
    if lines != [] {
      var line, rest := lines[0], lines[1..];
      if line.End? && section == Some(line.queue) {
      } else if Opens(t, s, line) {
        var inside := t.enter(s, line.queue).value;
        RepliesCounted(t, inside, rest, Some(line.queue));
        var inner := ServeUntil(t, inside, rest, Some(line.queue));
        var (closed, _) := t.leave(inner.state, line.queue, BodyFailure(line.queue, inner.ending).Some?);
        RepliesCounted(t, closed, inner.rest, section);
      } else {
        RepliesCounted(t, Exchange(t, s, line).0, rest, section);
      }
    }
  }

  /** How what serving wrote by the end of some lines stands to what it writes
      when `more` follow: all its replies but those for sections still open begin
      the longer run's. */
  ghost predicate Continues<S, Req, Ans>(short: Served<S, Req, Ans>, long: Served<S, Req, Ans>, more: seq<Line<Req>>,
                                          section: Option<Queue>)
  {
    if short.ending.Ended? then long == short.(rest := short.rest + more)
    else
      var open := short.unclosed - (if section.Some? then 1 else 0);
      0 <= open <= |short.replies| && short.replies[..|short.replies| - open] <= long.replies
  }

  lemma ContinuesBefore<S, Req, Ans>(replies: seq<Reply<Ans>>, refused: nat, short: Served<S, Req, Ans>,
                                     long: Served<S, Req, Ans>, more: seq<Line<Req>>, section: Option<Queue>)
    requires Continues(short, long, more, section)
    ensures Continues(Before(replies, refused, 0, short), Before(replies, refused, 0, long), more, section)
  {
    if !short.ending.Ended? {
      var open := short.unclosed - (if section.Some? then 1 else 0);
      var n := |short.replies| - open;
      assert (replies + short.replies)[..|replies| + n] == replies + short.replies[..n];
    }
  }

  /** A section still open has written all but the reply to its own end. */
  lemma OpenSectionContinues<S, Req, Ans>(t: Transport<S, Req, Ans>, inside: S, queue: Queue, rest: seq<Line<Req>>,
                                          more: seq<Line<Req>>, section: Option<Queue>)
    requires ServeUntil(t, inside, rest, Some(queue)).ending.OutOfInput?
    requires Continues(ServeUntil(t, inside, rest, Some(queue)), ServeUntil(t, inside, rest + more, Some(queue)), more,
                       Some(queue))
    ensures Continues(ServeSection(t, inside, queue, rest, section), ServeSection(t, inside, queue, rest + more, section),
                      more, section)
  {
    hide ServeUntil, BodyFailure, EndReply;
    var short, long := ServeUntil(t, inside, rest, Some(queue)), ServeUntil(t, inside, rest + more, Some(queue));
    var failure := BodyFailure(queue, short.ending);
    var (closed, own) := t.leave(short.state, queue, failure.Some?);
    ServeNothing(t, closed, section);
    var failure' := BodyFailure(queue, long.ending);
    var (closed', own') := t.leave(long.state, queue, failure'.Some?);
    var after := ServeUntil(t, closed', long.rest, section).replies;
    BeginsAlike(Done, short.replies, EndReply(failure, own), long.replies, [EndReply(failure', own')] + after,
                |short.replies| - (short.unclosed - 1));
  }

  lemma BeginsAlike<T>(first: T, short: seq<T>, last: T, long: seq<T>, after: seq<T>, n: nat)
    requires n <= |short| && short[..n] <= long
    ensures ([first] + short + [last] + [])[..n + 1] <= [first] + long + after
    ensures after != [] ==> [first] + long + after == [first] + long + [after[0]] + after[1..]
  {
    assert ([first] + short + [last] + [])[..n + 1] == [first] + short[..n];
  }

  /** A section that ended goes on as what follows it does. */
  lemma EndedSectionContinues<S, Req, Ans>(t: Transport<S, Req, Ans>, inside: S, queue: Queue, rest: seq<Line<Req>>,
                                           more: seq<Line<Req>>, section: Option<Queue>)
    requires var short := ServeUntil(t, inside, rest, Some(queue));
             && short.ending.Ended?
             && ServeUntil(t, inside, rest + more, Some(queue)) == short.(rest := short.rest + more)
             && var closed := t.leave(short.state, queue, BodyFailure(queue, short.ending).Some?).0;
             Continues(ServeUntil(t, closed, short.rest, section), ServeUntil(t, closed, short.rest + more, section),
                       more, section)
    ensures Continues(ServeSection(t, inside, queue, rest, section), ServeSection(t, inside, queue, rest + more, section),
                      more, section)
  {
    hide ServeUntil, Continues;
    var short := ServeUntil(t, inside, rest, Some(queue));
    var failure := BodyFailure(queue, short.ending);
    var (closed, own) := t.leave(short.state, queue, failure.Some?);
    var replies := [Done] + short.replies + [EndReply(failure, own)];
    ContinuesBefore(replies, short.refused, ServeUntil(t, closed, short.rest, section),
                    ServeUntil(t, closed, short.rest + more, section), more, section);
  }

  /** Serving answers line by line: a client that waits for each reply is never
      kept waiting for a line it has not sent. */
  lemma {:induction false} AnswersLineByLine<S, Req, Ans>(t: Transport<S, Req, Ans>, s: S, lines: seq<Line<Req>>,
                                                          more: seq<Line<Req>>, section: Option<Queue>)
    ensures Continues(ServeUntil(t, s, lines, section), ServeUntil(t, s, lines + more, section), more, section)
    decreases |lines|
  {
    hide ServeSection, Exchange;
    var whole := lines + more;
    if lines != [] {
      var line, rest := lines[0], lines[1..];
      assert whole[0] == line && whole[1..] == rest + more;
      if line.End? && section == Some(line.queue) {
      } else if Opens(t, s, line) {
        var inside := t.enter(s, line.queue).value;
        AnswersLineByLine(t, inside, rest, more, Some(line.queue));
        var inner := ServeUntil(t, inside, rest, Some(line.queue));
        if inner.ending.Ended? {
          var closed := t.leave(inner.state, line.queue, BodyFailure(line.queue, inner.ending).Some?).0;
          AnswersLineByLine(t, closed, inner.rest, more, section);
          EndedSectionContinues(t, inside, line.queue, rest, more, section);
        } else {
          OpenSectionContinues(t, inside, line.queue, rest, more, section);
        }
      } else {
        var (s', replies, refused) := Exchange(t, s, line);
        AnswersLineByLine(t, s', rest, more, section);
        ContinuesBefore(replies, refused, ServeUntil(t, s', rest, section), ServeUntil(t, s', rest + more, section),
                        more, section);
      }
    }
  }

  // ----- the client -----

  /** One run of a client against a transport, with what each call answered it: a
      call, a section run to its end, a section it was denied — its body not run —
      or the end of the run, which may be a failure of the client's own. */
  datatype Run<Req, Ans> =
    | Finish(failure: Option<TransportError>)
    | Called(req: Req, answer: Result<Ans, TransportError>, next: Run<Req, Ans>)
    | Section(queue: Queue, body: Run<Req, Ans>, result: Option<TransportError>, next: Run<Req, Ans>)
    | Denied(queue: Queue, error: TransportError, next: Run<Req, Ans>)

  function FailureOf<Req, Ans>(run: Run<Req, Ans>): Option<TransportError> {
    match run
    case Finish(failure) => failure
    case Called(_, _, next) => FailureOf(next)
    case Section(_, _, _, next) => FailureOf(next)
    case Denied(_, _, next) => FailureOf(next)
  }

  /** How many sections the client was denied. */
  function Denials<Req, Ans>(run: Run<Req, Ans>): nat {
    match run
    case Finish(_) => 0
    case Called(_, _, next) => Denials(next)
    case Section(_, body, _, next) => Denials(body) + Denials(next)
    case Denied(_, _, next) => 1 + Denials(next)
  }

  /** The lines a client holding `holding` sends: a section it already holds is
      re-entered without a line, and one it is denied is never ended. */
  function Lines<Req, Ans>(holding: set<Queue>, run: Run<Req, Ans>): seq<Line<Req>>
    decreases run
  {
    match run
    case Finish(_) => []
    case Called(req, _, next) => [Request(req)] + Lines(holding, next)
    case Section(queue, body, _, next) =>
      if queue in holding then Lines(holding, body) + Lines(holding, next)
      else [Begin(queue)] + Lines(holding + {queue}, body) + [End(queue, FailureOf(body).Some?)] + Lines(holding, next)
    case Denied(queue, _, next) => [Begin(queue)] + Lines(holding, next)
  }

  /** What a reply to a single request is to the client. */
  function Heard<Ans>(kind: string, reply: Reply<Ans>): Result<Ans, TransportError> {
    match reply
    case Answer(ans) => Success(ans)
    case Error(e) => Failure(FromWire(kind, e))
    case Done => Failure(Backend(kind, "the plugin answered out of turn"))
  }

  /** A section's result to the client: the body's own failure, or what the reply
      to its end says. */
  function SectionHeard<Ans>(kind: string, failure: Option<TransportError>, reply: Reply<Ans>): Option<TransportError> {
    if failure.Some? then failure
    else match reply
      case Done => None
      case Error(e) => Some(FromWire(kind, e))
      case Answer(_) => Some(Backend(kind, "the plugin answered out of turn"))
  }

  /** Whether a client reading `replies` in order would make exactly this run. */
  predicate Piped<Req(==), Ans(==)>(kind: string, holding: set<Queue>, run: Run<Req, Ans>, replies: seq<Reply<Ans>>)
    requires |replies| == |Lines(holding, run)|
    decreases run
  {
    match run
    case Finish(_) => true
    case Called(_, answer, next) => Heard(kind, replies[0]) == answer && Piped(kind, holding, next, replies[1..])
    case Section(queue, body, result, next) =>
      if queue in holding then
        var n := |Lines(holding, body)|;
        && Piped(kind, holding, body, replies[..n])
        && result == FailureOf(body)
        && Piped(kind, holding, next, replies[n..])
      else
        var n := |Lines(holding + {queue}, body)|;
        && replies[0] == Done
        && Piped(kind, holding + {queue}, body, replies[1..n + 1])
        && result == SectionHeard(kind, FailureOf(body), replies[n + 1])
        && Piped(kind, holding, next, replies[n + 2..])
    case Denied(queue, error, next) =>
      && queue !in holding
      && SectionHeard(kind, None, replies[0]) == Some(error)
      && Piped(kind, holding, next, replies[1..])
  }

  /** What a client makes of the replies it reads, whoever wrote them. An answer is what it
      called for; an error is the transport's, and anything else is out of turn. It goes
      into a section only where its opening was answered done, and is otherwise denied it;
      and a section succeeds only where its body did and its end was answered done. */
  lemma ClientReads<Req, Ans>(kind: string, holding: set<Queue>, run: Run<Req, Ans>, replies: seq<Reply<Ans>>)
    requires |replies| == |Lines(holding, run)| && Piped(kind, holding, run, replies)
    ensures run.Called? ==>
              run.answer == if replies[0].Answer? then Success(replies[0].ans)
                            else if replies[0].Error? then Failure(FromWire(kind, replies[0].error))
                            else Failure(Backend(kind, "the plugin answered out of turn"))
    ensures run.Section? && run.queue !in holding ==>
              && replies[0] == Done
              && var end := |Lines(holding + {run.queue}, run.body)| + 1;
                 && end < |replies|
                 && run.result == if FailureOf(run.body).Some? then FailureOf(run.body)
                                  else if replies[end].Done? then None
                                  else if replies[end].Error? then Some(FromWire(kind, replies[end].error))
                                  else Some(Backend(kind, "the plugin answered out of turn"))
    ensures run.Section? && run.queue in holding ==> run.result == FailureOf(run.body)
    ensures run.Denied? ==>
              && run.queue !in holding && replies[0] != Done
              && run.error == if replies[0].Error? then FromWire(kind, replies[0].error)
                              else Backend(kind, "the plugin answered out of turn")
    ensures run.Called? || run.Denied? ==> Piped(kind, holding, run.next, replies[1..])
  {
  }

  /** A section is denied directly exactly where the transport refuses it, with the error
      it refuses it with — and never one already held, which is re-entered. */
  lemma DirectDenies<S, Req, Ans>(t: Transport<S, Req, Ans>, kind: string, holding: set<Queue>, s: S, run: Run<Req, Ans>)
    requires run.Denied?
    ensures Direct(t, kind, holding, s, run)
            == if run.queue in holding || t.enter(s, run.queue).Success?
                  || FromWire(kind, ToWire(t.enter(s, run.queue).error)) != run.error then None
               else Direct(t, kind, holding, s, run.next)
  {
  }

  /** An error as it looks after crossing the wire. */
  function Carried(kind: string, e: TransportError): TransportError {
    FromWire(kind, ToWire(e))
  }

  /** The state the run leaves `t` in when its calls are made on `t` itself — none
      when `t` would have answered otherwise somewhere. A section `t` already
      holds is re-entered by running its body. */
  function Direct<S, Req(==), Ans(==)>(t: Transport<S, Req, Ans>, kind: string, holding: set<Queue>, s: S, run: Run<Req, Ans>)
    : Option<S>
    decreases run
  {
    match run
    case Finish(_) => Some(s)
    case Called(req, answer, next) =>
      var (s', given) := t.call(s, req);
      var seen := if given.Success? then given else Failure(Carried(kind, given.error));
      if seen == answer then Direct(t, kind, holding, s', next) else None
    case Denied(queue, error, next) =>
      var entered := t.enter(s, queue);
      if queue !in holding && entered.Failure? && Carried(kind, entered.error) == error
      then Direct(t, kind, holding, s, next) else None
    case Section(queue, body, result, next) =>
      if queue in holding then
        match Direct(t, kind, holding, s, body)
        case None => None
        case Some(s') => if result == FailureOf(body) then Direct(t, kind, holding, s', next) else None
      else
        match t.enter(s, queue)
        case Failure(_) => None
        case Success(inside) =>
          match Direct(t, kind, holding + {queue}, inside, body)
          case None => None
          case Some(s') =>
            var failure := FailureOf(body);
            var (closed, own) := t.leave(s', queue, failure.Some?);
            var seen := if failure.Some? || own.None? then failure else Some(Carried(kind, own.value));
            if result == seen then Direct(t, kind, holding, closed, next) else None
  }

  /** What a transport makes of a run's lines: the state it is left in, and its
      replies. */
  datatype Play<S, Ans> = Play(end: S, replies: seq<Reply<Ans>>)

  /** A run's lines played on `t`, whatever the client was told, its calls nested
      as its sections are; none where `t` refuses to open one of them, or opens one
      the client was denied. */
  function Played<S, Req, Ans>(t: Transport<S, Req, Ans>, holding: set<Queue>, s: S, run: Run<Req, Ans>)
    : (played: Option<Play<S, Ans>>)
    ensures played.Some? ==> |played.value.replies| == |Lines(holding, run)| + Denials(run)
    decreases run
  {
    match run
    case Finish(_) => Some(Play(s, []))
    case Called(req, _, next) =>
      var (s', given) := t.call(s, req);
      (match Played(t, holding, s', next)
       case None => None
       case Some(after) => Some(Play(after.end, [CallReply(given)] + after.replies)))
    case Denied(queue, _, next) =>
      (match t.enter(s, queue)
       case Success(_) => None
       case Failure(e) =>
         match Played(t, holding, s, next)
         case None => None
         case Some(after) => Some(Play(after.end, [Done, Error(ToWire(e))] + after.replies)))
    case Section(queue, body, _, next) =>
      if queue in holding then
        match Played(t, holding, s, body)
        case None => None
        case Some(inner) =>
          match Played(t, holding, inner.end, next)
          case None => None
          case Some(after) => Some(Play(after.end, inner.replies + after.replies))
      else if t.enter(s, queue).Failure? then None
      else
        match Played(t, holding + {queue}, t.enter(s, queue).value, body)
        case None => None
        case Some(inner) =>
          var failure := BodyFailure(queue, Ended(FailureOf(body).Some?));
          var (closed, own) := t.leave(inner.end, queue, failure.Some?);
          match Played(t, holding, closed, next)
          case None => None
          case Some(after) =>
            Some(Play(after.end, [Done] + inner.replies + [EndReply(failure, own)] + after.replies))
  }

  lemma ServingCall<S, Req, Ans>(t: Transport<S, Req, Ans>, s: S, req: Req, after: seq<Line<Req>>, section: Option<Queue>)
    ensures var (s', answer) := t.call(s, req);
            ServeUntil(t, s, [Request(req)] + after, section)
            == Before([CallReply(answer)], 0, 0, ServeUntil(t, s', after, section))
  {
    var lines := [Request(req)] + after;
    assert lines[0] == Request(req) && lines[1..] == after;
  }

  /** A section the transport opens, its body's lines already known to be served
      as the body is played. */
  lemma ServingSection<S, Req, Ans>(t: Transport<S, Req, Ans>, s: S, queue: Queue, failed: bool,
                                    lines: seq<Line<Req>>, body: Play<S, Ans>, denied: nat, after: seq<Line<Req>>,
                                    section: Option<Queue>)
    requires t.enter(s, queue).Success?
    requires var rest := [End(queue, failed)] + after;
             ServeUntil(t, t.enter(s, queue).value, lines + rest, Some(queue))
             == Before(body.replies, denied, 0, ServeUntil(t, body.end, rest, Some(queue)))
    ensures var (closed, own) := t.leave(body.end, queue, failed);
            ServeUntil(t, s, [Begin(queue)] + lines + [End(queue, failed)] + after, section)
            == Before([Done] + body.replies + [EndReply(BodyFailure(queue, Ended(failed)), own)], denied, 0,
                      ServeUntil(t, closed, after, section))
  {
    OpenedLines(t, s, queue, failed, lines, after, section);
    var rest := [End(queue, failed)] + after;
    assert rest[1..] == after;
    assert ServeUntil(t, body.end, rest, Some(queue)) == Served(body.end, [], after, Ended(failed), 0, 0);
    hide ServeUntil;
    assert body.replies + [] == body.replies;
  }

  lemma OpenedLines<S, Req, Ans>(t: Transport<S, Req, Ans>, s: S, queue: Queue, failed: bool, lines: seq<Line<Req>>,
                                 after: seq<Line<Req>>, section: Option<Queue>)
    requires t.enter(s, queue).Success?
    ensures ServeUntil(t, s, [Begin(queue)] + lines + [End(queue, failed)] + after, section)
            == ServeSection(t, t.enter(s, queue).value, queue, lines + ([End(queue, failed)] + after), section)
  {
    hide ServeSection;
    var all := [Begin(queue)] + lines + [End(queue, failed)] + after;
    assert all[0] == Begin(queue) && all[1..] == lines + ([End(queue, failed)] + after);
  }

  /** Serving the flattened lines of a run, whatever follows them, is playing the
      run, each section denied counted as refused. */
  ghost predicate ServedAsPlayed<S, Req, Ans>(t: Transport<S, Req, Ans>, holding: set<Queue>, s: S, run: Run<Req, Ans>,
                                              tail: seq<Line<Req>>, section: Option<Queue>)
  {
    var played := Played(t, holding, s, run);
    && played.Some?
    && ServeUntil(t, s, Lines(holding, run) + tail, section)
       == Before(played.value.replies, Denials(run), 0, ServeUntil(t, played.value.end, tail, section))
  }

  lemma CalledServed<S, Req, Ans>(t: Transport<S, Req, Ans>, holding: set<Queue>, s: S, run: Run<Req, Ans>,
                                  tail: seq<Line<Req>>, section: Option<Queue>)
    requires run.Called? && ServedAsPlayed(t, holding, t.call(s, run.req).0, run.next, tail, section)
    ensures ServedAsPlayed(t, holding, s, run, tail, section)
  {
    hide ServeUntil;
    var (s', given) := t.call(s, run.req);
    var after := Played(t, holding, s', run.next).value;
    assert Lines(holding, run) + tail == [Request(run.req)] + (Lines(holding, run.next) + tail);
    ServingCall(t, s, run.req, Lines(holding, run.next) + tail, section);
    BeforeTwice([CallReply(given)], 0, 0, after.replies, Denials(run.next), 0, ServeUntil(t, after.end, tail, section));
  }

  lemma ReenteredServed<S, Req, Ans>(t: Transport<S, Req, Ans>, holding: set<Queue>, s: S, run: Run<Req, Ans>,
                                     tail: seq<Line<Req>>, section: Option<Queue>)
    requires run.Section? && run.queue in holding
    requires ServedAsPlayed(t, holding, s, run.body, Lines(holding, run.next) + tail, section)
    requires ServedAsPlayed(t, holding, Played(t, holding, s, run.body).value.end, run.next, tail, section)
    ensures ServedAsPlayed(t, holding, s, run, tail, section)
  {
    hide ServeUntil;
    var inner := Played(t, holding, s, run.body).value;
    var after := Played(t, holding, inner.end, run.next).value;
    assert Lines(holding, run) + tail == Lines(holding, run.body) + (Lines(holding, run.next) + tail);
    BeforeTwice(inner.replies, Denials(run.body), 0, after.replies, Denials(run.next), 0,
                ServeUntil(t, after.end, tail, section));
  }

  /** The lines of a section that is opened by one. */
  lemma SectionLines<Req, Ans>(holding: set<Queue>, run: Run<Req, Ans>, tail: seq<Line<Req>>)
    requires run.Section? && run.queue !in holding
    ensures Lines(holding, run) + tail
            == [Begin(run.queue)] + Lines(holding + {run.queue}, run.body) + [End(run.queue, FailureOf(run.body).Some?)]
               + (Lines(holding, run.next) + tail)
  {
  }

  lemma OpenedServed<S, Req, Ans>(t: Transport<S, Req, Ans>, holding: set<Queue>, s: S, run: Run<Req, Ans>,
                                  tail: seq<Line<Req>>, section: Option<Queue>)
    requires run.Section? && run.queue !in holding && t.enter(s, run.queue).Success?
    requires ServedAsPlayed(t, holding + {run.queue}, t.enter(s, run.queue).value, run.body,
                            [End(run.queue, FailureOf(run.body).Some?)] + (Lines(holding, run.next) + tail), Some(run.queue))
    requires var inner := Played(t, holding + {run.queue}, t.enter(s, run.queue).value, run.body).value;
             ServedAsPlayed(t, holding, t.leave(inner.end, run.queue, FailureOf(run.body).Some?).0, run.next, tail, section)
    ensures ServedAsPlayed(t, holding, s, run, tail, section)
  {
    SectionLines(holding, run, tail);
    hide ServeUntil, FailureOf, Lines, EndReply, BodyFailure;
    var failed := FailureOf(run.body).Some?;
    var inner := Played(t, holding + {run.queue}, t.enter(s, run.queue).value, run.body).value;
    ServingSection(t, s, run.queue, failed, Lines(holding + {run.queue}, run.body), inner,
                   Denials(run.body), Lines(holding, run.next) + tail, section);
    var (closed, own) := t.leave(inner.end, run.queue, failed);
    var after := Played(t, holding, closed, run.next).value;
    var replies := [Done] + inner.replies + [EndReply(BodyFailure(run.queue, Ended(failed)), own)];
    FailedAsSaid(run.queue, failed);
    assert Played(t, holding, s, run) == Some(Play(after.end, replies + after.replies));
    BeforeTwice(replies, Denials(run.body), 0, after.replies, Denials(run.next), 0,
                ServeUntil(t, after.end, tail, section));
  }

  lemma FailedAsSaid(queue: Queue, failed: bool)
    ensures BodyFailure(queue, Ended(failed)).Some? == failed
  {
  }

  lemma {:induction false} ServingIsPlaying<S, Req, Ans>(t: Transport<S, Req, Ans>, holding: set<Queue>, s: S,
                                                         run: Run<Req, Ans>, tail: seq<Line<Req>>, section: Option<Queue>)
    requires Played(t, holding, s, run).Some?
    ensures ServedAsPlayed(t, holding, s, run, tail, section)
    decreases run
  {
    hide ServeUntil, ServedAsPlayed, FailureOf;
    match run
    case Finish(_) => FinishServed(t, holding, s, run, tail, section);
    case Called(req, _, next) =>
      ServingIsPlaying(t, holding, t.call(s, req).0, next, tail, section);
      CalledServed(t, holding, s, run, tail, section);
    case Section(queue, body, _, next) =>
      var after := Lines(holding, next) + tail;
      if queue in holding {
        ServingIsPlaying(t, holding, s, body, after, section);
        ServingIsPlaying(t, holding, Played(t, holding, s, body).value.end, next, tail, section);
        ReenteredServed(t, holding, s, run, tail, section);
      } else {
        var failed := FailureOf(body).Some?;
        var inside := t.enter(s, queue).value;
        FailedAsSaid(queue, failed);
        ServingIsPlaying(t, holding + {queue}, inside, body, [End(queue, failed)] + after, Some(queue));
        var inner := Played(t, holding + {queue}, inside, body).value;
        ServingIsPlaying(t, holding, t.leave(inner.end, queue, failed).0, next, tail, section);
        OpenedServed(t, holding, s, run, tail, section);
      }
    case Denied(queue, _, next) =>
      ServingIsPlaying(t, holding, s, next, tail, section);
      DeniedServed(t, holding, s, run, tail, section);
  }

  lemma DeniedServed<S, Req, Ans>(t: Transport<S, Req, Ans>, holding: set<Queue>, s: S, run: Run<Req, Ans>,
                                  tail: seq<Line<Req>>, section: Option<Queue>)
    requires run.Denied? && t.enter(s, run.queue).Failure?
    requires ServedAsPlayed(t, holding, s, run.next, tail, section)
    ensures ServedAsPlayed(t, holding, s, run, tail, section)
  {
    hide ServeUntil;
    var after := Played(t, holding, s, run.next).value;
    assert Lines(holding, run) + tail == [Begin(run.queue)] + (Lines(holding, run.next) + tail);
    RefusedLines(t, s, run.queue, Lines(holding, run.next) + tail, section);
    var refusal: seq<Reply<Ans>> := [Done, Error(ToWire(t.enter(s, run.queue).error))];
    BeforeTwice(refusal, 1, 0, after.replies, Denials(run.next), 0, ServeUntil(t, after.end, tail, section));
  }

  lemma FinishServed<S, Req, Ans>(t: Transport<S, Req, Ans>, holding: set<Queue>, s: S, run: Run<Req, Ans>,
                                  tail: seq<Line<Req>>, section: Option<Queue>)
    requires run.Finish?
    ensures ServedAsPlayed(t, holding, s, run, tail, section)
  {
    hide ServeUntil;
    assert Lines(holding, run) + tail == tail;
    var served := ServeUntil(t, s, tail, section);
    assert [] + served.replies == served.replies;
  }

  /** Where the transport refuses one of a run's sections, none of them denied,
      serving counts it. */
  lemma {:induction false} RefusalIsCounted<S, Req, Ans>(t: Transport<S, Req, Ans>, holding: set<Queue>, s: S,
                                                         run: Run<Req, Ans>, tail: seq<Line<Req>>, section: Option<Queue>)
    requires Played(t, holding, s, run).None? && Denials(run) == 0
    ensures ServeUntil(t, s, Lines(holding, run) + tail, section).refused > 0
    decreases run
  {
    hide ServeUntil, FailureOf;
    match run
    case Called(req, _, next) =>
      assert Lines(holding, run) + tail == [Request(req)] + (Lines(holding, next) + tail);
      ServingCall(t, s, req, Lines(holding, next) + tail, section);
      RefusalIsCounted(t, holding, t.call(s, req).0, next, tail, section);
    case Section(queue, body, _, next) =>
      var after := Lines(holding, next) + tail;
      if queue in holding {
        if Played(t, holding, s, body).None? {
          RefusalIsCounted(t, holding, s, body, after, section);
        } else {
          ServingIsPlaying(t, holding, s, body, after, section);
          RefusalIsCounted(t, holding, Played(t, holding, s, body).value.end, next, tail, section);
        }
        ReenteredLines(holding, run, tail);
      } else {
        var end: Line<Req> := End(queue, FailureOf(body).Some?);
        if t.enter(s, queue).Failure? {
          RefusedSectionCounted(t, holding, s, run, tail, section);
        } else if Played(t, holding + {queue}, t.enter(s, queue).value, body).None? {
          RefusalIsCounted(t, holding + {queue}, t.enter(s, queue).value, body, [end] + after, Some(queue));
          RefusedInsideCounted(t, holding, s, run, tail, section);
        } else {
          var inside := t.enter(s, queue).value;
          ServingIsPlaying(t, holding + {queue}, inside, body, [end] + after, Some(queue));
          var inner := Played(t, holding + {queue}, inside, body).value;
          FailedAsSaid(queue, end.failed);
          RefusalIsCounted(t, holding, t.leave(inner.end, queue, end.failed).0, next, tail, section);
          RefusedPastCounted(t, holding, s, run, tail, section);
        }
      }
  }

  lemma RefusedSectionCounted<S, Req, Ans>(t: Transport<S, Req, Ans>, holding: set<Queue>, s: S, run: Run<Req, Ans>,
                                           tail: seq<Line<Req>>, section: Option<Queue>)
    requires run.Section? && run.queue !in holding && t.enter(s, run.queue).Failure?
    ensures ServeUntil(t, s, Lines(holding, run) + tail, section).refused > 0
  {
    hide ServeUntil;
    SectionLines(holding, run, tail);
    var rest := (Lines(holding, run) + tail)[1..];
    assert Lines(holding, run) + tail == [Begin(run.queue)] + rest;
    RefusedLines(t, s, run.queue, rest, section);
  }

  lemma ReenteredLines<Req, Ans>(holding: set<Queue>, run: Run<Req, Ans>, tail: seq<Line<Req>>)
    requires run.Section? && run.queue in holding
    ensures Lines(holding, run) + tail == Lines(holding, run.body) + (Lines(holding, run.next) + tail)
  {
  }

  lemma RefusedPastCounted<S, Req, Ans>(t: Transport<S, Req, Ans>, holding: set<Queue>, s: S, run: Run<Req, Ans>,
                                        tail: seq<Line<Req>>, section: Option<Queue>)
    requires run.Section? && run.queue !in holding && t.enter(s, run.queue).Success? && Denials(run.body) == 0
    requires var after := Lines(holding, run.next) + tail;
             ServedAsPlayed(t, holding + {run.queue}, t.enter(s, run.queue).value, run.body,
                            [End(run.queue, FailureOf(run.body).Some?)] + after, Some(run.queue))
             && var inner := Played(t, holding + {run.queue}, t.enter(s, run.queue).value, run.body).value;
                ServeUntil(t, t.leave(inner.end, run.queue, FailureOf(run.body).Some?).0, after, section).refused > 0
    ensures ServeUntil(t, s, Lines(holding, run) + tail, section).refused > 0
  {
    hide ServeUntil, FailureOf, Lines, Played;
    var inner := Played(t, holding + {run.queue}, t.enter(s, run.queue).value, run.body).value;
    SectionLines(holding, run, tail);
    ServingSection(t, s, run.queue, FailureOf(run.body).Some?, Lines(holding + {run.queue}, run.body), inner, 0,
                   Lines(holding, run.next) + tail, section);
  }

  lemma RefusedInsideCounted<S, Req, Ans>(t: Transport<S, Req, Ans>, holding: set<Queue>, s: S, run: Run<Req, Ans>,
                                          tail: seq<Line<Req>>, section: Option<Queue>)
    requires run.Section? && run.queue !in holding && t.enter(s, run.queue).Success?
    requires var lines := Lines(holding + {run.queue}, run.body)
                          + ([End(run.queue, FailureOf(run.body).Some?)] + (Lines(holding, run.next) + tail));
             ServeUntil(t, t.enter(s, run.queue).value, lines, Some(run.queue)).refused > 0
    ensures ServeUntil(t, s, Lines(holding, run) + tail, section).refused > 0
  {
    hide ServeUntil;
    SectionLines(holding, run, tail);
    OpenedLines(t, s, run.queue, FailureOf(run.body).Some?, Lines(holding + {run.queue}, run.body),
                Lines(holding, run.next) + tail, section);
  }

  lemma RefusedLines<S, Req, Ans>(t: Transport<S, Req, Ans>, s: S, queue: Queue, rest: seq<Line<Req>>, section: Option<Queue>)
    requires t.enter(s, queue).Failure?
    ensures ServeUntil(t, s, [Begin(queue)] + rest, section)
            == Before([Done, Error(ToWire(t.enter(s, queue).error))], 1, 0, ServeUntil(t, s, rest, section))
  {
    var all := [Begin(queue)] + rest;
    assert all[0] == Begin(queue) && all[1..] == rest;
  }

  /** Where no section is denied, making a run's calls on the transport itself goes
      as recorded exactly when every section opens and the replies to its lines read
      back as recorded, and it ends in the same state. */
  ghost predicate DirectAsPlayed<S, Req, Ans>(t: Transport<S, Req, Ans>, kind: string, holding: set<Queue>, s: S,
                                              run: Run<Req, Ans>)
  {
    var played := Played(t, holding, s, run);
    Denials(run) == 0 ==>
    Direct(t, kind, holding, s, run)
    == if played.Some? && Piped(kind, holding, run, played.value.replies) then Some(played.value.end) else None
  }

  lemma ReenteredAsPlayed<S, Req, Ans>(t: Transport<S, Req, Ans>, kind: string, holding: set<Queue>, s: S,
                                       run: Run<Req, Ans>)
    requires run.Section? && run.queue in holding
    requires DirectAsPlayed(t, kind, holding, s, run.body)
    requires Played(t, holding, s, run.body).Some? ==>
               DirectAsPlayed(t, kind, holding, Played(t, holding, s, run.body).value.end, run.next)
    ensures DirectAsPlayed(t, kind, holding, s, run)
  {
    hide FailureOf, Lines;
    if Played(t, holding, s, run).Some? {
      var inner := Played(t, holding, s, run.body).value;
      var after := Played(t, holding, inner.end, run.next).value;
      var replies := inner.replies + after.replies;
      assert Played(t, holding, s, run) == Some(Play(after.end, replies));
      assert replies[..|inner.replies|] == inner.replies && replies[|inner.replies|..] == after.replies;
    }
  }

  lemma OpenedAsPlayed<S, Req, Ans>(t: Transport<S, Req, Ans>, kind: string, holding: set<Queue>, s: S,
                                    run: Run<Req, Ans>)
    requires run.Section? && run.queue !in holding && t.enter(s, run.queue).Success?
    requires DirectAsPlayed(t, kind, holding + {run.queue}, t.enter(s, run.queue).value, run.body)
    requires var body := Played(t, holding + {run.queue}, t.enter(s, run.queue).value, run.body);
             body.Some? ==>
               DirectAsPlayed(t, kind, holding, t.leave(body.value.end, run.queue, FailureOf(run.body).Some?).0, run.next)
    ensures DirectAsPlayed(t, kind, holding, s, run)
  {
    hide FailureOf, Lines, EndReply, BodyFailure, SectionHeard, Carried;
    var inside := t.enter(s, run.queue).value;
    FailedAsSaid(run.queue, FailureOf(run.body).Some?);
    if Played(t, holding, s, run).Some? {
      var inner := Played(t, holding + {run.queue}, inside, run.body).value;
      var failed := FailureOf(run.body).Some?;
      var (closed, own) := t.leave(inner.end, run.queue, failed);
      var after := Played(t, holding, closed, run.next).value;
      var reply := EndReply(BodyFailure(run.queue, Ended(failed)), own);
      var replies := [Done] + inner.replies + [reply] + after.replies;
      assert Played(t, holding, s, run) == Some(Play(after.end, replies));
      SectionParts(Done, inner.replies, reply, after.replies);
      EndHeard<Ans>(kind, run.queue, FailureOf(run.body), own);
    }
  }

  /** The reply to a section's end is heard as the section ended. */
  lemma EndHeard<Ans>(kind: string, queue: Queue, failure: Option<TransportError>, own: Option<TransportError>)
    ensures SectionHeard<Ans>(kind, failure, EndReply(BodyFailure(queue, Ended(failure.Some?)), own))
            == if failure.Some? || own.None? then failure else Some(Carried(kind, own.value))
  {
  }

  lemma SectionParts<T>(first: T, inner: seq<T>, last: T, after: seq<T>)
    ensures var all := [first] + inner + [last] + after;
            all[0] == first && all[1..|inner| + 1] == inner && all[|inner| + 1] == last && all[|inner| + 2..] == after
  {
  }

  lemma {:induction false} DirectIsPlayed<S, Req, Ans>(t: Transport<S, Req, Ans>, kind: string, holding: set<Queue>,
                                                       s: S, run: Run<Req, Ans>)
    ensures DirectAsPlayed(t, kind, holding, s, run)
    decreases run
  {
    match run
    case Finish(_) =>
    case Called(req, _, next) =>
      var (s', given) := t.call(s, req);
      DirectIsPlayed(t, kind, holding, s', next);
      if Played(t, holding, s', next).Some? {
        var after := Played(t, holding, s', next).value;
        assert ([CallReply(given)] + after.replies)[1..] == after.replies;
      }
    case Section(queue, body, _, next) =>
      if queue !in holding && t.enter(s, queue).Failure? {
        assert Played(t, holding, s, run).None?;
      } else if queue in holding {
        hide DirectAsPlayed;
        DirectIsPlayed(t, kind, holding, s, body);
        if Played(t, holding, s, body).Some? {
          DirectIsPlayed(t, kind, holding, Played(t, holding, s, body).value.end, next);
        }
        ReenteredAsPlayed(t, kind, holding, s, run);
      } else {
        hide DirectAsPlayed;
        var inside := t.enter(s, queue).value;
        DirectIsPlayed(t, kind, holding + {queue}, inside, body);
        var inner := Played(t, holding + {queue}, inside, body);
        if inner.Some? {
          DirectIsPlayed(t, kind, holding, t.leave(inner.value.end, queue, FailureOf(body).Some?).0, next);
        }
        OpenedAsPlayed(t, kind, holding, s, run);
      }
    case Denied(_, _, _) =>
  }

  lemma {:induction false} NoBlankLines<Req, Ans>(holding: set<Queue>, run: Run<Req, Ans>)
    ensures Asked(Lines(holding, run)) == |Lines(holding, run)|
    decreases run
  {
    match run
    case Finish(_) =>
    case Called(req, _, next) =>
      NoBlankLines(holding, next);
      AskedOfConcat([Request(req)], Lines(holding, next));
    case Section(queue, body, _, next) =>
      NoBlankLines(holding, next);
      if queue in holding {
        NoBlankLines(holding, body);
        AskedOfConcat(Lines(holding, body), Lines(holding, next));
      } else {
        NoBlankLines(holding + {queue}, body);
        var begin: seq<Line<Req>>, end: seq<Line<Req>> := [Begin(queue)], [End(queue, FailureOf(body).Some?)];
        AskedOfConcat(begin, Lines(holding + {queue}, body));
        AskedOfConcat(begin + Lines(holding + {queue}, body), end);
        AskedOfConcat(begin + Lines(holding + {queue}, body) + end, Lines(holding, next));
      }
    case Denied(queue, _, next) =>
      NoBlankLines(holding, next);
      AskedOfConcat([Begin(queue)], Lines(holding, next));
  }

  lemma {:induction false} AskedOfConcat<Req>(a: seq<Line<Req>>, b: seq<Line<Req>>)
    ensures Asked(a + b) == Asked(a) + Asked(b)
  {
    if a == [] {
      assert a + b == b;
    } else {
      assert (a + b)[0] == a[0] && (a + b)[1..] == a[1..] + b;
      AskedOfConcat(a[1..], b);
    }
  }

  /** How many more sections lines open than they end. */
  function Depth<Req>(lines: seq<Line<Req>>): int {
    if lines == [] then 0
    else (if lines[0].Begin? then 1 else if lines[0].End? then -1 else 0) + Depth(lines[1..])
  }

  lemma {:induction false} DepthOfConcat<Req>(a: seq<Line<Req>>, b: seq<Line<Req>>)
    ensures Depth(a + b) == Depth(a) + Depth(b)
  {
    if a == [] {
      assert a + b == b;
    } else {
      assert (a + b)[0] == a[0] && (a + b)[1..] == a[1..] + b;
      DepthOfConcat(a[1..], b);
    }
  }

  /** A run ends every section it opens but those it was denied. */
  lemma {:induction false} DepthOfLines<Req, Ans>(holding: set<Queue>, run: Run<Req, Ans>)
    ensures Depth(Lines(holding, run)) == Denials(run)
    decreases run
  {
    match run
    case Finish(_) =>
    case Called(req, _, next) =>
      DepthOfLines(holding, next);
      DepthOfConcat([Request(req)], Lines(holding, next));
    case Section(queue, body, _, next) =>
      DepthOfLines(holding, next);
      if queue in holding {
        DepthOfLines(holding, body);
        DepthOfConcat(Lines(holding, body), Lines(holding, next));
      } else {
        DepthOfLines(holding + {queue}, body);
        var begin: seq<Line<Req>>, end: seq<Line<Req>> := [Begin(queue)], [End(queue, FailureOf(body).Some?)];
        DepthOfConcat(begin, Lines(holding + {queue}, body));
        DepthOfConcat(begin + Lines(holding + {queue}, body), end);
        DepthOfConcat(begin + Lines(holding + {queue}, body) + end, Lines(holding, next));
      }
    case Denied(queue, _, next) =>
      DepthOfLines(holding, next);
      DepthOfConcat([Begin(queue)], Lines(holding, next));
  }

  /** A section the lines open and do not end was refused, or is left open. */
  lemma {:induction false} DepthIsCounted<S, Req, Ans>(t: Transport<S, Req, Ans>, s: S, lines: seq<Line<Req>>,
                                                       section: Option<Queue>)
    ensures var served := ServeUntil(t, s, lines, section);
            Depth(lines) - Depth(served.rest) + (if section.Some? then 1 else 0) <= served.refused + served.unclosed
    decreases |lines|
  {
    if lines != [] {
      var line, rest := lines[0], lines[1..];
      if line.End? && section == Some(line.queue) {
      } else if Opens(t, s, line) {
        var inside := t.enter(s, line.queue).value;
        DepthIsCounted(t, inside, rest, Some(line.queue));
        var inner := ServeUntil(t, inside, rest, Some(line.queue));
        var (closed, _) := t.leave(inner.state, line.queue, BodyFailure(line.queue, inner.ending).Some?);
        DepthIsCounted(t, closed, inner.rest, section);
      } else {
        DepthIsCounted(t, Exchange(t, s, line).0, rest, section);
      }
    }
  }

  /** A run over the pipe pairs its replies with its lines exactly when the
      transport opens every section of it and it was denied none. */
  lemma PairsExactlyWhenOpened<S, Req, Ans>(t: Transport<S, Req, Ans>, s: S, run: Run<Req, Ans>)
    ensures |ServeUntil(t, s, Lines({}, run), None).replies| == |Lines({}, run)|
            <==> Played(t, {}, s, run).Some? && Denials(run) == 0
  {
    var lines := Lines({}, run);
    assert lines + [] == lines;
    if Played(t, {}, s, run).Some? && Denials(run) == 0 {
      ServingIsPlaying(t, {}, s, run, [], None);
      ServeNothing(t, Played(t, {}, s, run).value.end, None);
    } else {
      if Denials(run) == 0 {
        RefusalIsCounted(t, {}, s, run, [], None);
      } else {
        DepthOfLines({}, run);
        DepthIsCounted(t, s, lines, None);
      }
      NoBlankLines({}, run);
      RepliesCounted(t, s, lines, None);
      hide ServeUntil, Lines, Played;
      assert ServeUntil(t, s, lines, None).rest == [];
    }
  }

  /** What a transport answers a run made on it directly leaves it as playing the
      run's lines does. */
  lemma {:induction false} DirectEndsAsPlayed<S, Req, Ans>(t: Transport<S, Req, Ans>, kind: string, holding: set<Queue>,
                                                           s: S, run: Run<Req, Ans>)
    requires Direct(t, kind, holding, s, run).Some?
    ensures Played(t, holding, s, run).Some?
    ensures Played(t, holding, s, run).value.end == Direct(t, kind, holding, s, run).value
    decreases run
  {
    hide FailureOf, EndReply;
    match run
    case Finish(_) =>
    case Called(req, _, next) => DirectEndsAsPlayed(t, kind, holding, t.call(s, req).0, next);
    case Denied(_, _, next) => DirectEndsAsPlayed(t, kind, holding, s, next);
    case Section(queue, body, _, next) =>
      if queue in holding {
        DirectEndsAsPlayed(t, kind, holding, s, body);
        DirectEndsAsPlayed(t, kind, holding, Direct(t, kind, holding, s, body).value, next);
      } else {
        var inside := t.enter(s, queue).value;
        DirectEndsAsPlayed(t, kind, holding + {queue}, inside, body);
        var end := Direct(t, kind, holding + {queue}, inside, body).value;
        FailedAsSaid(queue, FailureOf(body).Some?);
        DirectEndsAsPlayed(t, kind, holding, t.leave(end, queue, FailureOf(body).Some?).0, next);
      }
  }

  /** A run over the pipe is the run made directly, for every client, run and
      transport: over the pipe the replies pair with the lines and read as recorded
      exactly when on the transport itself it goes as recorded and no section is
      denied — and however it goes directly, the pipe's lines leave the transport in
      the same state. */
  lemma PipedIsDirect<S, Req, Ans>(t: Transport<S, Req, Ans>, kind: string, s: S, run: Run<Req, Ans>)
    ensures var served, direct := ServeUntil(t, s, Lines({}, run), None), Direct(t, kind, {}, s, run);
            && (|served.replies| == |Lines({}, run)| && Piped(kind, {}, run, served.replies)
                <==> direct.Some? && Denials(run) == 0)
            && (direct.Some? ==> served.state == direct.value)
  {
    DirectIsPlayed(t, kind, {}, s, run);
    PairsExactlyWhenOpened(t, s, run);
    if Direct(t, kind, {}, s, run).Some? {
      DirectEndsAsPlayed(t, kind, {}, s, run);
    }
    if Played(t, {}, s, run).Some? {
      var played := Played(t, {}, s, run).value;
      ServingIsPlaying(t, {}, s, run, [], None);
      assert Lines({}, run) + [] == Lines({}, run);
      ServeNothing(t, played.end, None);
      assert played.replies + [] == played.replies;
    }
  }

  /** A client reading the replies to a run's lines in order, whatever follows them,
      does not make that run. */
  ghost predicate NotReadSo<S, Req, Ans>(t: Transport<S, Req, Ans>, kind: string, holding: set<Queue>, s: S,
                                         run: Run<Req, Ans>, more: seq<Reply<Ans>>)
    requires Played(t, holding, s, run).Some?
  {
    !Piped(kind, holding, run, (Played(t, holding, s, run).value.replies + more)[..|Lines(holding, run)|])
  }

  /** A client is never denied the sections the transport refuses: their openings are
      acknowledged, so where one was denied directly the client over the pipe goes on
      into its body. */
  lemma {:induction false} DenialIsNotHeard<S, Req, Ans>(t: Transport<S, Req, Ans>, kind: string, holding: set<Queue>,
                                                         s: S, run: Run<Req, Ans>, more: seq<Reply<Ans>>)
    requires Played(t, holding, s, run).Some? && Denials(run) > 0
    ensures NotReadSo(t, kind, holding, s, run, more)
    decreases run
  {
    hide NotReadSo, EndReply, FailureOf, Lines, Piped;
    match run
    case Finish(_) =>
    case Called(req, _, next) =>
      DenialIsNotHeard(t, kind, holding, t.call(s, req).0, next, more);
      NotReadAfterCall(t, kind, holding, s, run, more);
    case Denied(_, _, _) => DeniedNotRead(t, kind, holding, s, run, more);
    case Section(queue, body, _, next) =>
      if queue in holding {
        var inner := Played(t, holding, s, body).value;
        if Denials(body) > 0 {
          DenialIsNotHeard(t, kind, holding, s, body, Played(t, holding, inner.end, next).value.replies + more);
        } else {
          DenialIsNotHeard(t, kind, holding, inner.end, next, more);
        }
        NotReadReentered(t, kind, holding, s, run, more);
      } else {
        var inside := t.enter(s, queue).value;
        var inner := Played(t, holding + {queue}, inside, body).value;
        var failed := FailureOf(body).Some?;
        FailedAsSaid(queue, failed);
        var (closed, own) := t.leave(inner.end, queue, failed);
        if Denials(body) > 0 {
          var rest := [EndReply(BodyFailure(queue, Ended(failed)), own)] + Played(t, holding, closed, next).value.replies;
          DenialIsNotHeard(t, kind, holding + {queue}, inside, body, rest + more);
          NotReadInside(t, kind, holding, s, run, more);
        } else {
          DenialIsNotHeard(t, kind, holding, closed, next, more);
          NotReadPast(t, kind, holding, s, run, more);
        }
      }
  }

  lemma NotReadAfterCall<S, Req, Ans>(t: Transport<S, Req, Ans>, kind: string, holding: set<Queue>, s: S,
                                      run: Run<Req, Ans>, more: seq<Reply<Ans>>)
    requires run.Called? && Played(t, holding, s, run).Some?
    requires NotReadSo(t, kind, holding, t.call(s, run.req).0, run.next, more)
    ensures NotReadSo(t, kind, holding, s, run, more)
  {
    var after := Played(t, holding, t.call(s, run.req).0, run.next).value.replies;
    ReadOn([CallReply(t.call(s, run.req).1)], after, more, |Lines(holding, run.next)|);
  }

  lemma DeniedNotRead<S, Req, Ans>(t: Transport<S, Req, Ans>, kind: string, holding: set<Queue>, s: S,
                                   run: Run<Req, Ans>, more: seq<Reply<Ans>>)
    requires run.Denied? && Played(t, holding, s, run).Some?
    ensures NotReadSo(t, kind, holding, s, run, more)
  {
  }

  lemma NotReadReentered<S, Req, Ans>(t: Transport<S, Req, Ans>, kind: string, holding: set<Queue>, s: S,
                                      run: Run<Req, Ans>, more: seq<Reply<Ans>>)
    requires run.Section? && run.queue in holding && Played(t, holding, s, run).Some?
    requires var inner := Played(t, holding, s, run.body).value;
             if Denials(run.body) > 0 then
               NotReadSo(t, kind, holding, s, run.body, Played(t, holding, inner.end, run.next).value.replies + more)
             else NotReadSo(t, kind, holding, inner.end, run.next, more)
    ensures NotReadSo(t, kind, holding, s, run, more)
  {
    hide FailureOf;
    var inner := Played(t, holding, s, run.body).value;
    var after := Played(t, holding, inner.end, run.next).value.replies;
    var n, rest := |Lines(holding, run.body)|, |Lines(holding, run.next)|;
    if Denials(run.body) > 0 {
      ReadIn([], inner.replies, after, more, n, n + rest);
      assert [] + inner.replies == inner.replies;
      var read := (inner.replies + after + more)[..n + rest];
      assert read[..n] == read[0..n];
    } else {
      ReadOn(inner.replies, after, more, rest);
    }
  }

  /** The replies to a section the transport opens, and to what follows it. */
  lemma OpenedReplies<S, Req, Ans>(t: Transport<S, Req, Ans>, holding: set<Queue>, s: S, run: Run<Req, Ans>)
    returns (inner: Play<S, Ans>, end: Reply<Ans>, after: Play<S, Ans>)
    requires run.Section? && run.queue !in holding && Played(t, holding, s, run).Some?
    ensures Played(t, holding + {run.queue}, t.enter(s, run.queue).value, run.body) == Some(inner)
    ensures var failed := FailureOf(run.body).Some?;
            var (closed, own) := t.leave(inner.end, run.queue, failed);
            && end == EndReply(BodyFailure(run.queue, Ended(failed)), own)
            && Played(t, holding, closed, run.next) == Some(after)
    ensures Played(t, holding, s, run).value.replies == [Done] + inner.replies + ([end] + after.replies)
  {
    hide FailureOf, EndReply, BodyFailure, Lines;
    FailedAsSaid(run.queue, FailureOf(run.body).Some?);
    inner := Played(t, holding + {run.queue}, t.enter(s, run.queue).value, run.body).value;
    var failed := FailureOf(run.body).Some?;
    var (closed, own) := t.leave(inner.end, run.queue, failed);
    after := Played(t, holding, closed, run.next).value;
    end := EndReply(BodyFailure(run.queue, Ended(failed)), own);
    assert [Done] + inner.replies + ([end] + after.replies) == [Done] + inner.replies + [end] + after.replies;
  }

  /** Reading a section's replies is reading its body's among them, and what follows. */
  lemma ReadInParts<Req, Ans>(kind: string, holding: set<Queue>, run: Run<Req, Ans>, replies: seq<Reply<Ans>>)
    requires run.Section? && run.queue !in holding
    requires |replies| == |Lines(holding, run)| && Piped(kind, holding, run, replies)
    ensures var n := |Lines(holding + {run.queue}, run.body)|;
            && |Lines(holding, run)| == n + 2 + |Lines(holding, run.next)|
            && Piped(kind, holding + {run.queue}, run.body, replies[1..n + 1])
            && Piped(kind, holding, run.next, replies[n + 2..])
  {
    hide FailureOf, SectionHeard;
  }

  lemma NotReadInside<S, Req, Ans>(t: Transport<S, Req, Ans>, kind: string, holding: set<Queue>, s: S,
                                   run: Run<Req, Ans>, more: seq<Reply<Ans>>)
    requires run.Section? && run.queue !in holding && Played(t, holding, s, run).Some?
    requires var inside := t.enter(s, run.queue).value;
             var inner := Played(t, holding + {run.queue}, inside, run.body).value;
             var failed := FailureOf(run.body).Some?;
             var (closed, own) := t.leave(inner.end, run.queue, failed);
             && Played(t, holding, closed, run.next).Some?
             && NotReadSo(t, kind, holding + {run.queue}, inside, run.body,
                          [EndReply(BodyFailure(run.queue, Ended(failed)), own)]
                          + Played(t, holding, closed, run.next).value.replies + more)
    ensures NotReadSo(t, kind, holding, s, run, more)
  {
    hide Played, FailureOf, EndReply, BodyFailure, Lines, Piped;
    var inner, end, after := OpenedReplies(t, holding, s, run);
    var n, length := |Lines(holding + {run.queue}, run.body)|, |Lines(holding, run)|;
    var read := (Played(t, holding, s, run).value.replies + more)[..length];
    if Piped(kind, holding, run, read) {
      ReadInParts(kind, holding, run, read);
      ReadIn([Done], inner.replies, [end] + after.replies, more, n, length - 1);
    }
  }

  lemma NotReadPast<S, Req, Ans>(t: Transport<S, Req, Ans>, kind: string, holding: set<Queue>, s: S,
                                 run: Run<Req, Ans>, more: seq<Reply<Ans>>)
    requires run.Section? && run.queue !in holding && Played(t, holding, s, run).Some? && Denials(run.body) == 0
    requires var inner := Played(t, holding + {run.queue}, t.enter(s, run.queue).value, run.body).value;
             var closed := t.leave(inner.end, run.queue, FailureOf(run.body).Some?).0;
             && Played(t, holding, closed, run.next).Some?
             && NotReadSo(t, kind, holding, closed, run.next, more)
    ensures NotReadSo(t, kind, holding, s, run, more)
  {
    hide Played, FailureOf, EndReply, BodyFailure, Lines, Piped;
    var inner, end, after := OpenedReplies(t, holding, s, run);
    var length := |Lines(holding, run)|;
    var read := (Played(t, holding, s, run).value.replies + more)[..length];
    if Piped(kind, holding, run, read) {
      ReadInParts(kind, holding, run, read);
      var first := [Done] + inner.replies + [end];
      assert first + after.replies == [Done] + inner.replies + ([end] + after.replies);
      ReadOn(first, after.replies, more, |Lines(holding, run.next)|);
    }
  }

  /** Past what comes first, reading on is reading what follows it. */
  lemma ReadOn<T>(first: seq<T>, after: seq<T>, more: seq<T>, n: nat)
    requires n <= |after + more|
    ensures (first + after + more)[..|first| + n][|first|..] == (after + more)[..n]
  {
  }

  /** And what is read of the inner part is a front of it, whatever follows. */
  lemma ReadIn<T>(first: seq<T>, inner: seq<T>, after: seq<T>, more: seq<T>, n: nat, rest: nat)
    requires n <= |inner| && n <= rest && |first| + rest <= |first + inner + after + more|
    ensures (first + inner + after + more)[..|first| + rest][|first|..|first| + n] == (inner + (after + more))[..n]
  {
  }

  /** Why a refused section breaks the pairing: its opening is acknowledged before
      the transport is asked for it, so it is answered twice, and every reply after
      it answers the line before the one it is read for. */
  lemma RefusedSectionShiftsReplies<S, Req, Ans>(t: Transport<S, Req, Ans>, s: S, queue: Queue, lines: seq<Line<Req>>)
    requires t.enter(s, queue).Failure?
    ensures var replies := ServeUntil(t, s, [Begin(queue)] + lines, None).replies;
            && replies[..2] == [Done, Error(ToWire(t.enter(s, queue).error))]
            && replies[2..] == ServeUntil(t, s, lines, None).replies
  {
    RefusedLines(t, s, queue, lines, None);
  }

  /** A run made directly, the sections denied to it included, over the pipe: the
      replies run over by one for each denial, and read in order they are that run's
      exactly where there is none. */
  lemma DenialsAreNotPiped<S, Req, Ans>(t: Transport<S, Req, Ans>, kind: string, s: S, run: Run<Req, Ans>)
    requires Direct(t, kind, {}, s, run).Some?
    ensures var replies := ServeUntil(t, s, Lines({}, run), None).replies;
            && |replies| == |Lines({}, run)| + Denials(run)
            && (Piped(kind, {}, run, replies[..|Lines({}, run)|]) <==> Denials(run) == 0)
  {
    DirectEndsAsPlayed(t, kind, {}, s, run);
    ServingIsPlaying(t, {}, s, run, [], None);
    var played := Played(t, {}, s, run).value;
    ServeNothing(t, played.end, None);
    hide ServeUntil, Played, Lines, Piped, Direct;
    assert Lines({}, run) + [] == Lines({}, run) && played.replies + [] == played.replies;
    if Denials(run) > 0 {
      DenialIsNotHeard(t, kind, {}, s, run, []);
    } else {
      PipedIsDirect(t, kind, s, run);
      assert played.replies[..|Lines({}, run)|] == played.replies;
    }
  }

  /** After a refused section, whose body the client runs and ends all the same, the
      reply read for the next opening says that it was not done, and yet the transport
      opens that section: whatever is sent from there on, by anyone, is served
      inside it. */
  lemma OpeningAfterRefusal<S, Req, Ans>(t: Transport<S, Req, Ans>, s: S, queue: Queue, body: Run<Req, Ans>, failed: bool,
                                         next: Queue, more: seq<Line<Req>>)
    requires t.enter(s, queue).Failure? && Played(t, {queue}, s, body).Some? && Denials(body) == 0
    requires t.enter(Played(t, {queue}, s, body).value.end, next).Success?
    ensures var played := Played(t, {queue}, s, body).value;
            var sent := [Begin(queue)] + Lines({queue}, body) + [End(queue, failed), Begin(next)];
            var replies := ServeUntil(t, s, sent + more, None).replies;
            && |sent| <= |replies| && replies[|sent| - 1] == Error(Protocol("no open section holds it"))
            && replies[|sent|..] == ServeSection(t, t.enter(played.end, next).value, next, more, None).replies
  {
    hide ServeUntil, ServeSection, Played, Lines, Denials;
    var played := Played(t, {queue}, s, body).value;
    var lines := Lines({queue}, body);
    var tail := [End(queue, failed), Begin(next)] + more;
    RefusedThenServed(t, s, queue, body, tail);
    EndThenOpening(t, played.end, queue, failed, next, more);
    assert [Begin(queue)] + lines + [End(queue, failed), Begin(next)] + more == [Begin(queue)] + (lines + tail);
    AfterThree([Done, Error(ToWire(t.enter(s, queue).error))], played.replies,
               [Error(Protocol("no open section holds it"))],
               ServeSection(t, t.enter(played.end, next).value, next, more, None).replies);
  }

  /** Serving a refused section's lines, and what follows its body's. */
  lemma RefusedThenServed<S, Req, Ans>(t: Transport<S, Req, Ans>, s: S, queue: Queue, body: Run<Req, Ans>,
                                       tail: seq<Line<Req>>)
    requires t.enter(s, queue).Failure? && Played(t, {queue}, s, body).Some? && Denials(body) == 0
    ensures var played := Played(t, {queue}, s, body).value;
            && |played.replies| == |Lines({queue}, body)|
            && ServeUntil(t, s, [Begin(queue)] + (Lines({queue}, body) + tail), None).replies
               == [Done, Error(ToWire(t.enter(s, queue).error))]
                  + (played.replies + ServeUntil(t, played.end, tail, None).replies)
  {
    RefusedLines(t, s, queue, Lines({queue}, body) + tail, None);
    ServingIsPlaying(t, {queue}, s, body, tail, None);
    hide ServeUntil, Played, Lines;
  }

  lemma EndThenOpening<S, Req, Ans>(t: Transport<S, Req, Ans>, s: S, queue: Queue, failed: bool, next: Queue,
                                    more: seq<Line<Req>>)
    requires t.enter(s, next).Success?
    ensures ServeUntil(t, s, [End(queue, failed), Begin(next)] + more, None)
            == Before([Error(Protocol("no open section holds it"))], 0, 0,
                      ServeSection(t, t.enter(s, next).value, next, more, None))
  {
    hide ServeSection;
    var lines := [End(queue, failed), Begin(next)] + more;
    assert lines[1..][0] == Begin(next) && lines[1..][1..] == more;
    assert ServeUntil(t, s, lines[1..], None) == ServeSection(t, t.enter(s, next).value, next, more, None);
  }

  lemma AfterThree<T>(a: seq<T>, b: seq<T>, c: seq<T>, d: seq<T>)
    requires |c| == 1
    ensures var all := a + (b + (c + d));
            all[|a| + |b|] == c[0] && all[|a| + |b| + 1..] == d
  {
  }
}
