/** Every run of an event queue and its projection: writers that may die between
    appending and writing the projection, readers that write back what they
    folded long after, and accidents to the stored document. */
module QueueCache {
  import opened Wrappers
  import opened QueueModel
  import opened QueueHistory
  import opened Projections

  /** The log and the stored projection; and, in flight, what readers loaded and
      have not folded, and what they folded and may yet write back. */
  datatype World = World(log: seq<Stored>, document: Option<Projection>,
                         loaded: set<Option<Projection>>, folded: set<Projection>)

  const START := World([], None, {}, {})

  datatype Step =
    /** A section runs an operation and appends as many of its lines as there are
        positions; dying there, or going on to write the projection. */
    | Mutate(op: Op, positions: seq<nat>, wrote: bool)
    /** A reader loads the stored projection — or fails to, and goes without. */
    | Load(found: bool)
    /** A reader folds the log as it now is on top of what it loaded. */
    | FoldOn(document: Option<Projection>)
    /** A reader writes back what it folded, however stale. */
    | WriteBack(projection: Projection)
    /** The stored projection is lost, or changed by accident: its seal fails. */
    | Damage(document: Option<Projection>)

  /** `lines` as the transport keeps them at `positions`. */
  function Appended(lines: seq<Line>, positions: seq<nat>): (stored: seq<Stored>)
    requires |positions| <= |lines|
    ensures |stored| == |positions|
    ensures forall i | 0 <= i < |stored| :: stored[i] == Stored(lines[i], positions[i])
  {
    seq(|positions|, i requires 0 <= i < |positions| => Stored(lines[i], positions[i]))
  }

  /** What an up-to-date read of the queue answers, stamped. */
  function Current(spec: Spec, document: Option<Projection>, log: seq<Stored>): Option<Projection> {
    var (claims, accounted) := Claims(spec, Checkpoint(spec, document), log);
    if accounted <= LAST_U64 then Some(Stamp(spec, claims, accounted)) else None
  }

  ghost predicate Next(spec: Spec, w: World, step: Step, w': World) {
    match step
    case Mutate(op, positions, wrote) =>
      var (claims, _) := Claims(spec, Checkpoint(spec, w.document), w.log);
      var lines := Derive(spec.policy, claims, op);
      && Runnable(claims, op)
      && |positions| <= |lines|
      && (wrote ==> |positions| == |lines| && !Refuses(claims, op))
      && var appended := Appended(lines, positions);
         && Increasing(w.log + appended)
         && w' == w.(log := w.log + appended,
                     document := if wrote && spec.policy.projection
                                 then Some(Stamp(spec, FoldFrom(spec.policy, claims, appended), End(w.log + appended)))
                                 else w.document)
    case Load(found) => w' == w.(loaded := w.loaded + {if found then w.document else None})
    case FoldOn(document) =>
      && document in w.loaded
      && Current(spec, document, w.log).Some?
      && w' == w.(folded := w.folded + {Current(spec, document, w.log).value})
    case WriteBack(projection) => projection in w.folded && w' == w.(document := Some(projection))
    case Damage(document) =>
      (document.Some? ==> !Intact(spec, document.value)) && w' == w.(document := document)
  }

  ghost predicate Run(spec: Spec, worlds: seq<World>, steps: seq<Step>) {
    && |worlds| == |steps| + 1
    && worlds[0] == START
    && forall i | 0 <= i < |steps| :: Next(spec, worlds[i], steps[i], worlds[i + 1])
  }

  /** What every run keeps. */
  ghost predicate Sound(spec: Spec, w: World) {
    && OwnLog(spec.policy, w.log)
    && Increasing(w.log)
    && Trustworthy(spec, w.document, w.log)
    && (forall d | d in w.loaded :: Trustworthy(spec, d, w.log))
    && (forall p | p in w.folded :: Faithful(spec, p, w.log))
  }

  lemma TrustworthyGrows(spec: Spec, document: Option<Projection>, log: seq<Stored>, appended: seq<Stored>)
    requires Trustworthy(spec, document, log)
    ensures Trustworthy(spec, document, log + appended)
  {
    if document.Some? && Intact(spec, document.value) {
      FaithfulGrows(spec, document.value, log, appended);
    }
  }

  lemma MutateKeepsSound(spec: Spec, w: World, step: Step, w': World)
    requires Sound(spec, w) && step.Mutate? && Next(spec, w, step, w')
    ensures Sound(spec, w')
  {
    ClaimsAreTheFold(spec, w.document, w.log);
    var claims := Fold(spec.policy, w.log);
    var appended := Appended(Derive(spec.policy, claims, step.op), step.positions);
    OperationKeepsOwn(spec.policy, w.log, step.op, appended);
    FoldFromConcat(spec.policy, EMPTY, w.log, appended);
    WholeIsFaithful(spec, w.log + appended);
    TrustworthyGrows(spec, w.document, w.log, appended);
    forall d | d in w.loaded
      ensures Trustworthy(spec, d, w'.log)
    {
      TrustworthyGrows(spec, d, w.log, appended);
    }
    forall p | p in w.folded
      ensures Faithful(spec, p, w'.log)
    {
      FaithfulGrows(spec, p, w.log, appended);
    }
  }

  lemma StepKeepsSound(spec: Spec, w: World, step: Step, w': World)
    requires Sound(spec, w) && Next(spec, w, step, w')
    ensures Sound(spec, w')
  {
    match step {
      case Mutate(_, _, _) => MutateKeepsSound(spec, w, step, w');
      case FoldOn(document) =>
        ClaimsAreTheFold(spec, document, w.log);
        WholeIsFaithful(spec, w.log);
      case _ =>
    }
  }

  /** In every run the stored projection is absent, fails its seal, or is the fold
      of a prefix of the log ending at a record boundary; and so is everything a
      reader still holds. */
  lemma {:induction false} EveryRunIsSound(spec: Spec, worlds: seq<World>, steps: seq<Step>, i: nat)
    requires Run(spec, worlds, steps) && i < |worlds|
    ensures Sound(spec, worlds[i])
  {
    if i != 0 {
      EveryRunIsSound(spec, worlds, steps, i - 1);
      StepKeepsSound(spec, worlds[i - 1], steps[i - 1], worlds[i]);
    }
  }

  /** So whatever a reader has loaded, and whenever it folds, what it answers is
      the whole log folded from nothing. */
  lemma ReadsAnswerTheFold(spec: Spec, worlds: seq<World>, steps: seq<Step>, i: nat)
    requires Run(spec, worlds, steps) && i < |worlds|
    ensures var w := worlds[i];
            forall d | d == w.document || d in w.loaded ::
              Claims(spec, Checkpoint(spec, d), w.log) == (Fold(spec.policy, w.log), End(w.log))
  {
    EveryRunIsSound(spec, worlds, steps, i);
    var w := worlds[i];
    forall d | d == w.document || d in w.loaded
      ensures Claims(spec, Checkpoint(spec, d), w.log) == (Fold(spec.policy, w.log), End(w.log))
    {
      ClaimsAreTheFold(spec, d, w.log);
    }
  }

  // ----- what each step does -----

  /** A section appends a front of the lines its operation derives from the whole log,
      whatever is stored, and writes the fold of the log it leaves exactly where it gets so
      far and the policy keeps a projection. */
  lemma MutateAppends(spec: Spec, w: World, step: Step, w': World)
    requires Sound(spec, w) && step.Mutate? && Next(spec, w, step, w')
    ensures var lines := Derive(spec.policy, Fold(spec.policy, w.log), step.op);
            && |w.log| <= |w'.log| <= |w.log| + |lines| && w'.log[..|w.log|] == w.log
            && (forall i | |w.log| <= i < |w'.log| :: w'.log[i].line == lines[i - |w.log|])
            && (step.wrote ==> |w'.log| == |w.log| + |lines| && !Refuses(Fold(spec.policy, w.log), step.op))
    ensures w'.document == if step.wrote && spec.policy.projection
                           then Some(Stamp(spec, Fold(spec.policy, w'.log), End(w'.log))) else w.document
  {
    hide OwnLog, Trustworthy, Faithful, Fold, FoldFrom, Claims, Derive, Stamp, Checkpoint, Increasing, Refuses, Runnable;
    ClaimsAreTheFold(spec, w.document, w.log);
    var appended := Appended(Derive(spec.policy, Fold(spec.policy, w.log), step.op), step.positions);
    FoldOfConcat(spec.policy, w.log, appended);
  }

  /** A reader folds the whole log, whatever it loaded and however long ago. */
  lemma ReaderFoldsAll(spec: Spec, w: World, step: Step, w': World)
    requires Sound(spec, w) && step.FoldOn? && Next(spec, w, step, w')
    ensures w' == w.(folded := w.folded + {Stamp(spec, Fold(spec.policy, w.log), End(w.log))})
  {
    hide OwnLog, Trustworthy, Faithful, Fold, Claims, Stamp, Checkpoint, Increasing;
    ClaimsAreTheFold(spec, step.document, w.log);
  }

  /** And any operation that may run is cut short anywhere, or goes on to its end. */
  lemma MutationMayStop(spec: Spec, w: World, op: Op, positions: seq<nat>, wrote: bool)
    requires Sound(spec, w) && Runnable(Fold(spec.policy, w.log), op)
    requires |positions| <= |Derive(spec.policy, Fold(spec.policy, w.log), op)|
    requires Increasing(w.log + Appended(Derive(spec.policy, Fold(spec.policy, w.log), op), positions))
    requires wrote ==> |positions| == |Derive(spec.policy, Fold(spec.policy, w.log), op)|
                       && !Refuses(Fold(spec.policy, w.log), op)
    ensures exists w' :: Next(spec, w, Mutate(op, positions, wrote), w')
  {
    hide OwnLog, Trustworthy, Faithful, Fold, FoldFrom, Claims, Derive, Stamp, Checkpoint, Refuses, Runnable;
    ClaimsAreTheFold(spec, w.document, w.log);
    var folded := Fold(spec.policy, w.log);
    var appended := Appended(Derive(spec.policy, folded, op), positions);
    var written := if wrote && spec.policy.projection
                   then Some(Stamp(spec, FoldFrom(spec.policy, folded, appended), End(w.log + appended))) else w.document;
    assert Next(spec, w, Mutate(op, positions, wrote), w.(log := w.log + appended, document := written));
  }

  /** And a reader folds whatever it loaded, however long ago. */
  lemma ReaderMayFold(spec: Spec, w: World, document: Option<Projection>)
    requires Sound(spec, w) && document in w.loaded
    ensures exists w' :: Next(spec, w, FoldOn(document), w')
  {
    hide OwnLog, Trustworthy, Faithful, Fold, Claims, Stamp, Checkpoint;
    ClaimsAreTheFold(spec, document, w.log);
    assert Next(spec, w, FoldOn(document), w.(folded := w.folded + {Current(spec, document, w.log).value}));
  }
}
