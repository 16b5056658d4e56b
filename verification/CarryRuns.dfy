/** Any interleaving of carriers, draining inboxes and closes over one store: where
    every message that was written ends up. */
module CarryRuns {
  import opened Wrappers
  import opened Streams
  import opened CarryStores

  datatype Box<M> = Box(schema: nat, closed: bool, entered: seq<M>)

  /** An entry whose whole line was written, and whether its sender was answered. */
  datatype Written<M> = Written(entry: Entry<M>, answered: bool)

  /** The store and the inboxes; and, as history, every entry written, in order,
      with the fate of those the store no longer holds: the inbox that took it, or
      none. */
  datatype World<M> = World(file: Option<Bytes>, boxes: seq<Box<M>>, written: seq<Written<M>>, fates: seq<Option<nat>>)

  /** What one process does under the file's lock, or an inbox under its own. */
  datatype Step<M> =
    | Create
    | Send(entry: Entry<M>, reach: nat, synced: bool)
    | Open(schema: nat)
    | Close(box: nat)
    | Drain(box: nat, commit: Commit)

  predicate Enabled<M>(w: World<M>, step: Step<M>) {
    match step
    case Close(i) => i < |w.boxes|
    case Drain(i, _) => i < |w.boxes|
    case _ => true
  }

  /** Whether a send writes its line to its end. */
  predicate Writes<M>(format: Format<M>, w: World<M>, entry: Entry<M>, reach: nat) {
    Parse(format, Created(format, w.file)).Success? && reach > |format.encode(entry)|
  }

  function Apply<M>(format: Format<M>, w: World<M>, step: Step<M>): World<M>
    requires Enabled(w, step)
  {
    match step
    case Create => w.(file := Some(Created(format, w.file)))
    case Send(entry, reach, synced) =>
      var (store, answered) := Sent(format, w.file, entry, reach, synced);
      w.(file := Some(store),
         written := w.written + if Writes(format, w, entry, reach) then [Written(entry, answered)] else [])
    case Open(schema) => w.(boxes := w.boxes + [Box(schema, false, [])])
    case Close(i) => w.(boxes := w.boxes[i := w.boxes[i].(closed := true)])
    case Drain(i, commit) =>
      var box := w.boxes[i];
      var (after, taken) := Drained(format, w.file, box.schema, box.closed, commit);
      var gone := Gone(format, w, step);
      w.(file := after,
         boxes := if taken.Success? then w.boxes[i := box.(entered := box.entered + taken.value)] else w.boxes,
         fates := w.fates + Repeat(gone, if taken.Success? then Some(i) else None))
  }

  function Repeat<T>(n: nat, item: T): seq<T> {
    if n == 0 then [] else [item] + Repeat(n - 1, item)
  }

  /** How many entries a step takes out of the store. */
  function Gone<M>(format: Format<M>, w: World<M>, step: Step<M>): nat
    requires Enabled(w, step)
  {
    if !step.Drain? || step.commit == Untouched then 0
    else
      var offered := Offered(format, w.file, w.boxes[step.box].schema, w.boxes[step.box].closed);
      if offered.Success? then |offered.value| else 0
  }

  ghost predicate Run<M>(format: Format<M>, worlds: seq<World<M>>, steps: seq<Step<M>>) {
    && |worlds| == |steps| + 1
    && worlds[0] == World(None, [], [], [])
    && forall i :: 0 <= i < |steps| ==> Enabled(worlds[i], steps[i]) && worlds[i + 1] == Apply(format, worlds[i], steps[i])
  }

  /** What the steps that move no message do: a store is made with its header alone where
      there is none; an inbox opens empty, and closes, and stays as it was otherwise. */
  lemma NothingMoves<M>(format: Format<M>, w: World<M>, step: Step<M>)
    requires Enabled(w, step) && (step.Create? || step.Open? || step.Close?)
    ensures var next := Apply(format, w, step);
            && next.written == w.written && next.fates == w.fates
            && next.file == (if step.Create? && w.file.None? then Some(format.header + [NEWLINE]) else w.file)
            && |next.boxes| == |w.boxes| + (if step.Open? then 1 else 0)
            && (step.Open? ==> next.boxes[|w.boxes|] == Box(step.schema, false, []))
            && forall i :: 0 <= i < |w.boxes| ==>
                 && next.boxes[i].schema == w.boxes[i].schema && next.boxes[i].entered == w.boxes[i].entered
                 && (next.boxes[i].closed <==> w.boxes[i].closed || (step.Close? && step.box == i))
  {
  }

  // ----- where the messages are -----

  function LinesOf<M>(format: Format<M>, written: seq<Written<M>>): seq<Bytes> {
    if written == [] then [] else [format.encode(written[0].entry)] + LinesOf(format, written[1..])
  }

  function EntriesOf<M>(written: seq<Written<M>>): seq<Entry<M>> {
    if written == [] then [] else [written[0].entry] + EntriesOf(written[1..])
  }

  /** The messages that went to one inbox, in the order they were written. */
  function WentTo<M>(written: seq<Written<M>>, fates: seq<Option<nat>>, box: nat): seq<M>
    requires |fates| <= |written|
  {
    if fates == [] then []
    else (if fates[0] == Some(box) then [written[0].entry.message] else []) + WentTo(written[1..], fates[1..], box)
  }

  /** The store holds, whole and in order, exactly the entries with no fate yet;
      and each inbox was given exactly those whose fate it is. */
  ghost predicate Kept<M>(format: Format<M>, w: World<M>) {
    && |w.fates| <= |w.written|
    && (w.file.None? ==> w.written == [])
    && (w.file.Some? ==>
          WholeLines(w.file.value) == [format.header] + LinesOf(format, w.written[|w.fates|..]))
    && (forall i :: 0 <= i < |w.boxes| ==> w.boxes[i].entered == WentTo(w.written, w.fates, i))
    && (forall k, i :: 0 <= k < |w.fates| && w.fates[k] == Some(i) ==> i < |w.boxes|)
  }

  lemma {:induction false} DecodesLines<M(!new)>(format: Format<M>, written: seq<Written<M>>)
    requires Faithful(format)
    ensures DecodeAll(format, LinesOf(format, written)) == Some(EntriesOf(written))
  {
    if written != [] {
      DecodesLines(format, written[1..]);
      assert LinesOf(format, written)[1..] == LinesOf(format, written[1..]);
    }
  }

  /** A store whose lines are its header and entries parses to those entries, and
      fails to only by a torn record. */
  lemma ParsesEntries<M(!new)>(format: Format<M>, file: Bytes, written: seq<Written<M>>)
    requires Faithful(format) && WholeLines(file) == [format.header] + LinesOf(format, written)
    ensures Parse(format, file) == if Ends(file) then Success((|format.header| + 1, EntriesOf(written))) else Failure(Unreadable)
    ensures |format.header| < |file| && file[..|format.header| + 1] == format.header + [NEWLINE]
  {
    hide LinesOf, EntriesOf, DecodeAll, Faithful, Ends;
    FirstNewlineIsFirst(file);
    var n := FirstNewline(file).value;
    var first, records := file[..n], file[n + 1..];
    assert file == first + [NEWLINE] + records;
    LineAndRest(first, records);
    assert WholeLines(file) == [first] + WholeLines(records);
    assert first == WholeLines(file)[0] == format.header;
    assert WholeLines(records) == WholeLines(file)[1..] == LinesOf(format, written);
    DecodesLines(format, written);
    EndsAfterFirst(first, records);
  }

  // ----- every step keeps it -----

  lemma {:induction false} LinesOfOneMore<M>(format: Format<M>, written: seq<Written<M>>, last: Written<M>)
    ensures LinesOf(format, written + [last]) == LinesOf(format, written) + [format.encode(last.entry)]
  {
    if written == [] {
      assert written + [last] == [last];
    } else {
      assert (written + [last])[1..] == written[1..] + [last];
      LinesOfOneMore(format, written[1..], last);
    }
  }

  lemma {:induction false} WentToLonger<M>(written: seq<Written<M>>, more: seq<Written<M>>, fates: seq<Option<nat>>, box: nat)
    requires |fates| <= |written|
    ensures WentTo(written + more, fates, box) == WentTo(written, fates, box)
  {
    if fates != [] {
      assert (written + more)[1..] == written[1..] + more;
      WentToLonger(written[1..], more, fates[1..], box);
    }
  }

  lemma {:induction false} WentToConcat<M>(written: seq<Written<M>>, a: seq<Option<nat>>, b: seq<Option<nat>>, box: nat)
    requires |a| + |b| <= |written|
    ensures WentTo(written, a + b, box) == WentTo(written, a, box) + WentTo(written[|a|..], b, box)
  {
    if a == [] {
      assert a + b == b;
    } else {
      assert (a + b)[1..] == a[1..] + b && written[1..][|a| - 1..] == written[|a|..];
      WentToConcat(written[1..], a[1..], b, box);
    }
  }

  lemma {:induction false} AllWentTo<M>(written: seq<Written<M>>, fate: Option<nat>, box: nat)
    ensures |Repeat(|written|, fate)| == |written|
    ensures WentTo(written, Repeat(|written|, fate), box) == if fate == Some(box) then Messages(EntriesOf(written)) else []
    ensures |EntriesOf(written)| == |written|
  {
    if written != [] {
      AllWentTo(written[1..], fate, box);
      assert Repeat(|written|, fate)[1..] == Repeat(|written| - 1, fate);
      assert EntriesOf(written)[1..] == EntriesOf(written[1..]);
    }
  }

  lemma {:induction false} NothingWentTo<M>(written: seq<Written<M>>, fates: seq<Option<nat>>, box: nat)
    requires |fates| <= |written| && Some(box) !in fates
    ensures WentTo(written, fates, box) == []
  {
    if fates != [] {
      NothingWentTo(written[1..], fates[1..], box);
    }
  }

  lemma CreatedHolds<M(!new)>(format: Format<M>, w: World<M>)
    requires Faithful(format) && Kept(format, w)
    ensures WholeLines(Created(format, w.file)) == [format.header] + LinesOf(format, w.written[|w.fates|..])
  {
    if w.file.None? {
      LineAndRest(format.header, []);
      NothingWhole([]);
      assert format.header + [NEWLINE] + [] == format.header + [NEWLINE];
    }
  }

  /** A send appends its entry's line, or less than a line, to what parses. */
  lemma SentLines<M(!new)>(format: Format<M>, store: Bytes, pending: seq<Written<M>>, last: Written<M>, reach: nat)
    requires Faithful(format) && Ends(store) && WholeLines(store) == [format.header] + LinesOf(format, pending)
    ensures var line := format.encode(last.entry);
            WholeLines(store + Upto(line + [NEWLINE], reach))
            == [format.header] + LinesOf(format, if reach > |line| then pending + [last] else pending)
  {
    hide WholeLines, Tail, LinesOf;
    var line := format.encode(last.entry);
    if reach > |line| {
      var whole := line + [NEWLINE];
      assert Upto(whole, reach) == whole == whole + [];
      LineAndRest(line, []);
      NothingWhole([]);
      LinesOfConcat(store, whole);
      LinesOfOneMore(format, pending, last);
    } else {
      var part := Upto(line + [NEWLINE], reach);
      assert part == line[..reach];
      NothingWhole(part);
      LinesOfConcat(store, part);
    }
  }

  lemma SendKeeps<M(!new)>(format: Format<M>, w: World<M>, entry: Entry<M>, reach: nat, synced: bool)
    requires Faithful(format) && Kept(format, w)
    ensures Kept(format, Apply(format, w, Send(entry, reach, synced)))
  {
    hide WholeLines, WentTo, LinesOf, Parse, Faithful, Upto;
    CreatedHolds(format, w);
    var next := Apply(format, w, Send(entry, reach, synced));
    var store := Created(format, w.file);
    var pending := w.written[|w.fates|..];
    ParsesEntries(format, store, pending);
    var last := Written(entry, Sent(format, w.file, entry, reach, synced).1);
    if Parse(format, store).Success? {
      SentLines(format, store, pending, last, reach);
    }
    var more := if Writes(format, w, entry, reach) then [last] else [];
    assert next.written == w.written + more;
    assert next.written[|w.fates|..] == pending + more;
    assert pending + [] == pending;
    forall i | 0 <= i < |w.boxes| ensures next.boxes[i].entered == WentTo(next.written, w.fates, i) {
      WentToLonger(w.written, more, w.fates, i);
    }
  }

  lemma {:induction false} RepeatIs<T>(n: nat, item: T)
    ensures |Repeat(n, item)| == n && forall k :: 0 <= k < n ==> Repeat(n, item)[k] == item
  {
    if n > 0 {
      RepeatIs(n - 1, item);
    }
  }

  /** All the entries without a fate given one: they are the messages whoever it is
      was given more. */
  lemma FatesGiven<M>(written: seq<Written<M>>, fates: seq<Option<nat>>, fate: Option<nat>, box: nat)
    requires |fates| <= |written|
    ensures var pending := written[|fates|..];
            var all := fates + Repeat(|pending|, fate);
            && |all| == |written|
            && WentTo(written, all, box)
               == WentTo(written, fates, box) + if fate == Some(box) then Messages(EntriesOf(pending)) else []
  {
    hide Messages, WentTo, EntriesOf, Repeat;
    var pending := written[|fates|..];
    AllWentTo(pending, fate, box);
    WentToConcat(written, fates, Repeat(|pending|, fate), box);
  }

  /** A drain that gets as far as a commit of something takes all the store holds. */
  lemma OfferedIsPending<M(!new)>(format: Format<M>, w: World<M>, schema: nat, closed: bool)
    requires Faithful(format) && Kept(format, w)
    ensures var offered := Offered(format, w.file, schema, closed);
            var pending := w.written[|w.fates|..];
            offered.Success? && offered.value != [] ==>
              && offered.value == EntriesOf(pending) && |offered.value| == |pending|
              && w.file.Some?
              && Parse(format, w.file.value).Success?
              && w.file.value[..Parse(format, w.file.value).value.0] == Created(format, None)
  {
    hide Parse, LinesOf, WentTo, WholeLines, EntriesOf, Faithful;
    var pending := w.written[|w.fates|..];
    if w.file.Some? {
      ParsesEntries(format, w.file.value, pending);
      AllWentTo(pending, None, 0);
    }
  }

  lemma EmptyStoreHolds<M(!new)>(format: Format<M>)
    requires Faithful(format)
    ensures WholeLines(Created(format, None)) == [format.header] + LinesOf(format, [])
  {
    CreatedHolds(format, World(None, [], [], []));
  }

  /** A drain with nothing to take, or nothing committed, changes nothing. */
  lemma DrainedNothing<M(!new)>(format: Format<M>, w: World<M>, i: nat, commit: Commit)
    requires i < |w.boxes|
    requires var offered := Offered(format, w.file, w.boxes[i].schema, w.boxes[i].closed);
             offered.Failure? || offered.value == [] || commit == Untouched
    ensures Apply(format, w, Drain(i, commit)) == w
  {
    hide Parse, Offered;
    assert w.boxes[i].entered + [] == w.boxes[i].entered;
    assert w.fates + [] == w.fates;
  }

  /** A drain that empties the store gives everything it held one fate. */
  lemma DrainedAll<M(!new)>(format: Format<M>, w: World<M>, i: nat, commit: Commit)
    requires Faithful(format) && Kept(format, w) && i < |w.boxes| && commit != Untouched
    requires var offered := Offered(format, w.file, w.boxes[i].schema, w.boxes[i].closed);
             offered.Success? && offered.value != []
    ensures var pending := w.written[|w.fates|..];
            var fate: Option<nat> := if commit == Emptied then Some(i) else None;
            var box := w.boxes[i];
            Apply(format, w, Drain(i, commit))
            == World(Some(Created(format, None)),
                     if commit == Emptied
                     then w.boxes[i := box.(entered := box.entered + Messages(EntriesOf(pending)))] else w.boxes,
                     w.written,
                     w.fates + Repeat(|pending|, fate))
  {
    OfferedIsPending(format, w, w.boxes[i].schema, w.boxes[i].closed);
    hide Parse, Offered, Kept, Faithful, EntriesOf, Messages, Repeat;
  }

  lemma DrainKeeps<M(!new)>(format: Format<M>, w: World<M>, i: nat, commit: Commit)
    requires Faithful(format) && Kept(format, w) && i < |w.boxes|
    ensures Kept(format, Apply(format, w, Drain(i, commit)))
  {
    hide Apply, Parse, WholeLines, WentTo, LinesOf, EntriesOf, Messages, Offered, Created, Faithful, Repeat;
    var offered := Offered(format, w.file, w.boxes[i].schema, w.boxes[i].closed);
    if offered.Failure? || offered.value == [] || commit == Untouched {
      DrainedNothing(format, w, i, commit);
    } else {
      DrainedAll(format, w, i, commit);
      var next := Apply(format, w, Drain(i, commit));
      var pending := w.written[|w.fates|..];
      var fate: Option<nat> := if commit == Emptied then Some(i) else None;
      RepeatIs(|pending|, fate);
      FatesGiven(w.written, w.fates, fate, 0);
      assert next.written[|next.fates|..] == [];
      EmptyStoreHolds(format);
      forall j | 0 <= j < |w.boxes| ensures next.boxes[j].entered == WentTo(w.written, next.fates, j) {
        FatesGiven(w.written, w.fates, fate, j);
        assert w.boxes[j].entered + [] == w.boxes[j].entered;
      }
    }
  }

  lemma StepKeeps<M(!new)>(format: Format<M>, w: World<M>, step: Step<M>)
    requires Faithful(format) && Kept(format, w) && Enabled(w, step)
    ensures Kept(format, Apply(format, w, step))
  {
    match step
    case Create => CreatedHolds(format, w);
    case Send(entry, reach, synced) => SendKeeps(format, w, entry, reach, synced);
    case Drain(i, commit) => DrainKeeps(format, w, i, commit);
    case Open(_) =>
      assert Some(|w.boxes|) !in w.fates;
      NothingWentTo(w.written, w.fates, |w.boxes|);
    case Close(_) =>
  }

  lemma {:induction false} EveryRunIsKept<M(!new)>(format: Format<M>, worlds: seq<World<M>>, steps: seq<Step<M>>, n: nat)
    requires Faithful(format) && Run(format, worlds, steps) && n < |worlds|
    ensures Kept(format, worlds[n])
  {
    hide Apply;
    if n > 0 {
      EveryRunIsKept(format, worlds, steps, n - 1);
      StepKeeps(format, worlds[n - 1], steps[n - 1]);
    }
  }

  // ----- no message twice, and none lost but by a half-done commit -----

  /** The whole records a store holds. */
  function Held<M>(format: Format<M>, file: Option<Bytes>): Option<seq<Entry<M>>> {
    if file.None? || WholeLines(file.value) == [] then Some([]) else DecodeAll(format, WholeLines(file.value)[1..])
  }

  /** In every run: what the store holds is exactly the entries written that have
      no fate yet, in order; what an inbox was given is exactly the messages whose
      fate it is, in order. A fate is one inbox or none, so no message is in two
      places, nor in the store and an inbox. */
  lemma TakenOnceInOrder<M(!new)>(format: Format<M>, worlds: seq<World<M>>, steps: seq<Step<M>>, n: nat)
    requires Faithful(format) && Run(format, worlds, steps) && n < |worlds|
    ensures var w := worlds[n];
            && |w.fates| <= |w.written|
            && Held(format, w.file) == Some(EntriesOf(w.written[|w.fates|..]))
            && forall i :: 0 <= i < |w.boxes| ==> w.boxes[i].entered == WentTo(w.written, w.fates, i)
  {
    EveryRunIsKept(format, worlds, steps, n);
    var w := worlds[n];
    DecodesLines(format, w.written[|w.fates|..]);
    if w.file.Some? {
      assert WholeLines(w.file.value)[1..] == LinesOf(format, w.written[|w.fates|..]);
    }
  }

  /** What a store holds with no fate yet, and what a drain of it takes: each message
      in its place. */
  predicate AreMessagesOf<M(==)>(messages: seq<M>, entries: seq<Entry<M>>) {
    |messages| == |entries| && forall k :: 0 <= k < |entries| ==> messages[k] == entries[k].message
  }

  lemma {:induction false} MessagesInPlace<M>(entries: seq<Entry<M>>)
    ensures AreMessagesOf(Messages(entries), entries)
  {
    if entries != [] {
      MessagesInPlace(entries[1..]);
    }
  }

  /** What any drain of any run does. It is refused by a closed inbox, by a store that
      ends in a torn record, and by one that holds an entry of another schema than the
      inbox's; and otherwise it takes the messages of everything the store holds, in
      order, if there is anything and its commit goes through. The store keeps its
      header alone exactly where there was something to take and the commit emptied it. */
  lemma DrainsExactly<M(!new)>(format: Format<M>, worlds: seq<World<M>>, steps: seq<Step<M>>, n: nat)
    requires Faithful(format) && Run(format, worlds, steps) && n < |steps| && steps[n].Drain?
    ensures |worlds[n].fates| <= |worlds[n].written|
    ensures var w, box, commit := worlds[n], worlds[n].boxes[steps[n].box], steps[n].commit;
            var pending := EntriesOf(w.written[|w.fates|..]);
            var (after, taken) := Drained(format, w.file, box.schema, box.closed, commit);
            var refused := box.closed || (w.file.Some? && (!Ends(w.file.value) || exists e :: e in pending && e.schema != box.schema));
            && (taken == Failure(ClosedInbox) <==> box.closed)
            && (taken == Failure(OfStore(Unreadable)) <==> refused && !box.closed)
            && (taken == Failure(NotCommitted) <==> !refused && pending != [] && commit != Emptied)
            && (!refused && (pending == [] || commit == Emptied) ==> taken.Success? && AreMessagesOf(taken.value, pending))
            && after == if !refused && pending != [] && commit != Untouched then Some(format.header + [NEWLINE]) else w.file
  {
    EveryRunIsKept(format, worlds, steps, n);
    var w, box := worlds[n], worlds[n].boxes[steps[n].box];
    DrainTakes(format, w, box.schema, box.closed, steps[n].commit);
  }

  lemma DrainTakes<M(!new)>(format: Format<M>, w: World<M>, schema: nat, closed: bool, commit: Commit)
    requires Faithful(format) && Kept(format, w)
    ensures var pending := EntriesOf(w.written[|w.fates|..]);
            var refused := closed || (w.file.Some? && (!Ends(w.file.value) || exists e :: e in pending && e.schema != schema));
            Drained(format, w.file, schema, closed, commit)
            == if closed then (w.file, Failure(ClosedInbox))
               else if refused then (w.file, Failure(OfStore(Unreadable)))
               else if pending == [] then (w.file, Success([]))
               else match commit
                 case Emptied => (Some(format.header + [NEWLINE]), Success(Messages(pending)))
                 case Untouched => (w.file, Failure(NotCommitted))
                 case EmptiedUnsynced => (Some(format.header + [NEWLINE]), Failure(NotCommitted))
    ensures AreMessagesOf(Messages(EntriesOf(w.written[|w.fates|..])), EntriesOf(w.written[|w.fates|..]))
  {
    var pending := EntriesOf(w.written[|w.fates|..]);
    MessagesInPlace(pending);
    if w.file.Some? {
      ParsesEntries(format, w.file.value, w.written[|w.fates|..]);
    }
    hide Parse, Messages, AreMessagesOf, Faithful, EntriesOf, LinesOf;
    assert AllOf(pending, schema) <==> !exists e :: e in pending && e.schema != schema;
  }

  /** What any send of any run does: it is answered exactly where the store does not end
      in a torn record, the whole line was written and the store synced; and as much of
      its line as was written is added to such a store, and nothing to any other. */
  lemma SendsExactly<M(!new)>(format: Format<M>, worlds: seq<World<M>>, steps: seq<Step<M>>, n: nat)
    requires Faithful(format) && Run(format, worlds, steps) && n < |steps| && steps[n].Send?
    ensures var w, line := worlds[n], format.encode(steps[n].entry) + [NEWLINE];
            var store := if w.file.Some? then w.file.value else format.header + [NEWLINE];
            Sent(format, w.file, steps[n].entry, steps[n].reach, steps[n].synced)
            == if !Ends(store) then (store, false)
               else (store + (if steps[n].reach < |line| then line[..steps[n].reach] else line),
                     steps[n].reach >= |line| && steps[n].synced)
  {
    EveryRunIsKept(format, worlds, steps, n);
    var w := worlds[n];
    var store := Created(format, w.file);
    CreatedHolds(format, w);
    ParsesEntries(format, store, w.written[|w.fates|..]);
    hide Parse, Faithful, LinesOf, EntriesOf;
  }

  /** No inbox is ever given a message that was carried for another schema. */
  lemma {:induction false} EachTakesItsOwn<M(!new)>(format: Format<M>, worlds: seq<World<M>>, steps: seq<Step<M>>, n: nat, k: nat)
    requires Faithful(format) && Run(format, worlds, steps) && n < |worlds|
    requires k < |worlds[n].fates| && worlds[n].fates[k].Some?
    ensures k < |worlds[n].written| && worlds[n].fates[k].value < |worlds[n].boxes|
    ensures worlds[n].written[k].entry.schema == worlds[n].boxes[worlds[n].fates[k].value].schema
  {
    hide Apply, Drained, Kept, Faithful;
    EveryRunIsKept(format, worlds, steps, n);
    EveryRunIsKept(format, worlds, steps, n - 1);
    KeptBounds(format, worlds[n], k);
    var w, step := worlds[n - 1], steps[n - 1];
    WrittenGrows(format, w, step);
    BoxesStay(format, w, step);
    if k < |w.fates| {
      EachTakesItsOwn(format, worlds, steps, n - 1, k);
      KeptBounds(format, w, k);
    } else {
      DrainTakesItsOwn(format, w, step, k);
    }
  }

  lemma KeptBounds<M>(format: Format<M>, w: World<M>, k: nat)
    requires Kept(format, w) && k < |w.fates|
    ensures k < |w.written| && (w.fates[k].Some? ==> w.fates[k].value < |w.boxes|)
  {
  }

  lemma BoxesStay<M>(format: Format<M>, w: World<M>, step: Step<M>)
    requires Enabled(w, step)
    ensures var next := Apply(format, w, step);
            |w.boxes| <= |next.boxes| && forall i :: 0 <= i < |w.boxes| ==> next.boxes[i].schema == w.boxes[i].schema
  {
    hide Drained, Sent;
  }

  lemma DrainTakesItsOwn<M(!new)>(format: Format<M>, w: World<M>, step: Step<M>, k: nat)
    requires Faithful(format) && Kept(format, w) && Enabled(w, step)
    requires var next := Apply(format, w, step);
             |w.fates| <= k < |next.fates| && k < |next.written| && next.fates[k].Some?
    ensures var next := Apply(format, w, step);
            && next.fates[k].value < |w.boxes|
            && next.written[k].entry.schema == w.boxes[next.fates[k].value].schema
  {
    var box := w.boxes[step.box];
    OfferedIsPending(format, w, box.schema, box.closed);
    var taken := Drained(format, w.file, box.schema, box.closed, step.commit).1;
    RepeatIs(Gone(format, w, step), if taken.Success? then Some(step.box) else None);
    var pending := w.written[|w.fates|..];
    EntryAt(pending, k - |w.fates|);
    hide Parse, Kept, Faithful, Repeat, EntriesOf;
  }

  /** A sender that is answered has written its line. */
  lemma AnsweredIsWritten<M>(format: Format<M>, w: World<M>, entry: Entry<M>, reach: nat, synced: bool)
    ensures Sent(format, w.file, entry, reach, synced).1 <==> Writes(format, w, entry, reach) && synced
  {
  }

  /** A drain whose commit empties the store and then fails, with something in it. */
  predicate Loses<M>(format: Format<M>, w: World<M>, step: Step<M>) {
    Enabled(w, step) && step.Drain? && step.commit == EmptiedUnsynced && Gone(format, w, step) > 0
  }

  /** A written message is lost in a run exactly when some drain of a store that
      held one emptied it and then failed to sync it. */
  lemma {:induction false} LostExactlyByAHalfDoneCommit<M(!new)>(format: Format<M>, worlds: seq<World<M>>,
                                                                  steps: seq<Step<M>>, n: nat)
    requires Faithful(format) && Run(format, worlds, steps) && n < |worlds|
    ensures None in worlds[n].fates <==> exists i :: 0 <= i < n && Loses(format, worlds[i], steps[i])
  {
    if n > 0 {
      var w, step := worlds[n - 1], steps[n - 1];
      LostExactlyByAHalfDoneCommit(format, worlds, steps, n - 1);
      FateAdded(format, w, step);
      assert None in worlds[n].fates <==> None in w.fates || Loses(format, w, step);
      if exists i :: 0 <= i < n && Loses(format, worlds[i], steps[i]) {
        var i :| 0 <= i < n && Loses(format, worlds[i], steps[i]);
        assert i < n - 1 || Loses(format, w, step);
      }
    }
  }

  lemma FateAdded<M>(format: Format<M>, w: World<M>, step: Step<M>)
    requires Enabled(w, step)
    ensures None in Apply(format, w, step).fates <==> None in w.fates || Loses(format, w, step)
  {
    if step.Drain? {
      var taken := Drained(format, w.file, w.boxes[step.box].schema, w.boxes[step.box].closed, step.commit).1;
      var fate: Option<nat> := if taken.Success? then Some(step.box) else None;
      var gone := Gone(format, w, step);
      RepeatIs(gone, fate);
      assert None in Repeat(gone, fate) <==> gone > 0 && fate == None by {
        if gone > 0 {
          assert Repeat(gone, fate)[0] == fate;
        }
      }
    }
  }

  /** So it does happen: a sender is answered, and its message ends nowhere. */
  lemma AnsweredMessageLost<M(!new)>(format: Format<M>, entry: Entry<M>)
    requires Faithful(format)
    ensures var before := World(None, [Box(entry.schema, false, [])], [], []);
            var sent := Apply(format, before, Send(entry, |format.encode(entry)| + 1, true));
            var after := Apply(format, sent, Drain(0, EmptiedUnsynced));
            && sent.written == [Written(entry, true)]
            && Held(format, after.file) == Some([]) && after.boxes[0].entered == []
  {
    hide WholeLines, Parse, Faithful;
    var before := World(None, [Box(entry.schema, false, [])], [], []);
    var store, line := format.header + [NEWLINE], format.encode(entry);
    assert store + [] == store;
    CreatedHolds(format, before.(boxes := []));
    ParsesEntries(format, store, []);
    var written := [Written(entry, true)];
    var sent := Apply(format, before, Send(entry, |line| + 1, true));
    SentLines(format, store, [], written[0], |line| + 1);
    assert sent.file == Some(store + (line + [NEWLINE]));
    assert [] + written == written;
    ParsesEntries(format, sent.file.value, written);
    assert EntriesOf(written) == [entry];
    var after := Apply(format, sent, Drain(0, EmptiedUnsynced));
    assert after.file == Some(store);
    assert WholeLines(store)[1..] == [];
  }

  lemma WrittenGrows<M>(format: Format<M>, w: World<M>, step: Step<M>)
    requires Enabled(w, step)
    ensures var next := Apply(format, w, step);
            w.written <= next.written && w.fates <= next.fates && |w.boxes| <= |next.boxes|
  {
  }

  lemma {:induction false} HistoryGrows<M>(format: Format<M>, worlds: seq<World<M>>, steps: seq<Step<M>>, i: nat, n: nat)
    requires Run(format, worlds, steps) && i <= n < |worlds|
    ensures worlds[i].written <= worlds[n].written && worlds[i].fates <= worlds[n].fates
    decreases n - i
  {
    hide Apply, Enabled;
    if i < n {
      HistoryGrows(format, worlds, steps, i, n - 1);
      WrittenGrows(format, worlds[n - 1], steps[n - 1]);
    }
  }

  /** The drain that gave an entry its fate. */
  lemma {:induction false} FateGivenAt<M(!new)>(format: Format<M>, worlds: seq<World<M>>, steps: seq<Step<M>>, n: nat, k: nat)
    returns (j: nat)
    requires Faithful(format) && Run(format, worlds, steps) && n < |worlds| && k < |worlds[n].fates|
    ensures j < n && |worlds[j].fates| <= k < |worlds[j + 1].fates| && worlds[j + 1].fates <= worlds[n].fates
    ensures worlds[n].fates[k].None? ==> Loses(format, worlds[j], steps[j])
  {
    hide Apply, Loses, Faithful;
    if k < |worlds[n - 1].fates| {
      WrittenGrows(format, worlds[n - 1], steps[n - 1]);
      j := FateGivenAt(format, worlds, steps, n - 1, k);
    } else {
      j := n - 1;
      FateOfStep(format, worlds[j], steps[j], k);
    }
  }

  lemma FateOfStep<M>(format: Format<M>, w: World<M>, step: Step<M>, k: nat)
    requires Enabled(w, step) && |w.fates| <= k < |Apply(format, w, step).fates|
    ensures Apply(format, w, step).fates[k].None? ==> Loses(format, w, step)
  {
    var taken := Drained(format, w.file, w.boxes[step.box].schema, w.boxes[step.box].closed, step.commit).1;
    RepeatIs(Gone(format, w, step), if taken.Success? then Some(step.box) else None);
  }

  lemma {:induction false} WentThere<M>(written: seq<Written<M>>, fates: seq<Option<nat>>, box: nat, k: nat)
    requires |fates| <= |written| && k < |fates| && fates[k] == Some(box)
    ensures written[k].entry.message in WentTo(written, fates, box)
  {
    if k > 0 {
      WentThere(written[1..], fates[1..], box, k - 1);
    }
  }

  lemma {:induction false} EntryAt<M>(written: seq<Written<M>>, k: nat)
    requires k < |written|
    ensures |EntriesOf(written)| == |written| && EntriesOf(written)[k] == written[k].entry
  {
    AllWentTo(written, None, 0);
    if k > 0 {
      EntryAt(written[1..], k - 1);
    }
  }

  /** Every message whose sender was answered, in every run and at every point after:
      it is still in the store, in its place, or went to one inbox, or was lost by a
      later drain that emptied the store it was in and failed to sync. */
  lemma AnsweredIsAccountedFor<M(!new)>(format: Format<M>, worlds: seq<World<M>>, steps: seq<Step<M>>, i: nat, n: nat)
    requires Faithful(format) && Run(format, worlds, steps) && i < n < |worlds| && steps[i].Send?
    requires Sent(format, worlds[i].file, steps[i].entry, steps[i].reach, steps[i].synced).1
    ensures var w, k := worlds[n], |worlds[i].written|;
            && k < |w.written| && w.written[k] == Written(steps[i].entry, true)
            && |w.fates| <= |w.written|
            && if k >= |w.fates| then
                 var held := Held(format, w.file);
                 held.Some? && k - |w.fates| < |held.value| && held.value[k - |w.fates|] == steps[i].entry
               else match w.fates[k]
                 case Some(box) => box < |w.boxes| && steps[i].entry.message in w.boxes[box].entered
                 case None => exists j :: i < j < n && Loses(format, worlds[j], steps[j])
  {
    hide Sent, Drained, Offered, Faithful, Loses, Held, WholeLines, WentTo, EntriesOf;
    var w, k := worlds[n], |worlds[i].written|;
    SentIsWritten(format, worlds[i], steps[i]);
    HistoryGrows(format, worlds, steps, i + 1, n);
    TakenOnceInOrder(format, worlds, steps, n);
    EveryRunIsKept(format, worlds, steps, n);
    hide Apply, Run, Writes, Gone;
    if k >= |w.fates| {
      EntryAt(w.written[|w.fates|..], k - |w.fates|);
    } else {
      if w.fates[k].Some? {
        WentThere(w.written, w.fates, w.fates[k].value, k);
      } else {
        var j := LostLater(format, worlds, steps, i, n, k);
      }
    }
  }

  lemma SentIsWritten<M>(format: Format<M>, w: World<M>, step: Step<M>)
    requires step.Send? && Sent(format, w.file, step.entry, step.reach, step.synced).1
    ensures Apply(format, w, step).written == w.written + [Written(step.entry, true)]
    ensures Apply(format, w, step).fates == w.fates
  {
    AnsweredIsWritten(format, w, step.entry, step.reach, step.synced);
    hide Sent, Writes;
  }

  lemma LostLater<M(!new)>(format: Format<M>, worlds: seq<World<M>>, steps: seq<Step<M>>, i: nat, n: nat, k: nat) returns (j: nat)
    requires Faithful(format) && Run(format, worlds, steps) && i < n < |worlds| && steps[i].Send?
    requires k == |worlds[i].written| && k < |worlds[n].fates| && worlds[n].fates[k].None?
    ensures i < j < n && Loses(format, worlds[j], steps[j])
  {
    hide Loses, Faithful;
    j := FateGivenAt(format, worlds, steps, n, k);
    EveryRunIsKept(format, worlds, steps, j + 1);
    assert |worlds[j + 1].fates| <= |worlds[j + 1].written|;
    if j + 1 <= i {
      HistoryGrows(format, worlds, steps, j + 1, i);
    }
    assert j != i by {
      hide Sent;
      assert steps[i].Send? ==> worlds[i + 1].fates == worlds[i].fates;
    }
  }

  /** A store that ends in a torn record refuses a step: it is left as it is, no
      sender is answered and no inbox is given anything. */
  lemma TornStoreIsLeft<M>(format: Format<M>, w: World<M>, step: Step<M>)
    requires Enabled(w, step) && w.file.Some? && !Ends(w.file.value)
    ensures var next := Apply(format, w, step);
            && next.file == w.file && next.written == w.written && next.fates == w.fates
            && |next.boxes| >= |w.boxes|
            && forall i :: 0 <= i < |w.boxes| ==> next.boxes[i].entered == w.boxes[i].entered
    ensures step.Send? ==> !Sent(format, w.file, step.entry, step.reach, step.synced).1
    ensures step.Drain? ==>
              Drained(format, w.file, w.boxes[step.box].schema, w.boxes[step.box].closed, step.commit).1.Failure?
  {
    TornDoesNotParse(format, w.file.value);
    hide Parse;
    assert w.written + [] == w.written && w.fates + [] == w.fates;
    if step.Drain? {
      assert Gone(format, w, step) == 0;
    }
  }

  /** And so for good: from the point a store ends in a torn record it stays as it
      is, no sender after is answered and no inbox takes anything from it. */
  lemma {:induction false} TornForGood<M>(format: Format<M>, worlds: seq<World<M>>, steps: seq<Step<M>>, i: nat, n: nat)
    requires Run(format, worlds, steps) && i <= n < |worlds|
    requires worlds[i].file.Some? && !Ends(worlds[i].file.value)
    ensures var before, w := worlds[i], worlds[n];
            && w.file == before.file && w.written == before.written && w.fates == before.fates
            && |before.boxes| <= |w.boxes|
            && forall b :: 0 <= b < |before.boxes| ==> w.boxes[b].entered == before.boxes[b].entered
    ensures n < |steps| && steps[n].Send? ==>
              !Sent(format, worlds[n].file, steps[n].entry, steps[n].reach, steps[n].synced).1
    ensures n < |steps| && steps[n].Drain? ==>
              var box := worlds[n].boxes[steps[n].box];
              Drained(format, worlds[n].file, box.schema, box.closed, steps[n].commit).1.Failure?
    decreases n - i
  {
    hide Apply, Sent, Drained;
    if i < n {
      TornForGood(format, worlds, steps, i, n - 1);
      TornStoreIsLeft(format, worlds[n - 1], steps[n - 1]);
    }
    if n < |steps| {
      TornStoreIsLeft(format, worlds[n], steps[n]);
    }
  }

  lemma TornDoesNotParse<M>(format: Format<M>, file: Bytes)
    requires !Ends(file)
    ensures Parse(format, file).Failure?
  {
    if FirstNewline(file).Some? {
      var n := FirstNewline(file).value;
      FirstNewlineIsFirst(file);
      assert file[n + 1..] != [] ==> file[n + 1..][|file| - n - 2] == file[|file| - 1];
    }
  }
}
