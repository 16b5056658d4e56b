/** Messages carried in a store file for a receiver that is not running: appended
    under the file's lock by their senders, and drained by an inbox as it opens. */
module CarryStores {
  import opened Wrappers
  import opened Streams
  import opened Inboxes

  /** A carried message, with the schema it is of. */
  datatype Entry<M> = Entry(schema: nat, message: M)

  datatype StoreError = Absent | Unreadable

  datatype DrainError = ClosedInbox | OfStore(e: StoreError) | NotCommitted

  /** The store's header line, and how an entry is written as a line and read. */
  datatype Format<!M> = Format(header: Bytes, encode: Entry<M> -> Bytes, decode: Bytes -> Option<Entry<M>>)

  ghost predicate Faithful<M(!new)>(format: Format<M>) {
    && NEWLINE !in format.header
    && forall entry :: NEWLINE !in format.encode(entry) && format.decode(format.encode(entry)) == Some(entry)
  }

  /** How the truncation that empties a store may go: done and synced, refused, or
      done with the sync refused. */
  datatype Commit = Emptied | Untouched | EmptiedUnsynced

  // ----- reading a store -----

  function DecodeAll<M>(format: Format<M>, lines: seq<Bytes>): Option<seq<Entry<M>>> {
    if lines == [] then Some([])
    else match format.decode(lines[0])
      case None => None
      case Some(entry) =>
        match DecodeAll(format, lines[1..]) case None => None case Some(rest) => Some([entry] + rest)
  }

  /** The length of the header line, and every record after it. */
  function Parse<M>(format: Format<M>, file: Bytes): Result<(nat, seq<Entry<M>>), StoreError> {
    match FirstNewline(file)
    case None => Failure(Absent)
    case Some(n) =>
      var records := file[n + 1..];
      if file[..n] != format.header then Failure(Absent)
      else if !Ends(records) then Failure(Unreadable)
      else match DecodeAll(format, WholeLines(records))
        case None => Failure(Unreadable)
        case Some(entries) => Success((n + 1, entries))
  }

  /** A store parses to its header's line and what every line after it reads as, in order;
      is absent exactly where its first line is not the header; and is unreadable exactly
      where that is but it ends in a torn record, or a line reads as no entry. */
  lemma ParsesExactly<M>(format: Format<M>, file: Bytes)
    ensures Parse(format, file) == Failure(Absent) <==> WholeLines(file) == [] || WholeLines(file)[0] != format.header
    ensures Parse(format, file) == Failure(Unreadable)
            <==> && WholeLines(file) != [] && WholeLines(file)[0] == format.header
                 && (!Ends(file) || exists k :: 0 < k < |WholeLines(file)| && format.decode(WholeLines(file)[k]).None?)
    ensures Parse(format, file).Success? ==>
              var (header, entries) := Parse(format, file).value;
              && header == |format.header| + 1 && |entries| == |WholeLines(file)| - 1
              && forall k :: 0 <= k < |entries| ==> format.decode(WholeLines(file)[k + 1]) == Some(entries[k])
  {
    hide DecodeAll, Ends;
    FirstNewlineIsFirst(file);
    if FirstNewline(file).Some? {
      var n := FirstNewline(file).value;
      var first, records := file[..n], file[n + 1..];
      assert file == first + [NEWLINE] + records;
      LineAndRest(first, records);
      DecodesEach(format, WholeLines(records));
      EndsAfterFirst(first, records);
      assert forall k :: 0 <= k < |WholeLines(records)| ==> WholeLines(file)[k + 1] == WholeLines(records)[k];
    } else {
      NothingWhole(file);
    }
  }

  lemma EndsAfterFirst(line: Bytes, rest: Bytes)
    ensures Ends(line + [NEWLINE] + rest) <==> Ends(rest)
  {
    var file := line + [NEWLINE] + rest;
    if rest != [] {
      assert file[|file| - 1] == rest[|rest| - 1];
    }
  }

  lemma {:induction false} DecodesEach<M>(format: Format<M>, lines: seq<Bytes>)
    ensures DecodeAll(format, lines).None? <==> exists k :: 0 <= k < |lines| && format.decode(lines[k]).None?
    ensures DecodeAll(format, lines).Some? ==>
              && |DecodeAll(format, lines).value| == |lines|
              && forall k :: 0 <= k < |lines| ==> format.decode(lines[k]) == Some(DecodeAll(format, lines).value[k])
  {
    if lines != [] {
      DecodesEach(format, lines[1..]);
      assert forall k :: 1 <= k < |lines| ==> lines[1..][k - 1] == lines[k];
    }
  }

  function Messages<M>(entries: seq<Entry<M>>): seq<M> {
    if entries == [] then [] else [entries[0].message] + Messages(entries[1..])
  }

  predicate AllOf<M>(entries: seq<Entry<M>>, schema: nat) {
    forall i :: 0 <= i < |entries| ==> entries[i].schema == schema
  }

  // ----- what a sender and a drain do to it -----

  function Created<M>(format: Format<M>, file: Option<Bytes>): Bytes {
    if file.Some? then file.value else format.header + [NEWLINE]
  }

  /** One send: `reach` bytes of the line are written, and then synced or not; the
      sender is answered only when all were and it is. A store that does not parse
      is left as it is. */
  function Sent<M>(format: Format<M>, file: Option<Bytes>, entry: Entry<M>, reach: nat, synced: bool): (Bytes, bool) {
    var store := Created(format, file);
    var line := format.encode(entry) + [NEWLINE];
    if Parse(format, store).Failure? then (store, false)
    else (store + Upto(line, reach), reach >= |line| && synced)
  }

  /** Whether a drain gets as far as emptying the store, and what of. */
  function Offered<M>(format: Format<M>, file: Option<Bytes>, schema: nat, closed: bool): Result<seq<Entry<M>>, DrainError> {
    if closed then Failure(ClosedInbox)
    else if file.None? then Success([])
    else match Parse(format, file.value)
      case Failure(e) => Failure(OfStore(e))
      case Success((_, entries)) => if AllOf(entries, schema) then Success(entries) else Failure(OfStore(Unreadable))
  }

  /** One drain by an open or closed inbox of `schema`: the store after it, and the
      messages the inbox takes. */
  function Drained<M>(format: Format<M>, file: Option<Bytes>, schema: nat, closed: bool, commit: Commit)
    : (Option<Bytes>, Result<seq<M>, DrainError>)
  {
    match Offered(format, file, schema, closed)
    case Failure(e) => (file, Failure(e))
    case Success(entries) =>
      if entries == [] then (file, Success([]))
      else
        var emptied := Some(file.value[..Parse(format, file.value).value.0]);
        match commit
        case Emptied => (emptied, Success(Messages(entries)))
        case Untouched => (file, Failure(NotCommitted))
        case EmptiedUnsynced => (emptied, Failure(NotCommitted))
  }

  class CarryStore<M(!new)> {
    var file: Option<Bytes>
    const format: Format<M>

    constructor (format: Format<M>)
      ensures file == None && this.format == format
    {
      file := None;
      this.format := format;
    }

    method Create()
      modifies this`file
      ensures file == Some(Created(format, old(file)))
    {
      if file.None? {
        file := Some(format.header + [NEWLINE]);
      }
    }

    method Send(entry: Entry<M>, reach: nat, synced: bool) returns (answered: bool)
      modifies this`file
      ensures var (store, known) := Sent(format, old(file), entry, reach, synced);
              file == Some(store) && answered == known
    {
      Create();
      if Parse(format, file.value).Failure? {
        return false;
      }
      var line := format.encode(entry) + [NEWLINE];
      file := Some(file.value + Upto(line, reach));
      answered := reach >= |line| && synced;
    }

    /** Drain into an inbox: the store emptied in the step that queues what it
        held, or neither. */
    method AdoptInto(inbox: Inbox<M>, schema: nat, commit: Commit) returns (count: Result<nat, DrainError>)
      requires inbox.Valid()
      modifies this`file, inbox`queue, inbox`next
      ensures inbox.Valid()
      ensures var (after, taken) := Drained(format, old(file), schema, inbox.closed.Some?, commit);
              && file == after
              && (taken.Failure? ==> count == Failure(taken.error) && inbox.View() == old(inbox.View()))
              && (taken.Success? ==>
                    && count == Success(|taken.value|)
                    && |inbox.queue| == |old(inbox.queue)| + |taken.value|
                    && inbox.queue[..|old(inbox.queue)|] == old(inbox.queue)
                    && forall i | 0 <= i < |taken.value| ::
                         inbox.queue[|old(inbox.queue)| + i].message == taken.value[i])
    {
      if inbox.closed.Some? {
        return Failure(ClosedInbox);
      }
      if file.None? {
        return Success(0);
      }
      var parsed := Parse(format, file.value);
      if parsed.Failure? {
        return Failure(OfStore(parsed.error));
      }
      var (header, entries) := parsed.value;
      if !AllOf(entries, schema) {
        return Failure(OfStore(Unreadable));
      }
      if entries == [] {
        return Success(0);
      }
      hide Parse, AllOf, Messages;
      if commit != Untouched {
        file := Some(file.value[..header]);
      }
      var queued := inbox.OfferAll(Messages(entries), commit == Emptied);
      count := if queued.Some? then Success(queued.value) else Failure(NotCommitted);
    }
  }
}
