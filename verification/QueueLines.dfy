/** How an event and its record are written as one line of the log, and read
    back. */
module QueueLines {
  import opened Wrappers
  import opened Json
  import opened QueueModel
  import opened Sequences

  type Fields = seq<(string, Json)>

  predicate UniqueKeys(fields: Fields) {
    forall i, j | 0 <= i < j < |fields| :: fields[i].0 != fields[j].0
  }

  /** `fields` with `key` set: in place where it is there, last where it is not. */
  function SetField(fields: Fields, key: string, value: Json): (set': Fields)
    ensures Get(set', key) == Some(value)
  {
    if fields == [] then [(key, value)]
    else if fields[0].0 == key then [(key, value)] + fields[1..]
    else [fields[0]] + SetField(fields[1..], key, value)
  }

  /** Every field of `more` set in turn. */
  function Extend(fields: Fields, more: Fields): Fields
    decreases |more|
  {
    if more == [] then fields
    else SetField(Extend(fields, more[..|more| - 1]), more[|more| - 1].0, more[|more| - 1].1)
  }

  /** `fields` without `key`, every other field in its place. */
  function WithoutKey(fields: Fields, key: string): (kept: Fields)
    ensures Get(kept, key).None?
    ensures forall field :: field in kept <==> field in fields && field.0 != key
  {
    if fields == [] then []
    else if fields[0].0 == key then WithoutKey(fields[1..], key)
    else [fields[0]] + WithoutKey(fields[1..], key)
  }

  /** What is kept is every field but the key's, in its order. */
  lemma {:induction false} WithoutKeyKeeps(fields: Fields, key: string)
    ensures WithoutKey(fields, key) == Kept(fields, (field: (string, Json)) => field.0 != key)
  {
    var keep := (field: (string, Json)) => field.0 != key;
    if fields != [] {
      WithoutKeyKeeps(fields[1..], key);
      KeptFirst(fields[0], fields[1..], keep);
      assert fields == [fields[0]] + fields[1..];
    }
  }

  function Word(event: Event): string {
    match event
    case Queued => "queued"
    case Claimed => "claimed"
    case Answered => "answered"
    case Abandoned => "abandoned"
    case Attended => "attended"
  }

  function OfWord(word: string): Option<Event> {
    if word == "queued" then Some(Event.Queued)
    else if word == "claimed" then Some(Event.Claimed)
    else if word == "answered" then Some(Event.Answered)
    else if word == "abandoned" then Some(Event.Abandoned)
    else if word == "attended" then Some(Event.Attended)
    else None
  }

  predicate HasId(fields: Fields) {
    var id := Get(fields, "id");
    id.Some? && id.value.Number? && 0 <= id.value.n <= LAST_U64
  }

  /** A line: the event's word first, then every field of the record — whose own
      `event`, where it has one, overwrites the word. */
  function Frame(event: Event, fields: Fields): Fields {
    Extend([("event", Str(Word(event)))], fields)
  }

  /** A line read back: none for one the queue cannot read. */
  function ParseLine(line: Fields): Option<(Option<Event>, Fields)> {
    var fields := WithoutKey(line, "event");
    if !HasId(fields) then None
    else
      match Get(line, "event")
      case None => Some((None, fields))
      case Some(Null) => Some((None, fields))
      case Some(Str(word)) => if OfWord(word).None? then None else Some((OfWord(word), fields))
      case _ => None
  }

  lemma {:induction false} SetAbsent(fields: Fields, key: string, value: Json)
    requires Get(fields, key).None?
    ensures SetField(fields, key, value) == fields + [(key, value)]
  {
    if fields != [] {
      SetAbsent(fields[1..], key, value);
    }
  }

  lemma {:induction false} AbsentKey(fields: Fields, key: string)
    ensures Get(fields, key).None? <==> forall i | 0 <= i < |fields| :: fields[i].0 != key
  {
  }

  lemma {:induction false} WithoutAbsent(fields: Fields, key: string)
    requires Get(fields, key).None?
    ensures WithoutKey(fields, key) == fields
  {
    if fields != [] {
      WithoutAbsent(fields[1..], key);
    }
  }

  lemma UniqueUpToLast(fields: Fields)
    requires UniqueKeys(fields) && fields != []
    ensures var n := |fields| - 1;
            UniqueKeys(fields[..n]) && Get(fields[..n], fields[n].0).None?
  {
    AbsentKey(fields[..|fields| - 1], fields[|fields| - 1].0);
  }

  /** Setting fields that are all new appends them. */
  lemma {:induction false} ExtendAppends(fields: Fields, more: Fields)
    requires UniqueKeys(fields + more)
    ensures Extend(fields, more) == fields + more
  {
    hide UniqueKeys, SetField, Get;
    if more == [] {
      assert fields + more == fields;
    } else {
      var n := |more| - 1;
      var whole := fields + more;
      assert whole[..|fields| + n] == fields + more[..n];
      assert fields + more[..n] + [more[n]] == whole;
      UniqueUpToLast(whole);
      ExtendAppends(fields, more[..n]);
      SetAbsent(fields + more[..n], more[n].0, more[n].1);
    }
  }

  lemma WordRoundTrip(event: Event)
    ensures OfWord(Word(event)) == Some(event)
  {
  }

  lemma FrameOfPlain(event: Event, fields: Fields)
    requires UniqueKeys(fields) && Get(fields, "event").None?
    ensures Frame(event, fields) == [("event", Str(Word(event)))] + fields
  {
    hide Word;
    AbsentKey(fields, "event");
    ExtendAppends([("event", Str(Word(event)))], fields);
  }

  /** Reading a framed record back gives the event and the record, exactly when
      the record has an id and no `event` field of its own. */
  lemma FrameRoundTrip(event: Event, fields: Fields)
    requires UniqueKeys(fields)
    ensures ParseLine(Frame(event, fields)) == Some((Some(event), fields))
            <==> HasId(fields) && Get(fields, "event").None?
  {
    hide Word, OfWord, UniqueKeys, HasId;
    if Get(fields, "event").None? {
      FrameOfPlain(event, fields);
      assert Frame(event, fields)[1..] == fields;
      WithoutAbsent(fields, "event");
      WordRoundTrip(event);
    }
  }

  /** Whether a line says no event. */
  ghost predicate SaysNone(line: Fields) {
    (forall i | 0 <= i < |line| :: line[i].0 != "event") || IsField(line, "event", Null)
  }

  lemma SaysNoneRead(line: Fields)
    ensures SaysNone(line) <==> Get(line, "event").None? || Get(line, "event") == Some(Null)
  {
    AbsentKey(line, "event");
    if IsField(line, "event", Null) {
      FieldIsGot(line, "event", Null);
    }
  }

  lemma SaysEvent(line: Fields, event: Event)
    ensures IsField(line, "event", Str(Word(event)))
            <==> Get(line, "event").Some? && Get(line, "event").value.Str? && OfWord(Get(line, "event").value.s) == Some(event)
  {
    if IsField(line, "event", Str(Word(event))) {
      FieldIsGot(line, "event", Str(Word(event)));
    }
  }

  /** What can be read: a line with an id, a number that fits, and an event that is a word
      known or that is not said; it reads as that event and every other field. */
  lemma ReadsExactly(line: Fields)
    ensures ParseLine(line).Some?
            <==> && (exists id: nat :: id <= LAST_U64 && IsField(line, "id", Number(id)))
                 && (SaysNone(line) || exists event :: IsField(line, "event", Str(Word(event))))
    ensures ParseLine(line).Some? ==>
              var (event, fields) := ParseLine(line).value;
              && (event.None? <==> SaysNone(line))
              && (event.Some? ==> IsField(line, "event", Str(Word(event.value))))
              && fields == Kept(line, (field: (string, Json)) => field.0 != "event")
  {
    hide WithoutKey, Kept, OfWord, Word, IsField, SaysNone, HasId, Get;
    WithoutKeyKeeps(line, "event");
    IdKept(line);
    SaysNoneRead(line);
    forall event
      ensures IsField(line, "event", Str(Word(event)))
              <==> Get(line, "event").Some? && Get(line, "event").value.Str?
                   && OfWord(Get(line, "event").value.s) == Some(event)
    {
      SaysEvent(line, event);
    }
  }

  lemma FieldIsGot(fields: Fields, key: string, value: Json)
    requires IsField(fields, key, value)
    ensures Get(fields, key) == Some(value)
  {
  }

  lemma {:induction false} GetOther(fields: Fields, key: string, other: string)
    requires key != other
    ensures Get(WithoutKey(fields, other), key) == Get(fields, key)
  {
    if fields != [] {
      GetOther(fields[1..], key, other);
    }
  }

  lemma IdKept(line: Fields)
    ensures HasId(WithoutKey(line, "event")) <==> exists id: nat :: id <= LAST_U64 && IsField(line, "id", Number(id))
  {
    GetOther(line, "id", "event");
    forall value | IsField(line, "id", value)
      ensures Get(line, "id") == Some(value)
    {
      FieldIsGot(line, "id", value);
    }
    hide WithoutKey, IsField;
    if HasId(WithoutKey(line, "event")) {
      var id: nat := Get(line, "id").value.n;
      assert IsField(line, "id", Number(id));
    }
  }
}
