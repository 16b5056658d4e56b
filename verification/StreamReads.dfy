/** Reading a stream file: its lines with the positions after them, and where the
    next read resumes; and whole runs of emitters and a reader on one file. */
module StreamReads {
  import opened Wrappers
  import opened Streams

  /** A whole line read as a record, or refused as none; or the torn tail. */
  datatype Reading<E> =
    | Record(envelope: E, position: nat)
    | Refused(at: nat, position: nat)
    | Torn(at: nat, bytes: nat)

  type Parse<!E> = Bytes -> Option<E>

  function OneLine<E>(parse: Parse<E>, line: Bytes, at: nat): (reading: Reading<E>)
    ensures !reading.Torn? && reading.position == at + |line| + 1
  {
    var position := at + |line| + 1;
    match parse(line)
    case Some(envelope) => Record(envelope, position)
    case None => Refused(at, position)
  }

  /** The readings of bytes that start at `offset` in their file. */
  function ReadLines<E>(parse: Parse<E>, bytes: Bytes, offset: nat): seq<Reading<E>>
    decreases |bytes|
  {
    if bytes == [] then []
    else match FirstNewline(bytes)
      case None => [Torn(offset, |bytes|)]
      case Some(n) => [OneLine(parse, bytes[..n], offset)] + ReadLines(parse, bytes[n + 1..], offset + n + 1)
  }

  lemma ReadOneLine<E>(parse: Parse<E>, line: Bytes, rest: Bytes, offset: nat)
    requires NEWLINE !in line
    ensures ReadLines(parse, line + [NEWLINE] + rest, offset)
            == [OneLine(parse, line, offset)] + ReadLines(parse, rest, offset + |line| + 1)
  {
    hide FirstNewline, OneLine;
    var bytes := line + [NEWLINE] + rest;
    NewlineFound(line, rest);
    assert bytes[..|line|] == line && bytes[|line| + 1..] == rest;
  }

  lemma ReadNoLine<E>(parse: Parse<E>, part: Bytes, offset: nat)
    requires NEWLINE !in part
    ensures ReadLines(parse, part, offset) == if part == [] then [] else [Torn(offset, |part|)]
  {
    FirstNewlineIsFirst(part);
  }

  lemma ReadNext<E>(parse: Parse<E>, left: Bytes, at: nat)
    ensures ReadLines(parse, left, at)
            == if left == [] then []
               else match FirstNewline(left)
                 case None => [Torn(at, |left|)]
                 case Some(n) => [OneLine(parse, left[..n], at)] + ReadLines(parse, left[n + 1..], at + n + 1)
  {
    hide FirstNewline, OneLine;
  }

  lemma Slices(bytes: Bytes, start: nat, n: nat)
    requires start + n < |bytes|
    ensures bytes[start..][..n] == bytes[start..start + n] && bytes[start..][n + 1..] == bytes[start + n + 1..]
  {
  }

  lemma Regrouped<E>(sofar: seq<Reading<E>>, first: Reading<E>, rest: seq<Reading<E>>)
    ensures sofar + ([first] + rest) == sofar + [first] + rest
  {
  }

  /** The loop that reads them, with the start of the next line moving on. */
  method Read<E>(parse: Parse<E>, bytes: Bytes, offset: nat) returns (readings: seq<Reading<E>>)
    ensures readings == ReadLines(parse, bytes, offset)
  {
    hide FirstNewline, OneLine, ReadLines;
    readings := [];
    var start := 0;
    assert bytes[start..] == bytes;
    assert readings + ReadLines(parse, bytes, offset) == ReadLines(parse, bytes, offset);
    while start < |bytes|
      invariant start <= |bytes|
      invariant ReadLines(parse, bytes, offset) == readings + ReadLines(parse, bytes[start..], offset + start)
    {
      ReadNext(parse, bytes[start..], offset + start);
      var newline := FirstNewline(bytes[start..]);
      if newline.None? {
        readings := readings + [Torn(offset + start, |bytes| - start)];
        return;
      }
      var end := start + newline.value;
      var reading := OneLine(parse, bytes[start..end], offset + start);
      Slices(bytes, start, newline.value);
      Regrouped(readings, reading, ReadLines(parse, bytes[end + 1..], offset + end + 1));
      readings, start := readings + [reading], end + 1;
    }
    ReadNext(parse, bytes[start..], offset + start);
    assert readings + [] == readings;
  }

  // ----- opening at a position -----

  datatype OpenError = PastEnd | InsideRecord

  /** The position after the last whole line read. */
  function Resume<E>(readings: seq<Reading<E>>, position: nat): nat {
    if readings == [] then position
    else
      var last := readings[|readings| - 1];
      if last.Torn? then Resume(readings[..|readings| - 1], position) else last.position
  }

  /** A reader opened at a position: its readings, and where the next resumes. A
      position that is not just after a newline is refused. */
  function OpenAt<E>(parse: Parse<E>, file: Bytes, position: nat): Result<(seq<Reading<E>>, nat), OpenError> {
    if position > |file| then Failure(PastEnd)
    else if position > 0 && file[position - 1] != NEWLINE then Failure(InsideRecord)
    else
      var readings := ReadLines(parse, file[position..], position);
      Success((readings, Resume(readings, position)))
  }

  function Whole<E>(readings: seq<Reading<E>>): seq<Reading<E>> {
    if readings == [] then []
    else (if readings[0].Torn? then [] else [readings[0]]) + Whole(readings[1..])
  }

  lemma {:induction false} WholeOfConcat<E>(a: seq<Reading<E>>, b: seq<Reading<E>>)
    ensures Whole(a + b) == Whole(a) + Whole(b)
  {
    if a == [] {
      assert a + b == b;
    } else {
      assert (a + b)[1..] == a[1..] + b;
      WholeOfConcat(a[1..], b);
    }
  }

  lemma {:induction false} ReadOfConcat<E>(parse: Parse<E>, a: Bytes, b: Bytes, offset: nat)
    requires Ends(a)
    ensures ReadLines(parse, a + b, offset) == ReadLines(parse, a, offset) + ReadLines(parse, b, offset + |a|)
    decreases |a|
  {
    hide ReadLines, OneLine;
    if a == [] {
      ReadNoLine(parse, a, offset);
      assert a + b == b;
    } else {
      assert a[|a| - 1] in a;
      var line, rest := SplitLine(a);
      ReadOneLine(parse, line, rest, offset);
      ReadOneLine(parse, line, rest + b, offset);
      ReadOfConcat(parse, rest, b, offset + |line| + 1);
      assert a + b == line + [NEWLINE] + (rest + b);
    }
  }

  /** A file that ends on a line boundary reads as whole lines only, one reading
      for each, and the next read resumes at its end. */
  lemma {:induction false} ReadsWholeLines<E>(parse: Parse<E>, file: Bytes, offset: nat)
    requires Ends(file)
    ensures var readings := ReadLines(parse, file, offset);
            && Whole(readings) == readings
            && Resume(readings, offset) == offset + |file|
            && |readings| == |WholeLines(file)|
    decreases |file|
  {
    hide ReadLines, WholeLines, OneLine, Resume, Whole;
    if file == [] {
      ReadNoLine(parse, file, offset);
      NothingWhole(file);
      NoReadings<E>(offset);
    } else {
      assert file[|file| - 1] in file;
      var line, rest := SplitLine(file);
      ReadOneLine(parse, line, rest, offset);
      LineAndRest(line, rest);
      ReadsWholeLines(parse, rest, offset + |line| + 1);
      AfterFirst(OneLine(parse, line, offset), ReadLines(parse, rest, offset + |line| + 1), offset);
    }
  }

  lemma NoReadings<E>(position: nat)
    ensures Whole<E>([]) == [] && Resume<E>([], position) == position
  {
  }

  lemma {:induction false} AfterFirst<E>(first: Reading<E>, rest: seq<Reading<E>>, position: nat)
    requires !first.Torn?
    ensures Whole([first] + rest) == [first] + Whole(rest)
    ensures Resume([first] + rest, position) == Resume(rest, first.position)
  {
    var all := [first] + rest;
    assert all[1..] == rest;
    if rest != [] {
      assert all[..|all| - 1] == [first] + rest[..|rest| - 1];
      AfterFirst(first, rest[..|rest| - 1], position);
    }
  }

  /** Any file reads as its healed part does, and a torn tail after it. */
  lemma ReadsHealedPart<E>(parse: Parse<E>, file: Bytes, offset: nat)
    ensures var readings := ReadLines(parse, file, offset);
            && Whole(readings) == ReadLines(parse, Healed(file), offset)
            && Resume(readings, offset) == offset + |Healed(file)|
  {
    hide ReadLines, Healed, Tail, WholeLines;
    HealedEnds(file);
    var front, tail := Healed(file), Tail(file);
    ReadOfConcat(parse, front, tail, offset);
    ReadsWholeLines(parse, front, offset);
    ReadNoLine(parse, tail, offset + |front|);
    var whole, torn := ReadLines(parse, front, offset), ReadLines(parse, tail, offset + |front|);
    WholeOfConcat(whole, torn);
    if tail == [] {
      assert whole + torn == whole;
      assert file == front;
    } else {
      assert (whole + torn)[..|whole|] == whole;
      assert Whole(torn) == [];
    }
  }

  /** What the reading of a whole line is: the envelope it parses to, or, where it
      parses to none, where it is; and the position just after its newline. */
  ghost predicate IsReadingOf<E>(parse: Parse<E>, line: Bytes, at: nat, reading: Reading<E>) {
    && !reading.Torn? && reading.position == at + |line| + 1
    && (reading.Record? <==> parse(line).Some?)
    && (reading.Record? ==> Some(reading.envelope) == parse(line))
    && (!reading.Record? ==> reading.Refused? && reading.at == at)
  }

  /** Where each line of a file starts: after the newline of the one before. */
  function LineStart(lines: seq<Bytes>, k: nat): nat
    requires k <= |lines|
  {
    if k == 0 then 0 else LineStart(lines, k - 1) + |lines[k - 1]| + 1
  }

  lemma {:induction false} LineStartAfterFirst(first: Bytes, rest: seq<Bytes>, k: nat)
    requires k <= |rest|
    ensures LineStart([first] + rest, k + 1) == |first| + 1 + LineStart(rest, k)
  {
    if k > 0 {
      LineStartAfterFirst(first, rest, k - 1);
    }
  }

  predicate IsLineAt(file: Bytes, line: Bytes, at: nat) {
    at + |line| < |file| && file[at..at + |line|] == line && file[at + |line|] == NEWLINE && NEWLINE !in line
  }

  lemma LineFurtherOn(first: Bytes, rest: Bytes, line: Bytes, at: nat)
    requires IsLineAt(rest, line, at)
    ensures IsLineAt(first + [NEWLINE] + rest, line, |first| + 1 + at)
  {
    var file, start := first + [NEWLINE] + rest, |first| + 1;
    assert file[start..] == rest;
    assert file[start + at..start + at + |line|] == rest[at..at + |line|];
  }

  lemma LineFirst(line: Bytes, rest: Bytes)
    requires NEWLINE !in line
    ensures IsLineAt(line + [NEWLINE] + rest, line, 0)
  {
  }

  /** The lines are where they are said to start, each with its newline after it. */
  lemma {:induction false} LinesAreThere(file: Bytes, k: nat)
    requires k < |WholeLines(file)|
    ensures IsLineAt(file, WholeLines(file)[k], LineStart(WholeLines(file), k))
    decreases |file|
  {
    hide WholeLines, LineStart, IsLineAt;
    if NEWLINE !in file {
      NothingWhole(file);
    } else {
      var line, rest := SplitLine(file);
      LineAndRest(line, rest);
      if k == 0 {
        LineFirst(line, rest);
        FirstLineStart(WholeLines(file));
      } else {
        LinesAreThere(rest, k - 1);
        LineStartAfterFirst(line, WholeLines(rest), k - 1);
        LineFurtherOn(line, rest, WholeLines(rest)[k - 1], LineStart(WholeLines(rest), k - 1));
      }
    }
  }

  lemma {:induction false} ReadsInPlace<E>(parse: Parse<E>, file: Bytes, offset: nat, k: nat)
    requires Ends(file) && k < |WholeLines(file)|
    ensures |ReadLines(parse, file, offset)| == |WholeLines(file)|
    ensures IsReadingOf(parse, WholeLines(file)[k], offset + LineStart(WholeLines(file), k), ReadLines(parse, file, offset)[k])
    decreases |file|
  {
    hide ReadLines, WholeLines, LineStart, IsReadingOf;
    ReadsWholeLines(parse, file, offset);
    if file == [] {
      NothingWhole(file);
    } else {
      assert file[|file| - 1] in file;
      var line, rest := SplitLine(file);
      ReadOneLine(parse, line, rest, offset);
      LineAndRest(line, rest);
      if k == 0 {
        OneLineIs(parse, line, offset);
        FirstLineStart(WholeLines(file));
      } else {
        ReadsInPlace(parse, rest, offset + |line| + 1, k - 1);
        LineStartAfterFirst(line, WholeLines(rest), k - 1);
      }
    }
  }

  lemma FirstLineStart(lines: seq<Bytes>)
    ensures LineStart(lines, 0) == 0
  {
  }

  lemma OneLineIs<E>(parse: Parse<E>, line: Bytes, at: nat)
    ensures IsReadingOf(parse, line, at, OneLine(parse, line, at))
  {
  }

  /** A file reads as its whole lines, each where it is and as the envelope it parses
      to or as none, and then as the torn tail, where there is one. */
  lemma ReadsEachLine<E>(parse: Parse<E>, file: Bytes)
    ensures var readings, lines := ReadLines(parse, file, 0), WholeLines(file);
            && |Whole(readings)| == |lines|
            && (forall k :: 0 <= k < |lines| ==>
                  && IsLineAt(file, lines[k], LineStart(lines, k))
                  && IsReadingOf(parse, lines[k], LineStart(lines, k), Whole(readings)[k]))
            && readings == Whole(readings)
                           + if Ends(file) then [] else [Torn(|Healed(file)|, |file| - |Healed(file)|)]
  {
    hide ReadLines, WholeLines, LineStart, Healed, Whole, IsReadingOf, IsLineAt;
    var front, tail, lines := Healed(file), Tail(file), WholeLines(file);
    HealedEnds(file);
    HealedKeepsLines(file);
    ReadsHealedPart(parse, file, 0);
    ReadsWholeLines(parse, front, 0);
    ReadOfConcat(parse, front, tail, 0);
    ReadNoLine(parse, tail, |front|);
    forall k | 0 <= k < |lines|
      ensures IsLineAt(file, lines[k], LineStart(lines, k))
      ensures IsReadingOf(parse, lines[k], LineStart(lines, k), Whole(ReadLines(parse, file, 0))[k])
    {
      LinesAreThere(file, k);
      ReadsInPlace(parse, front, 0, k);
    }
  }

  lemma {:induction false} PositionsAreBoundaries<E>(parse: Parse<E>, bytes: Bytes, offset: nat)
    ensures forall r :: r in ReadLines(parse, bytes, offset) && !r.Torn? ==>
              offset < r.position <= offset + |bytes| && bytes[r.position - offset - 1] == NEWLINE
    decreases |bytes|
  {
    hide ReadLines, OneLine;
    if NEWLINE in bytes {
      var line, rest := SplitLine(bytes);
      ReadOneLine(parse, line, rest, offset);
      PositionsAreBoundaries(parse, rest, offset + |line| + 1);
    } else {
      ReadNoLine(parse, bytes, offset);
    }
  }

  lemma {:induction false} ResumeIsAPosition<E>(readings: seq<Reading<E>>, position: nat)
    requires Resume(readings, position) != position
    ensures exists r :: r in readings && !r.Torn? && r.position == Resume(readings, position)
  {
    var n := |readings| - 1;
    if readings[n].Torn? {
      ResumeIsAPosition(readings[..n], position);
      var r :| r in readings[..n] && !r.Torn? && r.position == Resume(readings, position);
      assert r in readings;
    } else {
      assert readings[n] in readings;
    }
  }

  /** A reader opens exactly at the start and at the positions a reading of the
      file hands back; anywhere else it would read a record's tail as a record. */
  lemma OpensExactlyAtPositionsRead<E>(parse: Parse<E>, file: Bytes, position: nat)
    ensures OpenAt(parse, file, position).Success?
        <==> position == 0 || exists r :: r in ReadLines(parse, file, 0) && !r.Torn? && r.position == position
    ensures OpenAt(parse, file, position) == Failure(PastEnd) <==> position > |file|
  {
    hide ReadLines, OneLine, Resume;
    PositionsAreBoundaries(parse, file, 0);
    if 0 < position && OpenAt(parse, file, position).Success? {
      var before, rest := file[..position], file[position..];
      assert file == before + rest;
      ReadOfConcat(parse, before, rest, 0);
      ReadsWholeLines(parse, before, 0);
      ResumeIsAPosition(ReadLines(parse, before, 0), 0);
    }
  }

  // ----- emitters and a reader on one file -----

  /** The file, where the reader last stopped, everything it has read, and how
      often it was refused. */
  datatype World<E> = World(file: Bytes, position: nat, yielded: seq<Reading<E>>, refused: nat)

  /** An emit by any of the emitters, of whose line `reach` bytes are written, or a
      read from where the last one stopped. */
  datatype Step<P> = Emit(payload: P, admitted: bool, reach: nat) | Resumed

  function Apply<P, E>(encode: Encoding<P>, parse: Parse<E>, w: World<E>, step: Step<P>): World<E> {
    match step
    case Emit(payload, admitted, reach) => w.(file := Emitted(encode, w.file, payload, admitted, reach))
    case Resumed =>
      match OpenAt(parse, w.file, w.position)
      case Failure(_) => w.(refused := w.refused + 1)
      case Success((readings, position)) => w.(position := position, yielded := w.yielded + readings)
  }

  ghost predicate Run<P, E>(encode: Encoding<P>, parse: Parse<E>, worlds: seq<World<E>>, steps: seq<Step<P>>) {
    && |worlds| == |steps| + 1
    && worlds[0] == World([], 0, [], 0)
    && forall i :: 0 <= i < |steps| ==> worlds[i + 1] == Apply(encode, parse, worlds[i], steps[i])
  }

  ghost predicate Written<P(!new)>(encode: Encoding<P>, line: Bytes, number: nat) {
    exists payload :: encode(number, payload) == line
  }

  /** The whole lines are numbered from one, without a gap or a repeat. */
  ghost predicate Numbered<P(!new)>(encode: Encoding<P>, file: Bytes) {
    forall k :: 0 <= k < |WholeLines(file)| ==> Written(encode, WholeLines(file)[k], k + 1)
  }

  /** The reader stands at a line boundary of the healed file, and what it has read
      is what a read from the start finds before it. */
  ghost predicate Kept<P(!new), E>(encode: Encoding<P>, parse: Parse<E>, w: World<E>) {
    && Numbered(encode, w.file)
    && w.refused == 0
    && w.position <= |Healed(w.file)|
    && Ends(Healed(w.file)[..w.position])
    && Whole(w.yielded) == ReadLines(parse, Healed(w.file)[..w.position], 0)
  }

  lemma EmitKeeps<P(!new), E>(encode: Encoding<P>, parse: Parse<E>, w: World<E>, payload: P, admitted: bool, reach: nat)
    requires OneLineEach(encode) && Kept(encode, parse, w)
    ensures Kept(encode, parse, w.(file := Emitted(encode, w.file, payload, admitted, reach)))
  {
    hide Emitted, Healed, WholeLines, ReadLines;
    var file := Emitted(encode, w.file, payload, admitted, reach);
    EmittedLines(encode, w.file, payload, admitted, reach);
    assert Healed(file)[..w.position] == Healed(w.file)[..w.position];
    forall k | 0 <= k < |WholeLines(file)| ensures Written(encode, WholeLines(file)[k], k + 1) {
      if k < |WholeLines(w.file)| {
        assert WholeLines(file)[k] == WholeLines(w.file)[k];
      } else {
        assert WholeLines(file)[k] == encode(k + 1, payload);
      }
    }
  }

  /** A read from where the last one stopped is never refused, reads on to the end
      of the healed file, and completes one read of the whole. */
  lemma ReadKeeps<E>(parse: Parse<E>, file: Bytes, position: nat)
    requires position <= |Healed(file)| && Ends(Healed(file)[..position])
    ensures var reader := OpenAt(parse, file, position);
            && reader.Success?
            && reader.value.1 == |Healed(file)|
            && ReadLines(parse, Healed(file)[..position], 0) + Whole(reader.value.0) == ReadLines(parse, Healed(file), 0)
  {
    hide Healed, ReadLines, Tail, WholeLines;
    HealedEnds(file);
    var before := Healed(file)[..position];
    assert before == file[..position];
    assert position > 0 ==> before[position - 1] == file[position - 1];
    var rest := file[position..];
    assert file == before + rest;
    LinesOfConcat(before, rest);
    ReadsHealedPart(parse, rest, position);
    HealedEnds(rest);
    assert Healed(file) == before + Healed(rest) by {
      assert file == (before + Healed(rest)) + Tail(file);
      HealedIs(file, before + Healed(rest));
    }
    ReadOfConcat(parse, before, Healed(rest), 0);
  }

  lemma StepKeeps<P(!new), E>(encode: Encoding<P>, parse: Parse<E>, w: World<E>, step: Step<P>)
    requires OneLineEach(encode) && Kept(encode, parse, w)
    ensures Kept(encode, parse, Apply(encode, parse, w, step))
  {
    hide Emitted, Healed, WholeLines, ReadLines, OpenAt;
    match step
    case Emit(payload, admitted, reach) => EmitKeeps(encode, parse, w, payload, admitted, reach);
    case Resumed =>
      ReadKeeps(parse, w.file, w.position);
      HealedEnds(w.file);
      var reader := OpenAt(parse, w.file, w.position);
      WholeOfConcat(w.yielded, reader.value.0);
      assert Healed(w.file)[..|Healed(w.file)|] == Healed(w.file);
  }

  lemma {:induction false} EveryRunIsKept<P(!new), E>(encode: Encoding<P>, parse: Parse<E>, worlds: seq<World<E>>,
                                                      steps: seq<Step<P>>, n: nat)
    requires OneLineEach(encode) && Run(encode, parse, worlds, steps) && n < |worlds|
    ensures Kept(encode, parse, worlds[n])
  {
    if n == 0 {
      NothingWhole([]);
    } else {
      EveryRunIsKept(encode, parse, worlds, steps, n - 1);
      StepKeeps(encode, parse, worlds[n - 1], steps[n - 1]);
    }
  }

  /** In every run of emitters, however many die however far into a line: the whole
      lines carry the numbers 1, 2, 3 and on. */
  lemma LinesAreNumbered<P(!new), E>(encode: Encoding<P>, parse: Parse<E>, worlds: seq<World<E>>, steps: seq<Step<P>>, n: nat,
                                     numberOf: Bytes -> nat)
    requires OneLineEach(encode) && Run(encode, parse, worlds, steps) && n < |worlds|
    requires forall number, payload :: numberOf(encode(number, payload)) == number
    ensures var lines := WholeLines(worlds[n].file);
            forall k :: 0 <= k < |lines| ==> numberOf(lines[k]) == k + 1
  {
    EveryRunIsKept(encode, parse, worlds, steps, n);
    var lines := WholeLines(worlds[n].file);
    forall k | 0 <= k < |lines| ensures numberOf(lines[k]) == k + 1 {
      assert Written(encode, lines[k], k + 1);
    }
  }

  /** A reader that always resumes from where it stopped is never refused and, at
      each read, has read what one read of the whole file then reads — every whole
      line once, torn tails aside. */
  lemma ResumingReadsOnce<P(!new), E>(encode: Encoding<P>, parse: Parse<E>, worlds: seq<World<E>>, steps: seq<Step<P>>, n: nat)
    requires OneLineEach(encode) && Run(encode, parse, worlds, steps) && n < |steps| && steps[n].Resumed?
    ensures OpenAt(parse, worlds[n].file, worlds[n].position).Success?
    ensures var w := worlds[n + 1];
            && w.refused == 0
            && Whole(w.yielded) == Whole(ReadLines(parse, w.file, 0))
            && |Whole(w.yielded)| == |WholeLines(w.file)|
  {
    hide ReadLines, Healed, WholeLines;
    EveryRunIsKept(encode, parse, worlds, steps, n);
    EveryRunIsKept(encode, parse, worlds, steps, n + 1);
    var w := worlds[n + 1];
    ReadKeeps(parse, worlds[n].file, worlds[n].position);
    assert Healed(w.file)[..w.position] == Healed(w.file);
    ReadsHealedPart(parse, w.file, 0);
    HealedEnds(w.file);
    HealedKeepsLines(w.file);
    ReadsWholeLines(parse, Healed(w.file), 0);
  }

  /** What the emits of a run carried whose lines were written to their newline. */
  function Landed<P, E>(encode: Encoding<P>, worlds: seq<World<E>>, steps: seq<Step<P>>, n: nat): seq<P>
    requires n <= |steps| < |worlds|
  {
    if n == 0 then []
    else Landed(encode, worlds, steps, n - 1) + LandedBy(encode, worlds[n - 1].file, steps[n - 1])
  }

  function LandedBy<P>(encode: Encoding<P>, file: Bytes, step: Step<P>): seq<P> {
    if step.Emit? && step.admitted && step.reach > |encode(|WholeLines(file)| + 1, step.payload)| then [step.payload] else []
  }

  /** Lines that are numbered from one and carry these payloads, in order. */
  predicate Carry<P>(encode: Encoding<P>, lines: seq<Bytes>, landed: seq<P>) {
    |lines| == |landed| && forall k :: 0 <= k < |lines| ==> lines[k] == encode(k + 1, landed[k])
  }

  lemma CarryOneMore<P>(encode: Encoding<P>, lines: seq<Bytes>, landed: seq<P>, payload: P)
    requires Carry(encode, lines, landed)
    ensures Carry(encode, lines + [encode(|lines| + 1, payload)], landed + [payload])
  {
  }

  lemma {:induction false} LandedAreTheLines<P(!new), E>(encode: Encoding<P>, parse: Parse<E>, worlds: seq<World<E>>,
                                                          steps: seq<Step<P>>, n: nat)
    requires OneLineEach(encode) && Run(encode, parse, worlds, steps) && n < |worlds|
    ensures Carry(encode, WholeLines(worlds[n].file), Landed(encode, worlds, steps, n))
  {
    hide WholeLines, Landed, Apply, Carry;
    if n == 0 {
      NothingWhole([]);
      NothingLanded(encode, worlds, steps);
    } else {
      LandedAreTheLines(encode, parse, worlds, steps, n - 1);
      var before, step := worlds[n - 1], steps[n - 1];
      LandedOneMore(encode, parse, worlds, steps, n);
      OneStepLands(encode, parse, before, step);
      assert worlds[n] == Apply(encode, parse, before, step);
      var lines, earlier := WholeLines(before.file), Landed(encode, worlds, steps, n - 1);
      if LandedBy(encode, before.file, step) == [] {
        assert lines + [] == lines && earlier + [] == earlier;
      } else {
        CarryOneMore(encode, lines, earlier, step.payload);
      }
    }
  }

  lemma NothingLanded<P, E>(encode: Encoding<P>, worlds: seq<World<E>>, steps: seq<Step<P>>)
    requires |steps| < |worlds|
    ensures Landed(encode, worlds, steps, 0) == [] && Carry(encode, [], Landed(encode, worlds, steps, 0))
  {
  }

  lemma LandedOneMore<P, E>(encode: Encoding<P>, parse: Parse<E>, worlds: seq<World<E>>, steps: seq<Step<P>>, n: nat)
    requires 0 < n <= |steps| < |worlds|
    ensures Landed(encode, worlds, steps, n)
            == Landed(encode, worlds, steps, n - 1) + LandedBy(encode, worlds[n - 1].file, steps[n - 1])
  {
  }

  lemma OneStepLands<P(!new), E>(encode: Encoding<P>, parse: Parse<E>, before: World<E>, step: Step<P>)
    requires OneLineEach(encode)
    ensures var lines, landed := WholeLines(before.file), LandedBy(encode, before.file, step);
            WholeLines(Apply(encode, parse, before, step).file)
            == lines + if landed == [] then [] else [encode(|lines| + 1, landed[0])]
  {
    hide WholeLines, Emitted, OpenAt;
    if step.Emit? {
      EmittedLines(encode, before.file, step.payload, step.admitted, step.reach);
    }
  }

  /** Where a line parses back to what was encoded, a reader that always resumes has at
      each read yielded every envelope that landed, once each and in order: each with
      its number and what it carried. */
  lemma ResumingYieldsWhatLanded<P(!new)>(encode: Encoding<P>, parse: Parse<(nat, P)>, worlds: seq<World<(nat, P)>>,
                                          steps: seq<Step<P>>, n: nat)
    requires OneLineEach(encode) && Run(encode, parse, worlds, steps) && n < |steps| && steps[n].Resumed?
    requires forall number: nat, payload :: parse(encode(number, payload)) == Some((number, payload))
    ensures var yielded, landed := Whole(worlds[n + 1].yielded), Landed(encode, worlds, steps, n + 1);
            && |yielded| == |landed|
            && forall k :: 0 <= k < |landed| ==> yielded[k].Record? && yielded[k].envelope == (k + 1, landed[k])
  {
    hide ReadLines, WholeLines, LineStart, Apply, Whole, Landed;
    ResumingReadsOnce(encode, parse, worlds, steps, n);
    LandedAreTheLines(encode, parse, worlds, steps, n + 1);
    var file, landed := worlds[n + 1].file, Landed(encode, worlds, steps, n + 1);
    ReadsEachLine(parse, file);
    var lines, yielded := WholeLines(file), Whole(ReadLines(parse, file, 0));
    forall k | 0 <= k < |landed|
      ensures yielded[k].Record? && yielded[k].envelope == (k + 1, landed[k])
    {
      assert lines[k] == encode(k + 1, landed[k]);
      assert IsReadingOf(parse, lines[k], LineStart(lines, k), yielded[k]);
    }
  }
}
