/** A stream file of lines: what the emitters that share it write, how a torn tail
    is healed away, and how a reader reads and resumes. */
module Streams {
  import opened Wrappers

  type Bytes = seq<bv8>

  const NEWLINE: bv8 := 10

  // ----- lines -----

  predicate Ends(file: Bytes) {
    file == [] || file[|file| - 1] == NEWLINE
  }

  /** Where the first line ends. */
  function FirstNewline(bytes: Bytes): (at: Option<nat>)
    ensures at.Some? ==> at.value < |bytes|
  {
    if bytes == [] then None
    else if bytes[0] == NEWLINE then Some(0)
    else match FirstNewline(bytes[1..]) case None => None case Some(n) => Some(n + 1)
  }

  /** The whole lines of a file, without their newlines. */
  function WholeLines(file: Bytes): seq<Bytes> {
    match FirstNewline(file)
    case None => []
    case Some(n) => [file[..n]] + WholeLines(file[n + 1..])
  }

  /** The unfinished line a file ends in, if it does. */
  function Tail(file: Bytes): (tail: Bytes)
    ensures |tail| <= |file|
  {
    match FirstNewline(file)
    case None => file
    case Some(n) => Tail(file[n + 1..])
  }

  /** A file without its torn tail. */
  function Healed(file: Bytes): Bytes {
    file[..|file| - |Tail(file)|]
  }

  lemma {:induction false} FirstNewlineIsFirst(bytes: Bytes)
    ensures match FirstNewline(bytes)
            case None => NEWLINE !in bytes
            case Some(n) => bytes[n] == NEWLINE && NEWLINE !in bytes[..n]
  {
    if bytes != [] && bytes[0] != NEWLINE {
      FirstNewlineIsFirst(bytes[1..]);
      match FirstNewline(bytes[1..]) {
        case None =>
        case Some(n) => assert bytes[..n + 1] == [bytes[0]] + bytes[1..][..n];
      }
    }
  }

  lemma NewlineFound(line: Bytes, rest: Bytes)
    requires NEWLINE !in line
    ensures FirstNewline(line + [NEWLINE] + rest) == Some(|line|)
  {
    var file := line + [NEWLINE] + rest;
    FirstNewlineIsFirst(file);
    assert file[|line|] == NEWLINE;
    assert file[..|line|] == line;
  }

  /** A file is one line and the rest of it, or torn from its start. */
  lemma LineAndRest(line: Bytes, rest: Bytes)
    requires NEWLINE !in line
    ensures WholeLines(line + [NEWLINE] + rest) == [line] + WholeLines(rest)
    ensures Tail(line + [NEWLINE] + rest) == Tail(rest)
  {
    var file := line + [NEWLINE] + rest;
    NewlineFound(line, rest);
    assert file[..|line|] == line && file[|line| + 1..] == rest;
  }

  lemma NothingWhole(part: Bytes)
    requires NEWLINE !in part
    ensures WholeLines(part) == [] && Tail(part) == part
  {
    FirstNewlineIsFirst(part);
  }

  lemma SplitLine(file: Bytes) returns (line: Bytes, rest: Bytes)
    requires NEWLINE in file
    ensures NEWLINE !in line && file == line + [NEWLINE] + rest
    ensures Ends(file) ==> Ends(rest)
  {
    FirstNewlineIsFirst(file);
    var n := FirstNewline(file).value;
    line, rest := file[..n], file[n + 1..];
  }

  /** A file that ends on a line boundary keeps its lines in front of whatever
      follows. */
  lemma {:induction false} LinesOfConcat(a: Bytes, b: Bytes)
    requires Ends(a)
    ensures WholeLines(a + b) == WholeLines(a) + WholeLines(b)
    ensures Tail(a + b) == Tail(b)
    decreases |a|
  {
    hide WholeLines, Tail;
    if a == [] {
      assert a + b == b;
      NothingWhole(a);
    } else {
      assert a[|a| - 1] in a;
      var line, rest := SplitLine(a);
      LineAndRest(line, rest);
      LineAndRest(line, rest + b);
      LinesOfConcat(rest, b);
      assert a + b == line + [NEWLINE] + (rest + b);
    }
  }

  lemma HealedIs(file: Bytes, front: Bytes)
    requires file == front + Tail(file)
    ensures Healed(file) == front
  {
  }

  lemma {:induction false} HealedEnds(file: Bytes)
    ensures Ends(Healed(file)) && file == Healed(file) + Tail(file) && NEWLINE !in Tail(file)
    decreases |file|
  {
    hide Tail, Healed;
    if NEWLINE in file {
      var line, rest := SplitLine(file);
      LineAndRest(line, rest);
      HealedEnds(rest);
      var front := line + [NEWLINE] + Healed(rest);
      assert file == front + Tail(file);
      HealedIs(file, front);
    } else {
      NothingWhole(file);
      HealedIs(file, []);
    }
  }

  /** Healing takes away the torn tail and no whole line, and nothing from a file
      without one. */
  lemma HealedKeepsLines(file: Bytes)
    ensures Tail(Healed(file)) == [] && WholeLines(Healed(file)) == WholeLines(file)
    ensures Ends(file) <==> Healed(file) == file
  {
    hide WholeLines, Tail;
    HealedEnds(file);
    NothingWhole(Tail(file));
    NothingWhole([]);
    LinesOfConcat(Healed(file), Tail(file));
    LinesOfConcat(Healed(file), []);
    assert Healed(file) + [] == Healed(file);
  }

  lemma OneMoreByte(file: Bytes, b: bv8)
    ensures |WholeLines(file + [b])| == |WholeLines(file)| + (if b == NEWLINE then 1 else 0)
  {
    hide WholeLines, Tail, Healed;
    HealedEnds(file);
    HealedKeepsLines(file);
    var front, tail := Healed(file), Tail(file);
    assert file + [b] == front + (tail + [b]);
    LinesOfConcat(front, tail + [b]);
    if b == NEWLINE {
      LineAndRest(tail, []);
      NothingWhole([]);
      assert tail + [b] + [] == tail + [b];
    } else {
      NothingWhole(tail + [b]);
    }
  }

  lemma LastNewline(file: Bytes, keep: nat)
    requires keep <= |file| && Ends(file[..keep]) && NEWLINE !in file[keep..]
    ensures Healed(file) == file[..keep]
  {
    hide WholeLines, Tail, Healed;
    LinesOfConcat(file[..keep], file[keep..]);
    NothingWhole(file[keep..]);
    assert file == file[..keep] + file[keep..];
    HealedIs(file, file[..keep]);
  }

  // ----- emitting -----

  /** How an envelope is written, by its number and what it carries. */
  type Encoding<!P> = (nat, P) -> Bytes

  function Upto(bytes: Bytes, reach: nat): Bytes {
    if reach < |bytes| then bytes[..reach] else bytes
  }

  function NextLine<P>(encode: Encoding<P>, file: Bytes, payload: P): Bytes {
    encode(|WholeLines(file)| + 1, payload)
  }

  /** The file after one emit: its torn tail healed and, for an envelope that is
      admitted, as much of the next line as the writer lived to write. */
  function Emitted<P>(encode: Encoding<P>, file: Bytes, payload: P, admitted: bool, reach: nat): Bytes {
    if admitted then Healed(file) + Upto(NextLine(encode, file, payload) + [NEWLINE], reach) else Healed(file)
  }

  /** The file the emitters share, each holding its lock for one emit. */
  class SharedFile<P> {
    var contents: Bytes
    const encode: Encoding<P>

    constructor (encode: Encoding<P>)
      ensures contents == [] && this.encode == encode
    {
      contents := [];
      this.encode := encode;
    }

    /** Count the whole records, and heal a torn tail away. */
    method Recorded() returns (held: nat)
      modifies this`contents
      ensures held == |WholeLines(old(contents))|
      ensures contents == Healed(old(contents))
    {
      hide WholeLines, Tail, Healed;
      held := 0;
      NothingWhole([]);
      for i := 0 to |contents|
        invariant contents == old(contents)
        invariant held == |WholeLines(contents[..i])|
      {
        OneMoreByte(contents[..i], contents[i]);
        assert contents[..i + 1] == contents[..i] + [contents[i]];
        if contents[i] == NEWLINE {
          held := held + 1;
        }
      }
      assert contents[..|contents|] == contents;
      HealedKeepsLines(contents);
      if contents != [] && contents[|contents| - 1] != NEWLINE {
        var keep := |contents|;
        while keep > 0 && contents[keep - 1] != NEWLINE
          invariant 0 <= keep <= |contents| && NEWLINE !in contents[keep..]
          invariant contents == old(contents)
        {
          keep := keep - 1;
        }
        LastNewline(contents, keep);
        contents := contents[..keep];
      }
    }

    /** Emit one envelope, of whose line `reach` bytes are written. */
    method Emit(payload: P, admitted: bool, reach: nat) returns (number: nat)
      modifies this`contents
      ensures number == |WholeLines(old(contents))| + 1
      ensures contents == Emitted(encode, old(contents), payload, admitted, reach)
    {
      var held := Recorded();
      number := held + 1;
      if admitted {
        contents := contents + Upto(encode(number, payload) + [NEWLINE], reach);
      }
    }
  }

  ghost predicate OneLineEach<P(!new)>(encode: Encoding<P>) {
    forall number, payload :: NEWLINE !in encode(number, payload)
  }

  /** An emit adds its line when it is written to its newline, and otherwise leaves
      the whole lines as they were; and it takes no whole line away. */
  lemma EmittedLines<P(!new)>(encode: Encoding<P>, file: Bytes, payload: P, admitted: bool, reach: nat)
    requires OneLineEach(encode)
    ensures var line := NextLine(encode, file, payload);
            WholeLines(Emitted(encode, file, payload, admitted, reach))
            == WholeLines(file) + if admitted && reach > |line| then [line] else []
    ensures Healed(file) <= Healed(Emitted(encode, file, payload, admitted, reach))
  {
    hide WholeLines, Tail, Healed;
    HealedEnds(file);
    HealedKeepsLines(file);
    var front, line := Healed(file), NextLine(encode, file, payload);
    if !admitted {
      HealedKeepsLines(front);
    } else if reach > |line| {
      LineAndRest(line, []);
      NothingWhole([]);
      var whole := line + [NEWLINE];
      assert whole + [] == whole;
      assert Upto(whole, reach) == whole;
      LinesOfConcat(front, whole);
      HealedKeepsLines(front + whole);
    } else {
      var part := line[..reach];
      assert Upto(line + [NEWLINE], reach) == part;
      NothingWhole(part);
      LinesOfConcat(front, part);
      HealedIs(front + part, front);
    }
  }
}
