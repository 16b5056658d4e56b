/** The templates a configured codec's strings are: text in which `{frame.path}`
    and `{reply.path}` stand for values, and a brace is written twice. */
module Templates {
  import opened Wrappers
  import opened Json

  datatype Root = Frame | Reply

  /** A placeholder: what it looks into, and the path it looks along. */
  datatype Placeholder = Placeholder(root: Root, field: string)

  datatype TemplateError = NotClosed | NotOpened | NoPath(inner: string) | NotAPath(inner: string)

  // ----- paths -----

  /** Where `c` first stands. */
  function Find(text: string, c: char): (at: Option<nat>)
    ensures at.Some? ==> at.value < |text|
  {
    if text == [] then None
    else if text[0] == c then Some(0)
    else match Find(text[1..], c)
      case None => None
      case Some(k) => Some(k + 1)
  }

  lemma {:induction false} FindFirst(text: string, c: char)
    ensures match Find(text, c)
            case None => c !in text
            case Some(k) => text[k] == c && c !in text[..k]
  {
    if text != [] && text[0] != c {
      FindFirst(text[1..], c);
      match Find(text[1..], c) {
        case None =>
        case Some(k) => assert text[..k + 1] == [text[0]] + text[1..][..k];
      }
    }
  }

  lemma FindAfter(before: string, c: char, after: string)
    requires c !in before
    ensures Find(before + [c] + after, c) == Some(|before|)
  {
    var text := before + [c] + after;
    FindFirst(text, c);
    assert text[|before|] == c;
    assert text[..|before|] == before;
  }

  function Split(text: string, c: char): (parts: seq<string>)
    ensures parts != []
  {
    match Find(text, c)
    case None => [text]
    case Some(k) => [text[..k]] + Split(text[k + 1..], c)
  }

  predicate ValidPath(path: string) {
    path != "" && forall part :: part in Split(path, '.') ==> part != ""
  }

  predicate DotsTogether(path: string) {
    exists i :: 0 <= i < |path| - 1 && path[i] == '.' && path[i + 1] == '.'
  }

  lemma DotsTogetherAfter(before: string, rest: string)
    requires '.' !in before && rest != ""
    ensures DotsTogether(before + ['.'] + rest) <==> rest[0] == '.' || DotsTogether(rest)
  {
    var path, k := before + ['.'] + rest, |before|;
    assert path[k + 1..] == rest;
    assert forall i :: 0 <= i < k ==> path[i] in before;
    if rest[0] == '.' {
      assert path[k] == '.' && path[k + 1] == '.';
    }
    if DotsTogether(rest) {
      var i :| 0 <= i < |rest| - 1 && rest[i] == '.' && rest[i + 1] == '.';
      assert path[k + 1 + i] == '.' && path[k + 1 + i + 1] == '.';
    }
    if DotsTogether(path) {
      var i :| 0 <= i < |path| - 1 && path[i] == '.' && path[i + 1] == '.';
      assert i >= k;
      if i > k {
        assert rest[i - k - 1] == '.' && rest[i - k - 1 + 1] == '.';
      }
    }
  }

  /** A path is one with no empty part: it neither starts nor ends with a dot, nor has two
      in a row, and is not empty. */
  lemma {:induction false} PathsAre(path: string)
    ensures ValidPath(path) <==> path != "" && path[0] != '.' && path[|path| - 1] != '.' && !DotsTogether(path)
  {
    hide DotsTogether;
    FindFirst(path, '.');
    match Find(path, '.')
    case None => NoDots(path);
    case Some(k) =>
      var rest := path[k + 1..];
      assert path == path[..k] + ['.'] + rest;
      assert Split(path, '.') == [path[..k]] + Split(rest, '.');
      assert forall part :: part in Split(path, '.') <==> part == path[..k] || part in Split(rest, '.');
      assert path[..k] == "" <==> k == 0;
      if rest == "" {
        assert Split(rest, '.')[0] == "" && "" in Split(rest, '.');
        assert path[|path| - 1] == '.';
      } else {
        PathsAre(rest);
        DotsTogetherAfter(path[..k], rest);
        assert path[|path| - 1] == rest[|rest| - 1];
        assert k > 0 ==> path[0] == path[..k][0] && path[..k][0] in path[..k];
        assert path[..k] in Split(path, '.') && forall part :: part in Split(rest, '.') ==> part in Split(path, '.');
        assert ValidPath(path) <==> k > 0 && ValidPath(rest);
      }
  }

  lemma NoDots(path: string)
    requires '.' !in path
    ensures !DotsTogether(path)
  {
  }

  function Along(value: Json, keys: seq<string>): Option<Json> {
    if keys == [] then Some(value)
    else if keys[0] == "" || !value.Obj? then None
    else match Get(value.fields, keys[0])
      case None => None
      case Some(inner) => Along(inner, keys[1..])
  }

  /** What stands at a dot-separated path of object keys. */
  function At(value: Json, path: string): Option<Json> {
    Along(value, Split(path, '.'))
  }

  /** Whether the keys lead from one value to another, each the key of an object, and
      none empty. */
  predicate LeadsTo(value: Json, keys: seq<string>, found: Json)
    decreases |keys|, 1
  {
    if keys == [] then value == found
    else keys[0] != "" && value.Obj? && exists i :: 0 <= i < |value.fields| && LeadsThrough(value, i, keys, found)
  }

  predicate LeadsThrough(value: Json, i: nat, keys: seq<string>, found: Json)
    requires value.Obj? && i < |value.fields| && keys != []
    decreases |keys|, 0
  {
    && value.fields[i].0 == keys[0]
    && (forall j | 0 <= j < i :: value.fields[j].0 != keys[0])
    && LeadsTo(value.fields[i].1, keys[1..], found)
  }

  lemma {:induction false} AlongLeadsTo(value: Json, keys: seq<string>, found: Json)
    ensures Along(value, keys) == Some(found) <==> LeadsTo(value, keys, found)
  {
    if keys != [] && keys[0] != "" && value.Obj? && Get(value.fields, keys[0]).Some? {
      var inner := Get(value.fields, keys[0]).value;
      var i :| 0 <= i < |value.fields| && value.fields[i] == (keys[0], inner)
               && forall j | 0 <= j < i :: value.fields[j].0 != keys[0];
      AlongLeadsTo(inner, keys[1..], found);
      assert LeadsTo(inner, keys[1..], found) ==> LeadsThrough(value, i, keys, found);
    }
  }

  /** The parts of a text between its separators, put together again. */
  function Join(parts: seq<string>, c: char): string
    requires parts != []
  {
    if |parts| == 1 then parts[0] else parts[0] + [c] + Join(parts[1..], c)
  }

  /** A text is split exactly at its separators. */
  lemma {:induction false} SplitExactly(text: string, c: char)
    ensures Join(Split(text, c), c) == text && forall part :: part in Split(text, c) ==> c !in part
  {
    FindFirst(text, c);
    match Find(text, c)
    case None =>
    case Some(k) =>
      SplitExactly(text[k + 1..], c);
      assert Split(text, c)[1..] == Split(text[k + 1..], c);
      assert text == text[..k] + [c] + text[k + 1..];
  }

  // ----- reading a template -----

  function RootName(root: Root): string {
    match root
    case Frame => "frame"
    case Reply => "reply"
  }

  /** What stands between two braces, as a placeholder. */
  function Read(inner: string): Result<Placeholder, TemplateError> {
    match Find(inner, '.')
    case None => Failure(NoPath(inner))
    case Some(dot) =>
      var name, field := inner[..dot], inner[dot + 1..];
      if !ValidPath(field) then Failure(NotAPath(inner))
      else if name == "frame" then Success(Placeholder(Frame, field))
      else if name == "reply" then Success(Placeholder(Reply, field))
      else Failure(NotAPath(inner))
  }

  predicate Doubled(text: string, c: char) {
    |text| >= 2 && text[0] == c && text[1] == c
  }

  /** One piece of a template: a character of its text, or a placeholder. */
  datatype Piece = Char(c: char) | Of(p: Placeholder)

  /** The piece a template starts with, and how much of it that takes. */
  function First(text: string): (first: Result<(Piece, nat), TemplateError>)
    requires text != []
    ensures first.Success? ==> 0 < first.value.1 <= |text|
  {
    if Doubled(text, '{') || Doubled(text, '}') then Success((Char(text[0]), 2))
    else if text[0] == '{' then
      match Find(text[1..], '}')
      case None => Failure(NotClosed)
      case Some(n) =>
        match Read(text[1..n + 1])
        case Failure(e) => Failure(e)
        case Success(p) => Success((Of(p), n + 2))
    else if text[0] == '}' then Failure(NotOpened)
    else Success((Char(text[0]), 1))
  }

  function Named(piece: Piece): seq<Placeholder> {
    if piece.Of? then [piece.p] else []
  }

  function Prepend<T>(first: seq<T>, rest: Result<seq<T>, TemplateError>): Result<seq<T>, TemplateError> {
    if rest.Success? then Success(first + rest.value) else rest
  }

  /** The placeholders of a template, in order. */
  function Placeholders(text: string): Result<seq<Placeholder>, TemplateError> {
    if text == [] then Success([])
    else match First(text)
      case Failure(e) => Failure(e)
      case Success((piece, n)) => Prepend(Named(piece), Placeholders(text[n..]))
  }

  lemma PrependNothing<T>(rest: Result<seq<T>, TemplateError>)
    ensures Prepend([], rest) == rest
  {
    if rest.Success? {
      assert [] + rest.value == rest.value;
    }
  }

  lemma PrependTwice<T>(first: seq<T>, second: seq<T>, rest: Result<seq<T>, TemplateError>)
    ensures Prepend(first, Prepend(second, rest)) == Prepend(first + second, rest)
  {
    if rest.Success? {
      assert first + (second + rest.value) == (first + second) + rest.value;
    }
  }

  /** What is left of a template, one piece further on. */
  lemma Further(text: string, index: nat, sofar: seq<Placeholder>, piece: Piece, n: nat)
    requires index < |text| && First(text[index..]) == Success((piece, n))
    ensures index + n <= |text| && text[index..][n..] == text[index + n..]
    ensures Prepend(sofar, Placeholders(text[index..]))
            == Prepend(sofar + Named(piece), Placeholders(text[index + n..]))
  {
    assert text[index..][n..] == text[index + n..];
    PrependTwice(sofar, Named(piece), Placeholders(text[index + n..]));
  }

  lemma Refused(text: string)
    requires text != []
    ensures First(text).Failure? ==> Placeholders(text) == Failure(First(text).error)
    ensures Placeholders(text).Success? ==> First(text).Success?
  {
  }

  lemma AllRead(text: string, sofar: seq<Placeholder>)
    requires text == []
    ensures Prepend(sofar, Placeholders(text)) == Success(sofar)
  {
    assert sofar + [] == sofar;
  }

  /** The scan that collects them. */
  method Collect(text: string) returns (found: Result<seq<Placeholder>, TemplateError>)
    ensures found == Placeholders(text)
  {
    hide First, Placeholders;
    var sofar: seq<Placeholder> := [];
    var index := 0;
    assert text[index..] == text;
    PrependNothing(Placeholders(text));
    while index < |text|
      invariant index <= |text|
      invariant Placeholders(text) == Prepend(sofar, Placeholders(text[index..]))
    {
      Refused(text[index..]);
      var first := First(text[index..]);
      if first.Failure? {
        return Failure(first.error);
      }
      var (piece, n) := first.value;
      Further(text, index, sofar, piece, n);
      sofar, index := sofar + Named(piece), index + n;
    }
    AllRead(text[index..], sofar);
    found := Success(sofar);
  }

  /** Why a text reads as no template, from the piece that is to blame: a brace that is
      neither doubled nor closed, or neither doubled nor opened; or between braces a text
      without a dot, or one that is not `frame` or `reply` and a path. */
  lemma WhyNot(text: string)
    requires text != []
    ensures text[0] == '{' && !Doubled(text, '{') && '}' !in text[1..] ==> Placeholders(text) == Failure(NotClosed)
    ensures text[0] == '}' && !Doubled(text, '}') ==> Placeholders(text) == Failure(NotOpened)
  {
    FindFirst(text[1..], '}');
  }

  lemma WhyNotBetween(inner: string, after: string)
    requires '}' !in inner && (inner == "" || inner[0] != '{')
    ensures var text := ['{'] + inner + ['}'] + after;
            && ('.' !in inner ==> Placeholders(text) == Failure(NoPath(inner)))
            && ('.' in inner && (forall path :: ValidPath(path) ==> inner != "frame." + path && inner != "reply." + path)
                ==> Placeholders(text) == Failure(NotAPath(inner)))
  {
    var text := ['{'] + inner + ['}'] + after;
    assert text[1..] == inner + ['}'] + after;
    FindAfter(inner, '}', after);
    assert text[1..|inner| + 1] == inner;
    assert !Doubled(text, '{') && !Doubled(text, '}') by {
      assert text[1] == if inner == "" then '}' else inner[0];
    }
    FindFirst(inner, '.');
    NamesAre(inner);
    hide ValidPath;
  }

  /** What two names before a dot are read as. */
  lemma NamesAre(inner: string)
    ensures Read(inner).Success? <==> exists path :: ValidPath(path) && (inner == "frame." + path || inner == "reply." + path)
  {
    FindFirst(inner, '.');
    forall path | inner == "frame." + path || inner == "reply." + path
      ensures Find(inner, '.') == Some(5) && inner[6..] == path
    {
      FindAfter("frame", '.', path);
      FindAfter("reply", '.', path);
      assert "frame" + ['.'] + path == "frame." + path;
      assert "reply" + ['.'] + path == "reply." + path;
    }
    if Read(inner).Success? {
      var dot := Find(inner, '.').value;
      assert inner == inner[..dot] + ['.'] + inner[dot + 1..];
      assert inner == "frame." + inner[dot + 1..] || inner == "reply." + inner[dot + 1..];
    }
  }

  // ----- rendering one -----

  /** The value a placeholder stands for. */
  function Value(p: Placeholder, frame: Json, reply: Option<Json>): Option<Json> {
    match p.root
    case Frame => At(frame, p.field)
    case Reply => if reply.Some? then At(reply.value, p.field) else None
  }

  /** A value inside text: a string as it is, anything else as `show` writes it,
      and nothing for no value. */
  function Shown(value: Option<Json>, show: Json -> string): string {
    match value
    case None => ""
    case Some(Str(s)) => s
    case Some(other) => show(other)
  }

  /** A placeholder stands for what its path leads to in its root, and for nothing where
      that is a reply there is none of. */
  lemma ValueIs(p: Placeholder, frame: Json, reply: Option<Json>, found: Json)
    ensures Value(p, frame, reply) == Some(found)
            <==> if p.root == Frame then LeadsTo(frame, Split(p.field, '.'), found)
                 else reply.Some? && LeadsTo(reply.value, Split(p.field, '.'), found)
  {
    AlongLeadsTo(frame, Split(p.field, '.'), found);
    if reply.Some? {
      AlongLeadsTo(reply.value, Split(p.field, '.'), found);
    }
  }

  /** A string is filled in as it is, any other value as it is written, and nothing where
      there is none. */
  lemma ShownAs(value: Option<Json>, show: Json -> string, text: string)
    ensures value.None? ==> Shown(value, show) == ""
    ensures value == Some(Str(text)) ==> Shown(value, show) == text
    ensures value.Some? && !value.value.Str? ==> Shown(value, show) == show(value.value)
  {
  }

  function Filled(piece: Piece, frame: Json, reply: Option<Json>, show: Json -> string): string {
    match piece
    case Char(c) => [c]
    case Of(p) => Shown(Value(p, frame, reply), show)
  }

  /** The text of a template with its values in place. */
  function Text(text: string, frame: Json, reply: Option<Json>, show: Json -> string): string
    requires Placeholders(text).Success?
  {
    if text == [] then []
    else
      var (piece, n) := First(text).value;
      Filled(piece, frame, reply, show) + Text(text[n..], frame, reply, show)
  }

  function Exact(p: Placeholder): string {
    ['{'] + RootName(p.root) + ['.'] + p.field + ['}']
  }

  /** A template rendered: the value itself when it is one placeholder alone, else
      its text. */
  function RenderString(text: string, frame: Json, reply: Option<Json>, show: Json -> string): Result<Json, TemplateError> {
    match Placeholders(text)
    case Failure(e) => Failure(e)
    case Success(fields) =>
      if |fields| == 1 && text == Exact(fields[0]) then
        Success(match Value(fields[0], frame, reply) case None => Str("") case Some(value) => value)
      else Success(Str(Text(text, frame, reply, show)))
  }

  lemma FilledFurther(text: string, index: nat, piece: Piece, n: nat, sofar: string, frame: Json, reply: Option<Json>,
                      show: Json -> string)
    requires index < |text| && Placeholders(text[index..]).Success?
    requires First(text[index..]) == Success((piece, n))
    ensures index + n <= |text| && Placeholders(text[index + n..]).Success?
    ensures sofar + Text(text[index..], frame, reply, show)
            == sofar + Filled(piece, frame, reply, show) + Text(text[index + n..], frame, reply, show)
  {
    hide First, Filled, Named;
    var rest := text[index..];
    assert rest[n..] == text[index + n..];
    var filled, after := Filled(piece, frame, reply, show), Text(text[index + n..], frame, reply, show);
    assert Text(rest, frame, reply, show) == filled + after;
    assert sofar + (filled + after) == (sofar + filled) + after;
  }

  /** The scan that fills a buffer from a template already read. */
  method Fill(text: string, frame: Json, reply: Option<Json>, show: Json -> string) returns (rendered: string)
    requires Placeholders(text).Success?
    ensures rendered == Text(text, frame, reply, show)
  {
    hide First, Filled, Placeholders, Text;
    rendered := [];
    var index := 0;
    assert text[index..] == text;
    WithNothing(Text(text, frame, reply, show));
    while index < |text|
      invariant index <= |text|
      invariant Placeholders(text[index..]).Success?
      invariant Text(text, frame, reply, show) == rendered + Text(text[index..], frame, reply, show)
    {
      Refused(text[index..]);
      var (piece, n) := First(text[index..]).value;
      FilledFurther(text, index, piece, n, rendered, frame, reply, show);
      rendered, index := rendered + Filled(piece, frame, reply, show), index + n;
    }
    AllFilled(text[index..], frame, reply, show);
    WithNothing(rendered);
  }

  lemma AllFilled(text: string, frame: Json, reply: Option<Json>, show: Json -> string)
    requires text == []
    ensures Placeholders(text).Success? && Text(text, frame, reply, show) == []
  {
  }

  lemma WithNothing(text: string)
    ensures [] + text == text && text + [] == text
  {
  }

  // ----- what a template is the printing of -----

  datatype Segment = Literal(text: string) | Hole(p: Placeholder)

  /** A path a placeholder can name. */
  predicate Nameable(segment: Segment) {
    segment.Hole? ==> ValidPath(segment.p.field) && '}' !in segment.p.field
  }

  function EscapedChar(c: char): string {
    if c == '{' || c == '}' then [c, c] else [c]
  }

  function Escaped(text: string): string {
    if text == [] then [] else EscapedChar(text[0]) + Escaped(text[1..])
  }

  function Print(segment: Segment): string {
    match segment
    case Literal(text) => Escaped(text)
    case Hole(p) => Exact(p)
  }

  function Printed(segments: seq<Segment>): string {
    if segments == [] then [] else Print(segments[0]) + Printed(segments[1..])
  }

  function Holes(segments: seq<Segment>): seq<Placeholder> {
    if segments == [] then []
    else (if segments[0].Hole? then [segments[0].p] else []) + Holes(segments[1..])
  }

  function Concatenated(segments: seq<Segment>, frame: Json, reply: Option<Json>, show: Json -> string): string {
    if segments == [] then []
    else (match segments[0]
          case Literal(text) => text
          case Hole(p) => Shown(Value(p, frame, reply), show)) + Concatenated(segments[1..], frame, reply, show)
  }

  lemma FirstOfExact(p: Placeholder, after: string)
    requires Nameable(Hole(p))
    ensures First(Exact(p) + after) == Success((Of(p), |Exact(p)|))
  {
    var inner := RootName(p.root) + ['.'] + p.field;
    var text := Exact(p) + after;
    assert text[1..] == inner + ['}'] + after;
    FindAfter(inner, '}', after);
    assert text[1..|inner| + 1] == inner;
    FindAfter(RootName(p.root), '.', p.field);
    assert inner[..5] == RootName(p.root) && inner[6..] == p.field;
    assert text[1] == RootName(p.root)[0];
  }

  lemma FirstOfEscaped(c: char, after: string)
    ensures EscapedChar(c) != [] && First(EscapedChar(c) + after) == Success((Char(c), |EscapedChar(c)|))
  {
    var text := EscapedChar(c) + after;
    assert text[0] == c;
    assert |EscapedChar(c)| == 2 ==> text[1] == c;
  }

  /** A template after one piece, which is read off whole. */
  lemma AfterFirst(piece: string, after: string, first: Piece, frame: Json, reply: Option<Json>, show: Json -> string)
    requires piece != [] && First(piece + after) == Success((first, |piece|))
    ensures Placeholders(piece + after) == Prepend(Named(first), Placeholders(after))
    ensures Placeholders(after).Success? ==>
              && Placeholders(piece + after).Success?
              && Text(piece + after, frame, reply, show) == Filled(first, frame, reply, show) + Text(after, frame, reply, show)
  {
    hide First;
    assert (piece + after)[|piece|..] == after;
  }

  lemma EscapedSplits(text: string, after: string)
    ensures text == [] ==> Escaped(text) + after == after
    ensures text != [] ==> Escaped(text) + after == EscapedChar(text[0]) + (Escaped(text[1..]) + after)
  {
  }

  lemma Regrouped(text: string, after: string)
    ensures text == [] ==> text + after == after
    ensures text != [] ==> [text[0]] + (text[1..] + after) == text + after
  {
  }

  lemma {:induction false} ReadEscaped(text: string, after: string, frame: Json, reply: Option<Json>, show: Json -> string)
    ensures Placeholders(Escaped(text) + after) == Placeholders(after)
    ensures Placeholders(after).Success? ==>
              Text(Escaped(text) + after, frame, reply, show) == text + Text(after, frame, reply, show)
  {
    hide First, Placeholders, Escaped, EscapedChar, Text, Prepend;
    EscapedSplits(text, after);
    if Placeholders(after).Success? {
      Regrouped(text, Text(after, frame, reply, show));
    }
    if text != [] {
      var piece, rest := EscapedChar(text[0]), Escaped(text[1..]) + after;
      FirstOfEscaped(text[0], rest);
      ReadEscaped(text[1..], after, frame, reply, show);
      AfterFirst(piece, rest, Char(text[0]), frame, reply, show);
      PrependNothing(Placeholders(rest));
    }
  }

  /** Reading what was printed: exactly the placeholders, in order; and rendering
      it: the literals and the values, concatenated. */
  lemma {:induction false} PrintedReadsBack(segments: seq<Segment>, frame: Json, reply: Option<Json>, show: Json -> string)
    requires forall s :: s in segments ==> Nameable(s)
    ensures Placeholders(Printed(segments)) == Success(Holes(segments))
    ensures Text(Printed(segments), frame, reply, show) == Concatenated(segments, frame, reply, show)
  {
    hide First, Exact, Nameable;
    if segments != [] {
      var after := Printed(segments[1..]);
      PrintedReadsBack(segments[1..], frame, reply, show);
      match segments[0] {
        case Literal(text) =>
          ReadEscaped(text, after, frame, reply, show);
          assert [] + Holes(segments[1..]) == Holes(segments[1..]);
        case Hole(p) =>
          FirstOfExact(p, after);
          AfterFirst(Exact(p), after, Of(p), frame, reply, show);
      }
    }
  }

  lemma ReadIsNamed(inner: string)
    requires Read(inner).Success?
    ensures var p := Read(inner).value;
            ValidPath(p.field) && inner == RootName(p.root) + ['.'] + p.field
  {
    hide ValidPath;
    FindFirst(inner, '.');
    var dot := Find(inner, '.').value;
    assert inner == inner[..dot] + [inner[dot]] + inner[dot + 1..];
  }

  lemma FirstIsExact(text: string)
    requires text != [] && First(text).Success? && First(text).value.0.Of?
    ensures var (piece, n) := First(text).value;
            Nameable(Hole(piece.p)) && text[..n] == Exact(piece.p)
  {
    hide Read, ValidPath;
    var (piece, n) := First(text).value;
    FindFirst(text[1..], '}');
    var inner := text[1..n - 1];
    assert inner == text[1..][..n - 2];
    ReadIsNamed(inner);
    assert text[..n] == ['{'] + inner + ['}'];
    var dot := |RootName(piece.p.root)| + 1;
    assert piece.p.field == inner[dot..];
  }

  lemma FirstIsPrinted(text: string) returns (segment: Segment)
    requires text != [] && First(text).Success?
    ensures Nameable(segment)
    ensures text[..First(text).value.1] == Print(segment)
  {
    var (piece, n) := First(text).value;
    match piece {
      case Char(c) =>
        hide Read, Find;
        segment := Literal([c]);
        assert Escaped([c]) == EscapedChar(c);
        assert text[..n] == EscapedChar(c);
      case Of(p) =>
        hide First, Nameable;
        segment := Hole(p);
        FirstIsExact(text);
    }
  }

  /** A text reads as a template exactly when it is the printing of some segments. */
  lemma {:induction false} ReadIsPrinted(text: string) returns (segments: seq<Segment>)
    requires Placeholders(text).Success?
    ensures forall s :: s in segments ==> Nameable(s)
    ensures Printed(segments) == text
  {
    hide First, Print, Nameable, Prepend;
    if text == [] {
      segments := [];
    } else {
      Refused(text);
      PrependSucceeds(text);
      var n := First(text).value.1;
      var segment := FirstIsPrinted(text);
      var rest := ReadIsPrinted(text[n..]);
      segments := [segment] + rest;
      assert text == text[..n] + text[n..];
      assert segments[0] == segment && segments[1..] == rest;
    }
  }

  lemma PrependSucceeds(text: string)
    requires text != [] && Placeholders(text).Success?
    ensures Placeholders(text[First(text).value.1..]).Success?
  {
  }

  /** No text beside the placeholders. */
  predicate Bare(segments: seq<Segment>) {
    forall s :: s in segments && s.Literal? ==> s.text == ""
  }

  function HoleText(holes: seq<Placeholder>): string {
    if holes == [] then [] else Exact(holes[0]) + HoleText(holes[1..])
  }

  lemma {:induction false} BareText(segments: seq<Segment>)
    ensures |Printed(segments)| >= |HoleText(Holes(segments))|
    ensures Printed(segments) == HoleText(Holes(segments)) <==> Bare(segments)
  {
    hide Exact;
    if segments != [] {
      BareText(segments[1..]);
      var after := Printed(segments[1..]);
      match segments[0] {
        case Literal(text) =>
          assert Holes(segments) == Holes(segments[1..]);
          assert Printed(segments) == Escaped(text) + after;
          assert text != [] <==> |Escaped(text)| > 0;
        case Hole(p) =>
          assert Holes(segments) == [p] + Holes(segments[1..]);
          assert Printed(segments) == Exact(p) + after;
          assert Printed(segments)[|Exact(p)|..] == after;
          assert HoleText(Holes(segments))[|Exact(p)|..] == HoleText(Holes(segments[1..]));
      }
    }
  }

  /** What a printed template renders as: one placeholder with no text beside it
      gives its value, of whatever JSON type — an empty string for none — and
      anything else the literals and the values concatenated. */
  lemma PrintedRenders(segments: seq<Segment>, frame: Json, reply: Option<Json>, show: Json -> string)
    requires forall s :: s in segments ==> Nameable(s)
    ensures var holes := Holes(segments);
            RenderString(Printed(segments), frame, reply, show)
            == Success(if |holes| == 1 && Bare(segments)
                       then (match Value(holes[0], frame, reply) case None => Str("") case Some(value) => value)
                       else Str(Concatenated(segments, frame, reply, show)))
  {
    PrintedReadsBack(segments, frame, reply, show);
    BareText(segments);
    var holes := Holes(segments);
    if |holes| == 1 {
      assert HoleText(holes) == Exact(holes[0]) + [];
    }
  }
}
