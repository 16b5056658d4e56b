/** A codec read from configuration: which values it may hold, and what it answers
    a frame with. */
module Codecs {
  import opened Wrappers
  import opened Json
  import opened Templates

  /** Why an answer cannot be made out of a configured value. */
  datatype Unusable = Template(e: TemplateError) | PathNotText | NotPaths | NoOutcome

  // ----- what a configuration may hold -----

  /** Whether every string within is a template, and looks into the reply only
      where it may. */
  predicate StringsAllowed(value: Json, allowReply: bool) {
    match value
    case Str(text) =>
      var read := Placeholders(text);
      read.Success? && (allowReply || forall p :: p in read.value ==> p.root == Frame)
    case Arr(items) => forall i :: 0 <= i < |items| ==> StringsAllowed(items[i], allowReply)
    case Obj(fields) => forall i :: 0 <= i < |fields| ==> StringsAllowed(fields[i].1, allowReply)
    case _ => true
  }

  predicate OnlyMappingKeys(fields: seq<(string, Json)>) {
    forall i :: 0 <= i < |fields| ==> fields[i].0 == "from" || fields[i].0 == "default"
  }

  predicate ReplyPath(value: Json) {
    value.Str? && "reply." <= value.s && ValidPath(value.s[6..])
  }

  /** Whether every object with a `from` in it is a mapping: paths under the reply,
      and perhaps a default. */
  predicate MappingsValid(value: Json) {
    match value
    case Arr(items) => forall i :: 0 <= i < |items| ==> MappingsValid(items[i])
    case Obj(fields) =>
      (match Get(fields, "from")
       case Some(from) =>
         && OnlyMappingKeys(fields)
         && (ReplyPath(from)
             || (from.Arr? && from.items != [] && forall i :: 0 <= i < |from.items| ==> ReplyPath(from.items[i])))
         && (match Get(fields, "default") case Some(value) => StringsAllowed(value, true) case None => true)
       case None => forall i :: 0 <= i < |fields| ==> MappingsValid(fields[i].1))
    case _ => true
  }

  datatype Action =
    | Answer(response: Json)
    | Refuse(message: string)
    | Raise(record: Json, after: Option<Json>, fail: Option<string>)
    | Ask(record: Json, blocking: bool, response: Json, unanswered: Json)

  datatype Condition = Condition(field: string, equals: Json)

  datatype Binding = Binding(when: Option<Condition>, action: Action)

  datatype Config = Config(select: string, frames: seq<(string, seq<Binding>)>)

  predicate ActionValid(action: Action) {
    match action
    case Answer(response) => StringsAllowed(response, false)
    case Refuse(message) => StringsAllowed(Str(message), false)
    case Raise(record, after, fail) =>
      && StringsAllowed(record, false)
      && after.Some? != fail.Some?
      && (after.Some? ==> StringsAllowed(after.value, false))
      && (fail.Some? ==> StringsAllowed(Str(fail.value), false))
    case Ask(record, _, response, unanswered) =>
      && StringsAllowed(record, false)
      && StringsAllowed(response, true)
      && StringsAllowed(unanswered, false)
      && MappingsValid(response)
  }

  predicate BindingValid(binding: Binding) {
    && (binding.when.Some? ==>
          var condition := binding.when.value;
          ValidPath(condition.field) && !condition.equals.Arr? && !condition.equals.Obj?)
    && ActionValid(binding.action)
  }

  /** What `validate_codec` accepts. */
  predicate CodecValid(config: Config) {
    && ValidPath(config.select)
    && config.frames != []
    && forall i :: 0 <= i < |config.frames| ==>
         && config.frames[i].1 != []
         && forall j :: 0 <= j < |config.frames[i].1| ==> BindingValid(config.frames[i].1[j])
  }

  // ----- exactly what is accepted -----

  /** Whether the text is a string somewhere within the value. */
  predicate HasString(value: Json, text: string) {
    match value
    case Str(s) => s == text
    case Arr(items) => exists i :: 0 <= i < |items| && HasString(items[i], text)
    case Obj(fields) => exists i :: 0 <= i < |fields| && HasString(fields[i].1, text)
    case _ => false
  }

  predicate TextAllowed(text: string, allowReply: bool) {
    && Placeholders(text).Success?
    && (!allowReply ==> forall p :: p in Placeholders(text).value ==> p.root != Reply)
  }

  /** A value's strings are allowed exactly where each of them is a template, and — where
      the reply may not be looked at — names nothing under it. */
  lemma {:induction false} StringsAllowedExactly(value: Json, allowReply: bool)
    ensures StringsAllowed(value, allowReply) <==> forall text :: HasString(value, text) ==> TextAllowed(text, allowReply)
  {
    match value
    case Str(text) =>
      hide Placeholders;
      assert HasString(value, text);
    case Arr(items) =>
      hide TextAllowed;
      forall i | 0 <= i < |items|
        ensures StringsAllowed(items[i], allowReply)
                <==> forall text :: HasString(items[i], text) ==> TextAllowed(text, allowReply)
        ensures forall text :: HasString(items[i], text) ==> HasString(value, text)
      {
        StringsAllowedExactly(items[i], allowReply);
      }
    case Obj(fields) =>
      hide TextAllowed;
      forall i | 0 <= i < |fields|
        ensures StringsAllowed(fields[i].1, allowReply)
                <==> forall text :: HasString(fields[i].1, text) ==> TextAllowed(text, allowReply)
        ensures forall text :: HasString(fields[i].1, text) ==> HasString(value, text)
      {
        StringsAllowedExactly(fields[i].1, allowReply);
      }
    case _ =>
  }

  /** Whether the value holds, outside every mapping, an object with a `from`. */
  predicate HasMapping(value: Json, mapping: seq<(string, Json)>) {
    match value
    case Arr(items) => exists i :: 0 <= i < |items| && HasMapping(items[i], mapping)
    case Obj(fields) =>
      if exists i :: 0 <= i < |fields| && fields[i].0 == "from" then fields == mapping
      else exists i :: 0 <= i < |fields| && HasMapping(fields[i].1, mapping)
    case _ => false
  }

  /** A text that is a path under the reply. */
  ghost predicate IsReplyPath(value: Json) {
    exists path :: ValidPath(path) && value == Str("reply." + path)
  }

  ghost predicate AreReplyPaths(from: Json) {
    IsReplyPath(from) || (from.Arr? && |from.items| > 0 && forall item :: item in from.items ==> IsReplyPath(item))
  }

  ghost predicate DefaultAllowed(fields: seq<(string, Json)>) {
    forall default, text :: IsField(fields, "default", default) && HasString(default, text) ==> Placeholders(text).Success?
  }

  /** What a mapping is to be: a `from` that is a path under the reply, or a list of some,
      and nothing else but perhaps a `default` of templates. */
  ghost predicate IsProperMapping(fields: seq<(string, Json)>) {
    && (forall field :: field in fields ==> field.0 in {"from", "default"})
    && (exists from :: IsField(fields, "from", from) && AreReplyPaths(from))
    && DefaultAllowed(fields)
  }

  lemma ReplyPathIs(value: Json)
    ensures ReplyPath(value) <==> IsReplyPath(value)
  {
    if ReplyPath(value) {
      assert value.s == "reply." + value.s[6..];
    }
    forall path | value == Str("reply." + path)
      ensures value.s[6..] == path && "reply." <= value.s
    {
    }
  }

  lemma FieldIsUnique(fields: seq<(string, Json)>, key: string, a: Json, b: Json)
    requires IsField(fields, key, a) && IsField(fields, key, b)
    ensures a == b
  {
  }

  lemma ProperMappingIs(fields: seq<(string, Json)>)
    requires exists i :: 0 <= i < |fields| && fields[i].0 == "from"
    ensures MappingsValid(Obj(fields)) <==> IsProperMapping(fields)
  {
    hide ReplyPath, IsReplyPath, StringsAllowed, HasString, Placeholders, IsField;
    var from := Get(fields, "from").value;
    forall other | IsField(fields, "from", other)
      ensures other == from
    {
      FieldIsUnique(fields, "from", other, from);
    }
    ReplyPathIs(from);
    if from.Arr? {
      forall i | 0 <= i < |from.items|
        ensures ReplyPath(from.items[i]) <==> IsReplyPath(from.items[i])
      {
        ReplyPathIs(from.items[i]);
      }
      assert (forall i :: 0 <= i < |from.items| ==> ReplyPath(from.items[i]))
          <==> forall item :: item in from.items ==> IsReplyPath(item);
    }
    DefaultIs(fields);
    assert OnlyMappingKeys(fields) <==> forall field :: field in fields ==> field.0 in {"from", "default"};
    assert AreReplyPaths(from)
        <==> ReplyPath(from)
             || (from.Arr? && from.items != [] && forall i :: 0 <= i < |from.items| ==> ReplyPath(from.items[i]));
    hide OnlyMappingKeys, AreReplyPaths, DefaultAllowed;
    assert IsField(fields, "from", from);
  }

  lemma DefaultIs(fields: seq<(string, Json)>)
    ensures (match Get(fields, "default") case Some(value) => StringsAllowed(value, true) case None => true)
            <==> DefaultAllowed(fields)
  {
    hide StringsAllowed, HasString, Placeholders;
    match Get(fields, "default")
    case None =>
    case Some(value) =>
      StringsAllowedExactly(value, true);
      forall other | IsField(fields, "default", other)
        ensures other == value
      {
        FieldIsUnique(fields, "default", other, value);
      }
      assert forall text :: TextAllowed(text, true) <==> Placeholders(text).Success?;
      hide IsField, TextAllowed;
      if DefaultAllowed(fields) {
        forall text | HasString(value, text)
          ensures TextAllowed(text, true)
        {
          assert IsField(fields, "default", value) && HasString(value, text);
        }
      }
  }

  /** A response's mappings are accepted exactly where each is a proper one. */
  lemma {:induction false} MappingsValidExactly(value: Json)
    ensures MappingsValid(value) <==> forall mapping :: HasMapping(value, mapping) ==> IsProperMapping(mapping)
  {
    hide IsProperMapping, OnlyMappingKeys, ReplyPath, StringsAllowed;
    match value
    case Arr(items) =>
      forall i | 0 <= i < |items|
        ensures MappingsValid(items[i]) <==> forall mapping :: HasMapping(items[i], mapping) ==> IsProperMapping(mapping)
        ensures forall mapping :: HasMapping(items[i], mapping) ==> HasMapping(value, mapping)
      {
        MappingsValidExactly(items[i]);
      }
    case Obj(fields) =>
      if exists i :: 0 <= i < |fields| && fields[i].0 == "from" {
        ProperMappingIs(fields);
        assert HasMapping(value, fields);
      } else {
        forall i | 0 <= i < |fields|
          ensures MappingsValid(fields[i].1) <==> forall mapping :: HasMapping(fields[i].1, mapping) ==> IsProperMapping(mapping)
          ensures forall mapping :: HasMapping(fields[i].1, mapping) ==> HasMapping(value, mapping)
        {
          MappingsValidExactly(fields[i].1);
        }
      }
    case _ =>
  }

  /** What makes a configuration one that is refused. */
  predicate IsFaulty(binding: Binding) {
    || (binding.when.Some? && (!ValidPath(binding.when.value.field)
                               || binding.when.value.equals.Arr? || binding.when.value.equals.Obj?))
    || match binding.action
       case Answer(response) => !StringsAllowed(response, false)
       case Refuse(message) => !StringsAllowed(Str(message), false)
       case Raise(record, after, fail) =>
         || !StringsAllowed(record, false) || (after.Some? && fail.Some?) || (after.None? && fail.None?)
         || (after.Some? && !StringsAllowed(after.value, false)) || (fail.Some? && !StringsAllowed(Str(fail.value), false))
       case Ask(record, _, response, unanswered) =>
         || !StringsAllowed(record, false) || !StringsAllowed(response, true) || !StringsAllowed(unanswered, false)
         || !MappingsValid(response)
  }

  /** A configuration is refused exactly where it selects by no path, declares no entry,
      or an entry of no bindings or with a faulty one. */
  lemma RefusedExactly(config: Config)
    ensures !CodecValid(config)
            <==> || !ValidPath(config.select)
                 || config.frames == []
                 || exists entry :: entry in config.frames
                                    && (entry.1 == [] || exists binding :: binding in entry.1 && IsFaulty(binding))
  {
    hide StringsAllowed, MappingsValid, ValidPath;
    forall binding
      ensures BindingValid(binding) <==> !IsFaulty(binding)
    {
    }
    hide BindingValid, IsFaulty;
    assert forall i :: 0 <= i < |config.frames| ==> config.frames[i] in config.frames;
  }

  // ----- rendering -----

  /** A value with every string in it rendered. */
  function Render(value: Json, frame: Json, reply: Option<Json>, show: Json -> string): Result<Json, TemplateError>
    decreases value, 1
  {
    match value
    case Str(text) => RenderString(text, frame, reply, show)
    case Arr(_) =>
      (match RenderItems(value, 0, frame, reply, show)
       case Failure(e) => Failure(e)
       case Success(rendered) => Success(Arr(rendered)))
    case Obj(_) =>
      (match RenderFields(value, 0, frame, reply, show)
       case Failure(e) => Failure(e)
       case Success(rendered) => Success(Obj(rendered)))
    case _ => Success(value)
  }

  /** An array's items from one on, rendered. */
  function RenderItems(value: Json, at: nat, frame: Json, reply: Option<Json>, show: Json -> string)
    : Result<seq<Json>, TemplateError>
    requires value.Arr? && at <= |value.items|
    decreases value, 0, |value.items| - at
  {
    if at == |value.items| then Success([])
    else match Render(value.items[at], frame, reply, show)
      case Failure(e) => Failure(e)
      case Success(first) => Prepend([first], RenderItems(value, at + 1, frame, reply, show))
  }

  /** An object's fields from one on, rendered under their own keys. */
  function RenderFields(value: Json, at: nat, frame: Json, reply: Option<Json>, show: Json -> string)
    : Result<seq<(string, Json)>, TemplateError>
    requires value.Obj? && at <= |value.fields|
    decreases value, 0, |value.fields| - at
  {
    if at == |value.fields| then Success([])
    else match Render(value.fields[at].1, frame, reply, show)
      case Failure(e) => Failure(e)
      case Success(first) => Prepend([(value.fields[at].0, first)], RenderFields(value, at + 1, frame, reply, show))
  }

  // ----- answering a question's reply -----

  predicate IsMapping(fields: seq<(string, Json)>) {
    Get(fields, "from").Some? && OnlyMappingKeys(fields)
  }

  /** A mapping's paths, as they are tried in order. */
  function Paths(from: Json): Result<seq<string>, Unusable> {
    match from
    case Str(path) => Success([path])
    case Arr(items) =>
      if forall i :: 0 <= i < |items| ==> items[i].Str?
      then Success(seq(|items|, i requires 0 <= i < |items| && items[i].Str? => items[i].s))
      else Failure(PathNotText)
    case _ => Failure(NotPaths)
  }

  function UnderReply(path: string): string {
    if "reply." <= path then path[6..] else path
  }

  /** What a path leads to in the reply, an empty string being nothing. */
  function Tried(reply: Json, path: string): (found: Option<Json>)
    ensures found.Some? ==> found == At(reply, UnderReply(path)) && found.value != Str("")
  {
    var found := At(reply, UnderReply(path));
    if found == Some(Str("")) then None else found
  }

  /** What the first path that leads anywhere leads to. */
  function FirstFilled(paths: seq<string>, reply: Json): Option<Json> {
    if paths == [] then None
    else if Tried(reply, paths[0]).Some? then Tried(reply, paths[0])
    else FirstFilled(paths[1..], reply)
  }

  /** An ask's response made out of the ruling — or none, when a mapping has
      neither a filled path nor a default. */
  function ResolveAsk(value: Json, frame: Json, reply: Json, show: Json -> string): Result<Option<Json>, Unusable>
    decreases value, 1
  {
    match value
    case Arr(_) =>
      (match ResolveItems(value, 0, frame, reply, show)
       case Failure(e) => Failure(e)
       case Success(None) => Success(None)
       case Success(Some(items)) => Success(Some(Arr(items))))
    case Obj(fields) =>
      if IsMapping(fields) then
        match Paths(Get(fields, "from").value)
        case Failure(e) => Failure(e)
        case Success(paths) =>
          match FirstFilled(paths, reply)
          case Some(found) => Success(Some(found))
          case None =>
            match Get(fields, "default")
            case None => Success(None)
            case Some(default) =>
              match Render(default, frame, Some(reply), show)
              case Failure(e) => Failure(Template(e))
              case Success(rendered) => Success(Some(rendered))
      else
        (match ResolveFields(value, 0, frame, reply, show)
         case Failure(e) => Failure(e)
         case Success(None) => Success(None)
         case Success(Some(resolved)) => Success(Some(Obj(resolved))))
    case _ =>
      (match Render(value, frame, Some(reply), show)
       case Failure(e) => Failure(Template(e))
       case Success(rendered) => Success(Some(rendered)))
  }

  /** An array's items from one on, resolved: the first with no answer leaves the
      whole without one, and nothing after it is looked at. */
  function ResolveItems(value: Json, at: nat, frame: Json, reply: Json, show: Json -> string)
    : Result<Option<seq<Json>>, Unusable>
    requires value.Arr? && at <= |value.items|
    decreases value, 0, |value.items| - at
  {
    if at == |value.items| then Success(Some([]))
    else match ResolveAsk(value.items[at], frame, reply, show)
      case Failure(e) => Failure(e)
      case Success(None) => Success(None)
      case Success(Some(first)) =>
        match ResolveItems(value, at + 1, frame, reply, show)
        case Failure(e) => Failure(e)
        case Success(None) => Success(None)
        case Success(Some(rest)) => Success(Some([first] + rest))
  }

  function ResolveFields(value: Json, at: nat, frame: Json, reply: Json, show: Json -> string)
    : Result<Option<seq<(string, Json)>>, Unusable>
    requires value.Obj? && at <= |value.fields|
    decreases value, 0, |value.fields| - at
  {
    if at == |value.fields| then Success(Some([]))
    else match ResolveAsk(value.fields[at].1, frame, reply, show)
      case Failure(e) => Failure(e)
      case Success(None) => Success(None)
      case Success(Some(first)) =>
        match ResolveFields(value, at + 1, frame, reply, show)
        case Failure(e) => Failure(e)
        case Success(None) => Success(None)
        case Success(Some(rest)) => Success(Some([(value.fields[at].0, first)] + rest))
  }

  // ----- rendering succeeds exactly where the strings are templates -----

  lemma {:induction false} RendersExactlyTemplates(value: Json, frame: Json, reply: Option<Json>, show: Json -> string)
    ensures Render(value, frame, reply, show).Success? <==> StringsAllowed(value, true)
    decreases value, 1
  {
    match value
    case Arr(_) => ItemsRenderExactly(value, 0, frame, reply, show);
    case Obj(_) => FieldsRenderExactly(value, 0, frame, reply, show);
    case _ =>
  }

  lemma {:induction false} ItemsRenderExactly(value: Json, at: nat, frame: Json, reply: Option<Json>, show: Json -> string)
    requires value.Arr? && at <= |value.items|
    ensures RenderItems(value, at, frame, reply, show).Success?
            <==> forall i :: at <= i < |value.items| ==> StringsAllowed(value.items[i], true)
    decreases value, 0, |value.items| - at
  {
    if at < |value.items| {
      RendersExactlyTemplates(value.items[at], frame, reply, show);
      ItemsRenderExactly(value, at + 1, frame, reply, show);
    }
  }

  lemma {:induction false} FieldsRenderExactly(value: Json, at: nat, frame: Json, reply: Option<Json>, show: Json -> string)
    requires value.Obj? && at <= |value.fields|
    ensures RenderFields(value, at, frame, reply, show).Success?
            <==> forall i :: at <= i < |value.fields| ==> StringsAllowed(value.fields[i].1, true)
    decreases value, 0, |value.fields| - at
  {
    if at < |value.fields| {
      RendersExactlyTemplates(value.fields[at].1, frame, reply, show);
      FieldsRenderExactly(value, at + 1, frame, reply, show);
    }
  }

  /** What rendering makes of a value: every string in it rendered, and nothing
      else changed — the same items in order, the same keys in order. */
  predicate IsRendered(value: Json, rendered: Json, frame: Json, reply: Option<Json>, show: Json -> string) {
    match value
    case Str(text) => RenderString(text, frame, reply, show) == Success(rendered)
    case Arr(items) =>
      && rendered.Arr? && |rendered.items| == |items|
      && forall i :: 0 <= i < |items| ==> IsRendered(items[i], rendered.items[i], frame, reply, show)
    case Obj(fields) =>
      && rendered.Obj? && |rendered.fields| == |fields|
      && forall i :: 0 <= i < |fields| ==>
           && rendered.fields[i].0 == fields[i].0
           && IsRendered(fields[i].1, rendered.fields[i].1, frame, reply, show)
    case _ => rendered == value
  }

  lemma {:induction false} RendersEveryString(value: Json, frame: Json, reply: Option<Json>, show: Json -> string)
    ensures var rendered := Render(value, frame, reply, show);
            rendered.Success? ==> IsRendered(value, rendered.value, frame, reply, show)
    decreases value, 1
  {
    hide RenderString;
    match value
    case Arr(_) => ItemsRendered(value, 0, frame, reply, show);
    case Obj(_) => FieldsRendered(value, 0, frame, reply, show);
    case _ =>
  }

  lemma {:induction false} ItemsRendered(value: Json, at: nat, frame: Json, reply: Option<Json>, show: Json -> string)
    requires value.Arr? && at <= |value.items|
    ensures var rendered := RenderItems(value, at, frame, reply, show);
            rendered.Success? ==>
              && |rendered.value| == |value.items| - at
              && forall i :: at <= i < |value.items| ==>
                   IsRendered(value.items[i], rendered.value[i - at], frame, reply, show)
    decreases value, 0, |value.items| - at
  {
    hide IsRendered, Render;
    if at < |value.items| {
      RendersEveryString(value.items[at], frame, reply, show);
      ItemsRendered(value, at + 1, frame, reply, show);
    }
  }

  lemma {:induction false} FieldsRendered(value: Json, at: nat, frame: Json, reply: Option<Json>, show: Json -> string)
    requires value.Obj? && at <= |value.fields|
    ensures var rendered := RenderFields(value, at, frame, reply, show);
            rendered.Success? ==>
              && |rendered.value| == |value.fields| - at
              && forall i :: at <= i < |value.fields| ==>
                   && rendered.value[i - at].0 == value.fields[i].0
                   && IsRendered(value.fields[i].1, rendered.value[i - at].1, frame, reply, show)
    decreases value, 0, |value.fields| - at
  {
    hide IsRendered, Render;
    if at < |value.fields| {
      RendersEveryString(value.fields[at].1, frame, reply, show);
      FieldsRendered(value, at + 1, frame, reply, show);
    }
  }

  /** What may not look into a reply renders without one as with one. */
  lemma {:induction false} ReplyNotLookedAt(value: Json, frame: Json, reply: Json, show: Json -> string)
    requires StringsAllowed(value, false)
    ensures Render(value, frame, None, show) == Render(value, frame, Some(reply), show)
    decreases value, 1
  {
    match value
    case Str(text) => TextIgnoresReply(text, frame, reply, show);
    case Arr(_) => ItemsIgnoreReply(value, 0, frame, reply, show);
    case Obj(_) => FieldsIgnoreReply(value, 0, frame, reply, show);
    case _ =>
  }

  lemma {:induction false} TextIgnoresReply(text: string, frame: Json, reply: Json, show: Json -> string)
    requires Placeholders(text).Success?
    requires forall p :: p in Placeholders(text).value ==> p.root == Frame
    ensures Text(text, frame, None, show) == Text(text, frame, Some(reply), show)
  {
    hide First;
    if text != [] {
      var (piece, n) := First(text).value;
      assert Placeholders(text).value == Named(piece) + Placeholders(text[n..]).value;
      TextIgnoresReply(text[n..], frame, reply, show);
      if piece.Of? {
        assert piece.p in Placeholders(text).value;
      }
    }
  }

  lemma {:induction false} ItemsIgnoreReply(value: Json, at: nat, frame: Json, reply: Json, show: Json -> string)
    requires value.Arr? && at <= |value.items| && StringsAllowed(value, false)
    ensures RenderItems(value, at, frame, None, show) == RenderItems(value, at, frame, Some(reply), show)
    decreases value, 0, |value.items| - at
  {
    if at < |value.items| {
      ReplyNotLookedAt(value.items[at], frame, reply, show);
      ItemsIgnoreReply(value, at + 1, frame, reply, show);
    }
  }

  lemma {:induction false} FieldsIgnoreReply(value: Json, at: nat, frame: Json, reply: Json, show: Json -> string)
    requires value.Obj? && at <= |value.fields| && StringsAllowed(value, false)
    ensures RenderFields(value, at, frame, None, show) == RenderFields(value, at, frame, Some(reply), show)
    decreases value, 0, |value.fields| - at
  {
    if at < |value.fields| {
      ReplyNotLookedAt(value.fields[at].1, frame, reply, show);
      FieldsIgnoreReply(value, at + 1, frame, reply, show);
    }
  }

  // ----- a reply is always made something of -----

  predicate Valid(value: Json) {
    StringsAllowed(value, true) && MappingsValid(value)
  }

  lemma ItemValid(value: Json, i: nat)
    requires Valid(value) && value.Arr? && i < |value.items|
    ensures Valid(value.items[i])
  {
  }

  lemma FieldValid(value: Json, i: nat)
    requires Valid(value) && value.Obj? && !IsMapping(value.fields) && i < |value.fields|
    ensures Valid(value.fields[i].1)
  {
  }

  lemma MappingResolves(fields: seq<(string, Json)>, frame: Json, reply: Json, show: Json -> string)
    requires Valid(Obj(fields)) && IsMapping(fields)
    ensures Paths(Get(fields, "from").value).Success?
    ensures ResolveAsk(Obj(fields), frame, reply, show).Success?
    ensures ResolveAsk(Obj(fields), frame, reply, show) == Success(None) <==> Lapses(Obj(fields), reply)
  {
    hide Render, FirstFilled, Placeholders, ValidPath;
    if Get(fields, "default").Some? {
      var default := Get(fields, "default").value;
      assert StringsAllowed(default, true);
      RendersExactlyTemplates(default, frame, Some(reply), show);
    }
  }

  lemma {:induction false} ResolvesWhatIsValid(value: Json, frame: Json, reply: Json, show: Json -> string)
    requires Valid(value)
    ensures ResolveAsk(value, frame, reply, show).Success?
    decreases value, 1
  {
    match value
    case Arr(_) =>
      hide Valid;
      ItemsResolve(value, 0, frame, reply, show);
    case Obj(fields) =>
      hide Valid, IsMapping;
      if IsMapping(fields) {
        MappingResolves(fields, frame, reply, show);
      } else {
        FieldsResolve(value, 0, frame, reply, show);
      }
    case _ => RendersExactlyTemplates(value, frame, Some(reply), show);
  }

  lemma {:induction false} ItemsResolve(value: Json, at: nat, frame: Json, reply: Json, show: Json -> string)
    requires value.Arr? && at <= |value.items| && Valid(value)
    ensures ResolveItems(value, at, frame, reply, show).Success?
    decreases value, 0, |value.items| - at
  {
    hide Valid, ResolveAsk;
    if at < |value.items| {
      ItemValid(value, at);
      ResolvesWhatIsValid(value.items[at], frame, reply, show);
      ItemsResolve(value, at + 1, frame, reply, show);
    }
  }

  lemma {:induction false} FieldsResolve(value: Json, at: nat, frame: Json, reply: Json, show: Json -> string)
    requires value.Obj? && at <= |value.fields| && Valid(value) && !IsMapping(value.fields)
    ensures ResolveFields(value, at, frame, reply, show).Success?
    decreases value, 0, |value.fields| - at
  {
    hide Valid, ResolveAsk, IsMapping;
    if at < |value.fields| {
      FieldValid(value, at);
      ResolvesWhatIsValid(value.fields[at].1, frame, reply, show);
      FieldsResolve(value, at + 1, frame, reply, show);
    }
  }

  /** What resolving makes of a response: each mapping replaced by its first
      filled path, or its default rendered; every other part rendered where it
      stands. */
  predicate IsResolved(value: Json, resolved: Json, frame: Json, reply: Json, show: Json -> string) {
    match value
    case Arr(items) =>
      && resolved.Arr? && |resolved.items| == |items|
      && forall i :: 0 <= i < |items| ==> IsResolved(items[i], resolved.items[i], frame, reply, show)
    case Obj(fields) =>
      if IsMapping(fields) then
        var paths := Paths(Get(fields, "from").value);
        && paths.Success?
        && match FirstFilled(paths.value, reply)
           case Some(found) => resolved == found
           case None =>
             Get(fields, "default").Some?
             && Render(Get(fields, "default").value, frame, Some(reply), show) == Success(resolved)
      else
        && resolved.Obj? && |resolved.fields| == |fields|
        && forall i :: 0 <= i < |fields| ==>
             && resolved.fields[i].0 == fields[i].0
             && IsResolved(fields[i].1, resolved.fields[i].1, frame, reply, show)
    case _ => Render(value, frame, Some(reply), show) == Success(resolved)
  }

  lemma {:induction false} ResolvesEveryPart(value: Json, frame: Json, reply: Json, show: Json -> string)
    ensures var resolved := ResolveAsk(value, frame, reply, show);
            resolved.Success? && resolved.value.Some? ==> IsResolved(value, resolved.value.value, frame, reply, show)
    decreases value, 1
  {
    hide Render, ResolveAsk, ResolveItems, ResolveFields, IsResolved, IsMapping;
    match value
    case Arr(items) =>
      ItemsResolved(value, 0, frame, reply, show);
      ArrayResolved(items, frame, reply, show);
    case Obj(fields) =>
      if IsMapping(fields) {
        MappingResolved(fields, frame, reply, show);
      } else {
        FieldsResolved(value, 0, frame, reply, show);
        PlainObjectResolved(fields, frame, reply, show);
      }
    case _ => LeafResolved(value, frame, reply, show);
  }

  lemma LeafResolved(value: Json, frame: Json, reply: Json, show: Json -> string)
    requires !value.Arr? && !value.Obj?
    ensures var resolved := ResolveAsk(value, frame, reply, show);
            resolved.Success? && resolved.value.Some? ==> IsResolved(value, resolved.value.value, frame, reply, show)
  {
    hide Render;
  }

  lemma ArrayResolved(items: seq<Json>, frame: Json, reply: Json, show: Json -> string)
    requires var resolved := ResolveItems(Arr(items), 0, frame, reply, show);
             resolved.Success? && resolved.value.Some? ==>
               && |resolved.value.value| == |items|
               && forall i :: 0 <= i < |items| ==> IsResolved(items[i], resolved.value.value[i], frame, reply, show)
    ensures var resolved := ResolveAsk(Arr(items), frame, reply, show);
            resolved.Success? && resolved.value.Some? ==>
              IsResolved(Arr(items), resolved.value.value, frame, reply, show)
  {
    hide ResolveItems;
  }

  lemma MappingResolved(fields: seq<(string, Json)>, frame: Json, reply: Json, show: Json -> string)
    requires IsMapping(fields)
    ensures var resolved := ResolveAsk(Obj(fields), frame, reply, show);
            resolved.Success? && resolved.value.Some? ==>
              IsResolved(Obj(fields), resolved.value.value, frame, reply, show)
  {
    hide Render, FirstFilled, Paths, IsMapping, Get;
  }

  lemma PlainObjectResolved(fields: seq<(string, Json)>, frame: Json, reply: Json, show: Json -> string)
    requires !IsMapping(fields)
    requires var resolved := ResolveFields(Obj(fields), 0, frame, reply, show);
             resolved.Success? && resolved.value.Some? ==>
               && |resolved.value.value| == |fields|
               && forall i :: 0 <= i < |fields| ==>
                    && resolved.value.value[i].0 == fields[i].0
                    && IsResolved(fields[i].1, resolved.value.value[i].1, frame, reply, show)
    ensures var resolved := ResolveAsk(Obj(fields), frame, reply, show);
            resolved.Success? && resolved.value.Some? ==>
              IsResolved(Obj(fields), resolved.value.value, frame, reply, show)
  {
    hide ResolveFields, IsMapping;
  }

  lemma {:induction false} ItemsResolved(value: Json, at: nat, frame: Json, reply: Json, show: Json -> string)
    requires value.Arr? && at <= |value.items|
    ensures var resolved := ResolveItems(value, at, frame, reply, show);
            resolved.Success? && resolved.value.Some? ==>
              && |resolved.value.value| == |value.items| - at
              && forall i :: at <= i < |value.items| ==>
                   IsResolved(value.items[i], resolved.value.value[i - at], frame, reply, show)
    decreases value, 0, |value.items| - at
  {
    hide IsResolved, ResolveAsk;
    if at < |value.items| {
      ResolvesEveryPart(value.items[at], frame, reply, show);
      ItemsResolved(value, at + 1, frame, reply, show);
    }
  }

  lemma {:induction false} FieldsResolved(value: Json, at: nat, frame: Json, reply: Json, show: Json -> string)
    requires value.Obj? && at <= |value.fields|
    ensures var resolved := ResolveFields(value, at, frame, reply, show);
            resolved.Success? && resolved.value.Some? ==>
              && |resolved.value.value| == |value.fields| - at
              && forall i :: at <= i < |value.fields| ==>
                   && resolved.value.value[i - at].0 == value.fields[i].0
                   && IsResolved(value.fields[i].1, resolved.value.value[i - at].1, frame, reply, show)
    decreases value, 0, |value.fields| - at
  {
    hide IsResolved, ResolveAsk;
    if at < |value.fields| {
      ResolvesEveryPart(value.fields[at].1, frame, reply, show);
      FieldsResolved(value, at + 1, frame, reply, show);
    }
  }

  /** The path that answers is the first that leads to something in the reply
      other than an empty string. */
  lemma {:induction false} FirstFilledIsFirst(paths: seq<string>, reply: Json)
    ensures match FirstFilled(paths, reply)
            case None => forall i :: 0 <= i < |paths| ==> Tried(reply, paths[i]).None?
            case Some(found) =>
              exists i :: 0 <= i < |paths| && Tried(reply, paths[i]) == Some(found)
                     && forall j :: 0 <= j < i ==> Tried(reply, paths[j]).None?
  {
    hide Tried;
    if paths != [] && Tried(reply, paths[0]).None? {
      var rest := paths[1..];
      FirstFilledIsFirst(rest, reply);
      if FirstFilled(rest, reply).Some? {
        var found := FirstFilled(rest, reply).value;
        var i :| 0 <= i < |rest| && Tried(reply, rest[i]) == Some(found)
              && forall j :: 0 <= j < i ==> Tried(reply, rest[j]).None?;
        assert Tried(reply, paths[i + 1]) == Some(found);
      }
    }
  }

  /** Somewhere a mapping finds nothing in the reply and has no default. */
  predicate Lapses(value: Json, reply: Json) {
    match value
    case Arr(items) => exists i :: 0 <= i < |items| && Lapses(items[i], reply)
    case Obj(fields) =>
      if IsMapping(fields) then
        var paths := Paths(Get(fields, "from").value);
        paths.Success? && FirstFilled(paths.value, reply).None? && Get(fields, "default").None?
      else exists i :: 0 <= i < |fields| && Lapses(fields[i].1, reply)
    case _ => false
  }

  /** A valid response lapses exactly where one of its mappings does. */
  lemma {:induction false} NoneExactlyWhereAMappingLapses(value: Json, frame: Json, reply: Json, show: Json -> string)
    requires Valid(value)
    ensures ResolveAsk(value, frame, reply, show) == Success(None) <==> Lapses(value, reply)
    decreases value, 1
  {
    hide Valid, Render, IsMapping;
    match value
    case Arr(_) =>
      ItemsResolve(value, 0, frame, reply, show);
      ItemsLapse(value, 0, frame, reply, show);
    case Obj(fields) =>
      if IsMapping(fields) {
        MappingResolves(fields, frame, reply, show);
      } else {
        FieldsResolve(value, 0, frame, reply, show);
        FieldsLapse(value, 0, frame, reply, show);
      }
    case _ =>
  }

  lemma {:induction false} ItemsLapse(value: Json, at: nat, frame: Json, reply: Json, show: Json -> string)
    requires value.Arr? && at <= |value.items| && Valid(value)
    ensures ResolveItems(value, at, frame, reply, show) == Success(None)
            <==> exists i :: at <= i < |value.items| && Lapses(value.items[i], reply)
    decreases value, 0, |value.items| - at
  {
    hide ResolveAsk, Lapses, Valid;
    if at < |value.items| {
      ItemValid(value, at);
      ResolvesWhatIsValid(value.items[at], frame, reply, show);
      ItemsResolve(value, at + 1, frame, reply, show);
      NoneExactlyWhereAMappingLapses(value.items[at], frame, reply, show);
      ItemsLapse(value, at + 1, frame, reply, show);
      assert (exists i :: at <= i < |value.items| && Lapses(value.items[i], reply))
          <==> Lapses(value.items[at], reply)
               || (exists i :: at + 1 <= i < |value.items| && Lapses(value.items[i], reply));
    }
  }

  lemma {:induction false} FieldsLapse(value: Json, at: nat, frame: Json, reply: Json, show: Json -> string)
    requires value.Obj? && at <= |value.fields| && Valid(value) && !IsMapping(value.fields)
    ensures ResolveFields(value, at, frame, reply, show) == Success(None)
            <==> exists i :: at <= i < |value.fields| && Lapses(value.fields[i].1, reply)
    decreases value, 0, |value.fields| - at
  {
    hide ResolveAsk, Lapses, Valid, IsMapping;
    if at < |value.fields| {
      FieldValid(value, at);
      ResolvesWhatIsValid(value.fields[at].1, frame, reply, show);
      FieldsResolve(value, at + 1, frame, reply, show);
      NoneExactlyWhereAMappingLapses(value.fields[at].1, frame, reply, show);
      FieldsLapse(value, at + 1, frame, reply, show);
      assert (exists i :: at <= i < |value.fields| && Lapses(value.fields[i].1, reply))
          <==> Lapses(value.fields[at].1, reply)
               || (exists i :: at + 1 <= i < |value.fields| && Lapses(value.fields[i].1, reply));
    }
  }

  // ----- answering a frame -----

  datatype Outcome = Responds(response: Json) | Refuses(message: string) | Fails(message: string)

  /** Why a frame gets no outcome: it names no declared entry, no binding holds —
      or the configuration could not be used. */
  datatype NoAnswer = NoWord | NoEntry(word: string) | NoBinding(word: string) | BadConfig(why: Unusable)

  /** The text a rendered message is: nothing, when a lone placeholder made it a
      value of another type. */
  function Said(message: Json): string {
    if message.Str? then message.s else ""
  }

  function Rendered(value: Json, frame: Json, show: Json -> string): Result<Json, Unusable> {
    match Render(value, frame, None, show)
    case Failure(e) => Failure(Template(e))
    case Success(rendered) => Success(rendered)
  }

  /** The ruling a reply carries: its `reply` field, or itself. */
  function Ruling(reply: Json): Json {
    if reply.Obj? && Get(reply.fields, "reply").Some? then Get(reply.fields, "reply").value else reply
  }

  /** What became of what an action raises or asks: not taken by the queue at all,
      or — a question — replied to, left unanswered past its window, or its answer
      refused. */
  datatype Heard = Declined(failure: string) | Replied(reply: Json) | Unanswered | AnswerRefused(reason: string)

  /** What an action sends its queue. */
  datatype Sent = Raised(record: Json) | Asked(record: Json, blocking: bool)

  /** What a binding's action makes of a frame, over a queue that answers what it is
      sent with `hear`. */
  function Respond(action: Action, frame: Json, hear: Sent -> Heard, show: Json -> string): Result<Outcome, Unusable> {
    match action
    case Answer(response) =>
      (match Rendered(response, frame, show)
       case Failure(e) => Failure(e)
       case Success(value) => Success(Responds(value)))
    case Refuse(message) =>
      (match Rendered(Str(message), frame, show)
       case Failure(e) => Failure(e)
       case Success(value) => Success(Refuses(Said(value))))
    case Raise(record, after, fail) =>
      (match Rendered(record, frame, show)
       case Failure(e) => Failure(e)
       case Success(raised) => AfterRaising(after, fail, frame, hear(Raised(raised)), show))
    case Ask(record, blocking, response, unanswered) =>
      match Rendered(record, frame, show)
      case Failure(e) => Failure(e)
      case Success(asked) => AfterAsking(response, unanswered, frame, hear(Asked(asked, blocking)), show)
  }

  function AfterRaising(after: Option<Json>, fail: Option<string>, frame: Json, heard: Heard, show: Json -> string)
    : Result<Outcome, Unusable>
  {
    if heard.Declined? then Success(Fails("the queue refused the raised record: " + heard.failure))
    else if after.Some? && fail.None? then
      (match Rendered(after.value, frame, show)
       case Failure(e) => Failure(e)
       case Success(value) => Success(Responds(value)))
    else if after.None? && fail.Some? then
      (match Rendered(Str(fail.value), frame, show)
       case Failure(e) => Failure(e)
       case Success(value) => Success(Fails(Said(value))))
    else Failure(NoOutcome)
  }

  function AfterAsking(response: Json, unanswered: Json, frame: Json, heard: Heard, show: Json -> string)
    : Result<Outcome, Unusable>
  {
    match heard
    case Declined(failure) => Success(Fails("the queue refused the question: " + failure))
    case AnswerRefused(reason) => Success(Fails("the answer was refused: " + reason))
    case Unanswered => FallBack(unanswered, frame, show)
    case Replied(reply) =>
      match ResolveAsk(response, frame, Ruling(reply), show)
      case Failure(e) => Failure(e)
      case Success(Some(value)) => Success(Responds(value))
      case Success(None) => FallBack(unanswered, frame, show)
  }

  function FallBack(unanswered: Json, frame: Json, show: Json -> string): Result<Outcome, Unusable> {
    match Rendered(unanswered, frame, show)
    case Failure(e) => Failure(e)
    case Success(value) => Success(Responds(value))
  }

  function Entry(frames: seq<(string, seq<Binding>)>, word: string): Option<seq<Binding>> {
    if frames == [] then None
    else if frames[0].0 == word then Some(frames[0].1)
    else Entry(frames[1..], word)
  }

  predicate Applies(binding: Binding, frame: Json) {
    binding.when.None? || At(frame, binding.when.value.field) == Some(binding.when.value.equals)
  }

  function FirstThatApplies(bindings: seq<Binding>, frame: Json): Option<Binding> {
    if bindings == [] then None
    else if Applies(bindings[0], frame) then Some(bindings[0])
    else FirstThatApplies(bindings[1..], frame)
  }

  /** The answer to a frame: the entry its selected word names, the first binding
      that holds, and what that binding's action makes of it. */
  function AnswerFrame(config: Config, frame: Json, hear: Sent -> Heard, show: Json -> string): Result<Outcome, NoAnswer> {
    match At(frame, config.select)
    case Some(Str(word)) =>
      (match Entry(config.frames, word)
       case None => Failure(NoEntry(word))
       case Some(bindings) =>
         match FirstThatApplies(bindings, frame)
         case None => Failure(NoBinding(word))
         case Some(binding) =>
           match Respond(binding.action, frame, hear, show)
           case Failure(why) => Failure(BadConfig(why))
           case Success(outcome) => Success(outcome))
    case _ => Failure(NoWord)
  }

  lemma ValidActionResponds(action: Action, frame: Json, hear: Sent -> Heard, show: Json -> string)
    requires ActionValid(action)
    ensures Respond(action, frame, hear, show).Success?
  {
    hide Render, IsRendered, IsResolved, RenderString, IsRaising, IsAsking;
    RespondsAsDeclared(action, frame, hear, show);
  }

  /** A question fails its session exactly where the queue declined it or its
      answer was refused, each said as such; otherwise its answer is made of the
      ruling, and falls back to `unanswered` exactly where there is no reply or a
      mapping of the response lapses on it. */
  lemma AskFallsBack(record: Json, blocking: bool, response: Json, unanswered: Json, frame: Json, hear: Sent -> Heard,
                     show: Json -> string)
    requires ActionValid(Ask(record, blocking, response, unanswered))
    ensures Render(record, frame, None, show).Success?
    ensures var outcome := Respond(Ask(record, blocking, response, unanswered), frame, hear, show);
            var heard := hear(Asked(Render(record, frame, None, show).value, blocking));
            && outcome.Success?
            && (outcome.value.Fails? <==> heard.Declined? || heard.AnswerRefused?)
            && (heard.Declined? ==> outcome.value.message == "the queue refused the question: " + heard.failure)
            && (heard.AnswerRefused? ==> outcome.value.message == "the answer was refused: " + heard.reason)
            && (heard.Unanswered? || heard.Replied? ==>
                  && outcome.value.Responds?
                  && if heard.Unanswered? || Lapses(response, Ruling(heard.reply))
                     then Render(unanswered, frame, None, show) == Success(outcome.value.response)
                     else ResolveAsk(response, frame, Ruling(heard.reply), show)
                          == Success(Some(outcome.value.response)))
  {
    hide Render, ResolveAsk, Lapses, StringsAllowed, MappingsValid, Ruling;
    AllowedRenders(record, frame, show);
    AllowedRenders(unanswered, frame, show);
    var heard := hear(Asked(Render(record, frame, None, show).value, blocking));
    if heard.Replied? {
      RepliedFallsBack(response, unanswered, frame, heard.reply, show);
      hide AfterAsking;
    }
  }

  lemma RepliedFallsBack(response: Json, unanswered: Json, frame: Json, reply: Json, show: Json -> string)
    requires StringsAllowed(response, true) && MappingsValid(response)
    ensures ResolveAsk(response, frame, Ruling(reply), show).Success?
    ensures var resolved := ResolveAsk(response, frame, Ruling(reply), show).value;
            var answered := AfterAsking(response, unanswered, frame, Replied(reply), show);
            if Lapses(response, Ruling(reply)) then answered == FallBack(unanswered, frame, show)
            else resolved.Some? && answered.Success? && answered.value.Responds? && answered.value.response == resolved.value
  {
    hide ResolveAsk, Lapses, StringsAllowed, MappingsValid, Ruling, FallBack, IsResolved;
    ResolvesAsDeclared(response, frame, Ruling(reply), show);
  }

  lemma AllowedRenders(value: Json, frame: Json, show: Json -> string)
    requires StringsAllowed(value, false)
    ensures Rendered(value, frame, show).Success?
  {
    AllowedAnywhere(value);
    RendersExactlyTemplates(value, frame, None, show);
  }

  lemma {:induction false} AllowedAnywhere(value: Json)
    requires StringsAllowed(value, false)
    ensures StringsAllowed(value, true)
  {
    match value
    case Arr(items) =>
      forall i | 0 <= i < |items| ensures StringsAllowed(items[i], true) {
        AllowedAnywhere(items[i]);
      }
    case Obj(fields) =>
      forall i | 0 <= i < |fields| ensures StringsAllowed(fields[i].1, true) {
        AllowedAnywhere(fields[i].1);
      }
    case _ =>
  }

  /** The entry a word names is the first declared under it, and there is none exactly
      where none is. */
  lemma {:induction false} EntryIsDeclared(frames: seq<(string, seq<Binding>)>, word: string)
    ensures match Entry(frames, word)
            case None => forall i :: 0 <= i < |frames| ==> frames[i].0 != word
            case Some(bindings) =>
              exists i ::
                && 0 <= i < |frames|
                && frames[i] == (word, bindings)
                && forall j :: 0 <= j < i ==> frames[j].0 != word
  {
    if frames != [] && frames[0].0 != word {
      var rest := frames[1..];
      EntryIsDeclared(rest, word);
      match Entry(rest, word)
      case None =>
      case Some(bindings) =>
        var i :| 0 <= i < |rest| && rest[i] == (word, bindings) && forall j :: 0 <= j < i ==> rest[j].0 != word;
        assert frames[i + 1] == (word, bindings);
    }
  }

  /** The binding that answers is the first declared one that holds, and there is
      none exactly where no declared one does. */
  lemma {:induction false} AppliedIsFirst(bindings: seq<Binding>, frame: Json)
    ensures match FirstThatApplies(bindings, frame)
            case None => forall i :: 0 <= i < |bindings| ==> !Applies(bindings[i], frame)
            case Some(binding) =>
              exists i ::
                && 0 <= i < |bindings|
                && bindings[i] == binding
                && Applies(binding, frame)
                && forall j :: 0 <= j < i ==> !Applies(bindings[j], frame)
  {
    if bindings != [] && !Applies(bindings[0], frame) {
      var rest := bindings[1..];
      AppliedIsFirst(rest, frame);
      match FirstThatApplies(rest, frame)
      case None =>
      case Some(binding) =>
        var i :| 0 <= i < |rest| && rest[i] == binding && forall j :: 0 <= j < i ==> !Applies(rest[j], frame);
        assert bindings[i + 1] == binding;
    }
  }

  /** The ruling is what the reply's `reply` field holds, where it is an object with
      one, and otherwise the reply itself. */
  lemma RulingIs(reply: Json)
    ensures if reply.Obj? && exists i :: 0 <= i < |reply.fields| && reply.fields[i].0 == "reply"
            then IsField(reply.fields, "reply", Ruling(reply)) else Ruling(reply) == reply
  {
  }

  /** A binding holds that has no condition, or whose field leads in the frame to what
      it is to equal. */
  lemma AppliesIs(binding: Binding, frame: Json)
    ensures Applies(binding, frame)
            <==> binding.when.None?
                 || LeadsTo(frame, Split(binding.when.value.field, '.'), binding.when.value.equals)
  {
    if binding.when.Some? {
      AlongLeadsTo(frame, Split(binding.when.value.field, '.'), binding.when.value.equals);
    }
  }

  /** What a message says: its rendering where that is text, and nothing where a lone
      placeholder made it another value. */
  predicate Says(message: string, said: string, frame: Json, show: Json -> string) {
    match RenderString(message, frame, None, show)
    case Success(Str(text)) => said == text
    case Success(_) => said == ""
    case Failure(_) => false
  }

  /** What raising a record is to come to, once the queue was sent it. */
  predicate IsRaising(after: Option<Json>, fail: Option<string>, frame: Json, heard: Heard, show: Json -> string,
                      outcome: Outcome) {
    if heard.Declined? then outcome == Fails("the queue refused the raised record: " + heard.failure)
    else if after.Some? then outcome.Responds? && IsRendered(after.value, outcome.response, frame, None, show)
    else outcome.Fails? && fail.Some? && Says(fail.value, outcome.message, frame, show)
  }

  /** And asking a question. */
  predicate IsAsking(response: Json, unanswered: Json, frame: Json, heard: Heard, show: Json -> string, outcome: Outcome) {
    match heard
    case Declined(failure) => outcome == Fails("the queue refused the question: " + failure)
    case AnswerRefused(reason) => outcome == Fails("the answer was refused: " + reason)
    case Unanswered => outcome.Responds? && IsRendered(unanswered, outcome.response, frame, None, show)
    case Replied(reply) =>
      && outcome.Responds?
      && if Lapses(response, Ruling(reply)) then IsRendered(unanswered, outcome.response, frame, None, show)
         else IsResolved(response, outcome.response, frame, Ruling(reply), show)
  }

  /** What a declared action is to make of a frame: what it raises or asks is its record
      rendered, and what comes of it what the queue makes of that. */
  ghost predicate IsOutcomeOf(action: Action, frame: Json, hear: Sent -> Heard, show: Json -> string, outcome: Outcome) {
    match action
    case Answer(response) => outcome.Responds? && IsRendered(response, outcome.response, frame, None, show)
    case Refuse(message) => outcome.Refuses? && Says(message, outcome.message, frame, show)
    case Raise(record, after, fail) =>
      exists raised :: && IsRendered(record, raised, frame, None, show)
                       && IsRaising(after, fail, frame, hear(Raised(raised)), show, outcome)
    case Ask(record, blocking, response, unanswered) =>
      exists asked :: && IsRendered(record, asked, frame, None, show)
                      && IsAsking(response, unanswered, frame, hear(Asked(asked, blocking)), show, outcome)
  }

  /** Each action of an accepted binding does what it declares. */
  lemma RespondsAsDeclared(action: Action, frame: Json, hear: Sent -> Heard, show: Json -> string)
    requires ActionValid(action)
    ensures var responded := Respond(action, frame, hear, show);
            responded.Success? && IsOutcomeOf(action, frame, hear, show, responded.value)
  {
    hide Render, StringsAllowed, MappingsValid, IsRendered, RenderString, AfterRaising, AfterAsking, IsRaising, IsAsking;
    match action
    case Answer(response) => RenderedAsDeclared(response, frame, show);
    case Refuse(message) => SaidAsDeclared(message, frame, show);
    case Raise(record, after, fail) =>
      RenderedAsDeclared(record, frame, show);
      RaisesAsDeclared(after, fail, frame, hear(Raised(Rendered(record, frame, show).value)), show);
    case Ask(record, blocking, response, unanswered) =>
      RenderedAsDeclared(record, frame, show);
      AsksAsDeclared(response, unanswered, frame, hear(Asked(Rendered(record, frame, show).value, blocking)), show);
  }

  lemma RaisesAsDeclared(after: Option<Json>, fail: Option<string>, frame: Json, heard: Heard, show: Json -> string)
    requires after.Some? != fail.Some?
    requires after.Some? ==> StringsAllowed(after.value, false)
    requires fail.Some? ==> StringsAllowed(Str(fail.value), false)
    ensures var responded := AfterRaising(after, fail, frame, heard, show);
            responded.Success? && IsRaising(after, fail, frame, heard, show, responded.value)
  {
    hide Render, StringsAllowed, IsRendered, RenderString;
    if after.Some? {
      RenderedAsDeclared(after.value, frame, show);
    } else {
      SaidAsDeclared(fail.value, frame, show);
    }
  }

  lemma AsksAsDeclared(response: Json, unanswered: Json, frame: Json, heard: Heard, show: Json -> string)
    requires StringsAllowed(response, true) && StringsAllowed(unanswered, false) && MappingsValid(response)
    ensures var responded := AfterAsking(response, unanswered, frame, heard, show);
            responded.Success? && IsAsking(response, unanswered, frame, heard, show, responded.value)
  {
    hide StringsAllowed, MappingsValid, AfterAsking, IsAsking;
    if heard.Replied? {
      RepliesAsDeclared(response, unanswered, frame, heard.reply, show);
    } else {
      NoReplyAsDeclared(response, unanswered, frame, heard, show);
    }
  }

  lemma NoReplyAsDeclared(response: Json, unanswered: Json, frame: Json, heard: Heard, show: Json -> string)
    requires StringsAllowed(unanswered, false) && !heard.Replied?
    ensures var responded := AfterAsking(response, unanswered, frame, heard, show);
            responded.Success? && IsAsking(response, unanswered, frame, heard, show, responded.value)
  {
    hide ResolveAsk, Lapses, StringsAllowed, Ruling, IsRendered, IsResolved, FallBack;
    FallsBackAsDeclared(unanswered, frame, show);
  }

  lemma RepliesAsDeclared(response: Json, unanswered: Json, frame: Json, reply: Json, show: Json -> string)
    requires StringsAllowed(response, true) && StringsAllowed(unanswered, false) && MappingsValid(response)
    ensures var responded := AfterAsking(response, unanswered, frame, Replied(reply), show);
            responded.Success? && IsAsking(response, unanswered, frame, Replied(reply), show, responded.value)
  {
    hide ResolveAsk, Lapses, StringsAllowed, MappingsValid, Ruling, IsRendered, IsResolved, FallBack;
    FallsBackAsDeclared(unanswered, frame, show);
    ResolvesAsDeclared(response, frame, Ruling(reply), show);
  }

  lemma ResolvesAsDeclared(response: Json, frame: Json, reply: Json, show: Json -> string)
    requires StringsAllowed(response, true) && MappingsValid(response)
    ensures var resolved := ResolveAsk(response, frame, reply, show);
            && resolved.Success?
            && if Lapses(response, reply) then resolved.value.None?
               else resolved.value.Some? && IsResolved(response, resolved.value.value, frame, reply, show)
  {
    hide ResolveAsk, Lapses, StringsAllowed, MappingsValid, IsResolved;
    ResolvesWhatIsValid(response, frame, reply, show);
    NoneExactlyWhereAMappingLapses(response, frame, reply, show);
    ResolvesEveryPart(response, frame, reply, show);
  }

  lemma FallsBackAsDeclared(unanswered: Json, frame: Json, show: Json -> string)
    requires StringsAllowed(unanswered, false)
    ensures var outcome := FallBack(unanswered, frame, show);
            && outcome.Success? && outcome.value.Responds?
            && IsRendered(unanswered, outcome.value.response, frame, None, show)
  {
    hide Render, StringsAllowed, IsRendered;
    RenderedAsDeclared(unanswered, frame, show);
  }

  lemma RenderedAsDeclared(value: Json, frame: Json, show: Json -> string)
    requires StringsAllowed(value, false)
    ensures Rendered(value, frame, show).Success? && IsRendered(value, Rendered(value, frame, show).value, frame, None, show)
  {
    AllowedRenders(value, frame, show);
    RendersEveryString(value, frame, None, show);
  }

  lemma SaidAsDeclared(message: string, frame: Json, show: Json -> string)
    requires StringsAllowed(Str(message), false)
    ensures var said := Rendered(Str(message), frame, show);
            said.Success? && Says(message, Said(said.value), frame, show)
  {
    AllowedRenders(Str(message), frame, show);
    hide RenderString;
  }

  /** What an accepted configuration makes of a frame: the first entry its selected
      word names, the first of that entry's bindings that holds, and what that binding
      declares; and nothing exactly where it selects no word, names no entry, or no
      binding of the entry holds. */
  ghost predicate IsAnswerTo(config: Config, frame: Json, hear: Sent -> Heard, show: Json -> string, answer: Result<Outcome, NoAnswer>) {
    match answer
    case Failure(NoWord) => forall word :: !LeadsTo(frame, Split(config.select, '.'), Str(word))
    case Failure(NoEntry(word)) =>
      LeadsTo(frame, Split(config.select, '.'), Str(word)) && forall i :: 0 <= i < |config.frames| ==> config.frames[i].0 != word
    case Failure(NoBinding(word)) =>
      && LeadsTo(frame, Split(config.select, '.'), Str(word))
      && exists bindings :: IsEntry(config.frames, word, bindings)
                            && forall j :: 0 <= j < |bindings| ==> !Applies(bindings[j], frame)
    case Failure(BadConfig(_)) => false
    case Success(outcome) =>
      exists word: string, bindings: seq<Binding>, j: nat ::
        && LeadsTo(frame, Split(config.select, '.'), Str(word)) && IsEntry(config.frames, word, bindings)
        && IsFirstThatApplies(bindings, frame, j) && IsOutcomeOf(bindings[j].action, frame, hear, show, outcome)
  }

  predicate IsEntry(frames: seq<(string, seq<Binding>)>, word: string, bindings: seq<Binding>) {
    exists i :: 0 <= i < |frames| && frames[i] == (word, bindings) && forall j :: 0 <= j < i ==> frames[j].0 != word
  }

  predicate IsFirstThatApplies(bindings: seq<Binding>, frame: Json, j: nat) {
    && j < |bindings|
    && Applies(bindings[j], frame)
    && forall i :: 0 <= i < j ==> !Applies(bindings[i], frame)
  }

  lemma AnswersByItsBinding(config: Config, frame: Json, hear: Sent -> Heard, show: Json -> string)
    requires CodecValid(config)
    ensures IsAnswerTo(config, frame, hear, show, AnswerFrame(config, frame, hear, show))
  {
    hide Applies, IsOutcomeOf, LeadsTo, Respond, Along, IsEntry, IsFirstThatApplies, Split;
    var keys := Split(config.select, '.');
    forall word
      ensures At(frame, config.select) == Some(Str(word)) <==> LeadsTo(frame, keys, Str(word))
    {
      AlongLeadsTo(frame, keys, Str(word));
    }
    match At(frame, config.select)
    case Some(Str(word)) =>
      EntryIsDeclared(config.frames, word);
      if Entry(config.frames, word).Some? {
        EntryAnswers(config, frame, hear, show, word);
      }
    case _ =>
  }

  lemma EntryAnswers(config: Config, frame: Json, hear: Sent -> Heard, show: Json -> string, word: string)
    requires CodecValid(config) && Entry(config.frames, word).Some?
    ensures var bindings := Entry(config.frames, word).value;
            && IsEntry(config.frames, word, bindings)
            && match FirstThatApplies(bindings, frame)
               case None => forall j :: 0 <= j < |bindings| ==> !Applies(bindings[j], frame)
               case Some(binding) =>
                 var responded := Respond(binding.action, frame, hear, show);
                 && responded.Success?
                 && exists j: nat :: IsFirstThatApplies(bindings, frame, j)
                                     && IsOutcomeOf(bindings[j].action, frame, hear, show, responded.value)
  {
    hide Applies, IsOutcomeOf, Respond, ActionValid;
    EntryIsDeclared(config.frames, word);
    var bindings := Entry(config.frames, word).value;
    AppliedIsFirst(bindings, frame);
    var chosen := FirstThatApplies(bindings, frame);
    if chosen.Some? {
      var j :| 0 <= j < |bindings| && bindings[j] == chosen.value && Applies(bindings[j], frame)
               && forall i :: 0 <= i < j ==> !Applies(bindings[i], frame);
      assert BindingValid(bindings[j]);
      RespondsAsDeclared(chosen.value.action, frame, hear, show);
      assert IsFirstThatApplies(bindings, frame, j);
    }
  }

  /** A configuration that was accepted never fails on a frame or a reply: a frame
      goes without an outcome only because of what it holds itself. */
  lemma AcceptedConfigAnswers(config: Config, frame: Json, hear: Sent -> Heard, show: Json -> string)
    requires CodecValid(config)
    ensures var answer := AnswerFrame(config, frame, hear, show);
            answer.Success? || !answer.error.BadConfig?
  {
    match At(frame, config.select)
    case Some(Str(word)) =>
      EntryIsDeclared(config.frames, word);
      if Entry(config.frames, word).Some? {
        var bindings := Entry(config.frames, word).value;
        AppliedIsFirst(bindings, frame);
        var chosen := FirstThatApplies(bindings, frame);
        if chosen.Some? {
          assert BindingValid(chosen.value);
          ValidActionResponds(chosen.value.action, frame, hear, show);
        }
      }
    case _ =>
  }
}
