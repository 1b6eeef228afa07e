/** The gateway's conservative repair of an inbound request body. */
module Payload {
  import opened Wrappers
  import Text
  import Json

  /** A decoded JSON value, or the few other things a Python caller may pass. */
  datatype Value =
    | Null
    | Bool(b: bool)
    | Number(n: real)
    | Str(s: string)
    | List(items: seq<Value>)
    | Tuple(items: seq<Value>)
    | Object(fields: map<string, Value>)
    | Other(kind: string)

  type Fields = map<string, Value>

  /**
   The libraries, none of them seen inside: `json.dumps`, `str`, the value that
   `json.loads` gives a text it accepts, `ast.literal_eval`, and what JSON makes
   of a value that is not quite JSON (a tuple, a key that is no string).
   */
  datatype Codec = Codec(
    dumps: Value -> Option<string>,
    show: Value -> string,
    decode: string -> Value,
    eval: string -> Option<Value>,
    canon: Value -> Value)

  /** What is written as JSON parses as JSON. */
  ghost predicate Parses(c: Codec) {
    forall v :: c.dumps(v).Some? ==> Json.Loads(c.dumps(v).value)
  }

  /** And parses as what was written. */
  ghost predicate Sound(c: Codec) {
    && Parses(c)
    && (forall v :: c.dumps(v).Some? ==> c.decode(c.dumps(v).value) == c.canon(v))
    && c.decode("{}") == c.canon(Object(map[]))
  }

  datatype Note =
    | ContentUnwrapped | ContentEncoded | ContentCoerced
    | CallsWrapped | CallsListed
    | ArgumentsEncoded | ArgumentsRepaired | ArgumentsEmptied

  type Repair = Value -> (Value, seq<Note>)

  function Field(m: Fields, key: string): Value {
    if key in m then m[key] else Null
  }

  predicate Textual(v: Value) { v.Str? || v.List? || v.Null? }

  // ----- structure: content and tool_calls -----

  function RepairContent(c: Codec, m: Fields): (Fields, seq<Note>) {
    var content := Field(m, "content");
    if Textual(content) then (m, [])
    else if content.Object? then
      var keys := content.fields.Keys;
      var inner := if "text" in content.fields then content.fields["text"] else Field(content.fields, "content");
      if (keys == {"text"} || keys == {"content"}) && Textual(inner) then (m["content" := inner], [ContentUnwrapped])
      else
        var encoded := c.dumps(content);
        (m["content" := Str(if encoded.Some? then encoded.value else c.show(content))], [ContentEncoded])
    else (m["content" := Str(c.show(content))], [ContentCoerced])
  }

  function RepairCalls(m: Fields): (Fields, seq<Note>) {
    var calls := Field(m, "tool_calls");
    if calls.Object? then (m["tool_calls" := List([calls])], [CallsWrapped])
    else if calls.Tuple? then (m["tool_calls" := List(calls.items)], [CallsListed])
    else (m, [])
  }

  function RepairStructure(c: Codec, message: Value): (Value, seq<Note>) {
    if !message.Object? then (message, [])
    else
      var (m1, n1) := RepairContent(c, message.fields);
      var (m2, n2) := RepairCalls(m1);
      (Object(m2), n1 + n2)
  }

  // ----- tool-call arguments -----

  /** `_repair_literal`. */
  function RepairLiteral(c: Codec, raw: string): Option<string> {
    match c.eval(raw)
    case None => None
    case Some(v) => if v.Object? || v.List? then c.dumps(v) else None
  }

  function RepairArguments(c: Codec, empty: bool, arguments: Value): (Value, Option<Note>) {
    match arguments
    case Str(s) =>
      if Text.Strip(s) == "" then (if empty then (Str("{}"), Some(ArgumentsEmptied)) else (arguments, None))
      else if Json.Loads(s) then (arguments, None)
      else if RepairLiteral(c, s).Some? then (Str(RepairLiteral(c, s).value), Some(ArgumentsRepaired))
      else (arguments, None)
    case List(_) => Encoded(c, arguments)
    case Object(_) => Encoded(c, arguments)
    case _ => (arguments, None)
  }

  function Encoded(c: Codec, v: Value): (Value, Option<Note>) {
    if c.dumps(v).Some? then (Str(c.dumps(v).value), Some(ArgumentsEncoded)) else (v, None)
  }

  /** The call has arguments to look at. */
  predicate HasArguments(call: Value) {
    && call.Object? && "function" in call.fields && call.fields["function"].Object?
    && "arguments" in call.fields["function"].fields
  }

  function ArgumentsOf(call: Value): Value
    requires HasArguments(call)
  {
    call.fields["function"].fields["arguments"]
  }

  function WithArguments(call: Value, arguments: Value): Value
    requires HasArguments(call)
  {
    Object(call.fields["function" := Object(call.fields["function"].fields["arguments" := arguments])])
  }

  function RepairCall(c: Codec, empty: bool, call: Value): (Value, seq<Note>) {
    if !HasArguments(call) then (call, [])
    else
      match RepairArguments(c, empty, ArgumentsOf(call))
      case (_, None) => (call, [])
      case (value, Some(note)) => (WithArguments(call, value), [note])
  }

  function CallRepair(c: Codec, empty: bool): Repair { call => RepairCall(c, empty, call) }

  function RepairMessageCalls(c: Codec, empty: bool, message: Value): (Value, seq<Note>) {
    if !message.Object? || !Field(message.fields, "tool_calls").List? then (message, [])
    else
      var calls, repair := Field(message.fields, "tool_calls").items, CallRepair(c, empty);
      if Notes(repair, calls) == [] then (message, [])
      else (Object(message.fields["tool_calls" := List(Results(repair, calls))]), Notes(repair, calls))
  }

  // ----- item by item -----

  function Results(f: Repair, xs: seq<Value>): seq<Value>
    decreases |xs|
  {
    if xs == [] then [] else Results(f, xs[..|xs| - 1]) + [f(xs[|xs| - 1]).0]
  }

  function Notes(f: Repair, xs: seq<Value>): seq<Note>
    decreases |xs|
  {
    if xs == [] then [] else Notes(f, xs[..|xs| - 1]) + f(xs[|xs| - 1]).1
  }

  lemma {:induction false} ResultsAre(f: Repair, xs: seq<Value>)
    ensures |Results(f, xs)| == |xs|
    ensures forall i :: 0 <= i < |xs| ==> Results(f, xs)[i] == f(xs[i]).0
    decreases |xs|
  {
    if xs != [] { ResultsAre(f, xs[..|xs| - 1]); }
  }

  /** A repair that speaks exactly when it changes something. */
  ghost predicate Candid(f: Repair) {
    forall x :: CandidAt(f, x)
  }

  /** A repair that has nothing left to do on its own result. */
  ghost predicate Settles(f: Repair) {
    forall x :: SettlesAt(f, x)
  }

  predicate CandidAt(f: Repair, x: Value) { f(x).1 == [] <==> f(x).0 == x }

  predicate SettlesAt(f: Repair, x: Value) { IsQuiet(f, f(x).0) }

  /** There is nothing to repair in `x`. */
  predicate IsQuiet(f: Repair, x: Value) { f(x) == (x, []) }

  /** After `g`, what `f` had nothing to repair in still holds nothing for it. */
  predicate StaysQuiet(f: Repair, g: Repair, x: Value) { IsQuiet(f, x) ==> IsQuiet(f, g(x).0) }

  lemma {:induction false} CandidOnAll(f: Repair, xs: seq<Value>)
    requires Candid(f)
    ensures Notes(f, xs) == [] <==> Results(f, xs) == xs
    decreases |xs|
  {
    if xs != [] {
      var n := |xs| - 1;
      CandidOnAll(f, xs[..n]);
      assert CandidAt(f, xs[n]);
      ResultsAre(f, xs[..n]);
      assert xs == xs[..n] + [xs[n]];
    }
  }

  lemma {:induction false} SettlesOnAll(f: Repair, xs: seq<Value>)
    requires Settles(f)
    ensures Results(f, Results(f, xs)) == Results(f, xs) && Notes(f, Results(f, xs)) == []
    decreases |xs|
  {
    if xs != [] {
      var n := |xs| - 1;
      SettlesOnAll(f, xs[..n]);
      assert SettlesAt(f, xs[n]);
      assert Results(f, xs)[..|Results(f, xs)| - 1] == Results(f, xs[..n]);
    }
  }

  // ----- the payload -----

  function StructureRepair(c: Codec): Repair { message => RepairStructure(c, message) }

  function ArgumentRepair(c: Codec, empty: bool): Repair { message => RepairMessageCalls(c, empty, message) }

  /** One pass over the messages of a payload. */
  function Pass(f: Repair, p: Fields): (Fields, seq<Note>) {
    if !Field(p, "messages").List? then (p, [])
    else
      var messages := p["messages"].items;
      if Notes(f, messages) == [] then (p, []) else (p["messages" := List(Results(f, messages))], Notes(f, messages))
  }

  /** `normalize_inbound_payload`. */
  function Normalize(c: Codec, arguments: bool, empty: bool, p: Fields): (Fields, seq<Note>) {
    var (p1, n1) := Pass(StructureRepair(c), p);
    if !arguments then (p1, n1)
    else
      var (p2, n2) := Pass(ArgumentRepair(c, empty), p1);
      (p2, n1 + n2)
  }

  // ----- structure repairs are candid and settle -----

  lemma ContentIsCandid(c: Codec, m: Fields)
    ensures RepairContent(c, m).1 == [] <==> RepairContent(c, m).0 == m
    ensures Textual(Field(RepairContent(c, m).0, "content"))
    ensures Textual(Field(m, "content")) <==> RepairContent(c, m) == (m, [])
  {
  }

  lemma CallsAreCandid(m: Fields)
    ensures RepairCalls(m).1 == [] <==> RepairCalls(m).0 == m
    ensures RepairCalls(RepairCalls(m).0) == (RepairCalls(m).0, [])
    ensures Field(RepairCalls(m).0, "content") == Field(m, "content")
  {
  }

  lemma StructureIsCandid(c: Codec, message: Value)
    ensures RepairStructure(c, message).1 == [] <==> RepairStructure(c, message).0 == message
    ensures RepairStructure(c, RepairStructure(c, message).0) == (RepairStructure(c, message).0, [])
  {
    if message.Object? {
      var m := message.fields;
      var (m1, n1) := RepairContent(c, m);
      var m2 := RepairCalls(m1).0;
      ContentIsCandid(c, m);
      CallsAreCandid(m1);
      ContentIsCandid(c, m2);
      assert RepairContent(c, m2) == (m2, []) && RepairCalls(m2) == (m2, []);
      var none: seq<Note> := [];
      assert none + none == none;
    }
  }

  // ----- argument repairs, too -----

  lemma ArgumentsAreCandid(c: Codec, empty: bool, v: Value)
    requires Parses(c)
    ensures RepairArguments(c, empty, v).1.None? <==> RepairArguments(c, empty, v).0 == v
    ensures RepairArguments(c, empty, RepairArguments(c, empty, v).0) == (RepairArguments(c, empty, v).0, None)
  {
    var v' := RepairArguments(c, empty, v).0;
    ChangedIsText(c, empty, v);
    if v' != v { TextIsKept(c, empty, v'); }
  }

  lemma ChangedIsText(c: Codec, empty: bool, v: Value)
    requires Parses(c)
    ensures RepairArguments(c, empty, v).1.None? <==> RepairArguments(c, empty, v).0 == v
    ensures
      var v' := RepairArguments(c, empty, v).0;
      v' != v ==> v'.Str? && Json.Loads(v'.s)
  {
    match v
    case Str(s) => TextIsRepaired(c, empty, s);
    case _ =>
  }

  /** A text comes out as itself, or as one that loads, which it did not. */
  lemma TextIsRepaired(c: Codec, empty: bool, s: string)
    requires Parses(c)
    ensures
      var (v', note) := RepairArguments(c, empty, Str(s));
      (note.None? && v' == Str(s)) || (note.Some? && v'.Str? && Json.Loads(v'.s) && v'.s != s)
  {
    var (v', note) := RepairArguments(c, empty, Str(s));
    if Text.Strip(s) == "" {
      if empty {
        EmptyObjectLoads();
        LoadsIsNotBlank("{}");
      }
    } else if note.Some? {
      assert !Json.Loads(s) && v' == Str(RepairLiteral(c, s).value);
      LiteralLoads(c, s);
    }
  }

  lemma LiteralLoads(c: Codec, s: string)
    requires Parses(c) && RepairLiteral(c, s).Some?
    ensures Json.Loads(RepairLiteral(c, s).value)
  {
  }

  lemma TextIsKept(c: Codec, empty: bool, v: Value)
    requires v.Str? && Json.Loads(v.s)
    ensures RepairArguments(c, empty, v) == (v, None)
  {
    LoadsIsNotBlank(v.s);
  }

  lemma EmptyObjectLoads()
    ensures Json.Loads("{}")
  {
    assert Json.SkipWs("{}", 0) == 0 && Json.SkipWs("{}", 1) == 1 && Json.SkipWs("{}", 2) == 2;
    assert Json.ScanValue("{}", 0) == Some(2);
  }

  lemma LoadsIsNotBlank(s: string)
    requires Json.Loads(s)
    ensures Text.Strip(s) != ""
  {
    var i := Json.SkipWs(s, 0);
    assert !Text.IsSpace(s[i]);
    if Text.Strip(s) == "" { Text.BlankIsAllSpace(s); }
  }

  // ----- what a repair means -----

  /** What the caller meant by arguments that are not JSON text, where that can be told. */
  function Meant(c: Codec, empty: bool, v: Value): Option<Value> {
    match v
    case List(_) => Some(v)
    case Object(_) => Some(v)
    case Str(s) =>
      if Text.Strip(s) == "" then (if empty then Some(Object(map[])) else None)
      else if c.eval(s).Some? && (c.eval(s).value.Object? || c.eval(s).value.List?) then c.eval(s)
      else None
    case _ => None
  }

  /** A string of JSON that is read as `x`. */
  predicate Conveys(c: Codec, v: Value, x: Value) {
    v.Str? && Json.Loads(v.s) && c.decode(v.s) == c.canon(x)
  }

  predicate Writable(c: Codec, v: Value, x: Value) {
    (v.Str? && Text.Strip(v.s) == "") || c.dumps(x).Some?
  }

  /**
   JSON text is left alone; anything else whose meaning can be told, and
   written as JSON, is sent on as JSON text of that meaning; the rest is left alone.
   */
  lemma RepairMeans(c: Codec, empty: bool, v: Value)
    requires Sound(c)
    ensures
      var repaired, meant := RepairArguments(c, empty, v).0, Meant(c, empty, v);
      if !(v.Str? && Json.Loads(v.s)) && meant.Some? && Writable(c, v, meant.value)
      then Conveys(c, repaired, meant.value)
      else repaired == v
  {
    EmptyObjectLoads();
    if v.Str? && Json.Loads(v.s) { LoadsIsNotBlank(v.s); }
  }

  /** `content` is an object around one text. */
  predicate Wraps(content: Value, text: Value) {
    && content.Object? && Textual(text)
    && (content.fields == map["text" := text] || content.fields == map["content" := text])
  }

  /** A wrapped text comes out as itself. */
  lemma WrappedTextIsUnwrapped(c: Codec, m: Fields, text: Value)
    requires Wraps(Field(m, "content"), text)
    ensures Field(RepairContent(c, m).0, "content") == text
  {
    var fields := Field(m, "content").fields;
    assert fields.Keys == {"text"} || fields.Keys == {"content"};
    assert "text" in fields <==> "content" !in fields;
  }

  /** Any other object comes out as JSON text if it can, and anything else as plain text. */
  lemma OtherContentIsWritten(c: Codec, m: Fields)
    requires !Textual(Field(m, "content"))
    requires forall text :: !Wraps(Field(m, "content"), text)
    ensures
      var content, written := Field(m, "content"), Field(RepairContent(c, m).0, "content");
      written == Str(if content.Object? && c.dumps(content).Some? then c.dumps(content).value else c.show(content))
  {
    var content := Field(m, "content");
    if content.Object? {
      var fields := content.fields;
      if fields.Keys == {"text"} {
        assert "text" in fields && "content" !in fields;
        SameMap(fields, map["text" := fields["text"]]);
        assert !Wraps(content, fields["text"]);
      }
      if fields.Keys == {"content"} {
        assert "content" in fields && "text" !in fields;
        SameMap(fields, map["content" := fields["content"]]);
        assert !Wraps(content, fields["content"]);
      }
    }
  }

  // ----- call by call, message by message -----

  lemma CallIsCandid(c: Codec, empty: bool, call: Value)
    requires Parses(c)
    ensures RepairCall(c, empty, call).1 == [] <==> RepairCall(c, empty, call).0 == call
    ensures RepairCall(c, empty, RepairCall(c, empty, call).0) == (RepairCall(c, empty, call).0, [])
  {
    if HasArguments(call) {
      var v := ArgumentsOf(call);
      ArgumentsAreCandid(c, empty, v);
      var v' := RepairArguments(c, empty, v).0;
      assert ArgumentsOf(WithArguments(call, v')) == v';
    }
  }

  lemma CallsSettle(c: Codec, empty: bool)
    requires Parses(c)
    ensures Candid(CallRepair(c, empty)) && Settles(CallRepair(c, empty))
  {
    var f := CallRepair(c, empty);
    forall x ensures CandidAt(f, x) && SettlesAt(f, x) {
      CallIsCandid(c, empty, x);
    }
  }

  lemma MessageIsCandid(c: Codec, empty: bool, message: Value)
    requires Parses(c)
    ensures RepairMessageCalls(c, empty, message).1 == [] <==> RepairMessageCalls(c, empty, message).0 == message
    ensures RepairMessageCalls(c, empty, RepairMessageCalls(c, empty, message).0)
         == (RepairMessageCalls(c, empty, message).0, [])
  {
    if message.Object? && Field(message.fields, "tool_calls").List? {
      var calls, f := Field(message.fields, "tool_calls").items, CallRepair(c, empty);
      CallsSettle(c, empty);
      CandidOnAll(f, calls);
      SettlesOnAll(f, calls);
    }
  }

  /** Repairing arguments leaves nothing for the structural repair to do. */
  lemma StructureStays(c: Codec, empty: bool, message: Value)
    requires RepairStructure(c, message) == (message, [])
    ensures RepairStructure(c, RepairMessageCalls(c, empty, message).0) == (RepairMessageCalls(c, empty, message).0, [])
  {
    if message.Object? {
      var m, m' := message.fields, RepairMessageCalls(c, empty, message).0.fields;
      ContentIsCandid(c, m);
      ContentIsCandid(c, m');
      CallsAreCandid(RepairContent(c, m).0);
      assert Field(m', "content") == Field(m, "content");
    }
  }

  lemma RepairsSettle(c: Codec, empty: bool)
    ensures Candid(StructureRepair(c)) && Settles(StructureRepair(c))
    ensures Parses(c) ==> Candid(ArgumentRepair(c, empty)) && Settles(ArgumentRepair(c, empty))
  {
    var f := StructureRepair(c);
    forall x ensures CandidAt(f, x) && SettlesAt(f, x) {
      StructureIsCandid(c, x);
    }
    if Parses(c) {
      var g := ArgumentRepair(c, empty);
      forall x ensures CandidAt(g, x) && SettlesAt(g, x) {
        MessageIsCandid(c, empty, x);
      }
    }
  }

  lemma RepairsStayQuiet(c: Codec, empty: bool)
    ensures forall x :: StaysQuiet(StructureRepair(c), ArgumentRepair(c, empty), x)
  {
    forall x ensures StaysQuiet(StructureRepair(c), ArgumentRepair(c, empty), x) {
      if IsQuiet(StructureRepair(c), x) { StructureStays(c, empty, x); }
    }
  }

  // ----- a pass -----

  lemma PassIsCandid(f: Repair, p: Fields)
    requires Candid(f)
    ensures Pass(f, p).1 == [] <==> Pass(f, p).0 == p
  {
    if Field(p, "messages").List? { CandidOnAll(f, p["messages"].items); }
  }

  lemma PassSettles(f: Repair, p: Fields)
    requires Candid(f) && Settles(f)
    ensures Pass(f, Pass(f, p).0) == (Pass(f, p).0, [])
  {
    if Field(p, "messages").List? {
      CandidOnAll(f, p["messages"].items);
      SettlesOnAll(f, p["messages"].items);
    }
  }

  lemma {:induction false} QuietAfter(f: Repair, g: Repair, xs: seq<Value>)
    requires forall x :: StaysQuiet(f, g, x)
    requires Candid(f) && Notes(f, xs) == []
    ensures Notes(f, Results(g, xs)) == []
    decreases |xs|
  {
    if xs != [] {
      var n := |xs| - 1;
      assert CandidAt(f, xs[n]) && StaysQuiet(f, g, xs[n]);
      assert IsQuiet(f, xs[n]);
      QuietAfter(f, g, xs[..n]);
      assert Results(g, xs)[..|Results(g, xs)| - 1] == Results(g, xs[..n]);
    }
  }

  /** The second pass leaves nothing for the first to do. */
  lemma PassStaysQuiet(f: Repair, g: Repair, p: Fields)
    requires forall x :: StaysQuiet(f, g, x)
    requires Candid(f) && Pass(f, p).1 == []
    ensures Pass(f, Pass(g, p).0) == (Pass(g, p).0, [])
  {
    if Field(p, "messages").List? { QuietAfter(f, g, p["messages"].items); }
  }

  // ----- the whole repair -----

  /** Notes are given exactly when something changed. */
  lemma NotesIffChanged(c: Codec, arguments: bool, empty: bool, p: Fields)
    requires Parses(c)
    ensures Normalize(c, arguments, empty, p).1 == [] ==> Normalize(c, arguments, empty, p).0 == p
    ensures Normalize(c, arguments, empty, p).0 == p ==> Normalize(c, arguments, empty, p).1 == []
  {
    var f, g := StructureRepair(c), ArgumentRepair(c, empty);
    RepairsSettle(c, empty);
    var p1 := Pass(f, p).0;
    PassIsCandid(f, p);
    PassIsCandid(g, p1);
    if arguments && Pass(g, p1).0 == p {
      PassSettles(f, p);
      RepairsStayQuiet(c, empty);
      PassStaysQuiet(f, g, p1);
    }
  }

  /** Repairing twice is repairing once, and the second time says nothing. */
  lemma NormalizeIsIdempotent(c: Codec, arguments: bool, empty: bool, p: Fields)
    requires Parses(c)
    ensures
      var repaired := Normalize(c, arguments, empty, p).0;
      Normalize(c, arguments, empty, repaired) == (repaired, [])
  {
    var f, g := StructureRepair(c), ArgumentRepair(c, empty);
    RepairsSettle(c, empty);
    var p1 := Pass(f, p).0;
    PassSettles(f, p);
    if arguments {
      RepairsStayQuiet(c, empty);
      PassStaysQuiet(f, g, p1);
      PassSettles(g, p1);
    }
  }

  // ----- what a repair leaves alone -----

  /** The same call, or the same with arguments that are now a string of JSON. */
  predicate KeptCall(a: Value, b: Value) {
    || a == b
    || (SameButArguments(a, b) && HasArguments(b) && ArgumentsOf(b).Str? && Json.Loads(ArgumentsOf(b).s))
  }

  predicate KeptEach(xs: seq<Value>, ys: seq<Value>) {
    |xs| == |ys| && forall i :: 0 <= i < |xs| ==> KeptCall(xs[i], ys[i])
  }

  /** The same calls in the same order, as a list whatever they came in. */
  predicate KeptCalls(a: Value, b: Value) {
    match a
    case List(xs) => b.List? && KeptEach(xs, b.items)
    case Tuple(xs) => b.List? && KeptEach(xs, b.items)
    case Object(_) => b.List? && KeptEach([a], b.items)
    case _ => b == a
  }

  predicate KeptContent(a: Value, b: Value) {
    if Textual(a) then b == a else Textual(b)
  }

  /** The same message but for its content and its calls, and those as little changed as can be. */
  predicate KeptMessage(a: Value, b: Value) {
    if !a.Object? then b == a
    else
      && b.Object? && b.fields.Keys == a.fields.Keys
      && (forall k :: k in a.fields && k != "content" && k != "tool_calls" ==> b.fields[k] == a.fields[k])
      && KeptContent(Field(a.fields, "content"), Field(b.fields, "content"))
      && KeptCalls(Field(a.fields, "tool_calls"), Field(b.fields, "tool_calls"))
  }

  predicate KeptMessages(xs: seq<Value>, ys: seq<Value>) {
    |xs| == |ys| && forall i :: 0 <= i < |xs| ==> KeptMessage(xs[i], ys[i])
  }

  /** The same payload but for its messages, and as many of those, in order. */
  predicate KeptPayload(p: Fields, q: Fields) {
    if !Field(p, "messages").List? then q == p
    else
      && q.Keys == p.Keys && (forall k :: k in p && k != "messages" ==> q[k] == p[k])
      && q["messages"].List? && KeptMessages(p["messages"].items, q["messages"].items)
  }

  lemma CallIsKept(c: Codec, empty: bool, call: Value)
    requires Parses(c)
    ensures KeptCall(call, RepairCall(c, empty, call).0)
  {
    EmptyObjectLoads();
    if HasArguments(call) {
      ReplacedArguments(call, RepairArguments(c, empty, ArgumentsOf(call)).0);
    }
  }

  lemma CallsAreKept(c: Codec, empty: bool, calls: seq<Value>)
    requires Parses(c)
    ensures KeptEach(calls, Results(CallRepair(c, empty), calls))
  {
    ResultsAre(CallRepair(c, empty), calls);
    forall i | 0 <= i < |calls| ensures KeptCall(calls[i], Results(CallRepair(c, empty), calls)[i]) {
      CallIsKept(c, empty, calls[i]);
    }
  }

  lemma StructureIsKept(c: Codec, message: Value)
    ensures KeptMessage(message, RepairStructure(c, message).0)
  {
    if message.Object? {
      var m1 := RepairContent(c, message.fields).0;
      ContentIsCandid(c, message.fields);
      CallsAreCandid(m1);
      assert Field(m1, "tool_calls") == Field(message.fields, "tool_calls");
      KeptThemselves(message);
    }
  }

  lemma KeptThemselves(message: Value)
    requires message.Object?
    ensures
      var calls := Field(message.fields, "tool_calls");
      KeptEach([calls], [calls]) && ((calls.List? || calls.Tuple?) ==> KeptEach(calls.items, calls.items))
  {
  }

  /** Structural repair wraps or lists the calls, but does not touch them. */
  lemma StructureKeepsCalls(c: Codec, message: Value)
    requires message.Object? && Field(RepairStructure(c, message).0.fields, "tool_calls").List?
    ensures
      var a, xs := Field(message.fields, "tool_calls"), Field(RepairStructure(c, message).0.fields, "tool_calls").items;
      if a.Object? then xs == [a] else (a.List? || a.Tuple?) && xs == a.items
  {
    assert Field(RepairContent(c, message.fields).0, "tool_calls") == Field(message.fields, "tool_calls");
  }

  /** Both repairs in turn keep a message. */
  lemma MessageIsKept(c: Codec, empty: bool, message: Value)
    requires Parses(c)
    ensures KeptMessage(message, RepairMessageCalls(c, empty, RepairStructure(c, message).0).0)
  {
    StructureIsKept(c, message);
    var s := RepairStructure(c, message).0;
    if s.Object? && Field(s.fields, "tool_calls").List? {
      var calls := Field(s.fields, "tool_calls").items;
      StructureKeepsCalls(c, message);
      CallsAreKept(c, empty, calls);
      CallsReplaced(message, s, Results(CallRepair(c, empty), calls));
    }
  }

  lemma CallsReplaced(a: Value, s: Value, calls: seq<Value>)
    requires a.Object? && KeptMessage(a, s) && "tool_calls" in s.fields
    requires KeptCalls(Field(a.fields, "tool_calls"), List(calls))
    ensures KeptMessage(a, Object(s.fields["tool_calls" := List(calls)]))
  {
    var b := s.fields["tool_calls" := List(calls)];
    assert b.Keys == s.fields.Keys && Field(b, "content") == Field(s.fields, "content");
  }

  lemma PassIs(f: Repair, p: Fields)
    requires Candid(f) && Field(p, "messages").List?
    ensures Pass(f, p).0 == p["messages" := List(Results(f, p["messages"].items))]
  {
    CandidOnAll(f, p["messages"].items);
  }

  /**
   Conservation: every field but the messages, the number and order of
   messages, every field of a message but its content and calls, the number
   and order of calls, and everything in a call but its arguments.
   */
  lemma NormalizeKeeps(c: Codec, arguments: bool, empty: bool, p: Fields)
    requires Parses(c)
    ensures KeptPayload(p, Normalize(c, arguments, empty, p).0)
  {
    var f, g := StructureRepair(c), ArgumentRepair(c, empty);
    RepairsSettle(c, empty);
    if Field(p, "messages").List? {
      var ms := p["messages"].items;
      PassIs(f, p);
      var p1 := Pass(f, p).0;
      PassIs(g, p1);
      ResultsAre(f, ms);
      ResultsAre(g, Results(f, ms));
      forall i | 0 <= i < |ms| ensures KeptMessage(ms[i], f(ms[i]).0) && KeptMessage(ms[i], g(f(ms[i]).0).0) {
        StructureIsKept(c, ms[i]);
        MessageIsKept(c, empty, ms[i]);
      }
    }
  }

  // ----- the whole repair, message by message and call by call -----

  /** The call's arguments, where a call has them. */
  predicate Carries(call: Value, arguments: Value) {
    && call.Object? && "function" in call.fields && call.fields["function"].Object?
    && "arguments" in call.fields["function"].fields && call.fields["function"].fields["arguments"] == arguments
  }

  /** All but the arguments is the same: every other field of the call, and of its function. */
  predicate SameButArguments(a: Value, b: Value) {
    && a.Object? && b.Object? && b.fields.Keys == a.fields.Keys
    && (forall k :: k in a.fields && k != "function" ==> b.fields[k] == a.fields[k])
    && "function" in a.fields && a.fields["function"].Object? && b.fields["function"].Object?
    && var f, g := a.fields["function"].fields, b.fields["function"].fields;
       && g.Keys == f.Keys && forall k :: k in f && k != "arguments" ==> g[k] == f[k]
  }

  /** These arguments are to be written: they are no JSON text, and what they mean can be told and written. */
  predicate ToWrite(c: Codec, empty: bool, v: Value) {
    && !(v.Str? && Json.Loads(v.s)) && Meant(c, empty, v).Some?
    && Writable(c, v, Meant(c, empty, v).value)
  }

  /** One call and what is sent on: the same call conveying what it meant, or the call itself. */
  predicate RightCall(c: Codec, empty: bool, a: Value, b: Value) {
    if HasArguments(a) && ToWrite(c, empty, ArgumentsOf(a)) then
      && SameButArguments(a, b) && HasArguments(b)
      && Conveys(c, ArgumentsOf(b), Meant(c, empty, ArgumentsOf(a)).value)
    else b == a
  }

  /** Some arguments are there exactly when the call carries them. */
  lemma HasArgumentsIff(call: Value)
    ensures HasArguments(call) <==> exists v :: Carries(call, v)
    ensures HasArguments(call) ==> Carries(call, ArgumentsOf(call))
  {
    if HasArguments(call) { assert Carries(call, ArgumentsOf(call)); }
  }

  /** The calls of a message, whatever they came in. */
  function CallsIn(message: Value): seq<Value> {
    if !message.Object? || "tool_calls" !in message.fields then []
    else
      match message.fields["tool_calls"]
      case List(xs) => xs
      case Tuple(xs) => xs
      case Object(_) => [message.fields["tool_calls"]]
      case _ => []
  }

  predicate HoldsCalls(v: Value) { v.List? || v.Tuple? || v.Object? }

  predicate RightEach(c: Codec, empty: bool, xs: seq<Value>, ys: seq<Value>) {
    |xs| == |ys| && forall k :: 0 <= k < |xs| ==> RightCall(c, empty, xs[k], ys[k])
  }

  /** The calls sent on for those of a message. */
  predicate RightCalls(c: Codec, arguments: bool, empty: bool, message: Value, b: Value)
    requires message.Object? && "tool_calls" in message.fields
  {
    if !HoldsCalls(message.fields["tool_calls"]) then b == message.fields["tool_calls"]
    else if !arguments then b == List(CallsIn(message))
    else b.List? && RightEach(c, empty, CallsIn(message), b.items)
  }

  /**
   The content sent on: text as it is, a wrapped text unwrapped, any other
   object as JSON if it can be, and the rest as text.
   */
  ghost predicate RightContent(c: Codec, a: Value, b: Value) {
    if a.Str? || a.List? || a.Null? then b == a
    else if exists text :: Wraps(a, text) then Wraps(a, b)
    else b == Str(if a.Object? && c.dumps(a).Some? then c.dumps(a).value else c.show(a))
  }

  ghost predicate RightMessage(c: Codec, arguments: bool, empty: bool, a: Value, b: Value) {
    if !a.Object? then b == a
    else
      && b.Object? && b.fields.Keys == a.fields.Keys
      && (forall k :: k in a.fields && k != "content" && k != "tool_calls" ==> b.fields[k] == a.fields[k])
      && ("content" in a.fields ==> RightContent(c, a.fields["content"], b.fields["content"]))
      && ("tool_calls" in a.fields ==> RightCalls(c, arguments, empty, a, b.fields["tool_calls"]))
  }

  ghost predicate RightMessages(c: Codec, arguments: bool, empty: bool, xs: seq<Value>, ys: seq<Value>) {
    |xs| == |ys| && forall i :: 0 <= i < |xs| ==> RightMessage(c, arguments, empty, xs[i], ys[i])
  }

  /** The payload sent on: every other field, and each message as it should be, in order. */
  ghost predicate RightPayload(c: Codec, arguments: bool, empty: bool, p: Fields, q: Fields) {
    if "messages" !in p || !p["messages"].List? then q == p
    else
      && q.Keys == p.Keys && (forall k :: k in p && k != "messages" ==> q[k] == p[k])
      && q["messages"].List? && RightMessages(c, arguments, empty, p["messages"].items, q["messages"].items)
  }

  lemma CallIsRight(c: Codec, empty: bool, call: Value)
    requires Sound(c)
    ensures RightCall(c, empty, call, RepairCall(c, empty, call).0)
  {
    if HasArguments(call) {
      var v := ArgumentsOf(call);
      RepairMeans(c, empty, v);
      ArgumentsAreCandid(c, empty, v);
      ReplacedArguments(call, RepairArguments(c, empty, v).0);
    }
  }

  lemma ReplacedArguments(call: Value, v: Value)
    requires HasArguments(call)
    ensures SameButArguments(call, WithArguments(call, v)) && HasArguments(WithArguments(call, v))
    ensures ArgumentsOf(WithArguments(call, v)) == v
    ensures v == ArgumentsOf(call) ==> WithArguments(call, v) == call
  {
    if v == ArgumentsOf(call) {
      var f := call.fields["function"].fields;
      assert f["arguments" := v] == f;
      assert call.fields["function" := Object(f)] == call.fields;
    }
  }

  lemma CallsAreRight(c: Codec, empty: bool, calls: seq<Value>)
    requires Sound(c)
    ensures RightEach(c, empty, calls, Results(CallRepair(c, empty), calls))
  {
    ResultsAre(CallRepair(c, empty), calls);
    forall k | 0 <= k < |calls| ensures RightCall(c, empty, calls[k], Results(CallRepair(c, empty), calls)[k]) {
      CallIsRight(c, empty, calls[k]);
    }
  }

  lemma ContentIsRight(c: Codec, m: Fields)
    ensures RepairContent(c, m).0.Keys == m.Keys
    ensures forall k :: k in m && k != "content" ==> RepairContent(c, m).0[k] == m[k]
    ensures "content" in m ==> RightContent(c, m["content"], RepairContent(c, m).0["content"])
  {
    if "content" in m && !Textual(m["content"]) {
      if text :| Wraps(m["content"], text) {
        WrappedTextIsUnwrapped(c, m, text);
      } else {
        OtherContentIsWritten(c, m);
      }
    }
  }

  lemma StructureIsRight(c: Codec, empty: bool, message: Value)
    ensures RightMessage(c, false, empty, message, RepairStructure(c, message).0)
    ensures
      var s := RepairStructure(c, message).0;
      s.Object? && Field(s.fields, "tool_calls").List? ==> Field(s.fields, "tool_calls").items == CallsIn(message)
  {
    if message.Object? { ContentIsRight(c, message.fields); }
  }

  /** The calls of a message, all of them replaced by what is made of them. */
  lemma CallsAreReplaced(c: Codec, empty: bool, s: Value)
    requires Parses(c) && s.Object? && "tool_calls" in s.fields && s.fields["tool_calls"].List?
    ensures RepairMessageCalls(c, empty, s).0
         == Object(s.fields["tool_calls" := List(Results(CallRepair(c, empty), s.fields["tool_calls"].items))])
  {
    var calls, f := s.fields["tool_calls"].items, CallRepair(c, empty);
    CallsSettle(c, empty);
    CandidOnAll(f, calls);
    if Notes(f, calls) == [] { assert s.fields["tool_calls" := List(calls)] == s.fields; }
  }

  lemma RightWithCalls(c: Codec, empty: bool, a: Value, s: Value, calls: seq<Value>)
    requires RightMessage(c, false, empty, a, s) && a.Object?
    requires "tool_calls" in a.fields && HoldsCalls(a.fields["tool_calls"]) && RightEach(c, empty, CallsIn(a), calls)
    ensures RightMessage(c, true, empty, a, Object(s.fields["tool_calls" := List(calls)]))
  {
    assert s.fields["tool_calls" := List(calls)].Keys == s.fields.Keys;
  }

  lemma RightWithoutCalls(c: Codec, empty: bool, a: Value, s: Value)
    requires RightMessage(c, false, empty, a, s)
    requires a.Object? && "tool_calls" in a.fields ==> !HoldsCalls(a.fields["tool_calls"])
    ensures RightMessage(c, true, empty, a, s)
  {
  }

  lemma MessageIsRight(c: Codec, empty: bool, message: Value)
    requires Sound(c)
    ensures RightMessage(c, true, empty, message, RepairMessageCalls(c, empty, RepairStructure(c, message).0).0)
  {
    var s := RepairStructure(c, message).0;
    StructureIsRight(c, empty, message);
    if message.Object? && "tool_calls" in message.fields && HoldsCalls(message.fields["tool_calls"]) {
      CallsAreRight(c, empty, CallsIn(message));
      CallsAreReplaced(c, empty, s);
      RightWithCalls(c, empty, message, s, Results(CallRepair(c, empty), CallsIn(message)));
    } else {
      RightWithoutCalls(c, empty, message, s);
    }
  }

  /**
   What goes upstream, in one statement: every call conveys what its caller
   meant wherever that can be told and written, and is left alone elsewhere and
   when argument repair is off; content, calls and all other fields are as they
   should be, message by message.
   */
  lemma NormalizeIsRight(c: Codec, arguments: bool, empty: bool, p: Fields)
    requires Sound(c)
    ensures RightPayload(c, arguments, empty, p, Normalize(c, arguments, empty, p).0)
  {
    var f, g := StructureRepair(c), ArgumentRepair(c, empty);
    RepairsSettle(c, empty);
    if Field(p, "messages").List? {
      var ms := p["messages"].items;
      PassIs(f, p);
      var p1 := Pass(f, p).0;
      PassIs(g, p1);
      ResultsAre(f, ms);
      ResultsAre(g, Results(f, ms));
      forall i | 0 <= i < |ms|
        ensures RightMessage(c, false, empty, ms[i], f(ms[i]).0)
        ensures RightMessage(c, true, empty, ms[i], g(f(ms[i]).0).0)
      {
        StructureIsRight(c, empty, ms[i]);
        MessageIsRight(c, empty, ms[i]);
      }
    }
  }

  // ----- what is said about it -----

  ghost function ContentNotes(content: Value): seq<Note> {
    if content.Str? || content.List? || content.Null? then []
    else if exists text :: Wraps(content, text) then [ContentUnwrapped]
    else if content.Object? then [ContentEncoded]
    else [ContentCoerced]
  }

  function CallsNotes(calls: Value): seq<Note> {
    if calls.Object? then [CallsWrapped] else if calls.Tuple? then [CallsListed] else []
  }

  /** A note for the content if that changes, and one for what the calls came in if that does. */
  ghost function StructureNotes(message: Value): seq<Note> {
    if !message.Object? then []
    else
      (if "content" in message.fields then ContentNotes(message.fields["content"]) else [])
      + if "tool_calls" in message.fields then CallsNotes(message.fields["tool_calls"]) else []
  }

  /** A note for the arguments of a call if those change, saying what they were. */
  function ArgumentNotes(c: Codec, empty: bool, call: Value): seq<Note> {
    if !HasArguments(call) || !ToWrite(c, empty, ArgumentsOf(call)) then []
    else if !ArgumentsOf(call).Str? then [ArgumentsEncoded]
    else if Text.Strip(ArgumentsOf(call).s) == "" then [ArgumentsEmptied]
    else [ArgumentsRepaired]
  }

  function CallNotes(c: Codec, empty: bool, calls: seq<Value>): seq<Note>
    decreases |calls|
  {
    if calls == [] then [] else ArgumentNotes(c, empty, calls[0]) + CallNotes(c, empty, calls[1..])
  }

  ghost function AllStructureNotes(ms: seq<Value>): seq<Note>
    decreases |ms|
  {
    if ms == [] then [] else StructureNotes(ms[0]) + AllStructureNotes(ms[1..])
  }

  function AllCallNotes(c: Codec, empty: bool, ms: seq<Value>): seq<Note>
    decreases |ms|
  {
    if ms == [] then [] else CallNotes(c, empty, CallsIn(ms[0])) + AllCallNotes(c, empty, ms[1..])
  }

  lemma {:induction false} NotesConcat(f: Repair, xs: seq<Value>, ys: seq<Value>)
    ensures Notes(f, xs + ys) == Notes(f, xs) + Notes(f, ys)
    decreases |ys|
  {
    if ys == [] {
      assert xs + ys == xs;
    } else {
      assert (xs + ys)[..|xs + ys| - 1] == xs + ys[..|ys| - 1];
      NotesConcat(f, xs, ys[..|ys| - 1]);
    }
  }

  lemma NotesFirst(f: Repair, xs: seq<Value>)
    requires xs != []
    ensures Notes(f, xs) == f(xs[0]).1 + Notes(f, xs[1..])
  {
    assert xs == [xs[0]] + xs[1..] && [xs[0]][..0] == [];
    NotesConcat(f, [xs[0]], xs[1..]);
  }

  lemma CallNoted(c: Codec, empty: bool, call: Value)
    ensures RepairCall(c, empty, call).1 == ArgumentNotes(c, empty, call)
  {
    if HasArguments(call) {
      var v := ArgumentsOf(call);
      if v.Str? && Json.Loads(v.s) { LoadsIsNotBlank(v.s); }
    }
  }

  lemma {:induction false} CallsNoted(c: Codec, empty: bool, calls: seq<Value>)
    ensures Notes(CallRepair(c, empty), calls) == CallNotes(c, empty, calls)
    decreases |calls|
  {
    if calls != [] {
      NotesFirst(CallRepair(c, empty), calls);
      CallNoted(c, empty, calls[0]);
      CallsNoted(c, empty, calls[1..]);
    }
  }

  lemma ContentNoted(c: Codec, m: Fields)
    ensures RepairContent(c, m).1 == if "content" in m then ContentNotes(m["content"]) else []
    ensures Field(RepairContent(c, m).0, "tool_calls") == Field(m, "tool_calls")
  {
    if "content" in m && !Textual(m["content"]) {
      var content := m["content"];
      if text :| Wraps(content, text) {
        assert content.fields.Keys == {"text"} || content.fields.Keys == {"content"};
        assert "text" in content.fields <==> "content" !in content.fields;
      } else if content.Object? {
        OnlyWrapped(content);
      }
    }
  }

  /** An object that wraps nothing has other fields, or no text in its one field. */
  lemma OnlyWrapped(content: Value)
    requires content.Object? && forall text :: !Wraps(content, text)
    ensures content.fields.Keys == {"text"} ==> !Textual(Field(content.fields, "text"))
    ensures content.fields.Keys == {"content"} ==> !Textual(Field(content.fields, "content"))
  {
    var fields := content.fields;
    if fields.Keys == {"text"} {
      assert "text" in fields && "content" !in fields;
      SameMap(fields, map["text" := fields["text"]]);
      assert !Wraps(content, fields["text"]);
    }
    if fields.Keys == {"content"} {
      assert "content" in fields && "text" !in fields;
      SameMap(fields, map["content" := fields["content"]]);
      assert !Wraps(content, fields["content"]);
    }
  }

  lemma StructureNoted(c: Codec, message: Value)
    ensures RepairStructure(c, message).1 == StructureNotes(message)
  {
    if message.Object? { ContentNoted(c, message.fields); }
  }

  lemma MessageNoted(c: Codec, empty: bool, message: Value)
    ensures RepairMessageCalls(c, empty, RepairStructure(c, message).0).1 == CallNotes(c, empty, CallsIn(message))
  {
    var s := RepairStructure(c, message).0;
    StructureIsRight(c, empty, message);
    CallsNoted(c, empty, CallsIn(message));
    if message.Object? && "tool_calls" in message.fields {
      assert Field(s.fields, "tool_calls").List? || CallsIn(message) == [];
    }
  }

  lemma {:induction false} StructuresNoted(c: Codec, ms: seq<Value>)
    ensures Notes(StructureRepair(c), ms) == AllStructureNotes(ms)
    decreases |ms|
  {
    if ms != [] {
      NotesFirst(StructureRepair(c), ms);
      StructureNoted(c, ms[0]);
      StructuresNoted(c, ms[1..]);
    }
  }

  lemma {:induction false} MessagesNoted(c: Codec, empty: bool, ms: seq<Value>, rs: seq<Value>)
    requires |rs| == |ms| && forall i :: 0 <= i < |ms| ==> rs[i] == RepairStructure(c, ms[i]).0
    ensures Notes(ArgumentRepair(c, empty), rs) == AllCallNotes(c, empty, ms)
    decreases |ms|
  {
    if ms != [] {
      NotesFirst(ArgumentRepair(c, empty), rs);
      MessageNoted(c, empty, ms[0]);
      MessagesNoted(c, empty, ms[1..], rs[1..]);
    }
  }

  /** The notes: what is said of the structure, message by message, then of the arguments, call by call. */
  lemma NormalizeSays(c: Codec, arguments: bool, empty: bool, p: Fields)
    ensures
      var ms := if "messages" in p && p["messages"].List? then p["messages"].items else [];
      Normalize(c, arguments, empty, p).1
      == AllStructureNotes(ms) + if arguments then AllCallNotes(c, empty, ms) else []
  {
    var f := StructureRepair(c);
    RepairsSettle(c, empty);
    if Field(p, "messages").List? {
      var ms := p["messages"].items;
      PassIs(f, p);
      ResultsAre(f, ms);
      StructuresNoted(c, ms);
      MessagesNoted(c, empty, ms, Results(f, ms));
    }
  }

  // ----- the loops -----

  lemma NextItem(f: Repair, xs: seq<Value>, i: nat)
    requires i < |xs|
    ensures Results(f, xs[..i + 1]) == Results(f, xs[..i]) + [f(xs[i]).0]
    ensures Notes(f, xs[..i + 1]) == Notes(f, xs[..i]) + f(xs[i]).1
  {
    assert xs[..i + 1][..i] == xs[..i];
  }

  /** `_normalize_message` of the tool calls. */
  method NormalizeMessage(c: Codec, message: Value, empty: bool) returns (r: Value, notes: seq<Note>)
    ensures (r, notes) == RepairMessageCalls(c, empty, message)
  {
    if !message.Object? || !Field(message.fields, "tool_calls").List? { return message, []; }
    var calls, f := Field(message.fields, "tool_calls").items, CallRepair(c, empty);
    var rebuilt: seq<Value>;
    notes, rebuilt := [], [];
    for i := 0 to |calls|
      invariant rebuilt == Results(f, calls[..i]) && notes == Notes(f, calls[..i])
    {
      NextItem(f, calls, i);
      var call := calls[i];
      if !HasArguments(call) {
        rebuilt := rebuilt + [call];
      } else {
        var (value, reason) := RepairArguments(c, empty, ArgumentsOf(call));
        if reason.None? {
          rebuilt := rebuilt + [call];
        } else {
          rebuilt := rebuilt + [WithArguments(call, value)];
          notes := notes + [reason.value];
        }
      }
    }
    assert calls[..|calls|] == calls;
    if notes == [] { return message, []; }
    return Object(message.fields["tool_calls" := List(rebuilt)]), notes;
  }

  /** `normalize_tool_arguments`. */
  method NormalizeToolArguments(c: Codec, p: Fields, empty: bool) returns (q: Fields, notes: seq<Note>)
    ensures (q, notes) == Pass(ArgumentRepair(c, empty), p)
  {
    if !Field(p, "messages").List? { return p, []; }
    var messages, f := p["messages"].items, ArgumentRepair(c, empty);
    var rebuilt: seq<Value>;
    notes, rebuilt := [], [];
    for i := 0 to |messages|
      invariant rebuilt == Results(f, messages[..i]) && notes == Notes(f, messages[..i])
    {
      NextItem(f, messages, i);
      var normalized, more := NormalizeMessage(c, messages[i], empty);
      rebuilt := rebuilt + [normalized];
      notes := notes + more;
    }
    assert messages[..|messages|] == messages;
    if notes == [] { return p, []; }
    return p["messages" := List(rebuilt)], notes;
  }

  /** `normalize_inbound_payload`. */
  method NormalizeInboundPayload(c: Codec, p: Fields, arguments: bool := true, empty: bool := true)
    returns (current: Fields, notes: seq<Note>)
    ensures (current, notes) == Normalize(c, arguments, empty, p)
  {
    current, notes := p, [];
    if Field(p, "messages").List? {
      var messages, f := p["messages"].items, StructureRepair(c);
      var rebuilt: seq<Value> := [];
      var changed := false;
      RepairsSettle(c, empty);
      for i := 0 to |messages|
        invariant rebuilt == Results(f, messages[..i]) && notes == Notes(f, messages[..i])
        invariant changed <==> notes != []
      {
        NextItem(f, messages, i);
        var (normalized, more) := RepairStructure(c, messages[i]);
        rebuilt := rebuilt + [normalized];
        notes := notes + more;
        changed := changed || normalized != messages[i];
      }
      assert messages[..|messages|] == messages;
      if changed { current := current["messages" := List(rebuilt)]; }
    }
    if arguments {
      var repaired, more := NormalizeToolArguments(c, current, empty);
      current, notes := repaired, notes + more;
    }
  }
}
