/**
 Assembling tool calls from streamed fragments, and deciding which of them may
 run (`_consume` and `_finalise`).
 */
module Client {
  import opened Wrappers
  import Json
  import JsonGrammar
  import opened Text

  /** `arguments` is the text whose decoding the tool receives. */
  datatype ToolCall = ToolCall(id: string, name: string, arguments: string)

  datatype Partial = Partial(id: string, name: string, arguments: string)

  /** One element of `delta.tool_calls`; Junk is anything not a dict with an integer index. */
  datatype Fragment =
    | Fragment(index: int, id: Option<string>, name: Option<string>, arguments: Option<string>)
    | Junk

  datatype Delta = Delta(content: string, fragments: seq<Fragment>)

  /** The first choice of one event; `delta` is None when it is not a dict. */
  datatype Event = Event(finishReason: string, delta: Option<Delta>) | Unusable

  datatype Note = NoName | CutOff(name: string) | NotJson(name: string) | NotObject(name: string)
                | LeakedAsText(name: string)

  datatype Verdict = Call(call: ToolCall) | Malformed(note: Note)

  type Partials = map<int, Partial>

  // ----- fragments -----

  function OrEmpty(o: Option<string>): string {
    match o case None => "" case Some(s) => s
  }

  function PartialAt(ps: Partials, i: int): Partial {
    if i in ps then ps[i] else Partial("", "", "")
  }

  function Absorb(ps: Partials, f: Fragment): Partials {
    if f.Junk? then ps
    else
      var p := PartialAt(ps, f.index);
      ps[f.index := Partial(if f.id.Some? then f.id.value else p.id,
                            p.name + OrEmpty(f.name),
                            p.arguments + OrEmpty(f.arguments))]
  }

  function AbsorbAll(ps: Partials, fs: seq<Fragment>): Partials
    decreases |fs|
  {
    if fs == [] then ps else AbsorbAll(Absorb(ps, fs[0]), fs[1..])
  }

  // ----- what a stream says about one index, whatever its fragmentation -----

  predicate Touches(f: Fragment, i: int) { f.Fragment? && f.index == i }

  predicate Mentioned(fs: seq<Fragment>, i: int) {
    exists k :: 0 <= k < |fs| && Touches(fs[k], i)
  }

  function NameText(fs: seq<Fragment>, i: int): string {
    if fs == [] then ""
    else (if Touches(fs[0], i) then OrEmpty(fs[0].name) else "") + NameText(fs[1..], i)
  }

  function ArgumentText(fs: seq<Fragment>, i: int): string {
    if fs == [] then ""
    else (if Touches(fs[0], i) then OrEmpty(fs[0].arguments) else "") + ArgumentText(fs[1..], i)
  }

  function LastId(fs: seq<Fragment>, i: int, otherwise: string): string {
    if fs == [] then otherwise
    else LastId(fs[1..], i, if Touches(fs[0], i) && fs[0].id.Some? then fs[0].id.value else otherwise)
  }

  lemma MentionedFirstOrLater(fs: seq<Fragment>, i: int)
    requires fs != []
    ensures Mentioned(fs, i) <==> Touches(fs[0], i) || Mentioned(fs[1..], i)
  {
    if Mentioned(fs, i) && !Touches(fs[0], i) {
      var k :| 0 <= k < |fs| && Touches(fs[k], i);
      assert Touches(fs[1..][k - 1], i);
    }
    if Mentioned(fs[1..], i) {
      var k :| 0 <= k < |fs[1..]| && Touches(fs[1..][k], i);
      assert Touches(fs[k + 1], i);
    }
  }

  lemma {:induction false} AssembledKeys(ps: Partials, fs: seq<Fragment>, i: int)
    ensures i in AbsorbAll(ps, fs) <==> i in ps || Mentioned(fs, i)
    decreases |fs|
  {
    if fs != [] {
      AssembledKeys(Absorb(ps, fs[0]), fs[1..], i);
      MentionedFirstOrLater(fs, i);
    }
  }

  /** Assembly depends on a stream only through these readings of each index. */
  lemma {:induction false} Assembled(ps: Partials, fs: seq<Fragment>, i: int)
    ensures PartialAt(AbsorbAll(ps, fs), i)
         == Partial(LastId(fs, i, PartialAt(ps, i).id),
                    PartialAt(ps, i).name + NameText(fs, i),
                    PartialAt(ps, i).arguments + ArgumentText(fs, i))
    decreases |fs|
  {
    if fs != [] {
      var p, f := PartialAt(ps, i), fs[0];
      Assembled(Absorb(ps, f), fs[1..], i);
      var names, texts := NameText(fs[1..], i), ArgumentText(fs[1..], i);
      if Touches(f, i) {
        Regroup(p.name, OrEmpty(f.name), names);
        Regroup(p.arguments, OrEmpty(f.arguments), texts);
      } else {
        assert PartialAt(Absorb(ps, f), i) == p;
        assert "" + names == names && "" + texts == texts;
      }
    }
  }

  lemma Regroup(a: string, b: string, c: string)
    ensures a + b + c == a + (b + c)
  {
  }

  ghost predicate SameReadings(fs: seq<Fragment>, gs: seq<Fragment>) {
    forall i :: SameReading(fs, gs, i)
  }

  ghost predicate SameReading(fs: seq<Fragment>, gs: seq<Fragment>, i: int) {
    && Mentioned(fs, i) == Mentioned(gs, i)
    && NameText(fs, i) == NameText(gs, i)
    && ArgumentText(fs, i) == ArgumentText(gs, i)
    && LastId(fs, i, "") == LastId(gs, i, "")
  }

  /** Two streams with the same readings assemble the same calls. */
  lemma SameAssembly(fs: seq<Fragment>, gs: seq<Fragment>)
    requires SameReadings(fs, gs)
    ensures AbsorbAll(map[], fs) == AbsorbAll(map[], gs)
  {
    var a, b := AbsorbAll(map[], fs), AbsorbAll(map[], gs);
    forall i ensures i in a <==> i in b {
      SameAt(fs, gs, i);
    }
    forall i | i in a && i in b ensures a[i] == b[i] {
      SameAt(fs, gs, i);
    }
    SameMap(a, b);
  }

  lemma SameAt(fs: seq<Fragment>, gs: seq<Fragment>, i: int)
    requires SameReadings(fs, gs)
    ensures i in AbsorbAll(map[], fs) <==> i in AbsorbAll(map[], gs)
    ensures PartialAt(AbsorbAll(map[], fs), i) == PartialAt(AbsorbAll(map[], gs), i)
  {
    Assembled(map[], fs, i);
    Assembled(map[], gs, i);
    AssembledKeys(map[], fs, i);
    AssembledKeys(map[], gs, i);
    assert SameReading(fs, gs, i);
  }

  lemma {:induction false} AbsorbConcat(ps: Partials, fs: seq<Fragment>, gs: seq<Fragment>)
    ensures AbsorbAll(ps, fs + gs) == AbsorbAll(AbsorbAll(ps, fs), gs)
    decreases |fs|
  {
    if fs == [] {
      assert fs + gs == gs;
    } else {
      assert (fs + gs)[1..] == fs[1..] + gs;
      AbsorbConcat(Absorb(ps, fs[0]), fs[1..], gs);
    }
  }

  /** `f` cut into `f1` and `f2`: the texts concatenate, and the later id wins. */
  predicate Splits(f: Fragment, f1: Fragment, f2: Fragment) {
    && f.Fragment? && f1.Fragment? && f2.Fragment?
    && f1.index == f2.index == f.index
    && OrEmpty(f.name) == OrEmpty(f1.name) + OrEmpty(f2.name)
    && OrEmpty(f.arguments) == OrEmpty(f1.arguments) + OrEmpty(f2.arguments)
    && f.id == if f2.id.Some? then f2.id else f1.id
  }

  /** Sending one fragment as two, anywhere in the stream, changes nothing. */
  lemma SplittingIsInvisible(ps: Partials, before: seq<Fragment>, f: Fragment, f1: Fragment, f2: Fragment,
                             after: seq<Fragment>)
    requires Splits(f, f1, f2)
    ensures AbsorbAll(ps, before + [f] + after) == AbsorbAll(ps, before + [f1, f2] + after)
  {
    var qs := AbsorbAll(ps, before);
    AbsorbConcat(ps, before + [f], after);
    AbsorbConcat(ps, before, [f]);
    AbsorbConcat(ps, before + [f1, f2], after);
    AbsorbConcat(ps, before, [f1, f2]);
    AbsorbTwo(qs, f1, f2);
    AbsorbSplit(qs, f, f1, f2);
    assert AbsorbAll(qs, [f]) == Absorb(qs, f);
  }

  lemma AbsorbSplit(ps: Partials, f: Fragment, f1: Fragment, f2: Fragment)
    requires Splits(f, f1, f2)
    ensures Absorb(ps, f) == Absorb(Absorb(ps, f1), f2)
  {
    var p := PartialAt(ps, f.index);
    Regroup(p.name, OrEmpty(f1.name), OrEmpty(f2.name));
    Regroup(p.arguments, OrEmpty(f1.arguments), OrEmpty(f2.arguments));
  }

  /** Interleaving of different calls does not matter. */
  lemma SwappingIsInvisible(ps: Partials, before: seq<Fragment>, f: Fragment, g: Fragment, after: seq<Fragment>)
    requires f.Junk? || g.Junk? || f.index != g.index
    ensures AbsorbAll(ps, before + [f, g] + after) == AbsorbAll(ps, before + [g, f] + after)
  {
    var qs := AbsorbAll(ps, before);
    AbsorbConcat(ps, before + [f, g], after);
    AbsorbConcat(ps, before, [f, g]);
    AbsorbConcat(ps, before + [g, f], after);
    AbsorbConcat(ps, before, [g, f]);
    AbsorbTwo(qs, f, g);
    AbsorbTwo(qs, g, f);
    AbsorbCommutes(qs, f, g);
  }

  lemma AbsorbTwo(ps: Partials, f: Fragment, g: Fragment)
    ensures AbsorbAll(ps, [f, g]) == Absorb(Absorb(ps, f), g)
  {
    assert [f, g][1..] == [g];
    assert AbsorbAll(Absorb(ps, f), [g]) == Absorb(Absorb(ps, f), g);
  }

  lemma AbsorbCommutes(ps: Partials, f: Fragment, g: Fragment)
    requires f.Junk? || g.Junk? || f.index != g.index
    ensures Absorb(Absorb(ps, f), g) == Absorb(Absorb(ps, g), f)
  {
    if f.Fragment? && g.Fragment? {
      assert PartialAt(Absorb(ps, f), g.index) == PartialAt(ps, g.index);
      assert PartialAt(Absorb(ps, g), f.index) == PartialAt(ps, f.index);
      UpdatesCommute(ps, f.index, Absorb(ps, f)[f.index], g.index, Absorb(ps, g)[g.index]);
    }
  }

  lemma UpdatesCommute<K, V>(m: map<K, V>, i: K, x: V, j: K, y: V)
    requires i != j
    ensures m[i := x][j := y] == m[j := y][i := x]
  {
  }

  /** A stream that stopped early holds a prefix of every text. */
  lemma {:induction false} CutShort(fs: seq<Fragment>, gs: seq<Fragment>, i: int)
    requires fs <= gs
    ensures NameText(fs, i) <= NameText(gs, i) && ArgumentText(fs, i) <= ArgumentText(gs, i)
    decreases |fs|
  {
    if fs != [] {
      CutShort(fs[1..], gs[1..], i);
    }
  }

  // ----- judging one assembled call -----

  function Decimal(n: nat): string {
    if n < 10 then ["0123456789"[n]] else Decimal(n / 10) + ["0123456789"[n % 10]]
  }

  function Signed(n: int): string {
    if n < 0 then "-" + Decimal(-n) else Decimal(n)
  }

  function FallbackId(index: int): string {
    "call_" + Signed(index)
  }

  function CallText(arguments: string): string {
    if Strip(arguments) == "" then "{}" else Strip(arguments)
  }

  function Judge(index: int, p: Partial, finishReason: string): Verdict {
    var text := CallText(p.arguments);
    if p.name == "" then Malformed(NoName)
    else if !Json.Loads(text) then
      Malformed(if finishReason == "length" then CutOff(p.name) else NotJson(p.name))
    else if !Json.LoadsObject(text) then Malformed(NotObject(p.name))
    else Call(ToolCall(if p.id == "" then FallbackId(index) else p.id, p.name, text))
  }

  /** Exactly which cut-off arguments still execute: all of them, or none of them. */
  lemma TruncationIsNeverExecuted(index: int, id: string, name: string, whole: string, part: string, reason: string)
    requires name != "" && part <= whole && Json.LoadsObject(Strip(whole))
    ensures Judge(index, Partial(id, name, part), reason).Call?
            <==> Strip(part) == "" || Strip(part) == Strip(whole)
    ensures Strip(part) != "" && Strip(part) != Strip(whole) ==>
              Judge(index, Partial(id, name, part), reason)
              == Malformed(if reason == "length" then CutOff(name) else NotJson(name))
  {
    var q, t := Strip(part), Strip(whole);
    StripPrefix(part, whole);
    StripEnds(whole);
    if q == "" {
      assert "{}"[1] == '}';
    } else if q != t {
      Json.ObjectsArePrefixFree(q, t);
    }
  }

  /**
   The same for a stream cut anywhere: a call whose full arguments are an object
   of RFC 8259 runs from the cut stream only with no arguments or all of them.
   */
  lemma CutStreamsAreSafe(lax: bool, fs: seq<Fragment>, gs: seq<Fragment>, i: int, reason: string)
    requires fs <= gs && NameText(fs, i) != ""
    requires JsonGrammar.IsObjectText(lax, ArgumentText(gs, i))
    ensures Judge(i, PartialAt(AbsorbAll(map[], fs), i), reason).Call?
            <==> Strip(ArgumentText(fs, i)) == "" || Strip(ArgumentText(fs, i)) == Strip(ArgumentText(gs, i))
  {
    CutShort(fs, gs, i);
    Assembled(map[], fs, i);
    assert "" + NameText(fs, i) == NameText(fs, i);
    assert "" + ArgumentText(fs, i) == ArgumentText(fs, i);
    JsonGrammar.StrippedIsObjectText(lax, ArgumentText(gs, i));
    JsonGrammar.ObjectTextsLoad(lax, Strip(ArgumentText(gs, i)));
    var p := PartialAt(AbsorbAll(map[], fs), i);
    assert p == Partial(p.id, NameText(fs, i), ArgumentText(fs, i));
    TruncationIsNeverExecuted(i, p.id, p.name, ArgumentText(gs, i), p.arguments, reason);
  }

  // ----- judging them all -----

  lemma {:induction false} HasLeast(s: set<int>)
    requires s != {}
    ensures exists m :: IsLeast(m, s)
  {
    var a := Pick(s);
    if s == {a} {
      assert IsLeast(a, s);
    } else {
      HasLeast(s - {a});
      var m :| IsLeast(m, s - {a});
      var n := if a < m then a else m;
      forall x | x in s ensures n <= x {
        if x != a { assert x in s - {a}; }
      }
      assert IsLeast(n, s);
    }
  }

  predicate IsLeast(m: int, s: set<int>) {
    m in s && forall x :: x in s ==> m <= x
  }

  function Least(s: set<int>): (m: int)
    requires s != {}
    ensures IsLeast(m, s)
  {
    HasLeast(s);
    var m :| IsLeast(m, s);
    m
  }

  /** Python's `sorted` on the indices. */
  function Sorted(s: set<int>): (r: seq<int>)
    ensures |r| == |s| && (forall x :: x in r <==> x in s) && Increasing(r)
  {
    if s == {} then []
    else
      var m := Least(s);
      LeastFirst(m, Sorted(s - {m}));
      [m] + Sorted(s - {m})
  }

  lemma LeastFirst(m: int, rest: seq<int>)
    requires Increasing(rest) && forall x :: x in rest ==> m < x
    ensures Increasing([m] + rest)
  {
    assert forall j :: 0 <= j < |rest| ==> rest[j] in rest;
  }

  function Verdicts(ps: Partials, keys: seq<int>, reason: string): (vs: seq<Verdict>)
    requires forall k :: k in keys ==> k in ps
    ensures |vs| == |keys|
  {
    if keys == [] then []
    else
      var last := keys[|keys| - 1];
      Verdicts(ps, keys[..|keys| - 1], reason) + [Judge(last, ps[last], reason)]
  }

  /** The verdicts of a finished stream, in index order. */
  function Ruling(ps: Partials, reason: string): (vs: seq<Verdict>) {
    Verdicts(ps, Sorted(ps.Keys), reason)
  }

  /** The calls that may run, in order. */
  function Calls(vs: seq<Verdict>): seq<ToolCall> {
    if vs == [] then []
    else
      var last := vs[|vs| - 1];
      Calls(vs[..|vs| - 1]) + if last.Call? then [last.call] else []
  }

  function Notes(vs: seq<Verdict>): seq<Note> {
    if vs == [] then []
    else
      var last := vs[|vs| - 1];
      Notes(vs[..|vs| - 1]) + if last.Malformed? then [last.note] else []
  }

  /** Every index yields one call or one note, and nothing else yields either. */
  lemma {:induction false} OneVerdictEach(vs: seq<Verdict>)
    ensures |Calls(vs)| + |Notes(vs)| == |vs|
    ensures forall v :: v in vs <==> match v case Call(c) => c in Calls(vs) case Malformed(n) => n in Notes(vs)
    decreases |vs|
  {
    if vs != [] {
      OneVerdictEach(vs[..|vs| - 1]);
      assert forall v :: v in vs <==> v == vs[|vs| - 1] || v in vs[..|vs| - 1];
    }
  }

  predicate Increasing(keys: seq<int>) {
    forall j, k :: 0 <= j < k < |keys| ==> keys[j] < keys[k]
  }

  predicate Runs(ps: Partials, key: int, reason: string, c: ToolCall) {
    key in ps && Judge(key, ps[key], reason) == Call(c)
  }

  /** The k-th call is what is judged of the k-th of `sources`. */
  predicate ComeFrom(ps: Partials, sources: seq<int>, reason: string, cs: seq<ToolCall>) {
    |sources| == |cs| && forall k :: 0 <= k < |cs| ==> Runs(ps, sources[k], reason, cs[k])
  }

  lemma {:induction false} CallsOfKeys(ps: Partials, keys: seq<int>, reason: string) returns (sources: seq<int>)
    requires Increasing(keys) && forall k :: k in keys ==> k in ps
    ensures ComeFrom(ps, sources, reason, Calls(Verdicts(ps, keys, reason))) && Increasing(sources)
    ensures forall k :: k in sources ==> k in keys
    ensures forall k :: k in keys && Judge(k, ps[k], reason).Call? ==> k in sources
    decreases |keys|
  {
    if keys == [] {
      sources := [];
    } else {
      var front, last := keys[..|keys| - 1], keys[|keys| - 1];
      assert forall k :: k in front ==> k < last;
      var before := CallsOfKeys(ps, front, reason);
      OneMore(Verdicts(ps, front, reason), Judge(last, ps[last], reason));
      assert forall k :: k in keys <==> k in front || k == last;
      if Judge(last, ps[last], reason).Call? {
        sources := before + [last];
        SourcesSnoc(ps, before, reason, Calls(Verdicts(ps, front, reason)), last);
        IncreasingSnoc(before, last);
      } else {
        sources := before;
      }
    }
  }

  lemma SourcesSnoc(ps: Partials, sources: seq<int>, reason: string, cs: seq<ToolCall>, last: int)
    requires ComeFrom(ps, sources, reason, cs) && last in ps && Judge(last, ps[last], reason).Call?
    ensures ComeFrom(ps, sources + [last], reason, cs + [Judge(last, ps[last], reason).call])
  {
  }

  lemma IncreasingSnoc(keys: seq<int>, last: int)
    requires Increasing(keys) && forall k :: k in keys ==> k < last
    ensures Increasing(keys + [last])
  {
    assert forall j :: 0 <= j < |keys| ==> keys[j] in keys;
  }

  /**
   Calls come in index order: the k-th comes from the k-th of a strictly
   increasing sequence of indices, which are all those whose call may run.
   */
  lemma CallsInOrder(ps: Partials, reason: string) returns (sources: seq<int>)
    ensures ComeFrom(ps, sources, reason, Calls(Ruling(ps, reason))) && Increasing(sources)
    ensures forall k :: k in sources <==> k in ps && Judge(k, ps[k], reason).Call?
  {
    sources := CallsOfKeys(ps, Sorted(ps.Keys), reason);
  }

  lemma {:induction false} NotesOfKeys(ps: Partials, keys: seq<int>, reason: string) returns (sources: seq<int>)
    requires Increasing(keys) && forall k :: k in keys ==> k in ps
    ensures NotesComeFrom(ps, sources, reason, Notes(Verdicts(ps, keys, reason))) && Increasing(sources)
    ensures forall k :: k in sources ==> k in keys
    ensures forall k :: k in keys && Judge(k, ps[k], reason).Malformed? ==> k in sources
    decreases |keys|
  {
    if keys == [] {
      sources := [];
    } else {
      var front, last := keys[..|keys| - 1], keys[|keys| - 1];
      assert forall k :: k in front ==> k < last;
      var before := NotesOfKeys(ps, front, reason);
      OneMore(Verdicts(ps, front, reason), Judge(last, ps[last], reason));
      assert forall k :: k in keys <==> k in front || k == last;
      if Judge(last, ps[last], reason).Malformed? {
        sources := before + [last];
        NoteSourcesSnoc(ps, before, reason, Notes(Verdicts(ps, front, reason)), last);
        IncreasingSnoc(before, last);
      } else {
        sources := before;
      }
    }
  }

  predicate Noted(ps: Partials, key: int, reason: string, n: Note) {
    key in ps && Judge(key, ps[key], reason) == Malformed(n)
  }

  predicate NotesComeFrom(ps: Partials, sources: seq<int>, reason: string, ns: seq<Note>) {
    |sources| == |ns| && forall k :: 0 <= k < |ns| ==> Noted(ps, sources[k], reason, ns[k])
  }

  lemma NoteSourcesSnoc(ps: Partials, sources: seq<int>, reason: string, ns: seq<Note>, last: int)
    requires NotesComeFrom(ps, sources, reason, ns) && last in ps && Judge(last, ps[last], reason).Malformed?
    ensures NotesComeFrom(ps, sources + [last], reason, ns + [Judge(last, ps[last], reason).note])
  {
  }

  // ----- what a whole stream comes to -----

  /** The arguments an index ends with: its text without white space around it, `{}` if there is nothing else. */
  function Sent(fs: seq<Fragment>, i: int): string {
    if Strip(ArgumentText(fs, i)) == "" then "{}" else Strip(ArgumentText(fs, i))
  }

  /** An index is spoken of, has a name, and its arguments are an object. */
  predicate Sound(fs: seq<Fragment>, i: int) {
    Mentioned(fs, i) && NameText(fs, i) != "" && Json.LoadsObject(Sent(fs, i))
  }

  /** This call is the index's own: its last id, or one made of the index, all of its name and all its arguments. */
  predicate CallAt(fs: seq<Fragment>, i: int, c: ToolCall) {
    && c.id == (if LastId(fs, i, "") != "" then LastId(fs, i, "") else "call_" + Signed(i))
    && c.name == NameText(fs, i) && c.arguments == Sent(fs, i)
  }

  /** Why an index does not run: no name, not JSON (cut off if the stream hit its limit), or no object. */
  function NoteAt(fs: seq<Fragment>, i: int, reason: string): Note {
    if NameText(fs, i) == "" then NoName
    else if Json.Loads(Sent(fs, i)) then NotObject(NameText(fs, i))
    else if reason == "length" then CutOff(NameText(fs, i))
    else NotJson(NameText(fs, i))
  }

  lemma JudgedAsSent(fs: seq<Fragment>, i: int, reason: string)
    requires Mentioned(fs, i)
    ensures
      var ps := AbsorbAll(map[], fs);
      && i in ps
      && (Sound(fs, i) ==> Judge(i, ps[i], reason).Call? && CallAt(fs, i, Judge(i, ps[i], reason).call))
      && (!Sound(fs, i) ==> Judge(i, ps[i], reason) == Malformed(NoteAt(fs, i, reason)))
  {
    AssembledKeys(map[], fs, i);
    Assembled(map[], fs, i);
    assert "" + NameText(fs, i) == NameText(fs, i) && "" + ArgumentText(fs, i) == ArgumentText(fs, i);
  }

  /**
   From the fragments of a stream to the calls that run and the payload that
   goes back: in index order, every index that is sound and no other, each with
   its own id, name and arguments, and the payload the same.
   */
  lemma StreamRuns(fs: seq<Fragment>, reason: string) returns (sources: seq<int>)
    ensures Increasing(sources) && forall i :: i in sources <==> Sound(fs, i)
    ensures
      var cs := Calls(Ruling(AbsorbAll(map[], fs), reason));
      && |cs| == |sources| && |RawAll(cs)| == |cs|
      && forall k :: 0 <= k < |cs| ==>
           && CallAt(fs, sources[k], cs[k])
           && RawAll(cs)[k] == RawCall(cs[k].id, cs[k].name, cs[k].arguments)
  {
    var ps := AbsorbAll(map[], fs);
    var cs := Calls(Ruling(ps, reason));
    sources := CallsInOrder(ps, reason);
    forall i ensures i in sources <==> Sound(fs, i) {
      AssembledKeys(map[], fs, i);
      if Mentioned(fs, i) { JudgedAsSent(fs, i, reason); }
    }
    forall k | 0 <= k < |cs| ensures CallAt(fs, sources[k], cs[k]) {
      assert Runs(ps, sources[k], reason, cs[k]);
      assert Sound(fs, sources[k]);
      JudgedAsSent(fs, sources[k], reason);
    }
  }

  /** And to what the model is told of the rest: in index order, why each other index did not run. */
  lemma StreamNotes(fs: seq<Fragment>, reason: string) returns (sources: seq<int>)
    ensures Increasing(sources) && forall i :: i in sources <==> Mentioned(fs, i) && !Sound(fs, i)
    ensures
      var ns := Notes(Ruling(AbsorbAll(map[], fs), reason));
      |ns| == |sources| && forall k :: 0 <= k < |ns| ==> ns[k] == NoteAt(fs, sources[k], reason)
  {
    var ps := AbsorbAll(map[], fs);
    var ns := Notes(Ruling(ps, reason));
    sources := NotesOfKeys(ps, Sorted(ps.Keys), reason);
    forall i ensures i in sources <==> Mentioned(fs, i) && !Sound(fs, i) {
      AssembledKeys(map[], fs, i);
      if Mentioned(fs, i) { JudgedAsSent(fs, i, reason); }
    }
    forall k | 0 <= k < |ns| ensures ns[k] == NoteAt(fs, sources[k], reason) {
      assert Noted(ps, sources[k], reason, ns[k]);
      assert Mentioned(fs, sources[k]) && !Sound(fs, sources[k]);
      JudgedAsSent(fs, sources[k], reason);
    }
  }

  // ----- the events of a stream -----

  /** What an event says, if anything. */
  function Spoken(e: Event): Delta {
    if e.Event? && e.delta.Some? then e.delta.value else Delta("", [])
  }

  function Said(events: seq<Event>): string {
    if events == [] then ""
    else Said(events[..|events| - 1]) + Spoken(events[|events| - 1]).content
  }

  function FragmentsOf(events: seq<Event>): seq<Fragment> {
    if events == [] then []
    else FragmentsOf(events[..|events| - 1]) + Spoken(events[|events| - 1]).fragments
  }

  /** The last finish reason that was given. */
  function ReasonOf(events: seq<Event>): string {
    if events == [] then ""
    else
      var e := events[|events| - 1];
      if e.Event? && e.finishReason != "" then e.finishReason else ReasonOf(events[..|events| - 1])
  }

  /** What is made of the calls of a whole stream. */
  function RulingOf(events: seq<Event>): seq<Verdict> {
    Ruling(AbsorbAll(map[], FragmentsOf(events)), ReasonOf(events))
  }

  /** The notes on a stream; one more if nothing can run and the reply's text looks like a call. */
  function NotesWith(vs: seq<Verdict>, leaked: Option<string>): seq<Note> {
    Notes(vs) + if Calls(vs) == [] && leaked.Some? then [LeakedAsText(leaked.value)] else []
  }

  lemma NotesFollow(before: seq<Note>, vs: seq<Verdict>, leaked: Option<string>)
    ensures before + Notes(vs) + (if Calls(vs) == [] && leaked.Some? then [LeakedAsText(leaked.value)] else [])
         == before + NotesWith(vs, leaked)
  {
  }

  /** What has been read of a stream, up to event `n`. */
  predicate HasRead(events: seq<Event>, n: nat, content: string, reason: string, ps: Partials)
    requires n <= |events|
  {
    && content == Said(events[..n]) && reason == ReasonOf(events[..n])
    && ps == AbsorbAll(map[], FragmentsOf(events[..n]))
  }

  lemma AllRead(events: seq<Event>, content: string, reason: string, ps: Partials)
    requires HasRead(events, |events|, content, reason, ps)
    ensures content == Said(events) && reason == ReasonOf(events) && ps == AbsorbAll(map[], FragmentsOf(events))
  {
    assert events[..|events|] == events;
  }

  lemma ReadsOn(events: seq<Event>, n: nat, content: string, reason: string, ps: Partials)
    requires n < |events| && HasRead(events, n, content, reason, ps)
    ensures
      var e := events[n];
      HasRead(events, n + 1, content + Spoken(e).content,
              if e.Event? && e.finishReason != "" then e.finishReason else reason,
              AbsorbAll(ps, Spoken(e).fragments))
  {
    assert events[..n + 1][..n] == events[..n];
    AbsorbConcat(map[], FragmentsOf(events[..n]), Spoken(events[n]).fragments);
  }

  lemma ConsumesSpoken(content: string, ps: Partials, e: Event)
    ensures e.Unusable? || e.delta.None? ==>
              content + Spoken(e).content == content && AbsorbAll(ps, Spoken(e).fragments) == ps
  {
  }

  lemma RunningHasId(ps: Partials, key: int, reason: string, c: ToolCall)
    requires Runs(ps, key, reason, c)
    ensures c.id != ""
  {
    var id := FallbackId(key);
    assert id[0] == 'c';
  }

  /** No call that may run has an empty id. */
  lemma IdsAreNeverEmpty(ps: Partials, reason: string)
    ensures forall k :: 0 <= k < |Calls(Ruling(ps, reason))| ==> Calls(Ruling(ps, reason))[k].id != ""
  {
    var cs := Calls(Ruling(ps, reason));
    var sources := CallsInOrder(ps, reason);
    forall k | 0 <= k < |cs| ensures cs[k].id != "" {
      RunningHasId(ps, sources[k], reason, cs[k]);
    }
  }

  // ----- whether their ids are distinct -----

  lemma {:induction false} DecimalIsInjective(m: nat, n: nat)
    requires Decimal(m) == Decimal(n)
    ensures m == n
    decreases m
  {
    LastDigit(m);
    LastDigit(n);
    if m >= 10 && n >= 10 {
      DecimalIsInjective(m / 10, n / 10);
    }
  }

  /** What a text of digits is worth. */
  function Worth(digits: string): int {
    if digits == "" then 0
    else 10 * Worth(digits[..|digits| - 1]) + (digits[|digits| - 1] as int - '0' as int)
  }

  /** Plain decimal notation: digits alone, none of them a leading zero, worth the number. */
  lemma {:induction false} DecimalIsWorth(n: nat)
    ensures Worth(Decimal(n)) == n && forall k :: 0 <= k < |Decimal(n)| ==> '0' <= Decimal(n)[k] <= '9'
    ensures n > 0 ==> Decimal(n)[0] != '0'
    decreases n
  {
    LastDigit(n);
    if n >= 10 {
      DecimalIsWorth(n / 10);
      assert forall k :: 0 <= k < |Decimal(n)| - 1 ==> Decimal(n)[k] == Decimal(n / 10)[k];
    } else {
      assert Decimal(n)[..0] == "";
    }
  }

  lemma LastDigit(n: nat)
    ensures |Decimal(n)| == 1 <==> n < 10
    ensures |Decimal(n)| >= 1 && Decimal(n)[|Decimal(n)| - 1] == '0' + (n % 10) as char
    ensures n >= 10 ==> Decimal(n / 10) == Decimal(n)[..|Decimal(n)| - 1]
    ensures Decimal(n)[0] != '-'
  {
  }

  lemma SignedIsInjective(m: int, n: int)
    requires Signed(m) == Signed(n)
    ensures m == n
  {
    SignOf(m);
    SignOf(n);
    if m < 0 { DecimalIsInjective(-m, -n); } else { DecimalIsInjective(m, n); }
  }

  lemma SignOf(n: int)
    ensures Signed(n) != "" && (Signed(n)[0] == '-' <==> n < 0)
    ensures if n < 0 then Signed(n)[1..] == Decimal(-n) else Signed(n) == Decimal(n)
  {
    LastDigit(if n < 0 then -n else n);
  }

  /** Every index has an id of its own to fall back on. */
  lemma FallbackIdIsInjective(i: int, j: int)
    ensures FallbackId(i) == FallbackId(j) <==> i == j
  {
    if FallbackId(i) == FallbackId(j) {
      var a, b := Signed(i), Signed(j);
      assert FallbackId(i)[5..] == a && FallbackId(j)[5..] == b;
      SignedIsInjective(i, j);
    }
  }

  /** The model gave two calls one id, or one call the id another falls back on. */
  predicate Clash(ps: Partials, i: int, j: int)
    requires i in ps && j in ps
  {
    || (ps[i].id != "" && ps[i].id == ps[j].id)
    || (ps[j].id == "" && ps[i].id == FallbackId(j)) || (ps[i].id == "" && ps[j].id == FallbackId(i))
  }

  ghost predicate NoClash(ps: Partials, reason: string) {
    forall i, j :: RunsAt(ps, i, reason) && RunsAt(ps, j, reason) && i != j ==> !Clash(ps, i, j)
  }

  predicate RunsAt(ps: Partials, i: int, reason: string) {
    i in ps && Judge(i, ps[i], reason).Call?
  }

  predicate DistinctIds(cs: seq<ToolCall>) {
    forall m, n :: 0 <= m < n < |cs| ==> cs[m].id != cs[n].id
  }

  lemma SameIdIff(ps: Partials, i: int, j: int, reason: string, a: ToolCall, b: ToolCall)
    requires Runs(ps, i, reason, a) && Runs(ps, j, reason, b) && i != j
    ensures a.id == b.id <==> Clash(ps, i, j)
  {
    FallbackIdIsInjective(i, j);
  }

  lemma SourcesClash(ps: Partials, sources: seq<int>, reason: string, cs: seq<ToolCall>, m: nat, n: nat)
    requires ComeFrom(ps, sources, reason, cs) && Increasing(sources) && m < n < |cs|
    ensures sources[m] in ps && sources[n] in ps
    ensures cs[m].id == cs[n].id <==> Clash(ps, sources[m], sources[n])
  {
    SameIdIff(ps, sources[m], sources[n], reason, cs[m], cs[n]);
  }

  /**
   The calls of a reply have distinct ids exactly when the model gave no two of
   them one id, and none the id that another, sent without one, falls back on.
   */
  lemma IdsAreDistinctIff(ps: Partials, reason: string)
    ensures DistinctIds(Calls(Ruling(ps, reason))) <==> NoClash(ps, reason)
  {
    var cs := Calls(Ruling(ps, reason));
    var sources := CallsInOrder(ps, reason);
    if NoClash(ps, reason) {
      forall m, n | 0 <= m < n < |cs| ensures cs[m].id != cs[n].id {
        SourcesClash(ps, sources, reason, cs, m, n);
        assert sources[m] in sources && sources[n] in sources;
      }
    }
    if DistinctIds(cs) {
      forall i, j | RunsAt(ps, i, reason) && RunsAt(ps, j, reason) && i != j ensures !Clash(ps, i, j) {
        DistinctClash(ps, sources, reason, cs, i, j);
      }
    }
  }

  lemma ClashIsMutual(ps: Partials, i: int, j: int)
    requires i in ps && j in ps
    ensures Clash(ps, i, j) <==> Clash(ps, j, i)
  {
  }

  lemma DistinctClash(ps: Partials, sources: seq<int>, reason: string, cs: seq<ToolCall>, i: int, j: int)
    requires ComeFrom(ps, sources, reason, cs) && Increasing(sources) && DistinctIds(cs)
    requires i in sources && j in sources && i != j
    ensures i in ps && j in ps && !Clash(ps, i, j)
  {
    var m :| 0 <= m < |sources| && sources[m] == i;
    var n :| 0 <= n < |sources| && sources[n] == j;
    if m < n {
      SourcesClash(ps, sources, reason, cs, m, n);
    } else {
      SourcesClash(ps, sources, reason, cs, n, m);
      ClashIsMutual(ps, i, j);
    }
  }

  /** A stream without ids always gives distinct ones. */
  lemma IdlessCallsAreDistinct(ps: Partials, reason: string)
    requires forall i :: i in ps ==> ps[i].id == ""
    ensures DistinctIds(Calls(Ruling(ps, reason)))
  {
    IdsAreDistinctIff(ps, reason);
  }

  lemma EmptyObjectRuns(index: int, id: string, name: string, reason: string)
    requires name != ""
    ensures Judge(index, Partial(id, name, ""), reason).Call?
  {
    assert "{}"[1] == '}';
  }

  /** A model that repeats no id can still meet a fallback: what it calls one index is what another falls back on. */
  lemma FallbackCanBeTaken(i: int, j: int, name: string, reason: string)
    requires i != j && name != ""
    ensures
      var ps := map[i := Partial(FallbackId(j), name, ""), j := Partial("", name, "")];
      RunsAt(ps, i, reason) && RunsAt(ps, j, reason) && !DistinctIds(Calls(Ruling(ps, reason)))
  {
    var ps := map[i := Partial(FallbackId(j), name, ""), j := Partial("", name, "")];
    EmptyObjectRuns(i, FallbackId(j), name, reason);
    EmptyObjectRuns(j, "", name, reason);
    assert Clash(ps, i, j);
    IdsAreDistinctIff(ps, reason);
  }

  /** What goes back into the transcript for one call. */
  datatype RawCall = RawCall(id: string, name: string, arguments: string)

  function Raw(c: ToolCall): RawCall { RawCall(c.id, c.name, c.arguments) }

  function RawAll(cs: seq<ToolCall>): (r: seq<RawCall>)
    ensures |r| == |cs| && forall k :: 0 <= k < |r| ==> r[k] == Raw(cs[k])
  {
    seq(|cs|, k requires 0 <= k < |cs| => Raw(cs[k]))
  }

  lemma OneMore(vs: seq<Verdict>, v: Verdict)
    ensures Calls(vs + [v]) == Calls(vs) + if v.Call? then [v.call] else []
    ensures Notes(vs + [v]) == Notes(vs) + if v.Malformed? then [v.note] else []
    ensures RawAll(Calls(vs + [v])) == RawAll(Calls(vs)) + if v.Call? then [Raw(v.call)] else []
  {
    assert (vs + [v])[..|vs|] == vs;
  }

  /** The verdicts on the first `n` keys. */
  function Upto(ps: Partials, keys: seq<int>, n: nat, reason: string): seq<Verdict>
    requires n <= |keys| && forall k :: k in keys ==> k in ps
  {
    Verdicts(ps, keys[..n], reason)
  }

  lemma OneMoreKey(ps: Partials, keys: seq<int>, n: nat, reason: string, cs: seq<ToolCall>, ms: seq<Note>)
    requires n < |keys| && forall k :: k in keys ==> k in ps
    ensures
      var v := Judge(keys[n], ps[keys[n]], reason);
      var before, after := Upto(ps, keys, n, reason), Upto(ps, keys, n + 1, reason);
      && cs + Calls(after) == cs + Calls(before) + (if v.Call? then [v.call] else [])
      && ms + Notes(after) == ms + Notes(before) + (if v.Malformed? then [v.note] else [])
      && RawAll(Calls(after)) == RawAll(Calls(before)) + if v.Call? then [Raw(v.call)] else []
  {
    assert keys[..n + 1][..n] == keys[..n];
    OneMore(Upto(ps, keys, n, reason), Judge(keys[n], ps[keys[n]], reason));
  }

  /** One streamed turn and the dictionary of its unfinished calls. */
  class AssistantTurn {
    var content: string
    var toolCalls: seq<ToolCall>
    var finishReason: string
    var malformed: seq<Note>
    var partials: Partials

    constructor ()
      ensures content == "" && toolCalls == [] && finishReason == "" && malformed == [] && partials == map[]
    {
      content, toolCalls, finishReason, malformed, partials := "", [], "", [], map[];
    }

    method Consume(event: Event)
      modifies this
      ensures toolCalls == old(toolCalls) && malformed == old(malformed)
      ensures finishReason
           == if event.Event? && event.finishReason != "" then event.finishReason else old(finishReason)
      ensures event.Unusable? || event.delta.None? ==> content == old(content) && partials == old(partials)
      ensures event.Event? && event.delta.Some? ==>
                && content == old(content) + event.delta.value.content
                && partials == AbsorbAll(old(partials), event.delta.value.fragments)
    {
      if event.Unusable? { return; }
      if event.finishReason != "" {
        finishReason := event.finishReason;
      }
      if event.delta.None? { return; }
      var delta := event.delta.value;
      if delta.content != "" {
        content := content + delta.content;
      }
      for n := 0 to |delta.fragments|
        invariant toolCalls == old(toolCalls) && malformed == old(malformed)
        invariant finishReason == if event.finishReason != "" then event.finishReason else old(finishReason)
        invariant content == old(content) + delta.content
        invariant AbsorbAll(partials, delta.fragments[n..]) == AbsorbAll(old(partials), delta.fragments)
      {
        var fragment := delta.fragments[n];
        assert delta.fragments[n..][1..] == delta.fragments[n + 1..];
        if fragment.Junk? { continue; }
        var partial := if fragment.index in partials then partials[fragment.index] else Partial("", "", "");
        assert partial.name + "" == partial.name && partial.arguments + "" == partial.arguments;
        if fragment.id.Some? {
          partial := partial.(id := fragment.id.value);
        }
        if fragment.name.Some? {
          partial := partial.(name := partial.name + fragment.name.value);
        }
        if fragment.arguments.Some? {
          partial := partial.(arguments := partial.arguments + fragment.arguments.value);
        }
        partials := partials[fragment.index := partial];
      }
    }

    /** The part of `turn` behind the transport: every event of a stream, and what it comes to. */
    static method Assemble(events: seq<Event>, leaked: string -> Option<string>)
      returns (turn: AssistantTurn, raw: seq<RawCall>)
      ensures fresh(turn) && turn.content == Said(events) && turn.finishReason == ReasonOf(events)
      ensures turn.toolCalls == Calls(RulingOf(events)) && raw == RawAll(turn.toolCalls)
      ensures turn.malformed == NotesWith(RulingOf(events), leaked(Said(events)))
    {
      turn := new AssistantTurn();
      turn.ReadAll(events);
      AllRead(events, turn.content, turn.finishReason, turn.partials);
      raw := turn.Finalise(leaked(turn.content));
      ghost var notes := NotesWith(RulingOf(events), leaked(Said(events)));
      assert [] + notes == notes;
    }

    method ReadAll(events: seq<Event>)
      requires content == "" && finishReason == "" && partials == map[]
      modifies this
      ensures toolCalls == old(toolCalls) && malformed == old(malformed)
      ensures HasRead(events, |events|, content, finishReason, partials)
    {
      for n := 0 to |events|
        invariant toolCalls == old(toolCalls) && malformed == old(malformed)
        invariant HasRead(events, n, content, finishReason, partials)
      {
        ReadsOn(events, n, content, finishReason, partials);
        ConsumesSpoken(content, partials, events[n]);
        Consume(events[n]);
      }
    }

    /** The loop of `_finalise`, over indices already sorted. */
    method SettleAll(keys: seq<int>) returns (raw: seq<RawCall>)
      requires forall k :: k in keys ==> k in partials
      modifies this`toolCalls, this`malformed
      ensures toolCalls == old(toolCalls) + Calls(Verdicts(partials, keys, finishReason))
      ensures raw == RawAll(Calls(Verdicts(partials, keys, finishReason)))
      ensures malformed == old(malformed) + Notes(Verdicts(partials, keys, finishReason))
    {
      raw := [];
      for n := 0 to |keys|
        invariant toolCalls == old(toolCalls) + Calls(Upto(partials, keys, n, finishReason))
        invariant raw == RawAll(Calls(Upto(partials, keys, n, finishReason)))
        invariant malformed == old(malformed) + Notes(Upto(partials, keys, n, finishReason))
      {
        OneMoreKey(partials, keys, n, finishReason, old(toolCalls), old(malformed));
        var settled := SettleOne(keys[n]);
        raw := raw + settled;
      }
      assert keys[..|keys|] == keys;
    }

    /** One index: a call, and what goes back into the transcript for it, or a note. */
    method SettleOne(index: int) returns (raw: seq<RawCall>)
      requires index in partials
      modifies this`toolCalls, this`malformed
      ensures
        var v := Judge(index, partials[index], finishReason);
        && toolCalls == old(toolCalls) + (if v.Call? then [v.call] else [])
        && malformed == old(malformed) + (if v.Malformed? then [v.note] else [])
        && raw == if v.Call? then [Raw(v.call)] else []
    {
      var partial := partials[index];
      if partial.name == "" {
        malformed := malformed + [NoName];
        return [];
      }
      var text := Strip(partial.arguments);
      if text == "" { text := "{}"; }
      if !Json.Loads(text) {
        if finishReason == "length" {
          malformed := malformed + [CutOff(partial.name)];
          return [];
        }
        malformed := malformed + [NotJson(partial.name)];
        return [];
      }
      if !Json.LoadsObject(text) {
        malformed := malformed + [NotObject(partial.name)];
        return [];
      }
      var callId := if partial.id != "" then partial.id else FallbackId(index);
      toolCalls := toolCalls + [ToolCall(callId, partial.name, text)];
      return [RawCall(callId, partial.name, text)];
    }

    /** `leaked` is the function name when the reply's text looks like a call nobody parsed. */
    method Finalise(leaked: Option<string>) returns (raw: seq<RawCall>)
      modifies this`toolCalls, this`malformed
      ensures toolCalls == old(toolCalls) + Calls(Ruling(partials, finishReason))
      ensures raw == RawAll(Calls(Ruling(partials, finishReason)))
      ensures malformed == old(malformed) + NotesWith(Ruling(partials, finishReason), leaked)
    {
      var keys := Sorted(partials.Keys);
      ghost var verdicts := Ruling(partials, finishReason);
      assert verdicts == Verdicts(partials, keys, finishReason);
      raw := SettleAll(keys);
      if raw == [] && leaked.Some? {
        malformed := malformed + [LeakedAsText(leaked.value)];
      }
      NotesFollow(old(malformed), verdicts, leaked);
    }
  }
}
