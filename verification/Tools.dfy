/**
 The tools that touch files: what the user is asked to approve, what a call
 then does, and what a whole run of calls may change.
 */
module Tools {
  import opened Wrappers
  import opened Text
  import opened Search
  import opened Cache
  import opened Workspaces
  import Edits
  import Store

  type Resolver = Store.Resolver

  /** `Other` is any tool that neither asks nor changes anything the model keeps. */
  datatype Call =
    | EditFile(path: string, anchor: string, text: string, replaceAll: bool)
    | WriteFile(path: string, text: string)
    | ReadFile(path: string, partial: bool)
    | RunCommand(command: string)
    | Other

  datatype Verb = Create | Overwrite | Edit

  /** What the user is asked: a command, or the change from one text to another. */
  datatype Request = Command(command: string) | Preview(verb: Verb, path: string, before: string, after: string)

  datatype Outcome =
    | Done
    | Shown(text: string)
    | Declined
    | Refused(why: Refusal)
    | NoAnchor
    | NotThere
    | Unedited(error: Edits.EditError)
    | NoCommand

  /** What the world adds to one call: the mtime a write gets, and what happens outside meanwhile. */
  datatype World = World(mtime: real, during: seq<Change>)

  // ----- asking -----

  /** The raw look a preview takes: no cache, no size limit, a missing file is empty. */
  function Before(d: Disk, target: Path): Option<string> {
    if IsFile(d, target) then TextAt(d, target) else Some("")
  }

  function After(w: WS, target: Path, call: Call, before: string): Option<string> {
    match call
    case WriteFile(_, text) => Some(text)
    case EditFile(_, anchor, text, replaceAll) =>
      if target !in w.seen then None
      else
        match Edits.Apply(before, anchor, text, replaceAll, false) {
          case Success(after) => Some(after)
          case Failure(_) => None
        }
    case _ => None
  }

  /** `_edit_approval`. */
  function PreviewFor(w: WS, resolve: Resolver, call: Call): Option<Request>
    requires call.EditFile? || call.WriteFile?
  {
    if call.path == "" || resolve(call.path).None? then None
    else
      var target := resolve(call.path).value;
      var before := Before(w.disk, target);
      if before.None? then None
      else
        var after := After(w, target, call, before.value);
        if after.None? || after == before then None
        else
          var verb := if call.EditFile? then Edit else if before.value != "" then Overwrite else Create;
          Some(Preview(verb, call.path, before.value, after.value))
  }

  /** `approval_for`. */
  function ApprovalFor(w: WS, resolve: Resolver, call: Call): Option<Request> {
    match call
    case RunCommand(command) => if Strip(command) == "" then None else Some(Command(Strip(command)))
    case EditFile(_, _, _, _) => PreviewFor(w, resolve, call)
    case WriteFile(_, _) => PreviewFor(w, resolve, call)
    case _ => None
  }

  // ----- doing -----

  function Written(w: WS, target: Path, text: string, mtime: real): (WS, Outcome) {
    var (w', ok) := Write(w, target, text, mtime);
    (w', if ok then Done else Refused(CannotWrite))
  }

  /** `_edit_file`, once its path is resolved. */
  function EditAt(w: WS, target: Path, anchor: string, text: string, replaceAll: bool, world: World): (WS, Outcome) {
    if target !in w.seen then (w, Refused(NotSeen))
    else if anchor == "" then (w, NoAnchor)
    else
      var stale := target in w.writtenSinceRead;
      var (w1, before) := Read(w, target, false, world.during);
      if before.Failure? then (w1, Refused(before.error))
      else if !Occurs(before.value, anchor) then (w1, NotThere)
      else
        match Edits.Apply(before.value, anchor, text, replaceAll, stale)
        case Failure(e) => (w1, Unedited(e))
        case Success(after) => Written(w1, target, after, world.mtime)
  }

  /** `_write_file`, once its path is resolved. */
  function WriteAt(w: WS, target: Path, text: string, world: World): (WS, Outcome) {
    if Before(w.disk, target).None? then (w, Refused(NotText)) else Written(w, target, text, world.mtime)
  }

  function ReadAt(w: WS, target: Path, partial: bool, world: World): (WS, Outcome) {
    match Read(w, target, partial, world.during)
    case (w1, Success(text)) => (w1, Shown(text))
    case (w1, Failure(e)) => (w1, Refused(e))
  }

  predicate OfFile(call: Call) { call.EditFile? || call.WriteFile? || call.ReadFile? }

  function HandleAt(w: WS, target: Path, call: Call, world: World): (WS, Outcome)
    requires OfFile(call)
  {
    match call
    case EditFile(_, anchor, text, replaceAll) => EditAt(w, target, anchor, text, replaceAll, world)
    case WriteFile(_, text) => WriteAt(w, target, text, world)
    case ReadFile(_, partial) => ReadAt(w, target, partial, world)
  }

  function Handle(w: WS, resolve: Resolver, call: Call, world: World): (WS, Outcome) {
    if OfFile(call) then
      if resolve(call.path).None? then (w, Refused(Outside)) else HandleAt(w, resolve(call.path).value, call, world)
    else if call.RunCommand? then
      if Strip(call.command) == "" then (w, NoCommand) else (w.(disk := ChangedAll(w.disk, world.during)), Done)
    else (w, Done)
  }

  /** `invoke`: `approved` says the caller has asked already, `answer` is what the user says if asked now. */
  function Invoke(w: WS, resolve: Resolver, call: Call, approved: bool, answer: bool, world: World): (WS, Outcome) {
    if !approved && ApprovalFor(w, resolve, call).Some? && !answer then (w, Declined)
    else Handle(w, resolve, call, world)
  }

  /** A path that leads nowhere inside the workspace is never asked about, and refused with nothing done. */
  lemma OutsideIsRefused(w: WS, resolve: Resolver, call: Call, approved: bool, answer: bool, world: World)
    requires OfFile(call) && resolve(call.path).None?
    ensures ApprovalFor(w, resolve, call).None?
    ensures Invoke(w, resolve, call, approved, answer, world) == (w, Refused(Outside))
  {
  }

  // ----- approved equals written -----

  /** What a path looks like; a missing file looks like an empty one. */
  datatype Look = Words(text: string) | Data(data: seq<bv8>) | Folder

  function LookAt(d: Disk, path: Path): Look {
    if path !in d then Words("")
    else
      match d[path]
      case Directory => Folder
      case File(_, Utf8(raw)) => Words(Translate(raw))
      case File(_, Bytes(data)) => Data(data)
  }

  ghost predicate SameLooks(a: Disk, b: Disk) {
    forall p :: LookAt(a, p) == LookAt(b, p)
  }

  /** The empty path leads to the root, if anywhere, and the root is a directory. */
  predicate Rooted(w: WS, resolve: Resolver) {
    resolve("").Some? ==> resolve("").value in w.disk && w.disk[resolve("").value].Directory?
  }

  lemma NothingInEmpty(anchor: string, text: string, replaceAll: bool)
    ensures Edits.Apply("", anchor, text, replaceAll, false).Failure?
  {
    if anchor != "" {
      FindSpec("", anchor, 0);
      CountIsZeroIff("", anchor);
    }
  }

  /** An edit that would succeed finds its anchor. */
  lemma SuccessOccurs(before: string, anchor: string, text: string, replaceAll: bool, stale: bool)
    requires Edits.Apply(before, anchor, text, replaceAll, stale).Success?
    ensures anchor != "" && Occurs(before, anchor)
  {
    CountIsZeroIff(before, anchor);
  }

  /** An undisturbed edit works from the disk's own text. */
  lemma EditReadsDisk(w: WS, used: Used, target: Path)
    requires Good(w, used)
    ensures Read(w, target, false, []).1 == ReadDirect(w.disk, target)
    ensures Read(w, target, false, []).0.disk == w.disk
  {
    CacheIsInvisible(w, used, target, false);
  }

  /** What an undisturbed edit does, from the preview's own ingredients. */
  lemma EditDoes(w: WS, used: Used, target: Path, anchor: string, text: string, replaceAll: bool, mtime: real)
    requires Good(w, used) && target in w.seen
    ensures
      var (w', outcome) := EditAt(w, target, anchor, text, replaceAll, World(mtime, []));
      var before := Before(w.disk, target);
      var apply :=
        if before.Some? then Edits.Apply(before.value, anchor, text, replaceAll, false)
        else Failure(Edits.EmptyAnchor);
      if apply.Success? && Size(w.disk[target].content) <= MAX_READ_BYTES && Writable(w.disk, target)
      then outcome == Done && w'.disk == w.disk[target := File(mtime, Utf8(apply.value))]
      else outcome != Done && w'.disk == w.disk
  {
    EditReadsDisk(w, used, target);
    NothingInEmpty(anchor, text, replaceAll);
    var before := Before(w.disk, target);
    if before.Some? {
      var stale := target in w.writtenSinceRead;
      Edits.StalenessIsOnlyAdvice(before.value, anchor, text, replaceAll, false, stale);
      if Edits.Apply(before.value, anchor, text, replaceAll, false).Success? {
        SuccessOccurs(before.value, anchor, text, replaceAll, false);
      }
    }
  }

  /**
   Approved equals written: with nothing in between, the call the user approved
   leaves exactly the previewed text in the previewed file and touches no
   other, or leaves every file alone; and it is told which beforehand.
   */
  lemma ApprovedIsWritten(w: WS, used: Used, resolve: Resolver, call: Call, mtime: real)
    requires Good(w, used) && ApprovalFor(w, resolve, call).Some? && ApprovalFor(w, resolve, call).value.Preview?
    ensures resolve(call.path).Some?
    ensures
      var request, target := ApprovalFor(w, resolve, call).value, resolve(call.path).value;
      var (w', outcome) := Invoke(w, resolve, call, true, false, World(mtime, []));
      && request.path == call.path && request.verb == VerbFor(call, request.before)
      && request.before != request.after
      && LookAt(w.disk, target) in {Words(request.before), Folder}
      && (outcome == Done <==> Fits(w.disk, target, call))
      && w'.disk == if outcome == Done then w.disk[target := File(mtime, Utf8(request.after))] else w.disk
  {
    if call.EditFile? {
      EditDoes(w, used, resolve(call.path).value, call.anchor, call.text, call.replaceAll, mtime);
      NothingInEmpty(call.anchor, call.text, call.replaceAll);
    }
  }

  /** An edit is called one; a whole text creates a file, or overwrites one that has text. */
  function VerbFor(call: Call, before: string): Verb {
    if call.EditFile? then Edit else if before == "" then Create else Overwrite
  }

  /** Only commands, edits and writes are asked about, and a no ends the call with nothing done. */
  lemma AskedIff(w: WS, resolve: Resolver, call: Call, approved: bool, answer: bool, world: World)
    ensures ApprovalFor(w, resolve, call).Some? ==> call.RunCommand? || call.EditFile? || call.WriteFile?
    ensures
      var (w', outcome) := Invoke(w, resolve, call, approved, answer, world);
      && (outcome == Declined <==> !approved && !answer && ApprovalFor(w, resolve, call).Some?)
      && (outcome == Declined ==> w' == w)
  {
  }

  /**
   What a preview does not look at: the target must not be a directory nor lie
   under a file, and an edit needs a file small enough to read.
   */
  predicate Fits(d: Disk, target: Path, call: Call) {
    Writable(d, target) && (call.EditFile? ==> IsFile(d, target) && Size(d[target].content) <= MAX_READ_BYTES)
  }

  /** Nothing to approve, nothing changed: the call leaves every file looking as it did. */
  lemma NothingToApprove(w: WS, used: Used, resolve: Resolver, call: Call, mtime: real)
    requires Good(w, used) && Rooted(w, resolve) && (call.EditFile? || call.WriteFile?)
    requires ApprovalFor(w, resolve, call).None?
    ensures SameLooks(w.disk, Invoke(w, resolve, call, false, false, World(mtime, [])).0.disk)
  {
    if resolve(call.path).Some? {
      var target := resolve(call.path).value;
      if call.EditFile? {
        UneventfulEdit(w, used, target, call, mtime);
      } else {
        UneventfulWrite(w, resolve, target, call, mtime);
      }
    }
  }

  lemma UneventfulEdit(w: WS, used: Used, target: Path, call: Call, mtime: real)
    requires Good(w, used) && call.EditFile?
    requires target !in w.seen || (target in w.disk && w.disk[target].Directory?)
          || Before(w.disk, target).None?
          || After(w, target, call, Before(w.disk, target).value).None?
          || After(w, target, call, Before(w.disk, target).value) == Before(w.disk, target)
    ensures EditAt(w, target, call.anchor, call.text, call.replaceAll, World(mtime, [])).0.disk == w.disk
  {
    if target in w.seen {
      EditDoes(w, used, target, call.anchor, call.text, call.replaceAll, mtime);
      NothingInEmpty(call.anchor, call.text, call.replaceAll);
      var before := Before(w.disk, target);
      if before.Some? && Edits.Apply(before.value, call.anchor, call.text, call.replaceAll, false).Success? {
        Edits.SuccessChanges(before.value, call.anchor, call.text, call.replaceAll, false);
      }
    }
  }

  lemma UneventfulWrite(w: WS, resolve: Resolver, target: Path, call: Call, mtime: real)
    requires Rooted(w, resolve) && call.WriteFile? && resolve(call.path) == Some(target)
    requires PreviewFor(w, resolve, call).None?
    ensures SameLooks(w.disk, WriteAt(w, target, call.text, World(mtime, [])).0.disk)
  {
    var d' := WriteAt(w, target, call.text, World(mtime, [])).0.disk;
    if d' != w.disk {
      assert Before(w.disk, target) == Some(call.text);
      if IsFile(w.disk, target) { TranslateIsIdentityIff(w.disk[target].content.raw); }
      assert LookAt(d', target) == LookAt(w.disk, target);
      forall p ensures LookAt(w.disk, p) == LookAt(d', p) {}
    }
  }

  /**
   No change without consent: a tool that asks by itself changes how a file
   looks only after a yes, and then as previewed, or by a command that was shown.
   */
  lemma NoUnapprovedChange(w: WS, used: Used, resolve: Resolver, call: Call, answer: bool, mtime: real)
    requires Good(w, used) && Rooted(w, resolve) && !call.RunCommand?
    ensures
      var (w', outcome) := Invoke(w, resolve, call, false, answer, World(mtime, []));
      SameLooks(w.disk, w'.disk)
      || (answer && outcome == Done && ApprovalFor(w, resolve, call).Some? && (call.EditFile? || call.WriteFile?)
          && resolve(call.path).Some?
          && (var after := Utf8(ApprovalFor(w, resolve, call).value.after);
              w'.disk == w.disk[resolve(call.path).value := File(mtime, after)]))
  {
    if call.EditFile? || call.WriteFile? {
      if ApprovalFor(w, resolve, call).None? {
        NothingToApprove(w, used, resolve, call, mtime);
      } else {
        ApprovedIsWritten(w, used, resolve, call, mtime);
      }
    } else if call.ReadFile? && resolve(call.path).Some? {
      CacheIsInvisible(w, used, resolve(call.path).value, call.partial);
    }
  }

  /** A command runs only as it was shown, and an empty one not at all. */
  lemma CommandNeedsYes(w: WS, resolve: Resolver, call: Call, answer: bool, world: World)
    requires call.RunCommand?
    ensures
      var (w', outcome) := Invoke(w, resolve, call, false, answer, world);
      && (outcome == Done <==> answer && Strip(call.command) != "")
      && (outcome == Done ==> ApprovalFor(w, resolve, call) == Some(Command(Strip(call.command))))
      && (outcome != Done ==> w' == w)
  {
  }

  /**
   What an undisturbed edit comes to, outcome by outcome: without permission,
   without an anchor, with nothing to read, or with an anchor that is not there,
   nothing happens; and the rest is the replacer's.
   */
  lemma EditOutcomes(w: WS, used: Used, target: Path, anchor: string, text: string, replaceAll: bool, mtime: real)
    requires Good(w, used)
    ensures
      var outcome := EditAt(w, target, anchor, text, replaceAll, World(mtime, [])).1;
      var before := ReadDirect(w.disk, target);
      if target !in w.seen then outcome == Refused(NotSeen)
      else if anchor == "" then outcome == NoAnchor
      else if before.Failure? then outcome == Refused(before.error)
      else if !Occurs(before.value, anchor) then outcome == NotThere
      else
        match Edits.Apply(before.value, anchor, text, replaceAll, target in w.writtenSinceRead)
        case Failure(e) => outcome == Unedited(e)
        case Success(_) => outcome == if Blocked(w.disk, target) then Refused(CannotWrite) else Done
  {
    EditReadsDisk(w, used, target);
  }

  /**
   The tool looks for the anchor before the replacer does, so that what the
   replacer has to say of an anchor that is not there is never said: whatever
   happens meanwhile, no edit ends in its diagnosis.
   */
  lemma DiagnosisIsNeverGiven(w: WS, target: Path, anchor: string, text: string, replaceAll: bool, world: World)
    ensures
      var outcome := EditAt(w, target, anchor, text, replaceAll, world).1;
      outcome.Unedited? ==>
        outcome.error.Ambiguous? || outcome.error == Edits.Identical(true)
  {
    var r := Read(w, target, false, world.during).1;
    if anchor != "" && r.Success? { CountIsZeroIff(r.value, anchor); }
  }

  // ----- line ends -----

  /**
   A write that asks for nothing can still change the bytes: writing back the
   text a file shows rewrites it, unasked, exactly when it has a carriage return.
   */
  lemma UnaskedRewriteIff(w: WS, resolve: Resolver, path: string, mtime: real)
    requires path != "" && resolve(path).Some? && TextAt(w.disk, resolve(path).value).Some?
    ensures
      var target := resolve(path).value;
      var call := WriteFile(path, TextAt(w.disk, target).value);
      && ApprovalFor(w, resolve, call).None?
      && (Invoke(w, resolve, call, false, false, World(mtime, [])).0.disk[target].content == w.disk[target].content
          <==> '\r' !in w.disk[target].content.raw || Blocked(w.disk, target))
  {
    TranslateIsIdentityIff(w.disk[resolve(path).value].content.raw);
  }

  lemma {:induction false} ReplaceAllAddsNoReturn(c: string, a: string, b: string, i: nat)
    requires a != "" && i <= |c| && '\r' !in c && '\r' !in b
    ensures '\r' !in ReplaceAll(c, a, b, i)
    decreases |c| - i
  {
    FindSpec(c, a, i);
    if Find(c, a, i).Some? { ReplaceAllAddsNoReturn(c, a, b, Find(c, a, i).value + |a|); }
  }

  lemma ReplaceFirstAddsNoReturn(c: string, a: string, b: string)
    requires a != "" && '\r' !in c && '\r' !in b
    ensures '\r' !in ReplaceFirst(c, a, b)
  {
  }

  /** The replacement an edit asks for, on any text. */
  function Replaced(c: string, a: string, b: string, replaceAll: bool): string
    requires a != ""
  {
    if replaceAll then ReplaceAll(c, a, b, 0) else ReplaceFirst(c, a, b)
  }

  lemma ReplacedAddsNoReturn(c: string, a: string, b: string, replaceAll: bool)
    requires a != "" && '\r' !in c && '\r' !in b
    ensures '\r' !in Replaced(c, a, b, replaceAll)
  {
    if replaceAll { ReplaceAllAddsNoReturn(c, a, b, 0); } else { ReplaceFirstAddsNoReturn(c, a, b); }
  }

  /** A return behind `i` that is not in the anchor is before or behind its first occurrence. */
  lemma ReturnAround(c: string, a: string, i: nat, p: nat)
    requires i <= p && Find(c, a, i) == Some(p) && p + |a| <= |c|
    requires '\r' in c[i..] && '\r' !in a
    ensures '\r' in c[i..p] || '\r' in c[p + |a|..]
  {
    FindSpec(c, a, i);
    var k :| i <= k < |c| && c[k] == '\r';
    assert forall m :: p <= m < p + |a| ==> c[m] == c[p..p + |a|][m - p] != '\r';
    if k < p {
      assert c[i..p][k - i] == '\r';
    } else {
      assert c[p + |a|..][k - p - |a|] == '\r';
    }
  }

  lemma {:induction false} ReplaceAllKeepsReturn(c: string, a: string, b: string, i: nat)
    requires a != "" && i <= |c| && '\r' in c[i..] && '\r' !in a
    ensures '\r' in ReplaceAll(c, a, b, i)
    decreases |c| - i
  {
    if Find(c, a, i).Some? {
      var p := Find(c, a, i).value;
      ReturnAround(c, a, i, p);
      if '\r' in c[p + |a|..] { ReplaceAllKeepsReturn(c, a, b, p + |a|); }
    }
  }

  lemma ReplacedKeepsReturn(c: string, a: string, b: string, replaceAll: bool)
    requires a != "" && '\r' in c && '\r' !in a
    ensures '\r' in Replaced(c, a, b, replaceAll)
  {
    assert c[0..] == c;
    if replaceAll {
      ReplaceAllKeepsReturn(c, a, b, 0);
    } else if Find(c, a, 0).Some? {
      ReturnAround(c, a, 0, Find(c, a, 0).value);
      assert c[0..Find(c, a, 0).value] == c[..Find(c, a, 0).value];
    }
  }

  lemma AnchorHasNoReturn(raw: string, anchor: string)
    requires Occurs(Translate(raw), anchor)
    ensures '\r' !in anchor
  {
    TranslateLeavesNoReturn(raw);
    var i :| 0 <= i <= |Translate(raw)| && OccursAt(Translate(raw), anchor, i);
    assert forall k :: 0 <= k < |anchor| ==> anchor[k] == Translate(raw)[i + k];
  }

  /** Replacing in the text as read differs from replacing in the text as stored exactly by its carriage returns. */
  lemma ReplacedInPlaceIff(raw: string, anchor: string, text: string, replaceAll: bool)
    requires anchor != "" && '\r' !in text && Occurs(Translate(raw), anchor)
    ensures Replaced(Translate(raw), anchor, text, replaceAll) == Replaced(raw, anchor, text, replaceAll)
            <==> '\r' !in raw
    ensures '\r' !in Replaced(Translate(raw), anchor, text, replaceAll)
  {
    TranslateIsIdentityIff(raw);
    TranslateLeavesNoReturn(raw);
    AnchorHasNoReturn(raw, anchor);
    ReplacedAddsNoReturn(Translate(raw), anchor, text, replaceAll);
    if '\r' in raw { ReplacedKeepsReturn(raw, anchor, text, replaceAll); }
  }

  /**
   An edit makes its replacement in the file and leaves the rest of the bytes
   alone exactly when the file has no carriage return; otherwise it rewrites
   every line end, wherever its anchor is, and none is left.
   */
  lemma EditInPlaceIff(w: WS, used: Used, target: Path, anchor: string, text: string, replaceAll: bool, mtime: real)
    requires Good(w, used) && '\r' !in text
    requires EditAt(w, target, anchor, text, replaceAll, World(mtime, [])).1 == Done
    ensures anchor != "" && TextAt(w.disk, target).Some?
    ensures
      var d', raw := EditAt(w, target, anchor, text, replaceAll, World(mtime, [])).0.disk, w.disk[target].content.raw;
      && IsFile(d', target) && d'[target].content.Utf8? && '\r' !in d'[target].content.raw
      && (d'[target].content.raw == Replaced(raw, anchor, text, replaceAll) <==> '\r' !in raw)
  {
    EditDoes(w, used, target, anchor, text, replaceAll, mtime);
    NothingInEmpty(anchor, text, replaceAll);
    var before := Before(w.disk, target).value;
    SuccessOccurs(before, anchor, text, replaceAll, false);
    assert Edits.Apply(before, anchor, text, replaceAll, false).value == Replaced(before, anchor, text, replaceAll);
    ReplacedInPlaceIff(w.disk[target].content.raw, anchor, text, replaceAll);
  }

  // ----- whole runs -----

  datatype Event =
    | Invoked(call: Call, approved: bool, answer: bool, world: World)
    | Previewed(call: Call)
    | Resumed(items: seq<Store.Item>)
    | Happened(change: Change)          // outside

  function Step(w: WS, resolve: Resolver, e: Event): WS {
    match e
    case Invoked(call, approved, answer, world) => Invoke(w, resolve, call, approved, answer, world).0
    case Previewed(_) => w
    case Resumed(items) => Store.Restore(w, resolve, items)
    case Happened(change) => w.(disk := Changed(w.disk, change))
  }

  function RunAll(w: WS, resolve: Resolver, es: seq<Event>): WS
    decreases |es|
  {
    if es == [] then w else RunAll(Step(w, resolve, es[0]), resolve, es[1..])
  }

  /** The path an event is about, when it read or wrote it. */
  function Touched(w: WS, resolve: Resolver, e: Event): Option<Path> {
    if e.Invoked? && (e.call.ReadFile? || e.call.WriteFile? || e.call.EditFile?)
       && (var outcome := Invoke(w, resolve, e.call, e.approved, e.answer, e.world).1;
           outcome == Done || outcome.Shown?)
    then resolve(e.call.path)
    else None
  }

  /** This event let the agent edit `p` from now on: it read it, wrote it, or found it as it was saved. */
  predicate Grants(w: WS, resolve: Resolver, e: Event, p: Path) {
    || (Touched(w, resolve, e) == Some(p) && !e.call.EditFile?)
    || (e.Resumed? && p in Store.Granted(w.disk, resolve, e.items))
  }

  /** Some event of the run did. */
  predicate GrantedIn(w: WS, resolve: Resolver, es: seq<Event>, p: Path)
    decreases |es|
  {
    es != [] && (Grants(w, resolve, es[0], p) || GrantedIn(Step(w, resolve, es[0]), resolve, es[1..], p))
  }

  lemma ReadSeen(w: WS, path: Path, partial: bool, during: seq<Change>)
    ensures
      var (w', r) := Read(w, path, partial, during);
      w'.seen == (if r.Success? then w.seen + {path} else w.seen) && w'.written == w.written
  {
  }

  /** One event adds exactly the files it grants. */
  lemma SeenAfter(w: WS, resolve: Resolver, e: Event, p: Path)
    ensures p in Step(w, resolve, e).seen <==> p in w.seen || Grants(w, resolve, e, p)
  {
    if e.Invoked? && (e.call.ReadFile? || e.call.EditFile?) && resolve(e.call.path).Some? {
      ReadSeen(w, resolve(e.call.path).value, if e.call.ReadFile? then e.call.partial else false, e.world.during);
    }
  }

  /** After any run the files the agent may edit are exactly those some event granted: previews grant nothing. */
  lemma {:induction false} SeenIffGranted(w: WS, resolve: Resolver, es: seq<Event>, p: Path)
    ensures p in RunAll(w, resolve, es).seen <==> p in w.seen || GrantedIn(w, resolve, es, p)
    decreases |es|
  {
    if es != [] {
      SeenAfter(w, resolve, es[0], p);
      SeenIffGranted(Step(w, resolve, es[0]), resolve, es[1..], p);
    }
  }

  /** Every file an edit changes was granted before, in the same session. */
  lemma EditsArePermitted(w: WS, resolve: Resolver, es: seq<Event>, edit: Event)
    requires w.seen == {} && edit.Invoked? && edit.call.EditFile?
    ensures
      var edited := Touched(RunAll(w, resolve, es), resolve, edit);
      edited.Some? ==> GrantedIn(w, resolve, es, edited.value)
  {
    var edited := Touched(RunAll(w, resolve, es), resolve, edit);
    if edited.Some? { SeenIffGranted(w, resolve, es, edited.value); }
  }

  /** What an event makes of the mark that a file was written since it was read. */
  function MarkOf(w: WS, resolve: Resolver, e: Event, p: Path): Option<bool> {
    if !e.Invoked? || !OfFile(e.call) || resolve(e.call.path) != Some(p) then None
    else if Invoke(w, resolve, e.call, e.approved, e.answer, e.world).1 == Declined then None
    else
      match e.call
      case WriteFile(_, _) => if Touched(w, resolve, e).Some? then Some(true) else None
      case ReadFile(_, partial) => if Touched(w, resolve, e).Some? && !partial then Some(false) else None
      case EditFile(_, anchor, _, _) =>
        if Touched(w, resolve, e).Some? then Some(true)
        else if p in w.seen && anchor != "" && Read(w, p, false, e.world.during).1.Success? then Some(false)
        else None
  }

  /** The last mark of a run, or the one before it. */
  function LastMark(w: WS, resolve: Resolver, es: seq<Event>, p: Path, before: bool): bool
    decreases |es|
  {
    if es == [] then before
    else
      LastMark(Step(w, resolve, es[0]), resolve, es[1..], p,
               match MarkOf(w, resolve, es[0], p) case Some(mark) => mark case None => before)
  }

  lemma MarkAfterEdit(w: WS, target: Path, anchor: string, text: string, replaceAll: bool, world: World, p: Path)
    ensures
      var (w', outcome) := EditAt(w, target, anchor, text, replaceAll, world);
      p in w'.writtenSinceRead <==>
        if p != target then p in w.writtenSinceRead
        else if outcome == Done then true
        else if target in w.seen && anchor != "" && Read(w, target, false, world.during).1.Success? then false
        else p in w.writtenSinceRead
  {
    ReadMarks(w, target, world.during);
  }

  lemma ReadMarks(w: WS, path: Path, during: seq<Change>)
    ensures
      var (w', r) := Read(w, path, false, during);
      w'.writtenSinceRead == if r.Success? then w.writtenSinceRead - {path} else w.writtenSinceRead
  {
  }

  lemma MarkAfter(w: WS, resolve: Resolver, e: Event, p: Path)
    ensures p in Step(w, resolve, e).writtenSinceRead
       <==> match MarkOf(w, resolve, e, p) case Some(mark) => mark case None => p in w.writtenSinceRead
  {
    if e.Invoked? && e.call.EditFile? && resolve(e.call.path).Some? {
      MarkAfterEdit(w, resolve(e.call.path).value, e.call.anchor, e.call.text, e.call.replaceAll, e.world, p);
    }
  }

  /**
   After any run, a file counts as written since it was read exactly when the
   last thing done to it was a write or an edit, and not a whole read or an edit
   that read it and failed.
   */
  lemma {:induction false} MarkedIffWrittenLast(w: WS, resolve: Resolver, es: seq<Event>, p: Path)
    ensures p in RunAll(w, resolve, es).writtenSinceRead
       <==> LastMark(w, resolve, es, p, p in w.writtenSinceRead)
    decreases |es|
  {
    if es != [] {
      MarkAfter(w, resolve, es[0], p);
      MarkedIffWrittenLast(Step(w, resolve, es[0]), resolve, es[1..], p);
    }
  }

  /** After any run, a file counts as written exactly when some write or edit of the run was done on it. */
  lemma {:induction false} WrittenIffDone(w: WS, resolve: Resolver, es: seq<Event>, p: Path)
    ensures p in RunAll(w, resolve, es).written <==> p in w.written || WrittenIn(w, resolve, es, p)
    decreases |es|
  {
    if es != [] {
      WrittenAfter(w, resolve, es[0], p);
      WrittenIffDone(Step(w, resolve, es[0]), resolve, es[1..], p);
    }
  }

  predicate WrittenIn(w: WS, resolve: Resolver, es: seq<Event>, p: Path)
    decreases |es|
  {
    es != [] && ((Touched(w, resolve, es[0]) == Some(p) && !es[0].call.ReadFile?)
                 || WrittenIn(Step(w, resolve, es[0]), resolve, es[1..], p))
  }

  lemma WrittenAfter(w: WS, resolve: Resolver, e: Event, p: Path)
    ensures p in Step(w, resolve, e).written
       <==> p in w.written || (Touched(w, resolve, e) == Some(p) && !e.call.ReadFile?)
  {
    if e.Invoked? && OfFile(e.call) && resolve(e.call.path).Some? {
      var target := resolve(e.call.path).value;
      if e.call.ReadFile? {
        ReadSeen(w, target, e.call.partial, e.world.during);
      } else if e.call.EditFile? {
        WrittenAfterEdit(w, target, e.call.anchor, e.call.text, e.call.replaceAll, e.world);
      }
    }
  }

  lemma WrittenAfterEdit(w: WS, target: Path, anchor: string, text: string, replaceAll: bool, world: World)
    ensures
      var (w', outcome) := EditAt(w, target, anchor, text, replaceAll, world);
      w'.written == if outcome == Done then w.written + {target} else w.written
  {
    ReadSeen(w, target, false, world.during);
  }

  lemma EditKeepsNested(w: WS, target: Path, anchor: string, text: string, replaceAll: bool, world: World)
    requires Nested(w)
    ensures Nested(EditAt(w, target, anchor, text, replaceAll, world).0)
  {
    ReadKeepsNested(w, target, false, world.during);
  }

  lemma ReadKeepsNested(w: WS, path: Path, partial: bool, during: seq<Change>)
    requires Nested(w)
    ensures Nested(Read(w, path, partial, during).0)
  {
  }

  lemma StepKeepsNested(w: WS, resolve: Resolver, e: Event)
    requires Nested(w)
    ensures Nested(Step(w, resolve, e))
  {
    if e.Invoked? {
      match e.call
      case EditFile(path, anchor, text, replaceAll) =>
        if resolve(path).Some? { EditKeepsNested(w, resolve(path).value, anchor, text, replaceAll, e.world); }
      case ReadFile(path, partial) =>
        if resolve(path).Some? { ReadKeepsNested(w, resolve(path).value, partial, e.world.during); }
      case _ =>
    }
  }

  /**
   Over every run, whatever the mtimes: what is written since it was read was
   written, and what was written is seen.
   */
  lemma {:induction false} SetsStayNested(w: WS, resolve: Resolver, es: seq<Event>)
    requires Nested(w)
    ensures Nested(RunAll(w, resolve, es))
    decreases |es|
  {
    if es != [] {
      StepKeepsNested(w, resolve, es[0]);
      SetsStayNested(Step(w, resolve, es[0]), resolve, es[1..]);
    }
  }

  // ----- honest reads over whole runs -----

  /** What an event brings onto the disk from outside must have mtimes the path has not had. */
  predicate FreshEvent(used: Used, e: Event) {
    match e
    case Invoked(_, _, _, world) => FreshAll(used, world.during)
    case Happened(change) => Fresh(used, change)
    case _ => true
  }

  /** The mtimes used once an event is over, an agent's own write among them. */
  function UsedAfter(w: WS, used: Used, resolve: Resolver, e: Event): Used {
    match e
    case Invoked(call, _, _, world) =>
      MarkedAll(used, world.during)
      + (if !call.ReadFile? && Touched(w, resolve, e).Some? then {(Touched(w, resolve, e).value, world.mtime)} else {})
    case Happened(change) => Marked(used, change)
    case _ => used
  }

  ghost predicate FreshRun(w: WS, used: Used, resolve: Resolver, es: seq<Event>)
    decreases |es|
  {
    es == []
    || (FreshEvent(used, es[0])
        && FreshRun(Step(w, resolve, es[0]), UsedAfter(w, used, resolve, es[0]), resolve, es[1..]))
  }

  lemma MoreUsed(w: WS, used: Used, more: Used)
    requires Good(w, used) && used <= more
    ensures Good(w, more)
  {
  }

  lemma ReadKeepsGood(w: WS, used: Used, path: Path, partial: bool, during: seq<Change>)
    requires Good(w, used) && FreshAll(used, during)
    ensures Good(Read(w, path, partial, during).0, MarkedAll(used, during))
  {
    ReadIsHonest(w, used, path, partial, during);
  }

  lemma EditKeepsGood(w: WS, used: Used, target: Path, anchor: string, text: string, replaceAll: bool, world: World)
    requires Good(w, used) && FreshAll(used, world.during)
    ensures
      var (w', outcome) := EditAt(w, target, anchor, text, replaceAll, world);
      Good(w', MarkedAll(used, world.during) + if outcome == Done then {(target, world.mtime)} else {})
  {
    var used' := MarkedAll(used, world.during);
    MarkedGrows(used, world.during);
    if target !in w.seen || anchor == "" {
      MoreUsed(w, used, used');
    } else {
      ReadKeepsGood(w, used, target, false, world.during);
      var (w1, before) := Read(w, target, false, world.during);
      if before.Success? {
        var apply := Edits.Apply(before.value, anchor, text, replaceAll, target in w.writtenSinceRead);
        if apply.Success? { WriteKeepsGood(w1, used', target, apply.value, world.mtime); }
      }
    }
  }

  lemma WriteAtKeepsGood(w: WS, used: Used, target: Path, text: string, world: World)
    requires Good(w, used)
    ensures
      var (w', outcome) := WriteAt(w, target, text, world);
      Good(w', used + if outcome == Done then {(target, world.mtime)} else {})
  {
    WriteKeepsGood(w, used, target, text, world.mtime);
  }

  lemma InvokeKeepsGood(w: WS, used: Used, resolve: Resolver, e: Event)
    requires e.Invoked? && Good(w, used) && FreshEvent(used, e)
    ensures Good(Step(w, resolve, e), UsedAfter(w, used, resolve, e))
  {
    var during := e.world.during;
    var used' := MarkedAll(used, during);
    MarkedGrows(used, during);
    MoreUsed(w, used, used');
    ChangesKeepTruth(w.disk, w.cache, used, during);
    match e.call
    case EditFile(path, anchor, text, replaceAll) =>
      if resolve(path).Some? { EditKeepsGood(w, used, resolve(path).value, anchor, text, replaceAll, e.world); }
    case WriteFile(path, text) =>
      if resolve(path).Some? { WriteAtKeepsGood(w, used', resolve(path).value, text, e.world); }
    case ReadFile(path, partial) =>
      if resolve(path).Some? { ReadKeepsGood(w, used, resolve(path).value, partial, during); }
    case RunCommand(_) =>
    case Other =>
  }

  lemma StepKeepsGood(w: WS, used: Used, resolve: Resolver, e: Event)
    requires Good(w, used) && FreshEvent(used, e)
    ensures Good(Step(w, resolve, e), UsedAfter(w, used, resolve, e))
  {
    match e
    case Invoked(_, _, _, _) => InvokeKeepsGood(w, used, resolve, e);
    case Happened(change) => ChangeKeepsTruth(w.disk, w.cache, used, change);
    case Previewed(_) =>
    case Resumed(_) =>
  }

  /** A text shown to the model is the file's, on the disk before the call or after what happened during it. */
  predicate Honest(w: WS, resolve: Resolver, e: Event) {
    e.Invoked? && e.call.ReadFile? ==>
      var (w', outcome) := Invoke(w, resolve, e.call, e.approved, e.answer, e.world);
      outcome.Shown? ==>
        && resolve(e.call.path).Some?
        && (TextAt(w.disk, resolve(e.call.path).value) == Some(outcome.text)
            || TextAt(w'.disk, resolve(e.call.path).value) == Some(outcome.text))
  }

  /** This text, taken for the file's, is what the edit replaced in and wrote. */
  predicate EditedFrom(text: Option<string>, call: Call, mtime: real, after: Node)
    requires call.EditFile?
  {
    text.Some? &&
    match Edits.Apply(text.value, call.anchor, call.text, call.replaceAll, false)
    case Success(edited) => after == File(mtime, Utf8(edited))
    case Failure(_) => false
  }

  /**
   An edit that is done has replaced in a text the file really had, before the
   call or after what happened during it, and has touched no other file.
   */
  predicate HonestEdit(w: WS, resolve: Resolver, e: Event) {
    e.Invoked? && e.call.EditFile? ==>
      var (w', outcome) := Invoke(w, resolve, e.call, e.approved, e.answer, e.world);
      outcome == Done ==>
        && resolve(e.call.path).Some?
        && var target, later := resolve(e.call.path).value, ChangedAll(w.disk, e.world.during);
           && target in w'.disk && w'.disk == later[target := w'.disk[target]]
           && (EditedFrom(TextAt(w.disk, target), e.call, e.world.mtime, w'.disk[target])
               || EditedFrom(TextAt(later, target), e.call, e.world.mtime, w'.disk[target]))
  }

  ghost predicate HonestRun(w: WS, resolve: Resolver, es: seq<Event>)
    decreases |es|
  {
    es == []
    || (Honest(w, resolve, es[0]) && HonestEdit(w, resolve, es[0])
        && HonestRun(Step(w, resolve, es[0]), resolve, es[1..]))
  }

  lemma EditIsHonest(w: WS, used: Used, resolve: Resolver, e: Event)
    requires Good(w, used) && FreshEvent(used, e)
    ensures HonestEdit(w, resolve, e)
  {
    if e.Invoked? && e.call.EditFile? && resolve(e.call.path).Some?
       && Invoke(w, resolve, e.call, e.approved, e.answer, e.world).1 == Done {
      EditAtIsHonest(w, used, resolve(e.call.path).value, e.call, e.world);
    }
  }

  lemma EditAtIsHonest(w: WS, used: Used, target: Path, call: Call, world: World)
    requires Good(w, used) && FreshAll(used, world.during) && call.EditFile?
    requires EditAt(w, target, call.anchor, call.text, call.replaceAll, world).1 == Done
    ensures
      var d', later :=
        EditAt(w, target, call.anchor, call.text, call.replaceAll, world).0.disk, ChangedAll(w.disk, world.during);
      && target in d' && d' == later[target := d'[target]]
      && (EditedFrom(TextAt(w.disk, target), call, world.mtime, d'[target])
          || EditedFrom(TextAt(later, target), call, world.mtime, d'[target]))
  {
    ReadIsHonest(w, used, target, false, world.during);
    var before := Read(w, target, false, world.during).1.value;
    Edits.StalenessIsOnlyAdvice(before, call.anchor, call.text, call.replaceAll, false,
                                target in w.writtenSinceRead);
  }

  lemma ReadFileIsHonest(w: WS, used: Used, resolve: Resolver, e: Event)
    requires Good(w, used) && FreshEvent(used, e)
    ensures Honest(w, resolve, e)
  {
    if e.Invoked? && e.call.ReadFile? && resolve(e.call.path).Some? {
      ReadIsHonest(w, used, resolve(e.call.path).value, e.call.partial, e.world.during);
    }
  }

  /**
   The cache is transparent over every run of reads, edits, writes, commands,
   resumes and outside changes: no read shows a text the disk does not hold, and
   no edit works on one.
   */
  lemma {:induction false} ReadsAreHonest(w: WS, used: Used, resolve: Resolver, es: seq<Event>)
    requires Good(w, used) && FreshRun(w, used, resolve, es)
    ensures HonestRun(w, resolve, es)
    decreases |es|
  {
    if es != [] {
      ReadFileIsHonest(w, used, resolve, es[0]);
      EditIsHonest(w, used, resolve, es[0]);
      StepKeepsGood(w, used, resolve, es[0]);
      ReadsAreHonest(Step(w, resolve, es[0]), UsedAfter(w, used, resolve, es[0]), resolve, es[1..]);
    }
  }

  /** A session that opens a workspace starts so, with the mtimes on its disk in use. */
  lemma SessionReadsAreHonest(disk: Disk, used: Used, resolve: Resolver, es: seq<Event>)
    requires forall p :: IsFile(disk, p) ==> (p, disk[p].mtime) in used
    requires FreshRun(WS(disk, [], 50, {}, {}, {}), used, resolve, es)
    ensures HonestRun(WS(disk, [], 50, {}, {}, {}), resolve, es)
  {
    assert Good(WS(disk, [], 50, {}, {}, {}), used);
    ReadsAreHonest(WS(disk, [], 50, {}, {}, {}), used, resolve, es);
  }

  // ----- the class -----

  class ToolBox {
    const workspace: Workspace
    const resolve: Resolver
    const approver: Request -> bool

    ghost predicate Valid()
      reads this, workspace, workspace.cache
    {
      workspace.Valid()
    }

    constructor (workspace: Workspace, resolve: Resolver, approver: Request -> bool)
      requires workspace.Valid()
      ensures this.workspace == workspace && this.resolve == resolve && this.approver == approver && Valid()
    {
      this.workspace, this.resolve, this.approver := workspace, resolve, approver;
    }

    /** Asking changes nothing: the workspace's files and permissions are only looked at. */
    method Approval(call: Call) returns (request: Option<Request>)
      requires Valid()
      ensures request == ApprovalFor(workspace.Now(), resolve, call)
    {
      match call
      case RunCommand(command) =>
        var stripped := Strip(command);
        return if stripped == "" then None else Some(Command(stripped));
      case EditFile(_, _, _, _) => request := EditApproval(call);
      case WriteFile(_, _) => request := EditApproval(call);
      case _ => return None;
    }

    method EditApproval(call: Call) returns (request: Option<Request>)
      requires Valid() && (call.EditFile? || call.WriteFile?)
      ensures request == PreviewFor(workspace.Now(), resolve, call)
    {
      if call.path == "" { return None; }
      var target := resolve(call.path);
      if target.None? { return None; }
      var before := Before(workspace.disk, target.value);
      if before.None? { return None; }
      var after := Proposed(target.value, call, before.value);
      if after.None? || after.value == before.value { return None; }
      var verb := if call.EditFile? then Edit else if before.value != "" then Overwrite else Create;
      return Some(Preview(verb, call.path, before.value, after.value));
    }

    method Proposed(target: Path, call: Call, before: string) returns (after: Option<string>)
      requires Valid() && (call.EditFile? || call.WriteFile?)
      ensures after == After(workspace.Now(), target, call, before)
    {
      if call.WriteFile? { return Some(call.text); }
      if target !in workspace.seen { return None; }
      var edited := Edits.Apply(before, call.anchor, call.text, call.replaceAll, false);
      return if edited.Success? then Some(edited.value) else None;
    }

    method InvokeCall(call: Call, approved: bool, world: World) returns (outcome: Outcome)
      requires Valid()
      modifies workspace, workspace.cache
      ensures Valid()
      ensures
        var request := ApprovalFor(old(workspace.Now()), resolve, call);
        (workspace.Now(), outcome)
          == Invoke(old(workspace.Now()), resolve, call, approved, request.Some? && approver(request.value), world)
    {
      if !approved {
        var request := Approval(call);
        if request.Some? && !approver(request.value) { return Declined; }
      }
      outcome := Act(call, world);
    }

    /** The tool itself. */
    method Act(call: Call, world: World) returns (outcome: Outcome)
      requires Valid()
      modifies workspace, workspace.cache
      ensures Valid() && (workspace.Now(), outcome) == Handle(old(workspace.Now()), resolve, call, world)
    {
      if OfFile(call) {
        var target := resolve(call.path);
        if target.None? { return Refused(Outside); }
        outcome := ActAt(target.value, call, world);
      } else if call.RunCommand? {
        if Strip(call.command) == "" { return NoCommand; }
        workspace.disk := ChangedAll(workspace.disk, world.during);
        return Done;
      } else {
        return Done;
      }
    }

    method ActAt(target: Path, call: Call, world: World) returns (outcome: Outcome)
      requires Valid() && OfFile(call)
      modifies workspace, workspace.cache
      ensures Valid() && (workspace.Now(), outcome) == HandleAt(old(workspace.Now()), target, call, world)
    {
      if call.EditFile? {
        outcome := EditFileAt(target, call.anchor, call.text, call.replaceAll, world);
      } else if call.WriteFile? {
        outcome := WriteFileAt(target, call.text, world);
      } else {
        outcome := ReadFileAt(target, call.partial, world);
      }
    }

    method ReadFileAt(target: Path, partial: bool, world: World) returns (outcome: Outcome)
      requires Valid()
      modifies workspace, workspace.cache
      ensures Valid() && (workspace.Now(), outcome) == ReadAt(old(workspace.Now()), target, partial, world)
    {
      var r := workspace.ReadText(target, partial, world.during);
      outcome := if r.Success? then Shown(r.value) else Refused(r.error);
    }

    method EditFileAt(target: Path, anchor: string, text: string, replaceAll: bool, world: World)
      returns (outcome: Outcome)
      requires Valid()
      modifies workspace, workspace.cache
      ensures Valid()
      ensures (workspace.Now(), outcome) == EditAt(old(workspace.Now()), target, anchor, text, replaceAll, world)
    {
      if target !in workspace.seen { return Refused(NotSeen); }
      if anchor == "" { return NoAnchor; }
      var stale := target in workspace.writtenSinceRead;
      var before := workspace.ReadText(target, false, world.during);
      if before.Failure? { return Refused(before.error); }
      if !Occurs(before.value, anchor) { return NotThere; }
      var after := Edits.Apply(before.value, anchor, text, replaceAll, stale);
      if after.Failure? { return Unedited(after.error); }
      var ok := workspace.WriteText(target, after.value, world.mtime);
      return if ok then Done else Refused(CannotWrite);
    }

    method WriteFileAt(target: Path, text: string, world: World) returns (outcome: Outcome)
      requires Valid()
      modifies workspace, workspace.cache
      ensures Valid()
      ensures (workspace.Now(), outcome) == WriteAt(old(workspace.Now()), target, text, world)
    {
      if Before(workspace.disk, target).None? { return Refused(NotText); }
      var ok := workspace.WriteText(target, text, world.mtime);
      return if ok then Done else Refused(CannotWrite);
    }
  }
}
