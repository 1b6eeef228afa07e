/**
 The working tree the agent may touch: reading through the cache, the
 read-before-edit permission, and writing.  The outside world may change the
 disk at any time, even between the two looks that one read takes at a file.
 */
module Workspaces {
  import opened Wrappers
  import opened Cache

  const MAX_READ_BYTES := 512_000

  // ----- the disk -----

  /** The bytes of a file: the UTF-8 form of a string, or something that is not UTF-8. */
  datatype Content = Utf8(raw: string) | Bytes(data: seq<bv8>)

  datatype Node = File(mtime: real, content: Content) | Directory

  type Disk = map<Path, Node>

  function Utf8Size(raw: string): nat
    decreases |raw|
  {
    if raw == "" then 0
    else
      (var c := raw[0] as int; if c < 0x80 then 1 else if c < 0x800 then 2 else if c < 0x1_0000 then 3 else 4)
      + Utf8Size(raw[1..])
  }

  function Size(c: Content): nat {
    match c
    case Utf8(raw) => Utf8Size(raw)
    case Bytes(data) => |data|
  }

  /** What reading in text mode makes of line ends: each of the three becomes a newline. */
  function Translate(raw: string): string
    decreases |raw|
  {
    if raw == "" then ""
    else if raw[0] == '\r' then ['\n'] + Translate(if |raw| > 1 && raw[1] == '\n' then raw[2..] else raw[1..])
    else [raw[0]] + Translate(raw[1..])
  }

  lemma {:induction false} TranslateLeavesNoReturn(raw: string)
    ensures '\r' !in Translate(raw)
    decreases |raw|
  {
    if raw != "" {
      TranslateLeavesNoReturn(raw[1..]);
      if |raw| > 1 { TranslateLeavesNoReturn(raw[2..]); }
    }
  }

  lemma {:induction false} TranslateFixes(raw: string)
    ensures '\r' !in raw ==> Translate(raw) == raw
    decreases |raw|
  {
    if raw != "" { TranslateFixes(raw[1..]); }
  }

  /** Reading changes a text exactly when there is a carriage return in it. */
  lemma TranslateIsIdentityIff(raw: string)
    ensures Translate(raw) == raw <==> '\r' !in raw
    ensures Translate(Translate(raw)) == Translate(raw)
  {
    TranslateLeavesNoReturn(raw);
    TranslateFixes(raw);
    TranslateFixes(Translate(raw));
  }

  lemma {:induction false} TranslateBehindText(a: string, b: string)
    requires '\r' !in a
    ensures Translate(a + b) == a + Translate(b)
    decreases |a|
  {
    if a == "" {
      assert a + b == b;
    } else {
      assert (a + b)[0] == a[0] && (a + b)[1..] == a[1..] + b;
      TranslateBehindText(a[1..], b);
    }
  }

  /**
   Reading, line end by line end: text without carriage returns is as it is, a
   carriage return is a newline, together with the line feed behind it if there is one.
   */
  lemma TranslateIs(a: string, b: string)
    requires '\r' !in a
    ensures Translate(a) == a
    ensures Translate(a + "\r\n" + b) == a + "\n" + Translate(b)
    ensures (b != "" ==> b[0] != '\n') ==> Translate(a + "\r" + b) == a + "\n" + Translate(b)
  {
    TranslateFixes(a);
    ReturnFeed(a, b);
    if b != "" ==> b[0] != '\n' { ReturnAlone(a, b); }
  }

  lemma ReturnFeed(a: string, b: string)
    requires '\r' !in a
    ensures Translate(a + "\r\n" + b) == a + "\n" + Translate(b)
  {
    var rest := "\r\n" + b;
    assert rest[2..] == b && a + "\r\n" + b == a + rest;
    TranslateBehindText(a, rest);
    assert a + "\n" + Translate(b) == a + ("\n" + Translate(b));
  }

  lemma ReturnAlone(a: string, b: string)
    requires '\r' !in a && (b != "" ==> b[0] != '\n')
    ensures Translate(a + "\r" + b) == a + "\n" + Translate(b)
  {
    var rest := "\r" + b;
    assert rest[1..] == b && a + "\r" + b == a + rest;
    TranslateBehindText(a, rest);
    assert a + "\n" + Translate(b) == a + ("\n" + Translate(b));
  }

  /** Section 3 of RFC 3629: how many octets a character takes. */
  lemma Utf8SizeOf(c: char)
    ensures
      var code := c as int;
      Utf8Size([c]) == if code <= 0x7F then 1 else if code <= 0x7FF then 2 else if code <= 0xFFFF then 3 else 4
  {
    assert [c][1..] == "";
  }

  lemma {:induction false} Utf8SizeAdds(a: string, b: string)
    ensures Utf8Size(a + b) == Utf8Size(a) + Utf8Size(b)
    decreases |a|
  {
    if a == "" {
      assert a + b == b;
    } else {
      assert (a + b)[0] == a[0] && (a + b)[1..] == a[1..] + b;
      Utf8SizeAdds(a[1..], b);
    }
  }

  predicate IsFile(d: Disk, path: Path) { path in d && d[path].File? }

  function TextAt(d: Disk, path: Path): Option<string> {
    if IsFile(d, path) && d[path].content.Utf8? then Some(Translate(d[path].content.raw)) else None
  }

  /** A change from outside: a path gets a new node, or loses the one it had. */
  datatype Change = Change(path: Path, node: Option<Node>)

  function Changed(d: Disk, c: Change): Disk {
    match c.node
    case Some(node) => d[c.path := node]
    case None => d - {c.path}
  }

  function ChangedAll(d: Disk, cs: seq<Change>): Disk
    decreases |cs|
  {
    if cs == [] then d else ChangedAll(Changed(d, cs[0]), cs[1..])
  }

  // ----- the workspace -----

  datatype WS = WS(disk: Disk, cache: seq<Entry>, maxSize: nat,
                   seen: set<Path>, written: set<Path>, writtenSinceRead: set<Path>)

  datatype Refusal = Outside | Missing | NotAFile | TooLarge | NotText | Vanished | NotSeen | CannotWrite

  /** What a read would say without a cache. */
  function ReadDirect(d: Disk, path: Path): Result<string, Refusal> {
    if path !in d then Failure(Missing)
    else if d[path].Directory? then Failure(NotAFile)
    else if Size(d[path].content) > 512_000 then Failure(TooLarge)
    else if d[path].content.Bytes? then Failure(NotText)
    else Success(Translate(d[path].content.raw))
  }

  function MarkRead(w: WS, path: Path, partial: bool): WS {
    w.(seen := w.seen + {path}, writtenSinceRead := if partial then w.writtenSinceRead else w.writtenSinceRead - {path})
  }

  /** `read`, with what happens outside between the stat and the end of the call. */
  function Read(w: WS, path: Path, partial: bool, during: seq<Change>): (WS, Result<string, Refusal>) {
    var later := ChangedAll(w.disk, during);
    if path !in w.disk then (w.(disk := later), Failure(Missing))
    else if w.disk[path].Directory? then (w.(disk := later), Failure(NotAFile))
    else if Size(w.disk[path].content) > MAX_READ_BYTES then (w.(disk := later), Failure(TooLarge))
    else
      var mtime := w.disk[path].mtime;
      var (cache, hit) := Get(w.cache, path, mtime);
      if hit.Some? then (MarkRead(w.(disk := later, cache := cache), path, partial), Success(hit.value))
      else Load(w.(disk := later, cache := cache), path, mtime, partial)
  }

  /** The second look, after a miss. */
  function Load(w: WS, path: Path, mtime: real, partial: bool): (WS, Result<string, Refusal>) {
    if !IsFile(w.disk, path) then (w, Failure(Vanished))
    else if TextAt(w.disk, path).None? then (w, Failure(NotText))
    else
      var text := TextAt(w.disk, path).value;
      (MarkRead(w.(cache := Put(w.cache, w.maxSize, Entry(path, mtime, text))), path, partial), Success(text))
  }

  /** Some part of the path before a slash is a file, so that its directories cannot be made. */
  predicate Blocked(d: Disk, path: Path) {
    exists i :: 0 <= i < |path| && path[i] == '/' && IsFile(d, path[..i])
  }

  /** A file can be put here. */
  predicate Writable(d: Disk, path: Path) {
    !Blocked(d, path) && !(path in d && d[path].Directory?)
  }

  /** `write`, when the file then has the given mtime. */
  function Write(w: WS, path: Path, text: string, mtime: real): (WS, bool) {
    if !Writable(w.disk, path) then (w, false)
    else
      (w.(disk := w.disk[path := File(mtime, Utf8(text))], cache := Drop(w.cache, path),
          seen := w.seen + {path}, written := w.written + {path}, writtenSinceRead := w.writtenSinceRead + {path}),
       true)
  }

  /**
   A write succeeds unless the path is a directory or lies under a file.  Then
   the file has the text, the cache no entry for it, and the path is seen,
   written, and written since it was read; all else is as it was.
   */
  lemma WriteIs(w: WS, path: Path, text: string, mtime: real)
    ensures
      var (w', ok) := Write(w, path, text, mtime);
      && (ok <==> !(path in w.disk && w.disk[path].Directory?)
                  && forall i :: 0 <= i < |path| && path[i] == '/' ==> !IsFile(w.disk, path[..i]))
      && (!ok ==> w' == w)
      && (ok ==>
            && w'.disk == w.disk[path := File(mtime, Utf8(text))] && w'.maxSize == w.maxSize
            && Lookup(w'.cache, path) == None
            && (forall p :: p in w'.seen <==> p in w.seen || p == path)
            && (forall p :: p in w'.written <==> p in w.written || p == path)
            && (forall p :: p in w'.writtenSinceRead <==> p in w.writtenSinceRead || p == path))
  {
    DropKeeps(w.cache, path);
    LookupIs(Drop(w.cache, path), path);
  }

  // ----- the cache against the disk -----

  /** Every mtime a path has had. */
  type Used = set<(Path, real)>

  predicate EntryIsTrue(d: Disk, e: Entry) {
    IsFile(d, e.path) && d[e.path].mtime == e.mtime ==> TextAt(d, e.path) == Some(e.text)
  }

  ghost predicate Truthful(d: Disk, cache: seq<Entry>, used: Used) {
    && (forall e :: e in cache ==> EntryIsTrue(d, e) && (e.path, e.mtime) in used)
    && (forall p :: IsFile(d, p) ==> (p, d[p].mtime) in used)
  }

  /** The sets of paths, one within the other. */
  predicate Nested(w: WS) {
    w.writtenSinceRead <= w.written <= w.seen
  }

  ghost predicate Good(w: WS, used: Used) {
    Truthful(w.disk, w.cache, used) && Nested(w)
  }

  /** The mtime a change brings in is one its path has not had. */
  predicate Fresh(used: Used, c: Change) {
    c.node.Some? && c.node.value.File? ==> (c.path, c.node.value.mtime) !in used
  }

  function Marked(used: Used, c: Change): Used {
    if c.node.Some? && c.node.value.File? then used + {(c.path, c.node.value.mtime)} else used
  }

  predicate FreshAll(used: Used, cs: seq<Change>)
    decreases |cs|
  {
    cs == [] || (Fresh(used, cs[0]) && FreshAll(Marked(used, cs[0]), cs[1..]))
  }

  function MarkedAll(used: Used, cs: seq<Change>): Used
    decreases |cs|
  {
    if cs == [] then used else MarkedAll(Marked(used, cs[0]), cs[1..])
  }

  lemma ChangeKeepsTruth(d: Disk, cache: seq<Entry>, used: Used, c: Change)
    requires Truthful(d, cache, used) && Fresh(used, c)
    ensures Truthful(Changed(d, c), cache, Marked(used, c))
  {
    var d' := Changed(d, c);
    forall e | e in cache ensures EntryIsTrue(d', e) && (e.path, e.mtime) in Marked(used, c) {
      assert EntryIsTrue(d, e) && (e.path, e.mtime) in used;
    }
    forall p | IsFile(d', p) ensures (p, d'[p].mtime) in Marked(used, c) {
      if p != c.path { assert IsFile(d, p); }
    }
  }

  lemma {:induction false} ChangesKeepTruth(d: Disk, cache: seq<Entry>, used: Used, cs: seq<Change>)
    requires Truthful(d, cache, used) && FreshAll(used, cs)
    ensures Truthful(ChangedAll(d, cs), cache, MarkedAll(used, cs))
    decreases |cs|
  {
    if cs != [] {
      ChangeKeepsTruth(d, cache, used, cs[0]);
      ChangesKeepTruth(Changed(d, cs[0]), cache, Marked(used, cs[0]), cs[1..]);
    }
  }

  lemma {:induction false} MarkedGrows(used: Used, cs: seq<Change>)
    ensures used <= MarkedAll(used, cs)
    decreases |cs|
  {
    if cs != [] { MarkedGrows(Marked(used, cs[0]), cs[1..]); }
  }

  /** Truth only needs the entries to be among true ones. */
  lemma FewerAreTrue(d: Disk, cache: seq<Entry>, fewer: seq<Entry>, used: Used)
    requires Truthful(d, cache, used) && forall e :: e in fewer ==> e in cache
    ensures Truthful(d, fewer, used)
  {
  }

  lemma GetKeepsTruth(d: Disk, cache: seq<Entry>, used: Used, path: Path, mtime: real)
    requires Truthful(d, cache, used)
    ensures Truthful(d, Get(cache, path, mtime).0, used)
    ensures Get(cache, path, mtime).1.Some? ==>
              Entry(path, mtime, Get(cache, path, mtime).1.value) in cache
  {
    LookupIs(cache, path);
    DropKeeps(cache, path);
    FewerAreTrue(d, cache, Get(cache, path, mtime).0, used);
  }

  lemma PutKeepsTruth(d: Disk, cache: seq<Entry>, maxSize: nat, used: Used, e: Entry)
    requires Truthful(d, cache, used) && EntryIsTrue(d, e) && (e.path, e.mtime) in used
    ensures Truthful(d, Put(cache, maxSize, e), used)
  {
    DropKeeps(cache, e.path);
  }

  /** The text a read gives is the disk's at one of its two looks, and the cache stays true. */
  lemma ReadIsHonest(w: WS, used: Used, path: Path, partial: bool, during: seq<Change>)
    requires Good(w, used) && FreshAll(used, during)
    ensures
      var (w', r) := Read(w, path, partial, during);
      && Good(w', MarkedAll(used, during)) && w'.disk == ChangedAll(w.disk, during)
      && (r.Success? ==> TextAt(w.disk, path) == Some(r.value) || TextAt(w'.disk, path) == Some(r.value))
  {
    var used', later := MarkedAll(used, during), ChangedAll(w.disk, during);
    ChangesKeepTruth(w.disk, w.cache, used, during);
    MarkedGrows(used, during);
    if IsFile(w.disk, path) {
      var mtime := w.disk[path].mtime;
      GetKeepsTruth(w.disk, w.cache, used, path, mtime);
      GetKeepsTruth(later, w.cache, used', path, mtime);
      if TextAt(later, path).Some? {
        var entry := Entry(path, mtime, TextAt(later, path).value);
        PutKeepsTruth(later, Get(w.cache, path, mtime).0, w.maxSize, used', entry);
      }
    }
  }

  /** Undisturbed, a read with the cache gives what one without it would, and changes no file. */
  lemma CacheIsInvisible(w: WS, used: Used, path: Path, partial: bool)
    requires Good(w, used)
    ensures
      var (w', r) := Read(w, path, partial, []);
      && r == ReadDirect(w.disk, path) && w'.disk == w.disk && Good(w', used)
      && w'.seen == (if r.Success? then w.seen + {path} else w.seen) && w'.written == w.written
      && w'.writtenSinceRead == if r.Success? && !partial then w.writtenSinceRead - {path} else w.writtenSinceRead
  {
    ReadIsHonest(w, used, path, partial, []);
    if IsFile(w.disk, path) { GetKeepsTruth(w.disk, w.cache, used, path, w.disk[path].mtime); }
  }

  /** A write may reuse any mtime. */
  lemma WriteKeepsGood(w: WS, used: Used, path: Path, text: string, mtime: real)
    requires Good(w, used)
    ensures Good(Write(w, path, text, mtime).0, used + {(path, mtime)})
  {
    var w' := Write(w, path, text, mtime).0;
    DropKeeps(w.cache, path);
    forall e | e in w'.cache ensures EntryIsTrue(w'.disk, e) && (e.path, e.mtime) in used + {(path, mtime)} {
      assert EntryIsTrue(w.disk, e);
    }
    forall p | IsFile(w'.disk, p) ensures (p, w'.disk[p].mtime) in used + {(path, mtime)} {
      if w'.disk != w.disk && p != path { assert IsFile(w.disk, p); }
    }
  }

  /**
   What any read answers: the first look's refusal; else the text the cache has
   for the mtime then seen; else what the second look finds.
   */
  lemma ReadIs(w: WS, path: Path, partial: bool, during: seq<Change>)
    ensures
      var r, later := Read(w, path, partial, during).1, ChangedAll(w.disk, during);
      if path !in w.disk then r == Failure(Missing)
      else if w.disk[path].Directory? then r == Failure(NotAFile)
      else if Size(w.disk[path].content) > 512_000 then r == Failure(TooLarge)
      else
        match Lookup(w.cache, path)
        case Some(e) =>
          r == (if e.mtime == w.disk[path].mtime then Success(e.text) else SecondLook(later, path))
        case None => r == SecondLook(later, path)
  {
  }

  function SecondLook(d: Disk, path: Path): Result<string, Refusal> {
    if !(path in d && d[path].File?) then Failure(Vanished)
    else if d[path].content.Bytes? then Failure(NotText)
    else Success(Translate(d[path].content.raw))
  }

  /** The cache has a text for the file as it is now, and the file reads otherwise. */
  predicate Misled(w: WS, path: Path) {
    && IsFile(w.disk, path) && Size(w.disk[path].content) <= MAX_READ_BYTES
    && var hit := Get(w.cache, path, w.disk[path].mtime).1; hit.Some? && TextAt(w.disk, path) != hit
  }

  /** In any state whatever, an undisturbed read tells the truth if and only if the cache does not mislead it. */
  lemma ReadTellsTruthIff(w: WS, path: Path, partial: bool)
    ensures Read(w, path, partial, []).1 == ReadDirect(w.disk, path) <==> !Misled(w, path)
  {
  }

  /**
   So after an outside change, in any state, the next read tells the truth if
   and only if the cache has no entry for the path with the new mtime and
   another text.
   */
  lemma ChangeIsSeenIff(w: WS, path: Path, raw: string, mtime: real, partial: bool)
    requires Utf8Size(raw) <= MAX_READ_BYTES
    ensures
      var w' := w.(disk := Changed(w.disk, Change(path, Some(File(mtime, Utf8(raw))))));
      (Read(w', path, partial, []).1 == Success(Translate(raw)))
        <==> match Lookup(w.cache, path)
             case None => true
             case Some(e) => e.mtime != mtime || e.text == Translate(raw)
  {
    ReadTellsTruthIff(w.(disk := Changed(w.disk, Change(path, Some(File(mtime, Utf8(raw)))))), path, partial);
  }

  /**
   The mtime that must not come back need not be the file's last: a change
   during a read leaves its new text in the cache under the old mtime, and an
   older version put back with that mtime is then not seen.
   */
  lemma OldMtimeComesBack(path: Path, a: string, b: string, before: real, after: real, maxSize: nat)
    requires Translate(a) != Translate(b) && Utf8Size(a) <= MAX_READ_BYTES
    ensures
      var w := WS(map[path := File(before, Utf8(a))], [], maxSize, {}, {}, {});
      var (w1, first) := Read(w, path, false, [Change(path, Some(File(after, Utf8(b))))]);
      var w2 := w1.(disk := Changed(w1.disk, Change(path, Some(File(before, Utf8(a))))));
      first == Success(Translate(b)) && Read(w2, path, false, []).1 == Success(Translate(b))
  {
    var w := WS(map[path := File(before, Utf8(a))], [], maxSize, {}, {}, {});
    var during := [Change(path, Some(File(after, Utf8(b))))];
    assert during[1..] == [];
    assert ChangedAll(w.disk, during) == Changed(w.disk, during[0]);
    var w1 := Read(w, path, false, during).0;
    assert w1.cache == [Entry(path, before, Translate(b))];
    ChangeIsSeenIff(w1, path, a, before, false);
  }

  /** In particular, directly after an undisturbed read: exactly when the mtime differs or the text is the same. */
  lemma StaleIffMtimeKept(w: WS, used: Used, path: Path, raw: string, mtime: real)
    requires Good(w, used) && Read(w, path, false, []).1.Success? && Utf8Size(raw) <= MAX_READ_BYTES
    ensures
      var (w1, first) := Read(w, path, false, []);
      var w2 := w1.(disk := Changed(w1.disk, Change(path, Some(File(mtime, Utf8(raw))))));
      (Read(w2, path, false, []).1 == Success(Translate(raw)))
        <==> mtime != w.disk[path].mtime || Translate(raw) == first.value
  {
    var (w1, first) := Read(w, path, false, []);
    var e := Entry(path, w.disk[path].mtime, first.value);
    LookupIs(w.cache, path);
    FoundAgain(w.cache, w.maxSize, e);
    FoundAgain(Get(w.cache, path, e.mtime).0, w.maxSize, e);
    assert Lookup(w1.cache, path) == Some(e);
    ChangeIsSeenIff(w1, path, raw, mtime, false);
  }

  // ----- the class -----

  class Workspace {
    var disk: Disk                      // the world's, changed by it as well
    const cache: FileCache
    var seen: set<Path>
    var written: set<Path>
    var writtenSinceRead: set<Path>

    ghost predicate Valid()
      reads this, cache
    {
      cache.Valid()
    }

    ghost function Now(): WS
      reads this, cache
    {
      WS(disk, cache.entries, cache.maxSize, seen, written, writtenSinceRead)
    }

    constructor (disk: Disk)
      ensures Valid() && Now() == WS(disk, [], 50, {}, {}, {}) && fresh(cache)
    {
      cache := new FileCache();
      this.disk, seen, written, writtenSinceRead := disk, {}, {}, {};
    }

    method ReadText(path: Path, partial: bool, during: seq<Change>) returns (r: Result<string, Refusal>)
      requires Valid()
      modifies this, cache
      ensures Valid() && (Now(), r) == Read(old(Now()), path, partial, during)
    {
      var first := disk;
      disk := ChangedAll(disk, during);
      if path !in first { return Failure(Missing); }
      if first[path].Directory? { return Failure(NotAFile); }
      var mtime := first[path].mtime;
      if Size(first[path].content) > MAX_READ_BYTES { return Failure(TooLarge); }
      var cached := cache.GetText(path, mtime);
      if cached.Some? {
        Mark(path, partial);
        return Success(cached.value);
      }
      if !IsFile(disk, path) { return Failure(Vanished); }
      var content := TextAt(disk, path);
      if content.None? { return Failure(NotText); }
      cache.PutText(path, mtime, content.value);
      Mark(path, partial);
      return Success(content.value);
    }

    method Mark(path: Path, partial: bool)
      modifies this`seen, this`writtenSinceRead
      ensures seen == old(seen) + {path}
      ensures writtenSinceRead == if partial then old(writtenSinceRead) else old(writtenSinceRead) - {path}
    {
      seen := seen + {path};
      if !partial { writtenSinceRead := writtenSinceRead - {path}; }
    }

    method WriteText(path: Path, text: string, mtime: real) returns (ok: bool)
      requires Valid()
      modifies this, cache
      ensures Valid() && (Now(), ok) == Write(old(Now()), path, text, mtime)
    {
      if Blocked(disk, path) { return false; }
      if path in disk && disk[path].Directory? { return false; }
      disk := disk[path := File(mtime, Utf8(text))];
      cache.Invalidate(path);
      seen := seen + {path};
      written := written + {path};
      writtenSinceRead := writtenSinceRead + {path};
      return true;
    }
  }
}
