/**
 What a saved session remembers of the files it has seen, and what a resumed
 one is granted.  A digest is taken to be the content itself: it is as good as
 injective.  Paths are named relative to the workspace.
 */
module Store {
  import opened Wrappers
  import opened Cache
  import opened Workspaces

  /** One item of the `seen` dictionary of a saved session, in its order. */
  datatype Item = Item(name: Path, digest: Content)

  /** Where a name leads inside the workspace, if it does. */
  type Resolver = string -> Option<Path>

  /** What `_digests` finds: every file seen that can still be read, in whatever order. */
  predicate IsDigestOf(items: seq<Item>, d: Disk, seen: set<Path>) {
    && (forall item :: item in items ==>
          item.name in seen && IsFile(d, item.name) && item.digest == d[item.name].content)
    && (forall p :: p in seen && IsFile(d, p) ==> Item(p, d[p].content) in items)
  }

  method DigestsOf(w: Workspace) returns (found: seq<Item>)
    ensures IsDigestOf(found, w.disk, w.seen)
  {
    found := [];
    var left := w.seen;
    while left != {}
      invariant left <= w.seen
      invariant IsDigestOf(found, w.disk, w.seen - left)
      decreases left
    {
      var target :| target in left;
      if IsFile(w.disk, target) { found := found + [Item(target, w.disk[target].content)]; }
      left := left - {target};
    }
    assert w.seen - left == w.seen;
  }

  /** The name still leads to a file with the content saved under it. */
  predicate Stands(d: Disk, resolve: Resolver, item: Item) {
    && resolve(item.name).Some? && IsFile(d, resolve(item.name).value)
    && d[resolve(item.name).value].content == item.digest
  }

  /** The files whose items stand. */
  function Granted(d: Disk, resolve: Resolver, items: seq<Item>): set<Path> {
    if items == [] then {}
    else
      Granted(d, resolve, items[..|items| - 1])
      + (var item := items[|items| - 1]; if Stands(d, resolve, item) then {resolve(item.name).value} else {})
  }

  /** The positions of the items that stand. */
  function StandingAt(d: Disk, resolve: Resolver, items: seq<Item>): set<int> {
    set i | 0 <= i < |items| && Stands(d, resolve, items[i])
  }

  function Standing(d: Disk, resolve: Resolver, items: seq<Item>): nat {
    if items == [] then 0
    else Standing(d, resolve, items[..|items| - 1]) + if Stands(d, resolve, items[|items| - 1]) then 1 else 0
  }

  lemma {:induction false} StandingCounts(d: Disk, resolve: Resolver, items: seq<Item>)
    ensures Standing(d, resolve, items) == |StandingAt(d, resolve, items)|
    decreases |items|
  {
    if items != [] {
      var front, i := items[..|items| - 1], |items| - 1;
      StandingCounts(d, resolve, front);
      assert StandingAt(d, resolve, items)
          == StandingAt(d, resolve, front) + if Stands(d, resolve, items[i]) then {i} else {};
    }
  }

  lemma {:induction false} GrantedIs(d: Disk, resolve: Resolver, items: seq<Item>, p: Path)
    ensures p in Granted(d, resolve, items)
       <==> exists item :: item in items && Stands(d, resolve, item) && resolve(item.name).value == p
  {
    if items != [] { GrantedIs(d, resolve, items[..|items| - 1], p); }
  }

  function Restore(w: WS, resolve: Resolver, items: seq<Item>): WS {
    w.(seen := w.seen + Granted(w.disk, resolve, items))
  }

  /** `restore_seen` as written. */
  method RestoreSeen(items: seq<Item>, resolve: Resolver, w: Workspace) returns (restored: nat, stale: nat)
    requires w.Valid()
    modifies w`seen
    ensures w.Valid() && w.Now() == Restore(old(w.Now()), resolve, items)
    ensures restored == |StandingAt(w.disk, resolve, items)| && restored + stale == |items|
  {
    restored, stale := 0, 0;
    for i := 0 to |items|
      invariant restored == Standing(w.disk, resolve, items[..i]) && restored + stale == i
      invariant w.seen == old(w.seen) + Granted(w.disk, resolve, items[..i])
    {
      var item := items[i];
      assert items[..i + 1][..i] == items[..i];
      var target := resolve(item.name);
      if target.Some? && IsFile(w.disk, target.value) && w.disk[target.value].content == item.digest {
        w.seen := w.seen + {target.value};
        restored := restored + 1;
      } else {
        stale := stale + 1;
      }
    }
    assert items[..|items|] == items;
    StandingCounts(w.disk, resolve, items);
  }

  /** What a save under `q` and a resume give back for `p`: the name leads there, to the content saved. */
  predicate ComesBack(saved: WS, w: WS, resolve: Resolver, q: Path, p: Path) {
    && q in saved.seen && IsFile(saved.disk, q) && resolve(q) == Some(p)
    && IsFile(w.disk, p) && w.disk[p].content == saved.disk[q].content
  }

  /**
   Saving and resuming, wherever names lead by then, if anywhere: permission
   comes back for a file exactly when some seen file was saved under a name that
   now leads to it, with the content it now has.
   */
  lemma PermissionIff(saved: WS, items: seq<Item>, w: WS, resolve: Resolver, p: Path)
    requires IsDigestOf(items, saved.disk, saved.seen)
    ensures p in Restore(w, resolve, items).seen
       <==> p in w.seen || exists q :: ComesBack(saved, w, resolve, q, p)
  {
    GrantedIs(w.disk, resolve, items, p);
    if item :| item in items && Stands(w.disk, resolve, item) && resolve(item.name).value == p {
      assert ComesBack(saved, w, resolve, item.name, p);
    }
    if q :| ComesBack(saved, w, resolve, q, p) {
      var item := Item(q, saved.disk[q].content);
      assert item in items && Stands(w.disk, resolve, item);
    }
  }

  /** Every file seen is still found under its name: no symbolic link has come in its way. */
  predicate LeadsHome(resolve: Resolver, seen: set<Path>) {
    forall q :: q in seen ==> resolve(q) == Some(q)
  }

  /** Then it comes back exactly when its content is what it was when the session was saved. */
  lemma RestoredIff(saved: WS, items: seq<Item>, w: WS, resolve: Resolver, p: Path)
    requires IsDigestOf(items, saved.disk, saved.seen) && LeadsHome(resolve, saved.seen) && p !in w.seen
    ensures p in Restore(w, resolve, items).seen <==> ComesBack(saved, w, resolve, p, p)
  {
    PermissionIff(saved, items, w, resolve, p);
  }

  /** With nothing changed in between, every file still there comes back, and nothing else. */
  lemma ResumeIsRoundTrip(saved: WS, items: seq<Item>, w: WS, resolve: Resolver)
    requires IsDigestOf(items, saved.disk, saved.seen) && LeadsHome(resolve, saved.seen)
    requires w.seen == {} && w.disk == saved.disk
    ensures Restore(w, resolve, items).seen == set p | p in saved.seen && IsFile(saved.disk, p)
  {
    forall p ensures p in Restore(w, resolve, items).seen <==> p in saved.seen && IsFile(saved.disk, p) {
      RestoredIff(saved, items, w, resolve, p);
    }
  }

  /**
   The digest is of the content when the session was saved, not when the file
   was read: whatever a session read, a later outside change that is on disk
   at the save is what a resumed session is trusted with.
   */
  lemma DigestIsOfSaveTime(w: WS, path: Path, unread: Node, items: seq<Item>, resumed: WS, resolve: Resolver)
    requires Read(w, path, false, []).1.Success? && unread.File?
    requires resumed.disk == Changed(w.disk, Change(path, Some(unread))) && resolve(path) == Some(path)
    requires IsDigestOf(items, resumed.disk, Read(w, path, false, []).0.seen)
    ensures path in Restore(resumed, resolve, items).seen
  {
    var saved := Read(w, path, false, []).0.(disk := resumed.disk);
    PermissionIff(saved, items, resumed, resolve, path);
    assert ComesBack(saved, resumed, resolve, path, path);
  }
}
