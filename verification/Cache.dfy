/**
 The cache of file texts: an ordered dictionary, least recently used first,
 proved against the record of everything ever touched.
 */
module Cache {
  import opened Wrappers

  type Path = string

  datatype Entry = Entry(path: Path, mtime: real, text: string)

  function Lookup(es: seq<Entry>, path: Path): Option<Entry>
    decreases |es|
  {
    if es == [] then None
    else if es[0].path == path then Some(es[0])
    else Lookup(es[1..], path)
  }

  /** Deletes the key, keeping the order of the rest. */
  function Drop(es: seq<Entry>, path: Path): seq<Entry>
    decreases |es|
  {
    if es == [] then [] else (if es[0].path == path then [] else [es[0]]) + Drop(es[1..], path)
  }

  function Put(es: seq<Entry>, maxSize: nat, e: Entry): seq<Entry> {
    if Lookup(es, e.path).Some? then Drop(es, e.path) + [e]
    else if |es| >= maxSize && es != [] then es[1..] + [e]
    else es + [e]
  }

  /** The text on a hit, which becomes the most recent entry; an entry with another mtime is deleted. */
  function Get(es: seq<Entry>, path: Path, mtime: real): (seq<Entry>, Option<string>) {
    match Lookup(es, path)
    case None => (es, None)
    case Some(e) => if e.mtime == mtime then (Drop(es, path) + [e], Some(e.text)) else (Drop(es, path), None)
  }

  function Paths(es: seq<Entry>): (ps: seq<Path>)
    ensures |ps| == |es|
  {
    seq(|es|, i requires 0 <= i < |es| => es[i].path)
  }

  predicate Distinct(ps: seq<Path>) {
    forall i, j :: 0 <= i < j < |ps| ==> ps[i] != ps[j]
  }

  lemma {:induction false} LookupIs(es: seq<Entry>, path: Path)
    ensures Lookup(es, path).Some? <==> path in Paths(es)
    ensures Lookup(es, path).Some? ==> Lookup(es, path).value in es && Lookup(es, path).value.path == path
    decreases |es|
  {
    if es != [] {
      assert Paths(es) == [es[0].path] + Paths(es[1..]);
      LookupIs(es[1..], path);
    }
  }

  // ----- the same on keys alone -----

  function Without(ps: seq<Path>, path: Path): seq<Path>
    decreases |ps|
  {
    if ps == [] then [] else (if ps[0] == path then [] else [ps[0]]) + Without(ps[1..], path)
  }

  lemma {:induction false} WithoutConcat(a: seq<Path>, b: seq<Path>, path: Path)
    ensures Without(a + b, path) == Without(a, path) + Without(b, path)
    decreases |a|
  {
    if a == [] {
      assert a + b == b;
    } else {
      assert (a + b)[1..] == a[1..] + b;
      WithoutConcat(a[1..], b, path);
    }
  }

  lemma {:induction false} WithoutIs(ps: seq<Path>, path: Path)
    ensures path !in Without(ps, path)
    ensures forall q :: q in Without(ps, path) ==> q in ps
    ensures forall q :: q in ps && q != path ==> q in Without(ps, path)
    ensures path !in ps ==> Without(ps, path) == ps
    decreases |ps|
  {
    if ps != [] { WithoutIs(ps[1..], path); }
  }

  lemma {:induction false} WithoutKeepsDistinct(ps: seq<Path>, path: Path)
    requires Distinct(ps)
    ensures Distinct(Without(ps, path))
    ensures |Without(ps, path)| == if path in ps then |ps| - 1 else |ps|
    decreases |ps|
  {
    if ps != [] {
      assert ps == [ps[0]] + ps[1..];
      DistinctTail(ps);
      WithoutKeepsDistinct(ps[1..], path);
      WithoutIs(ps[1..], path);
      DistinctCons(ps[0], Without(ps[1..], path));
    }
  }

  lemma DistinctTail(ps: seq<Path>)
    requires Distinct(ps) && ps != []
    ensures Distinct(ps[1..]) && ps[0] !in ps[1..]
  {
  }

  lemma DistinctCons(p: Path, ps: seq<Path>)
    requires Distinct(ps) && p !in ps
    ensures Distinct([p] + ps)
  {
  }

  lemma {:induction false} DropIsWithout(es: seq<Entry>, path: Path)
    ensures Paths(Drop(es, path)) == Without(Paths(es), path)
    decreases |es|
  {
    if es != [] {
      assert Paths(es)[1..] == Paths(es[1..]);
      DropIsWithout(es[1..], path);
    }
  }

  lemma {:induction false} DropKeeps(es: seq<Entry>, path: Path)
    ensures forall e :: e in Drop(es, path) <==> e in es && e.path != path
    decreases |es|
  {
    if es != [] { DropKeeps(es[1..], path); }
  }

  lemma {:induction false} LookupAppended(es: seq<Entry>, e: Entry)
    requires Lookup(es, e.path).None?
    ensures Lookup(es + [e], e.path) == Some(e)
    decreases |es|
  {
    if es != [] {
      assert (es + [e])[1..] == es[1..] + [e];
      LookupAppended(es[1..], e);
    }
  }

  lemma {:induction false} DropRemoves(es: seq<Entry>, path: Path)
    ensures Lookup(Drop(es, path), path).None?
    decreases |es|
  {
    if es != [] {
      DropRemoves(es[1..], path);
      var rest := Drop(es[1..], path);
      assert Drop(es, path) == if es[0].path == path then rest else [es[0]] + rest;
    }
  }

  /** What was just stored, or just hit, is found again. */
  lemma FoundAgain(es: seq<Entry>, maxSize: nat, e: Entry)
    ensures Lookup(Drop(es, e.path) + [e], e.path) == Some(e)
    ensures Lookup(Put(es, maxSize, e), e.path) == Some(e)
  {
    DropRemoves(es, e.path);
    LookupAppended(Drop(es, e.path), e);
    if Lookup(es, e.path).None? {
      LookupAppended(es, e);
      if es != [] { LookupAppended(es[1..], e); }
    }
  }

  // ----- least recently used -----

  /** What happens to the cache: a key is used (a hit or a store), or deleted. */
  datatype Op = Use(path: Path) | Forget(path: Path)

  /** Every key used and not deleted since, the most recent last, with nothing ever evicted. */
  function Recency(ops: seq<Op>): seq<Path>
    decreases |ops|
  {
    if ops == [] then [] else Touch(Recency(ops[..|ops| - 1]), ops[|ops| - 1])
  }

  function Touch(ps: seq<Path>, op: Op): seq<Path> {
    Without(ps, op.path) + if op.Use? then [op.path] else []
  }

  /** The cache holds the most recently used keys, in order, and no more than its size. */
  predicate HoldsLatest(es: seq<Entry>, maxSize: nat, recency: seq<Path>) {
    && |es| <= maxSize && |es| <= |recency| && Distinct(recency)
    && Paths(es) == recency[|recency| - |es|..]
  }

  lemma TouchKeepsDistinct(ps: seq<Path>, op: Op)
    requires Distinct(ps)
    ensures Distinct(Touch(ps, op))
  {
    WithoutKeepsDistinct(ps, op.path);
    WithoutIs(ps, op.path);
  }

  lemma SuffixWithout(ps: seq<Path>, n: nat, path: Path) returns (m: nat)
    requires n <= |ps| && Distinct(ps)
    ensures m <= |Without(ps, path)| && Without(ps[n..], path) == Without(ps, path)[m..]
    ensures path in ps[n..] ==> path !in ps[..n] && |Without(ps, path)[m..]| == |ps| - n - 1 && m == n
  {
    assert ps == ps[..n] + ps[n..];
    WithoutConcat(ps[..n], ps[n..], path);
    m := |Without(ps[..n], path)|;
    WithoutIs(ps[..n], path);
    WithoutKeepsDistinct(ps[n..], path);
  }

  lemma DropHoldsLatest(es: seq<Entry>, maxSize: nat, recency: seq<Path>, path: Path)
    requires HoldsLatest(es, maxSize, recency)
    ensures HoldsLatest(Drop(es, path), maxSize, Touch(recency, Forget(path)))
    ensures |Drop(es, path)| == if Lookup(es, path).Some? then |es| - 1 else |es|
  {
    DropIsWithout(es, path);
    LookupIs(es, path);
    var n := |recency| - |es|;
    var m := SuffixWithout(recency, n, path);
    TouchKeepsDistinct(recency, Forget(path));
    assert Distinct(Paths(es));
    WithoutKeepsDistinct(Paths(es), path);
    assert Touch(recency, Forget(path)) == Without(recency, path);
  }

  lemma AppendHoldsLatest(es: seq<Entry>, maxSize: nat, recency: seq<Path>, e: Entry)
    requires HoldsLatest(es, maxSize, Without(recency, e.path)) && |es| < maxSize && Distinct(recency)
    ensures HoldsLatest(es + [e], maxSize, Touch(recency, Use(e.path)))
  {
    TouchKeepsDistinct(recency, Use(e.path));
    var w := Without(recency, e.path);
    assert (w + [e.path])[|w| - |es|..] == w[|w| - |es|..] + [e.path];
    assert Paths(es + [e]) == Paths(es) + [e.path];
  }

  lemma EvictHoldsLatest(es: seq<Entry>, maxSize: nat, recency: seq<Path>)
    requires HoldsLatest(es, maxSize, recency) && es != []
    ensures HoldsLatest(es[1..], maxSize, recency)
  {
    assert Paths(es[1..]) == Paths(es)[1..];
    assert recency[|recency| - |es|..][1..] == recency[|recency| - |es| + 1..];
  }

  /** Dropping a key leaves the latest of the rest of the record. */
  lemma DropLeavesLatest(es: seq<Entry>, maxSize: nat, recency: seq<Path>, path: Path)
    requires HoldsLatest(es, maxSize, recency)
    ensures HoldsLatest(Drop(es, path), maxSize, Without(recency, path)) && Distinct(recency)
    ensures |Drop(es, path)| == if Lookup(es, path).Some? then |es| - 1 else |es|
  {
    DropHoldsLatest(es, maxSize, recency, path);
    assert Touch(recency, Forget(path)) == Without(recency, path);
  }

  lemma PutKnown(es: seq<Entry>, maxSize: nat, recency: seq<Path>, e: Entry)
    requires HoldsLatest(es, maxSize, recency) && Lookup(es, e.path).Some?
    ensures HoldsLatest(Drop(es, e.path) + [e], maxSize, Touch(recency, Use(e.path)))
    ensures |Drop(es, e.path) + [e]| == |es|
  {
    DropLeavesLatest(es, maxSize, recency, e.path);
    AppendHoldsLatest(Drop(es, e.path), maxSize, recency, e);
  }

  lemma PutNew(es: seq<Entry>, maxSize: nat, recency: seq<Path>, e: Entry)
    requires HoldsLatest(es, maxSize, recency) && Lookup(es, e.path).None? && |es| < maxSize
    ensures HoldsLatest(es + [e], maxSize, Touch(recency, Use(e.path)))
  {
    DropLeavesLatest(es, maxSize, recency, e.path);
    NotThereToDrop(es, e.path);
    AppendHoldsLatest(es, maxSize, recency, e);
  }

  lemma PutEvicting(es: seq<Entry>, maxSize: nat, recency: seq<Path>, e: Entry)
    requires HoldsLatest(es, maxSize, recency) && Lookup(es, e.path).None? && |es| == maxSize >= 1
    ensures HoldsLatest(es[1..] + [e], maxSize, Touch(recency, Use(e.path)))
  {
    DropLeavesLatest(es, maxSize, recency, e.path);
    NotThereToDrop(es, e.path);
    EvictHoldsLatest(es, maxSize, Without(recency, e.path));
    AppendHoldsLatest(es[1..], maxSize, recency, e);
  }

  /** Storing a text keeps the latest; only a full cache evicts, and then its oldest entry. */
  lemma PutHoldsLatest(es: seq<Entry>, maxSize: nat, recency: seq<Path>, e: Entry)
    requires HoldsLatest(es, maxSize, recency) && maxSize >= 1
    ensures HoldsLatest(Put(es, maxSize, e), maxSize, Touch(recency, Use(e.path)))
    ensures |Put(es, maxSize, e)| == if Lookup(es, e.path).Some? || |es| == maxSize then |es| else |es| + 1
  {
    if Lookup(es, e.path).Some? {
      PutKnown(es, maxSize, recency, e);
    } else if |es| == maxSize {
      PutEvicting(es, maxSize, recency, e);
    } else {
      PutNew(es, maxSize, recency, e);
    }
  }

  lemma {:induction false} NotThereToDrop(es: seq<Entry>, path: Path)
    requires Lookup(es, path).None?
    ensures Drop(es, path) == es
    decreases |es|
  {
    if es != [] { NotThereToDrop(es[1..], path); }
  }

  /** What a lookup records: a hit is a use, an entry with another mtime is deleted. */
  function GetOps(es: seq<Entry>, path: Path, mtime: real): seq<Op> {
    match Lookup(es, path)
    case None => []
    case Some(e) => [if e.mtime == mtime then Use(path) else Forget(path)]
  }

  lemma GetHoldsLatest(es: seq<Entry>, maxSize: nat, recency: seq<Path>, path: Path, mtime: real)
    requires HoldsLatest(es, maxSize, recency) && maxSize >= 1
    ensures
      var es', ops := Get(es, path, mtime).0, GetOps(es, path, mtime);
      HoldsLatest(es', maxSize, if ops == [] then recency else Touch(recency, ops[0]))
  {
    DropHoldsLatest(es, maxSize, recency, path);
    LookupIs(es, path);
    if Lookup(es, path).Some? && Lookup(es, path).value.mtime == mtime {
      PutKnown(es, maxSize, recency, Lookup(es, path).value);
    }
  }

  // ----- what the record means -----

  /** One past the position of the last use of a key that is not deleted since, or 0. */
  function LastUse(ops: seq<Op>, path: Path): nat
    decreases |ops|
  {
    if ops == [] then 0
    else if ops[|ops| - 1].path == path then (if ops[|ops| - 1].Use? then |ops| else 0)
    else LastUse(ops[..|ops| - 1], path)
  }

  predicate OrderedByUse(ps: seq<Path>, ops: seq<Op>) {
    forall i, j :: 0 <= i < j < |ps| ==> LastUse(ops, ps[i]) < LastUse(ops, ps[j])
  }

  lemma {:induction false} LastUseBound(ops: seq<Op>, path: Path)
    ensures LastUse(ops, path) <= |ops|
    decreases |ops|
  {
    if ops != [] { LastUseBound(ops[..|ops| - 1], path); }
  }

  lemma {:induction false} WithoutOrdered(ps: seq<Path>, path: Path, ops: seq<Op>)
    requires OrderedByUse(ps, ops)
    ensures OrderedByUse(Without(ps, path), ops)
    decreases |ps|
  {
    if ps != [] {
      assert OrderedByUse(ps[1..], ops);
      WithoutOrdered(ps[1..], path, ops);
      WithoutIs(ps[1..], path);
      forall q | q in ps[1..] ensures LastUse(ops, ps[0]) < LastUse(ops, q) {
        var j :| 0 <= j < |ps[1..]| && ps[1..][j] == q;
        assert ps[j + 1] == q;
      }
    }
  }

  lemma LastUseSnoc(before: seq<Op>, op: Op, path: Path)
    ensures LastUse(before + [op], path)
         == if op.path != path then LastUse(before, path) else if op.Use? then |before| + 1 else 0
  {
    assert (before + [op])[..|before|] == before;
  }

  /** Other keys keep their order; a key just used comes last. */
  lemma OrderedSnoc(qs: seq<Path>, before: seq<Op>, op: Op)
    requires OrderedByUse(qs, before) && op.path !in qs
    ensures OrderedByUse(qs, before + [op])
    ensures op.Use? ==> OrderedByUse(qs + [op.path], before + [op])
  {
    forall q | q in qs ensures LastUse(before + [op], q) == LastUse(before, q) <= |before| {
      LastUseSnoc(before, op, q);
      LastUseBound(before, q);
    }
    LastUseSnoc(before, op, op.path);
  }

  /** The record holds its keys in the order of their last use. */
  lemma {:induction false} RecencyIsByLastUse(ops: seq<Op>)
    ensures OrderedByUse(Recency(ops), ops)
    decreases |ops|
  {
    if ops != [] {
      var before, op := ops[..|ops| - 1], ops[|ops| - 1];
      assert ops == before + [op];
      RecencyIsByLastUse(before);
      WithoutIs(Recency(before), op.path);
      WithoutOrdered(Recency(before), op.path, before);
      var qs := Without(Recency(before), op.path);
      OrderedSnoc(qs, before, op);
      assert Recency(ops) == if op.Use? then qs + [op.path] else qs;
    }
  }

  /** It holds exactly the keys used and not deleted since. */
  lemma {:induction false} RecencyHoldsTheUsed(ops: seq<Op>, path: Path)
    ensures path in Recency(ops) <==> LastUse(ops, path) > 0
    decreases |ops|
  {
    if ops != [] {
      var before, op := ops[..|ops| - 1], ops[|ops| - 1];
      assert ops == before + [op];
      RecencyHoldsTheUsed(before, path);
      WithoutIs(Recency(before), op.path);
      LastUseSnoc(before, op, path);
    }
  }

  // ----- the class -----

  class FileCache {
    var entries: seq<Entry>
    const maxSize: nat
    ghost var ops: seq<Op>

    ghost predicate Valid()
      reads this
    {
      maxSize >= 1 && HoldsLatest(entries, maxSize, Recency(ops))
    }

    constructor (maxSize: nat := 50)
      requires maxSize >= 1
      ensures Valid() && entries == [] && this.maxSize == maxSize
    {
      this.maxSize, entries, ops := maxSize, [], [];
    }

    ghost method Note(more: seq<Op>)
      requires |more| <= 1
      modifies this`ops
      ensures ops == old(ops) + more
      ensures Recency(ops) == if more == [] then Recency(old(ops)) else Touch(Recency(old(ops)), more[0])
    {
      ops := ops + more;
      if more == [] {
        assert ops == old(ops);
      } else {
        assert ops[..|ops| - 1] == old(ops) && ops[|ops| - 1] == more[0];
      }
    }

    method GetText(path: Path, mtime: real) returns (text: Option<string>)
      requires Valid()
      modifies this
      ensures Valid() && (entries, text) == Get(old(entries), path, mtime)
    {
      GetHoldsLatest(entries, maxSize, Recency(ops), path, mtime);
      Note(GetOps(entries, path, mtime));
      var found := Lookup(entries, path);
      if found.None? { return None; }
      entries := Drop(entries, path);
      if found.value.mtime != mtime { return None; }
      entries := entries + [found.value];
      return Some(found.value.text);
    }

    method PutText(path: Path, mtime: real, text: string)
      requires Valid()
      modifies this
      ensures Valid() && entries == Put(old(entries), maxSize, Entry(path, mtime, text))
    {
      PutHoldsLatest(entries, maxSize, Recency(ops), Entry(path, mtime, text));
      Note([Use(path)]);
      if Lookup(entries, path).Some? {
        entries := Drop(entries, path);
      } else if |entries| >= maxSize {
        entries := entries[1..];
      }
      entries := entries + [Entry(path, mtime, text)];
    }

    method Invalidate(path: Path)
      requires Valid()
      modifies this
      ensures Valid() && entries == Drop(old(entries), path)
    {
      DropHoldsLatest(entries, maxSize, Recency(ops), path);
      NotThere(entries, path);
      Note([Forget(path)]);
      if Lookup(entries, path).Some? { entries := Drop(entries, path); }
    }
  }

  lemma NotThere(es: seq<Entry>, path: Path)
    ensures Lookup(es, path).None? ==> Drop(es, path) == es
  {
    if Lookup(es, path).None? { NotThereToDrop(es, path); }
  }
}
