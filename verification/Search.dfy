/** `str.find`, `str.count`, `str.split` and `str.replace`, for a separator that is not empty. */
module Search {
  import opened Wrappers

  predicate OccursAt(c: string, a: string, i: nat) {
    i + |a| <= |c| && c[i..i + |a|] == a
  }

  predicate Occurs(c: string, a: string) {
    exists i :: 0 <= i <= |c| && OccursAt(c, a, i)
  }

  /** `c.find(a, i)`: the least position from `i` on. */
  function Find(c: string, a: string, i: nat): (r: Option<nat>)
    ensures r.Some? ==> i <= r.value && r.value + |a| <= |c|
    decreases |c| - i
  {
    if i + |a| > |c| then None
    else if OccursAt(c, a, i) then Some(i)
    else Find(c, a, i + 1)
  }

  /** Nothing occurs in `[i, j)`. */
  predicate NoneIn(c: string, a: string, i: nat, j: nat) {
    forall k: nat :: i <= k < j ==> !OccursAt(c, a, k)
  }

  lemma {:induction false} FindSpec(c: string, a: string, i: nat)
    ensures match Find(c, a, i)
            case Some(p) => OccursAt(c, a, p) && NoneIn(c, a, i, p)
            case None => NoneIn(c, a, i, |c| + 1)
    decreases |c| - i
  {
    if i + |a| <= |c| && !OccursAt(c, a, i) { FindSpec(c, a, i + 1); }
  }

  lemma {:induction false} FindIs(c: string, a: string, i: nat, p: nat)
    requires i <= p && OccursAt(c, a, p) && NoneIn(c, a, i, p)
    ensures Find(c, a, i) == Some(p)
    decreases p - i
  {
    if i < p { FindIs(c, a, i + 1, p); }
  }

  /** `c[i..].count(a)`: non-overlapping, greedily from the left. */
  function Count(c: string, a: string, i: nat): nat
    requires a != ""
    decreases |c| - i
  {
    match Find(c, a, i)
    case None => 0
    case Some(p) => 1 + Count(c, a, p + |a|)
  }

  /** `c[i..].split(a)`. */
  function Split(c: string, a: string, i: nat): (r: seq<string>)
    requires a != "" && i <= |c|
    ensures r != []
    decreases |c| - i
  {
    match Find(c, a, i)
    case None => [c[i..]]
    case Some(p) => [c[i..p]] + Split(c, a, p + |a|)
  }

  /** `c[i..].replace(a, b)`. */
  function ReplaceAll(c: string, a: string, b: string, i: nat): string
    requires a != "" && i <= |c|
    decreases |c| - i
  {
    match Find(c, a, i)
    case None => c[i..]
    case Some(p) => c[i..p] + b + ReplaceAll(c, a, b, p + |a|)
  }

  /** `c.replace(a, b, 1)`. */
  function ReplaceFirst(c: string, a: string, b: string): string
    requires a != ""
  {
    match Find(c, a, 0)
    case None => c
    case Some(p) => c[..p] + b + c[p + |a|..]
  }

  function Join(segments: seq<string>, b: string): string
    requires segments != []
    decreases |segments|
  {
    if |segments| == 1 then segments[0] else segments[0] + b + Join(segments[1..], b)
  }

  // ----- what count means -----

  /** Exactly one: some occurrence, and every occurrence starts inside the first. */
  predicate OneOccurrence(c: string, a: string, p: nat) {
    OccursAt(c, a, p) && forall q :: 0 <= q <= |c| && OccursAt(c, a, q) ==> p <= q < p + |a|
  }

  lemma {:induction false} OneIsFirst(c: string, a: string, p: nat)
    requires a != "" && OneOccurrence(c, a, p)
    ensures Find(c, a, 0) == Some(p) && Find(c, a, p + |a|) == None && Count(c, a, 0) == 1
  {
    FindIs(c, a, 0, p);
    FindSpec(c, a, p + |a|);
    assert Count(c, a, p + |a|) == 0;
  }

  lemma NotAmong(c: string, a: string, i: nat, j: nat, q: nat)
    requires NoneIn(c, a, i, j) && OccursAt(c, a, q)
    ensures q < i || j <= q
  {
  }

  lemma FoundIsFirst(c: string, a: string, i: nat, p: nat)
    requires Find(c, a, i) == Some(p)
    ensures OccursAt(c, a, p) && NoneIn(c, a, i, p)
  {
    FindSpec(c, a, i);
  }

  lemma MissingIsNowhere(c: string, a: string, i: nat)
    requires Find(c, a, i) == None
    ensures NoneIn(c, a, i, |c| + 1)
  {
    FindSpec(c, a, i);
  }

  lemma FirstIsOne(c: string, a: string, p: nat)
    requires a != "" && Find(c, a, 0) == Some(p) && Find(c, a, p + |a|) == None
    ensures OneOccurrence(c, a, p)
  {
    FoundIsFirst(c, a, 0, p);
    MissingIsNowhere(c, a, p + |a|);
    forall q | 0 <= q <= |c| && OccursAt(c, a, q) ensures p <= q < p + |a| {
      NotAmong(c, a, 0, p, q);
      NotAmong(c, a, p + |a|, |c| + 1, q);
    }
  }

  lemma CountIsOneIff(c: string, a: string)
    requires a != ""
    ensures Count(c, a, 0) == 1 <==> exists p: nat :: OneOccurrence(c, a, p)
    ensures forall p: nat :: OneOccurrence(c, a, p) ==> Find(c, a, 0) == Some(p)
  {
    forall p: nat | OneOccurrence(c, a, p) ensures Find(c, a, 0) == Some(p) && Count(c, a, 0) == 1 {
      OneIsFirst(c, a, p);
    }
    if Count(c, a, 0) == 1 {
      var p := Find(c, a, 0).value;
      assert Count(c, a, p + |a|) == 0;
      FirstIsOne(c, a, p);
    }
  }

  lemma CountIsZeroIff(c: string, a: string)
    requires a != ""
    ensures Count(c, a, 0) == 0 <==> !Occurs(c, a)
  {
    FindSpec(c, a, 0);
  }

  // ----- splitting, joining, replacing -----

  lemma {:induction false} SplitJoins(c: string, a: string, i: nat)
    requires a != "" && i <= |c|
    ensures Join(Split(c, a, i), a) == c[i..]
    ensures |Split(c, a, i)| == Count(c, a, i) + 1
    decreases |c| - i
  {
    if Find(c, a, i).Some? {
      var p := Find(c, a, i).value;
      SplitJoins(c, a, p + |a|);
      assert Split(c, a, i)[1..] == Split(c, a, p + |a|);
      FoundIsFirst(c, a, i, p);
      CutAround(c, a, i, p);
    }
  }

  lemma CutAround(c: string, a: string, i: nat, p: nat)
    requires i <= p && OccursAt(c, a, p)
    ensures c[i..] == c[i..p] + a + c[p + |a|..]
  {
    assert c[p..p + |a|] == a;
  }

  lemma {:induction false} ReplaceJoins(c: string, a: string, b: string, i: nat)
    requires a != "" && i <= |c|
    ensures ReplaceAll(c, a, b, i) == Join(Split(c, a, i), b)
    decreases |c| - i
  {
    if Find(c, a, i).Some? {
      var p := Find(c, a, i).value;
      ReplaceJoins(c, a, b, p + |a|);
      assert Split(c, a, i)[1..] == Split(c, a, p + |a|);
    }
  }

  lemma {:induction false} JoinLength(segments: seq<string>, a: string, b: string)
    requires segments != []
    ensures |Join(segments, b)| == |Join(segments, a)| + (|segments| - 1) * (|b| - |a|)
    decreases |segments|
  {
    if |segments| > 1 {
      JoinLength(segments[1..], a, b);
    }
  }

  lemma {:induction false} JoinDiffers(segments: seq<string>, a: string, b: string)
    requires |segments| > 1 && a != b
    ensures Join(segments, a) != Join(segments, b)
  {
    var first := segments[0];
    var x, y := Join(segments[1..], a), Join(segments[1..], b);
    JoinLength(segments, a, b);
    if |a| == |b| {
      assert Join(segments, a) == first + a + x && Join(segments, b) == first + b + y;
      assert (first + a + x)[|first|..|first| + |a|] == a;
      assert (first + b + y)[|first|..|first| + |b|] == b;
    } else {
      Scaled(|segments| - 1, |b| - |a|);
    }
  }

  lemma Scaled(n: nat, d: int)
    requires n > 0 && d != 0
    ensures n * d != 0
  {
  }

  // ----- the greedy split is the only one of its kind -----

  /** Each separator is the first occurrence in what is left of the text. */
  predicate Greedy(segments: seq<string>, a: string)
    requires segments != []
    decreases |segments|
  {
    if |segments| == 1 then Find(segments[0], a, 0) == None
    else Find(segments[0] + a, a, 0) == Some(|segments[0]|) && Greedy(segments[1..], a)
  }

  /** `x` is the piece of `c` that starts at `i`. */
  predicate PieceAt(c: string, i: nat, x: string) {
    i + |x| <= |c| && c[i..i + |x|] == x
  }

  lemma OccursInPiece(c: string, i: nat, x: string, a: string, j: nat)
    requires PieceAt(c, i, x) && j + |a| <= |x|
    ensures OccursAt(x, a, j) <==> OccursAt(c, a, i + j)
  {
    var u, v := x[j..j + |a|], c[i + j..i + j + |a|];
    forall k | 0 <= k < |a| ensures u[k] == v[k] {
      assert u[k] == x[j + k] == c[i..i + |x|][j + k];
    }
    assert u == v;
  }

  /** Looking for `a` in a piece finds what looking in the whole finds, if it lies in the piece. */
  lemma FindInPiece(c: string, i: nat, x: string, a: string, q: nat)
    requires a != "" && PieceAt(c, i, x) && q + |a| <= |x|
    ensures Find(x, a, 0) == Some(q) <==> Find(c, a, i) == Some(i + q)
  {
    if Find(x, a, 0) == Some(q) { FoundInWhole(c, i, x, a, q); }
    if Find(c, a, i) == Some(i + q) { FoundInPiece(c, i, x, a, q); }
  }

  lemma {:induction false} NoneInPiece(c: string, i: nat, x: string, a: string, q: nat)
    requires PieceAt(c, i, x) && q + |a| <= |x| + 1
    ensures NoneIn(x, a, 0, q) <==> NoneIn(c, a, i, i + q)
    decreases q
  {
    if q > 0 {
      NoneInPiece(c, i, x, a, q - 1);
      OccursInPiece(c, i, x, a, q - 1);
    }
  }

  lemma FoundInWhole(c: string, i: nat, x: string, a: string, q: nat)
    requires PieceAt(c, i, x) && q + |a| <= |x| && Find(x, a, 0) == Some(q)
    ensures Find(c, a, i) == Some(i + q)
  {
    FindSpec(x, a, 0);
    OccursInPiece(c, i, x, a, q);
    NoneInPiece(c, i, x, a, q);
    FindIs(c, a, i, i + q);
  }

  lemma FoundInPiece(c: string, i: nat, x: string, a: string, q: nat)
    requires PieceAt(c, i, x) && q + |a| <= |x| && Find(c, a, i) == Some(i + q)
    ensures Find(x, a, 0) == Some(q)
  {
    FindSpec(c, a, i);
    OccursInPiece(c, i, x, a, q);
    NoneInPiece(c, i, x, a, q);
    FindIs(x, a, 0, q);
  }

  lemma FindInRest(c: string, i: nat, a: string)
    requires a != "" && i <= |c|
    ensures Find(c[i..], a, 0).None? <==> Find(c, a, i).None?
  {
    var x := c[i..];
    if Find(x, a, 0).Some? { FindInPiece(c, i, x, a, Find(x, a, 0).value); }
    if Find(c, a, i).Some? { FindInPiece(c, i, x, a, Find(c, a, i).value - i); }
  }

  lemma HeadOfRest(c: string, i: nat, x: string, a: string, rest: string)
    requires i <= |c| && c[i..] == x + a + rest
    ensures i + |x| + |a| <= |c| && PieceAt(c, i, x + a)
    ensures c[i..i + |x|] == x && c[i + |x| + |a|..] == rest
  {
    var d := c[i..];
    assert c[i..i + |x|] == d[..|x|];
    assert c[i..i + |x + a|] == d[..|x + a|];
    assert c[i + |x| + |a|..] == d[|x + a|..];
  }

  /** With the separator found at `p`, the split goes on behind it. */
  lemma SplitAt(c: string, a: string, i: nat, p: nat)
    requires a != "" && i <= |c| && Find(c, a, i) == Some(p)
    ensures Split(c, a, i) == [c[i..p]] + Split(c, a, p + |a|)
    ensures Split(c, a, i)[0] == c[i..p] && Split(c, a, i)[1..] == Split(c, a, p + |a|)
    ensures |Split(c, a, i)| > 1 && PieceAt(c, i, c[i..p] + a)
  {
    FindSpec(c, a, i);
    JoinSlices(c, i, p, p + |a|);
  }

  lemma JoinSlices(c: string, i: nat, j: nat, k: nat)
    requires i <= j <= k <= |c|
    ensures c[i..j] + c[j..k] == c[i..k]
  {
  }

  lemma {:induction false} GreedySplitIsUnique(c: string, a: string, i: nat, segments: seq<string>)
    requires a != "" && i <= |c| && segments != []
    requires Greedy(segments, a) && Join(segments, a) == c[i..]
    ensures segments == Split(c, a, i)
    decreases |segments|
  {
    var x := segments[0];
    if |segments| == 1 {
      LastPiece(c, a, i, segments);
    } else {
      GreedyHead(c, a, i, segments);
      GreedySplitIsUnique(c, a, i + |x| + |a|, segments[1..]);
      HeadThenRest(c, a, i, segments);
    }
  }

  lemma LastPiece(c: string, a: string, i: nat, segments: seq<string>)
    requires a != "" && i <= |c| && |segments| == 1 && Find(segments[0], a, 0) == None && segments[0] == c[i..]
    ensures segments == Split(c, a, i)
  {
    FindInRest(c, i, a);
    assert segments == [c[i..]];
  }

  lemma HeadThenRest(c: string, a: string, i: nat, segments: seq<string>)
    requires a != "" && i <= |c| && |segments| > 1 && Find(c, a, i) == Some(i + |segments[0]|)
    requires i + |segments[0]| + |a| <= |c| && c[i..i + |segments[0]|] == segments[0]
    requires segments[1..] == Split(c, a, i + |segments[0]| + |a|)
    ensures segments == Split(c, a, i)
  {
    SplitAt(c, a, i, i + |segments[0]|);
    assert segments == [segments[0]] + segments[1..];
  }

  /** The first piece of a greedy split ends where the separator is first found. */
  lemma GreedyHead(c: string, a: string, i: nat, segments: seq<string>)
    requires a != "" && i <= |c| && |segments| > 1
    requires Find(segments[0] + a, a, 0) == Some(|segments[0]|) && Join(segments, a) == c[i..]
    ensures Find(c, a, i) == Some(i + |segments[0]|) && i + |segments[0]| + |a| <= |c|
    ensures c[i..i + |segments[0]|] == segments[0] && Join(segments[1..], a) == c[i + |segments[0]| + |a|..]
  {
    var x := segments[0];
    HeadOfRest(c, i, x, a, Join(segments[1..], a));
    FindInPiece(c, i, x + a, a, |x|);
  }

  lemma GreedyCons(x: string, rest: seq<string>, a: string)
    requires rest != [] && Find(x + a, a, 0) == Some(|x|) && Greedy(rest, a)
    ensures Greedy([x] + rest, a)
  {
    assert ([x] + rest)[1..] == rest;
  }

  lemma GreedyStep(c: string, a: string, i: nat, p: nat)
    requires a != "" && i <= |c| && Find(c, a, i) == Some(p) && p + |a| <= |c|
    requires Greedy(Split(c, a, p + |a|), a)
    ensures Greedy(Split(c, a, i), a)
  {
    SplitAt(c, a, i, p);
    FoundInPiece(c, i, c[i..p] + a, a, p - i);
    GreedyCons(c[i..p], Split(c, a, p + |a|), a);
  }

  lemma {:induction false} SplitIsGreedy(c: string, a: string, i: nat)
    requires a != "" && i <= |c|
    ensures Greedy(Split(c, a, i), a)
    decreases |c| - i
  {
    match Find(c, a, i)
    case None =>
      FindInRest(c, i, a);
    case Some(p) =>
      SplitIsGreedy(c, a, p + |a|);
      GreedyStep(c, a, i, p);
  }

  // ----- a run of segments is a piece of the whole -----

  lemma {:induction false} JoinOfPrefix(segments: seq<string>, b: string, n: nat) returns (rest: string)
    requires 0 < n <= |segments|
    ensures Join(segments, b) == Join(segments[..n], b) + rest
    decreases |segments|
  {
    if n == |segments| {
      assert segments[..n] == segments;
      rest := "";
    } else if n == 1 {
      rest := b + Join(segments[1..], b);
    } else {
      rest := JoinOfPrefix(segments[1..], b, n - 1);
      assert segments[..n][1..] == segments[1..][..n - 1];
    }
  }

  lemma {:induction false} JoinOfSuffix(segments: seq<string>, b: string, n: nat) returns (front: string)
    requires n < |segments|
    ensures Join(segments, b) == front + Join(segments[n..], b)
    decreases |segments|
  {
    if n == 0 {
      front := "";
    } else {
      var rest := JoinOfSuffix(segments[1..], b, n - 1);
      assert segments[1..][n - 1..] == segments[n..];
      front := segments[0] + b + rest;
    }
  }

  /** Consecutive segments, joined, occur in the whole. */
  lemma JoinOccurs(segments: seq<string>, b: string, from: nat, n: nat)
    requires n > 0 && from + n <= |segments|
    ensures Occurs(Join(segments, b), Join(segments[from..from + n], b))
  {
    var front := JoinOfSuffix(segments, b, from);
    var rest := JoinOfPrefix(segments[from..], b, n);
    assert segments[from..][..n] == segments[from..from + n];
    var piece := Join(segments[from..from + n], b);
    assert Join(segments, b) == front + (piece + rest);
    assert OccursAt(front + (piece + rest), piece, |front|);
  }
}
