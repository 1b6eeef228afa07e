/** The strict replacer (`apply_edit`) and the diagnosis of an anchor that is not there. */
module Edits {
  import opened Wrappers
  import opened Text
  import opened Search

  const NL := "\n"

  function Lines(s: string): seq<string> { Split(s, NL, 0) }

  // ----- lining an absent anchor up with the file -----

  /** Index of the first line that is not blank, or the number of lines. */
  function FirstSolid(lines: seq<string>): (i: nat)
    ensures i <= |lines|
    decreases |lines|
  {
    if lines == [] || Strip(lines[0]) != "" then 0 else 1 + FirstSolid(lines[1..])
  }

  lemma {:induction false} FirstSolidIs(lines: seq<string>)
    ensures var i := FirstSolid(lines);
            && (i < |lines| ==> Strip(lines[i]) != "")
            && forall k :: 0 <= k < i ==> Strip(lines[k]) == ""
    decreases |lines|
  {
    if lines != [] && Strip(lines[0]) == "" {
      FirstSolidIs(lines[1..]);
      assert forall k :: 0 < k < FirstSolid(lines) ==> lines[k] == lines[1..][k - 1];
    }
  }

  predicate Fits(line: string, solid: string, strict: bool) {
    if strict then line == solid else Strip(line) == Strip(solid)
  }

  /** The indices below `n` of the lines that fit. */
  function FitsBelow(lines: seq<string>, solid: string, strict: bool, n: nat): seq<nat>
    requires n <= |lines|
  {
    if n == 0 then []
    else FitsBelow(lines, solid, strict, n - 1) + if Fits(lines[n - 1], solid, strict) then [n - 1] else []
  }

  predicate Increasing(s: seq<nat>) { forall j, k :: 0 <= j < k < |s| ==> s[j] < s[k] }

  predicate Below(s: seq<nat>, n: nat) { forall j :: 0 <= j < |s| ==> s[j] < n }

  lemma {:induction false} FitsBelowIs(lines: seq<string>, solid: string, strict: bool, n: nat)
    requires n <= |lines|
    ensures var r := FitsBelow(lines, solid, strict, n);
            && Increasing(r) && Below(r, n)
            && (forall j :: 0 <= j < |r| ==> Fits(lines[r[j]], solid, strict))
            && (forall k: nat :: k < n && Fits(lines[k], solid, strict) ==> k in r)
    decreases n
  {
    if n > 0 { FitsBelowIs(lines, solid, strict, n - 1); }
  }

  /** Where the anchor could begin: lines that fit exactly, or else lines that fit when stripped. */
  function Starts(lines: seq<string>, solid: string): seq<nat> {
    var exact := FitsBelow(lines, solid, true, |lines|);
    if exact != [] then exact else FitsBelow(lines, solid, false, |lines|)
  }

  lemma NoFit(lines: seq<string>, solid: string, strict: bool)
    ensures FitsBelow(lines, solid, strict, |lines|) == []
       <==> forall k :: 0 <= k < |lines| ==> !Fits(lines[k], solid, strict)
  {
    FitsBelowIs(lines, solid, strict, |lines|);
    var r := FitsBelow(lines, solid, strict, |lines|);
    if r != [] { assert Fits(lines[r[0]], solid, strict); }
  }

  lemma StartsAre(lines: seq<string>, solid: string)
    ensures Increasing(Starts(lines, solid)) && Below(Starts(lines, solid), |lines|)
    ensures Starts(lines, solid) == [] <==> NothingFits(lines, solid)
    ensures forall k: nat :: k < |lines| && lines[k] == solid ==> k in Starts(lines, solid)
  {
    FitsBelowIs(lines, solid, true, |lines|);
    FitsBelowIs(lines, solid, false, |lines|);
    NoFit(lines, solid, true);
    NoFit(lines, solid, false);
    ExactFitsLoosely(lines, solid);
  }

  lemma ExactFitsLoosely(lines: seq<string>, solid: string)
    ensures forall k :: 0 <= k < |lines| && Fits(lines[k], solid, true) ==> Fits(lines[k], solid, false)
    ensures forall k :: 0 <= k < |lines| && lines[k] == solid ==> Fits(lines[k], solid, true)
  {
  }

  /** No line of the file resembles the first solid line. */
  predicate NothingFits(lines: seq<string>, solid: string) {
    forall k :: 0 <= k < |lines| ==> !Fits(lines[k], solid, false)
  }

  /** How many lines agree, from `lines[i]` and `wanted[j]` on. */
  function RunLength(lines: seq<string>, wanted: seq<string>, i: nat, j: nat): (n: nat)
    requires i <= |lines| && j <= |wanted|
    ensures i + n <= |lines| && j + n <= |wanted|
    decreases |lines| - i
  {
    if i < |lines| && j < |wanted| && lines[i] == wanted[j] then 1 + RunLength(lines, wanted, i + 1, j + 1) else 0
  }

  /** `n` lines agree. */
  predicate Agree(lines: seq<string>, wanted: seq<string>, i: nat, j: nat, n: nat) {
    && i + n <= |lines| && j + n <= |wanted|
    && forall k :: j <= k < j + n ==> wanted[k] == lines[i + (k - j)]
  }

  lemma AgreeOneMore(lines: seq<string>, wanted: seq<string>, i: nat, j: nat, n: nat)
    requires i < |lines| && j < |wanted|
    ensures Agree(lines, wanted, i, j, n + 1) <==> lines[i] == wanted[j] && Agree(lines, wanted, i + 1, j + 1, n)
  {
    if Agree(lines, wanted, i, j, n + 1) {
      assert wanted[j] == lines[i + (j - j)];
      forall k | j + 1 <= k < j + 1 + n ensures wanted[k] == lines[i + 1 + (k - (j + 1))] {
        assert wanted[k] == lines[i + (k - j)];
      }
    }
    if lines[i] == wanted[j] && Agree(lines, wanted, i + 1, j + 1, n) {
      forall k | j <= k < j + n + 1 ensures wanted[k] == lines[i + (k - j)] {
        if k > j { assert wanted[k] == lines[i + 1 + (k - (j + 1))]; }
      }
    }
  }

  /** The run length is the greatest number of lines that agree. */
  lemma {:induction false} RunIsGreatest(lines: seq<string>, wanted: seq<string>, i: nat, j: nat, n: nat)
    requires i <= |lines| && j <= |wanted|
    ensures Agree(lines, wanted, i, j, n) <==> n <= RunLength(lines, wanted, i, j)
    decreases n
  {
    if n > 0 && i < |lines| && j < |wanted| {
      AgreeOneMore(lines, wanted, i, j, n - 1);
      RunIsGreatest(lines, wanted, i + 1, j + 1, n - 1);
    }
  }

  /** Which start has the longest run; the earliest of several. */
  function BestStart(lines: seq<string>, wanted: seq<string>, starts: seq<nat>, offset: nat): (b: nat)
    requires starts != [] && offset <= |wanted| && Below(starts, |lines|)
    ensures b < |lines|
    decreases |starts|
  {
    var last := starts[|starts| - 1];
    if |starts| == 1 then last
    else
      var b := BestStart(lines, wanted, starts[..|starts| - 1], offset);
      if RunLength(lines, wanted, last, offset) > RunLength(lines, wanted, b, offset) then last else b
  }

  lemma NextBest(lines: seq<string>, wanted: seq<string>, starts: seq<nat>, offset: nat, i: nat)
    requires 0 < i < |starts| && offset <= |wanted| && Below(starts, |lines|)
    ensures
      var b, next := BestStart(lines, wanted, starts[..i], offset), starts[i];
      BestStart(lines, wanted, starts[..i + 1], offset)
      == if RunLength(lines, wanted, next, offset) > RunLength(lines, wanted, b, offset) then next else b
  {
    assert starts[..i + 1][..i] == starts[..i];
  }

  /** A longest run over all candidates, and no earlier candidate has one as long. */
  predicate IsBest(lines: seq<string>, wanted: seq<string>, starts: seq<nat>, offset: nat, b: nat)
    requires offset <= |wanted| && Below(starts, |lines|) && b < |lines|
  {
    && b in starts
    && forall j :: 0 <= j < |starts| ==>
         var n := RunLength(lines, wanted, starts[j], offset);
         n <= RunLength(lines, wanted, b, offset) && (starts[j] < b ==> n < RunLength(lines, wanted, b, offset))
  }

  lemma {:induction false} BestIsLongest(lines: seq<string>, wanted: seq<string>, starts: seq<nat>, offset: nat)
    requires starts != [] && offset <= |wanted| && Below(starts, |lines|) && Increasing(starts)
    ensures IsBest(lines, wanted, starts, offset, BestStart(lines, wanted, starts, offset))
    decreases |starts|
  {
    var front, last := starts[..|starts| - 1], starts[|starts| - 1];
    if front != [] {
      BestIsLongest(lines, wanted, front, offset);
      assert forall j :: 0 <= j < |starts| - 1 ==> starts[j] == front[j];
    }
  }

  // ----- the reports -----

  datatype Fault =
    | FileEnds(missing: nat)                                  // the anchor goes on for this many lines
    | Indentation(line: nat, sent: string, actual: string)    // equal but for white space at the ends
    | Differs(line: nat, sent: string, actual: string)

  /** Line numbers count from one. */
  datatype Report = Report(from: nat, matched: nat, fault: Fault)

  /** The report on a run of `n` lines from position `start`. */
  function ReportAt(lines: seq<string>, wanted: seq<string>, offset: nat, start: nat, n: nat): Report
    requires offset + n < |wanted|
  {
    var sent := wanted[offset + n];
    Report(start + 1, n,
           if start + n >= |lines| then FileEnds(|wanted| - (offset + n))
           else if Strip(sent) == Strip(lines[start + n]) then Indentation(start + n + 1, sent, lines[start + n])
           else Differs(start + n + 1, sent, lines[start + n]))
  }

  /** `_divergence_hint` once the first solid line is known. */
  function Diagnose(lines: seq<string>, wanted: seq<string>, offset: nat): Option<Report>
    requires offset < |wanted|
  {
    StartsAre(lines, wanted[offset]);
    var starts := Starts(lines, wanted[offset]);
    if starts == [] then None
    else
      var best := BestStart(lines, wanted, starts, offset);
      var n := RunLength(lines, wanted, best, offset);
      if offset + n >= |wanted| then None else Some(ReportAt(lines, wanted, offset, best, n))
  }

  function Divergence(content: string, anchor: string): Option<Report> {
    var wanted := Lines(anchor);
    var offset := FirstSolid(wanted);
    if offset == |wanted| then None else Diagnose(Lines(content), wanted, offset)
  }

  function AbsentAnchor(content: string, anchor: string): Option<string> {
    var wanted := Lines(anchor);
    var offset := FirstSolid(wanted);
    if offset < |wanted| && NothingFits(Lines(content), wanted[offset]) then Some(wanted[offset]) else None
  }

  /** What a report claims about the file and the anchor. */
  predicate Truthful(lines: seq<string>, wanted: seq<string>, offset: nat, r: Report)
    requires offset < |wanted|
  {
    && 1 <= r.from <= |lines| && offset + r.matched < |wanted| && r.from - 1 + r.matched <= |lines|
    && Agree(lines, wanted, r.from - 1, offset, r.matched)
    && match r.fault
       case FileEnds(missing) =>
         r.from - 1 + r.matched == |lines| && missing == |wanted| - offset - r.matched
       case Indentation(line, sent, actual) =>
         && line == r.from + r.matched <= |lines| && sent == wanted[offset + r.matched]
         && actual == lines[line - 1] && sent != actual && Strip(sent) == Strip(actual)
       case Differs(line, sent, actual) =>
         && line == r.from + r.matched <= |lines| && sent == wanted[offset + r.matched]
         && actual == lines[line - 1] && Strip(sent) != Strip(actual)
  }

  /**
   A divergence report is true: its run really matches, and the line it names
   really differs or the file really ends there.  Its run is the longest that any
   candidate start has, and the earliest of those.
   */
  lemma DivergenceIsTrue(content: string, anchor: string)
    requires Divergence(content, anchor).Some?
    ensures FirstSolid(Lines(anchor)) < |Lines(anchor)|
    ensures TrueReport(Lines(content), Lines(anchor), FirstSolid(Lines(anchor)), Divergence(content, anchor).value)
  {
    DiagnosisIsTrue(Lines(content), Lines(anchor), FirstSolid(Lines(anchor)));
  }

  /** A truthful report of the longest run of all candidate starts, the earliest of those. */
  predicate TrueReport(lines: seq<string>, wanted: seq<string>, offset: nat, r: Report)
    requires offset < |wanted|
  {
    && Truthful(lines, wanted, offset, r)
    && Below(Starts(lines, wanted[offset]), |lines|)
    && IsBest(lines, wanted, Starts(lines, wanted[offset]), offset, r.from - 1)
    && r.matched == RunLength(lines, wanted, r.from - 1, offset)
  }

  lemma DiagnosisIsTrue(lines: seq<string>, wanted: seq<string>, offset: nat)
    requires offset < |wanted| && Diagnose(lines, wanted, offset).Some?
    ensures TrueReport(lines, wanted, offset, Diagnose(lines, wanted, offset).value)
  {
    StartsAre(lines, wanted[offset]);
    var starts := Starts(lines, wanted[offset]);
    var best := BestStart(lines, wanted, starts, offset);
    BestIsLongest(lines, wanted, starts, offset);
    ReportIsTrue(lines, wanted, offset, best);
    ReportKeeps(lines, wanted, offset, best);
  }

  lemma ReportKeeps(lines: seq<string>, wanted: seq<string>, offset: nat, start: nat)
    requires offset < |wanted| && start < |lines| && offset + RunLength(lines, wanted, start, offset) < |wanted|
    ensures
      var n := RunLength(lines, wanted, start, offset);
      var r := ReportAt(lines, wanted, offset, start, n);
      r.from == start + 1 && r.matched == n
  {
  }

  lemma ReportIsTrue(lines: seq<string>, wanted: seq<string>, offset: nat, start: nat)
    requires offset < |wanted| && start < |lines| && offset + RunLength(lines, wanted, start, offset) < |wanted|
    ensures Truthful(lines, wanted, offset,
                     ReportAt(lines, wanted, offset, start, RunLength(lines, wanted, start, offset)))
  {
    var n := RunLength(lines, wanted, start, offset);
    RunIsGreatest(lines, wanted, start, offset, n);
    RunIsGreatest(lines, wanted, start, offset, n + 1);
    if start + n < |lines| && lines[start + n] == wanted[offset + n] {
      assert Agree(lines, wanted, start, offset, n + 1);
    }
  }

  // ----- what an indentation report says -----

  /** `_leading`: the white space a line begins with. */
  function Leading(line: string): string {
    if line == "" || !IsSpace(line[0]) then "" else [line[0]] + Leading(line[1..])
  }

  /** It is what stripping the left takes away. */
  lemma {:induction false} LeadingIsStripped(line: string)
    ensures line == Leading(line) + LStrip(line)
  {
    if line != "" && IsSpace(line[0]) { LeadingIsStripped(line[1..]); }
  }

  lemma {:induction false} RStripCons(x: char, rest: string)
    requires RStrip(rest) != ""
    ensures RStrip([x] + rest) == [x] + RStrip(rest)
    decreases |rest|
  {
    var line, n := [x] + rest, |rest|;
    assert line[n] == rest[n - 1] && line[..n] == [x] + rest[..n - 1];
    if IsSpace(rest[n - 1]) { RStripCons(x, rest[..n - 1]); }
  }

  /** A line's end is stripped behind its lead, if there is text between them. */
  lemma {:induction false} RStripAfterLead(line: string)
    requires Strip(line) != ""
    ensures RStrip(line) == Leading(line) + Strip(line)
    decreases |line|
  {
    if line != "" && IsSpace(line[0]) {
      RStripAfterLead(line[1..]);
      RStripCons(line[0], line[1..]);
      assert [line[0]] + line[1..] == line;
    }
  }

  lemma {:induction false} BlankIsItsLead(line: string)
    requires Strip(line) == ""
    ensures Leading(line) == line
    decreases |line|
  {
    if line != "" {
      BlankIsAllSpace(line);
      BlankIsItsLead(line[1..]);
    }
  }

  lemma Cancels(a: string, b: string, t: string)
    ensures a + t == b + t <==> a == b
  {
    if a + t == b + t { assert a == (a + t)[..|a|] == (b + t)[..|b|] == b; }
  }

  /** With the same text, two lines have the same lead exactly when they differ at their ends only. */
  lemma SameLeadIff(a: string, b: string)
    requires Strip(a) == Strip(b) && a != b
    ensures Leading(a) == Leading(b) <==> Strip(a) != "" && RStrip(a) == RStrip(b)
  {
    if Strip(a) == "" {
      BlankIsItsLead(a);
      BlankIsItsLead(b);
    } else {
      RStripAfterLead(a);
      RStripAfterLead(b);
      Cancels(Leading(a), Leading(b), Strip(a));
    }
  }

  /**
   A report of a difference "only in indentation" names two different
   indentations unless the lines differ in white space at their ends only, and
   then it names the same one twice.
   */
  lemma IndentationDiffersIff(content: string, anchor: string)
    requires Divergence(content, anchor).Some? && Divergence(content, anchor).value.fault.Indentation?
    ensures
      var fault := Divergence(content, anchor).value.fault;
      Leading(fault.sent) != Leading(fault.actual)
      <==> Strip(fault.sent) == "" || RStrip(fault.sent) != RStrip(fault.actual)
  {
    DivergenceIsTrue(content, anchor);
    var fault := Divergence(content, anchor).value.fault;
    SameLeadIff(fault.sent, fault.actual);
  }

  /**
   It happens, whatever the line: with one blank too many at the end of an
   unindented line, the report is of indentation, with none on either side.
   */
  lemma TrailingBlankIsCalledIndentation(first: string, x: string, last: string)
    requires OneLine(first) && OneLine(x) && OneLine(last)
    requires Strip(first) != "" && first != x && first != last && x != "" && !IsSpace(x[0])
    ensures Divergence(first + NL + x + NL + last, first + NL + (x + " ") + NL + last)
         == Some(Report(1, 1, Indentation(2, x + " ", x)))
    ensures Leading(x + " ") == Leading(x) == ""
  {
    ThreeLines(first, x, last);
    ThreeLines(first, x + " ", last);
    BlankBehind(first, x, last);
  }

  lemma BlankBehind(first: string, x: string, last: string)
    requires first != x && first != last && x != "" && !IsSpace(x[0])
    ensures Diagnose([first, x, last], [first, x + " ", last], 0) == Some(Report(1, 1, Indentation(2, x + " ", x)))
  {
    var lines, wanted := [first, x, last], [first, x + " ", last];
    OnlyFirstFits(lines, first);
    assert lines[1] != wanted[1];
    assert RunLength(lines, wanted, 1, 1) == 0;
    assert RunLength(lines, wanted, 0, 0) == 1;
    assert BestStart(lines, wanted, [0], 0) == 0;
    assert (x + " ")[..|x|] == x;
    assert Strip(x + " ") == Strip(x);
  }

  lemma OnlyFirstFits(lines: seq<string>, solid: string)
    requires |lines| == 3 && lines[0] == solid && lines[1] != solid && lines[2] != solid
    ensures Starts(lines, solid) == [0]
  {
    assert FitsBelow(lines, solid, true, 1) == [0];
    assert FitsBelow(lines, solid, true, 2) == [0];
    assert FitsBelow(lines, solid, true, 3) == [0];
  }

  predicate OneLine(line: string) { '\n' !in line }

  /** Three lines joined split into themselves. */
  lemma ThreeLines(x: string, y: string, z: string)
    requires OneLine(x) && OneLine(y) && OneLine(z)
    ensures Lines(x + NL + y + NL + z) == [x, y, z]
  {
    var c := x + NL + y + NL + z;
    LineEnds(x);
    LineEnds(y);
    LineIsLast(z);
    assert [x, y, z][1..] == [y, z] && [y, z][1..] == [z];
    assert Greedy([z], NL);
    assert Greedy([y, z], NL);
    assert Greedy([x, y, z], NL);
    assert Join([y, z], NL) == y + NL + z;
    assert Join([x, y, z], NL) == x + NL + (y + NL + z) == c;
    assert c[0..] == c;
    GreedySplitIsUnique(c, NL, 0, [x, y, z]);
  }

  lemma LineEnds(line: string)
    requires OneLine(line)
    ensures Find(line + NL, NL, 0) == Some(|line|)
  {
    var c := line + NL;
    assert OccursAt(c, NL, |line|);
    forall k: nat | 0 <= k < |line| ensures !OccursAt(c, NL, k) {
      assert c[k..k + 1][0] == line[k];
    }
    FindIs(c, NL, 0, |line|);
  }

  lemma LineIsLast(line: string)
    requires OneLine(line)
    ensures Find(line, NL, 0) == None
  {
    forall k: nat ensures !OccursAt(line, NL, k) {
      if k < |line| { assert line[k..k + 1][0] == line[k]; }
    }
    FindSpec(line, NL, 0);
  }

  /** Everything from the first solid line on stands somewhere in the file. */
  ghost predicate RunsOff(lines: seq<string>, wanted: seq<string>, offset: nat)
    requires offset <= |wanted|
  {
    exists i: nat :: i < |lines| && StandsAt(lines, wanted, i, offset)
  }

  predicate StandsAt(lines: seq<string>, wanted: seq<string>, i: nat, offset: nat)
    requires offset <= |wanted|
  {
    Agree(lines, wanted, i, offset, |wanted| - offset)
  }

  lemma DiagnosisIsSilentIff(lines: seq<string>, wanted: seq<string>, offset: nat)
    requires offset < |wanted|
    ensures Diagnose(lines, wanted, offset).None? <==>
            NothingFits(lines, wanted[offset]) || RunsOff(lines, wanted, offset)
    ensures RunsOff(lines, wanted, offset) ==> !NothingFits(lines, wanted[offset])
  {
    StartsAre(lines, wanted[offset]);
    var starts := Starts(lines, wanted[offset]);
    if starts != [] {
      var best := BestStart(lines, wanted, starts, offset);
      BestIsLongest(lines, wanted, starts, offset);
      RunIsGreatest(lines, wanted, best, offset, |wanted| - offset);
      assert RunLength(lines, wanted, best, offset) == |wanted| - offset ==> StandsAt(lines, wanted, best, offset);
    }
    if RunsOff(lines, wanted, offset) {
      var i: nat :| i < |lines| && StandsAt(lines, wanted, i, offset);
      RunIsGreatest(lines, wanted, i, offset, |wanted| - offset);
      assert wanted[offset] == lines[i + (offset - offset)];
      assert i in starts && Fits(lines[i], wanted[offset], false);
    }
  }

  /**
   At most one of the two hints answers.  Neither does exactly when the anchor is
   blank, or everything from its first solid line on is in the file after all.
   */
  lemma HintsExclude(content: string, anchor: string)
    ensures Divergence(content, anchor).None? || AbsentAnchor(content, anchor).None?
    ensures
      var wanted := Lines(anchor);
      Divergence(content, anchor).None? && AbsentAnchor(content, anchor).None?
      <==> FirstSolid(wanted) == |wanted| || RunsOff(Lines(content), wanted, FirstSolid(wanted))
  {
    var wanted := Lines(anchor);
    if FirstSolid(wanted) < |wanted| {
      DiagnosisIsSilentIff(Lines(content), wanted, FirstSolid(wanted));
    }
  }

  /** For an anchor that is not in the file and does not begin with a blank line, exactly one answers. */
  lemma ExactlyOneHint(content: string, anchor: string)
    requires !Occurs(content, anchor) && Strip(Lines(anchor)[0]) != ""
    ensures Divergence(content, anchor).Some? <==> AbsentAnchor(content, anchor).None?
  {
    HintsExclude(content, anchor);
    var wanted, lines := Lines(anchor), Lines(content);
    if RunsOff(lines, wanted, 0) {
      var i: nat :| i < |lines| && StandsAt(lines, wanted, i, 0);
      WholeLinesOccur(content, anchor, i);
    }
  }

  lemma WholeLinesOccur(content: string, anchor: string, i: nat)
    requires Agree(Lines(content), Lines(anchor), i, 0, |Lines(anchor)|)
    ensures Occurs(content, anchor)
  {
    var wanted, lines := Lines(anchor), Lines(content);
    forall k | 0 <= k < |wanted| ensures lines[i..i + |wanted|][k] == wanted[k] {
      assert wanted[k] == lines[i + (k - 0)];
    }
    assert lines[i..i + |wanted|] == wanted;
    JoinOccurs(lines, NL, i, |wanted|);
    SplitJoins(content, NL, 0);
    SplitJoins(anchor, NL, 0);
    assert content[0..] == content && anchor[0..] == anchor;
  }

  // ----- applying -----

  datatype Hint = Located(report: Report) | OnlyWhitespace | Invented(line: string) | Unknown

  datatype EditError =
    | EmptyAnchor
    | Identical(present: bool)
    | NotFound(hint: Hint, stale: bool)
    | Ambiguous(times: nat, lines: seq<nat>, more: bool)

  /** White space runs collapsed to one blank, ends stripped. */
  function Squash(s: string): string { Strip(Collapse(s, false)) }

  function Collapse(s: string, inRun: bool): string
    decreases |s|
  {
    if s == "" then ""
    else if !IsSpace(s[0]) then [s[0]] + Collapse(s[1..], false)
    else (if inRun then "" else " ") + Collapse(s[1..], true)
  }

  /** The most specific hint that applies. */
  function HintFor(content: string, anchor: string): Hint {
    if Divergence(content, anchor).Some? then Located(Divergence(content, anchor).value)
    else if Squash(anchor) != "" && Occurs(Squash(content), Squash(anchor)) then OnlyWhitespace
    else if AbsentAnchor(content, anchor).Some? then Invented(AbsentAnchor(content, anchor).value)
    else Unknown
  }

  const MAX_REPORTED_LINES := 5

  /** One plus the number of line feeds before `p`. */
  function LineOf(content: string, p: nat): nat
    requires p <= |content|
    decreases p
  {
    if p == 0 then 1 else LineOf(content, p - 1) + if content[p - 1] == '\n' then 1 else 0
  }

  /** Lines of every occurrence from `i` on, overlapping ones included. */
  function LinesOf(content: string, needle: string, i: nat): seq<nat>
    decreases |content| + 1 - i
  {
    match Find(content, needle, i)
    case None => []
    case Some(p) => [LineOf(content, p)] + LinesOf(content, needle, p + 1)
  }

  function Apply(content: string, anchor: string, text: string, replaceAll: bool, writtenSinceRead: bool)
    : Result<string, EditError>
  {
    if anchor == "" then Failure(EmptyAnchor)
    else if anchor == text then Failure(Identical(Occurs(content, anchor)))
    else
      var occurrences := Count(content, anchor, 0);
      if occurrences == 0 then Failure(NotFound(HintFor(content, anchor), writtenSinceRead))
      else if occurrences > 1 && !replaceAll then
        var lines := LinesOf(content, anchor, 0);
        Failure(Ambiguous(occurrences,
                          if |lines| <= MAX_REPORTED_LINES then lines else lines[..MAX_REPORTED_LINES],
                          |lines| > MAX_REPORTED_LINES))
      else if replaceAll then Success(ReplaceAll(content, anchor, text, 0))
      else Success(ReplaceFirst(content, anchor, text))
  }

  /** Every occurrence, overlapping or not, has its line named for an ambiguous anchor. */
  lemma {:induction false} OccurrenceIsListed(content: string, needle: string, i: nat, p: nat)
    requires needle != "" && i <= p && OccursAt(content, needle, p)
    ensures LineOf(content, p) in LinesOf(content, needle, i)
    decreases |content| + 1 - i
  {
    FindSpec(content, needle, i);
    var q := Find(content, needle, i).value;
    if q < p { OccurrenceIsListed(content, needle, q + 1, p); }
  }

  /** And every line named is that of an occurrence. */
  lemma {:induction false} ListedIsOccurrence(content: string, needle: string, i: nat, l: nat) returns (p: nat)
    requires needle != "" && l in LinesOf(content, needle, i)
    ensures i <= p && OccursAt(content, needle, p) && LineOf(content, p) == l
    decreases |content| + 1 - i
  {
    FindSpec(content, needle, i);
    p := Find(content, needle, i).value;
    if LineOf(content, p) != l { p := ListedIsOccurrence(content, needle, p + 1, l); }
  }

  /** All occurrences from `i` on. */
  ghost predicate AllFrom(content: string, needle: string, i: nat, ps: seq<nat>) {
    forall p: nat :: p in ps <==> i <= p && OccursAt(content, needle, p)
  }

  /** The list is of all occurrences from `i` on, overlapping ones too, in order. */
  lemma {:induction false} ListedInOrder(content: string, needle: string, i: nat) returns (ps: seq<nat>)
    requires needle != ""
    ensures Increasing(ps) && AllFrom(content, needle, i, ps)
    ensures LinesAre(content, LinesOf(content, needle, i), ps)
    decreases |content| + 1 - i
  {
    if Find(content, needle, i).None? {
      ps := [];
      MissingIsNowhere(content, needle, i);
    } else {
      var p := Find(content, needle, i).value;
      var rest := ListedInOrder(content, needle, p + 1);
      ps := [p] + rest;
      FirstThenRest(content, needle, i, p, rest);
      OneMoreLine(content, LinesOf(content, needle, p + 1), rest, p);
    }
  }

  /** These are the lines of these positions. */
  predicate LinesAre(content: string, lines: seq<nat>, ps: seq<nat>) {
    |lines| == |ps| && forall k :: 0 <= k < |ps| ==> ps[k] <= |content| && lines[k] == LineOf(content, ps[k])
  }

  lemma OneMoreLine(content: string, lines: seq<nat>, ps: seq<nat>, p: nat)
    requires LinesAre(content, lines, ps) && p <= |content|
    ensures LinesAre(content, [LineOf(content, p)] + lines, [p] + ps)
  {
  }

  lemma FirstThenRest(content: string, needle: string, i: nat, p: nat, rest: seq<nat>)
    requires Find(content, needle, i) == Some(p) && Increasing(rest) && AllFrom(content, needle, p + 1, rest)
    ensures Increasing([p] + rest) && AllFrom(content, needle, i, [p] + rest)
  {
    FoundIsFirst(content, needle, i, p);
    FirstIsLeast(p, rest);
    forall q: nat ensures q in [p] + rest <==> i <= q && OccursAt(content, needle, q) {
      if i <= q < p { assert !OccursAt(content, needle, q); }
    }
  }

  lemma FirstIsLeast(p: nat, rest: seq<nat>)
    requires Increasing(rest) && forall q :: q in rest ==> p < q
    ensures Increasing([p] + rest)
  {
    assert forall k :: 0 <= k < |rest| ==> rest[k] in rest;
  }

  /** The positions of the line feeds before `p`. */
  function FeedsBefore(content: string, p: nat): set<int>
    requires p <= |content|
  {
    set k | 0 <= k < p && content[k] == '\n'
  }

  /** The line of a position is one more than the line feeds before it. */
  lemma {:induction false} LineOfCounts(content: string, p: nat)
    requires p <= |content|
    ensures LineOf(content, p) == 1 + |FeedsBefore(content, p)|
    decreases p
  {
    if p > 0 {
      LineOfCounts(content, p - 1);
      assert FeedsBefore(content, p)
          == FeedsBefore(content, p - 1) + if content[p - 1] == '\n' then {p - 1} else {};
    }
  }

  // ----- what white space does to a squashed text -----

  lemma {:induction false} CollapseSpace(x: string, b: string, inRun: bool)
    requires x != "" && AllSpace(x)
    ensures Collapse(x + b, inRun) == (if inRun then "" else " ") + Collapse(b, true)
    decreases |x|
  {
    assert (x + b)[1..] == x[1..] + b && IsSpace(x[0]);
    if |x| > 1 {
      assert forall k :: 0 <= k < |x| - 1 ==> x[1..][k] == x[k + 1];
      CollapseSpace(x[1..], b, true);
    } else {
      assert x[1..] + b == b;
    }
  }

  lemma {:induction false} CollapseAnySpace(a: string, x: string, y: string, b: string, inRun: bool)
    requires x != "" && AllSpace(x) && y != "" && AllSpace(y)
    ensures Collapse(a + x + b, inRun) == Collapse(a + y + b, inRun)
    decreases |a|
  {
    if a == "" {
      assert a + x + b == x + b && a + y + b == y + b;
      CollapseSpace(x, b, inRun);
      CollapseSpace(y, b, inRun);
    } else {
      assert (a + x + b)[0] == a[0] && (a + x + b)[1..] == a[1..] + x + b;
      assert (a + y + b)[0] == a[0] && (a + y + b)[1..] == a[1..] + y + b;
      CollapseAnySpace(a[1..], x, y, b, IsSpace(a[0]));
    }
  }

  /** Words with one blank between any two, and nothing else. */
  predicate Tidy(s: string) {
    && (s != "" ==> !IsSpace(s[0]) && !IsSpace(s[|s| - 1]))
    && forall k :: 0 <= k < |s| && IsSpace(s[k]) ==> s[k] == ' ' && (k > 0 ==> !IsSpace(s[k - 1]))
  }

  lemma {:induction false} TidyCollapses(s: string, inRun: bool)
    requires forall k :: 0 <= k < |s| && IsSpace(s[k]) ==> s[k] == ' ' && (k > 0 ==> !IsSpace(s[k - 1]))
    requires inRun && s != "" ==> !IsSpace(s[0])
    ensures Collapse(s, inRun) == s
    decreases |s|
  {
    if s != "" {
      assert forall k :: 0 <= k < |s| - 1 ==> s[1..][k] == s[k + 1];
      TidyCollapses(s[1..], IsSpace(s[0]));
    }
  }

  /**
   Squashing: any white space is as good as any other, none is left at the
   ends, and a tidy text is left as it is.
   */
  lemma SquashIs(a: string, x: string, y: string, b: string)
    requires x != "" && AllSpace(x) && y != "" && AllSpace(y)
    ensures Squash(a + x + b) == Squash(a + y + b)
    ensures Squash(a) != "" ==> !IsSpace(Squash(a)[0]) && !IsSpace(Squash(a)[|Squash(a)| - 1])
    ensures Tidy(a) ==> Squash(a) == a
  {
    CollapseAnySpace(a, x, y, b, false);
    StripEnds(Collapse(a, false));
    if Tidy(a) {
      TidyCollapses(a, false);
      if a != "" {
        StripIs(a, 0, |a|);
        assert a[0..|a|] == a;
      }
    }
  }

  // ----- what a failure says -----

  /**
   Where the anchor could begin: at lines equal to its first solid line, or, if
   there is none, at lines equal to it but for white space at the ends.
   */
  lemma StartsIff(lines: seq<string>, solid: string, k: nat)
    ensures k in Starts(lines, solid)
       <==> k < |lines| && if solid in lines then lines[k] == solid else Strip(lines[k]) == Strip(solid)
  {
    FitsBelowIs(lines, solid, true, |lines|);
    FitsBelowIs(lines, solid, false, |lines|);
    NoFit(lines, solid, true);
    var strict := FitsBelow(lines, solid, true, |lines|);
    if k in strict { var j :| 0 <= j < |strict| && strict[j] == k; }
    var loose := FitsBelow(lines, solid, false, |lines|);
    if k in loose { var j :| 0 <= j < |loose| && loose[j] == k; }
    if strict != [] { assert Fits(lines[strict[0]], solid, true); }
    if solid in lines {
      var i :| 0 <= i < |lines| && lines[i] == solid;
      assert Fits(lines[i], solid, true);
    }
  }

  /** The anchor can be lined up with the file, and does not run off its end in agreement. */
  ghost predicate LinesUp(content: string, anchor: string) {
    var wanted, lines := Lines(anchor), Lines(content);
    var offset := FirstSolid(wanted);
    && offset < |wanted| && !RunsOff(lines, wanted, offset)
    && exists k :: 0 <= k < |lines| && Strip(lines[k]) == Strip(wanted[offset])
  }

  /** The most specific hint that is true. */
  ghost predicate RightHint(content: string, anchor: string, h: Hint) {
    var wanted, lines := Lines(anchor), Lines(content);
    var offset := FirstSolid(wanted);
    if LinesUp(content, anchor) then h.Located? && TrueReport(lines, wanted, offset, h.report)
    else if Squash(anchor) != "" && Occurs(Squash(content), Squash(anchor)) then h == OnlyWhitespace
    else if offset < |wanted| && forall k :: 0 <= k < |lines| ==> Strip(lines[k]) != Strip(wanted[offset])
      then h == Invented(wanted[offset])
    else h == Unknown
  }

  lemma HintIsRight(content: string, anchor: string)
    ensures RightHint(content, anchor, HintFor(content, anchor))
  {
    var wanted, lines := Lines(anchor), Lines(content);
    var offset := FirstSolid(wanted);
    if offset < |wanted| {
      DiagnosisIsSilentIff(lines, wanted, offset);
      assert NothingFits(lines, wanted[offset]) <==>
             forall k :: 0 <= k < |lines| ==> Strip(lines[k]) != Strip(wanted[offset]) by {
        assert forall k :: 0 <= k < |lines| ==>
          (Fits(lines[k], wanted[offset], false) <==> Strip(lines[k]) == Strip(wanted[offset]));
      }
    }
    if Divergence(content, anchor).Some? { DivergenceIsTrue(content, anchor); }
  }

  /** The first five lines of those at which an anchor stands, in order, and whether there are more. */
  ghost predicate NamesLines(content: string, anchor: string, lines: seq<nat>, more: bool) {
    exists ps: seq<nat> :: Increasing(ps) && AllFrom(content, anchor, 0, ps) && NamesFirst(content, ps, lines, more)
  }

  predicate NamesFirst(content: string, ps: seq<nat>, lines: seq<nat>, more: bool) {
    && |lines| == (if |ps| > 5 then 5 else |ps|) && (more <==> |ps| > 5)
    && forall k :: 0 <= k < |lines| ==> ps[k] <= |content| && lines[k] == LineOf(content, ps[k])
  }

  /** Every failure, with what it says, and exactly when. */
  ghost predicate RightFailure(content: string, anchor: string, text: string, replaceAll: bool, stale: bool,
                               e: EditError)
  {
    if anchor == "" then e == EmptyAnchor
    else if anchor == text then e == Identical(Occurs(content, anchor))
    else if !Occurs(content, anchor) then e.NotFound? && e.stale == stale && RightHint(content, anchor, e.hint)
    else
      && !replaceAll && (forall p: nat :: !OneOccurrence(content, anchor, p))
      && e.Ambiguous? && e.times == |Split(content, anchor, 0)| - 1 && e.times > 1
      && NamesLines(content, anchor, e.lines, e.more)
  }

  lemma {:induction false} SplitCounts(content: string, anchor: string, i: nat)
    requires anchor != "" && i <= |content|
    ensures |Split(content, anchor, i)| == Count(content, anchor, i) + 1
    decreases |content| - i
  {
    FindSpec(content, anchor, i);
    if Find(content, anchor, i).Some? { SplitCounts(content, anchor, Find(content, anchor, i).value + |anchor|); }
  }

  lemma FailureIsRight(content: string, anchor: string, text: string, replaceAll: bool, stale: bool)
    requires Apply(content, anchor, text, replaceAll, stale).Failure?
    ensures RightFailure(content, anchor, text, replaceAll, stale,
                         Apply(content, anchor, text, replaceAll, stale).error)
  {
    if anchor != "" && anchor != text {
      CountIsZeroIff(content, anchor);
      if !Occurs(content, anchor) {
        HintIsRight(content, anchor);
      } else {
        SingleEditIff(content, anchor, text, stale);
        SplitCounts(content, anchor, 0);
        var ps := ListedInOrder(content, anchor, 0);
        var e := Apply(content, anchor, text, replaceAll, stale).error;
        assert AllFrom(content, anchor, 0, ps) && NamesFirst(content, ps, e.lines, e.more);
      }
    }
  }

  /** So an ambiguous anchor is always given at least two of them. */
  lemma AtLeastTwoLines(content: string, needle: string)
    requires needle != "" && Count(content, needle, 0) > 1
    ensures |LinesOf(content, needle, 0)| >= 2
  {
    var p := Find(content, needle, 0).value;
    assert Count(content, needle, p + |needle|) > 0;
    FirstFromEarlier(content, needle, p + 1, p + |needle|);
    assert |LinesOf(content, needle, p + 1)| >= 1;
  }

  lemma FirstFromEarlier(content: string, needle: string, i: nat, j: nat)
    requires i <= j && Find(content, needle, j).Some?
    ensures Find(content, needle, i).Some?
    ensures Find(content, needle, i) == Find(content, needle, j) || Find(content, needle, i).value < j
  {
    FindSpec(content, needle, i);
    FindSpec(content, needle, j);
    if Find(content, needle, i).Some? && Find(content, needle, i).value >= j {
      FindIs(content, needle, j, Find(content, needle, i).value);
    }
  }

  /**
   A single edit succeeds exactly when some occurrence has every other one start
   inside it, and puts the new text between what stands before and behind that one.
   */
  lemma SingleEditIff(content: string, anchor: string, text: string, stale: bool)
    ensures Apply(content, anchor, text, false, stale).Success?
       <==> anchor != "" && anchor != text && exists p: nat :: OneOccurrence(content, anchor, p)
    ensures forall p: nat :: anchor != "" && anchor != text && OneOccurrence(content, anchor, p) ==>
              Apply(content, anchor, text, false, stale)
              == Success(content[..p] + text + content[p + |anchor|..])
  {
    if anchor != "" { CountIsOneIff(content, anchor); }
  }

  /** So an anchor that overlaps itself can stand at two places and still be taken as unique. */
  lemma OverlappingAnchorPasses(text: string)
    requires text != "aa"
    ensures OccursAt("aaa", "aa", 0) && OccursAt("aaa", "aa", 1)
    ensures Apply("aaa", "aa", text, false, false) == Success(text + "a")
  {
    assert "aaa"[0..2] == "aa" && "aaa"[1..3] == "aa";
    assert OneOccurrence("aaa", "aa", 0);
    SingleEditIff("aaa", "aa", text, false);
    assert "aaa"[..0] + text + "aaa"[2..] == text + "a";
  }

  /** No proper prefix of the anchor is also a suffix of it: it cannot overlap itself. */
  predicate Unbordered(anchor: string) {
    forall n :: 0 < n < |anchor| ==> !Border(anchor, n)
  }

  predicate Border(anchor: string, n: nat)
    requires n <= |anchor|
  {
    anchor[..n] == anchor[|anchor| - n..]
  }

  /** The anchor stands at `p` and nowhere else. */
  ghost predicate OnlyAt(content: string, anchor: string, p: nat) {
    OccursAt(content, anchor, p) && forall q: nat :: OccursAt(content, anchor, q) ==> q == p
  }

  /** Two occurrences less than the anchor's length apart make a border. */
  lemma OverlapIsBorder(content: string, anchor: string, p: nat, q: nat)
    requires OccursAt(content, anchor, p) && OccursAt(content, anchor, q) && p < q < p + |anchor|
    ensures Border(anchor, p + |anchor| - q)
  {
    var n := p + |anchor| - q;
    assert content[q..q + |anchor|][..n] == content[p..p + |anchor|][|anchor| - n..];
  }

  /** An anchor with a border, set over itself, stands at two places, the second inside the first. */
  lemma BorderOverlaps(anchor: string, n: nat)
    requires 0 < n < |anchor| && Border(anchor, n)
    ensures OccursAt(anchor + anchor[n..], anchor, 0) && OccursAt(anchor + anchor[n..], anchor, |anchor| - n)
    ensures OneOccurrence(anchor + anchor[n..], anchor, 0)
  {
    var content, q := anchor + anchor[n..], |anchor| - n;
    assert content[0..|anchor|] == anchor;
    assert content[q..] == anchor[q..] + anchor[n..] == anchor[..n] + anchor[n..] == anchor;
    assert content[q..q + |anchor|] == content[q..];
  }

  /** An anchor without a border that passes as unique is unique. */
  lemma UnborderedIsUnique(content: string, anchor: string, p: nat)
    requires Unbordered(anchor) && OneOccurrence(content, anchor, p)
    ensures OnlyAt(content, anchor, p)
  {
    forall q: nat | OccursAt(content, anchor, q) ensures q == p {
      if q != p { OverlapIsBorder(content, anchor, p, q); }
    }
  }

  /** Whatever the file, a single edit with this anchor changes the only place it stands at. */
  ghost predicate UniqueWheneverApplied(anchor: string, text: string) {
    forall content ::
      Apply(content, anchor, text, false, false).Success? ==> exists p: nat :: OnlyAt(content, anchor, p)
  }

  /**
   The anchors for which success means a single occurrence, in every file, are
   exactly those that cannot overlap themselves.
   */
  lemma UniqueIffUnbordered(anchor: string, text: string)
    requires anchor != "" && anchor != text
    ensures UniqueWheneverApplied(anchor, text) <==> Unbordered(anchor)
  {
    if Unbordered(anchor) {
      forall content | Apply(content, anchor, text, false, false).Success?
        ensures exists p: nat :: OnlyAt(content, anchor, p) {
        SingleEditIff(content, anchor, text, false);
        var p: nat :| OneOccurrence(content, anchor, p);
        UnborderedIsUnique(content, anchor, p);
      }
    } else {
      var n :| 0 < n < |anchor| && Border(anchor, n);
      var content := anchor + anchor[n..];
      BorderOverlaps(anchor, n);
      SingleEditIff(content, anchor, text, false);
      assert !exists p: nat :: OnlyAt(content, anchor, p);
    }
  }

  /**
   Replace-all succeeds exactly when the anchor occurs.  It keeps the pieces of the
   one greedy split of the file and puts the new text where the anchor one was.
   */
  lemma ReplaceAllIff(content: string, anchor: string, text: string, stale: bool, pieces: seq<string>)
    requires anchor != "" && anchor != text
    requires pieces != [] && Greedy(pieces, anchor) && Join(pieces, anchor) == content
    ensures Apply(content, anchor, text, true, stale).Success? <==> Occurs(content, anchor)
    ensures Occurs(content, anchor) ==>
              && Apply(content, anchor, text, true, stale) == Success(Join(pieces, text))
              && |Join(pieces, text)| == |content| + Count(content, anchor, 0) * (|text| - |anchor|)
  {
    assert content[0..] == content;
    GreedySplitIsUnique(content, anchor, 0, pieces);
    ReplaceAllMeans(content, anchor, text, stale);
  }

  lemma ReplaceAllMeans(content: string, anchor: string, text: string, stale: bool)
    requires anchor != "" && anchor != text
    ensures Apply(content, anchor, text, true, stale).Success? <==> Occurs(content, anchor)
    ensures
      var now := Join(Split(content, anchor, 0), text);
      && (Occurs(content, anchor) ==> Apply(content, anchor, text, true, stale) == Success(now))
      && |now| == |content| + Count(content, anchor, 0) * (|text| - |anchor|)
  {
    CountIsZeroIff(content, anchor);
    assert content[0..] == content;
    SplitJoins(content, anchor, 0);
    ReplaceJoins(content, anchor, text, 0);
    JoinLength(Split(content, anchor, 0), anchor, text);
  }

  /** A successful edit never gives back the text it was given. */
  lemma SuccessChanges(content: string, anchor: string, text: string, replaceAll: bool, stale: bool)
    requires Apply(content, anchor, text, replaceAll, stale).Success?
    ensures Apply(content, anchor, text, replaceAll, stale).value != content
  {
    assert content[0..] == content;
    if replaceAll {
      SplitJoins(content, anchor, 0);
      ReplaceJoins(content, anchor, text, 0);
      JoinDiffers(Split(content, anchor, 0), anchor, text);
    } else {
      SingleEditIff(content, anchor, text, stale);
      var p: nat :| OneOccurrence(content, anchor, p);
      OneReplacementDiffers(content, anchor, text, p);
    }
  }

  lemma OneReplacementDiffers(content: string, anchor: string, text: string, p: nat)
    requires OccursAt(content, anchor, p) && anchor != text
    ensures content[..p] + text + content[p + |anchor|..] != content
  {
    var now := content[..p] + text + content[p + |anchor|..];
    assert content == content[..p] + anchor + content[p + |anchor|..];
    if |anchor| == |text| {
      assert now[p..p + |anchor|] == text;
    }
  }

  /** Whether a file was just written changes what a failure says, never whether there is one. */
  lemma StalenessIsOnlyAdvice(content: string, anchor: string, text: string, replaceAll: bool, s: bool, t: bool)
    ensures Apply(content, anchor, text, replaceAll, s).Success? <==>
            Apply(content, anchor, text, replaceAll, t).Success?
    ensures Apply(content, anchor, text, replaceAll, s).Success? ==>
              Apply(content, anchor, text, replaceAll, s) == Apply(content, anchor, text, replaceAll, t)
  {
  }

  // ----- the loops -----

  /** The line numbers are those of all occurrences, in order. */
  method LineNumbersOf(content: string, needle: string) returns (lines: seq<nat>)
    requires needle != ""
    ensures lines == LinesOf(content, needle, 0)
  {
    lines := [];
    var start := 0;
    while Find(content, needle, start).Some?
      invariant start <= |content| + 1
      invariant lines + LinesOf(content, needle, start) == LinesOf(content, needle, 0)
      decreases |content| + 1 - start
    {
      var index := Find(content, needle, start).value;
      lines := lines + [LineOf(content, index)];
      start := index + 1;
    }
  }

  method DivergenceHint(content: string, anchor: string) returns (hint: Option<Report>)
    ensures hint == Divergence(content, anchor)
  {
    var wanted, lines := Lines(anchor), Lines(content);
    var offset := FirstSolid(wanted);
    if offset == |wanted| { return None; }
    var starts := Starts(lines, wanted[offset]);
    if starts == [] { return None; }
    StartsAre(lines, wanted[offset]);
    var bestStart, bestMatched := starts[0], -1;
    for i := 0 to |starts|
      invariant i == 0 ==> bestMatched == -1
      invariant i > 0 ==>
        && bestStart == BestStart(lines, wanted, starts[..i], offset)
        && bestMatched == RunLength(lines, wanted, bestStart, offset)
    {
      var matched := Matched(lines, wanted, starts[i], offset);
      if i > 0 { NextBest(lines, wanted, starts, offset, i); }
      if matched > bestMatched {
        bestStart, bestMatched := starts[i], matched;
      }
    }
    assert starts[..|starts|] == starts;
    if offset + bestMatched >= |wanted| { return None; }
    return Some(ReportAt(lines, wanted, offset, bestStart, bestMatched));
  }

  method Matched(lines: seq<string>, wanted: seq<string>, start: nat, offset: nat) returns (matched: nat)
    requires start <= |lines| && offset <= |wanted|
    ensures matched == RunLength(lines, wanted, start, offset)
  {
    matched := 0;
    while matched + offset < |wanted| && start + matched < |lines|
          && lines[start + matched] == wanted[offset + matched]
      invariant start + matched <= |lines| && offset + matched <= |wanted|
      invariant matched + RunLength(lines, wanted, start + matched, offset + matched)
             == RunLength(lines, wanted, start, offset)
    {
      matched := matched + 1;
    }
  }
}
