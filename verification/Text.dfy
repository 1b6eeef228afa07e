/** Python text primitives: white space, stripping, and splitting at line feeds. */
module Text {
  /** `str.isspace` for one character; `re`'s `\s` accepts the same characters. */
  predicate IsSpace(c: char) {
    var code := c as int;
    || 0x09 <= code <= 0x0d || 0x1c <= code <= 0x20 || code == 0x85 || code == 0xa0
    || code == 0x1680 || 0x2000 <= code <= 0x200a || code == 0x2028 || code == 0x2029
    || code == 0x202f || code == 0x205f || code == 0x3000
  }

  predicate AllSpace(s: string) {
    forall i :: 0 <= i < |s| ==> IsSpace(s[i])
  }

  /** `str.lstrip`. */
  function LStrip(s: string): string {
    if s == "" || !IsSpace(s[0]) then s else LStrip(s[1..])
  }

  /** `str.rstrip`. */
  function RStrip(s: string): string {
    if s == "" || !IsSpace(s[|s| - 1]) then s else RStrip(s[..|s| - 1])
  }

  /** `str.strip`. */
  function Strip(s: string): string {
    RStrip(LStrip(s))
  }

  lemma {:induction false} LStripStarts(s: string)
    ensures LStrip(s) != "" ==> !IsSpace(LStrip(s)[0])
  {
    if s != "" && IsSpace(s[0]) { LStripStarts(s[1..]); }
  }

  lemma {:induction false} RStripEnds(s: string)
    ensures RStrip(s) <= s && AllSpace(s[|RStrip(s)|..])
    ensures RStrip(s) != "" ==> !IsSpace(RStrip(s)[|RStrip(s)| - 1])
  {
    if s != "" && IsSpace(s[|s| - 1]) {
      var front := s[..|s| - 1];
      RStripEnds(front);
      var n := |RStrip(front)|;
      forall i | 0 <= i < |s[n..]| ensures IsSpace(s[n..][i]) {
        if i + n < |s| - 1 { assert s[n..][i] == front[n..][i]; }
      }
    }
  }

  lemma {:induction false} LStripPrefix(p: string, s: string)
    requires p <= s
    ensures LStrip(p) <= LStrip(s)
  {
    if p != "" && IsSpace(p[0]) {
      LStripPrefix(p[1..], s[1..]);
    }
  }

  lemma RStripPrefix(p: string, s: string)
    requires p <= s
    ensures RStrip(p) <= RStrip(s)
  {
    RStripEnds(p);
    RStripEnds(s);
    var q, t := RStrip(p), RStrip(s);
    assert forall k :: |t| <= k < |s| ==> s[k] == s[|t|..][k - |t|];
    assert q != "" ==> q[|q| - 1] == s[|q| - 1];
  }

  /** Stripping a prefix yields a prefix of the stripped text. */
  lemma StripPrefix(p: string, s: string)
    requires p <= s
    ensures Strip(p) <= Strip(s)
  {
    LStripPrefix(p, s);
    RStripPrefix(LStrip(p), LStrip(s));
  }

  /** What is left has no white space at either end. */
  lemma StripEnds(s: string)
    ensures Strip(s) != "" ==> !IsSpace(Strip(s)[0]) && !IsSpace(Strip(s)[|Strip(s)| - 1])
  {
    LStripStarts(s);
    RStripEnds(LStrip(s));
  }

  /** What strips to nothing is white space. */
  lemma {:induction false} BlankIsAllSpace(s: string)
    requires Strip(s) == ""
    ensures AllSpace(s)
  {
    if s != "" {
      if IsSpace(s[0]) {
        BlankIsAllSpace(s[1..]);
        assert forall i :: 0 < i < |s| ==> s[i] == s[1..][i - 1];
      } else {
        RStripEnds(s);
        assert s[0..] == s;
      }
    }
  }

  lemma {:induction false} LStripIs(s: string, i: nat)
    requires i < |s| && !IsSpace(s[i]) && forall k :: 0 <= k < i ==> IsSpace(s[k])
    ensures LStrip(s) == s[i..]
    decreases i
  {
    if i > 0 {
      LStripIs(s[1..], i - 1);
      assert s[1..][i - 1..] == s[i..];
    }
  }

  lemma {:induction false} RStripIs(s: string, j: nat)
    requires 0 < j <= |s| && !IsSpace(s[j - 1]) && forall k :: j <= k < |s| ==> IsSpace(s[k])
    ensures RStrip(s) == s[..j]
    decreases |s|
  {
    if j < |s| {
      RStripIs(s[..|s| - 1], j);
      assert s[..|s| - 1][..j] == s[..j];
    } else {
      assert s[..j] == s;
    }
  }

  /** What lies between white space at both ends is what stripping leaves. */
  lemma StripIs(s: string, i: nat, j: nat)
    requires i < j <= |s| && !IsSpace(s[i]) && !IsSpace(s[j - 1])
    requires (forall k :: 0 <= k < i ==> IsSpace(s[k])) && (forall k :: j <= k < |s| ==> IsSpace(s[k]))
    ensures Strip(s) == s[i..j]
  {
    LStripIs(s, i);
    RStripIs(s[i..], j - i);
    assert s[i..][..j - i] == s[i..j];
  }
}
