/**
 The acceptor behind `json.loads`, as positions in a fixed text.

 Every scanner takes the position where a construct starts and answers the
 position just after it, or None.  It is RFC 8259 plus the three constants
 Python adds (`NaN`, `Infinity`, `-Infinity`).
 */
module Json {
  import opened Wrappers

  type Position = Option<nat>

  predicate IsWs(c: char) { c == ' ' || c == '\t' || c == '\n' || c == '\r' }

  predicate IsDigit(c: char) { '0' <= c <= '9' }

  predicate IsHex(c: char) { IsDigit(c) || 'a' <= c <= 'f' || 'A' <= c <= 'F' }

  predicate IsEscape(c: char) {
    c == '"' || c == '\\' || c == '/' || c == 'b' || c == 'f' || c == 'n' || c == 'r' || c == 't'
  }

  function SkipWs(s: string, i: nat): (j: nat)
    requires i <= |s|
    ensures i <= j <= |s|
    ensures j < |s| ==> !IsWs(s[j])
    decreases |s| - i
  {
    if i < |s| && IsWs(s[i]) then SkipWs(s, i + 1) else i
  }

  function Digits(s: string, i: nat): (j: nat)
    requires i <= |s|
    ensures i <= j <= |s|
    ensures j < |s| ==> !IsDigit(s[j])
    decreases |s| - i
  {
    if i < |s| && IsDigit(s[i]) then Digits(s, i + 1) else i
  }

  predicate WordAt(s: string, i: nat, word: string) {
    i + |word| <= |s| && forall k :: 0 <= k < |word| ==> s[i + k] == word[k]
  }

  /** The constant that starts with `c`, if there is one. */
  function WordFor(c: char): string {
    match c
    case 'n' => "null"
    case 't' => "true"
    case 'f' => "false"
    case 'N' => "NaN"
    case 'I' => "Infinity"
    case '-' => "-Infinity"
    case _ => ""
  }

  /** The constant spelled at `i`, if any, as the position after it. */
  function ScanWord(s: string, i: nat): (r: Position)
    requires i < |s|
    ensures r.Some? ==> i < r.value <= |s|
  {
    var word := WordFor(s[i]);
    if word != "" && WordAt(s, i, word) then Some(i + |word|) else None
  }

  /** The body of a string, from just after its opening quote. */
  function ScanString(s: string, i: nat): (r: Position)
    requires i <= |s|
    ensures r.Some? ==> i < r.value <= |s|
    decreases |s| - i
  {
    if i == |s| || s[i] < ' ' then None
    else if s[i] == '"' then Some(i + 1)
    else if s[i] != '\\' then ScanString(s, i + 1)
    else if i + 1 == |s| then None
    else if IsEscape(s[i + 1]) then ScanString(s, i + 2)
    else if s[i + 1] == 'u' && i + 6 <= |s| && forall k :: i + 2 <= k < i + 6 ==> IsHex(s[k]) then
      ScanString(s, i + 6)
    else None
  }

  /** The optional fraction at `i`; `i` itself when there is none. */
  function Fraction(s: string, i: nat): (j: nat)
    requires i <= |s|
    ensures i <= j <= |s|
  {
    if i + 1 < |s| && s[i] == '.' && IsDigit(s[i + 1]) then Digits(s, i + 1) else i
  }

  /** The optional exponent at `i`; `i` itself when there is none. */
  function Exponent(s: string, i: nat): (j: nat)
    requires i <= |s|
    ensures i <= j <= |s|
  {
    if i < |s| && (s[i] == 'e' || s[i] == 'E') then
      var m := if i + 1 < |s| && (s[i + 1] == '+' || s[i + 1] == '-') then i + 2 else i + 1;
      if m < |s| && IsDigit(s[m]) then Digits(s, m) else i
    else i
  }

  function ScanNumber(s: string, i: nat): (r: Position)
    requires i < |s|
    ensures r.Some? ==> i < r.value <= |s|
  {
    var j := if s[i] == '-' then i + 1 else i;
    if j == |s| || !IsDigit(s[j]) then None
    else Some(Exponent(s, Fraction(s, if s[j] == '0' then j + 1 else Digits(s, j))))
  }

  /** A constant or a number. */
  function ScanAtom(s: string, i: nat): (r: Position)
    requires i < |s|
    ensures r.Some? ==> i < r.value <= |s|
  {
    if ScanWord(s, i).Some? then ScanWord(s, i) else ScanNumber(s, i)
  }

  /** What follows a value inside an object or array that `close` ends. */
  datatype Separator = Closed(end: nat) | More(next: nat) | Broken

  function AfterValue(s: string, i: nat, close: char): (r: Separator)
    requires i <= |s|
    ensures r.Closed? ==> i < r.end <= |s|
    ensures r.More? ==> i < r.next <= |s|
  {
    var j := SkipWs(s, i);
    if j == |s| then Broken
    else if s[j] == close then Closed(j + 1)
    else if s[j] == ',' then More(SkipWs(s, j + 1))
    else Broken
  }

  /** Any JSON value starting exactly at `i`. */
  function ScanValue(s: string, i: nat): (r: Position)
    requires i <= |s|
    ensures r.Some? ==> i < r.value <= |s|
    decreases |s| - i, 0
  {
    if i == |s| then None
    else if s[i] == '"' then ScanString(s, i + 1)
    else if s[i] == '{' then
      var j := SkipWs(s, i + 1);
      if j < |s| && s[j] == '}' then Some(j + 1) else ScanMembers(s, j)
    else if s[i] == '[' then
      var j := SkipWs(s, i + 1);
      if j < |s| && s[j] == ']' then Some(j + 1) else ScanItems(s, j)
    else ScanAtom(s, i)
  }

  /** `"key" : value`, up to the end of the value. */
  function ScanMember(s: string, i: nat): (r: Position)
    requires i <= |s|
    ensures r.Some? ==> i < r.value <= |s|
    decreases |s| - i, 1
  {
    if i == |s| || s[i] != '"' then None
    else match ScanString(s, i + 1)
      case None => None
      case Some(key) =>
        var colon := SkipWs(s, key);
        if colon == |s| || s[colon] != ':' then None else ScanValue(s, SkipWs(s, colon + 1))
  }

  /** One or more members and the closing brace. */
  function ScanMembers(s: string, i: nat): (r: Position)
    requires i <= |s|
    ensures r.Some? ==> i < r.value <= |s|
    decreases |s| - i, 2
  {
    match ScanMember(s, i)
    case None => None
    case Some(value) =>
      match AfterValue(s, value, '}')
      case Closed(end) => Some(end)
      case More(next) => ScanMembers(s, next)
      case Broken => None
  }

  /** One or more items and the closing bracket. */
  function ScanItems(s: string, i: nat): (r: Position)
    requires i <= |s|
    ensures r.Some? ==> i < r.value <= |s|
    decreases |s| - i, 2
  {
    match ScanValue(s, i)
    case None => None
    case Some(value) =>
      match AfterValue(s, value, ']')
      case Closed(end) => Some(end)
      case More(next) => ScanItems(s, next)
      case Broken => None
  }

  /** `json.loads` succeeds on `s`. */
  predicate Loads(s: string) {
    match ScanValue(s, SkipWs(s, 0))
    case None => false
    case Some(j) => SkipWs(s, j) == |s|
  }

  /** `json.loads` succeeds on `s` and answers a `dict`. */
  predicate LoadsObject(s: string) {
    Loads(s) && s[SkipWs(s, 0)] == '{'
  }

  // ----- more text never changes a construct that is already complete -----

  lemma {:induction false} SkipWsExtends(s: string, t: string, i: nat)
    requires s <= t && i <= |s| && SkipWs(s, i) < |s|
    ensures SkipWs(t, i) == SkipWs(s, i)
    decreases |s| - i
  {
    if IsWs(s[i]) { SkipWsExtends(s, t, i + 1); }
  }

  lemma {:induction false} DigitsExtends(s: string, t: string, i: nat)
    requires s <= t && i <= |s| && Digits(s, i) < |s|
    ensures Digits(t, i) == Digits(s, i)
    decreases |s| - i
  {
    if IsDigit(s[i]) { DigitsExtends(s, t, i + 1); }
  }

  lemma {:induction false} StringExtends(s: string, t: string, i: nat)
    requires s <= t && i <= |s| && ScanString(s, i).Some?
    ensures ScanString(t, i) == ScanString(s, i)
    decreases |s| - i
  {
    if s[i] == '"' {
    } else if s[i] != '\\' {
      StringExtends(s, t, i + 1);
    } else if IsEscape(s[i + 1]) {
      StringExtends(s, t, i + 2);
    } else {
      StringExtends(s, t, i + 6);
    }
  }

  /** A character no number can continue with. */
  predicate Delimits(s: string, j: nat) {
    j < |s| && !IsDigit(s[j]) && s[j] != '.' && s[j] != 'e' && s[j] != 'E'
  }

  lemma FractionExtends(s: string, t: string, i: nat)
    requires s <= t && i <= |s| && Fraction(s, i) < |s| && s[Fraction(s, i)] != '.'
    ensures Fraction(t, i) == Fraction(s, i)
  {
    if Fraction(s, i) != i { DigitsExtends(s, t, i + 1); }
  }

  lemma ExponentExtends(s: string, t: string, i: nat)
    requires s <= t && i <= |s| && Delimits(s, Exponent(s, i))
    ensures Exponent(t, i) == Exponent(s, i)
  {
    if Exponent(s, i) != i {
      DigitsExtends(s, t, if s[i + 1] == '+' || s[i + 1] == '-' then i + 2 else i + 1);
    }
  }

  lemma NumberExtends(s: string, t: string, i: nat)
    requires s <= t && i < |s| && ScanNumber(s, i).Some? && Delimits(s, ScanNumber(s, i).value)
    ensures ScanNumber(t, i) == ScanNumber(s, i)
  {
    var j := if s[i] == '-' then i + 1 else i;
    var whole := if s[j] == '0' then j + 1 else Digits(s, j);
    if s[j] != '0' { DigitsExtends(s, t, j); }
    FractionExtends(s, t, whole);
    ExponentExtends(s, t, Fraction(s, whole));
  }

  lemma SeparatorExtends(s: string, t: string, i: nat, close: char)
    requires s <= t && i <= |s| && !AfterValue(s, i, close).Broken?
    requires AfterValue(s, i, close).More? ==> AfterValue(s, i, close).next < |s|
    requires close == ']' || close == '}'
    ensures AfterValue(t, i, close) == AfterValue(s, i, close) && Delimits(s, i)
  {
    SkipWsExtends(s, t, i);
    if AfterValue(s, i, close).More? { SkipWsExtends(s, t, SkipWs(s, i) + 1); }
  }

  /** Only a number can grow; everything else is closed by its own last character. */
  predicate SelfClosing(s: string, i: nat) {
    i < |s| && (s[i] == '"' || s[i] == '{' || s[i] == '[')
  }

  /** A complete value stays the same value when text is appended. */
  lemma {:induction false} ValueExtends(s: string, t: string, i: nat)
    requires s <= t && i <= |s| && ScanValue(s, i).Some?
    requires SelfClosing(s, i) || Delimits(s, ScanValue(s, i).value)
    ensures ScanValue(t, i) == ScanValue(s, i)
    decreases |s| - i, 0
  {
    if s[i] == '"' {
      StringExtends(s, t, i + 1);
    } else if s[i] == '{' {
      SkipWsExtends(s, t, i + 1);
      var j := SkipWs(s, i + 1);
      if s[j] != '}' { MembersExtend(s, t, j); }
    } else if s[i] == '[' {
      SkipWsExtends(s, t, i + 1);
      var j := SkipWs(s, i + 1);
      if s[j] != ']' { ItemsExtend(s, t, j); }
    } else {
      AtomExtends(s, t, i);
    }
  }

  lemma NumbersAreNoWords(s: string, i: nat)
    requires i < |s| && (IsDigit(s[i]) || (s[i] == '-' && i + 1 < |s| && IsDigit(s[i + 1])))
    ensures ScanWord(s, i).None?
  {
    if s[i] == '-' {
      assert WordFor(s[i])[1] == 'I' && s[i + 1] != 'I';
    } else {
      assert WordFor(s[i]) == "";
    }
  }

  lemma WordExtends(s: string, t: string, i: nat)
    requires s <= t && i < |s| && ScanWord(s, i).Some?
    ensures ScanWord(t, i) == ScanWord(s, i)
  {
    var word := WordFor(s[i]);
    forall k | 0 <= k < |word| ensures t[i + k] == word[k] { assert s[i + k] == word[k]; }
  }

  lemma AtomExtends(s: string, t: string, i: nat)
    requires s <= t && i < |s|
    requires ScanAtom(s, i).Some? && Delimits(s, ScanAtom(s, i).value)
    ensures ScanAtom(t, i) == ScanAtom(s, i)
  {
    if ScanWord(s, i).Some? {
      WordExtends(s, t, i);
    } else {
      NumberExtends(s, t, i);
      NumbersAreNoWords(t, i);
    }
  }

  lemma {:induction false} MemberExtends(s: string, t: string, i: nat)
    requires s <= t && i <= |s| && ScanMember(s, i).Some? && Delimits(s, ScanMember(s, i).value)
    ensures ScanMember(t, i) == ScanMember(s, i)
    decreases |s| - i, 1
  {
    StringExtends(s, t, i + 1);
    var key := ScanString(s, i + 1).value;
    SkipWsExtends(s, t, key);
    var colon := SkipWs(s, key);
    SkipWsExtends(s, t, colon + 1);
    ValueExtends(s, t, SkipWs(s, colon + 1));
  }

  lemma {:induction false} MembersExtend(s: string, t: string, i: nat)
    requires s <= t && i <= |s| && ScanMembers(s, i).Some?
    ensures ScanMembers(t, i) == ScanMembers(s, i)
    decreases |s| - i, 2
  {
    var value := ScanMember(s, i).value;
    SeparatorExtends(s, t, value, '}');
    MemberExtends(s, t, i);
    match AfterValue(s, value, '}')
    case Closed(_) =>
    case More(next) => MembersExtend(s, t, next);
  }

  lemma {:induction false} ItemsExtend(s: string, t: string, i: nat)
    requires s <= t && i <= |s| && ScanItems(s, i).Some?
    ensures ScanItems(t, i) == ScanItems(s, i)
    decreases |s| - i, 2
  {
    var value := ScanValue(s, i).value;
    SeparatorExtends(s, t, value, ']');
    ValueExtends(s, t, i);
    match AfterValue(s, value, ']')
    case Closed(_) =>
    case More(next) => ItemsExtend(s, t, next);
  }

  /** No proper prefix of a JSON object is a JSON value of any kind. */
  lemma ObjectsArePrefixFree(p: string, s: string)
    requires p <= s && p != s && p != "" && s[0] == '{'
    requires LoadsObject(s) && !IsWs(s[|s| - 1])
    ensures !Loads(p)
  {
    if Loads(p) {
      ValueExtends(p, s, 0);
      var j := ScanValue(p, 0).value;
      TrailingWs(s, j, |p|);
    }
  }

  lemma {:induction false} TrailingWs(s: string, i: nat, j: nat)
    requires i <= j <= |s| && SkipWs(s, i) == |s| && i < |s|
    ensures IsWs(s[|s| - 1])
    decreases |s| - i
  {
    if i + 1 < |s| { TrailingWs(s, i + 1, if j == i then j + 1 else j); }
  }
}
