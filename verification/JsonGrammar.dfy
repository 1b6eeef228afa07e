/**
 The grammar of RFC 8259, sections 2 to 7, read as spans of a text: each
 predicate says that `t[i..j]` derives from one rule.  With `lax` it has the
 three constants that Python adds.  The acceptor of module Json takes exactly
 the texts of that grammar, and so every text of the RFC's.
 */
module JsonGrammar {
  import opened Wrappers
  import opened Json
  import Text

  predicate IsSpan(t: string, i: nat, j: nat) { i <= j <= |t| }

  // %x20 / %x09 / %x0A / %x0D
  predicate WsChar(c: char) {
    var code := c as int;
    code == 0x20 || code == 0x09 || code == 0x0A || code == 0x0D
  }

  // DIGIT = %x30-39
  predicate DigitChar(c: char) { 0x30 <= c as int <= 0x39 }

  // HEXDIG, in either case
  predicate HexChar(c: char) {
    var code := c as int;
    DigitChar(c) || 0x41 <= code <= 0x46 || 0x61 <= code <= 0x66
  }

  // %x22 / %x5C / %x2F / %x62 / %x66 / %x6E / %x72 / %x74
  predicate EscapeChar(c: char) {
    var code := c as int;
    || code == 0x22 || code == 0x5C || code == 0x2F || code == 0x62
    || code == 0x66 || code == 0x6E || code == 0x72 || code == 0x74
  }

  // unescaped = %x20-21 / %x23-5B / %x5D-10FFFF
  predicate UnescapedChar(c: char) {
    var code := c as int;
    0x20 <= code <= 0x21 || 0x23 <= code <= 0x5B || 0x5D <= code
  }

  // ws = *( %x20 / %x09 / %x0A / %x0D )
  predicate Ws(t: string, i: nat, j: nat) {
    IsSpan(t, i, j) && forall k :: i <= k < j ==> WsChar(t[k])
  }

  // 1*DIGIT
  predicate IsDigits(t: string, i: nat, j: nat) {
    IsSpan(t, i, j) && i < j && forall k :: i <= k < j ==> DigitChar(t[k])
  }

  // false / null / true, and what Python adds: NaN / Infinity / -Infinity
  predicate IsName(lax: bool, t: string, i: nat, j: nat) {
    || (j == i + 5 && WordAt(t, i, "false"))
    || (j == i + 4 && (WordAt(t, i, "null") || WordAt(t, i, "true")))
    || (lax && j == i + 3 && WordAt(t, i, "NaN"))
    || (lax && j == i + 8 && WordAt(t, i, "Infinity"))
    || (lax && j == i + 9 && WordAt(t, i, "-Infinity"))
  }

  // number = [ minus ] int [ frac ] [ exp ]
  ghost predicate IsNumber(t: string, i: nat, j: nat) {
    exists a: nat, b: nat, c: nat ::
      IsMinus(t, i, a) && IsInt(t, a, b) && IsFrac(t, b, c) && IsExp(t, c, j)
  }

  predicate IsMinus(t: string, i: nat, j: nat) {
    i == j || (j == i + 1 && i < |t| && t[i] == '-')
  }

  predicate IsInt(t: string, i: nat, j: nat) {
    IsDigits(t, i, j) && (t[i] == '0' ==> j == i + 1)
  }

  predicate IsFrac(t: string, i: nat, j: nat) {
    i == j || (i < |t| && t[i] == '.' && IsDigits(t, i + 1, j))
  }

  predicate IsExp(t: string, i: nat, j: nat) {
    || i == j
    || (i + 1 < |t| && (t[i] == 'e' || t[i] == 'E')
        && (IsDigits(t, i + 1, j) || ((t[i + 1] == '+' || t[i + 1] == '-') && IsDigits(t, i + 2, j))))
  }

  // string = quotation-mark *char quotation-mark
  predicate IsString(t: string, i: nat, j: nat) {
    IsSpan(t, i, j) && i + 1 < j && t[i] == '"' && t[j - 1] == '"' && IsChars(t, i + 1, j - 1)
  }

  predicate IsChars(t: string, i: nat, j: nat)
    requires j <= |t|
    decreases j - i
  {
    || i == j
    || (i < j && UnescapedChar(t[i]) && IsChars(t, i + 1, j))
    || (i + 2 <= j && t[i] == '\\' && EscapeChar(t[i + 1]) && IsChars(t, i + 2, j))
    || (i + 6 <= j && t[i] == '\\' && t[i + 1] == 'u'
        && (forall k :: i + 2 <= k < i + 6 ==> HexChar(t[k])) && IsChars(t, i + 6, j))
  }

  // value = false / null / true / object / array / number / string
  ghost predicate IsValue(lax: bool, t: string, i: nat, j: nat)
    decreases j - i, 0
  {
    IsName(lax, t, i, j) || IsNumber(t, i, j) || IsString(t, i, j) || IsArray(lax, t, i, j) || IsObject(lax, t, i, j)
  }

  // array = begin-array [ value *( value-separator value ) ] end-array
  ghost predicate IsArray(lax: bool, t: string, i: nat, j: nat)
    decreases j - i, -1
  {
    && IsSpan(t, i, j) && i + 1 < j && t[i] == '[' && t[j - 1] == ']'
    && (Ws(t, i + 1, j - 1) || IsItems(lax, t, i + 1, j - 1))
  }

  ghost predicate IsItems(lax: bool, t: string, i: nat, j: nat)
    decreases j - i, 4
  {
    IsItem(lax, t, i, j) || exists k: nat :: ItemThenItems(lax, t, i, k, j)
  }

  ghost predicate ItemThenItems(lax: bool, t: string, i: nat, k: nat, j: nat)
    decreases j - i, 3
  {
    i <= k < j && IsItem(lax, t, i, k) && CharAt(t, k, ',') && IsItems(lax, t, k + 1, j)
  }

  // ws value ws
  ghost predicate IsItem(lax: bool, t: string, i: nat, j: nat)
    decreases j - i, 2
  {
    exists a: nat, b: nat :: ValueBetween(lax, t, i, a, b, j)
  }

  ghost predicate ValueBetween(lax: bool, t: string, i: nat, a: nat, b: nat, j: nat)
    decreases j - i, 1
  {
    i <= a <= b <= j && Ws(t, i, a) && IsValue(lax, t, a, b) && Ws(t, b, j)
  }

  predicate CharAt(t: string, k: nat, c: char) { k < |t| && t[k] == c }

  // object = begin-object [ member *( value-separator member ) ] end-object
  ghost predicate IsObject(lax: bool, t: string, i: nat, j: nat)
    decreases j - i, -1
  {
    && IsSpan(t, i, j) && i + 1 < j && t[i] == '{' && t[j - 1] == '}'
    && (Ws(t, i + 1, j - 1) || IsMembers(lax, t, i + 1, j - 1))
  }

  ghost predicate IsMembers(lax: bool, t: string, i: nat, j: nat)
    decreases j - i, 4
  {
    IsMember(lax, t, i, j) || exists k: nat :: MemberThenMembers(lax, t, i, k, j)
  }

  ghost predicate MemberThenMembers(lax: bool, t: string, i: nat, k: nat, j: nat)
    decreases j - i, 3
  {
    i <= k < j && IsMember(lax, t, i, k) && CharAt(t, k, ',') && IsMembers(lax, t, k + 1, j)
  }

  // member = ws string ws ":" ws value ws
  ghost predicate IsMember(lax: bool, t: string, i: nat, j: nat)
    decreases j - i, 2
  {
    exists a: nat, b: nat, c: nat :: NameThenItem(lax, t, i, a, b, c, j)
  }

  ghost predicate NameThenItem(lax: bool, t: string, i: nat, a: nat, b: nat, c: nat, j: nat)
    decreases j - i, 1
  {
    && i <= a <= b <= c < j && Ws(t, i, a) && IsString(t, a, b) && Ws(t, b, c) && CharAt(t, c, ':')
    && IsItem(lax, t, c + 1, j)
  }

  /** JSON-text = ws value ws */
  ghost predicate IsText(lax: bool, t: string) {
    exists i: nat, j: nat :: Ws(t, 0, i) && IsValue(lax, t, i, j) && Ws(t, j, |t|)
  }

  /** A JSON-text whose value is an object: `ws object ws`. */
  ghost predicate IsObjectText(lax: bool, t: string) {
    exists i: nat, j: nat :: Ws(t, 0, i) && IsObject(lax, t, i, j) && Ws(t, j, |t|)
  }

  // ----- the acceptor follows every derivation -----

  lemma {:induction false} PastWs(t: string, i: nat, j: nat)
    requires Ws(t, i, j) && (j < |t| ==> !IsWs(t[j]))
    ensures SkipWs(t, i) == j
    decreases j - i
  {
    if i < j { PastWs(t, i + 1, j); }
  }

  lemma {:induction false} PastDigits(t: string, i: nat, j: nat)
    requires IsSpan(t, i, j) && (forall k :: i <= k < j ==> IsDigit(t[k]))
    requires j < |t| ==> !IsDigit(t[j])
    ensures Digits(t, i) == j
    decreases j - i
  {
    if i < j { PastDigits(t, i + 1, j); }
  }

  lemma {:induction false} PastChars(t: string, i: nat, j: nat)
    requires i <= j < |t| && t[j] == '"' && IsChars(t, i, j)
    ensures ScanString(t, i) == Some(j + 1)
    decreases j - i
  {
    if i < j {
      if t[i] != '\\' {
        PastChars(t, i + 1, j);
      } else if IsEscape(t[i + 1]) {
        PastChars(t, i + 2, j);
      } else {
        PastChars(t, i + 6, j);
      }
    }
  }

  /** The character after a number must not continue it. */
  predicate Ends(t: string, j: nat) { j == |t| || Delimits(t, j) }

  lemma PastNumber(t: string, i: nat, j: nat)
    requires IsNumber(t, i, j) && Ends(t, j)
    ensures i < |t| && (t[i] == '-' || IsDigit(t[i])) && ScanAtom(t, i) == Some(j)
  {
    var a: nat, b: nat, c: nat :|
      IsMinus(t, i, a) && IsInt(t, a, b) && IsFrac(t, b, c) && IsExp(t, c, j);
    PastExponent(t, c, j);
    PastFraction(t, b, c);
    PastInt(t, a, b);
    NumberParts(t, i, a, b, c, j);
    NumbersAreNoWords(t, i);
  }

  lemma NumberParts(t: string, i: nat, a: nat, b: nat, c: nat, j: nat)
    requires i < |t| && a == (if t[i] == '-' then i + 1 else i) && a < |t| && IsDigit(t[a])
    requires b == (if t[a] == '0' then a + 1 else Digits(t, a)) && c == Fraction(t, b) && j == Exponent(t, c)
    ensures ScanNumber(t, i) == Some(j)
  {
  }

  lemma PastInt(t: string, i: nat, j: nat)
    requires IsInt(t, i, j) && (j < |t| ==> !IsDigit(t[j]))
    ensures j == if t[i] == '0' then i + 1 else Digits(t, i)
  {
    PastDigits(t, i, j);
  }

  lemma PastExponent(t: string, i: nat, j: nat)
    requires i <= |t| && IsExp(t, i, j) && Ends(t, j)
    ensures Exponent(t, i) == j
  {
    if i != j {
      PastDigits(t, if t[i + 1] == '+' || t[i + 1] == '-' then i + 2 else i + 1, j);
    }
  }

  lemma PastFraction(t: string, i: nat, j: nat)
    requires i <= |t| && IsFrac(t, i, j) && (j < |t| ==> !IsDigit(t[j]) && t[j] != '.')
    ensures Fraction(t, i) == j
  {
    if i != j { PastDigits(t, i + 1, j); }
  }

  lemma {:induction false} PastValue(lax: bool, t: string, i: nat, j: nat)
    requires IsValue(lax, t, i, j) && Ends(t, j)
    ensures i < j <= |t| && !IsWs(t[i]) && t[i] != ']' && ScanValue(t, i) == Some(j)
    decreases j - i, 0
  {
    if IsName(lax, t, i, j) {
      PastName(lax, t, i, j);
    } else if IsNumber(t, i, j) {
      PastNumber(t, i, j);
      AtomIsValue(t, i, j);
    } else if IsString(t, i, j) {
      PastString(t, i, j);
    } else if IsArray(lax, t, i, j) {
      PastArray(lax, t, i, j);
    } else {
      PastObject(lax, t, i, j);
    }
  }

  lemma {:induction false} PastArray(lax: bool, t: string, i: nat, j: nat)
    requires IsArray(lax, t, i, j)
    ensures ScanValue(t, i) == Some(j)
    decreases j - i, -1
  {
    if Ws(t, i + 1, j - 1) {
      PastWs(t, i + 1, j - 1);
    } else {
      PastItems(lax, t, i + 1, j - 1);
    }
  }

  lemma PastString(t: string, i: nat, j: nat)
    requires IsString(t, i, j)
    ensures ScanValue(t, i) == Some(j)
  {
    PastChars(t, i + 1, j - 1);
  }

  lemma AtomIsValue(t: string, i: nat, j: nat)
    requires i < |t| && ScanAtom(t, i) == Some(j) && !SelfClosing(t, i)
    ensures ScanValue(t, i) == Some(j)
  {
  }

  lemma PastName(lax: bool, t: string, i: nat, j: nat)
    requires IsName(lax, t, i, j)
    ensures i < j <= |t| && !IsWs(t[i]) && t[i] != ']' && ScanValue(t, i) == Some(j)
  {
    if j == i + 5 {
      PastWord(t, i, "false");
    } else if j == i + 4 {
      PastWord(t, i, if WordAt(t, i, "null") then "null" else "true");
    } else if j == i + 3 {
      PastWord(t, i, "NaN");
    } else if j == i + 8 {
      PastWord(t, i, "Infinity");
    } else {
      PastWord(t, i, "-Infinity");
    }
    AtomIsValue(t, i, j);
  }

  lemma PastWord(t: string, i: nat, word: string)
    requires WordAt(t, i, word) && word != "" && WordFor(word[0]) == word
    ensures i < |t| && t[i] == word[0] && ScanAtom(t, i) == Some(i + |word|)
  {
    assert t[i + 0] == word[0];
  }

  lemma {:induction false} PastObject(lax: bool, t: string, i: nat, j: nat)
    requires IsObject(lax, t, i, j)
    ensures ScanValue(t, i) == Some(j)
    decreases j - i, -1
  {
    if Ws(t, i + 1, j - 1) {
      PastWs(t, i + 1, j - 1);
    } else {
      PastMembers(lax, t, i + 1, j - 1);
    }
  }

  /** `ws value ws` with a separator or closer behind it. */
  lemma {:induction false} PastItem(lax: bool, t: string, i: nat, j: nat)
    requires i <= j < |t| && IsItem(lax, t, i, j) && (t[j] == ',' || t[j] == ']' || t[j] == '}')
    ensures i <= SkipWs(t, i) < j && t[SkipWs(t, i)] != ']'
    ensures var value := ScanValue(t, SkipWs(t, i)); value.Some? && SkipWs(t, value.value) == j
    decreases j - i, 1
  {
    var a: nat, b: nat :| ValueBetween(lax, t, i, a, b, j);
    PastValue(lax, t, a, b);
    PastWs(t, i, a);
    PastWs(t, b, j);
  }

  /** What stands behind a value, at `k`, decides how the list goes on. */
  lemma SeparatorAt(t: string, i: nat, k: nat, close: char)
    requires i <= |t| && SkipWs(t, i) == k < |t| && (t[k] == close || t[k] == ',') && close != ','
    ensures AfterValue(t, i, close) == if t[k] == close then Closed(k + 1) else More(SkipWs(t, k + 1))
  {
  }

  /** One more item: `ScanItems` from `i` goes as the separator at `k` says. */
  lemma StepItems(t: string, i: nat, k: nat)
    requires i <= k < |t| && SkipWs(t, i) < k && (t[k] == ']' || t[k] == ',')
    requires var value := ScanValue(t, SkipWs(t, i)); value.Some? && SkipWs(t, value.value) == k
    ensures ScanItems(t, SkipWs(t, i)) == if t[k] == ']' then Some(k + 1) else ScanItems(t, SkipWs(t, k + 1))
  {
    SeparatorAt(t, ScanValue(t, SkipWs(t, i)).value, k, ']');
  }

  /** The acceptor, from `i`, takes items up to the bracket at `j`. */
  predicate TakesItems(t: string, i: nat, j: nat)
    requires i <= |t|
  {
    i <= SkipWs(t, i) < j < |t| && t[SkipWs(t, i)] != ']' && ScanItems(t, SkipWs(t, i)) == Some(j + 1)
  }

  lemma {:induction false} OneItem(lax: bool, t: string, i: nat, k: nat, j: nat)
    requires i <= k <= j < |t| && IsItem(lax, t, i, k)
    requires (k == j && t[j] == ']') || (k < j && t[k] == ',' && TakesItems(t, k + 1, j))
    ensures TakesItems(t, i, j)
    decreases k - i, 2
  {
    PastItem(lax, t, i, k);
    StepItems(t, i, k);
  }

  lemma {:induction false} PastItems(lax: bool, t: string, i: nat, j: nat)
    requires i <= j < |t| && IsItems(lax, t, i, j) && t[j] == ']'
    ensures TakesItems(t, i, j)
    decreases j - i, 3
  {
    if IsItem(lax, t, i, j) {
      OneItem(lax, t, i, j, j);
    } else {
      var k: nat :| ItemThenItems(lax, t, i, k, j);
      PastItems(lax, t, k + 1, j);
      OneItem(lax, t, i, k, j);
    }
  }

  /** `ScanMember` reads key, colon and the item behind it. */
  lemma StepMember(t: string, i: nat, a: nat, b: nat, c: nat, j: nat)
    requires i <= a <= b <= c < j < |t|
    requires Ws(t, i, a) && IsString(t, a, b) && Ws(t, b, c) && t[c] == ':'
    requires var value := ScanValue(t, SkipWs(t, c + 1)); value.Some? && SkipWs(t, value.value) == j
    ensures SkipWs(t, i) == a && t[a] == '"'
    ensures var value := ScanMember(t, a); value.Some? && SkipWs(t, value.value) == j
  {
    PastWs(t, i, a);
    PastChars(t, a + 1, b - 1);
    PastWs(t, b, c);
    MemberParts(t, a, b, c);
  }

  lemma MemberParts(t: string, a: nat, b: nat, c: nat)
    requires a < |t| && t[a] == '"' && ScanString(t, a + 1) == Some(b) && SkipWs(t, b) == c < |t| && t[c] == ':'
    ensures ScanMember(t, a) == ScanValue(t, SkipWs(t, c + 1))
  {
  }

  lemma {:induction false} PastMember(lax: bool, t: string, i: nat, j: nat)
    requires i <= j < |t| && IsMember(lax, t, i, j) && (t[j] == ',' || t[j] == '}')
    ensures i <= SkipWs(t, i) < j && t[SkipWs(t, i)] == '"'
    ensures var value := ScanMember(t, SkipWs(t, i)); value.Some? && SkipWs(t, value.value) == j
    decreases j - i, 1
  {
    var a: nat, b: nat, c: nat :| NameThenItem(lax, t, i, a, b, c, j);
    PastItem(lax, t, c + 1, j);
    StepMember(t, i, a, b, c, j);
  }

  /** One more member: `ScanMembers` from `i` goes as the separator at `k` says. */
  lemma StepMembers(t: string, i: nat, k: nat)
    requires i <= k < |t| && SkipWs(t, i) < k && (t[k] == '}' || t[k] == ',')
    requires var value := ScanMember(t, SkipWs(t, i)); value.Some? && SkipWs(t, value.value) == k
    ensures ScanMembers(t, SkipWs(t, i)) == if t[k] == '}' then Some(k + 1) else ScanMembers(t, SkipWs(t, k + 1))
  {
    SeparatorAt(t, ScanMember(t, SkipWs(t, i)).value, k, '}');
  }

  lemma {:induction false} PastMembers(lax: bool, t: string, i: nat, j: nat)
    requires i <= j < |t| && IsMembers(lax, t, i, j) && t[j] == '}'
    ensures i <= SkipWs(t, i) < j && t[SkipWs(t, i)] != '}'
    ensures ScanMembers(t, SkipWs(t, i)) == Some(j + 1)
    decreases j - i, 2
  {
    if IsMember(lax, t, i, j) {
      PastMember(lax, t, i, j);
      StepMembers(t, i, j);
    } else {
      var k: nat :| MemberThenMembers(lax, t, i, k, j);
      assert IsMembers(lax, t, k + 1, j);
      PastMember(lax, t, i, k);
      StepMembers(t, i, k);
      PastMembers(lax, t, k + 1, j);
    }
  }

  /** `json.loads` answers a dict for every object text of RFC 8259. */
  lemma ObjectTextsLoad(lax: bool, t: string)
    requires IsObjectText(lax, t)
    ensures LoadsObject(t)
  {
    var i: nat, j: nat :| Ws(t, 0, i) && IsObject(lax, t, i, j) && Ws(t, j, |t|);
    PastWs(t, 0, i);
    PastObject(lax, t, i, j);
    PastWs(t, j, |t|);
  }

  // ----- and takes nothing else -----

  lemma {:induction false} SkippedIsWs(t: string, i: nat)
    requires i <= |t|
    ensures Ws(t, i, SkipWs(t, i))
    decreases |t| - i
  {
    if i < |t| && IsWs(t[i]) { SkippedIsWs(t, i + 1); }
  }

  lemma {:induction false} ScannedDigits(t: string, i: nat)
    requires i < |t| && IsDigit(t[i])
    ensures IsDigits(t, i, Digits(t, i))
    decreases |t| - i
  {
    if i + 1 < |t| && IsDigit(t[i + 1]) { ScannedDigits(t, i + 1); }
  }

  lemma {:induction false} ScannedChars(t: string, i: nat, j: nat)
    requires i <= |t| && ScanString(t, i) == Some(j)
    ensures i < j <= |t| && t[j - 1] == '"' && IsChars(t, i, j - 1)
    decreases |t| - i
  {
    if t[i] == '"' {
    } else if t[i] != '\\' {
      ScannedChars(t, i + 1, j);
    } else if IsEscape(t[i + 1]) {
      ScannedChars(t, i + 2, j);
    } else {
      ScannedChars(t, i + 6, j);
    }
  }

  lemma ScannedFraction(t: string, i: nat)
    requires i <= |t|
    ensures IsFrac(t, i, Fraction(t, i))
  {
    if Fraction(t, i) != i { ScannedDigits(t, i + 1); }
  }

  lemma ScannedExponent(t: string, i: nat)
    requires i <= |t|
    ensures IsExp(t, i, Exponent(t, i))
  {
    if Exponent(t, i) != i {
      ScannedDigits(t, if t[i + 1] == '+' || t[i + 1] == '-' then i + 2 else i + 1);
    }
  }

  lemma ScannedInt(t: string, i: nat)
    requires i < |t| && IsDigit(t[i])
    ensures IsInt(t, i, if t[i] == '0' then i + 1 else Digits(t, i))
  {
    ScannedDigits(t, i);
  }

  lemma ScannedNumber(t: string, i: nat, j: nat)
    requires i < |t| && ScanNumber(t, i) == Some(j)
    ensures IsNumber(t, i, j)
  {
    var a := if t[i] == '-' then i + 1 else i;
    var b := if t[a] == '0' then a + 1 else Digits(t, a);
    var c := Fraction(t, b);
    ScannedInt(t, a);
    ScannedFraction(t, b);
    ScannedExponent(t, c);
    assert IsMinus(t, i, a) && IsInt(t, a, b) && IsFrac(t, b, c) && IsExp(t, c, j);
  }

  lemma ScannedAtom(t: string, i: nat, j: nat)
    requires i < |t| && ScanAtom(t, i) == Some(j)
    ensures IsName(true, t, i, j) || IsNumber(t, i, j)
  {
    if ScanWord(t, i).None? { ScannedNumber(t, i, j); }
  }

  lemma {:induction false} ScannedValue(t: string, i: nat, j: nat)
    requires i <= |t| && ScanValue(t, i) == Some(j)
    ensures i < j <= |t| && IsValue(true, t, i, j)
    ensures i < |t| && t[i] == '{' ==> IsObject(true, t, i, j)
    decreases |t| - i, 0
  {
    if t[i] == '"' {
      ScannedChars(t, i + 1, j);
    } else if t[i] == '{' {
      ScannedObject(t, i, j);
    } else if t[i] == '[' {
      ScannedArray(t, i, j);
    } else {
      ScannedAtom(t, i, j);
    }
  }

  lemma {:induction false} ScannedArray(t: string, i: nat, j: nat)
    requires i < |t| && t[i] == '[' && ScanValue(t, i) == Some(j)
    ensures IsArray(true, t, i, j)
    decreases |t| - i, -1
  {
    var k := SkipWs(t, i + 1);
    SkippedIsWs(t, i + 1);
    if !(k < |t| && t[k] == ']') {
      ScannedItems(t, k, j);
      ItemsBehindWs(t, i + 1, k, j - 1);
    }
  }

  lemma {:induction false} ScannedObject(t: string, i: nat, j: nat)
    requires i < |t| && t[i] == '{' && ScanValue(t, i) == Some(j)
    ensures IsObject(true, t, i, j)
    decreases |t| - i, -1
  {
    var k := SkipWs(t, i + 1);
    SkippedIsWs(t, i + 1);
    if !(k < |t| && t[k] == '}') {
      ScannedMembers(t, k, j);
      MembersBehindWs(t, i + 1, k, j - 1);
    }
  }

  lemma WsTogether(t: string, a: nat, i: nat, b: nat)
    requires Ws(t, a, i) && Ws(t, i, b)
    ensures Ws(t, a, b)
  {
  }

  lemma ItemBehindWs(t: string, a: nat, i: nat, j: nat)
    requires Ws(t, a, i) && IsItem(true, t, i, j)
    ensures IsItem(true, t, a, j)
  {
    var b: nat, c: nat :| ValueBetween(true, t, i, b, c, j);
    WsTogether(t, a, i, b);
    assert ValueBetween(true, t, a, b, c, j);
  }

  lemma ItemsBehindWs(t: string, a: nat, i: nat, j: nat)
    requires Ws(t, a, i) && IsItems(true, t, i, j)
    ensures IsItems(true, t, a, j)
  {
    if IsItem(true, t, i, j) {
      ItemBehindWs(t, a, i, j);
    } else {
      var k: nat :| ItemThenItems(true, t, i, k, j);
      ItemBehindWs(t, a, i, k);
      assert ItemThenItems(true, t, a, k, j);
    }
  }

  lemma MemberBehindWs(t: string, a: nat, i: nat, j: nat)
    requires Ws(t, a, i) && IsMember(true, t, i, j)
    ensures IsMember(true, t, a, j)
  {
    var b: nat, c: nat, d: nat :| NameThenItem(true, t, i, b, c, d, j);
    WsTogether(t, a, i, b);
    assert NameThenItem(true, t, a, b, c, d, j);
  }

  lemma MembersBehindWs(t: string, a: nat, i: nat, j: nat)
    requires Ws(t, a, i) && IsMembers(true, t, i, j)
    ensures IsMembers(true, t, a, j)
  {
    if IsMember(true, t, i, j) {
      MemberBehindWs(t, a, i, j);
    } else {
      var k: nat :| MemberThenMembers(true, t, i, k, j);
      MemberBehindWs(t, a, i, k);
      assert MemberThenMembers(true, t, a, k, j);
    }
  }

  /** A value and the white space behind it are an item. */
  lemma {:induction false} ScannedItem(t: string, i: nat, j: nat)
    requires i <= |t| && ScanValue(t, i) == Some(j)
    ensures IsItem(true, t, i, SkipWs(t, j))
    decreases |t| - i, 1
  {
    ScannedValue(t, i, j);
    SkippedIsWs(t, j);
    assert ValueBetween(true, t, i, i, j, SkipWs(t, j));
  }

  lemma ItemsGoOn(t: string, i: nat, k: nat, next: nat, j: nat)
    requires IsItem(true, t, i, k) && i <= k < |t| && t[k] == ',' && k < next <= j && next == SkipWs(t, k + 1)
    requires IsItems(true, t, next, j)
    ensures IsItems(true, t, i, j)
  {
    SkippedIsWs(t, k + 1);
    ItemsBehindWs(t, k + 1, next, j);
    assert ItemThenItems(true, t, i, k, j);
  }

  lemma ItemsEnd(t: string, i: nat, k: nat)
    requires IsItem(true, t, i, k)
    ensures IsItems(true, t, i, k)
  {
  }

  lemma MembersGoOn(t: string, i: nat, k: nat, next: nat, j: nat)
    requires IsMember(true, t, i, k) && i <= k < |t| && t[k] == ',' && k < next <= j && next == SkipWs(t, k + 1)
    requires IsMembers(true, t, next, j)
    ensures IsMembers(true, t, i, j)
  {
    SkippedIsWs(t, k + 1);
    MembersBehindWs(t, k + 1, next, j);
    assert MemberThenMembers(true, t, i, k, j);
  }

  lemma MembersEnd(t: string, i: nat, k: nat)
    requires IsMember(true, t, i, k)
    ensures IsMembers(true, t, i, k)
  {
  }

  lemma SeparatorIs(t: string, i: nat, close: char) returns (k: nat)
    requires i <= |t| && !AfterValue(t, i, close).Broken?
    ensures i <= k < |t| && k == SkipWs(t, i)
    ensures || (t[k] == close && AfterValue(t, i, close) == Closed(k + 1))
            || (t[k] == ',' && AfterValue(t, i, close) == More(SkipWs(t, k + 1)))
  {
    k := SkipWs(t, i);
  }

  lemma ItemsScanned(t: string, i: nat, j: nat) returns (value: nat, k: nat, next: nat)
    requires i <= |t| && ScanItems(t, i) == Some(j)
    ensures ScanValue(t, i) == Some(value) && i < value <= k < |t| && k == SkipWs(t, value)
    ensures k < next <= |t| && next == SkipWs(t, k + 1)
    ensures (t[k] == ']' && j == k + 1) || (t[k] == ',' && ScanItems(t, next) == Some(j))
  {
    value := ScanValue(t, i).value;
    k := SeparatorIs(t, value, ']');
    next := SkipWs(t, k + 1);
  }

  /** Items and what closes them. */
  ghost predicate ItemsClosed(t: string, i: nat, j: nat) {
    i < j <= |t| && t[j - 1] == ']' && IsItems(true, t, i, j - 1)
  }

  lemma ItemsFrom(t: string, i: nat, k: nat, next: nat, j: nat)
    requires i <= k < |t| && IsItem(true, t, i, k)
    requires || (t[k] == ']' && j == k + 1)
             || (t[k] == ',' && next == SkipWs(t, k + 1) && k < next && ItemsClosed(t, next, j))
    ensures ItemsClosed(t, i, j)
  {
    if t[k] == ',' {
      ItemsGoOn(t, i, k, next, j - 1);
    } else {
      ItemsEnd(t, i, k);
    }
  }

  lemma {:induction false} ScannedItems(t: string, i: nat, j: nat)
    requires i <= |t| && ScanItems(t, i) == Some(j)
    ensures ItemsClosed(t, i, j)
    decreases |t| - i, 2
  {
    var value, k, next := ItemsScanned(t, i, j);
    ScannedItem(t, i, value);
    if t[k] == ',' { ScannedItems(t, next, j); }
    ItemsFrom(t, i, k, next, j);
  }

  lemma MemberScanned(t: string, i: nat, j: nat) returns (key: nat, colon: nat)
    requires i <= |t| && ScanMember(t, i) == Some(j)
    ensures i < |t| && t[i] == '"' && ScanString(t, i + 1) == Some(key)
    ensures i < key <= colon < |t| && colon == SkipWs(t, key) && t[colon] == ':'
    ensures ScanValue(t, SkipWs(t, colon + 1)) == Some(j)
  {
    key := ScanString(t, i + 1).value;
    colon := SkipWs(t, key);
  }

  lemma {:induction false} ScannedMember(t: string, i: nat, j: nat)
    requires i <= |t| && ScanMember(t, i) == Some(j)
    ensures i < j && IsMember(true, t, i, SkipWs(t, j))
    decreases |t| - i, 1
  {
    var key, colon := MemberScanned(t, i, j);
    ScannedItem(t, SkipWs(t, colon + 1), j);
    MemberIs(t, i, key, colon, SkipWs(t, j));
  }

  lemma MemberIs(t: string, i: nat, key: nat, colon: nat, j: nat)
    requires i < |t| && t[i] == '"' && ScanString(t, i + 1) == Some(key)
    requires colon == SkipWs(t, key) < |t| && t[colon] == ':' && SkipWs(t, colon + 1) <= j
    requires IsItem(true, t, SkipWs(t, colon + 1), j)
    ensures IsMember(true, t, i, j)
  {
    ScannedChars(t, i + 1, key);
    SkippedIsWs(t, key);
    SkippedIsWs(t, colon + 1);
    ItemBehindWs(t, colon + 1, SkipWs(t, colon + 1), j);
    assert NameThenItem(true, t, i, i, key, colon, j);
  }

  lemma MembersScanned(t: string, i: nat, j: nat) returns (value: nat, k: nat, next: nat)
    requires i <= |t| && ScanMembers(t, i) == Some(j)
    ensures ScanMember(t, i) == Some(value) && i < value <= k < |t| && k == SkipWs(t, value)
    ensures k < next <= |t| && next == SkipWs(t, k + 1)
    ensures (t[k] == '}' && j == k + 1) || (t[k] == ',' && ScanMembers(t, next) == Some(j))
  {
    value := ScanMember(t, i).value;
    k := SeparatorIs(t, value, '}');
    next := SkipWs(t, k + 1);
  }

  /** Members and what closes them. */
  ghost predicate MembersClosed(t: string, i: nat, j: nat) {
    i < j <= |t| && t[j - 1] == '}' && IsMembers(true, t, i, j - 1)
  }

  lemma MembersFrom(t: string, i: nat, k: nat, next: nat, j: nat)
    requires i <= k < |t| && IsMember(true, t, i, k)
    requires || (t[k] == '}' && j == k + 1)
             || (t[k] == ',' && next == SkipWs(t, k + 1) && k < next && MembersClosed(t, next, j))
    ensures MembersClosed(t, i, j)
  {
    if t[k] == ',' {
      MembersGoOn(t, i, k, next, j - 1);
    } else {
      MembersEnd(t, i, k);
    }
  }

  lemma {:induction false} ScannedMembers(t: string, i: nat, j: nat)
    requires i <= |t| && ScanMembers(t, i) == Some(j)
    ensures MembersClosed(t, i, j)
    decreases |t| - i, 2
  {
    var value, k, next := MembersScanned(t, i, j);
    ScannedMember(t, i, value);
    if t[k] == ',' { ScannedMembers(t, next, j); }
    MembersFrom(t, i, k, next, j);
  }

  /** `json.loads` succeeds on exactly the texts of the grammar with Python's three constants. */
  lemma LoadsIff(t: string)
    ensures Loads(t) <==> IsText(true, t)
  {
    if Loads(t) {
      var i := SkipWs(t, 0);
      var j := ScanValue(t, i).value;
      SkippedIsWs(t, 0);
      ScannedValue(t, i, j);
      SkippedIsWs(t, j);
    }
    if IsText(true, t) {
      var i: nat, j: nat :| Ws(t, 0, i) && IsValue(true, t, i, j) && Ws(t, j, |t|);
      TextLoads(t, i, j);
    }
  }

  lemma TextLoads(t: string, i: nat, j: nat)
    requires Ws(t, 0, i) && IsValue(true, t, i, j) && Ws(t, j, |t|)
    ensures Loads(t)
  {
    assert Ends(t, j) by {
      if j < |t| { assert WsChar(t[j]); }
    }
    PastValue(true, t, i, j);
    PastWs(t, 0, i);
    PastWs(t, j, |t|);
  }

  /** And answers a dict for exactly those whose value is an object. */
  lemma LoadsObjectIff(t: string)
    ensures LoadsObject(t) <==> IsObjectText(true, t)
  {
    if LoadsObject(t) {
      var i := SkipWs(t, 0);
      var j := ScanValue(t, i).value;
      SkippedIsWs(t, 0);
      ScannedValue(t, i, j);
      SkippedIsWs(t, j);
    }
    if IsObjectText(true, t) { ObjectTextsLoad(true, t); }
  }

  // ----- a span derives by itself -----

  /** `u` is the piece of `t` that starts at `d`. */
  predicate Piece(t: string, d: nat, u: string) {
    d + |u| <= |t| && forall k :: 0 <= k < |u| ==> u[k] == t[d + k]
  }

  lemma PieceWs(t: string, d: nat, u: string, i: nat, j: nat)
    requires Piece(t, d, u) && j <= |u| && Ws(t, d + i, d + j)
    ensures Ws(u, i, j)
  {
    forall k | i <= k < j ensures WsChar(u[k]) { assert WsChar(t[d + k]); }
  }

  lemma PieceDigits(t: string, d: nat, u: string, i: nat, j: nat)
    requires Piece(t, d, u) && j <= |u| && IsDigits(t, d + i, d + j)
    ensures IsDigits(u, i, j)
  {
    forall k | i <= k < j ensures DigitChar(u[k]) { assert DigitChar(t[d + k]); }
  }

  lemma PieceWord(t: string, d: nat, u: string, i: nat, word: string)
    requires Piece(t, d, u) && i + |word| <= |u| && WordAt(t, d + i, word)
    ensures WordAt(u, i, word)
  {
    forall k | 0 <= k < |word| ensures u[i + k] == word[k] { assert t[d + i + k] == word[k]; }
  }

  lemma PieceName(lax: bool, t: string, d: nat, u: string, i: nat, j: nat)
    requires Piece(t, d, u) && j <= |u| && IsName(lax, t, d + i, d + j)
    ensures IsName(lax, u, i, j)
  {
    if j == i + 5 { PieceWord(t, d, u, i, "false"); }
    else if j == i + 4 { PieceWord(t, d, u, i, if WordAt(t, d + i, "null") then "null" else "true"); }
    else if j == i + 3 { PieceWord(t, d, u, i, "NaN"); }
    else if j == i + 8 { PieceWord(t, d, u, i, "Infinity"); }
    else { PieceWord(t, d, u, i, "-Infinity"); }
  }

  lemma PieceFraction(t: string, d: nat, u: string, i: nat, j: nat)
    requires Piece(t, d, u) && j <= |u| && IsFrac(t, d + i, d + j)
    ensures IsFrac(u, i, j)
  {
    if i != j { PieceDigits(t, d, u, i + 1, j); }
  }

  lemma PieceExponent(t: string, d: nat, u: string, i: nat, j: nat)
    requires Piece(t, d, u) && j <= |u| && IsExp(t, d + i, d + j)
    ensures IsExp(u, i, j)
  {
    if i != j {
      if IsDigits(t, d + i + 1, d + j) { PieceDigits(t, d, u, i + 1, j); } else { PieceDigits(t, d, u, i + 2, j); }
    }
  }

  lemma PieceNumber(t: string, d: nat, u: string, i: nat, j: nat)
    requires Piece(t, d, u) && j <= |u| && IsNumber(t, d + i, d + j)
    ensures IsNumber(u, i, j)
  {
    var a: nat, b: nat, c: nat :|
      IsMinus(t, d + i, a) && IsInt(t, a, b) && IsFrac(t, b, c) && IsExp(t, c, d + j);
    PieceDigits(t, d, u, a - d, b - d);
    PieceFraction(t, d, u, b - d, c - d);
    PieceExponent(t, d, u, c - d, j);
    assert IsMinus(u, i, a - d) && IsInt(u, a - d, b - d);
  }

  lemma {:induction false} PieceChars(t: string, d: nat, u: string, i: nat, j: nat)
    requires Piece(t, d, u) && j <= |u| && IsChars(t, d + i, d + j)
    ensures IsChars(u, i, j)
    decreases j - i
  {
    if i < j {
      if t[d + i] != '\\' {
        PieceChars(t, d, u, i + 1, j);
      } else if IsEscape(t[d + i + 1]) {
        PieceChars(t, d, u, i + 2, j);
      } else {
        forall k | i + 2 <= k < i + 6 ensures HexChar(u[k]) { assert HexChar(t[d + k]); }
        PieceChars(t, d, u, i + 6, j);
      }
    }
  }

  lemma PieceString(t: string, d: nat, u: string, i: nat, j: nat)
    requires Piece(t, d, u) && j <= |u| && IsString(t, d + i, d + j)
    ensures IsString(u, i, j)
  {
    PieceChars(t, d, u, i + 1, j - 1);
  }

  lemma {:induction false} PieceValue(lax: bool, t: string, d: nat, u: string, i: nat, j: nat)
    requires Piece(t, d, u) && i <= j <= |u| && IsValue(lax, t, d + i, d + j)
    ensures IsValue(lax, u, i, j)
    decreases j - i, 0
  {
    if IsName(lax, t, d + i, d + j) { PieceName(lax, t, d, u, i, j); }
    else if IsNumber(t, d + i, d + j) { PieceNumber(t, d, u, i, j); }
    else if IsString(t, d + i, d + j) { PieceString(t, d, u, i, j); }
    else if IsArray(lax, t, d + i, d + j) { PieceArray(lax, t, d, u, i, j); }
    else { PieceObject(lax, t, d, u, i, j); }
  }

  lemma {:induction false} PieceArray(lax: bool, t: string, d: nat, u: string, i: nat, j: nat)
    requires Piece(t, d, u) && j <= |u| && IsArray(lax, t, d + i, d + j)
    ensures IsArray(lax, u, i, j)
    decreases j - i, -1
  {
    if Ws(t, d + i + 1, d + j - 1) { PieceWs(t, d, u, i + 1, j - 1); } else { PieceItems(lax, t, d, u, i + 1, j - 1); }
  }

  lemma {:induction false} PieceItems(lax: bool, t: string, d: nat, u: string, i: nat, j: nat)
    requires Piece(t, d, u) && i <= j <= |u| && IsItems(lax, t, d + i, d + j)
    ensures IsItems(lax, u, i, j)
    decreases j - i, 2
  {
    if IsItem(lax, t, d + i, d + j) {
      PieceItem(lax, t, d, u, i, j);
    } else {
      var k: nat :| ItemThenItems(lax, t, d + i, k, d + j);
      PieceItem(lax, t, d, u, i, k - d);
      PieceItems(lax, t, d, u, k - d + 1, j);
      assert ItemThenItems(lax, u, i, k - d, j);
    }
  }

  lemma {:induction false} PieceItem(lax: bool, t: string, d: nat, u: string, i: nat, j: nat)
    requires Piece(t, d, u) && i <= j <= |u| && IsItem(lax, t, d + i, d + j)
    ensures IsItem(lax, u, i, j)
    decreases j - i, 1
  {
    var a: nat, b: nat :| ValueBetween(lax, t, d + i, a, b, d + j);
    PieceWs(t, d, u, i, a - d);
    PieceValue(lax, t, d, u, a - d, b - d);
    PieceWs(t, d, u, b - d, j);
    assert ValueBetween(lax, u, i, a - d, b - d, j);
  }

  lemma {:induction false} PieceObject(lax: bool, t: string, d: nat, u: string, i: nat, j: nat)
    requires Piece(t, d, u) && j <= |u| && IsObject(lax, t, d + i, d + j)
    ensures IsObject(lax, u, i, j)
    decreases j - i, -1
  {
    if Ws(t, d + i + 1, d + j - 1) {
      PieceWs(t, d, u, i + 1, j - 1);
    } else {
      PieceMembers(lax, t, d, u, i + 1, j - 1);
    }
  }

  lemma {:induction false} PieceMembers(lax: bool, t: string, d: nat, u: string, i: nat, j: nat)
    requires Piece(t, d, u) && i <= j <= |u| && IsMembers(lax, t, d + i, d + j)
    ensures IsMembers(lax, u, i, j)
    decreases j - i, 2
  {
    if IsMember(lax, t, d + i, d + j) {
      PieceMember(lax, t, d, u, i, j);
    } else {
      var k: nat :| MemberThenMembers(lax, t, d + i, k, d + j);
      PieceMember(lax, t, d, u, i, k - d);
      PieceMembers(lax, t, d, u, k - d + 1, j);
      assert MemberThenMembers(lax, u, i, k - d, j);
    }
  }

  lemma {:induction false} PieceMember(lax: bool, t: string, d: nat, u: string, i: nat, j: nat)
    requires Piece(t, d, u) && i <= j <= |u| && IsMember(lax, t, d + i, d + j)
    ensures IsMember(lax, u, i, j)
    decreases j - i, 1
  {
    var a: nat, b: nat, c: nat :| NameThenItem(lax, t, d + i, a, b, c, d + j);
    PieceWs(t, d, u, i, a - d);
    PieceString(t, d, u, a - d, b - d);
    PieceWs(t, d, u, b - d, c - d);
    PieceItem(lax, t, d, u, c - d + 1, j);
    assert NameThenItem(lax, u, i, a - d, b - d, c - d, j);
  }

  /** Stripping an object text leaves an object text: the object itself. */
  lemma StrippedIsObjectText(lax: bool, t: string)
    requires IsObjectText(lax, t)
    ensures IsObjectText(lax, Text.Strip(t))
  {
    var i: nat, j: nat :| Ws(t, 0, i) && IsObject(lax, t, i, j) && Ws(t, j, |t|);
    Text.StripIs(t, i, j);
    var u := t[i..j];
    PieceObject(lax, t, i, u, 0, j - i);
    assert Ws(u, 0, 0) && Ws(u, j - i, |u|);
  }
}
