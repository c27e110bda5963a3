/** The grid-shape descriptor typed into the app element's shape field.

    Two regular expressions of the source are written out here as scanners
    over the characters of the descriptor:

    - the validation pattern `[(][\d]+(?:,\s*?[\d]+)+[)]`, searched for
      anywhere in the text (it has no anchors);
    - the extraction pattern `(?<=\(|,|\s)[\d]+(?=\(|,|\s|\))` with the
      global flag, whose matches are turned into numbers by `parseInt`.

    Each scanner is proved equal to a declarative reading of its pattern:
    `ContainsShape` to `MatchesShapePattern`, and `NumberTokens` to the
    positions described by `IsNumberToken`, listed left to right.
    Positions are indices into the whole descriptor `s`; `s[i..j]` is the
    text a pattern word occupies. */
module ShapeDescriptor {

  // ------------------------------------------------------------ characters

  /** `\d` of a JavaScript regular expression without the `u` flag. */
  predicate IsDigit(c: char) { '0' <= c <= '9' }

  /** `\s` of a JavaScript regular expression: its white-space and
      line-terminator characters. */
  predicate IsSpace(c: char) {
    c == '\t' || c == '\n' || c == '\U{000B}' || c == '\U{000C}' || c == '\r' || c == ' '
    || c == '\U{00A0}' || c == '\U{1680}' || ('\U{2000}' <= c <= '\U{200A}')
    || c == '\U{2028}' || c == '\U{2029}' || c == '\U{202F}' || c == '\U{205F}'
    || c == '\U{3000}' || c == '\U{FEFF}'
  }

  /** The two character classes the patterns repeat: `\d` and `\s`. */
  datatype CharClass = Digit | Space

  predicate InClass(c: char, cls: CharClass) {
    match cls
    case Digit => IsDigit(c)
    case Space => IsSpace(c)
  }

  /** Every character of `s[lo..hi]` is in `cls`. */
  ghost predicate AllIn(s: seq<char>, lo: int, hi: int, cls: CharClass)
    requires 0 <= lo <= hi <= |s|
  {
    forall k | lo <= k < hi :: InClass(s[k], cls)
  }

  /** End of the longest run of `cls` characters starting at `i`: a greedy
      `[\d]+` or `\s*?`, which never has to give characters back when what
      follows it in the pattern cannot be a character of `cls`. */
  function SpanEnd(s: seq<char>, i: nat, cls: CharClass): (e: nat)
    requires i <= |s|
    ensures i <= e <= |s| && AllIn(s, i, e, cls)
    ensures e < |s| ==> !InClass(s[e], cls)
    decreases |s| - i
  {
    if i < |s| && InClass(s[i], cls) then SpanEnd(s, i + 1, cls) else i
  }

  /** The run end `SpanEnd` returns is the only one with its two properties. */
  lemma SpanEndIs(s: seq<char>, i: nat, cls: CharClass, e: nat)
    requires i <= e <= |s| && AllIn(s, i, e, cls)
    requires e < |s| ==> !InClass(s[e], cls)
    ensures SpanEnd(s, i, cls) == e
  {
  }

  // ------------------------------------------------- the validation pattern

  /** `s[lo..hi]` is one or more groups, each a comma, optional white space
      and a run of digits: `(?:,\s*?[\d]+)+`. */
  ghost predicate Groups(s: seq<char>, lo: int, hi: int)
    requires 0 <= lo <= hi <= |s|
    decreases hi - lo
  {
    lo < hi && s[lo] == ',' &&
    exists a, b | lo < a < b <= hi ::
      AllIn(s, lo + 1, a, Space) && AllIn(s, a, b, Digit) && (b == hi || Groups(s, b, hi))
  }

  /** `s[lo..hi]` is a run of digits followed by groups: `[\d]+(?:,\s*?[\d]+)+`. */
  ghost predicate NumberList(s: seq<char>, lo: int, hi: int)
    requires 0 <= lo <= hi <= |s|
  {
    exists b | lo < b < hi :: AllIn(s, lo, b, Digit) && Groups(s, b, hi)
  }

  /** `s[i..j]` is, in full, a word of `[(][\d]+(?:,\s*?[\d]+)+[)]`. */
  ghost predicate ShapeAt(s: seq<char>, i: int, j: int)
    requires 0 <= i <= j <= |s|
  {
    i + 2 <= j && s[i] == '(' && s[j - 1] == ')' && NumberList(s, i + 1, j - 1)
  }

  /** The unanchored search of the validation pattern succeeds on `s`. */
  ghost predicate MatchesShapePattern(s: seq<char>) {
    exists i, j | 0 <= i <= j <= |s| :: ShapeAt(s, i, j)
  }

  /** Scans `(?:,\s*?[\d]+)+[)]` from position `i`. */
  function ScanGroups(s: seq<char>, i: nat): bool
    requires i <= |s|
    decreases |s| - i
  {
    if i == |s| || s[i] != ',' then false
    else
      var a := SpanEnd(s, i + 1, Space);
      var b := SpanEnd(s, a, Digit);
      if b == a || b == |s| then false
      else if s[b] == ')' then true
      else ScanGroups(s, b)
  }

  /** Tries the validation pattern at position `i`. */
  function ScanShape(s: seq<char>, i: nat): bool
    requires i <= |s|
  {
    i < |s| && s[i] == '(' &&
    var b := SpanEnd(s, i + 1, Digit);
    i + 1 < b < |s| && ScanGroups(s, b)
  }

  /** Tries the validation pattern at every position from `i` on. */
  function ContainsShapeFrom(s: seq<char>, i: nat): bool
    requires i <= |s|
    decreases |s| - i
  {
    i < |s| && (ScanShape(s, i) || ContainsShapeFrom(s, i + 1))
  }

  /** `String.match` with the validation pattern finds a match in `s`. */
  function ContainsShape(s: seq<char>): bool {
    ContainsShapeFrom(s, 0)
  }

  lemma GroupsStartWithComma(s: seq<char>, lo: int, hi: int)
    requires 0 <= lo <= hi <= |s| && Groups(s, lo, hi)
    ensures lo < hi && s[lo] == ','
  {
  }

  /** A successful group scan has read groups up to a closing parenthesis. */
  lemma {:induction false} ScanGroupsSound(s: seq<char>, i: nat)
    requires i <= |s| && ScanGroups(s, i)
    ensures exists j | i < j < |s| :: s[j] == ')' && Groups(s, i, j)
    decreases |s| - i
  {
    var a := SpanEnd(s, i + 1, Space);
    var b := SpanEnd(s, a, Digit);
    if s[b] == ')' {
      assert Groups(s, i, b);
    } else {
      ScanGroupsSound(s, b);
      var j :| b < j < |s| && s[j] == ')' && Groups(s, b, j);
      assert Groups(s, i, j);
    }
  }

  /** One step of the group scan: after the comma at `i`, the white-space
      run ends at `a` and the digit run at `b`. */
  lemma ScanGroupsStep(s: seq<char>, i: nat, a: nat, b: nat)
    requires i < |s| && s[i] == ','
    requires a == SpanEnd(s, i + 1, Space) && b == SpanEnd(s, a, Digit) && a < b < |s|
    ensures ScanGroups(s, i) == (s[b] == ')' || ScanGroups(s, b))
  {
  }

  /** Groups that end just before a closing parenthesis are found by the scan. */
  lemma {:induction false} ScanGroupsComplete(s: seq<char>, i: nat, j: nat)
    requires i < j < |s| && s[j] == ')' && Groups(s, i, j)
    ensures ScanGroups(s, i)
    decreases |s| - i
  {
    var a, b :| i < a < b <= j &&
      AllIn(s, i + 1, a, Space) && AllIn(s, a, b, Digit) && (b == j || Groups(s, b, j));
    assert InClass(s[a], Digit);
    SpanEndIs(s, i + 1, Space, a);
    if b < j {
      GroupsStartWithComma(s, b, j);
      SpanEndIs(s, a, Digit, b);
      ScanGroupsComplete(s, b, j);
    } else {
      SpanEndIs(s, a, Digit, b);
    }
    ScanGroupsStep(s, i, a, b);
  }

  /** A successful scan at `i` has read a word of the validation pattern. */
  lemma ScanShapeSound(s: seq<char>, i: nat)
    requires i <= |s| && ScanShape(s, i)
    ensures exists j | i <= j <= |s| :: ShapeAt(s, i, j)
  {
    var b := SpanEnd(s, i + 1, Digit);
    ScanGroupsSound(s, b);
    var j :| b < j < |s| && s[j] == ')' && Groups(s, b, j);
    assert NumberList(s, i + 1, j);
    assert ShapeAt(s, i, j + 1);
  }

  /** A word of the validation pattern at `i` is found by the scan at `i`. */
  lemma ScanShapeComplete(s: seq<char>, i: nat, j: nat)
    requires i <= j <= |s| && ShapeAt(s, i, j)
    ensures ScanShape(s, i)
  {
    var b :| i + 1 < b < j - 1 && AllIn(s, i + 1, b, Digit) && Groups(s, b, j - 1);
    GroupsStartWithComma(s, b, j - 1);
    SpanEndIs(s, i + 1, Digit, b);
    ScanGroupsComplete(s, b, j - 1);
  }

  /** The validation pattern matches at position `i` exactly when the scan
      from there succeeds. */
  lemma ScanShapeIff(s: seq<char>, i: nat)
    requires i <= |s|
    ensures ScanShape(s, i) <==> exists j | i <= j <= |s| :: ShapeAt(s, i, j)
  {
    if ScanShape(s, i) {
      ScanShapeSound(s, i);
    }
    if exists j | i <= j <= |s| :: ShapeAt(s, i, j) {
      var j :| i <= j <= |s| && ShapeAt(s, i, j);
      ScanShapeComplete(s, i, j);
    }
  }

  /** A successful scan from `i` has found a word of the validation pattern
      starting at `i` or later. */
  lemma {:induction false} ContainsShapeFromSound(s: seq<char>, i: nat)
    requires i <= |s| && ContainsShapeFrom(s, i)
    ensures exists i', j | i <= i' <= j <= |s| :: ShapeAt(s, i', j)
    decreases |s| - i
  {
    if ScanShape(s, i) {
      ScanShapeSound(s, i);
      var j :| i <= j <= |s| && ShapeAt(s, i, j);
      assert i <= i <= j <= |s| && ShapeAt(s, i, j);
    } else {
      ContainsShapeFromSound(s, i + 1);
      var i', j :| i + 1 <= i' <= j <= |s| && ShapeAt(s, i', j);
      assert i <= i' <= j <= |s| && ShapeAt(s, i', j);
    }
  }

  /** A word of the validation pattern at `i'` is found by the scan from any
      `i` up to `i'`. */
  lemma {:induction false} ContainsShapeFromComplete(s: seq<char>, i: nat, i': nat, j: nat)
    requires i <= i' <= j <= |s| && ShapeAt(s, i', j)
    ensures ContainsShapeFrom(s, i)
    decreases i' - i
  {
    if i == i' {
      ScanShapeComplete(s, i, j);
    } else {
      ContainsShapeFromComplete(s, i + 1, i', j);
    }
  }

  /** The scan from `i` finds a word of the validation pattern starting at
      `i` or later exactly when there is one. */
  lemma ContainsShapeFromIff(s: seq<char>, i: nat)
    requires i <= |s|
    ensures ContainsShapeFrom(s, i) <==> exists i', j | i <= i' <= j <= |s| :: ShapeAt(s, i', j)
  {
    if ContainsShapeFrom(s, i) {
      ContainsShapeFromSound(s, i);
    }
    if exists i', j | i <= i' <= j <= |s| :: ShapeAt(s, i', j) {
      var i', j :| i <= i' <= j <= |s| && ShapeAt(s, i', j);
      ContainsShapeFromComplete(s, i, i', j);
    }
  }

  /** The scanner decides the unanchored search of the validation pattern. */
  lemma ContainsShapeIff(s: seq<char>)
    ensures ContainsShape(s) <==> MatchesShapePattern(s)
  {
    ContainsShapeFromIff(s, 0);
  }

  /** Text without an opening parenthesis is refused. */
  lemma NoParenthesisRejected(s: seq<char>)
    requires forall k | 0 <= k < |s| :: s[k] != '('
    ensures !ContainsShape(s)
  {
    ContainsShapeIff(s);
  }

  /** Text without a comma is refused: a single parenthesised number such
      as `(3)` is not a shape. */
  lemma NoCommaRejected(s: seq<char>)
    requires forall k | 0 <= k < |s| :: s[k] != ','
    ensures !ContainsShape(s)
  {
    ContainsShapeIff(s);
  }

  /** Inside a word of the validation pattern, the character after `(` is a
      digit and so is the character before every comma: white space after
      the opening parenthesis or before a comma is refused. */
  lemma {:induction false} ShapeAtLayout(s: seq<char>, i: int, j: int)
    requires 0 <= i <= j <= |s| && ShapeAt(s, i, j)
    ensures IsDigit(s[i + 1])
    ensures forall k | i < k < j && s[k] == ',' :: IsDigit(s[k - 1])
  {
    var b :| i + 1 < b < j - 1 && AllIn(s, i + 1, b, Digit) && Groups(s, b, j - 1);
    assert InClass(s[i + 1], Digit);
    forall k | i < k < j && s[k] == ',' ensures IsDigit(s[k - 1]) {
      if k > b {
        GroupsLayout(s, b, j - 1, k);
      } else if k == b {
        assert InClass(s[b - 1], Digit);
      } else {
        assert false;
      }
    }
  }

  /** Within groups, every comma after the first follows a digit. */
  lemma {:induction false} GroupsLayout(s: seq<char>, lo: int, hi: int, k: int)
    requires 0 <= lo <= hi <= |s| && Groups(s, lo, hi)
    requires lo < k < hi && s[k] == ','
    ensures IsDigit(s[k - 1])
    decreases hi - lo
  {
    var a, b :| lo < a < b <= hi &&
      AllIn(s, lo + 1, a, Space) && AllIn(s, a, b, Digit) && (b == hi || Groups(s, b, hi));
    if k > b {
      GroupsLayout(s, b, hi, k);
    } else if k == b {
      assert InClass(s[b - 1], Digit);
    } else {
      assert false;
    }
  }

  /** A run of one class stays one with text added on either side. */
  lemma AllInEmbedded(s: seq<char>, lo: int, hi: int, cls: CharClass, t: seq<char>, u: seq<char>)
    requires 0 <= lo <= hi <= |s| && AllIn(s, lo, hi, cls)
    ensures AllIn(t + s + u, |t| + lo, |t| + hi, cls)
  {
    var w := t + s + u;
    forall k | |t| + lo <= k < |t| + hi ensures InClass(w[k], cls) {
      assert w[k] == s[k - |t|];
    }
  }

  /** Groups stay groups with text added on either side. */
  lemma {:induction false} GroupsEmbedded(s: seq<char>, lo: int, hi: int, t: seq<char>, u: seq<char>)
    requires 0 <= lo <= hi <= |s| && Groups(s, lo, hi)
    ensures Groups(t + s + u, |t| + lo, |t| + hi)
    decreases hi - lo
  {
    var w := t + s + u;
    var a, b :| lo < a < b <= hi &&
      AllIn(s, lo + 1, a, Space) && AllIn(s, a, b, Digit) && (b == hi || Groups(s, b, hi));
    assert w[|t| + lo] == s[lo];
    AllInEmbedded(s, lo + 1, a, Space, t, u);
    AllInEmbedded(s, a, b, Digit, t, u);
    if b < hi {
      GroupsEmbedded(s, b, hi, t, u);
    }
    assert |t| + lo < |t| + a < |t| + b <= |t| + hi;
  }

  /** A word of the validation pattern stays one with text added on either
      side. */
  lemma ShapeAtEmbedded(s: seq<char>, i: int, j: int, t: seq<char>, u: seq<char>)
    requires 0 <= i <= j <= |s| && ShapeAt(s, i, j)
    ensures ShapeAt(t + s + u, |t| + i, |t| + j)
  {
    var w := t + s + u;
    var b :| i + 1 < b < j - 1 && AllIn(s, i + 1, b, Digit) && Groups(s, b, j - 1);
    GroupsEmbedded(s, b, j - 1, t, u);
    AllInEmbedded(s, i + 1, b, Digit, t, u);
    assert w[|t| + i] == s[i] && w[|t| + j - 1] == s[j - 1];
    assert NumberList(w, |t| + i + 1, |t| + j - 1);
  }

  /** The search is unanchored: text around an accepted descriptor, such as
      a label before it, leaves it accepted. */
  lemma EmbeddedShapeAccepted(s: seq<char>, t: seq<char>, u: seq<char>)
    requires ContainsShape(s)
    ensures ContainsShape(t + s + u)
  {
    ContainsShapeIff(s);
    var i, j :| 0 <= i <= j <= |s| && ShapeAt(s, i, j);
    ShapeAtEmbedded(s, i, j, t, u);
    ContainsShapeIff(t + s + u);
  }

  /** The default descriptor `(3,4)` is accepted. */
  lemma DefaultShapeAccepted()
    ensures ContainsShape("(3,4)")
  {
    var s := "(3,4)";
    SpanEndIs(s, 1, Digit, 2);
    SpanEndIs(s, 3, Space, 3);
    SpanEndIs(s, 3, Digit, 4);
    assert ScanShape(s, 0);
  }

  /** Three numbers, with white space after the commas, are accepted. */
  lemma SpacedShapeAccepted()
    ensures ContainsShape("(3, 4, 5)")
  {
    var s := "(3, 4, 5)";
    SpanEndIs(s, 1, Digit, 2);
    SpanEndIs(s, 3, Space, 4);
    SpanEndIs(s, 4, Digit, 5);
    SpanEndIs(s, 6, Space, 7);
    SpanEndIs(s, 7, Digit, 8);
    assert ScanGroups(s, 5);
    assert ScanShape(s, 0);
  }

  /** A single parenthesised number and a list without parentheses are
      refused. */
  lemma IncompleteShapesRejected()
    ensures !ContainsShape("(3)")
    ensures !ContainsShape("3,4")
  {
    NoCommaRejected("(3)");
    NoParenthesisRejected("3,4");
  }

  /** White space after the opening parenthesis is refused. */
  lemma LeadingSpaceRejected()
    ensures !ContainsShape("( 3,4)")
  {
    var s := "( 3,4)";
    ContainsShapeIff(s);
    forall i, j | 0 <= i <= j <= |s| ensures !ShapeAt(s, i, j) {
      if ShapeAt(s, i, j) { ShapeAtLayout(s, i, j); }
    }
  }

  /** White space before a comma is refused. */
  lemma SpaceBeforeCommaRejected()
    ensures !ContainsShape("(3 ,4)")
  {
    var s := "(3 ,4)";
    ContainsShapeIff(s);
    forall i, j | 0 <= i <= j <= |s| ensures !ShapeAt(s, i, j) {
      if ShapeAt(s, i, j) { ShapeAtLayout(s, i, j); }
    }
  }

  // ------------------------------------------------- the extraction pattern

  /** Characters the look-behind `(?<=\(|,|\s)` accepts. */
  predicate IsLeftBoundary(c: char) { c == '(' || c == ',' || IsSpace(c) }

  /** Characters the look-ahead `(?=\(|,|\s|\))` accepts. */
  predicate IsRightBoundary(c: char) { IsLeftBoundary(c) || c == ')' }

  /** `s[p..q]` is a run of digits with an accepted character on each side;
      such a run is maximal, since no boundary character is a digit. */
  ghost predicate IsNumberToken(s: seq<char>, p: int, q: int) {
    0 < p < q < |s| && IsLeftBoundary(s[p - 1]) && IsRightBoundary(s[q]) &&
    AllIn(s, p, q, Digit)
  }

  /** The global search of the extraction pattern from position `i`: where
      the pattern matches, the match is the whole digit run (a shorter one
      would be followed by a digit) and the search resumes after it;
      elsewhere it moves on by one character. */
  function NumberTokensFrom(s: seq<char>, i: nat): (r: seq<(nat, nat)>)
    requires i <= |s|
    ensures forall k | 0 <= k < |r| :: i <= r[k].0 && IsNumberToken(s, r[k].0, r[k].1)
    ensures forall k | 0 <= k < |r| - 1 :: r[k].1 < r[k + 1].0
    decreases |s| - i
  {
    if i == |s| then []
    else
      var q := SpanEnd(s, i, Digit);
      if 0 < i && IsLeftBoundary(s[i - 1]) && i < q < |s| && IsRightBoundary(s[q]) then
        [(i, q)] + NumberTokensFrom(s, q)
      else
        NumberTokensFrom(s, i + 1)
  }

  /** Start and end positions of every match of the extraction pattern. */
  function NumberTokens(s: seq<char>): seq<(nat, nat)> {
    NumberTokensFrom(s, 0)
  }

  /** Every digit run with accepted characters around it, at or after `i`,
      is found by the search from `i`. */
  lemma {:induction false} NumberTokensFromComplete(s: seq<char>, i: nat, p: nat, q: nat)
    requires i <= p && IsNumberToken(s, p, q)
    ensures (p, q) in NumberTokensFrom(s, i)
    decreases |s| - i
  {
    var q' := SpanEnd(s, i, Digit);
    if i == p {
      SpanEndIs(s, i, Digit, q);
    } else if 0 < i && IsLeftBoundary(s[i - 1]) && i < q' < |s| && IsRightBoundary(s[q']) {
      // the run found at `i` ends before `p`, because `s[p - 1]` is no digit
      assert !InClass(s[p - 1], Digit);
      NumberTokensFromComplete(s, q', p, q);
    } else {
      NumberTokensFromComplete(s, i + 1, p, q);
    }
  }

  /** The matches of the extraction pattern are exactly the digit runs with
      accepted characters around them, in left-to-right order. */
  lemma NumberTokensExact(s: seq<char>)
    ensures forall k | 0 <= k < |NumberTokens(s)| ::
      IsNumberToken(s, NumberTokens(s)[k].0, NumberTokens(s)[k].1)
    ensures forall p: nat, q: nat | IsNumberToken(s, p, q) :: (p, q) in NumberTokens(s)
    ensures forall k | 0 <= k < |NumberTokens(s)| - 1 ::
      NumberTokens(s)[k].1 < NumberTokens(s)[k + 1].0
  {
    forall p: nat, q: nat | IsNumberToken(s, p, q) ensures (p, q) in NumberTokens(s) {
      NumberTokensFromComplete(s, 0, p, q);
    }
  }

  /** `parseInt` of the run of decimal digits `s[p..q]`, exactly. */
  function DecimalValue(s: seq<char>, p: nat, q: nat): nat
    requires p <= q <= |s| && AllIn(s, p, q, Digit)
    decreases q - p
  {
    if q == p then 0
    else
      assert InClass(s[q - 1], Digit);
      10 * DecimalValue(s, p, q - 1) + ((s[q - 1] as int) - ('0' as int))
  }

  /** The numbers of the descriptor: the value of every match of the
      extraction pattern, in order; empty when nothing matches. */
  function ParseShape(s: seq<char>): (dims: seq<nat>)
    ensures |dims| == |NumberTokens(s)|
  {
    var tokens := NumberTokens(s);
    seq(|tokens|, k requires 0 <= k < |tokens| =>
      DecimalValue(s, tokens[k].0, tokens[k].1))
  }

  /** A run at the very start or the very end of the text is never returned,
      since each look-around needs a character there. */
  lemma EdgeRunsNotParsed(s: seq<char>)
    ensures forall k | 0 <= k < |NumberTokens(s)| ::
      0 < NumberTokens(s)[k].0 && NumberTokens(s)[k].1 < |s|
  {
  }

  /** The first two numbers of a word of the validation pattern are matches
      of the extraction pattern: the first lies between `(` and `,`, the
      second between a comma or white space and a `,` or `)`. */
  lemma ShapeAtNumbers(s: seq<char>, i: int, j: int) returns (p1: nat, q1: nat, p2: nat, q2: nat)
    requires 0 <= i <= j <= |s| && ShapeAt(s, i, j)
    ensures i < p1 < q1 < p2 < q2 < j
    ensures IsNumberToken(s, p1, q1) && IsNumberToken(s, p2, q2)
  {
    var b :| i + 1 < b < j - 1 && AllIn(s, i + 1, b, Digit) && Groups(s, b, j - 1);
    var a, c :| b < a < c <= j - 1 &&
      AllIn(s, b + 1, a, Space) && AllIn(s, a, c, Digit) && (c == j - 1 || Groups(s, c, j - 1));
    assert s[b] == ',' && IsLeftBoundary(s[i]) && IsRightBoundary(s[b]);
    assert a - 1 > b ==> InClass(s[a - 1], Space);
    assert IsLeftBoundary(s[a - 1]);
    if c < j - 1 {
      GroupsStartWithComma(s, c, j - 1);
    }
    assert IsRightBoundary(s[c]);
    p1, q1, p2, q2 := i + 1, b, a, c;
  }

  /** Every descriptor the validation accepts yields at least two numbers. */
  lemma ValidShapeParsesTwoNumbers(s: seq<char>)
    requires ContainsShape(s)
    ensures |ParseShape(s)| >= 2
  {
    ContainsShapeIff(s);
    var i, j :| 0 <= i <= j <= |s| && ShapeAt(s, i, j);
    var p1, q1, p2, q2 := ShapeAtNumbers(s, i, j);
    NumberTokensFromComplete(s, 0, p1, q1);
    NumberTokensFromComplete(s, 0, p2, q2);
    TwoMembers(NumberTokens(s), (p1, q1), (p2, q2));
  }

  lemma TwoMembers<T>(xs: seq<T>, x: T, y: T)
    requires x in xs && y in xs && x != y
    ensures |xs| >= 2
  {
  }

  /** The default descriptor `(3,4)` gives [3, 4]. */
  lemma ParseDefaultShape()
    ensures ParseShape("(3,4)") == [3, 4]
  {
    var s := "(3,4)";
    SpanEndIs(s, 4, Digit, 4);
    SpanEndIs(s, 3, Digit, 4);
    SpanEndIs(s, 2, Digit, 2);
    SpanEndIs(s, 1, Digit, 2);
    SpanEndIs(s, 0, Digit, 0);
    assert NumberTokensFrom(s, 4) == [];
    assert NumberTokensFrom(s, 3) == [(3, 4)];
    assert NumberTokensFrom(s, 2) == [(3, 4)];
    assert NumberTokensFrom(s, 1) == [(1, 2), (3, 4)];
    assert NumberTokensFrom(s, 0) == [(1, 2), (3, 4)];
  }

  /** White space after a comma is allowed: `(10, 2)` gives [10, 2]. */
  lemma ParseSpacedShape()
    ensures ParseShape("(10, 2)") == [10, 2]
  {
    var s := "(10, 2)";
    SpanEndIs(s, 6, Digit, 6);
    SpanEndIs(s, 5, Digit, 6);
    SpanEndIs(s, 4, Digit, 4);
    SpanEndIs(s, 3, Digit, 3);
    SpanEndIs(s, 1, Digit, 3);
    SpanEndIs(s, 0, Digit, 0);
    assert NumberTokensFrom(s, 6) == [];
    assert NumberTokensFrom(s, 5) == [(5, 6)];
    assert NumberTokensFrom(s, 4) == [(5, 6)];
    assert NumberTokensFrom(s, 3) == [(5, 6)];
    assert NumberTokensFrom(s, 1) == [(1, 3), (5, 6)];
    assert NumberTokensFrom(s, 0) == [(1, 3), (5, 6)];
    assert DecimalValue(s, 1, 2) == 1;
  }

  /** Text without digits gives no numbers. */
  lemma {:induction false} ParseWithoutDigits(s: seq<char>, i: nat)
    requires i <= |s|
    requires forall k | 0 <= k < |s| :: !IsDigit(s[k])
    ensures NumberTokensFrom(s, i) == []
    ensures i == 0 ==> ParseShape(s) == []
    decreases |s| - i
  {
    if i < |s| {
      ParseWithoutDigits(s, i + 1);
    }
  }
}
