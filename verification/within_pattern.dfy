/** The regular expression `(\d+)(\w*)` that request.go applies to a
    one-token distance, as `FindStringSubmatch` evaluates it: the match
    starts at the leftmost ASCII digit, the first group is the longest run
    of digits there, and the second group the longest run of word characters
    (`[0-9A-Za-z_]`) after it. */
module WithinPattern {
  import opened Results
  import opened GoStrconv

  predicate IsWordChar(c: char) {
    IsDigit(c) || 'a' <= c <= 'z' || 'A' <= c <= 'Z' || c == '_'
  }

  predicate AllWordChars(s: string) {
    forall i :: 0 <= i < |s| ==> IsWordChar(s[i])
  }

  /** The two submatches, and where the match starts. */
  datatype Submatch = Submatch(start: nat, number: string, unit: string)

  function FirstDigitFrom(t: string, i: nat): (k: nat)
    requires i <= |t|
    ensures i <= k <= |t|
    ensures k < |t| ==> IsDigit(t[k])
    ensures forall j :: i <= j < k ==> !IsDigit(t[j])
    decreases |t| - i
  {
    if i == |t| || IsDigit(t[i]) then i else FirstDigitFrom(t, i + 1)
  }

  function DigitRunEnd(t: string, i: nat): (k: nat)
    requires i <= |t|
    ensures i <= k <= |t|
    ensures k < |t| ==> !IsDigit(t[k])
    ensures forall j :: i <= j < k ==> IsDigit(t[j])
    decreases |t| - i
  {
    if i == |t| || !IsDigit(t[i]) then i else DigitRunEnd(t, i + 1)
  }

  function WordRunEnd(t: string, i: nat): (k: nat)
    requires i <= |t|
    ensures i <= k <= |t|
    ensures k < |t| ==> !IsWordChar(t[k])
    ensures forall j :: i <= j < k ==> IsWordChar(t[j])
    decreases |t| - i
  {
    if i == |t| || !IsWordChar(t[i]) then i else WordRunEnd(t, i + 1)
  }

  /** `m` is a match of the pattern in `t` at `m.start`: a non-empty run of
      digits that cannot be extended, then a run of word characters that
      cannot be extended. */
  predicate IsMatch(t: string, m: Submatch) {
    var mid := m.start + |m.number|;
    var end := mid + |m.unit|;
    && end <= |t|
    && m.number == t[m.start..mid] && m.unit == t[mid..end]
    && |m.number| > 0 && AllDigits(m.number) && AllWordChars(m.unit)
    && (mid < |t| ==> !IsDigit(t[mid]))
    && (end < |t| ==> !IsWordChar(t[end]))
  }

  /** The match that starts at position `start`. */
  function MatchAt(t: string, start: nat): (m: Submatch)
    requires start < |t| && IsDigit(t[start])
    ensures m.start == start && IsMatch(t, m)
  {
    var mid := DigitRunEnd(t, start);
    var end := WordRunEnd(t, mid);
    Submatch(start, t[start..mid], t[mid..end])
  }

  /** `withinRegex.FindStringSubmatch(t)`: `None` exactly when `t` holds no
      digit; otherwise the match at the leftmost digit. */
  function FindSubmatch(t: string): (r: Option<Submatch>)
    ensures r.None? <==> forall j :: 0 <= j < |t| ==> !IsDigit(t[j])
    ensures r.Some? ==>
      && IsMatch(t, r.value)
      && (forall j :: 0 <= j < r.value.start ==> !IsDigit(t[j]))
  {
    var start := FirstDigitFrom(t, 0);
    if start == |t| then None else Some(MatchAt(t, start))
  }

  /** A run of digits ends at the first position that is not a digit. */
  lemma DigitRunEndsAt(t: string, i: nat, e: nat)
    requires i <= e <= |t|
    requires forall j :: i <= j < e ==> IsDigit(t[j])
    requires e < |t| ==> !IsDigit(t[e])
    ensures DigitRunEnd(t, i) == e
  {
  }

  /** A run of word characters ends at the first position that is not one. */
  lemma WordRunEndsAt(t: string, i: nat, e: nat)
    requires i <= e <= |t|
    requires forall j :: i <= j < e ==> IsWordChar(t[j])
    requires e < |t| ==> !IsWordChar(t[e])
    ensures WordRunEnd(t, i) == e
  {
  }

  /** A distance written as digits directly followed by a word that does
      not start with a digit splits into exactly those two groups. */
  lemma NumberThenUnit(digits: string, unit: string)
    requires |digits| > 0 && AllDigits(digits)
    requires AllWordChars(unit) && (|unit| > 0 ==> !IsDigit(unit[0]))
    ensures FindSubmatch(digits + unit) == Some(Submatch(0, digits, unit))
  {
    var t := digits + unit;
    assert FirstDigitFrom(t, 0) == 0;
    DigitRunEndsAt(t, 0, |digits|);
    WordRunEndsAt(t, |digits|, |t|);
    assert t[0..|digits|] == digits && t[|digits|..|t|] == unit;
  }
}
