/** pkg/yelp/request.go: turning the text of an SMS message into a search
    request, following the program's own steps — split on single spaces,
    classify the tokens in one pass, sort the keyword positions into a
    boundary list, cut out the `in` and `within` phrases at the next
    boundary, and read a distance from the `within` phrase. */
module Request {
  import opened Results
  import opened GoStrings
  import opened GoStrconv
  import opened GoSort
  import opened WithinPattern
  import opened Tokens
  import Convert

  const NoLocation := "no location provided"
  const InvalidWithinValue := "invalid value provided for within distance"
  const InvalidWithinOptions := "invalid within options provided"

  /** The parsed request: search term, location, whether to restrict to
      businesses open now, price codes "1".."4", and a search radius in
      metres (0 when none was given). */
  datatype SearchRequest = SearchRequest(
    term: string,
    location: string,
    openNow: bool,
    price: seq<string>,
    within: int)

  /** State of the classifying loop: the latest `in`, `open` and `within`
      positions (-1 until seen), the price positions and codes, and the
      term tokens collected so far. */
  datatype Scan = Scan(
    inIndex: int,
    openIndex: int,
    withinIndex: int,
    priceIndices: seq<int>,
    priceLevels: seq<string>,
    termTokens: seq<string>)

  const Start := Scan(-1, -1, -1, [], [], [])

  /** One iteration of the classifying loop, for the token at `index`. */
  function Step(s: Scan, index: nat, token: string): Scan
  {
    match KindOf(token)
    case InWord => s.(inIndex := index)
    case OpenWord => s.(openIndex := index)
    case WithinWord => s.(withinIndex := index)
    case Price => s.(priceIndices := s.priceIndices + [index], priceLevels := s.priceLevels + [PriceLevel(token)])
    case Text =>
      if s.inIndex >= 0 || s.withinIndex >= 0 then s
      else s.(termTokens := s.termTokens + [token])
  }

  /** The loop state after the first `n` tokens. Each `in`, `open` and
      `within` overwrites the previous position, so the last occurrence
      wins; prices are collected everywhere; free text joins the term only
      until the first `in` or `within`. */
  function Classify(tokens: seq<string>, n: nat): (s: Scan)
    requires n <= |tokens|
    ensures s.inIndex == LastBefore(tokens, InWord, n)
    ensures s.openIndex == LastBefore(tokens, OpenWord, n)
    ensures s.withinIndex == LastBefore(tokens, WithinWord, n)
    ensures forall j {:trigger j in s.priceIndices} {:trigger IsPriceToken(tokens[j])} ::
      j in s.priceIndices <==> 0 <= j < n && IsPriceToken(tokens[j])
    ensures s.priceLevels == PriceLevelsBefore(tokens, n)
  {
    if n == 0 then Start
    else
      var s := Classify(tokens, n - 1);
      StepFields(s, n - 1, tokens[n - 1]);
      Step(s, n - 1, tokens[n - 1])
  }

  /** What one step does to each recorded position and to the prices. */
  lemma StepFields(s: Scan, index: nat, token: string)
    ensures var t := Step(s, index, token);
      && t.inIndex == (if KindOf(token) == InWord then index else s.inIndex)
      && t.openIndex == (if KindOf(token) == OpenWord then index else s.openIndex)
      && t.withinIndex == (if KindOf(token) == WithinWord then index else s.withinIndex)
      && t.priceIndices == s.priceIndices + (if KindOf(token) == Price then [index] else [])
      && t.priceLevels == s.priceLevels + (if KindOf(token) == Price then [PriceLevel(token)] else [])
  {
  }

  /** Up to the first `in` or `within`, the term the loop collects is the
      free text read so far; after it, the term no longer changes. */
  lemma {:induction false} ClassifyTerm(tokens: seq<string>, n: nat)
    requires n <= |tokens|
    ensures Classify(tokens, n).termTokens ==
      PlainTokens(tokens, if n < FirstStop(tokens) then n else FirstStop(tokens))
  {
    if n > 0 {
      ClassifyTerm(tokens, n - 1);
      TermAfterStep(tokens, n, Classify(tokens, n - 1));
    }
  }

  /** The induction step of `ClassifyTerm`, for any state that records the
      last `in` and `within` and the term so far. */
  lemma TermAfterStep(tokens: seq<string>, n: nat, s: Scan)
    requires 0 < n <= |tokens|
    requires s.inIndex == LastBefore(tokens, InWord, n - 1)
    requires s.withinIndex == LastBefore(tokens, WithinWord, n - 1)
    requires s.termTokens ==
      PlainTokens(tokens, if n - 1 < FirstStop(tokens) then n - 1 else FirstStop(tokens))
    ensures Step(s, n - 1, tokens[n - 1]).termTokens ==
      PlainTokens(tokens, if n < FirstStop(tokens) then n else FirstStop(tokens))
  {
    StopSeen(tokens, n - 1);
    StepTerm(s, n - 1, tokens[n - 1]);
    TermStep(tokens, n, s.termTokens, s.inIndex >= 0 || s.withinIndex >= 0);
  }

  /** One step adds the token to the term exactly when it is free text and
      no `in` or `within` has been seen. */
  lemma StepTerm(s: Scan, index: nat, token: string)
    ensures Step(s, index, token).termTokens ==
      if KindOf(token) == Text && s.inIndex < 0 && s.withinIndex < 0 then s.termTokens + [token]
      else s.termTokens
  {
  }

  /** The term grows by the `n`-th token exactly when it is free text in
      front of the first `in` or `within`. */
  lemma TermStep(tokens: seq<string>, n: nat, term: seq<string>, seen: bool)
    requires 0 < n <= |tokens|
    requires var f := FirstStop(tokens);
      term == PlainTokens(tokens, if n - 1 < f then n - 1 else f)
    requires seen <==> FirstStop(tokens) < n - 1
    ensures var f := FirstStop(tokens);
      (if KindOf(tokens[n - 1]) == Text && !seen then term + [tokens[n - 1]] else term) ==
      PlainTokens(tokens, if n < f then n else f)
  {
    var f := FirstStop(tokens);
    if n - 1 == f {
      assert OpensPhrase(tokens[n - 1]);
    } else if n - 1 < f {
      assert !OpensPhrase(tokens[n - 1]);
    }
  }

  /** `indexOf`: linear search that gives up at the first entry larger
      than `value`. On a sorted list it finds the first occurrence of
      `value`, and -1 exactly when `value` is absent. */
  function IndexOf(items: seq<int>, value: int): (r: int)
    ensures -1 <= r < |items|
    ensures r >= 0 ==> items[r] == value && forall j :: 0 <= j < r ==> items[j] < value
    ensures Sorted(items) ==> (r >= 0 <==> value in items)
  {
    if |items| == 0 then -1
    else if items[0] == value then 0
    else if items[0] > value then -1
    else
      var r := IndexOf(items[1..], value);
      assert Sorted(items) ==> Sorted(items[1..]);
      assert value in items ==> items[0] == value || value in items[1..];
      if r < 0 then -1 else r + 1
  }

  /** The boundary list: price positions, the `in`, `within` and `open`
      positions (-1 when absent) and the token count, sorted. */
  function Boundaries(s: Scan, n: nat): (r: seq<int>)
    ensures Sorted(r)
    ensures multiset(r) == multiset(s.priceIndices) + multiset{s.inIndex, s.withinIndex, s.openIndex, n}
    ensures |r| == |s.priceIndices| + 4
  {
    SortInts(s.priceIndices + [s.inIndex, s.withinIndex, s.openIndex, n])
  }

  /** What the phrase extraction needs of a boundary list: sorted, bounded
      by the token count `n`, holding `n`, and holding the keyword position
      `k` once. */
  predicate PhraseBoundaries(indices: seq<int>, k: int, n: int) {
    && Sorted(indices)
    && 0 <= k < n
    && n in indices
    && (forall x :: x in indices ==> x <= n)
    && multiset(indices)[k] == 1
  }

  /** The entry after the first occurrence of `k` is the least entry above
      `k`. */
  lemma {:induction false} NextEntry(indices: seq<int>, k: int, n: int)
    requires PhraseBoundaries(indices, k, n)
    ensures var p := IndexOf(indices, k);
      && 0 <= p && p + 1 < |indices|
      && indices[p] == k < indices[p + 1] <= n
      && forall x :: x in indices && x > k ==> indices[p + 1] <= x
  {
    var p := IndexOf(indices, k);
    assert k in multiset(indices);
    var q :| 0 <= q < |indices| && indices[q] == n;
    SortedOrder(indices, p, q);
    if indices[p + 1] == k {
      RepeatedEntry(indices, p, p + 1);
    }
    EntriesAbove(indices, p);
  }

  /** In a sorted list, a smaller entry comes first. */
  lemma SortedOrder(s: seq<int>, i: int, j: int)
    requires Sorted(s) && 0 <= i < |s| && 0 <= j < |s| && s[i] < s[j]
    ensures i < j
  {
  }

  /** In a sorted list, every entry above `s[p]` is at least `s[p + 1]`. */
  lemma EntriesAbove(s: seq<int>, p: int)
    requires Sorted(s) && 0 <= p && p + 1 < |s|
    ensures forall x :: x in s && x > s[p] ==> s[p + 1] <= x
  {
    forall x | x in s && x > s[p]
      ensures s[p + 1] <= x
    {
      var i :| 0 <= i < |s| && s[i] == x;
      SortedOrder(s, p, i);
    }
  }

  /** The tokens of the phrase opened by the keyword at `k`: from `k + 1` up
      to the next boundary, or `None` when the keyword is the last token. */
  function PhraseAt(tokens: seq<string>, indices: seq<int>, k: int): (r: Option<seq<string>>)
    requires PhraseBoundaries(indices, k, |tokens|)
    ensures r.None? <==> k >= |tokens| - 1
    ensures r.Some? ==>
      var e := k + 1 + |r.value|;
      && e <= |tokens| && r.value == tokens[k + 1..e] && e in indices
      && forall x :: x in indices && x > k ==> e <= x
  {
    var index := IndexOf(indices, k);
    NextEntry(indices, k, |tokens|);
    if indices[index] >= |tokens| - 1 then None
    else Some(tokens[k + 1..indices[index + 1]])
  }

  /** The radius a `within` phrase denotes, in whole metres. One token is
      read through the pattern `(\d+)(\w*)`: the digits are metres unless a
      unit follows; two tokens are a number and a unit; any other count is
      rejected. Unit names are lowercased before the lookup. */
  function WithinDistance(phrase: seq<string>): (r: Result<int>)
    ensures r.Err? ==>
      r.error == InvalidWithinValue || r.error == InvalidWithinOptions || Convert.UnknownUnit <= r.error
    ensures |phrase| == 0 || |phrase| >= 3 ==> r == Err(InvalidWithinOptions)
    ensures |phrase| == 1 && (forall j :: 0 <= j < |phrase[0]| ==> !IsDigit(phrase[0][j])) ==>
      r == Err(InvalidWithinValue)
    ensures |phrase| == 1 && |phrase[0]| > 0 && AllDigits(phrase[0]) ==> r == Ok(DigitsValue(phrase[0]))
    ensures |phrase| == 1 && r.Ok? ==> r.value >= 0
    ensures |phrase| == 1 && FindSubmatch(phrase[0]).Some? ==>
      var m := FindSubmatch(phrase[0]).value;
      var value := DigitsValue(m.number) as real;
      r == if m.unit == "" then Ok(DigitsValue(m.number))
           else match Convert.ToMeters(value, Lower(m.unit))
                case Ok(meters) => Ok(Truncate(meters))
                case Err(e) => Err(e)
    ensures |phrase| == 2 && ParseFloat(phrase[0]).None? ==> r == Err(InvalidWithinValue)
    ensures |phrase| == 2 && ParseFloat(phrase[0]).Some? ==>
      r == (match Convert.ToMeters(ParseFloat(phrase[0]).value, Lower(phrase[1]))
            case Ok(m) => Ok(Truncate(m))
            case Err(e) => Err(e))
  {
    if |phrase| == 1 then
      match FindSubmatch(phrase[0])
      case None => Err(InvalidWithinValue)
      case Some(m) =>
        var value := DigitsValue(m.number);
        assert |phrase[0]| > 0 && AllDigits(phrase[0]) ==> m.start == 0 && m.number == phrase[0];
        if m.unit == "" then Ok(Truncate(value as real))
        else
          var meters :- Convert.ToMeters(value as real, Lower(m.unit));
          Convert.ToMetersAwayFromZero(value as real, Lower(m.unit));
          Ok(Truncate(meters))
    else if |phrase| == 2 then
      match ParseFloat(phrase[0])
      case None => Err(InvalidWithinValue)
      case Some(value) =>
        var meters :- Convert.ToMeters(value, Lower(phrase[1]));
        Ok(Truncate(meters))
    else
      Err(InvalidWithinOptions)
  }

  /** Tokens of the location: none without an `in`; otherwise the `in`
      phrase, which must not be empty. */
  function LocationTokens(tokens: seq<string>, indices: seq<int>, k: int): (r: Result<seq<string>>)
    requires -1 <= k < |tokens|
    requires k >= 0 ==> PhraseBoundaries(indices, k, |tokens|)
    ensures k < 0 ==> r == Ok([])
    ensures r.Err? ==> r.error == NoLocation
    ensures k >= 0 ==> (r.Ok? <==> PhraseAt(tokens, indices, k).Some? && |PhraseAt(tokens, indices, k).value| > 0)
  {
    if k < 0 then Ok([])
    else
      match PhraseAt(tokens, indices, k)
      case None => Err(NoLocation)
      case Some(phrase) => if |phrase| == 0 then Err(NoLocation) else Ok(phrase)
  }

  /** The radius: 0 without a `within`; otherwise the distance its phrase
      denotes. */
  function WithinRadius(tokens: seq<string>, indices: seq<int>, k: int): (r: Result<int>)
    requires -1 <= k < |tokens|
    requires k >= 0 ==> PhraseBoundaries(indices, k, |tokens|)
    ensures k < 0 ==> r == Ok(0)
    ensures 0 <= k == |tokens| - 1 ==> r == Err(InvalidWithinOptions)
  {
    if k < 0 then Ok(0)
    else
      match PhraseAt(tokens, indices, k)
      case None => Err(InvalidWithinOptions)
      case Some(phrase) => WithinDistance(phrase)
  }

  /** The boundary list built from a full classification meets what the
      phrase extraction needs at the `in` and the `within` position. */
  lemma BoundariesFit(tokens: seq<string>)
    ensures var s := Classify(tokens, |tokens|);
      var indices := Boundaries(s, |tokens|);
      && (s.inIndex >= 0 ==> PhraseBoundaries(indices, s.inIndex, |tokens|))
      && (s.withinIndex >= 0 ==> PhraseBoundaries(indices, s.withinIndex, |tokens|))
  {
    var s := Classify(tokens, |tokens|);
    forall j | j in s.priceIndices
      ensures 0 <= j < |tokens| && j != s.inIndex && j != s.withinIndex
    {
      assert IsPriceToken(tokens[j]);
    }
    PositionsFit(s, |tokens|, Boundaries(s, |tokens|));
  }

  /** The same for any loop state whose recorded positions are distinct
      and lie below the token count, with no price at the `in` or the
      `within` position. */
  lemma PositionsFit(s: Scan, n: nat, indices: seq<int>)
    requires -1 <= s.inIndex < n && -1 <= s.withinIndex < n && -1 <= s.openIndex < n
    requires s.inIndex >= 0 ==> s.inIndex != s.withinIndex && s.inIndex != s.openIndex
    requires s.withinIndex >= 0 ==> s.withinIndex != s.openIndex
    requires forall j :: j in s.priceIndices ==> 0 <= j < n && j != s.inIndex && j != s.withinIndex
    requires Sorted(indices)
    requires multiset(indices) == multiset(s.priceIndices + [s.inIndex, s.withinIndex, s.openIndex, n])
    ensures s.inIndex >= 0 ==> PhraseBoundaries(indices, s.inIndex, n)
    ensures s.withinIndex >= 0 ==> PhraseBoundaries(indices, s.withinIndex, n)
  {
    ListBounded(s.priceIndices, s.inIndex, s.withinIndex, s.openIndex, n, indices);
    if s.inIndex >= 0 {
      CountOutsidePrices(s.priceIndices, s.inIndex, s.withinIndex, s.openIndex, n, indices, s.inIndex);
    }
    if s.withinIndex >= 0 {
      CountOutsidePrices(s.priceIndices, s.inIndex, s.withinIndex, s.openIndex, n, indices, s.withinIndex);
    }
  }

  /** A list with the entries of the boundary input holds `n` and nothing
      above it. */
  lemma ListBounded(prices: seq<int>, a: int, b: int, c: int, n: int, indices: seq<int>)
    requires forall j :: j in prices ==> j < n
    requires a < n && b < n && c < n
    requires multiset(indices) == multiset(prices + [a, b, c, n])
    ensures n in indices
    ensures forall x :: x in indices ==> x <= n
  {
    var input := prices + [a, b, c, n];
    assert input[|prices| + 3] == n;
    assert n in multiset(indices);
    forall x | x in indices
      ensures x <= n
    {
      assert x in multiset(input);
      assert x in input;
    }
  }

  /** A position that is no price occurs in the boundary list as often as
      among the four keyword and sentinel entries. */
  lemma CountOutsidePrices(prices: seq<int>, a: int, b: int, c: int, d: int, indices: seq<int>, k: int)
    requires k !in prices
    requires multiset(indices) == multiset(prices + [a, b, c, d])
    ensures multiset(indices)[k] == multiset{a, b, c, d}[k]
  {
    assert multiset(prices + [a, b, c, d]) == multiset(prices) + multiset{a, b, c, d};
    assert multiset(prices)[k] == 0;
  }

  /** `ParseRequest` after the split into tokens. The `in` phrase is
      checked before the `within` phrase, so a missing location is reported
      even when the distance is also malformed. */
  function ParseTokens(tokens: seq<string>): Result<SearchRequest>
  {
    var s := Classify(tokens, |tokens|);
    var indices := Boundaries(s, |tokens|);
    BoundariesFit(tokens);
    var location :- LocationTokens(tokens, indices, s.inIndex);
    var within :- WithinRadius(tokens, indices, s.withinIndex);
    Ok(SearchRequest(
      Join(s.termTokens, " "),
      Join(location, " "),
      s.openIndex >= 0,
      s.priceLevels,
      within))
  }

  /** `ParseRequest`: the message is split on every single space, so
      repeated spaces give empty tokens. */
  function ParseRequest(body: string): Result<SearchRequest>
  {
    ParseTokens(Split(body, ' '))
  }
}
