/** A declarative reading of the query language, independent of the
    parser's boundary list: the phrase a keyword opens runs up to the next
    boundary position, and the result is assembled from the last `in`,
    `open` and `within`. The main lemma shows that the parser's steps —
    one classifying pass, a sorted boundary list, `indexOf` — compute
    exactly this, and the remaining lemmas read the properties of
    `ParseRequest` off the declarative form. */
module RequestSpec {
  import opened Results
  import opened GoStrings
  import opened Tokens
  import opened Request

  /** The tokens a keyword at `k` governs: up to the next boundary. */
  function Phrase(tokens: seq<string>, k: nat): seq<string>
    requires k < |tokens|
  {
    tokens[k + 1..NextBoundary(tokens, k)]
  }

  /** Whether the location check passes: no `in`, or a non-empty `in`
      phrase. */
  predicate HasLocation(tokens: seq<string>) {
    var k := LastIndex(tokens, InWord);
    k < 0 || NextBoundary(tokens, k) > k + 1
  }

  /** The location: empty without an `in`, the joined `in` phrase
      otherwise, and an error when that phrase is empty. */
  function SpecLocation(tokens: seq<string>): Result<string>
  {
    var k := LastIndex(tokens, InWord);
    if !HasLocation(tokens) then Err(NoLocation)
    else if k < 0 then Ok("")
    else Ok(Join(Phrase(tokens, k), " "))
  }

  /** The radius: 0 without a `within`, the distance of the `within`
      phrase otherwise. */
  function SpecWithin(tokens: seq<string>): Result<int>
  {
    var k := LastIndex(tokens, WithinWord);
    if k < 0 then Ok(0) else WithinDistance(Phrase(tokens, k))
  }

  /** The reference parser over the token list; the location is checked
      before the radius. */
  function SpecParse(tokens: seq<string>): Result<SearchRequest>
  {
    var location :- SpecLocation(tokens);
    var within :- SpecWithin(tokens);
    Ok(SearchRequest(
      Join(TermTokens(tokens), " "),
      location,
      LastIndex(tokens, OpenWord) >= 0,
      PriceLevels(tokens),
      within))
  }

  /** The sorted boundary list holds, among the non-negative numbers,
      exactly the boundary positions. */
  lemma BoundaryMembership(tokens: seq<string>)
    ensures var indices := Boundaries(Classify(tokens, |tokens|), |tokens|);
      forall x :: 0 <= x ==> (x in indices <==> IsBoundary(tokens, x))
  {
    var s := Classify(tokens, |tokens|);
    ScanBoundaries(tokens, s, Boundaries(s, |tokens|));
  }

  /** The same, for any loop state that records the last keywords and all
      price positions, and any list with the same entries as the one the
      parser sorts. */
  lemma ScanBoundaries(tokens: seq<string>, s: Scan, indices: seq<int>)
    requires s.inIndex == LastIndex(tokens, InWord)
    requires s.withinIndex == LastIndex(tokens, WithinWord)
    requires s.openIndex == LastIndex(tokens, OpenWord)
    requires forall j {:trigger j in s.priceIndices} {:trigger IsPriceToken(tokens[j])} ::
      j in s.priceIndices <==> 0 <= j < |tokens| && IsPriceToken(tokens[j])
    requires multiset(indices) == multiset(s.priceIndices + [s.inIndex, s.withinIndex, s.openIndex, |tokens|])
    ensures forall x :: 0 <= x ==> (x in indices <==> IsBoundary(tokens, x))
  {
    var input := s.priceIndices + [s.inIndex, s.withinIndex, s.openIndex, |tokens|];
    forall x | 0 <= x
      ensures x in indices <==> IsBoundary(tokens, x)
    {
      assert x in indices <==> x in multiset(indices);
      assert x in input <==> x in multiset(input);
      AppendFour(s.priceIndices, s.inIndex, s.withinIndex, s.openIndex, |tokens|, x);
    }
  }

  lemma AppendFour(prefix: seq<int>, a: int, b: int, c: int, d: int, x: int)
    ensures x in prefix + [a, b, c, d] <==> x in prefix || x == a || x == b || x == c || x == d
  {
    var tail := [a, b, c, d];
    assert x in prefix + tail <==> x in prefix || x in tail;
  }

  /** Cutting at the next entry of the boundary list is cutting at the next
      boundary position. */
  lemma PhraseAtNextBoundary(tokens: seq<string>, indices: seq<int>, k: nat)
    requires PhraseBoundaries(indices, k, |tokens|)
    requires forall x :: 0 <= x ==> (x in indices <==> IsBoundary(tokens, x))
    ensures PhraseAt(tokens, indices, k) ==
      if k == |tokens| - 1 then None else Some(Phrase(tokens, k))
  {
    var r := PhraseAt(tokens, indices, k);
    if r.Some? {
      var e := k + 1 + |r.value|;
      var b := NextBoundary(tokens, k);
      assert IsBoundary(tokens, e);
      assert b in indices;
      assert e == b;
    }
  }

  /** The location the parser cuts out at the `in` position `k` is the `in`
      phrase, and it fails exactly when that phrase is empty. */
  lemma LocationMatches(tokens: seq<string>, indices: seq<int>, k: int)
    requires k == LastIndex(tokens, InWord)
    requires k >= 0 ==> PhraseBoundaries(indices, k, |tokens|)
    requires forall x :: 0 <= x ==> (x in indices <==> IsBoundary(tokens, x))
    ensures var r := LocationTokens(tokens, indices, k);
      && (r.Ok? <==> SpecLocation(tokens).Ok?)
      && (r.Err? ==> r.error == SpecLocation(tokens).error)
      && (r.Ok? ==> Join(r.value, " ") == SpecLocation(tokens).value)
  {
    if k >= 0 {
      PhraseAtNextBoundary(tokens, indices, k);
    }
  }

  /** The radius the parser reads at the `within` position `k` is the
      distance of the `within` phrase. */
  lemma RadiusMatches(tokens: seq<string>, indices: seq<int>, k: int)
    requires k == LastIndex(tokens, WithinWord)
    requires k >= 0 ==> PhraseBoundaries(indices, k, |tokens|)
    requires forall x :: 0 <= x ==> (x in indices <==> IsBoundary(tokens, x))
    ensures WithinRadius(tokens, indices, k) == SpecWithin(tokens)
  {
    if k >= 0 {
      PhraseAtNextBoundary(tokens, indices, k);
    }
  }

  /** Without keywords, the reference result is the joined tokens as the
      term and nothing else. */
  lemma TextOnly(tokens: seq<string>)
    requires forall i {:trigger IsKeyword(tokens[i])} :: 0 <= i < |tokens| ==> !IsKeyword(tokens[i])
    ensures SpecParse(tokens) == Ok(SearchRequest(Join(tokens, " "), "", false, [], 0))
  {
    NoLastKeyword(tokens, InWord);
    NoLastKeyword(tokens, WithinWord);
    NoLastKeyword(tokens, OpenWord);
    TextIsTerm(tokens);
    TextHasNoPrices(tokens);
    NoKeywordFields(tokens);
  }

  lemma NoKeywordFields(tokens: seq<string>)
    requires LastIndex(tokens, InWord) == -1
    requires LastIndex(tokens, WithinWord) == -1
    requires LastIndex(tokens, OpenWord) == -1
    requires TermTokens(tokens) == tokens
    requires PriceLevels(tokens) == []
    ensures SpecParse(tokens) == Ok(SearchRequest(Join(tokens, " "), "", false, [], 0))
  {
  }

  /** A message whose only keyword is one `within`, at `w`: the free text
      in front of it is the term, nothing else is set, and the radius or the
      error is that of the tokens after it. */
  lemma WithinClause(tokens: seq<string>, w: nat)
    requires w < |tokens| && KindOf(tokens[w]) == WithinWord
    requires forall j {:trigger IsKeyword(tokens[j])} :: 0 <= j < |tokens| && j != w ==> !IsKeyword(tokens[j])
    ensures SpecParse(tokens) ==
      match WithinDistance(tokens[w + 1..])
      case Ok(d) => Ok(SearchRequest(Join(tokens[..w], " "), "", false, [], d))
      case Err(e) => Err(e)
  {
    ClauseKeywords(tokens, w);
    NoPriceLevels(tokens, |tokens|);
    PlainTokensKeepsText(tokens, w);
    ClauseFields(tokens, w, tokens[..w], tokens[w + 1..]);
  }

  /** The reference result from the clause's keyword positions, term and
      prices. */
  lemma ClauseFields(tokens: seq<string>, w: nat, words: seq<string>, phrase: seq<string>)
    requires w < |tokens|
    requires LastIndex(tokens, InWord) == -1 && LastIndex(tokens, OpenWord) == -1
    requires LastIndex(tokens, WithinWord) == w
    requires Phrase(tokens, w) == phrase
    requires FirstStop(tokens) == w && PlainTokens(tokens, w) == words
    requires PriceLevels(tokens) == []
    ensures SpecParse(tokens) ==
      match WithinDistance(phrase)
      case Ok(d) => Ok(SearchRequest(Join(words, " "), "", false, [], d))
      case Err(e) => Err(e)
  {
  }

  /** The keyword positions of a token list whose only keyword is the
      `within` at `w`. */
  lemma ClauseKeywords(tokens: seq<string>, w: nat)
    requires w < |tokens| && KindOf(tokens[w]) == WithinWord
    requires forall j {:trigger IsKeyword(tokens[j])} :: 0 <= j < |tokens| && j != w ==> !IsKeyword(tokens[j])
    ensures LastIndex(tokens, InWord) == -1
    ensures LastIndex(tokens, OpenWord) == -1
    ensures LastIndex(tokens, WithinWord) == w
    ensures NextBoundary(tokens, w) == |tokens|
    ensures FirstStop(tokens) == w
    ensures forall j {:trigger IsPriceToken(tokens[j])} :: 0 <= j < |tokens| ==> !IsPriceToken(tokens[j])
  {
    forall j | 0 <= j < |tokens| && j != w
      ensures KindOf(tokens[j]) == Text
    {
      assert !IsKeyword(tokens[j]);
    }
    var c := LastIndex(tokens, WithinWord);
    assert KindOf(tokens[c]) == WithinWord;
    assert OpensPhrase(tokens[w]);
    forall j | 0 <= j < |tokens|
      ensures !IsPriceToken(tokens[j])
    {
      assert KindOf(tokens[j]) != Price;
    }
  }

  /** The parser computes the reference result on every token list. */
  lemma ParseTokensMatchesSpec(tokens: seq<string>)
    ensures ParseTokens(tokens) == SpecParse(tokens)
  {
    var s := Classify(tokens, |tokens|);
    var indices := Boundaries(s, |tokens|);
    ClassifyTerm(tokens, |tokens|);
    BoundariesFit(tokens);
    BoundaryMembership(tokens);
    LocationMatches(tokens, indices, s.inIndex);
    RadiusMatches(tokens, indices, s.withinIndex);
    var location := LocationTokens(tokens, indices, s.inIndex);
    var radius := WithinRadius(tokens, indices, s.withinIndex);
    assert ParseTokens(tokens) ==
      if location.Err? then Err(location.error)
      else if radius.Err? then Err(radius.error)
      else Ok(SearchRequest(Join(s.termTokens, " "), Join(location.value, " "), s.openIndex >= 0,
                            s.priceLevels, radius.value));
  }
}
