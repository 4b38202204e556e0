/** Vocabulary of the query language, stated over the whole token list
    rather than the parser's single pass: which tokens are keywords, where
    the last `in`, `open` and `within` sit, which positions end a phrase,
    and which tokens make the search term and the price levels. */
module Tokens {
  import opened GoStrings
  import opened GoStrconv

  predicate IsPriceWord(w: string) {
    w == "$" || w == "$$" || w == "$$$" || w == "$$$$"
  }

  /** How the parser reads a token, judged on its lowercased text. */
  datatype Kind = InWord | OpenWord | WithinWord | Price | Text

  /** The classifying `switch` on the lowercased token: the first case
      label it equals decides the kind; a token no label matches is free
      text. */
  function KindOf(t: string): Kind
  {
    if LowersTo(t, "in") then InWord
    else if LowersTo(t, "open") then OpenWord
    else if LowersTo(t, "within") then WithinWord
    else if LowersTo(t, "$") || LowersTo(t, "$$") || LowersTo(t, "$$$") || LowersTo(t, "$$$$") then Price
    else Text
  }

  /** The `switch` read on the lowercased token itself. */
  lemma KindOfWord(t: string)
    ensures KindOf(t) == InWord <==> Lower(t) == "in"
    ensures KindOf(t) == OpenWord <==> Lower(t) == "open"
    ensures KindOf(t) == WithinWord <==> Lower(t) == "within"
    ensures KindOf(t) == Price <==> IsPriceWord(Lower(t))
  {
    LowersToLower(t, "in");
    LowersToLower(t, "open");
    LowersToLower(t, "within");
    LowersToLower(t, "$");
    LowersToLower(t, "$$");
    LowersToLower(t, "$$$");
    LowersToLower(t, "$$$$");
  }

  /** A token that lowercases to one to four dollar signs. */
  predicate IsPriceToken(t: string) {
    KindOf(t) == Price
  }

  /** A token the parser treats as a keyword rather than as free text. */
  predicate IsKeyword(t: string) {
    KindOf(t) != Text
  }

  /** A token that ends the search term: `in` or `within`. */
  predicate OpensPhrase(t: string) {
    KindOf(t) == InWord || KindOf(t) == WithinWord
  }

  /** No keyword starts with anything but `i`, `o`, `w` or `$`, in either
      case. */
  lemma TextByInitial(t: string)
    requires |t| > 0
    requires LowerChar(t[0]) != 'i' && LowerChar(t[0]) != 'o' && LowerChar(t[0]) != 'w' && LowerChar(t[0]) != '$'
    ensures KindOf(t) == Text
  {
  }

  /** Position of the last token of kind `kind` among the first `n`, or -1. */
  function LastBefore(ts: seq<string>, kind: Kind, n: nat): (k: int)
    requires n <= |ts|
    ensures -1 <= k < n
    ensures k >= 0 ==> KindOf(ts[k]) == kind
    ensures forall j {:trigger KindOf(ts[j])} :: k < j < n ==> KindOf(ts[j]) != kind
  {
    if n == 0 then -1
    else if KindOf(ts[n - 1]) == kind then n - 1
    else LastBefore(ts, kind, n - 1)
  }

  /** Position of the last token of kind `kind`, or -1. */
  function LastIndex(ts: seq<string>, kind: Kind): int
  {
    LastBefore(ts, kind, |ts|)
  }

  function FirstStopFrom(ts: seq<string>, i: nat): (k: nat)
    requires i <= |ts|
    ensures i <= k <= |ts|
    ensures k < |ts| ==> OpensPhrase(ts[k])
    ensures forall j {:trigger OpensPhrase(ts[j])} :: i <= j < k ==> !OpensPhrase(ts[j])
    decreases |ts| - i
  {
    if i == |ts| || OpensPhrase(ts[i]) then i else FirstStopFrom(ts, i + 1)
  }

  /** Position of the first `in` or `within`, or `|ts|` when neither occurs. */
  function FirstStop(ts: seq<string>): (k: nat)
    ensures k <= |ts|
    ensures k < |ts| ==> OpensPhrase(ts[k])
    ensures forall j {:trigger OpensPhrase(ts[j])} :: 0 <= j < k ==> !OpensPhrase(ts[j])
  {
    FirstStopFrom(ts, 0)
  }

  /** The first `n` tokens that are not keywords, in their original order. */
  function PlainTokens(ts: seq<string>, n: nat): (r: seq<string>)
    requires n <= |ts|
    ensures |r| <= n
    ensures forall i {:trigger IsKeyword(r[i])} :: 0 <= i < |r| ==> !IsKeyword(r[i])
  {
    if n == 0 then []
    else PlainTokens(ts, n - 1) + (if IsKeyword(ts[n - 1]) then [] else [ts[n - 1]])
  }

  /** The search term's tokens: the free-text tokens in front of the first
      `in` or `within`. */
  function TermTokens(ts: seq<string>): seq<string>
  {
    PlainTokens(ts, FirstStop(ts))
  }

  /** The price code of a price token: its number of dollar signs. */
  function PriceLevel(t: string): (code: string)
    ensures IsPriceToken(t) ==> code == NatToDecimal(|t|)
    ensures IsPriceToken(t) ==> code in {"1", "2", "3", "4"}
  {
    DollarCount(t);
    NatToDecimal(CountChar(t, '$'))
  }

  /** A token lowercasing to dollar signs is made of one to four of them. */
  lemma DollarCount(t: string)
    ensures IsPriceToken(t) ==> 1 <= |t| <= 4 && CountChar(t, '$') == |t|
  {
    if IsPriceToken(t) {
      KindOfWord(t);
      DollarsOnly(t, Lower(t));
      CountCharOnly(t, '$');
    }
  }

  /** A token whose lowercase form is one to four dollar signs is that
      form already. */
  lemma DollarsOnly(t: string, w: string)
    requires w == Lower(t) && IsPriceWord(w)
    ensures 1 <= |t| <= 4
    ensures forall i :: 0 <= i < |t| ==> t[i] == '$'
  {
    assert forall i :: 0 <= i < |w| ==> w[i] == '$';
    forall i | 0 <= i < |t|
      ensures t[i] == '$'
    {
      assert LowerChar(t[i]) == w[i];
    }
  }

  /** One price code per price token among the first `n`, in order of
      appearance. */
  function PriceLevelsBefore(ts: seq<string>, n: nat): (r: seq<string>)
    requires n <= |ts|
    ensures |r| <= n
  {
    if n == 0 then []
    else PriceLevelsBefore(ts, n - 1) + (if IsPriceToken(ts[n - 1]) then [PriceLevel(ts[n - 1])] else [])
  }

  /** Every price code is one of "1" to "4". */
  lemma {:induction false} PriceCodes(ts: seq<string>, n: nat)
    requires n <= |ts|
    ensures forall i :: 0 <= i < |PriceLevelsBefore(ts, n)| ==> PriceLevelsBefore(ts, n)[i] in {"1", "2", "3", "4"}
  {
    if n > 0 {
      PriceCodes(ts, n - 1);
    }
  }

  /** One price code per price token, in order of appearance. */
  function PriceLevels(ts: seq<string>): seq<string>
  {
    PriceLevelsBefore(ts, |ts|)
  }

  lemma {:induction false} PriceLevelsPrefix(a: seq<string>, b: seq<string>, k: nat)
    requires k <= |a|
    ensures PriceLevelsBefore(a + b, k) == PriceLevelsBefore(a, k)
  {
    if k > 0 {
      PriceLevelsPrefix(a, b, k - 1);
      assert (a + b)[k - 1] == a[k - 1];
    }
  }

  lemma {:induction false} PriceLevelsSuffix(a: seq<string>, b: seq<string>, m: nat)
    requires m <= |b|
    ensures PriceLevelsBefore(a + b, |a| + m) == PriceLevels(a) + PriceLevelsBefore(b, m)
  {
    if m == 0 {
      PriceLevelsPrefix(a, b, |a|);
    } else {
      PriceLevelsSuffix(a, b, m - 1);
      var t := b[m - 1];
      assert (a + b)[|a| + m - 1] == t;
      assert PriceLevelsBefore(a + b, |a| + m) == PriceLevelsBefore(a + b, |a| + m - 1) + (if IsPriceToken(t) then [PriceLevel(t)] else []);
      assert PriceLevelsBefore(b, m) == PriceLevelsBefore(b, m - 1) + (if IsPriceToken(t) then [PriceLevel(t)] else []);
    }
  }

  /** The price codes of a message are those of its parts, in order; a
      single token contributes its dollar count exactly when it is a price
      token. Together these determine the price list of every message. */
  lemma {:induction false} PriceLevelsAppend(a: seq<string>, b: seq<string>)
    ensures PriceLevels(a + b) == PriceLevels(a) + PriceLevels(b)
  {
    PriceLevelsSuffix(a, b, |b|);
  }

  lemma PriceLevelsSingle(t: string)
    ensures PriceLevels([t]) == if IsPriceToken(t) then [NatToDecimal(|t|)] else []
  {
  }

  lemma {:induction false} PlainTokensPrefix(a: seq<string>, b: seq<string>, k: nat)
    requires k <= |a|
    ensures PlainTokens(a + b, k) == PlainTokens(a, k)
  {
    if k > 0 {
      PlainTokensPrefix(a, b, k - 1);
      assert (a + b)[k - 1] == a[k - 1];
    }
  }

  lemma {:induction false} PlainTokensSuffix(a: seq<string>, b: seq<string>, m: nat)
    requires m <= |b|
    ensures PlainTokens(a + b, |a| + m) == PlainTokens(a, |a|) + PlainTokens(b, m)
  {
    if m == 0 {
      PlainTokensPrefix(a, b, |a|);
    } else {
      PlainTokensSuffix(a, b, m - 1);
      var t := b[m - 1];
      assert (a + b)[|a| + m - 1] == t;
      assert PlainTokens(a + b, |a| + m) == PlainTokens(a + b, |a| + m - 1) + (if IsKeyword(t) then [] else [t]);
      assert PlainTokens(b, m) == PlainTokens(b, m - 1) + (if IsKeyword(t) then [] else [t]);
    }
  }

  /** Dropping keywords distributes over concatenation. */
  lemma {:induction false} PlainTokensAppend(a: seq<string>, b: seq<string>)
    ensures PlainTokens(a + b, |a + b|) == PlainTokens(a, |a|) + PlainTokens(b, |b|)
  {
    PlainTokensSuffix(a, b, |b|);
  }

  /** Tokens of which none is a keyword are all kept. */
  lemma {:induction false} PlainTokensKeepsText(ts: seq<string>, n: nat)
    requires n <= |ts|
    requires forall i {:trigger IsKeyword(ts[i])} :: 0 <= i < n ==> !IsKeyword(ts[i])
    ensures PlainTokens(ts, n) == ts[..n]
  {
    if n > 0 {
      PlainTokensKeepsText(ts, n - 1);
      assert ts[..n] == ts[..n - 1] + [ts[n - 1]];
    }
  }

  /** Without keywords, no keyword kind has a last position. */
  lemma NoLastKeyword(ts: seq<string>, kind: Kind)
    requires kind != Text
    requires forall i {:trigger IsKeyword(ts[i])} :: 0 <= i < |ts| ==> !IsKeyword(ts[i])
    ensures LastIndex(ts, kind) == -1
  {
    var k := LastIndex(ts, kind);
    if k >= 0 {
      assert IsKeyword(ts[k]);
    }
  }

  /** A token list without keywords is its own term. */
  lemma TextIsTerm(ts: seq<string>)
    requires forall i {:trigger IsKeyword(ts[i])} :: 0 <= i < |ts| ==> !IsKeyword(ts[i])
    ensures TermTokens(ts) == ts
  {
    var f := FirstStop(ts);
    if f < |ts| {
      assert IsKeyword(ts[f]);
    }
    PlainTokensKeepsText(ts, |ts|);
    assert ts[..|ts|] == ts;
  }

  /** Without keywords there are no price codes. */
  lemma TextHasNoPrices(ts: seq<string>)
    requires forall i {:trigger IsKeyword(ts[i])} :: 0 <= i < |ts| ==> !IsKeyword(ts[i])
    ensures PriceLevels(ts) == []
  {
    forall i | 0 <= i < |ts|
      ensures !IsPriceToken(ts[i])
    {
      assert !IsKeyword(ts[i]);
    }
    NoPriceLevels(ts, |ts|);
  }

  /** Without price tokens there are no price codes. */
  lemma {:induction false} NoPriceLevels(ts: seq<string>, n: nat)
    requires n <= |ts|
    requires forall i {:trigger IsPriceToken(ts[i])} :: 0 <= i < n ==> !IsPriceToken(ts[i])
    ensures PriceLevelsBefore(ts, n) == []
  {
    if n > 0 {
      NoPriceLevels(ts, n - 1);
    }
  }

  /** Position `j` closes a phrase: it is the end of the token list, a price
      token, or the last `in`, `open` or `within`. */
  predicate IsBoundary(ts: seq<string>, j: int) {
    j == |ts| ||
    (0 <= j < |ts| &&
     (IsPriceToken(ts[j]) || j == LastIndex(ts, InWord) || j == LastIndex(ts, OpenWord) ||
      j == LastIndex(ts, WithinWord)))
  }

  function NextBoundaryFrom(ts: seq<string>, j: nat): (e: nat)
    requires j <= |ts|
    ensures j <= e <= |ts| && IsBoundary(ts, e)
    ensures forall i :: j <= i < e ==> !IsBoundary(ts, i)
    decreases |ts| - j
  {
    if IsBoundary(ts, j) then j else NextBoundaryFrom(ts, j + 1)
  }

  /** The first boundary after position `k`: the phrase a keyword at `k`
      opens is `ts[k + 1..NextBoundary(ts, k)]`. */
  function NextBoundary(ts: seq<string>, k: nat): (e: nat)
    requires k < |ts|
    ensures k < e <= |ts| && IsBoundary(ts, e)
    ensures forall i :: k < i < e ==> !IsBoundary(ts, i)
  {
    NextBoundaryFrom(ts, k + 1)
  }

  /** Whether an `in` or `within` occurs among the first `n` tokens is
      whether the term stops before `n`. */
  lemma StopSeen(ts: seq<string>, n: nat)
    requires n <= |ts|
    ensures LastBefore(ts, InWord, n) >= 0 || LastBefore(ts, WithinWord, n) >= 0 <==> FirstStop(ts) < n
  {
    var f := FirstStop(ts);
    if f < n {
      assert KindOf(ts[f]) == InWord || KindOf(ts[f]) == WithinWord;
    }
    var a := LastBefore(ts, InWord, n);
    var b := LastBefore(ts, WithinWord, n);
    if a >= 0 {
      assert OpensPhrase(ts[a]);
    }
    if b >= 0 {
      assert OpensPhrase(ts[b]);
    }
  }
}
