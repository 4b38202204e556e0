/** What `ParseRequest` promises about each field of the request and about
    its errors, read off the reference parser. */
module RequestProperties {
  import opened Results
  import opened GoStrings
  import opened GoStrconv
  import opened WithinPattern
  import opened Tokens
  import opened Request
  import opened RequestSpec
  import Convert

  /** `ParseRequest` is the reference parser applied to the space-separated
      tokens. */
  lemma ParseRequestSpec(body: string)
    ensures ParseRequest(body) == SpecParse(Split(body, ' '))
  {
    ParseTokensMatchesSpec(Split(body, ' '));
  }

  /** The location check: the request fails with "no location provided"
      exactly when the last `in` opens an empty phrase — whatever the
      `within` phrase holds, since the location is checked first. On
      success the location is the `in` phrase joined with spaces, and empty
      when there is no `in`. */
  lemma LocationOutcome(body: string)
    ensures var tokens := Split(body, ' ');
      var r := ParseRequest(body);
      var k := LastIndex(tokens, InWord);
      && (r == Err(NoLocation) <==> !HasLocation(tokens))
      && (r.Ok? && k < 0 ==> r.value.location == "")
      && (r.Ok? && k >= 0 ==>
            |Phrase(tokens, k)| > 0 && r.value.location == Join(Phrase(tokens, k), " "))
  {
    ParseRequestSpec(body);
    LocationFirst(Split(body, ' '));
  }

  /** The reference parser's location outcome. */
  lemma LocationFirst(tokens: seq<string>)
    ensures var r := SpecParse(tokens);
      var k := LastIndex(tokens, InWord);
      && (r == Err(NoLocation) <==> !HasLocation(tokens))
      && (r.Ok? && k < 0 ==> r.value.location == "")
      && (r.Ok? && k >= 0 ==>
            |Phrase(tokens, k)| > 0 && r.value.location == Join(Phrase(tokens, k), " "))
  {
    var d := SpecWithin(tokens);
    if d.Err? {
      assert |NoLocation| < |Convert.UnknownUnit|;
      assert d.error != NoLocation;
    }
  }

  /** The distance check: once the location is present, the request
      succeeds exactly when there is no `within` or its phrase denotes a
      distance; the radius is that distance (0 without `within`) and a
      failure carries the distance's error. */
  lemma WithinOutcome(body: string)
    ensures var tokens := Split(body, ' ');
      var r := ParseRequest(body);
      var w := LastIndex(tokens, WithinWord);
      && (HasLocation(tokens) && w < 0 ==> r.Ok? && r.value.within == 0)
      && (HasLocation(tokens) && w >= 0 ==>
            var d := WithinDistance(Phrase(tokens, w));
            && (r.Ok? <==> d.Ok?)
            && (r.Ok? ==> r.value.within == d.value)
            && (r.Err? ==> r.error == d.error))
  {
    ParseRequestSpec(body);
  }

  /** `open` anywhere in the message, in any letter case, asks for
      businesses open now. */
  lemma OpenNowOutcome(body: string)
    ensures var tokens := Split(body, ' ');
      var r := ParseRequest(body);
      r.Ok? ==> (r.value.openNow <==> exists i {:trigger Lower(tokens[i])} :: 0 <= i < |tokens| && Lower(tokens[i]) == "open")
  {
    ParseRequestSpec(body);
    OpenAnywhere(Split(body, ' '));
  }

  /** Some token lowercases to `open` exactly when there is a last one. */
  lemma OpenAnywhere(tokens: seq<string>)
    ensures LastIndex(tokens, OpenWord) >= 0 <==>
      exists i {:trigger Lower(tokens[i])} :: 0 <= i < |tokens| && Lower(tokens[i]) == "open"
  {
    var k := LastIndex(tokens, OpenWord);
    if k >= 0 {
      KindOfWord(tokens[k]);
    }
    forall i | 0 <= i < |tokens| && Lower(tokens[i]) == "open"
      ensures k >= i
    {
      KindOfWord(tokens[i]);
    }
  }

  /** The term is the free text before the first `in` or `within`, and the
      price list has one code per price token anywhere in the message, in
      order. */
  lemma TermAndPriceOutcome(body: string)
    ensures var tokens := Split(body, ' ');
      var r := ParseRequest(body);
      r.Ok? ==>
        && r.value.term == Join(PlainTokens(tokens, FirstStop(tokens)), " ")
        && r.value.price == PriceLevels(tokens)
        && (forall i :: 0 <= i < |r.value.price| ==> r.value.price[i] in {"1", "2", "3", "4"})
  {
    ParseRequestSpec(body);
    PriceCodes(Split(body, ' '), |Split(body, ' ')|);
  }

  /** A message without keywords is all search term: the term is the
      message itself, and nothing else is set. */
  lemma PlainMessage(body: string)
    requires forall i {:trigger IsKeyword(Split(body, ' ')[i])} :: 0 <= i < |Split(body, ' ')| ==> !IsKeyword(Split(body, ' ')[i])
    ensures ParseRequest(body) == Ok(SearchRequest(body, "", false, [], 0))
  {
    ParseRequestSpec(body);
    TextOnly(Split(body, ' '));
    JoinSplit(body, ' ');
  }

  /** The words of a message, split on spaces, whose only keyword is one
      `within`, at `w`. */
  predicate WithinOnly(tokens: seq<string>, w: nat) {
    && w < |tokens| && KindOf(tokens[w]) == WithinWord
    && (forall j {:trigger IsKeyword(tokens[j])} :: 0 <= j < |tokens| && j != w ==> !IsKeyword(tokens[j]))
    && (forall j :: 0 <= j < |tokens| ==> ' ' !in tokens[j])
  }

  /** A message whose only keyword is one `within`: the words in front of
      it are the term, and the words after it give the radius or the
      error. */
  lemma WithinMessage(tokens: seq<string>, w: nat)
    requires WithinOnly(tokens, w)
    ensures ParseRequest(Join(tokens, " ")) ==
      match WithinDistance(tokens[w + 1..])
      case Ok(d) => Ok(SearchRequest(Join(tokens[..w], " "), "", false, [], d))
      case Err(e) => Err(e)
  {
    SplitJoin(tokens, ' ');
    ParseRequestSpec(Join(tokens, " "));
    WithinClause(tokens, w);
  }

  /** `within 10mi` and `within 10 mi` mean the same: a whole number
      followed by a unit reads the same in one token as in two. */
  lemma WithinUnitSpacing(v: nat, unit: string)
    requires |unit| > 0 && AllWordChars(unit) && !IsDigit(unit[0])
    ensures WithinDistance([NatToDecimal(v) + unit]) == WithinDistance([NatToDecimal(v), unit])
  {
    NumberThenUnit(NatToDecimal(v), unit);
    ParseFloatOfDecimal(v);
  }

  /** A whole number with a unit: a known unit gives at least the number
      of metres, an unknown one the converter's error naming the lowercased
      unit. */
  lemma WithinNumberAndUnit(v: nat, unit: string)
    ensures var d := WithinDistance([NatToDecimal(v), unit]);
      && (Lower(unit) in Convert.UnitTable ==> d.Ok? && d.value >= v)
      && (Lower(unit) !in Convert.UnitTable ==> d == Err(Convert.UnknownUnit + Quote(Lower(unit))))
  {
    ParseFloatOfDecimal(v);
    var d := WithinDistance([NatToDecimal(v), unit]);
    if Lower(unit) in Convert.UnitTable {
      var m := Convert.ToMeters(v as real, Lower(unit));
      Convert.ToMetersAwayFromZero(v as real, Lower(unit));
      assert d == Ok(Truncate(m.value));
    }
  }
}
