/** Cases from the repository's tests, proved about the model: the
    conversions of pkg/convert/convert_test.go and the whole `within`
    messages of pkg/yelp/request_test.go. */
module RequestExamples {
  import opened Results
  import opened GoStrings
  import opened GoStrconv
  import opened Tokens
  import opened WithinPattern
  import opened Request
  import opened RequestProperties
  import Convert

  /** Each accepted spelling converts at its unit's length. */
  lemma Conversions()
    ensures Convert.ToMeters(25.0, "miles") == Ok(40233.6)
    ensures Convert.ToMeters(10.0, "miles") == Ok(16093.44)
    ensures Convert.ToMeters(15.0, "mi") == Ok(24140.16)
    ensures Convert.ToMeters(25.0, "km") == Ok(25000.0)
    ensures Convert.ToMeters(25.0, "kilometer") == Ok(25000.0)
    ensures Convert.ToMeters(25.0, "kilometre") == Ok(25000.0)
    ensures Convert.ToMeters(10.0, "kilometers") == Ok(10000.0)
    ensures Convert.ToMeters(15.0, "kilometres") == Ok(15000.0)
    ensures Convert.ToMeters(25.0, "m") == Ok(25.0)
    ensures Convert.ToMeters(25.0, "meter") == Ok(25.0)
    ensures Convert.ToMeters(25.0, "metre") == Ok(25.0)
    ensures Convert.ToMeters(10.0, "meters") == Ok(10.0)
    ensures Convert.ToMeters(15.0, "metres") == Ok(15.0)
  {
  }

  /** The phrase `10 mi` is 16093 metres: 16093.44 truncated. */
  lemma TenMiles()
    ensures WithinDistance(["10", "mi"]) == Ok(16093)
  {
    assert ParseFloat("10") == Some(10.0);
    assert Lower("mi") == "mi";
    assert Convert.ToMeters(10.0, "mi") == Ok(16093.44);
    assert Truncate(16093.44) == 16093;
  }

  /** The phrase `10 MI`: the unit is lowercased before the lookup. */
  lemma TenMilesUpperCase()
    ensures WithinDistance(["10", "MI"]) == Ok(16093)
  {
    TenMiles();
    assert Lower("MI") == "mi" == Lower("mi");
  }

  /** The phrase `1500`: a bare number is metres. */
  lemma BareNumber()
    ensures WithinDistance(["1500"]) == Ok(1500)
  {
    assert NatToDecimal(1500) == "1500";
  }

  /** The phrase `distance`: no digits, so no distance. */
  lemma NotADistance()
    ensures WithinDistance(["distance"]) == Err(InvalidWithinValue)
  {
    var t := "distance";
    assert forall j :: 0 <= j < |t| ==> !IsDigit(t[j]);
  }

  /** request_test.go, "with within only with space between length and unit". */
  lemma WithinSpaced()
    ensures ParseRequest("within 10 mi") == Ok(SearchRequest("", "", false, [], 16093))
  {
    var tokens := WithinSpacedFacts();
    WithinMessage(tokens, 0);
  }

  /** The words of that message. */
  lemma WithinSpacedWords() returns (tokens: seq<string>)
    ensures WithinOnly(tokens, 0)
    ensures tokens[1..] == ["10", "mi"]
    ensures tokens[..0] == []
    ensures Join(tokens, " ") == "within 10 mi"
  {
    tokens := ["within", "10", "mi"];
    assert LowersTo("within", "within");
    TextByInitial("10");
    TextByInitial("mi");
  }

  /** What the parse of that message needs to know of its words. */
  lemma WithinSpacedFacts() returns (tokens: seq<string>)
    ensures WithinOnly(tokens, 0)
    ensures Join(tokens, " ") == "within 10 mi"
    ensures WithinDistance(tokens[1..]) == Ok(16093)
    ensures Join(tokens[..0], " ") == ""
  {
    tokens := WithinSpacedWords();
    TenMiles();
  }

  /** request_test.go, "with within that has capital units". */
  lemma WithinCapitalUnits()
    ensures ParseRequest("within 10 MI") == Ok(SearchRequest("", "", false, [], 16093))
  {
    var tokens := WithinCapitalUnitsFacts();
    WithinMessage(tokens, 0);
  }

  /** The words of that message. */
  lemma WithinCapitalUnitsWords() returns (tokens: seq<string>)
    ensures WithinOnly(tokens, 0)
    ensures tokens[1..] == ["10", "MI"]
    ensures tokens[..0] == []
    ensures Join(tokens, " ") == "within 10 MI"
  {
    tokens := ["within", "10", "MI"];
    assert LowersTo("within", "within");
    TextByInitial("10");
    TextByInitial("MI");
  }

  /** What the parse of that message needs to know of its words. */
  lemma WithinCapitalUnitsFacts() returns (tokens: seq<string>)
    ensures WithinOnly(tokens, 0)
    ensures Join(tokens, " ") == "within 10 MI"
    ensures WithinDistance(tokens[1..]) == Ok(16093)
    ensures Join(tokens[..0], " ") == ""
  {
    tokens := WithinCapitalUnitsWords();
    TenMilesUpperCase();
  }

  /** request_test.go, "with within that has capital units no space". */
  lemma WithinCapitalNoSpace()
    ensures ParseRequest("within 10MI") == Ok(SearchRequest("", "", false, [], 16093))
  {
    var tokens := WithinCapitalNoSpaceFacts();
    WithinMessage(tokens, 0);
  }

  /** The words of that message. */
  lemma WithinCapitalNoSpaceWords() returns (tokens: seq<string>)
    ensures WithinOnly(tokens, 0)
    ensures tokens[1..] == ["10MI"]
    ensures tokens[..0] == []
    ensures Join(tokens, " ") == "within 10MI"
  {
    tokens := ["within", "10MI"];
    assert LowersTo("within", "within");
    TextByInitial("10MI");
  }

  /** What the parse of that message needs to know of its words. */
  lemma WithinCapitalNoSpaceFacts() returns (tokens: seq<string>)
    ensures WithinOnly(tokens, 0)
    ensures Join(tokens, " ") == "within 10MI"
    ensures WithinDistance(tokens[1..]) == Ok(16093)
    ensures Join(tokens[..0], " ") == ""
  {
    tokens := WithinCapitalNoSpaceWords();
    TenMilesJoined();
  }

  /** request_test.go, "with within only with no space between length and unit". */
  lemma WithinNoSpace()
    ensures ParseRequest("within 1000m") == Ok(SearchRequest("", "", false, [], 1000))
  {
    var tokens := WithinNoSpaceFacts();
    WithinMessage(tokens, 0);
  }

  /** The words of that message. */
  lemma WithinNoSpaceWords() returns (tokens: seq<string>)
    ensures WithinOnly(tokens, 0)
    ensures tokens[1..] == ["1000m"]
    ensures tokens[..0] == []
    ensures Join(tokens, " ") == "within 1000m"
  {
    tokens := ["within", "1000m"];
    assert LowersTo("within", "within");
    TextByInitial("1000m");
  }

  /** What the parse of that message needs to know of its words. */
  lemma WithinNoSpaceFacts() returns (tokens: seq<string>)
    ensures WithinOnly(tokens, 0)
    ensures Join(tokens, " ") == "within 1000m"
    ensures WithinDistance(tokens[1..]) == Ok(1000)
    ensures Join(tokens[..0], " ") == ""
  {
    tokens := WithinNoSpaceWords();
    ThousandMetresJoined();
  }

  /** request_test.go, "with within only with value". */
  lemma WithinValueOnly()
    ensures ParseRequest("within 1500") == Ok(SearchRequest("", "", false, [], 1500))
  {
    var tokens := WithinValueOnlyFacts();
    WithinMessage(tokens, 0);
  }

  /** The words of that message. */
  lemma WithinValueOnlyWords() returns (tokens: seq<string>)
    ensures WithinOnly(tokens, 0)
    ensures tokens[1..] == ["1500"]
    ensures tokens[..0] == []
    ensures Join(tokens, " ") == "within 1500"
  {
    tokens := ["within", "1500"];
    assert LowersTo("within", "within");
    TextByInitial("1500");
  }

  /** What the parse of that message needs to know of its words. */
  lemma WithinValueOnlyFacts() returns (tokens: seq<string>)
    ensures WithinOnly(tokens, 0)
    ensures Join(tokens, " ") == "within 1500"
    ensures WithinDistance(tokens[1..]) == Ok(1500)
    ensures Join(tokens[..0], " ") == ""
  {
    tokens := WithinValueOnlyWords();
    BareNumber();
  }

  /** request_test.go, "with invalid within value". */
  lemma WithinInvalidValue()
    ensures ParseRequest("within distance") == Err("invalid value provided for within distance")
  {
    var tokens := WithinInvalidValueFacts();
    WithinMessage(tokens, 0);
  }

  /** The words of that message. */
  lemma WithinInvalidValueWords() returns (tokens: seq<string>)
    ensures WithinOnly(tokens, 0)
    ensures tokens[1..] == ["distance"]
    ensures Join(tokens, " ") == "within distance"
  {
    tokens := ["within", "distance"];
    assert LowersTo("within", "within");
    TextByInitial("distance");
  }

  /** What the parse of that message needs to know of its words. */
  lemma WithinInvalidValueFacts() returns (tokens: seq<string>)
    ensures WithinOnly(tokens, 0)
    ensures Join(tokens, " ") == "within distance"
    ensures WithinDistance(tokens[1..]) == Err("invalid value provided for within distance")
  {
    tokens := WithinInvalidValueWords();
    NotADistance();
  }

  /** request_test.go, "with within provided without value at end of query". */
  lemma WithinWithoutValue()
    ensures ParseRequest("dinner within") == Err("invalid within options provided")
  {
    var tokens := WithinWithoutValueFacts();
    WithinMessage(tokens, 1);
  }

  /** The words of that message. */
  lemma WithinWithoutValueWords() returns (tokens: seq<string>)
    ensures WithinOnly(tokens, 1)
    ensures tokens[2..] == []
    ensures Join(tokens, " ") == "dinner within"
  {
    tokens := ["dinner", "within"];
    assert LowersTo("within", "within");
    TextByInitial("dinner");
  }

  /** What the parse of that message needs to know of its words. */
  lemma WithinWithoutValueFacts() returns (tokens: seq<string>)
    ensures WithinOnly(tokens, 1)
    ensures Join(tokens, " ") == "dinner within"
    ensures WithinDistance(tokens[2..]) == Err("invalid within options provided")
  {
    tokens := WithinWithoutValueWords();
  }

  /** `10MI`: digits and unit in one token read as `10 MI`. */
  lemma TenMilesJoined()
    ensures WithinDistance(["10MI"]) == Ok(16093)
  {
    assert NatToDecimal(10) == "10";
    WithinUnitSpacing(10, "MI");
    assert "10" + "MI" == "10MI";
    TenMilesUpperCase();
  }

  /** `1000m`: a thousand metres. */
  lemma ThousandMetresJoined()
    ensures WithinDistance(["1000m"]) == Ok(1000)
  {
    NumberThenUnit("1000", "m");
    assert "1000" + "m" == "1000m";
    assert "1000"[..3] == "100" && "100"[..2] == "10" && "10"[..1] == "1";
    assert DigitsValue("10") == 10;
    assert DigitsValue("1000") == 1000;
    LowerUnchanged("m");
    assert Convert.ToMeters(1000.0, "m") == Ok(1000.0);
    assert Truncate(1000.0) == 1000;
  }
}
