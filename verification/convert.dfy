/** pkg/convert: converting a distance in a named unit into metres. */
module Convert {
  import opened Results
  import opened GoStrings
  import opened GoStrconv

  const UnknownUnit := "unknown unit provided: "

  /** The three lengths the unit table refers to. */
  datatype LengthUnit = Mile | Kilometer | Meter

  /** Length of one unit, in metres. */
  function Meters(u: LengthUnit): (m: real)
    ensures m >= 1.0
  {
    match u
    case Mile => 1609.344
    case Kilometer => 1000.0
    case Meter => 1.0
  }

  /** `unitMap`: the accepted spellings, matched case-sensitively. */
  const UnitTable: map<string, LengthUnit> := map[
    "mi" := Mile,
    "mile" := Mile,
    "miles" := Mile,
    "km" := Kilometer,
    "kilometer" := Kilometer,
    "kilometers" := Kilometer,
    "kilometre" := Kilometer,
    "kilometres" := Kilometer,
    "m" := Meter,
    "meter" := Meter,
    "meters" := Meter,
    "metre" := Meter,
    "metres" := Meter
  ]

  /** `unitMap[name]` as a length in metres: Go's map lookup yields the zero
      length for a missing name. */
  function LookupLength(name: string): (length: real)
    ensures name in {"mi", "mile", "miles"} ==> length == 1609.344
    ensures name in {"km", "kilometer", "kilometers", "kilometre", "kilometres"} ==> length == 1000.0
    ensures name in {"m", "meter", "meters", "metre", "metres"} ==> length == 1.0
    ensures name in UnitTable ==> length >= 1.0
    ensures name !in UnitTable ==> length == 0.0
  {
    assert name in {"mi", "mile", "miles"} ==> name in UnitTable && UnitTable[name] == Mile;
    assert name in {"km", "kilometer", "kilometers", "kilometre", "kilometres"} ==>
      name in UnitTable && UnitTable[name] == Kilometer;
    assert name in {"m", "meter", "meters", "metre", "metres"} ==> name in UnitTable && UnitTable[name] == Meter;
    if name in UnitTable then Meters(UnitTable[name]) else 0.0
  }

  /** `ToMeters`: the value times the unit's length in metres, or an error
      naming the unit (quoted as `%#v` prints it) when the name is not one
      of the thirteen accepted spellings. */
  function ToMeters(value: real, name: string): (r: Result<real>)
    ensures r.Ok? <==> name in UnitTable
    ensures name in {"mi", "mile", "miles"} ==> r == Ok(value * 1609.344)
    ensures name in {"km", "kilometer", "kilometers", "kilometre", "kilometres"} ==> r == Ok(value * 1000.0)
    ensures name in {"m", "meter", "meters", "metre", "metres"} ==> r == Ok(value)
    ensures r.Err? ==> r.error == UnknownUnit + Quote(name)
  {
    var length := LookupLength(name);
    assert name in {"mi", "mile", "miles"} ==> length == 1609.344;
    assert name in {"km", "kilometer", "kilometers", "kilometre", "kilometres"} ==> length == 1000.0;
    assert name in {"m", "meter", "meters", "metre", "metres"} ==> length == 1.0;
    if length == 0.0 then Err(UnknownUnit + Quote(name))
    else Ok(value * length)
  }

  /** Every accepted unit is at least a metre long, so converting moves a
      value away from zero (or leaves it where it is). */
  lemma ToMetersAwayFromZero(value: real, name: string)
    requires name in UnitTable
    ensures var m := ToMeters(value, name).value;
      && (value >= 0.0 ==> m >= value)
      && (value <= 0.0 ==> m <= value)
  {
    var length := LookupLength(name);
    assert ToMeters(value, name).value == value * length;
    assert value * length == value + value * (length - 1.0);
  }

  /** The accepted names are exactly the thirteen spellings of the three
      units. */
  lemma AcceptedSpellings(name: string)
    ensures name in UnitTable <==>
      name in {"mi", "mile", "miles", "km", "kilometer", "kilometers", "kilometre", "kilometres",
               "m", "meter", "meters", "metre", "metres"}
  {
  }

  /** The lookup is case-sensitive and every accepted name is lower case,
      so a spelling with an upper-case letter is unknown. */
  lemma UpperCaseUnknown(value: real, name: string)
    requires exists i :: 0 <= i < |name| && IsUpper(name[i])
    ensures ToMeters(value, name) == Err(UnknownUnit + Quote(name))
  {
    if name in UnitTable {
      AcceptedSpellings(name);
      assert false;
    }
  }

  /** The empty name is unknown, and the error shows it as `""`. */
  lemma EmptyNameUnknown(value: real)
    ensures ToMeters(value, "") == Err("unknown unit provided: \"\"")
  {
    QuotePlain("");
  }
}
