/**
 * The license plate value type: a raw value bound to a country, rendered and
 * validated by that country's handler. Its contract is the one its unit test
 * asserts: a two-step builder that rejects a missing or blank value and a
 * missing country, rendering through the handler's normalize, a validity
 * verdict computed once and then remembered, and equality of renderings.
 */
module LicensePlates {
  import opened Wrappers
  import opened JavaText
  import French = FrenchLicensePlateHandler

  /**
   * The per-country strategy. `French` is the French handler; `Custom` is any
   * other handler, given by its two pure functions (another country's rules,
   * or a stand-in that answers fixed values).
   */
  datatype Handler = French | Custom(normalize: string -> string, validate: string -> bool)
  {
    function Normalize(value: string): string {
      match this
      case French => French.Normalize(value)
      case Custom(normalize, _) => normalize(value)
    }

    predicate Validate(value: string) {
      match this
      case French => French.Validate(value)
      case Custom(_, validate) => validate(value)
    }
  }

  /** A country, known here only by its code and the handler it provides. */
  datatype Country = Country(code: string, handler: Handler)

  /** The causes of the IllegalArgumentException the builder throws. */
  datatype IllegalArgument = NullValue | BlankValue | NullCountry

  /** A value that is empty or made only of whitespace. */
  predicate IsBlank(s: string) {
    forall i :: 0 <= i < |s| ==> IsWhitespace(s[i])
  }

  /** The result of the first builder step: a raw value still waiting for its country. */
  datatype PartialLicensePlate = PartialLicensePlate(rawValue: string)

  /** `LicensePlate.forValue`: rejects a null value and a blank one. */
  function ForValue(value: Option<string>): (r: Result<PartialLicensePlate, IllegalArgument>)
    ensures r.Success? <==> value.Some? && !IsBlank(value.value)
    ensures r.Success? ==> r.value.rawValue == value.value
    ensures value.None? ==> r == Failure(NullValue)
    ensures value.Some? && IsBlank(value.value) ==> r == Failure(BlankValue)
  {
    match value
    case None => Failure(NullValue)
    case Some(raw) => if IsBlank(raw) then Failure(BlankValue) else Success(PartialLicensePlate(raw))
  }

  /** `withCountry`: rejects a null country, otherwise builds the plate with no verdict yet. */
  method WithCountry(partial: PartialLicensePlate, country: Option<Country>)
    returns (r: Result<LicensePlate, IllegalArgument>)
    requires !IsBlank(partial.rawValue)
    ensures r.Failure? <==> country.None?
    ensures r.Failure? ==> r.error == NullCountry
    ensures r.Success? ==>
      fresh(r.value) && r.value.Valid() &&
      r.value.rawValue == partial.rawValue && r.value.GetCountry() == country.value &&
      r.value.cachedValid == None && r.value.validateCalls == 0
  {
    match country
    case None =>
      r := Failure(NullCountry);
    case Some(c) =>
      var plate := new LicensePlate(partial.rawValue, c);
      r := Success(plate);
  }

  /** Java's `Object` argument of `equals`: null, a license plate, or an object of another class. */
  datatype ObjectRef = Null | Plate(plate: LicensePlate) | Foreign

  class LicensePlate {
    const rawValue: string
    const country: Country
    /** The remembered verdict of `isValid`, `None` until the first call. */
    var cachedValid: Option<bool>
    /** How often the handler's validate has been invoked for this plate. */
    ghost var validateCalls: nat

    ghost predicate Valid()
      reads this
    {
      !IsBlank(rawValue) &&
      match cachedValid
      case None => validateCalls == 0
      case Some(v) => v == Verdict() && validateCalls == 1
    }

    /** The verdict the handler gives for the normalised value. */
    ghost function Verdict(): bool {
      country.handler.Validate(country.handler.Normalize(rawValue))
    }

    constructor (rawValue: string, country: Country)
      requires !IsBlank(rawValue)
      ensures Valid()
      ensures this.rawValue == rawValue && this.country == country
      ensures cachedValid == None && validateCalls == 0
    {
      this.rawValue := rawValue;
      this.country := country;
      cachedValid := None;
      validateCalls := 0;
    }

    function GetCountry(): Country {
      country
    }

    /**
     * `toString`: the handler's rendering of the raw value, whether or not the
     * plate is valid; it neither reads nor sets the remembered verdict. For a
     * French plate the rendering is already normalised and no longer than the
     * raw value.
     */
    function ToString(): (s: string)
      ensures country.handler.French? ==> French.Normalize(s) == s && |s| <= |rawValue|
    {
      var s := country.handler.Normalize(rawValue);
      if country.handler.French? then French.NormalizeIdempotent(rawValue); s else s
    }

    /**
     * `isValid`: asks the handler on the first call only and remembers the
     * answer, so the handler's validate runs once however often this is called.
     */
    method IsValid() returns (valid: bool)
      requires Valid()
      modifies this`cachedValid, this`validateCalls
      ensures Valid()
      ensures valid == Verdict()
      ensures cachedValid == Some(valid)
      ensures validateCalls == 1
    {
      match cachedValid
      case Some(v) =>
        valid := v;
      case None =>
        var handler := country.handler;
        valid := handler.Validate(handler.Normalize(rawValue));
        validateCalls := validateCalls + 1;
        cachedValid := Some(valid);
    }

    /** `equals`: another license plate with the same rendering. */
    predicate Equals(other: ObjectRef) {
      other.Plate? && ToString() == other.plate.ToString()
    }
  }

  /**
   * The scenario of the memoisation test: three calls of `isValid` give the
   * same verdict, and the handler's validate has run once.
   */
  method IsValidThreeTimes(p: LicensePlate) returns (first: bool, second: bool, third: bool)
    requires p.Valid() && p.cachedValid == None
    modifies p
    ensures p.Valid()
    ensures first == second == third == p.Verdict()
    ensures p.validateCalls == 1
  {
    first := p.IsValid();
    second := p.IsValid();
    third := p.IsValid();
  }

  /** equals is reflexive, symmetric and transitive. */
  lemma EqualsIsEquivalence(p: LicensePlate, q: LicensePlate, r: LicensePlate)
    ensures p.Equals(Plate(p))
    ensures p.Equals(Plate(q)) ==> q.Equals(Plate(p))
    ensures p.Equals(Plate(q)) && q.Equals(Plate(r)) ==> p.Equals(Plate(r))
  {
  }

  /** equals is false, and does not fail, for null and for objects of other classes. */
  lemma EqualsNullOrForeign(p: LicensePlate)
    ensures !p.Equals(Null) && !p.Equals(Foreign)
  {
  }

  /**
   * Two French plates are equal exactly when their raw values agree once
   * whitespace and hyphen runs are collapsed to one hyphen and letters are
   * upper-cased: separators and case do not matter, anything else does.
   */
  lemma FrenchEquals(p: LicensePlate, q: LicensePlate)
    requires p.country.handler.French? && q.country.handler.French?
    ensures p.Equals(Plate(q)) <==> French.Hyphenated(p.rawValue) == French.Hyphenated(q.rawValue)
  {
    French.HyphenatedOfNormalize(p.rawValue);
    French.HyphenatedOfNormalize(q.rawValue);
  }

  /** A French plate is valid exactly when the French handler validates its raw value. */
  lemma FrenchVerdict(p: LicensePlate)
    requires p.country.handler.French?
    ensures p.Verdict() == French.Validate(p.rawValue)
  {
    French.ValidateOfNormalize(p.rawValue);
  }

  /** A French plate equals the plate of its upper-cased value. */
  lemma FrenchEqualsIgnoresCase(p: LicensePlate, q: LicensePlate)
    requires p.country.handler.French? && q.country.handler.French?
    requires q.rawValue == ToUpper(p.rawValue)
    ensures p.Equals(Plate(q))
  {
    French.NormalizeIgnoresCase(p.rawValue);
  }

  // The values of the unit test's equality cases, as the French handler collapses them.

  lemma HyphenatedOfHyphens(v: string)
    requires v == "KA-AB-123"
    ensures French.Hyphenated(v) == "KA-AB-123"
  {
    assert French.Clean(v);
    French.HyphenatedOfClean(v);
  }

  /** The space-separated values of the test collapse to their hyphenated forms. */
  lemma HyphenatedOfSpaceRendering(v: string, u: string)
    requires (v == "KA AB 123" && u == "KA-AB-123") || (v == "B XY 456" && u == "B-XY-456")
    ensures French.Hyphenated(v) == u
  {
    assert French.Clean(u);
    assert French.HyphensToSpaces(u) == v;
    French.HyphenatedOfSpaced(u);
  }

  lemma UpperOfLowerCase(v: string)
    requires v == "ka ab 123"
    ensures ToUpper(v) == "KA AB 123"
  {
  }

  lemma HyphenatedOfUpperCased(v: string)
    requires ToUpper(v) == "KA AB 123"
    ensures French.Hyphenated(v) == "KA-AB-123"
  {
    French.NormalizeIgnoresCase(v);
    HyphenatedOfSpaceRendering(ToUpper(v), "KA-AB-123");
  }

  /**
   * The equality cases of the unit test, with the French handler:
   * `KA-AB-123`, `KA AB 123` and `ka ab 123` are equal, `B XY 456` differs.
   */
  lemma FrenchEqualityExamples(p1: LicensePlate, p2: LicensePlate, p3: LicensePlate, p4: LicensePlate)
    requires p1.country.handler.French? && p2.country.handler.French?
    requires p3.country.handler.French? && p4.country.handler.French?
    requires p1.rawValue == "KA-AB-123" && p2.rawValue == "KA AB 123"
    requires p3.rawValue == "ka ab 123" && p4.rawValue == "B XY 456"
    ensures p1.Equals(Plate(p2)) && p1.Equals(Plate(p3))
    ensures !p2.Equals(Plate(p4))
  {
    HyphenatedOfHyphens(p1.rawValue);
    HyphenatedOfSpaceRendering(p2.rawValue, "KA-AB-123");
    UpperOfLowerCase(p3.rawValue);
    HyphenatedOfUpperCased(p3.rawValue);
    HyphenatedOfSpaceRendering(p4.rawValue, "B-XY-456");
    FrenchEquals(p1, p2);
    FrenchEquals(p1, p3);
    FrenchEquals(p2, p4);
  }
}
