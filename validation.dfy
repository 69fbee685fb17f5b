/** The movie form's validation rules and its sanitiser (client/src/utils/validation.ts).
    The current year is a parameter: the source reads it from the clock. */
module Validation {
  import opened Wrappers
  import opened Text
  import Js
  import Errors

  /** `MovieFormData`: a movie's editable fields; every field may be missing at run time. */
  datatype MovieForm = MovieForm(
    title: Option<string>,
    year: Option<string>,
    genre: Option<string>,
    runtime: Option<string>,
    director: Option<string>,
    poster: Option<string>,
    poster_local: Option<string>,
    is_favorite: Option<bool>)

  /** `validateRequired(value)`: a string must have something left after trimming; any other
      value only has to be neither `null` nor `undefined` (so `0` and `false` pass). */
  function ValidateRequired(v: Js.JsValue): (ok: bool)
    ensures v.Str? ==> (ok <==> Trim(v.s) != [])
    ensures !v.Str? ==> (ok <==> !(v.Undefined? || v.Null?))
  {
    match v
    case Str(s) => |Trim(s)| > 0
    case _ => !(v.Undefined? || v.Null?)
  }

  /** A string value is required exactly when it holds a character other than white space. */
  lemma RequiredRejectsBlank(s: string)
    ensures ValidateRequired(Js.Str(s)) <==> !AllSpace(s)
  {
    TrimEmptyIff(s);
  }

  /** `validateLength(min, max)(value)`: empty or missing input fails; otherwise the trimmed
      length must be at least min and, when max is truthy, at most max. */
  function ValidateLength(min: int, max: Option<int>, v: Option<string>): (ok: bool)
    ensures v == None || v == Some([]) ==> !ok
    ensures v.Some? && v.value != [] ==>
              (ok <==> min <= |Trim(v.value)| && (max.Some? && max.value != 0 ==> |Trim(v.value)| <= max.value))
  {
    if !Js.Truthy(Js.OfOption(v)) then false
    else
      var length := |Trim(v.value)|;
      length >= min && (if max.Some? && max.value != 0 then length <= max.value else true)
  }

  const MinYear: int := 1900

  /** `validateYear(value)`: empty or missing input passes (the field is optional); otherwise
      the integer `parseInt` reads must lie in [1900, currentYear + 1]. */
  function ValidateYear(v: Option<string>, currentYear: int): (ok: bool)
    ensures v == None || v == Some([]) ==> ok
    ensures v.Some? && v.value != [] ==>
              (ok <==> ParseInt(v.value).Some? && MinYear <= ParseInt(v.value).value <= currentYear + 1)
  {
    if !Js.Truthy(Js.OfOption(v)) then true
    else
      match ParseInt(v.value)
      case None => false
      case Some(year) => year >= MinYear && year <= currentYear + 1
  }

  /** A year written out in decimal is accepted exactly when it is in range; so `'1899'`,
      `'-100'` and the year after next are rejected and `'1900'` and next year accepted. */
  lemma {:induction false} YearOfDecimal(y: int, currentYear: int)
    ensures ValidateYear(Some(IntToDecimal(y)), currentYear) <==> MinYear <= y <= currentYear + 1
  {
    assert IntToDecimal(y) + [] == IntToDecimal(y);
    ParseIntRoundTrip(y, []);
  }

  /** Non-empty text without any digit, such as `'abc'`, is never a valid year. */
  lemma {:induction false} YearRejectsTextWithoutDigits(s: string, currentYear: int)
    requires s != []
    requires forall i :: 0 <= i < |s| ==> !IsDigit(s[i])
    ensures !ValidateYear(Some(s), currentYear)
  {
    ParseIntNoDigits(s);
  }

  // ----- the rule list -----

  datatype FormField = Title | Year | Genre | Runtime | Director

  /** The property name `ValidationError.field` reports. */
  function FieldName(f: FormField): string
  {
    match f
    case Title => "title"
    case Year => "year"
    case Genre => "genre"
    case Runtime => "runtime"
    case Director => "director"
  }

  /** `data[rule.field]`. */
  function FieldValue(d: MovieForm, f: FormField): Option<string>
  {
    match f
    case Title => d.title
    case Year => d.year
    case Genre => d.genre
    case Runtime => d.runtime
    case Director => d.director
  }

  /** The validators used in the rule list. `Optional(min, max)` is
      `!value || validateLength(min, max)(value)`. */
  datatype Check = Required | Length(min: int, max: Option<int>) | YearInRange | Optional(lo: int, hi: int)

  datatype Rule = Rule(field: FormField, message: string, check: Check)

  const TitleRequiredMessage: string := "Title is required and must be at least 1 character"
  const TitleLengthMessage: string := "Title must be between 1 and 200 characters"
  const YearMessage: string := "Year must be between 1900 and current year"
  const GenreMessage: string := "Genre must be less than 100 characters"
  const RuntimeMessage: string := "Runtime must be less than 50 characters"
  const DirectorMessage: string := "Director name must be less than 100 characters"

  const TitleRequiredRule: Rule := Rule(Title, TitleRequiredMessage, Required)
  const TitleLengthRule: Rule := Rule(Title, TitleLengthMessage, Length(1, Some(200)))
  const YearRule: Rule := Rule(Year, YearMessage, YearInRange)
  const GenreRule: Rule := Rule(Genre, GenreMessage, Optional(1, 100))
  const RuntimeRule: Rule := Rule(Runtime, RuntimeMessage, Optional(1, 50))
  const DirectorRule: Rule := Rule(Director, DirectorMessage, Optional(1, 100))

  /** `movieValidationRules`, in order. */
  const MovieRules: seq<Rule> := [TitleRequiredRule, TitleLengthRule, YearRule, GenreRule, RuntimeRule, DirectorRule]

  function CheckHolds(c: Check, v: Option<string>, currentYear: int): bool
  {
    match c
    case Required => ValidateRequired(Js.OfOption(v))
    case Length(min, max) => ValidateLength(min, max, v)
    case YearInRange => ValidateYear(v, currentYear)
    case Optional(min, max) => !Js.Truthy(Js.OfOption(v)) || ValidateLength(min, Some(max), v)
  }

  predicate RuleHolds(r: Rule, d: MovieForm, currentYear: int)
  {
    CheckHolds(r.check, FieldValue(d, r.field), currentYear)
  }

  /** The error a failing rule throws. */
  function RuleError(r: Rule): (e: Errors.ErrorObject)
    ensures e.ValidationError? && Errors.ErrorName(e) == "ValidationError"
    ensures e.message == r.message && e.field == Some(FieldName(r.field))
  {
    Errors.ValidationError(r.message, Some(FieldName(r.field)))
  }

  /** The index of the first rule at or after i that `holds` rejects, if any. */
  function FirstFailureFrom(rules: seq<Rule>, holds: Rule -> bool, i: nat): (k: Option<nat>)
    requires i <= |rules|
    decreases |rules| - i
    ensures k.None? ==> forall j :: i <= j < |rules| ==> holds(rules[j])
    ensures k.Some? ==> i <= k.value < |rules| && !holds(rules[k.value])
    ensures k.Some? ==> forall j :: i <= j < k.value ==> holds(rules[j])
  {
    if i == |rules| then None
    else if !holds(rules[i]) then Some(i)
    else FirstFailureFrom(rules, holds, i + 1)
  }

  /** Whether a rule holds for this form. */
  function Holds(d: MovieForm, currentYear: int): Rule -> bool
  {
    r => RuleHolds(r, d, currentYear)
  }

  /** The first broken rule of `movieValidationRules`, if any. */
  function FirstFailure(d: MovieForm, currentYear: int): (k: Option<nat>)
    ensures k.None? <==> forall j :: 0 <= j < |MovieRules| ==> RuleHolds(MovieRules[j], d, currentYear)
    ensures k.Some? ==> k.value < |MovieRules| && !RuleHolds(MovieRules[k.value], d, currentYear)
    ensures k.Some? ==> forall j :: 0 <= j < k.value ==> RuleHolds(MovieRules[j], d, currentYear)
  {
    FirstFailureFrom(MovieRules, Holds(d, currentYear), 0)
  }

  /** `validateMovie(data)`: checks the rules in order and throws the `ValidationError` of the
      first one that fails; passes when all of them hold. */
  method ValidateMovie(d: MovieForm, currentYear: int) returns (r: Outcome<Errors.ErrorObject>)
    ensures r.Pass? <==> forall j :: 0 <= j < |MovieRules| ==> RuleHolds(MovieRules[j], d, currentYear)
    ensures r.Pass? <==> FirstFailure(d, currentYear).None?
    ensures r.Fail? ==> FirstFailure(d, currentYear).Some? &&
                        r.error == RuleError(MovieRules[FirstFailure(d, currentYear).value])
  {
    var rules, holds := MovieRules, Holds(d, currentYear);
    for i := 0 to |rules|
      invariant FirstFailureFrom(rules, holds, i) == FirstFailure(d, currentYear)
    {
      var rule := rules[i];
      if !RuleHolds(rule, d, currentYear) {
        assert !holds(rule);
        return Fail(RuleError(rule));
      }
      assert holds(rule);
    }
    return Pass;
  }

  /** The first failing rule is the one that fails after all rules before it held. */
  lemma FirstFailureIs(d: MovieForm, currentYear: int, k: nat)
    requires k < |MovieRules| && !RuleHolds(MovieRules[k], d, currentYear)
    requires forall j :: 0 <= j < k ==> RuleHolds(MovieRules[j], d, currentYear)
    ensures FirstFailure(d, currentYear) == Some(k)
  {
  }

  /** The six rules, one by one, in terms of the form's fields. */
  lemma RulesUnfold(d: MovieForm, currentYear: int)
    ensures RuleHolds(MovieRules[0], d, currentYear) == ValidateRequired(Js.OfOption(d.title))
    ensures RuleHolds(MovieRules[1], d, currentYear) == ValidateLength(1, Some(200), d.title)
    ensures RuleHolds(MovieRules[2], d, currentYear) == ValidateYear(d.year, currentYear)
    ensures RuleHolds(MovieRules[3], d, currentYear) == CheckHolds(Optional(1, 100), d.genre, currentYear)
    ensures RuleHolds(MovieRules[4], d, currentYear) == CheckHolds(Optional(1, 50), d.runtime, currentYear)
    ensures RuleHolds(MovieRules[5], d, currentYear) == CheckHolds(Optional(1, 100), d.director, currentYear)
  {
    TitleRulesUnfold(d, currentYear);
    OptionalRulesUnfold(d, currentYear);
  }

  lemma TitleRulesUnfold(d: MovieForm, currentYear: int)
    ensures RuleHolds(MovieRules[0], d, currentYear) == ValidateRequired(Js.OfOption(d.title))
    ensures RuleHolds(MovieRules[1], d, currentYear) == ValidateLength(1, Some(200), d.title)
    ensures RuleHolds(MovieRules[2], d, currentYear) == ValidateYear(d.year, currentYear)
  {
    assert MovieRules[0] == TitleRequiredRule && MovieRules[1] == TitleLengthRule && MovieRules[2] == YearRule;
    TitleRequiredRuleHolds(d, currentYear);
    TitleLengthRuleHolds(d, currentYear);
    YearRuleHolds(d, currentYear);
  }

  lemma TitleRequiredRuleHolds(d: MovieForm, currentYear: int)
    ensures RuleHolds(TitleRequiredRule, d, currentYear) == ValidateRequired(Js.OfOption(d.title))
  {
    assert TitleRequiredRule.field == Title && TitleRequiredRule.check == Required;
  }

  lemma TitleLengthRuleHolds(d: MovieForm, currentYear: int)
    ensures RuleHolds(TitleLengthRule, d, currentYear) == ValidateLength(1, Some(200), d.title)
  {
    assert TitleLengthRule.field == Title && TitleLengthRule.check == Length(1, Some(200));
  }

  lemma YearRuleHolds(d: MovieForm, currentYear: int)
    ensures RuleHolds(YearRule, d, currentYear) == ValidateYear(d.year, currentYear)
  {
    assert YearRule.field == Year && YearRule.check == YearInRange;
  }

  lemma OptionalRulesUnfold(d: MovieForm, currentYear: int)
    ensures RuleHolds(MovieRules[3], d, currentYear) == CheckHolds(Optional(1, 100), d.genre, currentYear)
    ensures RuleHolds(MovieRules[4], d, currentYear) == CheckHolds(Optional(1, 50), d.runtime, currentYear)
    ensures RuleHolds(MovieRules[5], d, currentYear) == CheckHolds(Optional(1, 100), d.director, currentYear)
  {
    assert MovieRules[3] == GenreRule && MovieRules[4] == RuntimeRule && MovieRules[5] == DirectorRule;
    assert GenreRule.field == Genre && GenreRule.check == Optional(1, 100);
    assert RuntimeRule.field == Runtime && RuntimeRule.check == Optional(1, 50);
    assert DirectorRule.field == Director && DirectorRule.check == Optional(1, 100);
  }

  /** No rule fails exactly when each of the six holds. */
  lemma ValidIff(d: MovieForm, currentYear: int)
    ensures FirstFailure(d, currentYear) == None <==>
              && ValidateRequired(Js.OfOption(d.title))
              && ValidateLength(1, Some(200), d.title)
              && ValidateYear(d.year, currentYear)
              && CheckHolds(Optional(1, 100), d.genre, currentYear)
              && CheckHolds(Optional(1, 50), d.runtime, currentYear)
              && CheckHolds(Optional(1, 100), d.director, currentYear)
  {
    RulesUnfold(d, currentYear);
    if FirstFailure(d, currentYear).Some? {
      var k := FirstFailure(d, currentYear).value;
      assert !RuleHolds(MovieRules[k], d, currentYear);
      assert k == 0 || k == 1 || k == 2 || k == 3 || k == 4 || k == 5;
    } else {
      assert RuleHolds(MovieRules[0], d, currentYear);
      assert RuleHolds(MovieRules[1], d, currentYear);
      assert RuleHolds(MovieRules[2], d, currentYear);
      assert RuleHolds(MovieRules[3], d, currentYear);
      assert RuleHolds(MovieRules[4], d, currentYear);
      assert RuleHolds(MovieRules[5], d, currentYear);
    }
  }

  /** A missing, empty or blank title breaks the first rule, "Title is required", before the
      length rule is looked at. */
  lemma BlankTitleFailsFirst(d: MovieForm, currentYear: int)
    requires d.title == None || AllSpace(d.title.value)
    ensures FirstFailure(d, currentYear) == Some(0)
    ensures MovieRules[0].message == TitleRequiredMessage
  {
    if d.title.Some? {
      RequiredRejectsBlank(d.title.value);
    }
    RulesUnfold(d, currentYear);
    FirstFailureIs(d, currentYear, 0);
  }

  /** A title longer than 200 characters after trimming (such as 201 `'a'`s) passes the first
      rule and breaks the second, "between 1 and 200 characters". */
  lemma LongTitleFailsSecond(d: MovieForm, currentYear: int)
    requires d.title.Some? && |Trim(d.title.value)| > 200
    ensures FirstFailure(d, currentYear) == Some(1)
  {
    var title := d.title.value;
    assert title != [];
    assert ValidateRequired(Js.OfOption(d.title));
    assert !ValidateLength(1, Some(200), d.title);
    TitleRulesUnfold(d, currentYear);
    assert RuleHolds(MovieRules[0], d, currentYear) && !RuleHolds(MovieRules[1], d, currentYear);
    FirstFailureIs(d, currentYear, 1);
  }

  lemma OptionalIff(v: Option<string>, lo: int, hi: int, currentYear: int)
    requires hi != 0
    ensures CheckHolds(Optional(lo, hi), v, currentYear) <==>
              v == None || v == Some([]) || lo <= |Trim(v.value)| <= hi
  {
  }

  /** What the three optional text rules accept: an empty or missing value, or a value whose
      trimmed length is within the bound. */
  lemma OptionalFieldRules(d: MovieForm, currentYear: int)
    ensures RuleHolds(MovieRules[3], d, currentYear) <==>
              d.genre == None || d.genre == Some([]) || 1 <= |Trim(d.genre.value)| <= 100
    ensures RuleHolds(MovieRules[4], d, currentYear) <==>
              d.runtime == None || d.runtime == Some([]) || 1 <= |Trim(d.runtime.value)| <= 50
    ensures RuleHolds(MovieRules[5], d, currentYear) <==>
              d.director == None || d.director == Some([]) || 1 <= |Trim(d.director.value)| <= 100
  {
    RulesUnfold(d, currentYear);
    OptionalIff(d.genre, 1, 100, currentYear);
    OptionalIff(d.runtime, 1, 50, currentYear);
    OptionalIff(d.director, 1, 100, currentYear);
  }

  /** A form with a reasonable title and nothing else is valid. */
  lemma TitleOnlyFormIsValid(d: MovieForm, currentYear: int)
    requires d.title.Some? && 1 <= |Trim(d.title.value)| <= 200
    requires d.year == None && d.genre == None && d.runtime == None && d.director == None
    ensures FirstFailure(d, currentYear) == None
  {
    assert d.title.value != [];
    ValidIff(d, currentYear);
  }

  // ----- sanitising -----

  /** `value?.trim()`. */
  function TrimOpt(v: Option<string>): Option<string>
  {
    match v
    case None => None
    case Some(s) => Some(Trim(s))
  }

  /** `sanitizeMovieData(data)`: the trimmed title (`''` when missing); the other text fields
      trimmed, with an empty result dropped; the poster fields kept when non-empty; and
      nothing else (`is_favorite` is dropped). */
  function SanitizeMovieData(d: MovieForm): (r: MovieForm)
    ensures r.title == Some(if d.title.Some? then Trim(d.title.value) else [])
    ensures r.year == Js.NonEmpty(TrimOpt(d.year)) && r.genre == Js.NonEmpty(TrimOpt(d.genre))
    ensures r.runtime == Js.NonEmpty(TrimOpt(d.runtime)) && r.director == Js.NonEmpty(TrimOpt(d.director))
    ensures r.poster == Js.NonEmpty(d.poster) && r.poster_local == Js.NonEmpty(d.poster_local)
    ensures r.is_favorite == None
  {
    MovieForm(
      title := Some(Js.OrElse(TrimOpt(d.title), [])),
      year := Js.NonEmpty(TrimOpt(d.year)),
      genre := Js.NonEmpty(TrimOpt(d.genre)),
      runtime := Js.NonEmpty(TrimOpt(d.runtime)),
      director := Js.NonEmpty(TrimOpt(d.director)),
      poster := Js.NonEmpty(d.poster),
      poster_local := Js.NonEmpty(d.poster_local),
      is_favorite := None)
  }

  /** Every text field of a sanitised form is trimmed, and every optional one present is non-empty. */
  predicate IsSanitized(d: MovieForm)
  {
    && d.title.Some? && IsTrimmed(d.title.value)
    && (d.year.Some? ==> d.year.value != [] && IsTrimmed(d.year.value))
    && (d.genre.Some? ==> d.genre.value != [] && IsTrimmed(d.genre.value))
    && (d.runtime.Some? ==> d.runtime.value != [] && IsTrimmed(d.runtime.value))
    && (d.director.Some? ==> d.director.value != [] && IsTrimmed(d.director.value))
    && (d.poster.Some? ==> d.poster.value != [])
    && (d.poster_local.Some? ==> d.poster_local.value != [])
    && d.is_favorite == None
  }

  lemma SanitizeGivesSanitized(d: MovieForm)
    ensures IsSanitized(SanitizeMovieData(d))
  {
  }

  lemma TrimOptNonEmptyIdempotent(v: Option<string>)
    ensures Js.NonEmpty(TrimOpt(Js.NonEmpty(TrimOpt(v)))) == Js.NonEmpty(TrimOpt(v))
  {
    if v.Some? {
      TrimIdempotent(v.value);
    }
  }

  /** Sanitising twice is sanitising once. */
  lemma SanitizeIdempotent(d: MovieForm)
    ensures SanitizeMovieData(SanitizeMovieData(d)) == SanitizeMovieData(d)
  {
    if d.title.Some? {
      TrimIdempotent(d.title.value);
    }
    TrimOptNonEmptyIdempotent(d.year);
    TrimOptNonEmptyIdempotent(d.genre);
    TrimOptNonEmptyIdempotent(d.runtime);
    TrimOptNonEmptyIdempotent(d.director);
  }

  /** An optional length rule that held before sanitising still holds after it. */
  lemma OptionalRuleSurvivesSanitize(v: Option<string>, min: int, max: int, currentYear: int)
    requires 1 <= min
    requires CheckHolds(Optional(min, max), v, currentYear)
    ensures CheckHolds(Optional(min, max), Js.NonEmpty(TrimOpt(v)), currentYear)
  {
    if v.Some? {
      TrimIdempotent(v.value);
    }
  }

  /** A title that passed both title rules still passes them once trimmed. */
  lemma TitleSurvivesSanitize(t: string)
    requires ValidateRequired(Js.Str(t)) && ValidateLength(1, Some(200), Some(t))
    ensures ValidateRequired(Js.Str(Trim(t))) && ValidateLength(1, Some(200), Some(Trim(t)))
  {
    TrimIdempotent(t);
  }

  /** A year that passed the year rule still passes it once trimmed (or dropped when blank). */
  lemma YearSurvivesSanitize(y: Option<string>, currentYear: int)
    requires ValidateYear(y, currentYear)
    ensures ValidateYear(Js.NonEmpty(TrimOpt(y)), currentYear)
  {
    if y.Some? && Trim(y.value) != [] {
      assert y.value != [];
      ParseIntTrim(y.value);
    }
  }

  /** Sanitising never turns a valid form into an invalid one. */
  lemma SanitizeKeepsValid(d: MovieForm, currentYear: int)
    requires FirstFailure(d, currentYear) == None
    ensures FirstFailure(SanitizeMovieData(d), currentYear) == None
  {
    ValidIff(d, currentYear);
    TitleSurvivesSanitize(d.title.value);
    YearSurvivesSanitize(d.year, currentYear);
    OptionalRuleSurvivesSanitize(d.genre, 1, 100, currentYear);
    OptionalRuleSurvivesSanitize(d.runtime, 1, 50, currentYear);
    OptionalRuleSurvivesSanitize(d.director, 1, 100, currentYear);
    ValidIff(SanitizeMovieData(d), currentYear);
  }
}
