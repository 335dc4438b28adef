/** The two checks of the service layer: age eligibility on registration and
    ordering of a birth-date search range. The current date and the configured
    minimum age are parameters. */
module UserValidator {
  import opened Wrappers
  import opened Dates
  import opened Users
  import opened Errors

  /** validateRegistrationRequest: the age is the difference of the year
      components only; registration is refused when it is below the minimum.
      Both years lie in LocalDate's range, so the Java int subtraction is exact. */
  function ValidateRegistrationRequest(request: CreateRequest, today: Date, minimumAge: int): (r: Outcome<Error>)
    ensures r.Pass? <==> today.year - request.birthDate.year >= minimumAge
    ensures r.Fail? ==> r.error == RegistrationRestriction(USER_REGISTRATION_RESTRICTION)
  {
    var userAge := today.year - request.birthDate.year;
    var registrationIsAllowed := userAge >= minimumAge;
    if !registrationIsAllowed then Fail(RegistrationRestriction(USER_REGISTRATION_RESTRICTION))
    else Pass
  }

  /** validateBirthDateRange: a range is accepted unless `from` is after `to`. */
  function ValidateBirthDateRange(from: Date, to: Date): (r: Outcome<Error>)
    ensures r.Pass? <==> !IsBefore(to, from)
    ensures r.Fail? ==> r.error == IllegalArgument(INVALID_DATE_RANGE)
  {
    var isRangeValid := IsBefore(from, to) || IsEqual(from, to);
    if !isRangeValid then Fail(IllegalArgument(INVALID_DATE_RANGE)) else Pass
  }

  /** Month and day of both dates never affect the age check. */
  lemma OnlyYearsMatter(r1: CreateRequest, r2: CreateRequest, t1: Date, t2: Date, minimumAge: int)
    requires r1.birthDate.year == r2.birthDate.year && t1.year == t2.year
    ensures ValidateRegistrationRequest(r1, t1, minimumAge) == ValidateRegistrationRequest(r2, t2, minimumAge)
  {
  }

  /** If a birth year passes, every earlier birth year passes too. */
  lemma EarlierBirthYearPasses(r1: CreateRequest, r2: CreateRequest, today: Date, minimumAge: int)
    requires r2.birthDate.year <= r1.birthDate.year
    requires ValidateRegistrationRequest(r1, today, minimumAge).Pass?
    ensures ValidateRegistrationRequest(r2, today, minimumAge).Pass?
  {
  }

  /** The fixed outcomes with minimum age 18: birth year 1995 passes and birth
      year 2015 fails, for every current year from 2013 to 2032 (the years in
      which both outcomes hold together). */
  lemma RegistrationWithMinimumAge18(today: Date, allowed: CreateRequest, underAge: CreateRequest)
    requires 2013 <= today.year <= 2032
    requires allowed.birthDate.year == 1995 && underAge.birthDate.year == 2015
    ensures ValidateRegistrationRequest(allowed, today, 18) == Pass
    ensures ValidateRegistrationRequest(underAge, today, 18) == Fail(RegistrationRestriction(USER_REGISTRATION_RESTRICTION))
  {
  }

  /** A single-day range is valid, and an inverted range is refused. */
  lemma RangeEdgeCases(d: Date, from: Date, to: Date)
    requires IsBefore(to, from)
    ensures ValidateBirthDateRange(d, d) == Pass
    ensures ValidateBirthDateRange(from, to) == Fail(IllegalArgument(INVALID_DATE_RANGE))
  {
  }
}
