/** The field rules of the partial-update request: every field is optional; a
    present phone number must match the pattern ^\+?\d{10,15}$ and a present
    birth date must lie strictly before today. An absent value passes both
    rules, as bean-validation constraints treat null as valid. */
module PartialUpdateRequest {
  import opened Wrappers
  import opened Dates
  import opened Users
  import opened UserMapper

  /** The two kinds of atom the phone pattern uses: a literal character and
      the ASCII digit class \d. */
  datatype Atom = Literal(c: char) | DigitClass

  /** A quantified atom, atom{min,max}; `?` is {0,1}. */
  datatype Term = Term(atom: Atom, min: nat, max: nat)

  predicate IsDigit(c: char) {
    '0' <= c <= '9'
  }

  predicate AtomMatches(a: Atom, c: char) {
    match a
    case Literal(x) => c == x
    case DigitClass => IsDigit(c)
  }

  /** The fewest characters a pattern can match. */
  function MinLength(pattern: seq<Term>): nat {
    if pattern == [] then 0 else pattern[0].min + MinLength(pattern[1..])
  }

  /** The most characters a pattern can match. */
  function MaxLength(pattern: seq<Term>): nat {
    if pattern == [] then 0 else pattern[0].max + MaxLength(pattern[1..])
  }

  /** Whole-string match of a sequence of terms (the pattern between ^ and $),
      with backtracking over how many repetitions each term takes. */
  predicate Matches(pattern: seq<Term>, s: string)
    ensures Matches(pattern, s) ==> MinLength(pattern) <= |s|
    ensures Matches(pattern, s) && (forall i :: 0 <= i < |pattern| ==> pattern[i].min <= pattern[i].max) ==>
              |s| <= MaxLength(pattern)
    decreases |pattern|, |s|, 1
  {
    if pattern == [] then s == []
    else MatchesTerm(pattern[0], pattern[1..], s, 0)
  }

  /** `t` has matched `k` times so far; either stop here and match `rest`, or
      take one more repetition. */
  predicate MatchesTerm(t: Term, rest: seq<Term>, s: string, k: nat)
    ensures MatchesTerm(t, rest, s, k) ==> t.min + MinLength(rest) <= k + |s|
    ensures MatchesTerm(t, rest, s, k) && k <= t.max && (forall i :: 0 <= i < |rest| ==> rest[i].min <= rest[i].max) ==>
              k + |s| <= t.max + MaxLength(rest)
    decreases |rest| + 1, |s|, 0
  {
    || (k >= t.min && Matches(rest, s))
    || (k < t.max && |s| > 0 && AtomMatches(t.atom, s[0]) && MatchesTerm(t, rest, s[1..], k + 1))
  }

  const OptionalPlus: Term := Term(Literal('+'), 0, 1)
  const TenToFifteenDigits: Term := Term(DigitClass, 10, 15)

  /** ^\+?\d{10,15}$ */
  const PhonePattern: seq<Term> := [OptionalPlus, TenToFifteenDigits]

  predicate AllDigits(s: string) {
    forall i :: 0 <= i < |s| ==> IsDigit(s[i])
  }

  /** Reference reading of the pattern: 10 to 15 digits, optionally after a
      single leading plus. */
  ghost predicate PhoneShape(s: string) {
    || (AllDigits(s) && 10 <= |s| <= 15)
    || (|s| > 0 && s[0] == '+' && AllDigits(s[1..]) && 10 <= |s| - 1 <= 15)
  }

  /** The @Pattern rule on phoneNumber. */
  predicate PhoneNumberValid(phoneNumber: Option<string>)
    ensures PhoneNumberValid(phoneNumber) <==> phoneNumber.None? || PhoneShape(phoneNumber.value)
  {
    match phoneNumber
    case None => true
    case Some(p) => PhonePatternMeaning(p); Matches(PhonePattern, p)
  }

  /** The @Past rule on birthDate. */
  predicate BirthDateValid(birthDate: Option<Date>, today: Date)
    ensures BirthDateValid(birthDate, today) <==> birthDate.None? || Precedes(birthDate.value, today)
  {
    birthDate.None? || IsBefore(birthDate.value, today)
  }

  /** A partial-update request passes field validation. The @Email rule is not
      part of this model, so any email value passes. */
  predicate WellFormed(request: UpdateRequest, today: Date)
    ensures WellFormed(request, today) <==>
              && (request.phoneNumber.None? || PhoneShape(request.phoneNumber.value))
              && (request.birthDate.None? || Precedes(request.birthDate.value, today))
  {
    PhoneNumberValid(request.phoneNumber) && BirthDateValid(request.birthDate, today)
  }

  /** The digit term, after `k` repetitions, matches the rest of the string iff
      the rest is digits and brings the count into [10, 15]. */
  lemma {:induction false} DigitRun(s: string, k: nat)
    requires k <= 15
    ensures MatchesTerm(TenToFifteenDigits, [], s, k) <==> AllDigits(s) && 10 <= k + |s| <= 15
    decreases |s|
  {
    if s != [] && k < 15 {
      DigitRun(s[1..], k + 1);
      assert AllDigits(s) <==> IsDigit(s[0]) && AllDigits(s[1..]) by {
        if IsDigit(s[0]) && AllDigits(s[1..]) {
          forall i | 0 <= i < |s| ensures IsDigit(s[i]) {
            if i > 0 { assert s[i] == s[1..][i - 1]; }
          }
        }
      }
    }
  }

  /** The matcher accepts exactly the strings of the reference reading. */
  lemma PhonePatternMeaning(s: string)
    ensures Matches(PhonePattern, s) <==> PhoneShape(s)
  {
    var digitsOnly: seq<Term> := [TenToFifteenDigits];
    assert PhonePattern[1..] == digitsOnly && digitsOnly[1..] == [];
    assert Matches(digitsOnly, s) <==> AllDigits(s) && 10 <= |s| <= 15 by {
      DigitRun(s, 0);
    }
    if |s| > 0 && s[0] == '+' {
      assert Matches(digitsOnly, s[1..]) <==> AllDigits(s[1..]) && 10 <= |s| - 1 <= 15 by {
        DigitRun(s[1..], 0);
      }
      assert MatchesTerm(OptionalPlus, digitsOnly, s[1..], 1) == Matches(digitsOnly, s[1..]);
      assert !AllDigits(s);
    }
  }

  /** Every accepted phone number has 10 to 16 characters. */
  lemma AcceptedPhoneLength(s: string)
    requires Matches(PhonePattern, s)
    ensures 10 <= |s| <= 16
  {
    PhonePatternMeaning(s);
  }

  /** Digit strings of 10 and 15 digits are accepted and of 9 and 16 digits
      refused, each with and without a leading plus. */
  lemma PhoneLengthBoundaries(digits: string)
    requires AllDigits(digits)
    ensures |digits| == 10 || |digits| == 15 ==>
              Matches(PhonePattern, digits) && Matches(PhonePattern, ['+'] + digits)
    ensures |digits| == 9 || |digits| == 16 ==>
              !Matches(PhonePattern, digits) && !Matches(PhonePattern, ['+'] + digits)
  {
    PhonePatternMeaning(digits);
    PhonePatternMeaning(['+'] + digits);
    assert (['+'] + digits)[1..] == digits;
    assert !AllDigits(['+'] + digits) by { assert !IsDigit((['+'] + digits)[0]); }
  }

  /** A plus anywhere but first (so also a second plus) is refused. */
  lemma MisplacedPlusRejected(s: string, i: nat)
    requires 0 < i < |s| && s[i] == '+'
    ensures !Matches(PhonePattern, s)
  {
    PhonePatternMeaning(s);
    assert s[1..][i - 1] == '+';
  }

  /** Any character that is neither a digit nor a leading plus is refused. */
  lemma NonDigitRejected(s: string, i: nat)
    requires i < |s| && !IsDigit(s[i]) && !(i == 0 && s[i] == '+')
    ensures !Matches(PhonePattern, s)
  {
    PhonePatternMeaning(s);
    if i > 0 { assert s[1..][i - 1] == s[i]; }
  }

  /** Only past dates pass @Past: today itself and later dates are refused. */
  lemma BirthDateMustBePast(birthDate: Date, today: Date)
    ensures BirthDateValid(Some(birthDate), today) <==> Precedes(birthDate, today)
    ensures !BirthDateValid(Some(today), today)
  {
  }

  /** The request with only the email set is well-formed. */
  lemma EmailOnlyRequestIsWellFormed(email: string, today: Date)
    ensures WellFormed(UpdateRequest(Some(email), None, None, None, None, None), today)
  {
  }

  /** Merging a well-formed request into a record whose phone number and birth
      date obey the field rules yields a record that still obeys them. */
  lemma WellFormedUpdateKeepsFieldRules(user: User, request: UpdateRequest, today: Date)
    requires PhoneNumberValid(user.phoneNumber) && BirthDateValid(Some(user.birthDate), today)
    requires WellFormed(request, today)
    ensures PhoneNumberValid(UpdateEntity(user, request).phoneNumber)
    ensures BirthDateValid(Some(UpdateEntity(user, request).birthDate), today)
  {
  }
}
