# User records service: a Dafny model

This project models the core of a small CRUD service for user records:

- the **validator**: the registration age check and the birth-date range check;
- the **mapper**: the null-ignoring update merge, and the projections from a
  create request to an entity and from an entity to its public view;
- the **partial-update request rules**: the phone-number pattern
  `^\+?\d{10,15}$` and the "birth date in the past" rule;
- the **service**: create, get, update, delete and birth-date search over a
  record store.

Files, one module each:

| file | module | models |
|---|---|---|
| `wrappers.dfy` | `Wrappers` | `Option`, plus `Result` and `Outcome` in place of exceptions |
| `dates.dfy` | `Dates` | `LocalDate` as (year, month, day), with `compareTo`, `isBefore` and `isEqual` |
| `users.dfy` | `Users` | the `User` entity, `UserDto`, the create request, the update-request interface |
| `errors.dfy` | `Errors` | the four exception kinds and the `ExceptionMessage` constants |
| `user_validator.dfy` | `UserValidator` | `UserValidator` |
| `user_mapper.dfy` | `UserMapper` | `UserMapper` |
| `partial_update_request.dfy` | `PartialUpdateRequest` | the constraints of `UserPartialUpdateRequestDto` |
| `user_repository.dfy` | `Repository` | `UserRepository` as a class over `map<Id, User>` |
| `user_service.dfy` | `UserService` | `UserServiceImpl` as a class holding the repository |

Parameters replace what the source reads from its environment:
- The current date (`LocalDate.now()`) is an argument, `today`.
- The configured minimum age (`UserProperties.minimumAgeConstraint`) is a
  constant of the service object.

The repository keeps a ghost log of every call made to it. The service
contracts use it to say which store calls each operation makes. For example, a
failed age check calls nothing, and a duplicate email is met with one
`existsByEmail` call and nothing else. Inverted ranges issue no query.

Ids are natural numbers. `Save` gives an unsaved entity an id that is not yet
in the map. A ghost function (`IdAboveAll`) proves that such an id exists. In
the source, the persistence layer (Hibernate) generates a time-based UUID in the
application before the insert.

## Model

| member | source | states |
|---|---|---|
| `Dates.CompareTo` | src/main/java/com/kiskee/users/service/user/UserValidator.java:28 | the date comparison is zero exactly on equal dates, and negative exactly when the first date comes first, year before month before day |
| `Dates.IsBefore` | src/main/java/com/kiskee/users/service/user/UserValidator.java:28 | `isBefore` holds exactly when the first date precedes the second lexicographically |
| `Dates.IsEqual` | src/main/java/com/kiskee/users/service/user/UserValidator.java:28 | `isEqual` holds exactly when the dates are equal |
| `Dates.IsBeforeIsStrictTotalOrder` | src/main/java/com/kiskee/users/service/user/UserValidator.java:28 | `isBefore` is irreflexive, transitive, asymmetric and connected |
| `Dates.BeforeOrEqualIsNotAfter` | src/main/java/com/kiskee/users/service/user/UserValidator.java:28 | "before or equal" holds exactly when the second date is not before the first |
| `UserValidator.ValidateRegistrationRequest` | src/main/java/com/kiskee/users/service/user/UserValidator.java:18-25 | registration passes iff today's year minus the birth year is at least the minimum; otherwise RegistrationRestriction with USER_REGISTRATION_RESTRICTION |
| `UserValidator.ValidateBirthDateRange` | src/main/java/com/kiskee/users/service/user/UserValidator.java:27-33 | a range passes iff `to` is not before `from`; otherwise IllegalArgument with INVALID_DATE_RANGE |
| `UserValidator.OnlyYearsMatter` | src/main/java/com/kiskee/users/service/user/UserValidator.java:19 | the outcome depends only on the two year components, never on month or day |
| `UserValidator.EarlierBirthYearPasses` | src/main/java/com/kiskee/users/service/user/UserValidator.java:19-20 | if a birth year passes, every earlier birth year passes too |
| `UserValidator.RegistrationWithMinimumAge18` | src/test/java/com/kiskee/users/service/UserValidatorTest.java:28-48 | with minimum 18 and a current year from 2013 to 2032, birth year 1995 passes and birth year 2015 fails with the restriction message |
| `UserValidator.RangeEdgeCases` | src/main/java/com/kiskee/users/service/user/UserValidator.java:28-32 | a single-day range passes; an inverted range fails with INVALID_DATE_RANGE |
| `UserMapper.ToEntity` | src/main/java/com/kiskee/users/mapper/UserMapper.java:16 | the new entity has no id and carries the request's six fields |
| `UserMapper.ToEntityOpt` | src/main/java/com/kiskee/users/mapper/UserMapper.java:22-24 | the optional entity is always present and holds toEntity's result |
| `UserMapper.ToDto` | src/main/java/com/kiskee/users/mapper/UserMapper.java:20 | the view carries all seven fields, id included, unchanged |
| `UserMapper.ToDtoIsInjective` | src/main/java/com/kiskee/users/mapper/UserMapper.java:20 | two records with the same view are the same record |
| `UserMapper.UpdateEntity` | src/main/java/com/kiskee/users/mapper/UserMapper.java:13-18 | the id is kept; each field the request sets takes the request's value; each field it leaves absent keeps the old value |
| `UserMapper.EmptyRequestIsIdentity` | src/main/java/com/kiskee/users/mapper/UserMapper.java:13-18 | a request with all six fields absent leaves the record unchanged |
| `UserMapper.UpdateIsIdempotent` | src/main/java/com/kiskee/users/mapper/UserMapper.java:13-18 | applying the same request twice equals applying it once |
| `UserMapper.UpdatesCompose` | src/main/java/com/kiskee/users/mapper/UserMapper.java:13-18 | two successive merges equal one merge of the combined request, in which the later request's values win |
| `UserMapper.FullUpdateReplacesAllFields` | src/main/java/com/kiskee/users/model/dto/user/UserUpdateRequest.java:5-13 | a request setting all six fields gives the entity toEntity builds from those values, under the target's id |
| `UserMapper.UpdateNeverClearsOptionalFields` | src/main/java/com/kiskee/users/mapper/UserMapper.java:13 | a present address or phone number stays present after any merge |
| `UserMapper.EmailOnlyChangesEmail` | src/test/java/com/kiskee/users/mapper/UserMapperTest.java:46-61 | the email-only request replaces the email and keeps the id and every other field |
| `PartialUpdateRequest.Matches` | src/main/java/com/kiskee/users/model/dto/user/UserPartialUpdateRequestDto.java:27 | a whole-string match of the pattern's terms consumes at least the sum of their minimum counts and, when each minimum is at most its maximum, at most the sum of their maximum counts |
| `PartialUpdateRequest.MatchesTerm` | src/main/java/com/kiskee/users/model/dto/user/UserPartialUpdateRequestDto.java:27 | after k repetitions of a term, a match of the rest of the string has at least the term's remaining minimum plus the rest's minimum length, and at most its remaining maximum plus the rest's maximum length |
| `PartialUpdateRequest.PhoneNumberValid` | src/main/java/com/kiskee/users/model/dto/user/UserPartialUpdateRequestDto.java:27 | the `@Pattern` rule passes a phone number iff it is absent or is 10 to 15 digits with an optional leading plus |
| `PartialUpdateRequest.BirthDateValid` | src/main/java/com/kiskee/users/model/dto/user/UserPartialUpdateRequestDto.java:22-23 | the `@Past` rule passes a birth date iff it is absent or strictly precedes today |
| `PartialUpdateRequest.WellFormed` | src/main/java/com/kiskee/users/model/dto/user/UserPartialUpdateRequestDto.java:13-28 | a request passes the field rules iff its phone number, when present, has the pattern's shape and its birth date, when present, lies in the past; all fields are optional |
| `PartialUpdateRequest.DigitRun` | src/main/java/com/kiskee/users/model/dto/user/UserPartialUpdateRequestDto.java:27 | after k digits, `\d{10,15}$` matches the rest iff the rest is all digits and the total count lies in 10..15 |
| `PartialUpdateRequest.PhonePatternMeaning` | src/main/java/com/kiskee/users/model/dto/user/UserPartialUpdateRequestDto.java:27 | the pattern accepts exactly 10 to 15 ASCII digits, optionally after one leading plus |
| `PartialUpdateRequest.AcceptedPhoneLength` | src/main/java/com/kiskee/users/model/dto/user/UserPartialUpdateRequestDto.java:27 | every accepted phone string has 10 to 16 characters |
| `PartialUpdateRequest.PhoneLengthBoundaries` | src/main/java/com/kiskee/users/model/dto/user/UserPartialUpdateRequestDto.java:27 | 10 and 15 digits are accepted, 9 and 16 digits refused, each with and without a plus |
| `PartialUpdateRequest.MisplacedPlusRejected` | src/main/java/com/kiskee/users/model/dto/user/UserPartialUpdateRequestDto.java:27 | a plus at any position but the first, so also a second plus, means rejection |
| `PartialUpdateRequest.NonDigitRejected` | src/main/java/com/kiskee/users/model/dto/user/UserPartialUpdateRequestDto.java:27 | any character other than a digit or a leading plus means rejection |
| `PartialUpdateRequest.BirthDateMustBePast` | src/main/java/com/kiskee/users/model/dto/user/UserPartialUpdateRequestDto.java:22-23 | a present birth date passes iff it is strictly before today; today itself fails |
| `PartialUpdateRequest.EmailOnlyRequestIsWellFormed` | src/main/java/com/kiskee/users/model/dto/user/UserPartialUpdateRequestDto.java:13-28 | every field is optional: the request with only the email set passes the field rules |
| `PartialUpdateRequest.WellFormedUpdateKeepsFieldRules` | src/main/java/com/kiskee/users/model/dto/user/UserPartialUpdateRequestDto.java:22-27 | merging a well-formed request keeps a record's phone number and birth date within the field rules |
| `Repository.IdAboveAll` | src/main/java/com/kiskee/users/model/entity/User.java:23-26 | for any finite set of ids there is an id above all of them, hence a fresh one |
| `Repository.EmailTaken` | src/main/java/com/kiskee/users/repository/UserRepository.java:12 | the `existsByEmail` query holds iff some stored record has the email |
| `Repository.InRange` | src/main/java/com/kiskee/users/repository/UserRepository.java:14 | the `Between` condition includes both ends: the date equals or follows the start and equals or precedes the end; no date lies in an inverted range |
| `Repository.IdsBetween` | src/main/java/com/kiskee/users/repository/UserRepository.java:14 | the ids the `Between` query selects: exactly the stored ids whose record's birth date is in range, and none for an inverted range |
| `Repository.UserRepository.ExistsByEmail` | src/main/java/com/kiskee/users/repository/UserRepository.java:12 | true iff some stored record has the email; the records are unchanged |
| `Repository.UserRepository.FindById` | src/main/java/com/kiskee/users/repository/UserRepository.java:10 | present iff the id is stored, and then the stored record, which carries that id |
| `Repository.UserRepository.Save` | src/main/java/com/kiskee/users/repository/UserRepository.java:10 | an unsaved entity is stored under a fresh id that it then carries; an entity with an id is stored under that id; nothing else changes |
| `Repository.UserRepository.Delete` | src/main/java/com/kiskee/users/repository/UserRepository.java:10 | exactly the entry under the entity's id is removed |
| `Repository.UserRepository.FindByBirthDateBetween` | src/main/java/com/kiskee/users/repository/UserRepository.java:14 | the stored records whose birth date lies in the inclusive range |
| `UserService.DtoImageSize` | src/main/java/com/kiskee/users/service/user/UserServiceImpl.java:76-78 | distinct stored records have distinct views, so a search result holds one view per matching record |
| `UserService.InsertKeepsEmailsUnique` | src/main/java/com/kiskee/users/service/user/UserServiceImpl.java:33-40 | inserting under a fresh id a record whose email is not taken keeps emails unique |
| `UserService.UpdateMayDuplicateEmail` | src/main/java/com/kiskee/users/service/user/UserServiceImpl.java:53-60 | updating a record to another record's email breaks email uniqueness, because the update path has no email check |
| `UserService.UserServiceImpl.CreateUser` | src/main/java/com/kiskee/users/service/user/UserServiceImpl.java:30-41 | an under-age request fails with no store call; a taken email fails after only the email check, with the records unchanged; otherwise exactly one new record under a fresh id, holding the request's fields, and its view is returned; a store with unique emails keeps them unique |
| `UserService.UserServiceImpl.GetUser` | src/main/java/com/kiskee/users/service/user/UserServiceImpl.java:44-49 | the stored record's view, or ResourceNotFound for an unknown id; the records are never changed |
| `UserService.UserServiceImpl.UpdateUser` | src/main/java/com/kiskee/users/service/user/UserServiceImpl.java:53-60 | an unknown id gives ResourceNotFound with the records unchanged; a known id gets the merged record under the same id, no other entry changes, and the new view is returned |
| `UserService.UserServiceImpl.DeleteUser` | src/main/java/com/kiskee/users/service/user/UserServiceImpl.java:64-70 | exactly the entry of a known id is removed; an unknown id gives ResourceNotFound with the records unchanged |
| `UserService.UserServiceImpl.FindUsersByBirthDateRange` | src/main/java/com/kiskee/users/service/user/UserServiceImpl.java:73-81 | an inverted range fails before any store call; otherwise the result is the views of exactly the records born in [from, to], one per record |

## Left out

- HTTP routing, status-code mapping, error bodies, timestamps and logging in `UserController` and `GlobalExceptionHandler`. These are framework plumbing.
- Persistence, transactions and UUID generation. The store is a map, and the id supply is any unused natural number.
- The race between `existsByEmail` and `save`, and the database's unique constraint on email. Concurrency is not modelled. Neither is the unique constraint, so an update that duplicates an email is not refused (`UpdateMayDuplicateEmail`).
- The `@Email` rule on the partial request. Its grammar is library behaviour, so `WellFormed` accepts any email.
- Message rendering with `String.format`. DuplicateResource and ResourceNotFound carry the email or id their message is built from.
- `UserCreateRequest` and `UserUpdateRequestDto` are not part of this model. The create request takes the six fields of the mapper test's constructor, with address and phone number optional. The full update is the update request with every field set.
- The `ResponseDto` and `MultipleResponseDto` wrappers. Operations return the view, or the set of views, directly.
- `UserMapper.UpdateEntity`: mutates its target object in place and returns that same object. The model is a function on values. The service saves that object straight away, so the stored state is the same.
- `Repository.UserRepository.FindByBirthDateBetween`: returns a list in store order. The model returns a set, and `UserServiceImpl.FindUsersByBirthDateRange` returns the set of views. Stored records have distinct ids, so each match appears exactly once, and the set is the list taken as a multiset. List order is not modelled, and the source promises none.
- Mapper calls are not logged. "Never calls the mapper on a duplicate email" is therefore not stated. The mapper is pure, so such a call would not be observable.
- Calendar validity of dates. The year range [-999999999, 999999999] of `LocalDate` and the month and day ranges are not enforced, and the ordering is lexicographic on any triple. Java's int subtractions in the date comparison and the age check cannot overflow only within that year range; the model's unbounded subtraction matches them there.
- Null values for the entity's email, first name, last name and birth date. These fields are total in the model.
- A null minimum-age setting. In the source it would raise an unboxing error.
