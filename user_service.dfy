/** The service layer: create, read, update, delete and birth-date search,
    composed from the validator, the mapper and the repository. Each operation
    either fails with a typed error and leaves the records unchanged, or makes
    exactly the one change it describes. */
module UserService {
  import opened Wrappers
  import opened Dates
  import opened Users
  import opened Errors
  import opened UserValidator
  import opened UserMapper
  import opened Repository

  /** The views of the records stored under `ids`. */
  ghost function Views(records: map<Id, User>, ids: set<Id>): set<UserDto>
    requires ids <= records.Keys
  {
    set k | k in ids :: ToDto(records[k])
  }

  /** Distinct stored records have distinct views, so a set of ids and the set
      of their views have the same size: each record appears exactly once. */
  lemma {:induction false} DtoImageSize(records: map<Id, User>, ids: set<Id>)
    requires IdsConsistent(records)
    requires ids <= records.Keys
    ensures |Views(records, ids)| == |ids|
    decreases |ids|
  {
    if ids != {} {
      var k :| k in ids;
      var rest := ids - {k};
      DtoImageSize(records, rest);
      var image := Views(records, ids);
      var restImage := Views(records, rest);
      assert image == restImage + {ToDto(records[k])};
      assert ToDto(records[k]) !in restImage by {
        forall j | j in rest ensures ToDto(records[j]) != ToDto(records[k]) {
          assert ToDto(records[j]).id == Some(j);
        }
      }
    }
  }

  /** No two stored records share an email. */
  ghost predicate UniqueEmails(records: map<Id, User>) {
    forall j, k :: j in records && k in records && j != k ==> records[j].email != records[k].email
  }

  /** Adding a record whose email is not yet taken keeps emails unique. */
  lemma InsertKeepsEmailsUnique(records: map<Id, User>, id: Id, user: User)
    requires UniqueEmails(records)
    requires id !in records && !EmailTaken(records, user.email)
    ensures UniqueEmails(records[id := user])
  {
  }

  /** The update path does not check emails: merging another record's email
      into a store with unique emails breaks uniqueness. Only a storage-level
      unique constraint would refuse that save. */
  lemma UpdateMayDuplicateEmail(a: User, b: User)
    requires a.email != b.email
    ensures var records := map[0 := a.(id := Some(0)), 1 := b.(id := Some(1))];
            && UniqueEmails(records)
            && !UniqueEmails(records[0 := UpdateEntity(records[0], EmailOnly(b.email))])
  {
    var records := map[0 := a.(id := Some(0)), 1 := b.(id := Some(1))];
    var after := records[0 := UpdateEntity(records[0], EmailOnly(b.email))];
    assert after[0].email == after[1].email;
  }

  class UserServiceImpl {
    const userRepository: UserRepository
    /** The configured minimum age for registration. */
    const minimumAgeConstraint: int

    ghost predicate Valid()
      reads this, userRepository
    {
      userRepository.Valid()
    }

    constructor (userRepository: UserRepository, minimumAgeConstraint: int)
      requires userRepository.Valid()
      ensures Valid()
      ensures this.userRepository == userRepository && this.minimumAgeConstraint == minimumAgeConstraint
    {
      this.userRepository := userRepository;
      this.minimumAgeConstraint := minimumAgeConstraint;
    }

    /** createUser: the age check first, with no store call; then the email
        check; then one insert under a fresh id. */
    method CreateUser(createRequest: CreateRequest, today: Date) returns (r: Result<UserDto, Error>)
      requires Valid()
      modifies userRepository
      ensures Valid()
      ensures ValidateRegistrationRequest(createRequest, today, minimumAgeConstraint).Fail? ==>
                && r == Failure(RegistrationRestriction(USER_REGISTRATION_RESTRICTION))
                && userRepository.records == old(userRepository.records)
                && userRepository.calls == old(userRepository.calls)
      ensures ValidateRegistrationRequest(createRequest, today, minimumAgeConstraint).Pass? &&
              EmailTaken(old(userRepository.records), createRequest.email) ==>
                && r == Failure(DuplicateResource(createRequest.email))
                && userRepository.records == old(userRepository.records)
                && userRepository.calls == old(userRepository.calls) + [ExistsByEmailCall(createRequest.email)]
      ensures ValidateRegistrationRequest(createRequest, today, minimumAgeConstraint).Pass? &&
              !EmailTaken(old(userRepository.records), createRequest.email) ==>
                && r.Success? && r.value.id.Some?
                && r.value.id.value !in old(userRepository.records)
                && userRepository.records ==
                     old(userRepository.records)[r.value.id.value := ToEntity(createRequest).(id := r.value.id)]
                && r.value == ToDto(userRepository.records[r.value.id.value])
                && userRepository.calls == old(userRepository.calls) +
                     [ExistsByEmailCall(createRequest.email), SaveCall(ToEntity(createRequest))]
      ensures UniqueEmails(old(userRepository.records)) ==> UniqueEmails(userRepository.records)
    {
      var validation := ValidateRegistrationRequest(createRequest, today, minimumAgeConstraint);
      if validation.Fail? {
        return Failure(validation.error);
      }
      var exists_ := userRepository.ExistsByEmail(createRequest.email);
      if exists_ {
        return Failure(DuplicateResource(createRequest.email));
      }
      var entity := ToEntityOpt(createRequest).value;
      var saved := userRepository.Save(entity);
      if UniqueEmails(old(userRepository.records)) {
        InsertKeepsEmailsUnique(old(userRepository.records), saved.id.value, saved);
      }
      r := Success(ToDto(saved));
    }

    /** getUser: the view of the stored record, or ResourceNotFound. */
    method GetUser(userId: Id) returns (r: Result<UserDto, Error>)
      requires Valid()
      modifies userRepository`calls
      ensures userId in userRepository.records ==>
                r == Success(ToDto(userRepository.records[userId])) && r.value.id == Some(userId)
      ensures userId !in userRepository.records ==> r == Failure(ResourceNotFound(userId))
      ensures userRepository.calls == old(userRepository.calls) + [FindByIdCall(userId)]
    {
      var found := userRepository.FindById(userId);
      if found.None? {
        return Failure(ResourceNotFound(userId));
      }
      r := Success(ToDto(found.value));
    }

    /** updateUser: merge the request into the stored record and save it under
        the same id, or ResourceNotFound. Serves both the full and the partial
        update. */
    method UpdateUser(userId: Id, updateRequest: UpdateRequest) returns (r: Result<UserDto, Error>)
      requires Valid()
      modifies userRepository
      ensures Valid()
      ensures userId !in old(userRepository.records) ==>
                && r == Failure(ResourceNotFound(userId))
                && userRepository.records == old(userRepository.records)
                && userRepository.calls == old(userRepository.calls) + [FindByIdCall(userId)]
      ensures userId in old(userRepository.records) ==>
                && var updated := UpdateEntity(old(userRepository.records)[userId], updateRequest);
                && userRepository.records == old(userRepository.records)[userId := updated]
                && r == Success(ToDto(updated)) && r.value.id == Some(userId)
                && userRepository.calls == old(userRepository.calls) + [FindByIdCall(userId), SaveCall(updated)]
    {
      var found := userRepository.FindById(userId);
      if found.None? {
        return Failure(ResourceNotFound(userId));
      }
      var updated := UpdateEntity(found.value, updateRequest);
      var saved := userRepository.Save(updated);
      r := Success(ToDto(saved));
    }

    /** deleteUser: remove the stored record, or ResourceNotFound. */
    method DeleteUser(id: Id) returns (r: Outcome<Error>)
      requires Valid()
      modifies userRepository
      ensures Valid()
      ensures id !in old(userRepository.records) ==>
                && r == Fail(ResourceNotFound(id))
                && userRepository.records == old(userRepository.records)
                && userRepository.calls == old(userRepository.calls) + [FindByIdCall(id)]
      ensures id in old(userRepository.records) ==>
                && r == Pass
                && userRepository.records == old(userRepository.records) - {id}
                && userRepository.calls == old(userRepository.calls) +
                     [FindByIdCall(id), DeleteCall(old(userRepository.records)[id])]
    {
      var found := userRepository.FindById(id);
      if found.None? {
        return Fail(ResourceNotFound(id));
      }
      userRepository.Delete(found.value);
      r := Pass;
    }

    /** findUsersByBirthDateRange: an inverted range fails before any query;
        otherwise the views of exactly the records born in [from, to], each
        once, in no promised order. */
    method FindUsersByBirthDateRange(from: Date, to: Date) returns (r: Result<set<UserDto>, Error>)
      requires Valid()
      modifies userRepository`calls
      ensures IsBefore(to, from) ==>
                && r == Failure(IllegalArgument(INVALID_DATE_RANGE))
                && userRepository.calls == old(userRepository.calls)
      ensures !IsBefore(to, from) ==>
                && r.Success?
                && (forall d :: d in r.value <==>
                      exists k :: k in userRepository.records
                               && InRange(userRepository.records[k].birthDate, from, to)
                               && d == ToDto(userRepository.records[k]))
                && |r.value| == |IdsBetween(userRepository.records, from, to)|
                && userRepository.calls == old(userRepository.calls) + [FindByBirthDateBetweenCall(from, to)]
    {
      var validation := ValidateBirthDateRange(from, to);
      if validation.Fail? {
        return Failure(validation.error);
      }
      var users := userRepository.FindByBirthDateBetween(from, to);
      var data := set u | u in users :: ToDto(u);
      ghost var records := userRepository.records;
      ghost var ids := IdsBetween(records, from, to);
      assert data == Views(records, ids);
      DtoImageSize(records, ids);
      r := Success(data);
    }
  }
}
