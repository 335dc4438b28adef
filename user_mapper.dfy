/** The mapper between requests, entities and views. Its merge ignores absent
    request values: each mutable field is overwritten only when the request
    supplies a value, and the id is never touched. */
module UserMapper {
  import opened Wrappers
  import opened Users

  /** toEntity: a new, unsaved entity holding the request's six fields. */
  function ToEntity(createRequest: CreateRequest): (u: User)
    ensures u.id == None
    ensures u.email == createRequest.email && u.firstName == createRequest.firstName
    ensures u.lastName == createRequest.lastName && u.birthDate == createRequest.birthDate
    ensures u.address == createRequest.address && u.phoneNumber == createRequest.phoneNumber
  {
    User(None, createRequest.email, createRequest.firstName, createRequest.lastName,
         createRequest.birthDate, createRequest.address, createRequest.phoneNumber)
  }

  /** toEntityOpt: always present, wrapping toEntity. */
  function ToEntityOpt(createRequest: CreateRequest): (r: Option<User>)
    ensures r.Some? && r.value == ToEntity(createRequest)
  {
    Some(ToEntity(createRequest))
  }

  /** toDto: the public view, all seven fields including the id. */
  function ToDto(user: User): (dto: UserDto)
    ensures dto.id == user.id && dto.email == user.email
    ensures dto.firstName == user.firstName && dto.lastName == user.lastName
    ensures dto.birthDate == user.birthDate && dto.address == user.address
    ensures dto.phoneNumber == user.phoneNumber
  {
    UserDto(user.id, user.email, user.firstName, user.lastName, user.birthDate,
            user.address, user.phoneNumber)
  }

  /** updateEntity: the null-ignoring merge of a request into a target record. */
  function UpdateEntity(user: User, updateRequest: UpdateRequest): (u: User)
    ensures u.id == user.id
    ensures updateRequest.email.Some? ==> u.email == updateRequest.email.value
    ensures updateRequest.email.None? ==> u.email == user.email
    ensures updateRequest.firstName.Some? ==> u.firstName == updateRequest.firstName.value
    ensures updateRequest.firstName.None? ==> u.firstName == user.firstName
    ensures updateRequest.lastName.Some? ==> u.lastName == updateRequest.lastName.value
    ensures updateRequest.lastName.None? ==> u.lastName == user.lastName
    ensures updateRequest.birthDate.Some? ==> u.birthDate == updateRequest.birthDate.value
    ensures updateRequest.birthDate.None? ==> u.birthDate == user.birthDate
    ensures updateRequest.address.Some? ==> u.address == updateRequest.address
    ensures updateRequest.address.None? ==> u.address == user.address
    ensures updateRequest.phoneNumber.Some? ==> u.phoneNumber == updateRequest.phoneNumber
    ensures updateRequest.phoneNumber.None? ==> u.phoneNumber == user.phoneNumber
  {
    User(user.id,
         updateRequest.email.GetOr(user.email),
         updateRequest.firstName.GetOr(user.firstName),
         updateRequest.lastName.GetOr(user.lastName),
         updateRequest.birthDate.GetOr(user.birthDate),
         if updateRequest.address.Some? then updateRequest.address else user.address,
         if updateRequest.phoneNumber.Some? then updateRequest.phoneNumber else user.phoneNumber)
  }

  /** The request with no field set. */
  const EmptyRequest: UpdateRequest := UpdateRequest(None, None, None, None, None, None)

  /** The request that sets only the email. */
  function EmailOnly(email: string): UpdateRequest {
    EmptyRequest.(email := Some(email))
  }

  /** A request with every field absent leaves the record unchanged. */
  lemma EmptyRequestIsIdentity(user: User)
    ensures UpdateEntity(user, EmptyRequest) == user
  {
  }

  /** Applying the same request twice equals applying it once. */
  lemma UpdateIsIdempotent(user: User, updateRequest: UpdateRequest)
    ensures UpdateEntity(UpdateEntity(user, updateRequest), updateRequest) == UpdateEntity(user, updateRequest)
  {
  }

  /** Sequencing: applying `first` and then `second` equals applying their
      combination, in which every value `second` sets takes precedence. */
  function Then(first: UpdateRequest, second: UpdateRequest): UpdateRequest {
    UpdateRequest(
      if second.email.Some? then second.email else first.email,
      if second.firstName.Some? then second.firstName else first.firstName,
      if second.lastName.Some? then second.lastName else first.lastName,
      if second.birthDate.Some? then second.birthDate else first.birthDate,
      if second.address.Some? then second.address else first.address,
      if second.phoneNumber.Some? then second.phoneNumber else first.phoneNumber)
  }

  lemma UpdatesCompose(user: User, first: UpdateRequest, second: UpdateRequest)
    ensures UpdateEntity(UpdateEntity(user, first), second) == UpdateEntity(user, Then(first, second))
  {
  }

  /** A request that sets all six fields (the full update) replaces every field
      and keeps only the id: the result is the entity that toEntity builds from
      the same values, carrying the target's id. */
  lemma FullUpdateReplacesAllFields(user: User, c: CreateRequest)
    requires c.address.Some? && c.phoneNumber.Some?
    ensures UpdateEntity(user, UpdateRequest(Some(c.email), Some(c.firstName), Some(c.lastName),
                                             Some(c.birthDate), c.address, c.phoneNumber))
            == ToEntity(c).(id := user.id)
  {
  }

  /** The merge can never clear an optional field: a present address or phone
      number stays present. */
  lemma UpdateNeverClearsOptionalFields(user: User, updateRequest: UpdateRequest)
    ensures user.address.Some? ==> UpdateEntity(user, updateRequest).address.Some?
    ensures user.phoneNumber.Some? ==> UpdateEntity(user, updateRequest).phoneNumber.Some?
  {
  }

  /** The email-only request changes the email and nothing else. */
  lemma EmailOnlyChangesEmail(user: User, email: string)
    ensures UpdateEntity(user, EmailOnly(email)) == user.(email := email)
  {
  }

  /** The view determines the record: toDto loses nothing. */
  lemma ToDtoIsInjective(a: User, b: User)
    requires ToDto(a) == ToDto(b)
    ensures a == b
  {
  }
}
