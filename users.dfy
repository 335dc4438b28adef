/** The user record and the request and view shapes that carry its fields:
    the entity User, the public view UserDto, the create request and the
    update-request capability shared by the full and the partial update. */
module Users {
  import opened Wrappers
  import opened Dates

  /** The record identifier. The source uses a time-based UUID chosen by the
      persistence layer; here any unbounded supply of distinct values will do. */
  type Id = nat

  /** The persisted User entity. `id` is unset until the record is first saved;
      address and phone number are optional. */
  datatype User = User(
    id: Option<Id>,
    email: string,
    firstName: string,
    lastName: string,
    birthDate: Date,
    address: Option<string>,
    phoneNumber: Option<string>)

  /** The public view of a record returned by every service operation. */
  datatype UserDto = UserDto(
    id: Option<Id>,
    email: string,
    firstName: string,
    lastName: string,
    birthDate: Date,
    address: Option<string>,
    phoneNumber: Option<string>)

  /** The create request: the six mutable fields, no id. */
  datatype CreateRequest = CreateRequest(
    email: string,
    firstName: string,
    lastName: string,
    birthDate: Date,
    address: Option<string>,
    phoneNumber: Option<string>)

  /** The update-request capability: an optional value per mutable field, where
      an absent value means "leave unchanged". There is no id accessor. */
  datatype UpdateRequest = UpdateRequest(
    email: Option<string>,
    firstName: Option<string>,
    lastName: Option<string>,
    birthDate: Option<Date>,
    address: Option<string>,
    phoneNumber: Option<string>)
}
