/** The typed failures the service layer raises, with the message constants
    they carry. */
module Errors {
  import opened Users

  const USER_NOT_FOUND: string := "User %s not found"
  const USER_ALREADY_EXISTS: string := "User with email %s already exists"
  const USER_REGISTRATION_RESTRICTION: string := "User is not old enough to register"
  const INVALID_DATE_RANGE: string := "Invalid date range. Start date must be before or equal to end date"

  /** One constructor per exception class the service throws. DuplicateResource
      and ResourceNotFound keep the value their message is formatted with. */
  datatype Error =
    | RegistrationRestriction(message: string)
    | DuplicateResource(email: string)
    | ResourceNotFound(id: Id)
    | IllegalArgument(message: string)
}
