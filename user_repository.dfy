/** The record store behind the service: the repository's operations over a
    mutable map from id to record. Every call is appended to a ghost log, so
    that the service's contracts can say which store calls an operation makes
    and which it does not. */
module Repository {
  import opened Wrappers
  import opened Dates
  import opened Users

  /** One repository call, with its argument. */
  datatype Call =
    | ExistsByEmailCall(email: string)
    | FindByIdCall(id: Id)
    | SaveCall(user: User)
    | DeleteCall(user: User)
    | FindByBirthDateBetweenCall(startDate: Date, endDate: Date)

  /** Every stored record carries its own key as its id. */
  ghost predicate IdsConsistent(records: map<Id, User>) {
    forall k :: k in records ==> records[k].id == Some(k)
  }

  /** Some stored record has this email (the existsByEmail query). */
  predicate EmailTaken(records: map<Id, User>, email: string)
    ensures EmailTaken(records, email) <==> exists k :: k in records && records[k].email == email
  {
    email in Emails(records)
  }

  /** The emails of all stored records. */
  function Emails(records: map<Id, User>): set<string> {
    set k | k in records :: records[k].email
  }

  /** The derived Between query: inclusive at both ends. */
  predicate InRange(d: Date, startDate: Date, endDate: Date)
    ensures InRange(d, startDate, endDate) <==>
              (d == startDate || Precedes(startDate, d)) && (d == endDate || Precedes(d, endDate))
    ensures InRange(d, startDate, endDate) ==> !IsBefore(endDate, startDate)
  {
    !IsBefore(d, startDate) && !IsBefore(endDate, d)
  }

  /** The ids of the records whose birth date lies in [startDate, endDate]. */
  ghost function IdsBetween(records: map<Id, User>, startDate: Date, endDate: Date): (ids: set<Id>)
    ensures ids <= records.Keys
    ensures forall k :: k in ids <==> k in records && InRange(records[k].birthDate, startDate, endDate)
    ensures IsBefore(endDate, startDate) ==> ids == {}
  {
    set k | k in records && InRange(records[k].birthDate, startDate, endDate)
  }

  /** An id above every id in `used`: the witness that a fresh id exists. */
  ghost function IdAboveAll(used: set<Id>): (r: Id)
    ensures forall k :: k in used ==> k < r
    decreases used
  {
    if used == {} then 0
    else
      var k :| k in used;
      var above := IdAboveAll(used - {k});
      assert forall j :: j in used ==> j == k || j in used - {k};
      if k < above then above else k + 1
  }

  class UserRepository {
    var records: map<Id, User>
    ghost var calls: seq<Call>

    ghost predicate Valid()
      reads this
    {
      IdsConsistent(records)
    }

    constructor ()
      ensures Valid() && records == map[] && calls == []
    {
      records := map[];
      calls := [];
    }

    method ExistsByEmail(email: string) returns (found: bool)
      modifies this`calls
      ensures found <==> EmailTaken(records, email)
      ensures calls == old(calls) + [ExistsByEmailCall(email)]
    {
      found := EmailTaken(records, email);
      calls := calls + [ExistsByEmailCall(email)];
    }

    method FindById(id: Id) returns (r: Option<User>)
      requires Valid()
      modifies this`calls
      ensures r.Some? <==> id in records
      ensures r.Some? ==> r.value == records[id] && r.value.id == Some(id)
      ensures calls == old(calls) + [FindByIdCall(id)]
    {
      r := if id in records then Some(records[id]) else None;
      calls := calls + [FindByIdCall(id)];
    }

    /** save: an unsaved entity (no id) is inserted under a fresh id, which the
        returned entity carries; an entity with an id replaces or creates the
        entry under that id. */
    method Save(user: User) returns (saved: User)
      requires Valid()
      modifies this`records, this`calls
      ensures Valid()
      ensures saved.id.Some? && records == old(records)[saved.id.value := saved]
      ensures user.id.Some? ==> saved == user
      ensures user.id.None? ==> saved == user.(id := saved.id) && saved.id.value !in old(records)
      ensures calls == old(calls) + [SaveCall(user)]
    {
      if user.id.Some? {
        saved := user;
      } else {
        ghost var above := IdAboveAll(records.Keys);
        assert above !in records;
        var id: Id :| id !in records;
        saved := user.(id := Some(id));
      }
      records := records[saved.id.value := saved];
      calls := calls + [SaveCall(user)];
    }

    /** delete: removes the entry under the entity's id; an unsaved entity or an
        unknown id removes nothing. */
    method Delete(user: User)
      requires Valid()
      modifies this`records, this`calls
      ensures Valid()
      ensures records == if user.id.Some? then old(records) - {user.id.value} else old(records)
      ensures calls == old(calls) + [DeleteCall(user)]
    {
      if user.id.Some? {
        records := records - {user.id.value};
      }
      calls := calls + [DeleteCall(user)];
    }

    /** findByBirthDateBetween: the stored records whose birth date lies in
        [startDate, endDate]. */
    method FindByBirthDateBetween(startDate: Date, endDate: Date) returns (users: set<User>)
      modifies this`calls
      ensures users == set k | k in IdsBetween(records, startDate, endDate) :: records[k]
      ensures calls == old(calls) + [FindByBirthDateBetweenCall(startDate, endDate)]
    {
      users := set k | k in records && InRange(records[k].birthDate, startDate, endDate) :: records[k];
      calls := calls + [FindByBirthDateBetweenCall(startDate, endDate)];
    }
  }
}
