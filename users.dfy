/** src/lib/actions/users.ts: lookups in the user table. */
module Users {
  import opened Wrappers
  import opened Records
  import Seqs

  /** What `getUser` selects: everything except the PIN. */
  datatype UserInfo = UserInfo(id: int, name: string, role: string)

  function PinIs(pin: string): User -> bool { (u: User) => u.pin == pin }

  function IdIs(id: int): User -> bool { (u: User) => u.id == id }

  /** `getUsers`: the whole table. */
  function GetUsers(users: seq<User>): (r: seq<User>)
    ensures r == users
  {
    users
  }

  /** `getUser(pin)`: the id, name and role of the user holding `pin`, or null. */
  function GetUser(users: seq<User>, pin: string): (r: Option<UserInfo>)
    requires WellFormedUsers(users)
    ensures r.None? <==> forall u :: u in users ==> u.pin != pin
    ensures forall u :: u in users && u.pin == pin ==> r == Some(UserInfo(u.id, u.name, u.role))
  {
    match Seqs.FindFirst(users, PinIs(pin))
    case Some(u) => Some(UserInfo(u.id, u.name, u.role))
    case None => None
  }

  /** `isUserAdmin(id)`: `user?.role === 'ADMIN'`. */
  function IsUserAdmin(users: seq<User>, id: int): (r: bool)
    requires UniqueUserIds(users)
    ensures r <==> exists u :: u in users && u.id == id && u.role == ADMIN
  {
    match Seqs.FindFirst(users, IdIs(id))
    case Some(u) => u.role == ADMIN
    case None => false
  }

  /** An id no user has is never an admin's. */
  lemma UnknownIdIsNotAdmin(users: seq<User>, id: int)
    requires UniqueUserIds(users)
    requires !HasUser(users, id)
    ensures !IsUserAdmin(users, id)
  {
  }
}
