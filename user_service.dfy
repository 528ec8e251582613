/**
 * `UserService`: registration through a chain of validators, login against
 * the stored password hash, and lookups by type and by id. The password
 * encoder is a pair of functions given by the caller.
 */
module UserService {
  import opened Wrappers
  import opened Model
  import UsernameValidator
  import PasswordValidator

  /** The validators the service registers, by kind. */
  datatype ValidatorKind = UsernameCheck | PasswordCheck

  /** One validator applied to a DTO; the username check sees the stored names. */
  function RunValidator(kind: ValidatorKind, dto: UserDto, taken: set<string>): Verdict {
    match kind
    case UsernameCheck => UsernameValidator.Validate(Some(dto), taken)
    case PasswordCheck => PasswordValidator.Validate(dto)
  }

  /** Running `chain` in order: the first rejection wins, otherwise the DTO is accepted. */
  function RunChain(chain: seq<ValidatorKind>, dto: UserDto, taken: set<string>): (v: Verdict)
    ensures v.Rejected? <==> exists k :: 0 <= k < |chain| && RunValidator(chain[k], dto, taken).Rejected?
    decreases |chain|
  {
    if chain == [] then Accepted
    else
      var v := RunValidator(chain[0], dto, taken);
      if v.Rejected? then v
      else
        assert forall k :: 1 <= k < |chain| ==> chain[k] == chain[1..][k - 1];
        RunChain(chain[1..], dto, taken)
  }

  /** The stored usernames. */
  function Usernames(users: seq<User>): set<string> {
    set u | u in users :: u.username
  }

  /** No two stored users share a username or an id. */
  predicate Distinct(users: seq<User>) {
    forall i, j :: 0 <= i < j < |users| ==> users[i].username != users[j].username && users[i].id != users[j].id
  }

  /** `findByUsername`: the stored user with that name, if any. */
  function FindByUsername(users: seq<User>, username: string): (r: Option<User>)
    ensures r.None? <==> username !in Usernames(users)
    ensures r.Some? ==> r.value in users && r.value.username == username
    decreases |users|
  {
    if users == [] then None
    else if users[0].username == username then Some(users[0])
    else
      assert forall u :: u in users ==> u == users[0] || u in users[1..];
      FindByUsername(users[1..], username)
  }

  /** With distinct usernames the lookup finds the one user with that name. */
  lemma FindByUsernameUnique(users: seq<User>, u: User)
    requires Distinct(users) && u in users
    ensures FindByUsername(users, u.username) == Some(u)
  {
    var r := FindByUsername(users, u.username);
    var i :| 0 <= i < |users| && users[i] == u;
    var j :| 0 <= j < |users| && users[j] == r.value;
    assert i == j;
  }

  /** The users of type `userType`, in stored order. */
  function OfType(users: seq<User>, userType: string): (r: seq<User>)
    ensures forall u :: u in r <==> u in users && u.userType == userType
    decreases |users|
  {
    if users == [] then []
    else
      assert forall u :: u in users ==> u == users[0] || u in users[1..];
      (if users[0].userType == userType then [users[0]] else []) + OfType(users[1..], userType)
  }

  /** The stored user with id `id`, if any. */
  function FindById(users: seq<User>, id: int): (r: Option<User>)
    ensures r.None? <==> forall u :: u in users ==> u.id != id
    ensures r.Some? ==> r.value in users && r.value.id == id
    decreases |users|
  {
    if users == [] then None
    else if users[0].id == id then Some(users[0])
    else
      assert forall u :: u in users ==> u == users[0] || u in users[1..];
      FindById(users[1..], id)
  }

  class UserStore {
    var users: seq<User>
    var userTypes: set<string>
    var validators: seq<ValidatorKind>

    ghost predicate Valid()
      reads this
    {
      Distinct(users) && validators == [UsernameCheck, PasswordCheck]
    }

    /** The constructor registers the username validator, then the password validator. */
    constructor (users: seq<User>, userTypes: set<string>)
      requires Distinct(users)
      ensures Valid()
      ensures this.users == users && this.userTypes == userTypes
    {
      this.users := users;
      this.userTypes := userTypes;
      validators := [UsernameCheck, PasswordCheck];
    }

    /**
     * `save`: an unknown type throws before any validator runs; then each
     * validator runs in turn and the first rejection is thrown; otherwise
     * the profile is stored with the encoded password under `newId`.
     */
    method Save(dto: UserDto, encode: string -> string, newId: int) returns (r: Outcome<User>)
      requires Valid()
      requires forall u :: u in users ==> u.id != newId
      modifies this
      ensures Valid()
      ensures userTypes == old(userTypes)
      ensures dto.userType !in userTypes ==> r == Thrown("Usertype not found") && users == old(users)
      ensures dto.userType in userTypes && RunChain(validators, dto, Usernames(old(users))).Rejected? ==>
        r == Thrown(RunChain(validators, dto, Usernames(old(users))).message) && users == old(users)
      ensures dto.userType in userTypes && RunChain(validators, dto, Usernames(old(users))) == Accepted ==>
        dto.username.Some? && dto.password.Some?
        && var u := User(newId, dto.username.value, Some(encode(dto.password.value)),
                         dto.firstName, dto.lastName, dto.email, dto.profilePicture, dto.userType);
           r == Value(u) && users == old(users) + [u]
    {
      if dto.userType !in userTypes {
        return Thrown("Usertype not found");
      }
      var taken := Usernames(users);
      for i := 0 to |validators|
        invariant RunChain(validators, dto, taken) == RunChain(validators[i..], dto, taken)
      {
        var v := RunValidator(validators[i], dto, taken);
        if v.Rejected? {
          return Thrown(v.message);
        }
      }
      var u := User(newId, dto.username.value, Some(encode(dto.password.value)),
                    dto.firstName, dto.lastName, dto.email, dto.profilePicture, dto.userType);
      forall k | 0 <= k < |users| ensures users[k].username != u.username && users[k].id != u.id {
        assert users[k] in users;
      }
      users := users + [u];
      r := Value(u);
    }

    /**
     * `login`: the user with that name when `matches` accepts the raw
     * password against the stored hash; null otherwise.
     */
    function Login(username: string, password: string, matches: (string, Option<string>) -> bool): (r: Option<User>)
      reads this
      requires Valid()
      ensures r.Some? <==> exists u :: u in users && u.username == username && matches(password, u.password)
      ensures r.Some? ==> r.value in users && r.value.username == username
    {
      var found := FindByUsername(users, username);
      if found.Some? then
        assert forall u :: u in users && u.username == username ==> u == found.value by {
          forall u | u in users && u.username == username ensures u == found.value {
            FindByUsernameUnique(users, u);
          }
        }
        if matches(password, found.value.password) then found else None
      else None
    }

    /** `getByType`: an unknown type gives an empty list, a known one its users. */
    function GetByType(userType: string): (r: seq<User>)
      reads this
      ensures userType !in userTypes ==> r == []
      ensures forall u :: u in r <==> userType in userTypes && u in users && u.userType == userType
    {
      if userType !in userTypes then [] else OfType(users, userType)
    }

    /** `findById`: the user with that id, its password blanked; null when there is none. */
    function FindUserById(id: int): (r: Option<User>)
      reads this
      ensures r.None? <==> forall u :: u in users ==> u.id != id
      ensures r.Some? ==> r.value.password.None? && exists u :: u in users && u.id == id && r.value == u.(password := None)
    {
      var found := FindById(users, id);
      if found.Some? then Some(found.value.(password := None)) else None
    }
  }

  /**
   * The registered chain checks the username before the password: a DTO
   * failing both is rejected for its username.
   */
  lemma UsernameCheckedFirst(dto: UserDto, taken: set<string>)
    ensures var v := RunChain([UsernameCheck, PasswordCheck], dto, taken);
      (UsernameValidator.Validate(Some(dto), taken).Rejected? ==> v == UsernameValidator.Validate(Some(dto), taken))
      && (UsernameValidator.Validate(Some(dto), taken) == Accepted ==> v == PasswordValidator.Validate(dto))
  {
    assert [UsernameCheck, PasswordCheck][1..] == [PasswordCheck];
    assert [PasswordCheck][1..] == [];
  }
}
