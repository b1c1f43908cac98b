/**
 * The in-memory account table of AuthProvider (app/context/AuthContext.tsx): a dictionary from
 * username to password and a "current user" slot.
 *
 * The source tests `users[username]` for JavaScript truthiness, so an entry whose password is the
 * empty string behaves exactly like a missing entry: `Taken` is that test on own keys. (The same
 * expression also sees members inherited from Object.prototype; see module AuthAsWritten.)
 */
module AuthContext {
  import opened Wrappers

  type Users = map<string, string>

  /**
   * The intended own-key reading of `users[username]`'s truthiness: true exactly for an own entry
   * holding a non-empty password (the lookup as written, which also sees Object.prototype, is
   * `AuthAsWritten.Lookup`).
   */
  function Taken(users: Users, username: string): (taken: bool)
    ensures taken ==> username in users
    ensures username in users && users[username] == "" ==> !taken
    ensures username in users && users[username] != "" ==> taken
  {
    username in users && users[username] != ""
  }

  /** Every stored password is non-empty, so every stored name is Taken. */
  ghost predicate NoEmptyPasswords(users: Users) {
    forall name :: name in users ==> users[name] != ""
  }

  /** The table after `register(username, password)`. */
  function Registered(users: Users, username: string, password: string): (r: Users)
    ensures Taken(users, username) ==> r == users
    ensures !Taken(users, username) ==> username in r && r[username] == password
    ensures r.Keys == users.Keys + {username} || r == users
    ensures forall name :: name != username ==> (name in r <==> name in users)
    ensures forall name :: name != username && name in users ==> r[name] == users[name]
  {
    if Taken(users, username) then users else users[username := password]
  }

  /** The test of `login`: a truthy entry that is strictly equal to the given password. */
  function Authenticates(users: Users, username: string, password: string): (ok: bool)
    ensures ok ==> Taken(users, username) && users[username] == password && password != ""
    ensures Taken(users, username) && users[username] == password ==> ok
  {
    Taken(users, username) && users[username] == password
  }

  class AuthProvider {
    /** `const [user, setUser] = useState<string | null>(null)` */
    var user: Option<string>
    /** `const [users, setUsers] = useState<{ [key: string]: string }>({})` */
    var users: Users

    constructor ()
      ensures user == None && users == map[]
    {
      user := None;
      users := map[];
    }

    /** `register`: refuses a name with a truthy entry, otherwise stores the password. */
    method Register(username: string, password: string) returns (ok: bool)
      modifies this
      ensures ok == !Taken(old(users), username)
      ensures users == Registered(old(users), username, password)
      ensures user == old(user)
    {
      if Taken(users, username) {
        return false;
      }
      users := users[username := password];
      return true;
    }

    /** `login`: on a match the name becomes the current user; a failure changes nothing. */
    method Login(username: string, password: string) returns (ok: bool)
      modifies this
      ensures ok == Authenticates(old(users), username, password)
      ensures users == old(users)
      ensures user == if ok then Some(username) else old(user)
    {
      if username in users && users[username] != "" && users[username] == password {
        user := Some(username);
        return true;
      }
      return false;
    }

    /** `logout`: clears the current user only. */
    method Logout()
      modifies this
      ensures user == None
      ensures users == old(users)
    {
      user := None;
    }
  }

  /** A name that is not Taken can be registered, and then logs in with that password unless it is empty. */
  lemma RegisterThenAuthenticate(users: Users, username: string, password: string)
    requires !Taken(users, username)
    ensures Authenticates(Registered(users, username, password), username, password) <==> password != ""
  {
  }

  /**
   * An entry holding the empty password is invisible to both checks: registering the name again
   * overwrites it, and no password logs in with it.
   */
  lemma EmptyPasswordEntryActsAbsent(users: Users, username: string, password: string)
    requires username in users && users[username] == ""
    ensures !Taken(users, username)
    ensures Registered(users, username, password) == users[username := password]
    ensures !Authenticates(users, username, password)
  {
  }

  /** Registering a name twice with any passwords: the second call changes nothing. */
  lemma RegisterTwice(users: Users, username: string, first: string, second: string)
    requires first != ""
    ensures Taken(Registered(users, username, first), username)
    ensures Registered(Registered(users, username, first), username, second) == Registered(users, username, first)
  {
  }

  /** A table whose passwords are all non-empty stays so under a registration with a non-empty password. */
  lemma RegisterKeepsPasswordsNonEmpty(users: Users, username: string, password: string)
    requires NoEmptyPasswords(users) && password != ""
    ensures NoEmptyPasswords(Registered(users, username, password))
  {
  }

  /** Under that invariant `Taken` is plain membership and `Authenticates` plain lookup. */
  lemma TakenIsMembership(users: Users, username: string, password: string)
    requires NoEmptyPasswords(users)
    ensures Taken(users, username) <==> username in users
    ensures Authenticates(users, username, password) <==> username in users && users[username] == password
  {
  }
}
