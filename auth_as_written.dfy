/**
 * The lookup `users[username]` of app/context/AuthContext.tsx as JavaScript evaluates it.
 * `users` is a plain object literal, so a name that is not an own key still finds the members
 * that every object inherits from Object.prototype; those are functions or objects, hence truthy.
 * `register` therefore refuses such names with "already exists" although no account holds them.
 * The class AuthContext.AuthProvider uses the intended own-key test `Taken`; this module keeps the
 * code as written and relates the two.
 */
module AuthAsWritten {
  import opened AuthContext

  /** The names every plain object inherits from Object.prototype in ECMAScript (Annex B included). */
  const ObjectPrototypeNames: set<string> := {
    "constructor", "hasOwnProperty", "isPrototypeOf", "propertyIsEnumerable",
    "toLocaleString", "toString", "valueOf", "__proto__",
    "__defineGetter__", "__defineSetter__", "__lookupGetter__", "__lookupSetter__"
  }

  /** A JavaScript value as far as these checks can tell them apart. */
  datatype JsValue = Undefined | Str(s: string) | Inherited

  /** `users[username]`: an own key first, then the prototype chain, else `undefined`. */
  function Lookup(users: Users, username: string): (v: JsValue)
    ensures v.Str? <==> username in users
    ensures username in users ==> v == Str(users[username])
    ensures v.Inherited? <==> username !in users && username in ObjectPrototypeNames
  {
    if username in users then Str(users[username])
    else if username in ObjectPrototypeNames then Inherited
    else Undefined
  }

  /** JavaScript truthiness of the looked-up value. */
  predicate Truthy(v: JsValue) {
    match v
    case Undefined => false
    case Str(s) => s != ""
    case Inherited => true
  }

  /** `register` as written: the result and the table afterwards. */
  function RegisterAsWritten(users: Users, username: string, password: string): (r: (bool, Users))
    ensures username !in users && username in ObjectPrototypeNames ==> r == (false, users)
    ensures r.0 ==> username in r.1 && r.1[username] == password
    ensures r.0 ==> r.1 == users[username := password]
    ensures !r.0 ==> r.1 == users
  {
    if Truthy(Lookup(users, username)) then (false, users) else (true, users[username := password])
  }

  /** `login`'s test as written: truthy and strictly equal (`===`) to the given string. */
  function LoginAsWritten(users: Users, username: string, password: string): (ok: bool)
    ensures ok ==> username in users && users[username] == password && password != ""
  {
    var v := Lookup(users, username);
    Truthy(v) && v == Str(password)
  }

  /** On every name outside Object.prototype the code as written is the own-key model. */
  lemma RegisterAsWrittenAgrees(users: Users, username: string, password: string)
    requires username !in ObjectPrototypeNames
    ensures RegisterAsWritten(users, username, password)
            == (!Taken(users, username), Registered(users, username, password))
  {
  }

  /** `login` is unaffected: an inherited member is never strictly equal to a string. */
  lemma LoginAsWrittenAgrees(users: Users, username: string, password: string)
    ensures LoginAsWritten(users, username, password) <==> Authenticates(users, username, password)
  {
  }

  /**
   * The discrepancy: on the empty table, registering "constructor" is refused as an existing
   * username, while the intended own-key test accepts it.
   */
  lemma ConstructorIsRefused()
    ensures !Taken(map[], "constructor")
    ensures RegisterAsWritten(map[], "constructor", "secret") == (false, map[])
    ensures Registered(map[], "constructor", "secret") == map["constructor" := "secret"]
  {
  }
}
