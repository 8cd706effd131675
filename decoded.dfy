/** The users as the value filter receives them. json_decode() without its associative
    flag turns every JSON object into a stdClass object and every JSON array into a PHP
    array. The login and email chains probe both access paths, `$user->k` and
    `$user['k']`, and array access on a stdClass object raises an Error even inside
    isset(). This module models the chains as written over such values, next to the
    intended chains that Fields models, in which an access path that does not apply to
    the value simply counts as not set. */
module Decoded {
  import opened Php
  import opened Fields

  /** A decoded user: an object with named string properties, or an array with string
      keys and string values. */
  datatype PhpValue = Object(props: map<string, string>) | Array(entries: map<string, string>)

  /** The outcome of a chain as written: a value, or the Error an access raised. */
  datatype Lookup = Found(value: string) | Raised

  /** What isset($v['k']) does: the key is set, is not set, or the access raises. */
  datatype Probe = IsSet | NotSet | Raises

  /** isset($v->k): an array has no properties. */
  predicate IssetProp(v: PhpValue, k: string)
  {
    v.Object? && k in v.props
  }

  /** isset($v['k']): an object without ArrayAccess, as stdClass is, raises. */
  function IssetDim(v: PhpValue, k: string): Probe
  {
    if v.Object? then Raises
    else if k in v.entries then IsSet
    else NotSet
  }

  /** The chain of lines 71 and 73 as written, for a field name and its alternative:
      $v->name, else $v['name'], else $v->alt, else $v['alt'], else "". Each step is
      taken only when isset() of the previous one is false; an isset() that raises ends
      the chain with the Error. */
  function ChainAsWritten(v: PhpValue, name: string, alt: string): Lookup
  {
    if IssetProp(v, name) then Found(v.props[name])
    else match IssetDim(v, name)
      case Raises => Raised
      case IsSet => Found(v.entries[name])
      case NotSet =>
        if IssetProp(v, alt) then Found(v.props[alt])
        else match IssetDim(v, alt)
          case Raises => Raised
          case IsSet => Found(v.entries[alt])
          case NotSet => Found("")
  }

  function LoginAsWritten(v: PhpValue): Lookup
  {
    ChainAsWritten(v, "login", "user_login")
  }

  function EmailAsWritten(v: PhpValue): Lookup
  {
    ChainAsWritten(v, "email", "user_email")
  }

  /** On an object the chain as written never reaches the alternative name: it yields the
      first property when that is set and raises otherwise. */
  lemma ChainOnObject(props: map<string, string>, name: string, alt: string)
    ensures ChainAsWritten(Object(props), name, alt).Found? <==> name in props
    ensures name in props ==> ChainAsWritten(Object(props), name, alt) == Found(props[name])
  {
    assert IssetDim(Object(props), name) == Raises;
  }

  /** On an array the chain as written raises nowhere: it yields the first key that is set,
      else "". */
  lemma ChainOnArray(entries: map<string, string>, name: string, alt: string)
    ensures ChainAsWritten(Array(entries), name, alt).Found?
    ensures name in entries ==> ChainAsWritten(Array(entries), name, alt).value == entries[name]
    ensures name !in entries && alt in entries ==> ChainAsWritten(Array(entries), name, alt).value == entries[alt]
    ensures name !in entries && alt !in entries ==> ChainAsWritten(Array(entries), name, alt).value == ""
  {
    assert !IssetProp(Array(entries), name) && !IssetProp(Array(entries), alt);
  }

  function Get(m: map<string, string>, k: string): Option<string>
  {
    if k in m then Some(m[k]) else None
  }

  function RoleAt(m: map<string, string>, k: string): Option<RoleValue>
  {
    if k in m then Some(RoleText(m[k])) else None
  }

  /** The record the field chains read: an object through its properties, with every
      array-key path unset; an array through its keys, with every property unset. Roles
      and registration dates are read only as properties, so an array has none. */
  function AsRecord(v: PhpValue): (r: User)
    ensures v.Object? ==> r.loginKey.None? && r.userLoginKey.None? && r.emailKey.None? && r.userEmailKey.None?
    ensures v.Array? ==> r.login.None? && r.userLogin.None? && r.email.None? && r.userEmail.None?
    ensures v.Array? ==> r.role.None? && r.roles.None? && r.userRegistered.None? && r.registered.None?
  {
    match v
    case Object(p) =>
      User(Get(p, "login"), None, Get(p, "user_login"), None,
           Get(p, "email"), None, Get(p, "user_email"), None,
           RoleAt(p, "role"), RoleAt(p, "roles"), Get(p, "user_registered"), Get(p, "registered"))
    case Array(e) =>
      User(None, Get(e, "login"), None, Get(e, "user_login"),
           None, Get(e, "email"), None, Get(e, "user_email"),
           None, None, None, None)
  }

  /** An object's role text is its role property if non-empty, else its roles property if
      non-empty, else "No role"; its date is fmt of user_registered or registered, the
      first non-empty, else "N/A". */
  lemma ObjectRolesAndDate(p: map<string, string>, fmt: string -> string)
    ensures RoleNames(AsRecord(Object(p))) ==
              if "role" in p && !EmptyString(p["role"]) then p["role"]
              else if "roles" in p && !EmptyString(p["roles"]) then p["roles"]
              else "No role"
    ensures RegistrationDate(AsRecord(Object(p)), fmt) ==
              if "user_registered" in p && !EmptyString(p["user_registered"]) then fmt(p["user_registered"])
              else if "registered" in p && !EmptyString(p["registered"]) then fmt(p["registered"])
              else "N/A"
  {
  }

  /** A decoded array has no role and no registration date. */
  lemma ArrayHasNoRoleOrDate(e: map<string, string>, fmt: string -> string)
    ensures RoleNames(AsRecord(Array(e))) == "No role"
    ensures RegistrationDate(AsRecord(Array(e)), fmt) == "N/A"
  {
  }

  /** A user object that carries only user_login, as WordPress names the field, never
      reaches the user_login fallback: the chain raises first. */
  lemma UserLoginOnlyRaises()
    ensures LoginAsWritten(Object(map["user_login" := "alice"])).Raised?
  {
    assert "login" != "user_login" by {
      assert |"login"| != |"user_login"|;
    }
    ChainOnObject(map["user_login" := "alice"], "login", "user_login");
  }

  /** Likewise a user object that carries only user_email. */
  lemma UserEmailOnlyRaises()
    ensures EmailAsWritten(Object(map["user_email" := "a@x.com"])).Raised?
  {
    assert "email" != "user_email" by {
      assert |"email"| != |"user_email"|;
    }
    ChainOnObject(map["user_email" := "a@x.com"], "email", "user_email");
  }

  /** The evidently intended chains, Fields.Login and Fields.Email, fall through to
      user_login and user_email on an object, and to "" when neither is present. */
  lemma IntendedChainsReachFallbacks(p: map<string, string>)
    ensures "login" !in p && "user_login" in p ==> Login(AsRecord(Object(p))) == p["user_login"]
    ensures "email" !in p && "user_email" in p ==> Email(AsRecord(Object(p))) == p["user_email"]
    ensures "login" !in p && "user_login" !in p ==> Login(AsRecord(Object(p))) == ""
    ensures "email" !in p && "user_email" !in p ==> Email(AsRecord(Object(p))) == ""
  {
  }

  /** Wherever the chains as written do not raise, on objects and arrays alike, the
      intended chains give the same login and email. */
  lemma IntendedAgreesWithWritten(v: PhpValue)
    ensures LoginAsWritten(v).Found? ==> Login(AsRecord(v)) == LoginAsWritten(v).value
    ensures EmailAsWritten(v).Found? ==> Email(AsRecord(v)) == EmailAsWritten(v).value
  {
    match v
    case Object(p) =>
      ChainOnObject(p, "login", "user_login");
      ChainOnObject(p, "email", "user_email");
    case Array(e) =>
      ChainOnArray(e, "login", "user_login");
      ChainOnArray(e, "email", "user_email");
  }

  /** The records of a sequence of decoded users, in order. */
  function Records(vs: seq<PhpValue>): (users: seq<User>)
    ensures |users| == |vs|
    ensures forall i :: 0 <= i < |vs| ==> users[i] == AsRecord(vs[i])
  {
    seq(|vs|, i requires 0 <= i < |vs| => AsRecord(vs[i]))
  }
}
