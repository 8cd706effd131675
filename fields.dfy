/** Tolerant field extraction: every attribute of a user record is read through a
    fixed, ordered chain of alternative property names and array keys, ending in a
    sentinel when none of them yields a value. */
module Fields {
  import opened Php

  /** A role attribute holds either one role name or a list of them. */
  datatype RoleValue = RoleText(text: string) | RoleList(names: seq<string>)

  /** One user record as the renderers read it. The PHP value may be an object, read
      with `->`, or an array, read with `[...]`; each field holds what isset() finds
      under one access path (None when it is absent or null):
        login / loginKey             $user->login / $user['login']
        userLogin / userLoginKey     $user->user_login / $user['user_login']
        email / emailKey             $user->email / $user['email']
        userEmail / userEmailKey     $user->user_email / $user['user_email']
        role, roles                  $user->role, $user->roles
        userRegistered, registered   $user->user_registered, $user->registered
      Roles and registration dates are read only as object properties. */
  datatype User = User(
    login: Option<string>, loginKey: Option<string>,
    userLogin: Option<string>, userLoginKey: Option<string>,
    email: Option<string>, emailKey: Option<string>,
    userEmail: Option<string>, userEmailKey: Option<string>,
    role: Option<RoleValue>, roles: Option<RoleValue>,
    userRegistered: Option<string>, registered: Option<string>)

  /** The candidate is set and its value passes the test. */
  predicate Accepts<T>(c: Option<T>, accept: T -> bool)
  {
    c.Some? && accept(c.value)
  }

  /** Position of the first candidate that is set and accepted; |c| when there is none. */
  function FirstAccepted<T>(c: seq<Option<T>>, accept: T -> bool): (k: nat)
    ensures k <= |c|
    ensures forall j :: 0 <= j < k ==> !Accepts(c[j], accept)
    ensures k < |c| ==> Accepts(c[k], accept)
  {
    if c == [] || Accepts(c[0], accept) then 0 else 1 + FirstAccepted(c[1..], accept)
  }

  /** Ordered first-match lookup over alternative access paths: the candidate at the
      first accepted position, or None when no candidate is accepted. */
  function FirstOf<T>(c: seq<Option<T>>, accept: T -> bool): (r: Option<T>)
    ensures FirstAccepted(c, accept) < |c| ==> r == c[FirstAccepted(c, accept)]
    ensures FirstAccepted(c, accept) == |c| ==> r.None?
  {
    if c == [] then None
    else if Accepts(c[0], accept) then c[0]
    else FirstOf(c[1..], accept)
  }

  /** isset() alone decides: any non-null value, the empty string included, is taken. */
  predicate AnyValue(s: string)
  {
    true
  }

  /** empty() decides: "" and "0" are skipped. */
  predicate NotEmpty(s: string)
  {
    !EmptyString(s)
  }

  /** A role attribute counts only when empty() is false for it. */
  predicate HasRoles(v: RoleValue)
  {
    match v
    case RoleText(s) => !EmptyString(s)
    case RoleList(names) => names != []
  }

  /** A list of roles is shown joined with ", ". */
  function RoleText(v: RoleValue): string
  {
    match v
    case RoleText(s) => s
    case RoleList(names) => Implode(", ", names)
  }

  function LoginCandidates(u: User): seq<Option<string>>
  {
    [u.login, u.loginKey, u.userLogin, u.userLoginKey]
  }

  function EmailCandidates(u: User): seq<Option<string>>
  {
    [u.email, u.emailKey, u.userEmail, u.userEmailKey]
  }

  /** The username: the first set value along login, ['login'], user_login,
      ['user_login'], else the empty string. */
  function Login(u: User): (r: string)
    ensures FirstOf(LoginCandidates(u), AnyValue).Some? ==> r == FirstOf(LoginCandidates(u), AnyValue).value
    ensures FirstOf(LoginCandidates(u), AnyValue).None? ==> r == ""
  {
    var c := LoginCandidates(u);
    assert Accepts(c[0], AnyValue) == u.login.Some? && Accepts(c[1], AnyValue) == u.loginKey.Some?;
    assert Accepts(c[2], AnyValue) == u.userLogin.Some? && Accepts(c[3], AnyValue) == u.userLoginKey.Some?;
    if u.login.Some? then u.login.value
    else if u.loginKey.Some? then u.loginKey.value
    else if u.userLogin.Some? then u.userLogin.value
    else if u.userLoginKey.Some? then u.userLoginKey.value
    else ""
  }

  /** The email address: the same chain over email and user_email. */
  function Email(u: User): (r: string)
    ensures FirstOf(EmailCandidates(u), AnyValue).Some? ==> r == FirstOf(EmailCandidates(u), AnyValue).value
    ensures FirstOf(EmailCandidates(u), AnyValue).None? ==> r == ""
  {
    var c := EmailCandidates(u);
    assert Accepts(c[0], AnyValue) == u.email.Some? && Accepts(c[1], AnyValue) == u.emailKey.Some?;
    assert Accepts(c[2], AnyValue) == u.userEmail.Some? && Accepts(c[3], AnyValue) == u.userEmailKey.Some?;
    if u.email.Some? then u.email.value
    else if u.emailKey.Some? then u.emailKey.value
    else if u.userEmail.Some? then u.userEmail.value
    else if u.userEmailKey.Some? then u.userEmailKey.value
    else ""
  }

  /** The role text: role if set and non-empty, else roles under the same rule,
      a list joined with ", ", and "No role" when neither qualifies. */
  function RoleNames(u: User): (r: string)
    ensures FirstOf([u.role, u.roles], HasRoles).Some? ==> r == RoleText(FirstOf([u.role, u.roles], HasRoles).value)
    ensures FirstOf([u.role, u.roles], HasRoles).None? ==> r == "No role"
  {
    if u.role.Some? && HasRoles(u.role.value) then RoleText(u.role.value)
    else if u.roles.Some? && HasRoles(u.roles.value) then RoleText(u.roles.value)
    else "No role"
  }

  /** The registration date cell: fmt applied to user_registered if non-empty, else to
      registered if non-empty, else "N/A". fmt stands for date('Y-m-d', strtotime(...)). */
  function RegistrationDate(u: User, fmt: string -> string): (r: string)
    ensures FirstOf([u.userRegistered, u.registered], NotEmpty).Some? ==>
              r == fmt(FirstOf([u.userRegistered, u.registered], NotEmpty).value)
    ensures FirstOf([u.userRegistered, u.registered], NotEmpty).None? ==> r == "N/A"
  {
    if u.userRegistered.Some? && !EmptyString(u.userRegistered.value) then fmt(u.userRegistered.value)
    else if u.registered.Some? && !EmptyString(u.registered.value) then fmt(u.registered.value)
    else "N/A"
  }

  /** A record that carries its values only under the alternative names user_login,
      user_email and roles reads the same as one carrying them under login, email and role. */
  lemma AlternateNamesAgree(u: User)
    requires u.login.None? && u.loginKey.None? && u.userLoginKey.None?
    requires u.email.None? && u.emailKey.None? && u.userEmailKey.None?
    requires u.role.None?
    ensures var c := u.(login := u.userLogin, userLogin := None,
                        email := u.userEmail, userEmail := None,
                        role := u.roles, roles := None);
            Login(c) == Login(u) && Email(c) == Email(u) && RoleNames(c) == RoleNames(u)
  {
  }
}
