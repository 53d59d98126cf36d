/** The request-body schemas of the authentication routes (register, login, logout).
    Joi's `email()` grammar is not modelled: it is the parameter `isEmail`. Every Joi
    string rule also refuses the empty string, which the predicates below include. */
module AuthSchema {
  import opened Common

  /** A request body as parsed from JSON; `None` is a missing key. */
  datatype RegisterBody = RegisterBody(
    username: Option<string>, name: Option<string>, email: Option<string>,
    password: Option<string>, role: Option<string>)

  /** The validated value, with the default for `role` applied. */
  datatype RegisterValue = RegisterValue(
    username: string, name: string, email: string, password: string, role: string)

  datatype LoginBody = LoginBody(email: Option<string>, password: Option<string>)
  datatype LoginValue = LoginValue(email: string, password: string)

  datatype LogoutBody = LogoutBody(token: Option<string>)

  const USER_ROLE := "USER"

  predicate IsUsername(u: string)
  {
    3 <= |u| <= 30 && forall i :: 0 <= i < |u| ==> IsAlnum(u[i])
  }

  predicate IsName(n: string)
  {
    2 <= |n| <= 100
  }

  predicate IsEmailField(e: string, isEmail: string -> bool)
  {
    e != "" && isEmail(e)
  }

  predicate IsRegisterPassword(p: string)
  {
    6 <= |p| <= 128
  }

  /** `registerSchema.validate`: `None` is a validation error (status 400). */
  function ValidateRegister(b: RegisterBody, isEmail: string -> bool): (r: Option<RegisterValue>)
    ensures r.Some? <==>
      && b.username.Some? && IsUsername(b.username.value)
      && b.name.Some? && IsName(b.name.value)
      && b.email.Some? && IsEmailField(b.email.value, isEmail)
      && b.password.Some? && IsRegisterPassword(b.password.value)
      && (b.role.None? || b.role.value == USER_ROLE)
    ensures r.Some? ==>
      && r.value.username == b.username.value && r.value.name == b.name.value
      && r.value.email == b.email.value && r.value.password == b.password.value
      && r.value.role == USER_ROLE
  {
    if && b.username.Some? && IsUsername(b.username.value)
       && b.name.Some? && IsName(b.name.value)
       && b.email.Some? && IsEmailField(b.email.value, isEmail)
       && b.password.Some? && IsRegisterPassword(b.password.value)
       && (b.role.None? || b.role.value == USER_ROLE)
    then
      Some(RegisterValue(b.username.value, b.name.value, b.email.value, b.password.value,
                         if b.role.Some? then b.role.value else USER_ROLE))
    else None
  }

  /** `loginSchema.validate`: the password is required (so not empty) but has no length bound. */
  function ValidateLogin(b: LoginBody, isEmail: string -> bool): (r: Option<LoginValue>)
    ensures r.Some? <==>
      b.email.Some? && IsEmailField(b.email.value, isEmail) && b.password.Some? && b.password.value != ""
    ensures r.Some? ==> r.value == LoginValue(b.email.value, b.password.value)
  {
    if b.email.Some? && IsEmailField(b.email.value, isEmail) && b.password.Some? && b.password.value != ""
    then Some(LoginValue(b.email.value, b.password.value))
    else None
  }

  /** `logoutSchema.validate`: a token is required. */
  function ValidateLogout(b: LogoutBody): (r: Option<string>)
    ensures r.Some? <==> b.token.Some? && b.token.value != ""
    ensures r.Some? ==> r == b.token
  {
    if b.token.Some? && b.token.value != "" then b.token else None
  }

  /** Every accepted registration carries the role USER, whatever the body said. */
  lemma RegisterRoleIsUser(b: RegisterBody, isEmail: string -> bool)
    requires ValidateRegister(b, isEmail).Some?
    ensures ValidateRegister(b, isEmail).value.role == USER_ROLE
    ensures b.role.Some? ==> b.role.value == USER_ROLE
  {
  }

  /** A password that login accepts may be refused by registration (no length bound at login). */
  lemma LoginAcceptsShortPassword(isEmail: string -> bool)
    requires isEmail("a@b.co")
    ensures ValidateLogin(LoginBody(Some("a@b.co"), Some("x")), isEmail).Some?
    ensures ValidateRegister(RegisterBody(Some("abc"), Some("Al"), Some("a@b.co"), Some("x"), None), isEmail).None?
  {
  }
}
