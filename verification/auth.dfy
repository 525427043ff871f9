/** The authentication service: login, registration, and the single-answer
    password recovery flow. Token issuance is not modelled; the credential
    check of login is an external authenticator passed in. */
module Auth {
  import opened Common
  import opened Users
  import opened UserApi

  /** The response map of `login` and `register`. */
  datatype Response = Response(success: bool, message: string, user: Option<User>)

  /** The only response a failed login ever produces. */
  const LoginFailed: Response := Response(false, "Email ou senha incorretos", None)

  /** `login`: the authenticator yields the principal or fails; every
      failure collapses into the same response. */
  function Login(email: string, password: string,
                 authenticate: (string, string) -> Option<User>): (r: Response)
    ensures r.success <==> authenticate(email, password).Some?
    ensures !r.success ==> r == LoginFailed
    ensures r.success ==> r.user == Some(Strip(authenticate(email, password).value))
    ensures r.success ==> r.user.Some? && r.user.value.password.None?
  {
    match authenticate(email, password)
    case None => LoginFailed
    case Some(u) => Response(true, "Login realizado com sucesso", Some(Strip(u)))
  }

  /** An authenticator backed by the directory: the active user with that
      e-mail, when the password matches its stored one. */
  function DirectoryAuthenticate(s: UserStore, matches: (string, Str) -> bool,
                                 email: string, password: string): (r: Option<User>)
    ensures r.Some? <==> ValidatePassword(s, email, password, matches)
    ensures r.Some? ==> exists k :: k in s.rows && r.value == s.rows[k]
    ensures r.Some? ==> r.value.isActive && r.value.email == email && matches(password, r.value.password)
    ensures UniqueIdentities(s) ==>
      forall k :: (&& k in s.rows && s.rows[k].isActive && s.rows[k].email == email
                   && matches(password, s.rows[k].password)) ==> r == Some(s.rows[k])
  {
    match FindByEmailAndIsActiveTrue(s, email)
    case None => None
    case Some(k) => if matches(password, s.rows[k].password) then Some(s.rows[k]) else None
  }

  /** Login cannot tell an unknown e-mail from a wrong password: with the
      directory as authenticator both give the very same response. */
  lemma LoginDoesNotRevealAccounts(s: UserStore, matches: (string, Str) -> bool,
                                   unknown: string, p1: string, known: int, p2: string)
    requires UniqueIdentities(s)
    requires forall k :: k in s.rows && s.rows[k].email == unknown ==> !s.rows[k].isActive
    requires known in s.rows && s.rows[known].isActive
    requires !matches(p2, s.rows[known].password)
    ensures
      var auth := (e, p) => DirectoryAuthenticate(s, matches, e, p);
      Login(unknown, p1, auth) == Login(s.rows[known].email, p2, auth) == LoginFailed
  {
  }

  /** The message `createUser` raises for a collision on each field. */
  function ConflictMessage(f: Field): string {
    match f
    case EmailField => "Email já cadastrado"
    case CpfField => "CPF já cadastrado"
    case CnpjField => "CNPJ já cadastrado"
    case CrmvField => "CRMV já cadastrado"
  }

  /** `register`: succeeds exactly when `createUser` does; a failure carries
      the collision message and stores nothing. */
  function Register(s: UserStore, u: User, hash: Str -> string): (r: (UserStore, Response))
    ensures r.1.success <==> CreateUser(s, u, hash).Ok?
    ensures !r.1.success ==> r.0 == s && r.1.user.None?
    ensures !r.1.success ==> r.1.message == ConflictMessage(CreateUser(s, u, hash).error.field)
    ensures r.1.success ==> r.0 == CreateUser(s, u, hash).value.0
    ensures r.1.success ==> r.1.user == Some(Strip(r.0.rows[CreateUser(s, u, hash).value.1]))
  {
    match CreateUser(s, u, hash)
    case Err(e) => (s, Response(false, ConflictMessage(e.field), None))
    case Ok((s', id)) => (s', Response(true, "Usuário cadastrado com sucesso", Some(Strip(s'.rows[id]))))
  }

  /** `forgotPassword`: the active user with that e-mail must exist and its
      stored answer must equal the supplied one exactly. Nothing is stored. */
  function ForgotPassword(s: UserStore, email: string, answer: Str): (r: Result<()>)
    ensures r == Err(NotFound(UserEntity)) <==>
      forall k :: k in s.rows && s.rows[k].email == email ==> !s.rows[k].isActive
    ensures r.Ok? ==> exists k :: k in s.rows && s.rows[k].isActive && s.rows[k].email == email
                                  && s.rows[k].securityAnswer.Some? && s.rows[k].securityAnswer == answer
    ensures UniqueIdentities(s) ==> forall k :: k in s.rows && s.rows[k].isActive && s.rows[k].email == email ==>
      (r.Ok? <==> s.rows[k].securityAnswer.Some? && s.rows[k].securityAnswer == answer)
  {
    match FindByEmailAndIsActiveTrue(s, email)
    case None => Err(NotFound(UserEntity))
    case Some(k) =>
      var stored := s.rows[k].securityAnswer;
      if stored.None? then Err(SecurityAnswerUnset)       // the stored answer is dereferenced
      else if stored != answer then Err(WrongSecurityAnswer)
      else Ok(())
  }

  /** `resetPassword`: no answer is asked for. The found row is passed back
      to `updateUser` with only its password replaced, so no collision can
      arise; a non-empty password is encoded, anything else leaves the
      store as it was. */
  function ResetPassword(s: UserStore, email: string, newPassword: Str,
                         hash: Str -> string): (r: Result<UserStore>)
    ensures r.Err? <==> forall k :: k in s.rows && s.rows[k].email == email ==> !s.rows[k].isActive
    ensures r.Err? ==> r.error == NotFound(UserEntity)
    ensures r.Ok? ==> r.value.rows.Keys == s.rows.Keys
    ensures r.Ok? ==> exists k :: && k in s.rows && s.rows[k].isActive && s.rows[k].email == email
                                  && (forall j :: j in s.rows && j != k ==> r.value.rows[j] == s.rows[j])
                                  && r.value.rows[k] == s.rows[k].(password := r.value.rows[k].password)
                                  && (Present(newPassword) ==> r.value.rows[k].password == Some(hash(newPassword)))
    ensures r.Ok? && !Present(newPassword) ==> r.value == s
  {
    match FindByEmailAndIsActiveTrue(s, email)
    case None => Err(NotFound(UserEntity))
    case Some(k) =>
      var d := s.rows[k].(password := newPassword);
      KeepingOwnIdentitiesNeverConflicts(s, k, d, hash);
      var r := UpdateUser(s, k, d, hash);
      assert r.value.rows[k] == s.rows[k].(password := r.value.rows[k].password);
      assert !Present(newPassword) ==> r.value.rows == s.rows;
      r
  }
}
