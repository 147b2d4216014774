/** `login_view` and `register_view` on a POST whose form validated. */
module AuthViews {
  import opened Wrappers
  import opened Store
  import opened Crypto
  import opened Models
  import opened Web
  import ModelProperties

  /** `login_view`: succeeds only when the credentials verify and the
      account's stored role is the role selected on the form. Never writes
      the database. */
  function Login(st: State, h: Hasher, s: Session, email: string, password: string, selected: Role): (r: Step)
    ensures r.st == st
    ensures s.userId.Some? ==> r == Step(AlreadyLoggedIn, st, s)
    ensures r.outcome != Ok ==> r.session == s
    ensures r.outcome == Ok ==>
      && s.userId.None?
      && r.session.userId.Some?
      && var u := r.session.userId.value;
      && u in st.users
      && st.users[u].email == email
      && h.verify(password, st.users[u].passwordHash)
      && st.users[u].role == selected
      && r.session == Session(Some(u), Some(email), Some(selected))
  {
    if s.userId.Some? then Step(AlreadyLoggedIn, st, s)
    else
      match Authenticate(st, h, email, password)
      case None => Step(InvalidCredential, st, s)
      case Some(u) =>
        if st.users[u].role == selected then
          Step(Ok, st, Session(Some(u), Some(st.users[u].email), Some(st.users[u].role)))
        else Step(RoleMismatch, st, s)
  }

  /** `register_view`: an e-mail already registered is refused; otherwise
      the account is created with role member and put in the session. */
  function Register(st: State, h: Hasher, s: Session, email: string, password: string): (r: Step)
    ensures s.userId.Some? ==> r == Step(AlreadyLoggedIn, st, s)
    ensures r.outcome == Ok <==> s.userId.None? && !EmailTaken(st, email)
    ensures r.outcome != Ok ==> r.st == st && r.session == s
    ensures s.userId.None? && EmailTaken(st, email) ==> r.outcome == DuplicateName
    ensures r.outcome == Ok ==>
      && var u := st.nextId;
      && r.session == Session(Some(u), Some(email), Some(Member))
      && r.st.users.Keys == st.users.Keys + {u}
      && r.st.users[u].email == email
      && r.st.users[u].role == Member
      && (Sound(h) ==> h.verify(password, r.st.users[u].passwordHash))
      && (forall v :: v in st.users && v != u ==> r.st.users[v] == st.users[v])
      && OnlyChanged(st, r.st, {Users})
  {
    if s.userId.Some? then Step(AlreadyLoggedIn, st, s)
    else if UserByEmail(st, email).Some? then Step(DuplicateName, st, s)
    else
      match CreateUser(st, h, email, password, Member)
      case None => Step(DuplicateName, st, s)
      case Some(ins) => Step(Ok, ins.st, Session(Some(ins.id), Some(email), Some(Member)))
  }

  /** On a valid database and for an anonymous request, the owner `u` of
      the e-mail gets in exactly when the password verifies and the selected
      role is `u`'s role; each failure is reported as what it is. */
  lemma LoginExact(st: State, h: Hasher, email: string, password: string, selected: Role, u: UserId)
    requires Valid(st)
    requires u in st.users && st.users[u].email == email
    ensures var r := Login(st, h, Anonymous, email, password, selected);
      && (r.outcome == Ok <==> h.verify(password, st.users[u].passwordHash) && st.users[u].role == selected)
      && (r.outcome == InvalidCredential <==> !h.verify(password, st.users[u].passwordHash))
      && (r.outcome == RoleMismatch <==> h.verify(password, st.users[u].passwordHash) && st.users[u].role != selected)
      && (r.outcome == Ok ==> r.session.userId == Some(u))
  {
    UserByEmailExact(st, email, u);
  }

  /** An e-mail nobody registered never logs in. */
  lemma LoginUnknownEmail(st: State, h: Hasher, email: string, password: string, selected: Role)
    requires Valid(st) && !EmailTaken(st, email)
    ensures Login(st, h, Anonymous, email, password, selected).outcome == InvalidCredential
  {
    FirstMatchNone(st.users, (u: User) => u.email == email, st.nextId);
  }

  /** After registering (and logging out), the same credentials log in as a
      member. */
  lemma RegisterThenLogin(st: State, h: Hasher, email: string, password: string)
    requires Valid(st) && Sound(h)
    requires Register(st, h, Anonymous, email, password).outcome == Ok
    ensures var st' := Register(st, h, Anonymous, email, password).st;
      Login(st', h, Anonymous, email, password, Member).outcome == Ok
  {
    FirstMatchNone(st.users, (u: User) => u.email == email, st.nextId);
    ModelProperties.CreateUserThenAuthenticate(st, h, email, password, Member);
  }

  /** Registering the same e-mail twice: the second attempt is refused and
      writes nothing. */
  lemma RegisterTwice(st: State, h: Hasher, email: string, password: string, password2: string)
    requires Register(st, h, Anonymous, email, password).outcome == Ok
    ensures var st' := Register(st, h, Anonymous, email, password).st;
      Register(st', h, Anonymous, email, password2) == Step(DuplicateName, st', Anonymous)
  {
    var st' := Register(st, h, Anonymous, email, password).st;
    assert st'.users[st.nextId].email == email;
  }
}
