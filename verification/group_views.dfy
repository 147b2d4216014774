/** Joining classes and groups: `join_class_view`, `create_group`,
    `accept_group_invitation`, `add_whitelist` and `remove_whitelist`. */
module GroupViews {
  import opened Wrappers
  import opened Lists
  import opened Store
  import opened Crypto
  import opened Models
  import opened Web
  import opened Decorators

  /** The caller leads the group. */
  predicate Leads(st: State, uid: UserId, gid: GroupId) {
    gid in st.groups && st.groups[gid].leader == uid
  }

  // ---------------------------------------------------------------------

  function JoinClassAs(st: State, h: Hasher, s: Session, uid: UserId, name: string, password: string): Step {
    match ClassByName(st, name)
    case None => Step(NotFound, st, s)
    case Some(c) =>
      if !VerifyClassPassword(st, h, name, password) then Step(InvalidCredential, st, s)
      else
        var joined := AddLeader(st, c, uid).st;
        var promoted := UpdateRole(joined, uid, Leader).st;
        Step(Ok, promoted, s.(role := Some(Leader)))
  }

  /** `join_class_view`: with the class's password the caller joins the
      class and is promoted to leader, whatever its role was. */
  function JoinClassView(st: State, h: Hasher, s: Session, name: string, password: string): (r: Step)
    ensures r.outcome != Ok ==> r.st == st
    ensures Admits(LoginGate, st, s) && ClassByName(st, name).None? ==> r.outcome == NotFound
    ensures Admits(LoginGate, st, s) && ClassByName(st, name).Some? && !VerifyClassPassword(st, h, name, password)
      ==> r.outcome == InvalidCredential
    ensures r.outcome == Ok <==> Admits(LoginGate, st, s) && VerifyClassPassword(st, h, name, password)
    ensures r.outcome == Ok ==>
      && var uid := s.userId.value;
      && var c := ClassByName(st, name).value;
      && r.session == s.(role := Some(Leader))
      && r.st.classes.Keys == st.classes.Keys
      && (forall x :: x in r.st.classes[c].members <==> x in st.classes[c].members || x == uid)
      && (uid in st.classes[c].members ==> r.st.classes[c] == st.classes[c])
      && (uid !in st.classes[c].members ==> r.st.classes[c].members == st.classes[c].members + [uid])
      && r.st.classes[c].(members := st.classes[c].members) == st.classes[c]
      && (forall d :: d in st.classes && d != c ==> r.st.classes[d] == st.classes[d])
      && r.st.users.Keys == st.users.Keys
      && r.st.users[uid] == st.users[uid].(role := Leader)
      && (forall v :: v in st.users && v != uid ==> r.st.users[v] == st.users[v])
      && OnlyChanged(st, r.st, {Classes, Users})
  {
    LoginRequired(st, s, (st: State, s: Session, uid: UserId) => JoinClassAs(st, h, s, uid, name, password))
  }

  // ---------------------------------------------------------------------

  function CreateGroupAs(st: State, h: Hasher, s: Session, uid: UserId, name: string, password: string): Step {
    match FirstJoinedClass(st, uid)
    case None => Step(NoClassJoined, st, s)
    case Some(c) =>
      match Models.CreateGroup(st, h, c, uid, name, password)
      case None => Step(DuplicateName, st, s)
      case Some(ins) => Step(Ok, ins.st, s)
  }

  /** `create_group`: the group goes into the first class, in collection
      order, that has the caller as a member (the lowest-numbered one, not
      necessarily the one joined first), led by the caller, its only member.
      The caller's role is not changed. A name already used in that class is
      refused by the unique index. */
  function CreateGroupView(st: State, h: Hasher, s: Session, name: string, password: string): (r: Step)
    ensures r.session == s
    ensures r.outcome != Ok ==> r.st == st
    ensures Admits(LeaderGate, st, s) && FirstJoinedClass(st, s.userId.value).None? ==> r.outcome == NoClassJoined
    ensures r.outcome == Ok <==>
      && Admits(LeaderGate, st, s)
      && FirstJoinedClass(st, s.userId.value).Some?
      && !GroupNameTaken(st, FirstJoinedClass(st, s.userId.value).value, name)
    ensures r.outcome == Ok ==>
      && var uid := s.userId.value;
      && var c := FirstJoinedClass(st, uid).value;
      && uid in st.classes[c].members
      && (forall d :: d < c && d in st.classes ==> uid !in st.classes[d].members)
      && var g := st.nextId;
      && r.st.groups.Keys == st.groups.Keys + {g}
      && r.st.groups[g].name == name
      && r.st.groups[g].classId == c
      && r.st.groups[g].leader == uid
      && r.st.groups[g].members == [uid]
      && r.st.groups[g].whitelist == []
      && (Sound(h) ==> h.verify(password, r.st.groups[g].passwordHash))
      && (forall x :: x in st.groups && x != g ==> r.st.groups[x] == st.groups[x])
      && r.st.users == st.users
      && OnlyChanged(st, r.st, {Groups})
  {
    LeaderRequired(st, s, (st: State, s: Session, uid: UserId) => CreateGroupAs(st, h, s, uid, name, password))
  }

  // ---------------------------------------------------------------------

  function AcceptInvitationAs(st: State, s: Session, uid: UserId, gid: GroupId): Step {
    if gid !in st.groups then Step(NotFound, st, s)
    else if s.email.None? || s.email.value !in st.groups[gid].whitelist then Step(NotWhitelisted, st, s)
    else if uid in st.groups[gid].members then Step(AlreadyMember, st, s)
    else Step(Ok, AddMember(st, gid, uid).st, s)
  }

  /** The session's e-mail is on the group's whitelist. */
  predicate Whitelisted(st: State, s: Session, gid: GroupId)
    requires gid in st.groups
  {
    s.email.Some? && s.email.value in st.groups[gid].whitelist
  }

  /** `accept_group_invitation`: checks, in this order, that the group
      exists, that the session's e-mail is whitelisted and that the caller is
      not yet a member; only then is the caller appended to the members. The
      whitelist is left as it is. */
  function AcceptInvitation(st: State, s: Session, gid: GroupId): (r: Step)
    ensures r.session == s || (r.outcome == UnknownUser && r.session == Anonymous)
    ensures r.outcome != Ok ==> r.st == st
    ensures Admits(LoginGate, st, s) ==>
      && (r.outcome == NotFound <==> gid !in st.groups)
      && (r.outcome == NotWhitelisted <==> gid in st.groups && !Whitelisted(st, s, gid))
      && (r.outcome == AlreadyMember <==>
            gid in st.groups && Whitelisted(st, s, gid) && s.userId.value in st.groups[gid].members)
    ensures r.outcome == Ok <==>
      && Admits(LoginGate, st, s) && gid in st.groups && Whitelisted(st, s, gid)
      && s.userId.value !in st.groups[gid].members
    ensures r.outcome == Ok ==>
      && var uid := s.userId.value;
      && r.st.groups.Keys == st.groups.Keys
      && r.st.groups[gid].members == st.groups[gid].members + [uid]
      && r.st.groups[gid].whitelist == st.groups[gid].whitelist
      && r.st.groups[gid].(members := st.groups[gid].members) == st.groups[gid]
      && (forall g :: g in st.groups && g != gid ==> r.st.groups[g] == st.groups[g])
      && OnlyChanged(st, r.st, {Groups})
  {
    LoginRequired(st, s, (st: State, s: Session, uid: UserId) => AcceptInvitationAs(st, s, uid, gid))
  }

  // ---------------------------------------------------------------------

  function AddWhitelistAs(st: State, s: Session, uid: UserId, gid: GroupId, email: string): Step {
    if !Leads(st, uid, gid) then Step(Unauthorized, st, s)
    else Step(Ok, AddWhitelistEmail(st, gid, email).st, s)
  }

  /** `add_whitelist`: only the group's leader whitelists; an e-mail already
      on the list is reported as added and left single. */
  function AddWhitelist(st: State, s: Session, gid: GroupId, email: string): (r: Step)
    ensures r.session == s
    ensures r.outcome != Ok ==> r.st == st
    ensures r.outcome == Ok <==> Admits(LeaderGate, st, s) && Leads(st, s.userId.value, gid)
    ensures Admits(LeaderGate, st, s) && !Leads(st, s.userId.value, gid) ==> r.outcome == Unauthorized
    ensures r.outcome == Ok ==>
      && r.st.groups.Keys == st.groups.Keys
      && (forall e :: e in r.st.groups[gid].whitelist <==> e in st.groups[gid].whitelist || e == email)
      && (NoDup(st.groups[gid].whitelist) ==> NoDup(r.st.groups[gid].whitelist))
      && r.st.groups[gid].(whitelist := st.groups[gid].whitelist) == st.groups[gid]
      && (forall g :: g in st.groups && g != gid ==> r.st.groups[g] == st.groups[g])
      && OnlyChanged(st, r.st, {Groups})
    ensures r.outcome == Ok && email in st.groups[gid].whitelist ==> r.st == st
    ensures r.outcome == Ok && email !in st.groups[gid].whitelist ==>
      r.st.groups[gid].whitelist == st.groups[gid].whitelist + [email]
  {
    LeaderRequired(st, s, (st: State, s: Session, uid: UserId) => AddWhitelistAs(st, s, uid, gid, email))
  }

  function RemoveWhitelistAs(st: State, s: Session, uid: UserId, gid: GroupId, email: string): Step {
    if !Leads(st, uid, gid) then Step(Unauthorized, st, s)
    else Step(Ok, RemoveWhitelistEmail(st, gid, email).st, s)
  }

  /** `remove_whitelist`: only the group's leader removes; removing an
      e-mail that is not listed changes nothing. */
  function RemoveWhitelist(st: State, s: Session, gid: GroupId, email: string): (r: Step)
    ensures r.session == s
    ensures r.outcome != Ok ==> r.st == st
    ensures r.outcome == Ok <==> Admits(LeaderGate, st, s) && Leads(st, s.userId.value, gid)
    ensures Admits(LeaderGate, st, s) && !Leads(st, s.userId.value, gid) ==> r.outcome == Unauthorized
    ensures r.outcome == Ok && email !in st.groups[gid].whitelist ==> r.st == st
    ensures r.outcome == Ok ==>
      && r.st.groups.Keys == st.groups.Keys
      && (forall e :: e in r.st.groups[gid].whitelist ==> e in st.groups[gid].whitelist)
      && (forall e :: e in st.groups[gid].whitelist && e != email ==> e in r.st.groups[gid].whitelist)
      && (NoDup(st.groups[gid].whitelist) ==> email !in r.st.groups[gid].whitelist)
      && r.st.groups[gid].(whitelist := st.groups[gid].whitelist) == st.groups[gid]
      && (forall g :: g in st.groups && g != gid ==> r.st.groups[g] == st.groups[g])
      && OnlyChanged(st, r.st, {Groups})
  {
    LeaderRequired(st, s, (st: State, s: Session, uid: UserId) => RemoveWhitelistAs(st, s, uid, gid, email))
  }
}
