/** What the model-layer operations promise together: every write keeps the
    database invariant, creations are found again by the queries that look
    them up, and the list updates are idempotent or undo each other. */
module ModelProperties {
  import opened Wrappers
  import opened Lists
  import opened Store
  import opened Crypto
  import opened Divisions
  import opened Models

  // ===================== the invariant is kept =====================

  lemma CreateUserValid(st: State, h: Hasher, email: string, password: string, role: Role)
    requires Valid(st)
    ensures CreateUser(st, h, email, password, role).Some? ==> Valid(CreateUser(st, h, email, password, role).value.st)
  {
  }

  lemma UpdateRoleValid(st: State, uid: UserId, role: Role)
    requires Valid(st)
    ensures Valid(UpdateRole(st, uid, role).st)
  {
  }

  lemma CreateClassValid(st: State, h: Hasher, name: string, password: string, lecturer: UserId)
    requires Valid(st)
    ensures CreateClass(st, h, name, password, lecturer).Some? ==> Valid(CreateClass(st, h, name, password, lecturer).value.st)
  {
  }

  lemma AddLeaderValid(st: State, cid: ClassId, uid: UserId)
    requires Valid(st)
    ensures Valid(AddLeader(st, cid, uid).st)
  {
  }

  lemma CreateGroupValid(st: State, h: Hasher, cid: ClassId, leader: UserId, name: string, password: string)
    requires Valid(st)
    ensures CreateGroup(st, h, cid, leader, name, password).Some? ==> Valid(CreateGroup(st, h, cid, leader, name, password).value.st)
  {
  }

  lemma AddMemberValid(st: State, gid: GroupId, uid: UserId)
    requires Valid(st)
    ensures Valid(AddMember(st, gid, uid).st)
  {
  }

  lemma AddWhitelistEmailValid(st: State, gid: GroupId, email: string)
    requires Valid(st)
    ensures Valid(AddWhitelistEmail(st, gid, email).st)
  {
  }

  lemma RemoveWhitelistEmailValid(st: State, gid: GroupId, email: string)
    requires Valid(st)
    ensures Valid(RemoveWhitelistEmail(st, gid, email).st)
  {
  }

  lemma CreateTaskValid(st: State, cid: ClassId, lecturer: UserId, title: string,
                        description: Option<string>, filePath: Option<string>, dueDate: Option<Time>)
    requires Valid(st)
    ensures Valid(CreateTask(st, cid, lecturer, title, description, filePath, dueDate).st)
  {
  }

  lemma AddDivisionValid(st: State, tid: TaskId, uid: UserId, part: string)
    requires Valid(st)
    ensures Valid(AddDivision(st, tid, uid, part).st)
  {
  }

  lemma CreateSubmissionValid(st: State, tid: TaskId, gid: GroupId, uid: UserId, text: string, pdfPath: Option<string>, now: Time)
    requires Valid(st)
    ensures CreateSubmission(st, tid, gid, uid, text, pdfPath, now).Some? ==> Valid(CreateSubmission(st, tid, gid, uid, text, pdfPath, now).value.st)
  {
  }

  lemma CreateCompiledValid(st: State, gid: GroupId, tid: TaskId, pdfPath: string, now: Time)
    requires Valid(st)
    ensures CreateCompiled(st, gid, tid, pdfPath, now).Some? ==> Valid(CreateCompiled(st, gid, tid, pdfPath, now).value.st)
  {
  }

  // ===================== creations are found again =====================

  /** A freshly registered account logs in with the password it was
      registered with. */
  lemma CreateUserThenAuthenticate(st: State, h: Hasher, email: string, password: string, role: Role)
    requires Valid(st) && Sound(h)
    requires CreateUser(st, h, email, password, role).Some?
    ensures var ins := CreateUser(st, h, email, password, role).value;
      Authenticate(ins.st, h, email, password) == Some(ins.id)
  {
    var ins := CreateUser(st, h, email, password, role).value;
    CreateUserValid(st, h, email, password, role);
    UserByEmailExact(ins.st, email, ins.id);
  }

  /** On a valid database, the owner of the e-mail logs in exactly when the
      password verifies against its digest. */
  lemma AuthenticateExact(st: State, h: Hasher, email: string, password: string, u: UserId)
    requires Valid(st)
    requires u in st.users && st.users[u].email == email
    ensures Authenticate(st, h, email, password) == Some(u) <==> h.verify(password, st.users[u].passwordHash)
    ensures Authenticate(st, h, email, password).None? <==> !h.verify(password, st.users[u].passwordHash)
  {
    UserByEmailExact(st, email, u);
  }

  /** A class's own password opens it right after it is created. */
  lemma CreateClassThenVerify(st: State, h: Hasher, name: string, password: string, lecturer: UserId)
    requires Valid(st) && Sound(h)
    requires CreateClass(st, h, name, password, lecturer).Some?
    ensures var ins := CreateClass(st, h, name, password, lecturer).value;
      ClassByName(ins.st, name) == Some(ins.id) && VerifyClassPassword(ins.st, h, name, password)
  {
    var ins := CreateClass(st, h, name, password, lecturer).value;
    CreateClassValid(st, h, name, password, lecturer);
    ClassByNameExact(ins.st, name, ins.id);
  }

  /** A group's own password opens it right after it is created. */
  lemma CreateGroupThenVerify(st: State, h: Hasher, cid: ClassId, leader: UserId, name: string, password: string)
    requires Sound(h)
    requires CreateGroup(st, h, cid, leader, name, password).Some?
    ensures var ins := CreateGroup(st, h, cid, leader, name, password).value;
      VerifyGroupPassword(ins.st, h, ins.id, password)
  {
  }

  /** A stored submission is what `get_by_task_and_member` returns. */
  lemma CreateSubmissionThenFind(st: State, tid: TaskId, gid: GroupId, uid: UserId, text: string, pdfPath: Option<string>, now: Time)
    requires Valid(st)
    requires CreateSubmission(st, tid, gid, uid, text, pdfPath, now).Some?
    ensures var ins := CreateSubmission(st, tid, gid, uid, text, pdfPath, now).value;
      SubmissionOf(ins.st, tid, uid) == Some(ins.id)
  {
    var ins := CreateSubmission(st, tid, gid, uid, text, pdfPath, now).value;
    CreateSubmissionValid(st, tid, gid, uid, text, pdfPath, now);
    SubmissionOfExact(ins.st, tid, uid, ins.id);
  }

  /** A stored compiled submission is what `get_by_task_and_group` returns. */
  lemma CreateCompiledThenFind(st: State, gid: GroupId, tid: TaskId, pdfPath: string, now: Time)
    requires Valid(st)
    requires CreateCompiled(st, gid, tid, pdfPath, now).Some?
    ensures var ins := CreateCompiled(st, gid, tid, pdfPath, now).value;
      CompiledOf(ins.st, tid, gid) == Some(ins.id)
  {
    var ins := CreateCompiled(st, gid, tid, pdfPath, now).value;
    CreateCompiledValid(st, gid, tid, pdfPath, now);
    CompiledOfExact(ins.st, tid, gid, ins.id);
  }

  // ===================== set-like list updates =====================

  /** `add_leader` is idempotent. */
  lemma AddLeaderIdempotent(st: State, cid: ClassId, uid: UserId)
    ensures AddLeader(AddLeader(st, cid, uid).st, cid, uid) == AddLeader(st, cid, uid)
  {
  }

  /** A second `add_member` of the same user returns false and writes
      nothing; the member occurs once. */
  lemma AddMemberTwice(st: State, gid: GroupId, uid: UserId)
    requires AddMember(st, gid, uid).ok
    ensures var once := AddMember(st, gid, uid).st;
      AddMember(once, gid, uid) == Saved(false, once)
  {
  }

  /** Adding a listed e-mail again changes nothing. */
  lemma AddWhitelistTwice(st: State, gid: GroupId, email: string)
    ensures var once := AddWhitelistEmail(st, gid, email).st;
      AddWhitelistEmail(once, gid, email) == Saved(false, once)
  {
  }

  /** Removing an e-mail just added to the whitelist restores the group. */
  lemma AddThenRemoveWhitelist(st: State, gid: GroupId, email: string)
    requires gid in st.groups && email !in st.groups[gid].whitelist
    ensures RemoveWhitelistEmail(AddWhitelistEmail(st, gid, email).st, gid, email) == Saved(true, st)
  {
    var g := st.groups[gid];
    var ga := g.(whitelist := g.whitelist + [email]);
    var added := st.(groups := st.groups[gid := ga]);
    assert AddWhitelistEmail(st, gid, email).st == added;
    var back := RemoveFirst(ga.whitelist, email);
    assert RemoveWhitelistEmail(added, gid, email) == Saved(true, added.(groups := added.groups[gid := ga.(whitelist := back)]));
    RemoveAppended(g.whitelist, email);
    WhitelistRestored(st, gid, ga, back);
  }

  /** Putting a group's own whitelist back after changing only that list
      gives back the store. */
  lemma WhitelistRestored(st: State, gid: GroupId, ga: Group, back: seq<string>)
    requires gid in st.groups && ga.(whitelist := back) == st.groups[gid]
    ensures var added := st.(groups := st.groups[gid := ga]);
      added.(groups := added.groups[gid := ga.(whitelist := back)]) == st
  {
    assert st.groups[gid := ga][gid := ga.(whitelist := back)] == st.groups;
  }

  /** Dividing twice for one member leaves only the second division, as if
      the first had never been written. */
  lemma AddDivisionOverwrites(st: State, tid: TaskId, uid: UserId, first: string, second: string)
    ensures AddDivision(AddDivision(st, tid, uid, first).st, tid, uid, second) == AddDivision(st, tid, uid, second)
  {
    if tid in st.tasks {
      var t := st.tasks[tid];
      var once := AddDivision(st, tid, uid, first).st;
      assert once == st.(tasks := st.tasks[tid := t.(divisions := Reassign(t.divisions, uid, first))]);
      ReassignOverwrites(t.divisions, uid, first, second);
      assert once.tasks[tid := t.(divisions := Reassign(t.divisions, uid, second))]
          == st.tasks[tid := t.(divisions := Reassign(t.divisions, uid, second))];
    }
  }
}
