/** The model layer: the class methods of `UserModel`, `ClassModel`,
    `GroupModel`, `TaskModel`, `SubmissionModel` and
    `CompiledSubmissionModel`, each a pure function from the database (and
    its arguments) to its return value and the database after the call. */
module Models {
  import opened Wrappers
  import opened Lists
  import opened Store
  import opened Crypto
  import opened Divisions

  /** The boolean a `save()`-ing class method returns, with the database
      after it. */
  datatype Saved = Saved(ok: bool, st: State)

  /** A document inserted under the id `id`. */
  datatype Inserted = Inserted(id: Id, st: State)

  // ===================== UserModel =====================

  /** `UserModel.create`: refused (the unique index on `email` raises) when
      the e-mail is already registered. */
  function CreateUser(st: State, h: Hasher, email: string, password: string, role: Role): (r: Option<Inserted>)
    ensures r.None? <==> EmailTaken(st, email)
    ensures r.Some? ==> r.value.id == st.nextId && r.value.st.nextId == st.nextId + 1
    ensures r.Some? ==> r.value.st.users.Keys == st.users.Keys + {r.value.id}
    ensures r.Some? ==> forall u :: u in st.users && u != r.value.id ==> r.value.st.users[u] == st.users[u]
    ensures r.Some? ==> r.value.st.users[r.value.id].email == email && r.value.st.users[r.value.id].role == role
    ensures r.Some? && Sound(h) ==> h.verify(password, r.value.st.users[r.value.id].passwordHash)
    ensures r.Some? ==> OnlyChanged(st, r.value.st, {Users})
  {
    if exists u :: u in st.users && st.users[u].email == email then None
    else
      var id := st.nextId;
      Some(Inserted(id, st.(users := st.users[id := User(email, h.hash(password), role)], nextId := id + 1)))
  }

  /** `UserModel.authenticate`: the account registered under `email`, if
      the password verifies against its digest. */
  function Authenticate(st: State, h: Hasher, email: string, password: string): (r: Option<UserId>)
    ensures r.Some? ==> r.value in st.users && st.users[r.value].email == email
    ensures r.Some? ==> h.verify(password, st.users[r.value].passwordHash)
    ensures UserByEmail(st, email).None? ==> r.None?
  {
    match UserByEmail(st, email)
    case None => None
    case Some(u) => if h.verify(password, st.users[u].passwordHash) then Some(u) else None
  }

  /** `UserModel.update_role`. */
  function UpdateRole(st: State, uid: UserId, role: Role): (r: Saved)
    ensures r.ok <==> uid in st.users
    ensures !r.ok ==> r.st == st
    ensures r.st.users.Keys == st.users.Keys
    ensures r.ok ==> r.st.users[uid].role == role
    ensures r.ok ==> r.st.users[uid].email == st.users[uid].email
    ensures r.ok ==> r.st.users[uid].passwordHash == st.users[uid].passwordHash
    ensures forall u :: u in st.users && u != uid ==> r.st.users[u] == st.users[u]
    ensures OnlyChanged(st, r.st, {Users}) && r.st.nextId == st.nextId
  {
    if uid in st.users then Saved(true, st.(users := st.users[uid := st.users[uid].(role := role)]))
    else Saved(false, st)
  }

  // ===================== ClassModel =====================

  /** `ClassModel.create`: refused when the name is taken (unique field). */
  function CreateClass(st: State, h: Hasher, name: string, password: string, lecturer: UserId): (r: Option<Inserted>)
    ensures r.None? <==> ClassNameTaken(st, name)
    ensures r.Some? ==> r.value.id == st.nextId && r.value.st.nextId == st.nextId + 1
    ensures r.Some? ==> r.value.st.classes.Keys == st.classes.Keys + {r.value.id}
    ensures r.Some? ==> forall c :: c in st.classes && c != r.value.id ==> r.value.st.classes[c] == st.classes[c]
    ensures r.Some? ==> var c := r.value.st.classes[r.value.id];
      c.name == name && c.lecturer == lecturer && c.members == []
    ensures r.Some? && Sound(h) ==> h.verify(password, r.value.st.classes[r.value.id].passwordHash)
    ensures r.Some? ==> OnlyChanged(st, r.value.st, {Classes})
  {
    if exists c :: c in st.classes && st.classes[c].name == name then None
    else
      var id := st.nextId;
      Some(Inserted(id, st.(classes := st.classes[id := Class(name, h.hash(password), lecturer, [])], nextId := id + 1)))
  }

  /** `ClassModel.verify_password`, looking the class up by name. */
  function VerifyClassPassword(st: State, h: Hasher, name: string, password: string): (r: bool)
    ensures ClassByName(st, name).None? ==> !r
    ensures r <==> ClassByName(st, name).Some?
                   && h.verify(password, st.classes[ClassByName(st, name).value].passwordHash)
  {
    match ClassByName(st, name)
    case None => false
    case Some(c) => h.verify(password, st.classes[c].passwordHash)
  }

  /** `ClassModel.add_leader`: put the user on the class's member list
      unless it is there already. */
  function AddLeader(st: State, cid: ClassId, uid: UserId): (r: Saved)
    ensures r.ok <==> cid in st.classes && uid in st.users
    ensures !r.ok ==> r.st == st
    ensures r.ok ==> r.st.classes.Keys == st.classes.Keys
    ensures r.ok ==> forall x :: x in r.st.classes[cid].members <==> x in st.classes[cid].members || x == uid
    ensures r.ok && uid in st.classes[cid].members ==> r.st == st
    ensures r.ok && uid !in st.classes[cid].members ==>
      r.st.classes[cid].members == st.classes[cid].members + [uid]
    ensures r.ok ==> r.st.classes[cid].(members := st.classes[cid].members) == st.classes[cid]
    ensures forall c :: c in st.classes && c != cid ==> r.st.classes[c] == st.classes[c]
    ensures cid in st.classes && NoDup(st.classes[cid].members) ==> NoDup(r.st.classes[cid].members)
    ensures OnlyChanged(st, r.st, {Classes}) && r.st.nextId == st.nextId
  {
    if cid in st.classes && uid in st.users then
      var c := st.classes[cid];
      if uid in c.members then Saved(true, st)
      else
        NoDupAppend(c.members, uid);
        Saved(true, st.(classes := st.classes[cid := c.(members := c.members + [uid])]))
    else Saved(false, st)
  }

  // ===================== GroupModel =====================

  /** `GroupModel.create`: the creator leads the group and is its only
      member. Refused when the class already has a group of that name. */
  function CreateGroup(st: State, h: Hasher, cid: ClassId, leader: UserId, name: string, password: string): (r: Option<Inserted>)
    ensures r.None? <==> GroupNameTaken(st, cid, name)
    ensures r.Some? ==> r.value.id == st.nextId && r.value.st.nextId == st.nextId + 1
    ensures r.Some? ==> r.value.st.groups.Keys == st.groups.Keys + {r.value.id}
    ensures r.Some? ==> forall g :: g in st.groups && g != r.value.id ==> r.value.st.groups[g] == st.groups[g]
    ensures r.Some? ==> var g := r.value.st.groups[r.value.id];
      g.name == name && g.classId == cid && g.leader == leader && g.members == [leader] && g.whitelist == []
    ensures r.Some? && Sound(h) ==> h.verify(password, r.value.st.groups[r.value.id].passwordHash)
    ensures r.Some? ==> OnlyChanged(st, r.value.st, {Groups})
  {
    if exists g :: g in st.groups && st.groups[g].name == name && st.groups[g].classId == cid then None
    else
      var id := st.nextId;
      var g := Group(name, h.hash(password), cid, leader, [leader], []);
      Some(Inserted(id, st.(groups := st.groups[id := g], nextId := id + 1)))
  }

  /** `GroupModel.verify_password`. */
  function VerifyGroupPassword(st: State, h: Hasher, gid: GroupId, password: string): (r: bool)
    ensures gid !in st.groups ==> !r
    ensures r <==> gid in st.groups && h.verify(password, st.groups[gid].passwordHash)
  {
    gid in st.groups && h.verify(password, st.groups[gid].passwordHash)
  }

  /** `GroupModel.add_member`: appends only a new member of an existing
      group; otherwise returns false and writes nothing. */
  function AddMember(st: State, gid: GroupId, uid: UserId): (r: Saved)
    ensures r.ok <==> gid in st.groups && uid in st.users && uid !in st.groups[gid].members
    ensures !r.ok ==> r.st == st
    ensures r.ok ==> r.st.groups.Keys == st.groups.Keys
    ensures r.ok ==> forall x :: x in r.st.groups[gid].members <==> x in st.groups[gid].members || x == uid
    ensures r.ok ==> |r.st.groups[gid].members| == |st.groups[gid].members| + 1
    ensures r.ok ==> r.st.groups[gid].members == st.groups[gid].members + [uid]
    ensures r.ok ==> r.st.groups[gid].(members := st.groups[gid].members) == st.groups[gid]
    ensures forall g :: g in st.groups && g != gid ==> r.st.groups[g] == st.groups[g]
    ensures gid in st.groups && NoDup(st.groups[gid].members) ==> NoDup(r.st.groups[gid].members)
    ensures OnlyChanged(st, r.st, {Groups}) && r.st.nextId == st.nextId
  {
    if gid in st.groups && uid in st.users && uid !in st.groups[gid].members then
      var g := st.groups[gid];
      NoDupAppend(g.members, uid);
      Saved(true, st.(groups := st.groups[gid := g.(members := g.members + [uid])]))
    else Saved(false, st)
  }

  /** `GroupModel.add_whitelist_email`: an e-mail already listed is a
      no-op returning false. */
  function AddWhitelistEmail(st: State, gid: GroupId, email: string): (r: Saved)
    ensures r.ok <==> gid in st.groups && email !in st.groups[gid].whitelist
    ensures !r.ok ==> r.st == st
    ensures r.ok ==> r.st.groups.Keys == st.groups.Keys
    ensures r.ok ==> forall e :: e in r.st.groups[gid].whitelist <==> e in st.groups[gid].whitelist || e == email
    ensures r.ok ==> r.st.groups[gid].whitelist == st.groups[gid].whitelist + [email]
    ensures r.ok ==> r.st.groups[gid].(whitelist := st.groups[gid].whitelist) == st.groups[gid]
    ensures forall g :: g in st.groups && g != gid ==> r.st.groups[g] == st.groups[g]
    ensures gid in st.groups && NoDup(st.groups[gid].whitelist) ==> NoDup(r.st.groups[gid].whitelist)
    ensures OnlyChanged(st, r.st, {Groups}) && r.st.nextId == st.nextId
  {
    if gid in st.groups && email !in st.groups[gid].whitelist then
      var g := st.groups[gid];
      NoDupAppend(g.whitelist, email);
      Saved(true, st.(groups := st.groups[gid := g.(whitelist := g.whitelist + [email])]))
    else Saved(false, st)
  }

  /** `GroupModel.remove_whitelist_email`: removes a listed e-mail; an
      absent one is a no-op returning false. */
  function RemoveWhitelistEmail(st: State, gid: GroupId, email: string): (r: Saved)
    ensures r.ok <==> gid in st.groups && email in st.groups[gid].whitelist
    ensures !r.ok ==> r.st == st
    ensures r.ok ==> r.st.groups.Keys == st.groups.Keys
    ensures r.ok ==> |r.st.groups[gid].whitelist| == |st.groups[gid].whitelist| - 1
    ensures r.ok ==> forall e :: e in r.st.groups[gid].whitelist ==> e in st.groups[gid].whitelist
    ensures r.ok ==> forall e :: e in st.groups[gid].whitelist && e != email ==> e in r.st.groups[gid].whitelist
    ensures r.ok && NoDup(st.groups[gid].whitelist) ==> email !in r.st.groups[gid].whitelist
    ensures r.ok ==> r.st.groups[gid].(whitelist := st.groups[gid].whitelist) == st.groups[gid]
    ensures forall g :: g in st.groups && g != gid ==> r.st.groups[g] == st.groups[g]
    ensures gid in st.groups && NoDup(st.groups[gid].whitelist) ==> NoDup(r.st.groups[gid].whitelist)
    ensures OnlyChanged(st, r.st, {Groups}) && r.st.nextId == st.nextId
  {
    if gid in st.groups && email in st.groups[gid].whitelist then
      var g := st.groups[gid];
      Saved(true, st.(groups := st.groups[gid := g.(whitelist := RemoveFirst(g.whitelist, email))]))
    else Saved(false, st)
  }

  // ===================== TaskModel =====================

  /** `TaskModel.create`: no uniqueness constraint, always inserts. */
  function CreateTask(
    st: State, cid: ClassId, lecturer: UserId, title: string,
    description: Option<string>, filePath: Option<string>, dueDate: Option<Time>): (r: Inserted)
    ensures r.id == st.nextId && r.st.nextId == st.nextId + 1
    ensures r.st.tasks.Keys == st.tasks.Keys + {r.id}
    ensures forall t :: t in st.tasks && t != r.id ==> r.st.tasks[t] == st.tasks[t]
    ensures r.st.tasks[r.id] == Task(cid, lecturer, title, description, filePath, dueDate, [])
    ensures OnlyChanged(st, r.st, {Tasks})
  {
    var id := st.nextId;
    Inserted(id, st.(tasks := st.tasks[id := Task(cid, lecturer, title, description, filePath, dueDate, [])], nextId := id + 1))
  }

  /** `TaskModel.add_division`: replace member `uid`'s division of the task
      by one with `part`, placed last. */
  function AddDivision(st: State, tid: TaskId, uid: UserId, part: string): (r: Saved)
    ensures r.ok <==> tid in st.tasks
    ensures !r.ok ==> r.st == st
    ensures r.ok ==> r.st.tasks.Keys == st.tasks.Keys
    ensures r.ok ==> var divs := r.st.tasks[tid].divisions;
      && Only(divs, uid) == [Division(uid, part)]
      && divs[|divs| - 1] == Division(uid, part)
      && Without(divs, uid) == Without(st.tasks[tid].divisions, uid)
      && (forall n :: n != uid ==> Only(divs, n) == Only(st.tasks[tid].divisions, n))
    ensures r.ok ==> r.st.tasks[tid].(divisions := st.tasks[tid].divisions) == st.tasks[tid]
    ensures forall t :: t in st.tasks && t != tid ==> r.st.tasks[t] == st.tasks[t]
    ensures OnlyChanged(st, r.st, {Tasks}) && r.st.nextId == st.nextId
  {
    if tid in st.tasks then
      var t := st.tasks[tid];
      Saved(true, st.(tasks := st.tasks[tid := t.(divisions := Reassign(t.divisions, uid, part))]))
    else Saved(false, st)
  }

  // ===================== SubmissionModel =====================

  /** `SubmissionModel.create`; the unique `(task, member)` index refuses a
      second submission of the same member for the same task. */
  function CreateSubmission(
    st: State, tid: TaskId, gid: GroupId, uid: UserId, text: string, pdfPath: Option<string>, now: Time): (r: Option<Inserted>)
    ensures r.None? <==> SubmissionExists(st, tid, uid)
    ensures r.Some? ==> r.value.id == st.nextId && r.value.st.nextId == st.nextId + 1
    ensures r.Some? ==> r.value.st.submissions.Keys == st.submissions.Keys + {r.value.id}
    ensures r.Some? ==> forall s :: s in st.submissions && s != r.value.id ==> r.value.st.submissions[s] == st.submissions[s]
    ensures r.Some? ==> r.value.st.submissions[r.value.id] == Submission(tid, gid, uid, text, pdfPath, now)
    ensures r.Some? ==> OnlyChanged(st, r.value.st, {Submissions})
  {
    if exists s :: s in st.submissions && st.submissions[s].task == tid && st.submissions[s].member == uid then None
    else
      var id := st.nextId;
      Some(Inserted(id, st.(submissions := st.submissions[id := Submission(tid, gid, uid, text, pdfPath, now)], nextId := id + 1)))
  }

  // ===================== CompiledSubmissionModel =====================

  /** `CompiledSubmissionModel.create`; the unique `(group, task)` index
      refuses a second record for the same pair. */
  function CreateCompiled(st: State, gid: GroupId, tid: TaskId, pdfPath: string, now: Time): (r: Option<Inserted>)
    ensures r.None? <==> CompiledExists(st, gid, tid)
    ensures r.Some? ==> r.value.id == st.nextId && r.value.st.nextId == st.nextId + 1
    ensures r.Some? ==> r.value.st.compiled.Keys == st.compiled.Keys + {r.value.id}
    ensures r.Some? ==> forall c :: c in st.compiled && c != r.value.id ==> r.value.st.compiled[c] == st.compiled[c]
    ensures r.Some? ==> r.value.st.compiled[r.value.id] == Compiled(gid, tid, pdfPath, now)
    ensures r.Some? ==> OnlyChanged(st, r.value.st, {CompiledSubmissions})
  {
    if exists c :: c in st.compiled && st.compiled[c].group == gid && st.compiled[c].task == tid then None
    else
      var id := st.nextId;
      Some(Inserted(id, st.(compiled := st.compiled[id := Compiled(gid, tid, pdfPath, now)], nextId := id + 1)))
  }
}
