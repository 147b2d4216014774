/** The six collections of the classroom database (users, classes, groups,
    tasks, submissions, compiled submissions) as one immutable value, the
    queries the application runs against them, and the uniqueness
    constraints the storage layer enforces, stated as an invariant. */
module Store {
  import opened Wrappers
  import opened Lists

  /** Document ids. Mongo generates them; the model draws them from one
      counter, so a fresh id is always above every id in use. */
  type Id = nat
  type UserId = Id
  type ClassId = Id
  type GroupId = Id
  type TaskId = Id
  type SubmissionId = Id
  type CompiledId = Id

  /** A reading of an abstract clock (creation and compilation times). */
  type Time = nat

  datatype Role = Lecturer | Leader | Member

  datatype User = User(email: string, passwordHash: string, role: Role)

  datatype Class = Class(name: string, passwordHash: string, lecturer: UserId, members: seq<UserId>)

  datatype Group = Group(
    name: string,
    passwordHash: string,
    classId: ClassId,
    leader: UserId,
    members: seq<UserId>,
    whitelist: seq<string>)

  /** One entry of a task's `divisions` list: the part of the task a member
      is to work on. */
  datatype Division = Division(member: UserId, part: string)

  /** A task of a class. A text task carries a description, a file task the
      stored path of its attachment. */
  datatype Task = Task(
    classId: ClassId,
    lecturer: UserId,
    title: string,
    description: Option<string>,
    filePath: Option<string>,
    dueDate: Option<Time>,
    divisions: seq<Division>)

  datatype Submission = Submission(
    task: TaskId,
    group: GroupId,
    member: UserId,
    text: string,
    pdfPath: Option<string>,
    submittedAt: Time)

  datatype Compiled = Compiled(group: GroupId, task: TaskId, pdfPath: string, compiledAt: Time)

  datatype State = State(
    users: map<UserId, User>,
    classes: map<ClassId, Class>,
    groups: map<GroupId, Group>,
    tasks: map<TaskId, Task>,
    submissions: map<SubmissionId, Submission>,
    compiled: map<CompiledId, Compiled>,
    nextId: Id)

  /** The empty database. */
  const Empty := State(map[], map[], map[], map[], map[], map[], 0)

  /** The collections, for stating which of them an operation writes. */
  datatype Collection = Users | Classes | Groups | Tasks | Submissions | CompiledSubmissions

  /** `b` differs from `a` at most in the collections listed in `touched`
      and in the id counter. */
  ghost predicate OnlyChanged(a: State, b: State, touched: set<Collection>) {
    && (Users !in touched ==> b.users == a.users)
    && (Classes !in touched ==> b.classes == a.classes)
    && (Groups !in touched ==> b.groups == a.groups)
    && (Tasks !in touched ==> b.tasks == a.tasks)
    && (Submissions !in touched ==> b.submissions == a.submissions)
    && (CompiledSubmissions !in touched ==> b.compiled == a.compiled)
  }

  /** A query's `.first()`: the smallest id in `[from, bound)` whose document
      satisfies `p`. Documents come back in insertion order, which is id
      order here. */
  function FirstMatch<V>(m: map<Id, V>, p: V -> bool, from: Id, bound: Id): (r: Option<Id>)
    ensures r.Some? ==> from <= r.value < bound && r.value in m && p(m[r.value])
    ensures r.Some? ==> forall k :: from <= k < r.value && k in m ==> !p(m[k])
    ensures r.None? ==> forall k :: from <= k < bound && k in m ==> !p(m[k])
    decreases bound - from
  {
    if from >= bound then None
    else if from in m && p(m[from]) then Some(from)
    else FirstMatch(m, p, from + 1, bound)
  }

  /** `UserModel.get_by_email(email)`. */
  function UserByEmail(st: State, email: string): (r: Option<UserId>)
    ensures r.Some? ==> r.value in st.users && st.users[r.value].email == email
    ensures r.None? ==> forall u :: u in st.users && u < st.nextId ==> st.users[u].email != email
  {
    FirstMatch(st.users, (u: User) => u.email == email, 0, st.nextId)
  }

  /** `ClassModel.get_by_name(name)`. */
  function ClassByName(st: State, name: string): (r: Option<ClassId>)
    ensures r.Some? ==> r.value in st.classes && st.classes[r.value].name == name
    ensures r.None? ==> forall c :: c in st.classes && c < st.nextId ==> st.classes[c].name != name
  {
    FirstMatch(st.classes, (c: Class) => c.name == name, 0, st.nextId)
  }

  /** `ClassModel.get_by_member(uid)[0]`: the first class, in collection
      order, whose member list contains the user. That is the oldest such
      class, not the one the user joined first. */
  function FirstJoinedClass(st: State, uid: UserId): (r: Option<ClassId>)
    ensures r.Some? ==> r.value in st.classes && uid in st.classes[r.value].members
    ensures r.Some? ==> forall c :: c in st.classes && c < r.value ==> uid !in st.classes[c].members
    ensures r.None? ==> forall c :: c in st.classes && c < st.nextId ==> uid !in st.classes[c].members
  {
    FirstMatch(st.classes, (c: Class) => uid in c.members, 0, st.nextId)
  }

  /** The first group, in `GroupModel.get_by_member(uid)` order, that has
      `uid` as a member and belongs to class `cid`. */
  function FirstGroupInClass(st: State, uid: UserId, cid: ClassId): (r: Option<GroupId>)
    ensures r.Some? ==> r.value in st.groups && uid in st.groups[r.value].members && st.groups[r.value].classId == cid
    ensures r.Some? ==> forall g :: g in st.groups && g < r.value ==> !(uid in st.groups[g].members && st.groups[g].classId == cid)
    ensures r.None? ==> forall g :: g in st.groups && g < st.nextId ==> !(uid in st.groups[g].members && st.groups[g].classId == cid)
  {
    FirstMatch(st.groups, (g: Group) => uid in g.members && g.classId == cid, 0, st.nextId)
  }

  /** `SubmissionModel.get_by_task_and_member(tid, uid)`. */
  function SubmissionOf(st: State, tid: TaskId, uid: UserId): (r: Option<SubmissionId>)
    ensures r.Some? ==> r.value in st.submissions && st.submissions[r.value].task == tid && st.submissions[r.value].member == uid
    ensures r.None? ==> forall x :: x in st.submissions && x < st.nextId ==> !(st.submissions[x].task == tid && st.submissions[x].member == uid)
  {
    FirstMatch(st.submissions, (s: Submission) => s.task == tid && s.member == uid, 0, st.nextId)
  }

  /** `CompiledSubmissionModel.get_by_task_and_group(tid, gid)`. */
  function CompiledOf(st: State, tid: TaskId, gid: GroupId): (r: Option<CompiledId>)
    ensures r.Some? ==> r.value in st.compiled && st.compiled[r.value].task == tid && st.compiled[r.value].group == gid
    ensures r.None? ==> forall c :: c in st.compiled && c < st.nextId ==> !(st.compiled[c].task == tid && st.compiled[c].group == gid)
  {
    FirstMatch(st.compiled, (c: Compiled) => c.task == tid && c.group == gid, 0, st.nextId)
  }

  // ---------------------------------------------------------------------
  // The storage-level unique constraints.

  /** `UserModel.email` is declared unique. */
  ghost predicate EmailTaken(st: State, email: string) {
    exists u :: u in st.users && st.users[u].email == email
  }

  /** `ClassModel.name` is declared unique. */
  ghost predicate ClassNameTaken(st: State, name: string) {
    exists c :: c in st.classes && st.classes[c].name == name
  }

  /** Groups carry a unique index on `(name, class_obj)`. */
  ghost predicate GroupNameTaken(st: State, cid: ClassId, name: string) {
    exists g :: g in st.groups && st.groups[g].name == name && st.groups[g].classId == cid
  }

  /** Submissions carry a unique index on `(task, member)`. */
  ghost predicate SubmissionExists(st: State, tid: TaskId, uid: UserId) {
    exists s :: s in st.submissions && st.submissions[s].task == tid && st.submissions[s].member == uid
  }

  /** Compiled submissions carry a unique index on `(group, task)`. */
  ghost predicate CompiledExists(st: State, gid: GroupId, tid: TaskId) {
    exists c :: c in st.compiled && st.compiled[c].group == gid && st.compiled[c].task == tid
  }

  // ---------------------------------------------------------------------
  // The database invariant.

  ghost predicate KeysBelow<V>(m: map<Id, V>, bound: Id) {
    forall k :: k in m ==> k < bound
  }

  ghost predicate IdsFresh(st: State) {
    && KeysBelow(st.users, st.nextId)
    && KeysBelow(st.classes, st.nextId)
    && KeysBelow(st.groups, st.nextId)
    && KeysBelow(st.tasks, st.nextId)
    && KeysBelow(st.submissions, st.nextId)
    && KeysBelow(st.compiled, st.nextId)
  }

  ghost predicate UniqueEmails(st: State) {
    forall a, b :: a in st.users && b in st.users && st.users[a].email == st.users[b].email ==> a == b
  }

  ghost predicate UniqueClassNames(st: State) {
    forall a, b :: a in st.classes && b in st.classes && st.classes[a].name == st.classes[b].name ==> a == b
  }

  ghost predicate UniqueGroupNames(st: State) {
    forall a, b ::
      a in st.groups && b in st.groups
      && st.groups[a].name == st.groups[b].name && st.groups[a].classId == st.groups[b].classId
      ==> a == b
  }

  ghost predicate UniqueSubmissions(st: State) {
    forall a, b ::
      a in st.submissions && b in st.submissions
      && st.submissions[a].task == st.submissions[b].task
      && st.submissions[a].member == st.submissions[b].member
      ==> a == b
  }

  ghost predicate UniqueCompiled(st: State) {
    forall a, b ::
      a in st.compiled && b in st.compiled
      && st.compiled[a].group == st.compiled[b].group
      && st.compiled[a].task == st.compiled[b].task
      ==> a == b
  }

  /** The membership lists and whitelists stay free of duplicates. */
  ghost predicate ListsDuplicateFree(st: State) {
    && (forall c :: c in st.classes ==> NoDup(st.classes[c].members))
    && (forall g :: g in st.groups ==> NoDup(st.groups[g].members))
    && (forall g :: g in st.groups ==> NoDup(st.groups[g].whitelist))
  }

  /** At most one division per member on every task. */
  ghost predicate DivisionsUnique(st: State) {
    forall t, m :: t in st.tasks ==> |Only(st.tasks[t].divisions, m)| <= 1
  }

  /** The divisions of `divs` that belong to member `m`, in order. */
  function Only(divs: seq<Division>, m: UserId): (r: seq<Division>)
    ensures forall d :: d in r ==> d in divs && d.member == m
    ensures forall d :: d in divs && d.member == m ==> d in r
    decreases |divs|
  {
    if divs == [] then []
    else (if divs[0].member == m then [divs[0]] else []) + Only(divs[1..], m)
  }

  ghost predicate Valid(st: State) {
    && IdsFresh(st)
    && UniqueEmails(st)
    && UniqueClassNames(st)
    && UniqueGroupNames(st)
    && UniqueSubmissions(st)
    && UniqueCompiled(st)
    && ListsDuplicateFree(st)
    && DivisionsUnique(st)
  }

  lemma EmptyValid()
    ensures Valid(Empty)
  {
  }

  // ---------------------------------------------------------------------
  // On a valid database every `.first()` query finds THE matching document.

  lemma UserByEmailExact(st: State, email: string, u: UserId)
    requires Valid(st)
    ensures UserByEmail(st, email) == Some(u) <==> u in st.users && st.users[u].email == email
  {
  }

  lemma ClassByNameExact(st: State, name: string, c: ClassId)
    requires Valid(st)
    ensures ClassByName(st, name) == Some(c) <==> c in st.classes && st.classes[c].name == name
  {
  }

  lemma SubmissionOfExact(st: State, tid: TaskId, uid: UserId, s: SubmissionId)
    requires Valid(st)
    ensures SubmissionOf(st, tid, uid) == Some(s)
        <==> s in st.submissions && st.submissions[s].task == tid && st.submissions[s].member == uid
  {
  }

  lemma CompiledOfExact(st: State, tid: TaskId, gid: GroupId, c: CompiledId)
    requires Valid(st)
    ensures CompiledOf(st, tid, gid) == Some(c)
        <==> c in st.compiled && st.compiled[c].task == tid && st.compiled[c].group == gid
  {
  }

  /** A query returns the matching document that no earlier one precedes. */
  lemma FirstMatchFound<V>(m: map<Id, V>, p: V -> bool, bound: Id, k: Id)
    requires k < bound && k in m && p(m[k])
    requires forall j :: j < k && j in m ==> !p(m[j])
    ensures FirstMatch(m, p, 0, bound) == Some(k)
  {
  }

  /** On a database whose ids are all below the counter, a query finds
      nothing exactly when no document matches. */
  lemma FirstMatchNone<V>(m: map<Id, V>, p: V -> bool, bound: Id)
    requires KeysBelow(m, bound)
    ensures FirstMatch(m, p, 0, bound).None? <==> forall k :: k in m ==> !p(m[k])
  {
  }
}
