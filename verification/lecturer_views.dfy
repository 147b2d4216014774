/** The lecturer pages: `create_class`, `class_detail`, `create_task` and
    `view_submissions`, each behind `lecturer_required`. */
module LecturerViews {
  import opened Wrappers
  import opened Store
  import opened Crypto
  import opened Models
  import opened Web
  import opened Decorators

  /** The lecturer owns the class named `name`. */
  predicate OwnsClass(st: State, uid: UserId, name: string) {
    ClassByName(st, name).Some? && st.classes[ClassByName(st, name).value].lecturer == uid
  }

  /** The lecturer owns the task. */
  predicate OwnsTask(st: State, uid: UserId, tid: TaskId) {
    tid in st.tasks && st.tasks[tid].lecturer == uid
  }

  // ---------------------------------------------------------------------

  function CreateClassAs(st: State, h: Hasher, s: Session, uid: UserId, name: string, password: string): Step {
    match Models.CreateClass(st, h, name, password, uid)
    case None => Step(DuplicateName, st, s)
    case Some(ins) => Step(Ok, ins.st, s)
  }

  /** `create_class`: a lecturer creates a class it owns, with no members.
      A taken name is refused by the unique constraint (the source lets the
      storage error escape; nothing is written). */
  function CreateClassView(st: State, h: Hasher, s: Session, name: string, password: string): (r: Step)
    ensures r.session == s
    ensures r.outcome != Ok ==> r.st == st
    ensures r.outcome == Ok <==> Admits(LecturerGate, st, s) && !ClassNameTaken(st, name)
    ensures Admits(LecturerGate, st, s) && ClassNameTaken(st, name) ==> r.outcome == DuplicateName
    ensures r.outcome == Ok ==>
      && var c := st.nextId;
      && r.st.classes.Keys == st.classes.Keys + {c}
      && r.st.classes[c].name == name
      && r.st.classes[c].lecturer == s.userId.value
      && r.st.classes[c].members == []
      && (Sound(h) ==> h.verify(password, r.st.classes[c].passwordHash))
      && (forall x :: x in st.classes && x != c ==> r.st.classes[x] == st.classes[x])
      && OnlyChanged(st, r.st, {Classes})
  {
    LecturerRequired(st, s, (st: State, s: Session, uid: UserId) => CreateClassAs(st, h, s, uid, name, password))
  }

  // ---------------------------------------------------------------------

  function ClassDetailAs(st: State, s: Session, uid: UserId, name: string): Step {
    match ClassByName(st, name)
    case None => Step(NotFound, st, s)
    case Some(c) => if st.classes[c].lecturer != uid then Step(Unauthorized, st, s) else Step(Ok, st, s)
  }

  /** `class_detail`: only the owning lecturer sees a class. */
  function ClassDetail(st: State, s: Session, name: string): (r: Step)
    ensures r.st == st && r.session == s
    ensures r.outcome == Ok <==> Admits(LecturerGate, st, s) && OwnsClass(st, s.userId.value, name)
    ensures Admits(LecturerGate, st, s) && ClassByName(st, name).None? ==> r.outcome == NotFound
    ensures Admits(LecturerGate, st, s) && ClassByName(st, name).Some? && !OwnsClass(st, s.userId.value, name)
      ==> r.outcome == Unauthorized
  {
    LecturerRequired(st, s, (st: State, s: Session, uid: UserId) => ClassDetailAs(st, s, uid, name))
  }

  // ---------------------------------------------------------------------

  datatype TaskKind = TextTask | FileTask

  /** `os.path.join('tasks', file_name)`: where an uploaded attachment is
      recorded. */
  function UploadPath(fileName: string): (r: string)
    ensures |r| == |fileName| + 6 && r[..6] == "tasks/" && r[6..] == fileName
  {
    "tasks/" + fileName
  }

  function CreateTaskAs(
    st: State, s: Session, uid: UserId, className: string, title: string, kind: TaskKind,
    description: Option<string>, upload: Option<string>, dueDate: Option<Time>): Step
  {
    match ClassByName(st, className)
    case None => Step(Unauthorized, st, s)
    case Some(c) =>
      if st.classes[c].lecturer != uid then Step(Unauthorized, st, s)
      else
        var filePath := if kind == FileTask && upload.Some? then Some(UploadPath(upload.value)) else None;
        var ins := Models.CreateTask(st, c, uid, title,
                                     if kind == TextTask then description else None,
                                     if kind == FileTask then filePath else None,
                                     dueDate);
        Step(Ok, ins.st, s)
  }

  /** `create_task`: only the owning lecturer adds a task to a class. A
      text task keeps the description and no file; a file task keeps the
      uploaded file's path (if a file came) and no description. */
  function CreateTaskView(
    st: State, s: Session, className: string, title: string, kind: TaskKind,
    description: Option<string>, upload: Option<string>, dueDate: Option<Time>): (r: Step)
    ensures r.session == s
    ensures r.outcome != Ok ==> r.st == st
    ensures r.outcome == Ok <==> Admits(LecturerGate, st, s) && OwnsClass(st, s.userId.value, className)
    ensures Admits(LecturerGate, st, s) && !OwnsClass(st, s.userId.value, className) ==> r.outcome == Unauthorized
    ensures r.outcome == Ok ==>
      && var t := st.nextId;
      && r.st.tasks.Keys == st.tasks.Keys + {t}
      && var task := r.st.tasks[t];
      && task.classId == ClassByName(st, className).value
      && task.lecturer == s.userId.value
      && task.title == title
      && task.dueDate == dueDate
      && task.divisions == []
      && !(task.description.Some? && task.filePath.Some?)
      && (kind == TextTask ==> task.filePath == None)
      && (kind == FileTask ==> task.description == None)
      && (kind == TextTask ==> task.description == description)
      && (kind == FileTask ==> task.filePath == if upload.Some? then Some(UploadPath(upload.value)) else None)
      && (forall x :: x in st.tasks && x != t ==> r.st.tasks[x] == st.tasks[x])
      && OnlyChanged(st, r.st, {Tasks})
  {
    LecturerRequired(st, s, (st: State, s: Session, uid: UserId) =>
      CreateTaskAs(st, s, uid, className, title, kind, description, upload, dueDate))
  }

  // ---------------------------------------------------------------------

  function ViewSubmissionsAs(st: State, s: Session, uid: UserId, tid: TaskId): Step {
    if tid !in st.tasks || st.tasks[tid].lecturer != uid then Step(Unauthorized, st, s) else Step(Ok, st, s)
  }

  /** `view_submissions`: only the lecturer who set the task sees its
      compiled submissions. */
  function ViewSubmissions(st: State, s: Session, tid: TaskId): (r: Step)
    ensures r.st == st && r.session == s
    ensures r.outcome == Ok <==> Admits(LecturerGate, st, s) && OwnsTask(st, s.userId.value, tid)
    ensures Admits(LecturerGate, st, s) && !OwnsTask(st, s.userId.value, tid) ==> r.outcome == Unauthorized
  {
    LecturerRequired(st, s, (st: State, s: Session, uid: UserId) => ViewSubmissionsAs(st, s, uid, tid))
  }
}
