/** File downloads: `download_compiled` and `download_task_file`. Both only
    read the store. Whether a stored path names a file on disk is the
    parameter `onDisk`; the resolution of a stored path to a disk path is
    folded into it. */
module DownloadViews {
  import opened Wrappers
  import opened Store
  import opened Web
  import opened Decorators

  // ===================== download_compiled =====================

  /** Who may fetch a group's compiled artifact: the lecturer who owns the
      task (holding the lecturer role), the group's leader, or one of its
      members. */
  predicate CanDownload(st: State, uid: UserId, gid: GroupId, tid: TaskId) {
    || (uid in st.users && st.users[uid].role == Lecturer && tid in st.tasks && st.tasks[tid].lecturer == uid)
    || (gid in st.groups && (st.groups[gid].leader == uid || uid in st.groups[gid].members))
  }

  function DownloadCompiledAs(st: State, s: Session, uid: UserId, gid: GroupId, tid: TaskId, onDisk: string -> bool): Step {
    match CompiledOf(st, tid, gid)
    case None => Step(NotFound, st, s)
    case Some(c) =>
      if !CanDownload(st, uid, gid, tid) then Step(Unauthorized, st, s)
      else if !onDisk(st.compiled[c].pdfPath) then Step(NotFound, st, s)
      else Step(Ok, st, s)
  }

  /** `download_compiled`: a missing record is a 404 before any access
      check; then the caller must own the task or belong to the group; then
      the file must exist. */
  function DownloadCompiled(st: State, s: Session, gid: GroupId, tid: TaskId, onDisk: string -> bool): (r: Step)
    ensures r.st == st
    ensures r.session == s || (r.outcome == UnknownUser && r.session == Anonymous)
    ensures Admits(LoginGate, st, s) && CompiledOf(st, tid, gid).None? ==> r.outcome == NotFound
    ensures r.outcome == Unauthorized <==>
      Admits(LoginGate, st, s) && CompiledOf(st, tid, gid).Some? && !CanDownload(st, s.userId.value, gid, tid)
    ensures r.outcome == Ok <==>
      && Admits(LoginGate, st, s)
      && CompiledOf(st, tid, gid).Some?
      && CanDownload(st, s.userId.value, gid, tid)
      && onDisk(st.compiled[CompiledOf(st, tid, gid).value].pdfPath)
  {
    LoginRequired(st, s, (st: State, s: Session, uid: UserId) => DownloadCompiledAs(st, s, uid, gid, tid, onDisk))
  }

  // ===================== download_task_file =====================

  /** Some group of class `cid` has `uid` as a member: the set of classes
      reached through `GroupModel.get_by_member(uid)` contains `cid`. */
  predicate InClassGroup(st: State, uid: UserId, cid: ClassId) {
    exists g :: g in st.groups && uid in st.groups[g].members && st.groups[g].classId == cid
  }

  /** The task carries a non-empty file path. */
  predicate HasFile(st: State, tid: TaskId) {
    tid in st.tasks && st.tasks[tid].filePath.Some? && st.tasks[tid].filePath.value != ""
  }

  function DownloadTaskFileAs(st: State, s: Session, uid: UserId, tid: TaskId, onDisk: string -> bool): Step {
    if !HasFile(st, tid) then Step(NotFound, st, s)
    else if !InClassGroup(st, uid, st.tasks[tid].classId) then Step(Unauthorized, st, s)
    else if !onDisk(st.tasks[tid].filePath.value) then Step(NotFound, st, s)
    else Step(Ok, st, s)
  }

  /** `download_task_file`: a task without a file is a 404; the caller must
      be in some group of the task's class, whatever its role. */
  function DownloadTaskFile(st: State, s: Session, tid: TaskId, onDisk: string -> bool): (r: Step)
    ensures r.st == st
    ensures r.session == s || (r.outcome == UnknownUser && r.session == Anonymous)
    ensures Admits(LoginGate, st, s) && !HasFile(st, tid) ==> r.outcome == NotFound
    ensures r.outcome == Unauthorized <==>
      Admits(LoginGate, st, s) && HasFile(st, tid) && !InClassGroup(st, s.userId.value, st.tasks[tid].classId)
    ensures r.outcome == Ok <==>
      && Admits(LoginGate, st, s)
      && HasFile(st, tid)
      && InClassGroup(st, s.userId.value, st.tasks[tid].classId)
      && onDisk(st.tasks[tid].filePath.value)
  {
    LoginRequired(st, s, (st: State, s: Session, uid: UserId) => DownloadTaskFileAs(st, s, uid, tid, onDisk))
  }
}
