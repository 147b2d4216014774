/** Properties of the views: every request keeps the store's invariant, and
    the multi-request flows of the application behave as the pages promise. */
module ViewProperties {
  import opened Wrappers
  import opened Store
  import opened Crypto
  import opened Text
  import opened Models
  import opened ModelProperties
  import opened Web
  import opened Decorators
  import opened AuthViews
  import opened LecturerViews
  import opened GroupViews
  import opened TaskViews
  import opened DownloadViews

  // =====================================================================
  // Every mutating request keeps `Valid`.

  lemma RegisterValid(st: State, h: Hasher, s: Session, email: string, password: string)
    requires Valid(st)
    ensures Valid(Register(st, h, s, email, password).st)
  {
    if s.userId.None? && !EmailTaken(st, email) {
      CreateUserValid(st, h, email, password, Member);
    }
  }

  lemma CreateClassViewValid(st: State, h: Hasher, s: Session, name: string, password: string)
    requires Valid(st)
    ensures Valid(CreateClassView(st, h, s, name, password).st)
  {
    if Admits(LecturerGate, st, s) {
      CreateClassValid(st, h, name, password, s.userId.value);
    }
  }

  lemma CreateTaskViewValid(
    st: State, s: Session, className: string, title: string, kind: TaskKind,
    description: Option<string>, upload: Option<string>, dueDate: Option<Time>)
    requires Valid(st)
    ensures Valid(CreateTaskView(st, s, className, title, kind, description, upload, dueDate).st)
  {
    if Admits(LecturerGate, st, s) && OwnsClass(st, s.userId.value, className) {
      var filePath := if kind == FileTask && upload.Some? then Some(UploadPath(upload.value)) else None;
      var description' := if kind == TextTask then description else None;
      var filePath' := if kind == FileTask then filePath else None;
      var c := ClassByName(st, className).value;
      CreateTaskValid(st, c, s.userId.value, title, description', filePath', dueDate);
      CreateTaskViewWrites(st, s, className, title, kind, description, upload, dueDate);
    }
  }

  /** An admitted request of the owning lecturer writes what `TaskModel.create`
      writes. */
  lemma CreateTaskViewWrites(
    st: State, s: Session, className: string, title: string, kind: TaskKind,
    description: Option<string>, upload: Option<string>, dueDate: Option<Time>)
    requires Admits(LecturerGate, st, s) && OwnsClass(st, s.userId.value, className)
    ensures var filePath := if kind == FileTask && upload.Some? then Some(UploadPath(upload.value)) else None;
      CreateTaskView(st, s, className, title, kind, description, upload, dueDate).st
        == CreateTask(st, ClassByName(st, className).value, s.userId.value, title,
                      if kind == TextTask then description else None,
                      if kind == FileTask then filePath else None,
                      dueDate).st
  {
  }

  lemma JoinClassViewValid(st: State, h: Hasher, s: Session, name: string, password: string)
    requires Valid(st)
    ensures Valid(JoinClassView(st, h, s, name, password).st)
  {
    if Admits(LoginGate, st, s) && VerifyClassPassword(st, h, name, password) {
      var uid := s.userId.value;
      var c := ClassByName(st, name).value;
      AddLeaderValid(st, c, uid);
      UpdateRoleValid(AddLeader(st, c, uid).st, uid, Leader);
    }
  }

  lemma CreateGroupViewValid(st: State, h: Hasher, s: Session, name: string, password: string)
    requires Valid(st)
    ensures Valid(CreateGroupView(st, h, s, name, password).st)
  {
    if Admits(LeaderGate, st, s) && FirstJoinedClass(st, s.userId.value).Some? {
      CreateGroupValid(st, h, FirstJoinedClass(st, s.userId.value).value, s.userId.value, name, password);
    }
  }

  lemma AcceptInvitationValid(st: State, s: Session, gid: GroupId)
    requires Valid(st)
    ensures Valid(AcceptInvitation(st, s, gid).st)
  {
    if Admits(LoginGate, st, s) {
      AddMemberValid(st, gid, s.userId.value);
    }
  }

  lemma AddWhitelistValid(st: State, s: Session, gid: GroupId, email: string)
    requires Valid(st)
    ensures Valid(AddWhitelist(st, s, gid, email).st)
  {
    AddWhitelistEmailValid(st, gid, email);
  }

  lemma RemoveWhitelistValid(st: State, s: Session, gid: GroupId, email: string)
    requires Valid(st)
    ensures Valid(RemoveWhitelist(st, s, gid, email).st)
  {
    RemoveWhitelistEmailValid(st, gid, email);
  }

  /** The division loop keeps the invariant, one `add_division` at a time. */
  lemma {:induction false} AssignPartsValid(st: State, tid: TaskId, members: seq<UserId>, parts: map<UserId, string>)
    requires tid in st.tasks && Valid(st)
    ensures Valid(AssignParts(st, tid, members, parts))
    decreases |members|
  {
    if members != [] {
      var m := members[0];
      var next := if m in parts && !IsBlank(parts[m]) then AddDivision(st, tid, m, parts[m]).st else st;
      if m in parts && !IsBlank(parts[m]) {
        AddDivisionValid(st, tid, m, parts[m]);
      }
      AssignPartsValid(next, tid, members[1..], parts);
    }
  }

  lemma DivideTaskValid(st: State, s: Session, gid: GroupId, tid: TaskId, parts: map<UserId, string>)
    requires Valid(st)
    ensures Valid(DivideTask(st, s, gid, tid, parts).st)
  {
    if Admits(LeaderGate, st, s) && Leads(st, s.userId.value, gid) && tid in st.tasks {
      AssignPartsValid(st, tid, ExistingMembers(st, st.groups[gid].members), parts);
    }
  }

  lemma SendCompiledWorkValid(st: State, s: Session, gid: GroupId, tid: TaskId, artifact: Option<string>, now: Time)
    requires Valid(st)
    ensures Valid(SendCompiledWork(st, s, gid, tid, artifact, now).st)
  {
    if Admits(LeaderGate, st, s) && Leads(st, s.userId.value, gid) && tid in st.tasks && Generated(artifact) {
      SendCompiledWorkRuns(st, s, gid, tid, artifact, now);
      match CompiledOf(st, tid, gid)
      case Some(c) =>
        SaveCompiledValid(st, c, artifact.value, now);
      case None =>
        CreateCompiledValid(st, gid, tid, artifact.value, now);
    }
  }

  /** Saving a compiled record in place with a new path and time keeps
      every invariant: its `(task, group)` pair is unchanged. */
  lemma SaveCompiledValid(st: State, c: CompiledId, path: string, now: Time)
    requires Valid(st) && c in st.compiled
    ensures Valid(st.(compiled := st.compiled[c := st.compiled[c].(pdfPath := path, compiledAt := now)]))
  {
    var after := st.(compiled := st.compiled[c := st.compiled[c].(pdfPath := path, compiledAt := now)]);
    assert forall x :: x in after.compiled ==>
      after.compiled[x].group == st.compiled[x].group && after.compiled[x].task == st.compiled[x].task;
  }

  /** Saving a submission in place with a new text keeps every invariant:
      its `(task, member)` pair is unchanged. */
  lemma SaveSubmissionValid(st: State, x: SubmissionId, text: string)
    requires Valid(st) && x in st.submissions
    ensures Valid(st.(submissions := st.submissions[x := st.submissions[x].(text := text)]))
  {
    var after := st.(submissions := st.submissions[x := st.submissions[x].(text := text)]);
    assert forall y :: y in after.submissions ==>
      after.submissions[y].task == st.submissions[y].task && after.submissions[y].member == st.submissions[y].member;
  }

  /** Behind its gate, `leader_send_compiled_work` is its body. */
  lemma SendCompiledWorkRuns(st: State, s: Session, gid: GroupId, tid: TaskId, artifact: Option<string>, now: Time)
    requires Admits(LeaderGate, st, s)
    ensures SendCompiledWork(st, s, gid, tid, artifact, now) == SendCompiledAs(st, s, s.userId.value, gid, tid, artifact, now)
  {
  }

  /** Behind its gate, `submit_task` is its body. */
  lemma SubmitTaskRuns(st: State, s: Session, tid: TaskId, text: string, now: Time)
    requires Admits(LoginGate, st, s)
    ensures SubmitTask(st, s, tid, text, now) == SubmitTaskAs(st, s, s.userId.value, tid, text, now)
  {
  }

  lemma SubmitTaskValid(st: State, s: Session, tid: TaskId, text: string, now: Time)
    requires Valid(st)
    ensures Valid(SubmitTask(st, s, tid, text, now).st)
  {
    if Admits(LoginGate, st, s) && tid in st.tasks {
      SubmitTaskRuns(st, s, tid, text, now);
      var uid := s.userId.value;
      match FirstGroupInClass(st, uid, st.tasks[tid].classId)
      case None =>
      case Some(g) =>
        match SubmissionOf(st, tid, uid)
        case Some(x) =>
          SaveSubmissionValid(st, x, text);
        case None =>
          CreateSubmissionValid(st, tid, g, uid, text, None, now);
    }
  }

  // =====================================================================
  // Flows across several requests.

  /** Joining a class by its password makes the caller a leader who can
      create a group (in the class just joined, or in a lower-numbered class
      it already belongs to). */
  lemma JoinThenCreateGroup(st: State, h: Hasher, s: Session, name: string, password: string,
                            groupName: string, groupPassword: string)
    requires Valid(st)
    requires JoinClassView(st, h, s, name, password).outcome == Ok
    ensures var joined := JoinClassView(st, h, s, name, password);
      var uid := s.userId.value;
      && FirstJoinedClass(joined.st, uid).Some?
      && FirstJoinedClass(joined.st, uid).value <= ClassByName(st, name).value
      && (CreateGroupView(joined.st, h, joined.session, groupName, groupPassword).outcome == Ok
          <==> !GroupNameTaken(joined.st, FirstJoinedClass(joined.st, uid).value, groupName))
  {
    var joined := JoinClassView(st, h, s, name, password);
    var uid := s.userId.value;
    var c := ClassByName(st, name).value;
    assert c in joined.st.classes && uid in joined.st.classes[c].members;
    assert c < joined.st.nextId;
    match FirstJoinedClass(joined.st, uid)
    case None =>
      assert false;
    case Some(first) =>
      assert first <= c;
  }

  /** A leader whitelists an e-mail; the user whose session carries that
      e-mail and who is not yet in the group accepts and becomes a member. */
  lemma InviteThenAccept(st: State, leader: Session, invitee: Session, gid: GroupId, email: string)
    requires AddWhitelist(st, leader, gid, email).outcome == Ok
    requires Admits(LoginGate, st, invitee) && invitee.email == Some(email)
    requires invitee.userId.value !in st.groups[gid].members
    ensures var invited := AddWhitelist(st, leader, gid, email);
      var accepted := AcceptInvitation(invited.st, invitee, gid);
      && accepted.outcome == Ok
      && accepted.st.groups[gid].members == st.groups[gid].members + [invitee.userId.value]
  {
  }

  /** Accepting the same invitation twice: the second request is refused as
      "already a member" and writes nothing. */
  lemma AcceptInvitationTwice(st: State, s: Session, gid: GroupId)
    requires AcceptInvitation(st, s, gid).outcome == Ok
    ensures var once := AcceptInvitation(st, s, gid);
      AcceptInvitation(once.st, s, gid) == Step(AlreadyMember, once.st, s)
  {
    var once := AcceptInvitation(st, s, gid);
    var uid := s.userId.value;
    assert once.st.groups[gid].members == st.groups[gid].members + [uid];
    assert uid in once.st.groups[gid].members;
  }

  /** Submitting twice for the same task keeps one submission, with the
      second text, in the record the first request created. */
  lemma SubmitTaskTwice(st: State, s: Session, tid: TaskId, first: string, second: string, t1: Time, t2: Time)
    requires Valid(st)
    requires SubmitTask(st, s, tid, first, t1).outcome == Ok
    ensures var once := SubmitTask(st, s, tid, first, t1);
      var twice := SubmitTask(once.st, s, tid, second, t2);
      var uid := s.userId.value;
      && twice.outcome == Ok
      && SubmissionOf(twice.st, tid, uid) == SubmissionOf(once.st, tid, uid)
      && twice.st.submissions.Keys == once.st.submissions.Keys
      && var x := SubmissionOf(once.st, tid, uid).value;
      && twice.st.submissions[x] == once.st.submissions[x].(text := second)
  {
    var once := SubmitTask(st, s, tid, first, t1);
    var uid := s.userId.value;
    var g := FirstGroupInClass(st, uid, st.tasks[tid].classId).value;
    assert once.st.groups == st.groups && once.st.users == st.users && once.st.tasks == st.tasks;
    assert g < st.nextId <= once.st.nextId;
    assert FirstGroupInClass(once.st, uid, st.tasks[tid].classId).Some?;
  }

  /** Sending the compiled work twice keeps one record for the pair, holding
      the second artifact; a second generation that yields an empty path is
      a failure that leaves the first send in place. */
  lemma SendCompiledTwice(st: State, s: Session, gid: GroupId, tid: TaskId,
                          first: Option<string>, second: string, t1: Time, t2: Time)
    requires SendCompiledWork(st, s, gid, tid, first, t1).outcome == Ok
    ensures var once := SendCompiledWork(st, s, gid, tid, first, t1);
      var twice := SendCompiledWork(once.st, s, gid, tid, Some(second), t2);
      && (second == "" ==> twice.outcome == DependencyFailure && twice.st == once.st)
      && (second != "" ==>
            && twice.outcome == Ok
            && CompiledOf(twice.st, tid, gid) == CompiledOf(once.st, tid, gid)
            && twice.st.compiled.Keys == once.st.compiled.Keys
            && twice.st.compiled[CompiledOf(once.st, tid, gid).value] == Compiled(gid, tid, second, t2))
  {
  }

  /** What the leader sends, each member of the group can download, provided
      the file is on disk. */
  lemma SendThenDownload(st: State, leader: Session, reader: Session, gid: GroupId, tid: TaskId,
                         artifact: Option<string>, now: Time, onDisk: string -> bool)
    requires SendCompiledWork(st, leader, gid, tid, artifact, now).outcome == Ok
    requires onDisk(artifact.value)
    requires Admits(LoginGate, st, reader)
    requires reader.userId == leader.userId || reader.userId.value in st.groups[gid].members
    ensures var sent := SendCompiledWork(st, leader, gid, tid, artifact, now);
      DownloadCompiled(sent.st, reader, gid, tid, onDisk).outcome == Ok
  {
  }

  /** On a store whose ids are fresh, `download_task_file` and `submit_task`
      agree on who belongs to a task's class: the download is refused
      exactly when the submit page reports "not in a group". */
  lemma TaskFileAccessMatchesSubmit(st: State, s: Session, tid: TaskId, onDisk: string -> bool, text: string, now: Time)
    requires IdsFresh(st)
    requires Admits(LoginGate, st, s) && HasFile(st, tid)
    ensures DownloadTaskFile(st, s, tid, onDisk).outcome == Unauthorized
        <==> SubmitTask(st, s, tid, text, now).outcome == NotInGroup
  {
    var uid := s.userId.value;
    var cid := st.tasks[tid].classId;
    if InClassGroup(st, uid, cid) {
      var g :| g in st.groups && uid in st.groups[g].members && st.groups[g].classId == cid;
      assert g < st.nextId;
    }
  }
}
