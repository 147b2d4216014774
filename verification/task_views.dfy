/** Work on tasks: `divide_task`, `leader_view_submissions`,
    `leader_send_compiled_work` and `submit_task`. */
module TaskViews {
  import opened Wrappers
  import opened Store
  import opened Text
  import opened Divisions
  import opened Models
  import opened Web
  import opened Decorators
  import opened GroupViews

  // ===================== divide_task =====================

  /** The members the division form lists: the group's members that still
      resolve to an account, in list order. */
  function ExistingMembers(st: State, members: seq<UserId>): (r: seq<UserId>)
    ensures forall m :: m in r <==> m in members && m in st.users
    decreases |members|
  {
    if members == [] then []
    else (if members[0] in st.users then [members[0]] else []) + ExistingMembers(st, members[1..])
  }

  /** Member `m` is listed and posted a non-blank part. */
  predicate Written(members: seq<UserId>, parts: map<UserId, string>, m: UserId) {
    m in members && m in parts && !IsBlank(parts[m])
  }

  /** The loop of `divide_task`: one `add_division` per listed member whose
      posted part is non-blank. Only the task's divisions change. */
  function AssignParts(st: State, tid: TaskId, members: seq<UserId>, parts: map<UserId, string>): (r: State)
    requires tid in st.tasks
    ensures r.tasks.Keys == st.tasks.Keys
    ensures r.tasks[tid].(divisions := st.tasks[tid].divisions) == st.tasks[tid]
    ensures forall t :: t in st.tasks && t != tid ==> r.tasks[t] == st.tasks[t]
    ensures OnlyChanged(st, r, {Tasks}) && r.nextId == st.nextId
    decreases |members|
  {
    if members == [] then st
    else
      var m := members[0];
      var next := if m in parts && !IsBlank(parts[m]) then AddDivision(st, tid, m, parts[m]).st else st;
      AssignParts(next, tid, members[1..], parts)
  }

  /** After the loop, a listed member with a non-blank part has exactly the
      division it was given; everybody else keeps the divisions it had. */
  lemma {:induction false} AssignPartsDivisions(st: State, tid: TaskId, members: seq<UserId>, parts: map<UserId, string>, n: UserId)
    requires tid in st.tasks
    ensures Only(AssignParts(st, tid, members, parts).tasks[tid].divisions, n)
         == if Written(members, parts, n) then [Division(n, parts[n])] else Only(st.tasks[tid].divisions, n)
    decreases |members|
  {
    if members != [] {
      var m := members[0];
      var writes := m in parts && !IsBlank(parts[m]);
      var next := if writes then AddDivision(st, tid, m, parts[m]).st else st;
      assert AssignParts(st, tid, members, parts) == AssignParts(next, tid, members[1..], parts);
      AssignPartsDivisions(next, tid, members[1..], parts, n);
      assert members == [m] + members[1..];
      assert Written(members, parts, n) <==> Written(members[1..], parts, n) || (n == m && writes);
    }
  }

  function DivideTaskAs(st: State, s: Session, uid: UserId, gid: GroupId, tid: TaskId, parts: map<UserId, string>): Step {
    if !Leads(st, uid, gid) then Step(Unauthorized, st, s)
    else if tid !in st.tasks then Step(NotFound, st, s)
    else Step(Ok, AssignParts(st, tid, ExistingMembers(st, st.groups[gid].members), parts), s)
  }

  /** A member of the group, with an account, who posted a non-blank part. */
  predicate Assigned(st: State, gid: GroupId, parts: map<UserId, string>, m: UserId)
    requires gid in st.groups
  {
    m in st.groups[gid].members && m in st.users && m in parts && !IsBlank(parts[m])
  }

  /** `divide_task` on a POST: only the group's leader divides, and only an
      existing task; every member with a non-blank part ends up with exactly
      that one division, every other member's divisions are untouched. The
      task's class is not compared with the group's. */
  function DivideTask(st: State, s: Session, gid: GroupId, tid: TaskId, parts: map<UserId, string>): (r: Step)
    ensures r.session == s
    ensures r.outcome != Ok ==> r.st == st
    ensures Admits(LeaderGate, st, s) && !Leads(st, s.userId.value, gid) ==> r.outcome == Unauthorized
    ensures Admits(LeaderGate, st, s) && Leads(st, s.userId.value, gid) && tid !in st.tasks ==> r.outcome == NotFound
    ensures r.outcome == Ok <==> Admits(LeaderGate, st, s) && Leads(st, s.userId.value, gid) && tid in st.tasks
    ensures r.outcome == Ok ==>
      && r.st.tasks.Keys == st.tasks.Keys
      && (forall m :: Assigned(st, gid, parts, m) ==>
            Only(r.st.tasks[tid].divisions, m) == [Division(m, parts[m])])
      && (forall m :: !Assigned(st, gid, parts, m) ==>
            Only(r.st.tasks[tid].divisions, m) == Only(st.tasks[tid].divisions, m))
      && r.st.tasks[tid].(divisions := st.tasks[tid].divisions) == st.tasks[tid]
      && (forall t :: t in st.tasks && t != tid ==> r.st.tasks[t] == st.tasks[t])
      && OnlyChanged(st, r.st, {Tasks})
  {
    DivideTaskLands(st, s, gid, tid, parts);
    LeaderRequired(st, s, (st: State, s: Session, uid: UserId) => DivideTaskAs(st, s, uid, gid, tid, parts))
  }

  /** When the leader divides an existing task, the loop leaves every member
      with exactly the division the form gave it, or with what it had. */
  lemma DivideTaskLands(st: State, s: Session, gid: GroupId, tid: TaskId, parts: map<UserId, string>)
    ensures Admits(LeaderGate, st, s) && Leads(st, s.userId.value, gid) && tid in st.tasks ==>
      var r := DivideTaskAs(st, s, s.userId.value, gid, tid, parts);
      forall m :: Only(r.st.tasks[tid].divisions, m)
               == if Assigned(st, gid, parts, m) then [Division(m, parts[m])] else Only(st.tasks[tid].divisions, m)
  {
    if Admits(LeaderGate, st, s) && Leads(st, s.userId.value, gid) && tid in st.tasks {
      var listed := ExistingMembers(st, st.groups[gid].members);
      forall m ensures Only(AssignParts(st, tid, listed, parts).tasks[tid].divisions, m)
                    == if Assigned(st, gid, parts, m) then [Division(m, parts[m])] else Only(st.tasks[tid].divisions, m)
      {
        AssignPartsDivisions(st, tid, listed, parts, m);
      }
    }
  }

  // ===================== leader_view_submissions =====================

  function LeaderViewSubmissionsAs(st: State, s: Session, uid: UserId, gid: GroupId, tid: TaskId): Step {
    if !Leads(st, uid, gid) then Step(Unauthorized, st, s)
    else if tid !in st.tasks then Step(NotFound, st, s)
    else if st.tasks[tid].classId != st.groups[gid].classId then Step(WrongClass, st, s)
    else Step(Ok, st, s)
  }

  /** `leader_view_submissions`: the leader sees a task's submissions only
      for a task of the group's own class. */
  function LeaderViewSubmissions(st: State, s: Session, gid: GroupId, tid: TaskId): (r: Step)
    ensures r.st == st && r.session == s
    ensures Admits(LeaderGate, st, s) && !Leads(st, s.userId.value, gid) ==> r.outcome == Unauthorized
    ensures Admits(LeaderGate, st, s) && Leads(st, s.userId.value, gid) && tid !in st.tasks ==> r.outcome == NotFound
    ensures r.outcome == WrongClass <==>
      Admits(LeaderGate, st, s) && Leads(st, s.userId.value, gid) && tid in st.tasks
      && st.tasks[tid].classId != st.groups[gid].classId
    ensures r.outcome == Ok <==>
      Admits(LeaderGate, st, s) && Leads(st, s.userId.value, gid) && tid in st.tasks
      && st.tasks[tid].classId == st.groups[gid].classId
  {
    LeaderRequired(st, s, (st: State, s: Session, uid: UserId) => LeaderViewSubmissionsAs(st, s, uid, gid, tid))
  }

  // ===================== leader_send_compiled_work =====================

  /** The generator's result passes the view's truthiness test: there is a
      path and it is not the empty string. */
  predicate Generated(artifact: Option<string>) {
    artifact.Some? && artifact.value != ""
  }

  function SendCompiledAs(st: State, s: Session, uid: UserId, gid: GroupId, tid: TaskId, artifact: Option<string>, now: Time): Step {
    if !Leads(st, uid, gid) then Step(Unauthorized, st, s)
    else if tid !in st.tasks then Step(NotFound, st, s)
    else if artifact.None? || artifact.value == "" then Step(DependencyFailure, st, s)
    else
      match CompiledOf(st, tid, gid)
      case Some(c) =>
        Step(Ok, st.(compiled := st.compiled[c := st.compiled[c].(pdfPath := artifact.value, compiledAt := now)]), s)
      case None =>
        match CreateCompiled(st, gid, tid, artifact.value, now)
        case None => Step(DuplicateName, st, s)
        case Some(ins) => Step(Ok, ins.st, s)
  }

  /** `leader_send_compiled_work`: the group's leader hands the artifact
      generator's result in. A failed generation, no path or an empty one,
      writes nothing; otherwise
      the `(task, group)` record is updated in place or created. The task's
      class is not compared with the group's. */
  function SendCompiledWork(st: State, s: Session, gid: GroupId, tid: TaskId, artifact: Option<string>, now: Time): (r: Step)
    ensures r.session == s
    ensures r.outcome != Ok ==> r.st == st
    ensures Admits(LeaderGate, st, s) && !Leads(st, s.userId.value, gid) ==> r.outcome == Unauthorized
    ensures Admits(LeaderGate, st, s) && Leads(st, s.userId.value, gid) && tid !in st.tasks ==> r.outcome == NotFound
    ensures Admits(LeaderGate, st, s) && Leads(st, s.userId.value, gid) && tid in st.tasks && !Generated(artifact)
      ==> r.outcome == DependencyFailure
    ensures IdsFresh(st) && Admits(LeaderGate, st, s) && Leads(st, s.userId.value, gid) && tid in st.tasks && Generated(artifact)
      ==> r.outcome == Ok
    ensures r.outcome == Ok ==>
      && Admits(LeaderGate, st, s) && Leads(st, s.userId.value, gid) && tid in st.tasks && Generated(artifact)
      && CompiledOf(r.st, tid, gid).Some?
      && r.st.compiled[CompiledOf(r.st, tid, gid).value] == Compiled(gid, tid, artifact.value, now)
      && (IdsFresh(st) ==>
            forall c :: c in st.compiled && !(st.compiled[c].group == gid && st.compiled[c].task == tid)
              ==> c in r.st.compiled && r.st.compiled[c] == st.compiled[c])
      && (CompiledOf(st, tid, gid).Some? ==>
            r.st.compiled.Keys == st.compiled.Keys && CompiledOf(r.st, tid, gid) == CompiledOf(st, tid, gid))
      && (CompiledOf(st, tid, gid).None? ==> r.st.compiled.Keys == st.compiled.Keys + {st.nextId})
      && OnlyChanged(st, r.st, {CompiledSubmissions})
  {
    SendCompiledLands(st, s, gid, tid, artifact, now);
    LeaderRequired(st, s, (st: State, s: Session, uid: UserId) => SendCompiledAs(st, s, uid, gid, tid, artifact, now))
  }

  /** With a generated, non-empty artifact path the leader's request always lands on a
      store whose ids are fresh; after it the `(task, group)` query finds the
      record just written, and no other record changed. */
  lemma SendCompiledLands(st: State, s: Session, gid: GroupId, tid: TaskId, artifact: Option<string>, now: Time)
    ensures s.userId.Some? ==>
      var r := SendCompiledAs(st, s, s.userId.value, gid, tid, artifact, now);
      && (IdsFresh(st) && Leads(st, s.userId.value, gid) && tid in st.tasks && Generated(artifact) ==> r.outcome == Ok)
      && (r.outcome == Ok ==>
            && CompiledOf(r.st, tid, gid).Some?
            && r.st.compiled[CompiledOf(r.st, tid, gid).value] == Compiled(gid, tid, artifact.value, now)
            && (CompiledOf(st, tid, gid).Some? ==> CompiledOf(r.st, tid, gid) == CompiledOf(st, tid, gid))
            && (IdsFresh(st) ==>
                  forall c :: c in st.compiled && !(st.compiled[c].group == gid && st.compiled[c].task == tid)
                    ==> c in r.st.compiled && r.st.compiled[c] == st.compiled[c]))
  {
    if s.userId.Some? {
      var r := SendCompiledAs(st, s, s.userId.value, gid, tid, artifact, now);
      var p := (c: Compiled) => c.task == tid && c.group == gid;
      if Leads(st, s.userId.value, gid) && tid in st.tasks && Generated(artifact) {
        match CompiledOf(st, tid, gid)
        case Some(c) =>
          FirstMatchFound(r.st.compiled, p, r.st.nextId, c);
        case None =>
          if IdsFresh(st) {
            assert !CompiledExists(st, gid, tid);
          }
          if r.outcome == Ok {
            FirstMatchFound(r.st.compiled, p, r.st.nextId, st.nextId);
          }
      }
    }
  }

  // ===================== submit_task =====================

  function SubmitTaskAs(st: State, s: Session, uid: UserId, tid: TaskId, text: string, now: Time): Step {
    if tid !in st.tasks then Step(NotFound, st, s)
    else
      match FirstGroupInClass(st, uid, st.tasks[tid].classId)
      case None => Step(NotInGroup, st, s)
      case Some(g) =>
        match SubmissionOf(st, tid, uid)
        case Some(sub) =>
          Step(Ok, st.(submissions := st.submissions[sub := st.submissions[sub].(text := text)]), s)
        case None =>
          match CreateSubmission(st, tid, g, uid, text, None, now)
          case None => Step(DuplicateName, st, s)
          case Some(ins) => Step(Ok, ins.st, s)
  }

  /** `submit_task` on a POST: refused for a missing task and for a caller
      in no group of the task's class. A second submission replaces the text
      of the first in place, keeping its group and time; a first one is
      bound to the first such group, with no PDF. */
  function SubmitTask(st: State, s: Session, tid: TaskId, text: string, now: Time): (r: Step)
    ensures r.session == s || (r.outcome == UnknownUser && r.session == Anonymous)
    ensures r.outcome != Ok ==> r.st == st
    ensures Admits(LoginGate, st, s) && tid !in st.tasks ==> r.outcome == NotFound
    ensures Admits(LoginGate, st, s) && tid in st.tasks ==>
      (r.outcome == NotInGroup <==> FirstGroupInClass(st, s.userId.value, st.tasks[tid].classId).None?)
    ensures (IdsFresh(st) && Admits(LoginGate, st, s) && tid in st.tasks
             && FirstGroupInClass(st, s.userId.value, st.tasks[tid].classId).Some?)
      ==> r.outcome == Ok
    ensures r.outcome == Ok ==>
      && Admits(LoginGate, st, s) && tid in st.tasks
      && var uid := s.userId.value;
      && FirstGroupInClass(st, uid, st.tasks[tid].classId).Some?
      && SubmissionOf(r.st, tid, uid).Some?
      && var sub := r.st.submissions[SubmissionOf(r.st, tid, uid).value];
      && sub.text == text
      && (SubmissionOf(st, tid, uid).Some? ==>
            && SubmissionOf(r.st, tid, uid) == SubmissionOf(st, tid, uid)
            && r.st.submissions.Keys == st.submissions.Keys
            && sub == st.submissions[SubmissionOf(st, tid, uid).value].(text := text))
      && (SubmissionOf(st, tid, uid).None? ==> r.st.submissions.Keys == st.submissions.Keys + {st.nextId})
      && (SubmissionOf(st, tid, uid).None? ==>
            sub == Submission(tid, FirstGroupInClass(st, uid, st.tasks[tid].classId).value, uid, text, None, now))
      && (IdsFresh(st) ==>
            forall x :: x in st.submissions && !(st.submissions[x].task == tid && st.submissions[x].member == uid)
              ==> x in r.st.submissions && r.st.submissions[x] == st.submissions[x])
      && OnlyChanged(st, r.st, {Submissions})
  {
    SubmitTaskLands(st, s, tid, text, now);
    LoginRequired(st, s, (st: State, s: Session, uid: UserId) => SubmitTaskAs(st, s, uid, tid, text, now))
  }

  /** A caller in a group of the task's class always gets its answer
      stored on a store whose ids are fresh; after it the `(task, member)`
      query finds the record just written, and no other record changed. */
  lemma SubmitTaskLands(st: State, s: Session, tid: TaskId, text: string, now: Time)
    ensures s.userId.Some? ==>
      var uid := s.userId.value;
      var r := SubmitTaskAs(st, s, uid, tid, text, now);
      && (IdsFresh(st) && tid in st.tasks && FirstGroupInClass(st, uid, st.tasks[tid].classId).Some? ==> r.outcome == Ok)
      && (r.outcome == Ok ==>
            && SubmissionOf(r.st, tid, uid).Some?
            && r.st.submissions[SubmissionOf(r.st, tid, uid).value].text == text
            && (SubmissionOf(st, tid, uid).Some? ==> SubmissionOf(r.st, tid, uid) == SubmissionOf(st, tid, uid))
            && (IdsFresh(st) ==>
                  forall x :: x in st.submissions && !(st.submissions[x].task == tid && st.submissions[x].member == uid)
                    ==> x in r.st.submissions && r.st.submissions[x] == st.submissions[x]))
  {
    if s.userId.Some? {
      var uid := s.userId.value;
      var r := SubmitTaskAs(st, s, uid, tid, text, now);
      var p := (x: Submission) => x.task == tid && x.member == uid;
      if tid in st.tasks && FirstGroupInClass(st, uid, st.tasks[tid].classId).Some? {
        match SubmissionOf(st, tid, uid)
        case Some(x) =>
          FirstMatchFound(r.st.submissions, p, r.st.nextId, x);
        case None =>
          if IdsFresh(st) {
            assert !SubmissionExists(st, tid, uid);
          }
          if r.outcome == Ok {
            FirstMatchFound(r.st.submissions, p, r.st.nextId, st.nextId);
          }
      }
    }
  }
}
