/** `login_required`, `lecturer_required` and `leader_required`: gates on the
    session's account, wrapped around a view. */
module Decorators {
  import opened Wrappers
  import opened Store
  import opened Web

  datatype Gate = LoginGate | LecturerGate | LeaderGate

  /** A wrapped view: it is given the database, the session, and the
      session's user id, which the view reads back from the session. */
  type View = (State, Session, UserId) -> Step

  /** The roles each gate lets through. */
  predicate RoleAllowed(gate: Gate, role: Role) {
    match gate
    case LoginGate => true
    case LecturerGate => role == Lecturer
    case LeaderGate => role == Leader || role == Member
  }

  /** The request passes `gate`: the session holds the id of an existing
      account whose role the gate allows. */
  predicate Admits(gate: Gate, st: State, s: Session) {
    && s.userId.Some?
    && s.userId.value in st.users
    && RoleAllowed(gate, st.users[s.userId.value].role)
  }

  /** The outcomes a gate answers with instead of running the view. */
  predicate IsRejection(o: Outcome) {
    o == NotLoggedIn || o == UnknownUser || o == Forbidden
  }

  /** Run `view` behind `gate`. Without a session user every gate sends to
      the login page. `login_required` flushes a session whose user is gone;
      the role gates instead send such a session to the dashboard. */
  function Guard(gate: Gate, st: State, s: Session, view: View): (r: Step)
    ensures Admits(gate, st, s) ==> r == view(st, s, s.userId.value)
    ensures !Admits(gate, st, s) ==> r.st == st && IsRejection(r.outcome)
    ensures s.userId.None? ==> r == Step(NotLoggedIn, st, s)
    ensures s.userId.Some? && s.userId.value !in st.users ==>
      r == if gate == LoginGate then Step(UnknownUser, st, Anonymous) else Step(Forbidden, st, s)
    ensures s.userId.Some? && s.userId.value in st.users && !Admits(gate, st, s) ==> r == Step(Forbidden, st, s)
  {
    match s.userId
    case None => Step(NotLoggedIn, st, s)
    case Some(uid) =>
      if uid !in st.users then
        if gate == LoginGate then Step(UnknownUser, st, Anonymous) else Step(Forbidden, st, s)
      else if !RoleAllowed(gate, st.users[uid].role) then Step(Forbidden, st, s)
      else view(st, s, uid)
  }

  /** `login_required`. */
  function LoginRequired(st: State, s: Session, view: View): (r: Step)
    ensures s.userId.Some? && s.userId.value in st.users ==> r == view(st, s, s.userId.value)
    ensures s.userId.None? ==> r == Step(NotLoggedIn, st, s)
    ensures s.userId.Some? && s.userId.value !in st.users ==> r == Step(UnknownUser, st, Anonymous)
  {
    Guard(LoginGate, st, s, view)
  }

  /** `lecturer_required`. */
  function LecturerRequired(st: State, s: Session, view: View): (r: Step)
    ensures s.userId.Some? && s.userId.value in st.users && st.users[s.userId.value].role == Lecturer
      ==> r == view(st, s, s.userId.value)
    ensures !(s.userId.Some? && s.userId.value in st.users && st.users[s.userId.value].role == Lecturer)
      ==> r.st == st && r.session == s && r.outcome in {NotLoggedIn, Forbidden}
  {
    Guard(LecturerGate, st, s, view)
  }

  /** `leader_required`: leaders and members pass, lecturers do not. */
  function LeaderRequired(st: State, s: Session, view: View): (r: Step)
    ensures s.userId.Some? && s.userId.value in st.users && st.users[s.userId.value].role != Lecturer
      ==> r == view(st, s, s.userId.value)
    ensures !(s.userId.Some? && s.userId.value in st.users && st.users[s.userId.value].role != Lecturer)
      ==> r.st == st && r.session == s && r.outcome in {NotLoggedIn, Forbidden}
  {
    Guard(LeaderGate, st, s, view)
  }

  /** Every role gate is at least as strict as `login_required`. */
  lemma RoleGatesNeedLogin(gate: Gate, st: State, s: Session)
    ensures Admits(gate, st, s) ==> Admits(LoginGate, st, s)
  {
  }

  /** A logged-in account passes exactly one of the two role gates. */
  lemma RoleGatesPartition(st: State, s: Session)
    ensures Admits(LoginGate, st, s) ==> (Admits(LecturerGate, st, s) <==> !Admits(LeaderGate, st, s))
  {
  }
}
