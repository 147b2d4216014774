/** The request/response boundary: the session keys the views read and
    write, and the outcome each view ends in (its redirect or error
    message), with the database after the request. */
module Web {
  import opened Wrappers
  import opened Store

  /** `request.session['user_id']`, `['user_email']` and `['user_role']`. */
  datatype Session = Session(userId: Option<UserId>, email: Option<string>, role: Option<Role>)

  /** A flushed session. */
  const Anonymous := Session(None, None, None)

  datatype Outcome =
    | Ok
      /** login or register while a user is in the session */
    | AlreadyLoggedIn
      /** no user id in the session */
    | NotLoggedIn
      /** the session's user id names no account */
    | UnknownUser
      /** the account's role is not the one the page requires */
    | Forbidden
      /** the caller does not own / lead the entity */
    | Unauthorized
    | NotFound
    | InvalidCredential
      /** the credentials verify but the account has another role */
    | RoleMismatch
      /** a unique constraint refused the write */
    | DuplicateName
    | NoClassJoined
    | NotWhitelisted
      /** informational: the caller already belongs to the group */
    | AlreadyMember
    | NotInGroup
      /** the task belongs to another class than the group */
    | WrongClass
      /** the artifact generator produced nothing */
    | DependencyFailure

  /** The outcome of one request, the database and the session after it. */
  datatype Step = Step(outcome: Outcome, st: State, session: Session)
}
