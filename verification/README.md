# Classroom workflow and authorization model

This project models the state logic of a Django/MongoDB classroom application in Dafny.
- A lecturer creates password-protected classes and posts tasks in them.
- Users join a class with its password and become group leaders.
- Leaders create groups, whitelist e-mails, split tasks into per-member parts and hand in a compiled artifact.
- Members accept invitations, submit text answers and download files.

The MongoDB database is one immutable `Store.State`:
- six maps from numeric ids to records (users, classes, groups, tasks, submissions, compiled submissions);
- a counter that hands out fresh ids.

A query's `.first()` is modelled as returning the matching document with the smallest id, that is, insertion order (`Store.FirstMatch`). This is an assumption of the model: with no `order_by`, MongoDB returns documents in natural order, which it does not guarantee.

The storage-level unique indexes are modelled in two ways:
- on e-mail, class name, `(name, class)` of a group, `(task, member)` of a submission, and `(group, task)` of a compiled submission;
- enforced at insert time, where an insert that would violate one writes nothing;
- stated as the invariant `Store.Valid`, together with duplicate-free membership and whitelist lists and at most one division per member.

The model methods of `core/models.py` that the views below rely on are pure functions in `Models` and `Store`. The views that change state or guard access are pure transitions in the view modules; the views and queries left out are listed under "## Left out". A view takes:
- the store;
- the session (user id, e-mail, role);
- its validated form data.

It returns a `Web.Step`: an `Outcome`, the new store and the new session. Messages and redirects are folded into the outcome. The three decorators of `core/decorators.py` are the role gates in `Decorators`. Each view is written as its body (`...As`) wrapped in the gate.

bcrypt is the uninterpreted pair `Crypto.Hasher(hash, verify)`. `Crypto.Sound(h)` says a password verifies against its own hash. Clock readings (`now`), the PDF generator's result (`artifact`) and the file system's "does this path exist" (`onDisk`) are parameters.

The code departs from its evident design in five places, and the model follows the code:
- `join_class_view` promotes the caller to leader, even a lecturer, because it sits behind `login_required` only.
- `create_group` always uses `get_by_member(caller)[0]`: the first class in collection order whose member list holds the caller. That is not necessarily the class the caller joined first. It does not change the caller's role.
- `divide_task` and `leader_send_compiled_work` do not check that the task belongs to the group's class. `leader_view_submissions` does check this.
- A resubmission in `submit_task` replaces the text but keeps the first submission's time.
- `core/views.py` imports `CompiledTextSubmissionForm` from `core/forms.py`, which does not define it, so loading the module raises `ImportError` and no view in it can run as written. The model describes every view as if that import succeeded.

A task may end up with neither a description nor a file: a file task posted without an upload.

## Model

| member | source | states |
|---|---|---|
| Store.FirstJoinedClass | core/views.py:320-328 | the class chosen is one the caller is a member of, and no lower-numbered class has the caller; none only when no class has the caller |
| Store.FirstGroupInClass | core/views.py:675-680 | the group chosen has the caller as a member and belongs to the class, with no earlier group doing both; none only when no group qualifies |
| Store.UserByEmailExact | core/models.py:15 | on a valid store the e-mail lookup returns exactly the one account holding that e-mail |
| Store.ClassByNameExact | core/models.py:57 | on a valid store the name lookup returns exactly the one class with that name |
| Store.SubmissionOfExact | core/db.py:66 | on a valid store the `(task, member)` lookup returns exactly the one submission for that pair |
| Store.CompiledOfExact | core/db.py:69 | on a valid store the `(task, group)` lookup returns exactly the one compiled record for that pair |
| Store.EmptyValid | core/db.py:66-69 | the empty database satisfies every unique index and list invariant |
| Lists.RemoveFirst | core/models.py:175 | `list.remove`: the result is the list with the position of the first occurrence (as `list.index` finds it) cut out and the rest in order; so one element shorter, nothing new, every other element kept, and on a duplicate-free list the element is gone and the list stays duplicate-free |
| Lists.RemoveFirstDropsFirst | core/models.py:175 | the removed position holds the element, no earlier position does, and the remaining elements keep their order |
| Lists.RemoveAppended | core/models.py:163-178 | removing the e-mail just appended gives back the list as it was |
| Text.Strip | core/views.py:506 | `str.strip()` leaves nothing exactly when every character is Python whitespace |
| Divisions.Reassign | core/models.py:222-223 | after the overwrite the member has exactly one division, the new one, placed last; every other member's divisions are the same in the same order |
| Divisions.ReassignOverwrites | core/models.py:218-226 | dividing twice for one member is the same as dividing once with the second part |
| Divisions.ReassignKeepsUnique | core/models.py:222-223 | "at most one division per member" is preserved |
| Divisions.PartFor | core/views.py:720-724 | the part shown to a member is absent exactly when the member has no division, else it is the member's first division's part |
| Divisions.ReassignPartFor | core/views.py:720-724 | after a division the member reads back its new part and every other member reads what it read before |
| Models.CreateUser | core/models.py:23-27 | a taken e-mail writes nothing; otherwise exactly one account with that e-mail, role and a hash of the password is added under a fresh id |
| Models.Authenticate | core/models.py:30-34 | returns an account only when it holds the e-mail and the password verifies against its hash |
| Models.UpdateRole | core/models.py:45-51 | false with no change for a missing user; otherwise only that user's role changes |
| Models.CreateClass | core/models.py:66-70 | a taken class name writes nothing; otherwise one class owned by the lecturer, with no members, is added |
| Models.VerifyClassPassword | core/models.py:85-89 | true exactly when a class has the name and the password verifies against its hash; a missing class gives false |
| Models.AddLeader | core/models.py:92-101 | false with no change when the class or user is missing; otherwise the user is in the members, appended at the end only if absent, and the list stays duplicate-free; nothing else in the class changes |
| Models.CreateGroup | core/models.py:123-127 | a name already used in the class writes nothing; otherwise the new group's leader is the creator, its members are exactly `[leader]` and its whitelist is empty |
| Models.VerifyGroupPassword | core/models.py:146-150 | true exactly when the group exists and the password verifies; a missing group gives false |
| Models.AddMember | core/models.py:153-160 | appends the user at the end of the member list exactly when group and user exist and the user is not yet a member; otherwise false with no change; duplicate-freedom is kept |
| Models.AddWhitelistEmail | core/models.py:163-169 | an e-mail already listed is a no-op returning false; otherwise it is appended at the end; duplicate-freedom is kept |
| Models.RemoveWhitelistEmail | core/models.py:172-178 | an absent e-mail returns false with no change; a present one is removed and true is returned |
| Models.CreateTask | core/models.py:197-207 | one task with the given class, lecturer, title, payload, due date and no divisions is added under a fresh id |
| Models.AddDivision | core/models.py:218-226 | a missing task returns false with no change; otherwise only that task's divisions change, by the overwrite |
| Models.CreateSubmission | core/models.py:243-247 | a second submission for the same `(task, member)` writes nothing; otherwise one submission with the given fields is added |
| Models.CreateCompiled | core/models.py:269-272 | a second record for the same `(group, task)` writes nothing; otherwise one record with the given path is added |
| ModelProperties.CreateUserThenAuthenticate | core/models.py:23-34 | a newly created account authenticates with its password |
| ModelProperties.AuthenticateExact | core/models.py:30-34 | on a valid store the e-mail's owner authenticates exactly when the password verifies |
| ModelProperties.CreateClassThenVerify | core/models.py:66-89 | a new class is found by its name and accepts its password |
| ModelProperties.CreateGroupThenVerify | core/models.py:123-150 | a new group accepts its password |
| ModelProperties.CreateSubmissionThenFind | core/models.py:243-251 | a new submission is what the `(task, member)` lookup returns |
| ModelProperties.CreateCompiledThenFind | core/models.py:269-276 | a new compiled record is what the `(task, group)` lookup returns |
| ModelProperties.AddLeaderIdempotent | core/models.py:92-101 | joining a class twice is the same as joining once |
| ModelProperties.AddMemberTwice | core/models.py:153-160 | adding a member a second time returns false and changes nothing |
| ModelProperties.AddWhitelistTwice | core/models.py:163-169 | whitelisting an e-mail a second time returns false and changes nothing |
| ModelProperties.AddThenRemoveWhitelist | core/models.py:163-178 | whitelisting a new e-mail and removing it restores the store |
| ModelProperties.AddDivisionOverwrites | core/models.py:218-226 | two divisions for one member leave the store as the second alone would |
| ModelProperties.CreateUserValid | core/models.py:15 | creating an account keeps every invariant |
| ModelProperties.UpdateRoleValid | core/models.py:45-51 | a role change keeps every invariant |
| ModelProperties.CreateClassValid | core/models.py:57 | creating a class keeps every invariant |
| ModelProperties.AddLeaderValid | core/models.py:92-101 | joining a class keeps every invariant, including duplicate-free members |
| ModelProperties.CreateGroupValid | core/models.py:120 | creating a group keeps every invariant |
| ModelProperties.AddMemberValid | core/models.py:153-160 | adding a member keeps every invariant |
| ModelProperties.AddWhitelistEmailValid | core/models.py:163-169 | whitelisting keeps every invariant |
| ModelProperties.RemoveWhitelistEmailValid | core/models.py:172-178 | removing from the whitelist keeps every invariant |
| ModelProperties.CreateTaskValid | core/models.py:197-207 | creating a task keeps every invariant |
| ModelProperties.AddDivisionValid | core/models.py:218-226 | a division keeps "one division per member" and the other invariants |
| ModelProperties.CreateSubmissionValid | core/db.py:66 | creating a submission keeps the `(task, member)` index |
| ModelProperties.CreateCompiledValid | core/db.py:69 | creating a compiled record keeps the `(group, task)` index |
| Decorators.Guard | core/decorators.py:6-61 | an admitted request runs the view unchanged; otherwise nothing is written and the outcome is a rejection; no session user is told apart from the rest; only `login_required` treats a missing account differently, flushing the session, while the two role gates refuse a missing account and a wrong role alike |
| Decorators.LoginRequired | core/decorators.py:6-24 | the view runs exactly when the session user exists; no session user is sent to login; a vanished user gets the session flushed |
| Decorators.LecturerRequired | core/decorators.py:27-43 | the view runs exactly when the session user exists and is a lecturer; otherwise nothing changes |
| Decorators.LeaderRequired | core/decorators.py:45-61 | the view runs exactly when the session user exists and is a leader or member; lecturers are refused |
| Decorators.RoleGatesNeedLogin | core/decorators.py:33-38 | each role gate admits only requests that `login_required` admits |
| Decorators.RoleGatesPartition | core/decorators.py:38-56 | a logged-in account passes exactly one of the two role gates |
| AuthViews.Login | core/views.py:31-59 | never writes; logged-in callers are turned away; success puts the account in the session only when the password verifies and the stored role is the selected one |
| AuthViews.Register | core/views.py:62-88 | succeeds exactly for an anonymous caller and an unused e-mail, creating one member account and putting it in the session |
| AuthViews.LoginExact | core/views.py:43-55 | on a valid store the e-mail's owner logs in exactly when the password verifies and the role matches; a bad password and a role mismatch are reported as such |
| AuthViews.LoginUnknownEmail | core/views.py:43-55 | an unregistered e-mail is refused as an invalid credential |
| AuthViews.RegisterThenLogin | core/views.py:62-88 | after registering, the same credentials log in as a member |
| AuthViews.RegisterTwice | core/views.py:73-74 | registering the same e-mail again is refused and writes nothing |
| LecturerViews.CreateClassView | core/views.py:145-160 | only a lecturer creates a class, owned by the caller, with no members, every other class unchanged; a taken name writes nothing |
| LecturerViews.ClassDetail | core/views.py:163-174 | read-only; succeeds exactly for the lecturer owning the named class; a missing class is not-found and another lecturer's class unauthorized |
| LecturerViews.UploadPath | core/views.py:214 | the recorded path is the upload's name under `tasks/` |
| LecturerViews.CreateTaskView | core/views.py:187-224 | only the owning lecturer adds a task; a text task keeps the description only, a file task the file path only, never both; every other task unchanged |
| LecturerViews.ViewSubmissions | core/views.py:236-242 | read-only; succeeds exactly for the lecturer who set the task |
| GroupViews.JoinClassView | core/views.py:355-377 | a missing class is not-found, a wrong password is an invalid credential; otherwise the caller is appended to the members if absent, the class is otherwise unchanged, and the caller is promoted to leader in the store and the session |
| GroupViews.CreateGroupView | core/views.py:291-344 | a caller with no joined class gets no-class-joined; otherwise the group goes into the lowest-numbered class that has the caller as a member, led by the caller as its only member; every other group and the caller's role are unchanged |
| GroupViews.AcceptInvitation | core/views.py:384-410 | checks, in order, that the group exists, the session e-mail is whitelisted and the caller is not a member; only then appends the caller, whitelist untouched |
| GroupViews.AddWhitelist | core/views.py:450-466 | only the group's leader whitelists; an e-mail already listed is reported as added and nothing is written; otherwise it is appended at the end, and the list stays duplicate-free |
| GroupViews.RemoveWhitelist | core/views.py:469-479 | only the group's leader removes; an unlisted e-mail changes nothing; others stay listed |
| TaskViews.ExistingMembers | core/views.py:494-498 | the listed members are exactly the group's members that still have an account |
| TaskViews.AssignPartsDivisions | core/views.py:501-505 | after the loop a listed member with a non-blank part has exactly that one division; everyone else keeps their divisions |
| TaskViews.DivideTask | core/views.py:482-510 | only the group's leader divides and only an existing task; every member with a non-blank part gets exactly that division; others are untouched; no class check |
| TaskViews.DivideTaskLands | core/views.py:501-506 | when the leader divides an existing task, each member of the group with a non-blank part has exactly that division and every other member keeps its divisions |
| TaskViews.LeaderViewSubmissions | core/views.py:520-536 | read-only; the leader sees a task only when it exists and is of the group's class |
| TaskViews.SendCompiledWork | core/views.py:566-608 | only the leader, for an existing task; a failed generation (no path, or an empty path, which the view's truthiness test rejects) writes nothing; with a non-empty path the request succeeds and the `(task, group)` record is updated in place or created as the one new record and holds the new path; other records unchanged |
| TaskViews.SendCompiledLands | core/views.py:599-605 | a leader's send with a non-empty artifact path for an existing task succeeds; afterwards the `(task, group)` lookup finds the record just written, the same one as before if it existed, and no other record changed |
| TaskViews.SubmitTask | core/views.py:664-710 | a missing task is not-found; no group of the class gives not-in-group; otherwise the submit succeeds: the existing submission's text is replaced in place or exactly one is created, under the fresh id, in the first such group with no PDF |
| TaskViews.SubmitTaskLands | core/views.py:687-708 | a caller in a group of the task's class always gets its answer stored; afterwards the `(task, member)` lookup finds the record just written and no other record changed |
| DownloadViews.DownloadCompiled | core/views.py:738-757 | read-only; a missing record is not-found before any access check; access exactly for the owning lecturer, the group's leader or a member |
| DownloadViews.DownloadTaskFile | core/views.py:772-794 | read-only; a task without a file is not-found; access exactly for a member of some group of the task's class |
| ViewProperties.RegisterValid | core/views.py:62-88 | registration keeps every invariant |
| ViewProperties.CreateClassViewValid | core/views.py:145-160 | class creation keeps every invariant |
| ViewProperties.CreateTaskViewValid | core/views.py:187-224 | task creation keeps every invariant |
| ViewProperties.JoinClassViewValid | core/views.py:364-377 | joining a class keeps every invariant |
| ViewProperties.CreateGroupViewValid | core/views.py:320-344 | group creation keeps every invariant |
| ViewProperties.AcceptInvitationValid | core/views.py:389-410 | accepting an invitation keeps every invariant |
| ViewProperties.AddWhitelistValid | core/views.py:450-466 | whitelisting keeps every invariant |
| ViewProperties.RemoveWhitelistValid | core/views.py:469-479 | removing from the whitelist keeps every invariant |
| ViewProperties.AssignPartsValid | core/views.py:501-505 | the division loop keeps every invariant |
| ViewProperties.DivideTaskValid | core/views.py:482-510 | dividing a task keeps every invariant |
| ViewProperties.SendCompiledWorkValid | core/views.py:599-605 | sending compiled work keeps the `(group, task)` index and every other invariant |
| ViewProperties.SaveCompiledValid | core/views.py:600-603 | saving the compiled record in place with a new path and time keeps every invariant |
| ViewProperties.SaveSubmissionValid | core/views.py:693-697 | saving a submission in place with a new text keeps every invariant |
| ViewProperties.SubmitTaskValid | core/views.py:687-708 | submitting keeps the `(task, member)` index and every other invariant, so at most one submission per pair results |
| ViewProperties.JoinThenCreateGroup | core/views.py:320-341 | after joining a class the caller can create a group, which goes to the lowest-numbered class that has the caller as a member, unless the name is taken there |
| ViewProperties.InviteThenAccept | core/views.py:389-404 | a whitelisted user who is not yet a member accepts and is appended to the members |
| ViewProperties.AcceptInvitationTwice | core/views.py:399-401 | a repeated acceptance reports already-member and writes nothing |
| ViewProperties.SubmitTaskTwice | core/views.py:694-698 | a second submit keeps the same single record and replaces only its text |
| ViewProperties.SendCompiledTwice | core/views.py:599-605 | a second send with a non-empty path keeps the same single record, holding the second artifact; one with an empty path fails and leaves the first send as it was |
| ViewProperties.SendThenDownload | core/views.py:740-757 | what the leader sent, the leader and the group's members can download |
| ViewProperties.TaskFileAccessMatchesSubmit | core/views.py:780-790 | the task-file download is refused exactly when the submit page reports not-in-group |

## Left out

- Rendering, flash messages, redirects and GET pages are not modelled. The model keeps the outcome of each POST and the state it leaves.
- Form validation (`core/forms.py`) is not part of this model: views receive already-validated fields.
  - `GroupForm`'s class choice field has no choices in `create_group`, so the real form cannot validate as written. The model treats the form as valid.
  - `CompiledTextSubmissionForm` is imported by the views but `core/forms.py` does not define it. The compiled text only feeds the PDF generator, which is a parameter here.
- bcrypt: the salt is folded into the uninterpreted `hash`. Only `Sound` (a password verifies against its own hash) is assumed, and only where a lemma needs it.
- PDF generation and the rewriting of its path into a relative path are not modelled. The generator's result is the `artifact` parameter, and a missing or empty result is `DependencyFailure`, as the view's truthiness test on the path has it.
- File uploads and downloads, `os.path` and `mimetypes` are not modelled. File existence is the `onDisk` parameter, and `get_submission_pdf_path` is not part of this model.
- Clock readings are the `now` parameter. `created_at` fields and the submission's `status` field are omitted.
- `last_edited_at`, which `submit_task` sets on an existing submission, is not a declared field of the document, so it is not kept.
- `create_class` and `create_group` do not catch the storage error a duplicate name raises. This is modelled as the `DuplicateName` outcome with nothing written.
- Dashboards, `group_detail`, `dashboard_view` and the polling endpoints only read and aggregate, so they are left out.
- `logout_view` only flushes the session; it is left out because it touches no stored document.
- The read-only list queries `ClassModel.get_by_lecturer`, `GroupModel.get_by_class`, `GroupModel.get_by_leader`, `TaskModel.get_by_class`, `SubmissionModel.get_by_task_and_group` and `CompiledSubmissionModel.get_by_task` are left out, because only the dashboards and listings left out above use them.
- Store.FirstMatch: `.first()` is taken to return the lowest id; MongoDB's natural order without `order_by` is not guaranteed to be insertion order.
- `view_submissions` keeps only its access check. The listing it renders is left out.
- Rate limiting, middleware, context processors, URL routing, settings and the seeding script are left out.
- Concurrency between requests is left out. Each request is one atomic transition.
- Deleting documents and the `CASCADE` rules are left out, because no modelled view deletes anything.
- TaskViews.SendCompiledWork: the promise that the request succeeds, and that records of other `(task, group)` pairs are untouched, is stated only for stores whose ids are all below the counter, which every valid store satisfies; on other stores a stray record at or above the counter could clash with the insert.
- TaskViews.SubmitTask: the promise that the request succeeds, and that other members' submissions are untouched, is likewise stated only for stores whose ids are all below the counter.
