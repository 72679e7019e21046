# Cram Quest crud layer in Dafny

A model of the crud layer of the Cram Quest API (`app/crud/`), the gamified study tracker in
which a user owns a player, a player owns subjects, subjects hold quests and study materials,
and a player runs timed study sessions that earn experience. Each crud function takes a
database session and checks the rows it needs. A function that writes changes at most one
table and commits. The reads never commit. The subject, quest and user updates whose request
assigns nothing return before committing; the material update commits even then. The model
follows that shape:

- `Database.Store` is the database: one `map` from primary key to row per table, with a
  counter beside it that hands out the key of the next new row. `Store.Valid()` holds the rules the crud layer keeps between
  calls: keys below the next key, unique usernames and emails, one player per user, one
  profile per player, subject and quest difficulties in 1..5, at most one `Active` study
  session per player, and every session ending after it starts with non-negative XP.
- Each crud function that writes is a module-level method that takes the `Store`. Its
  `modifies` clause names only the fields it writes, such as ``db`sessions`` and
  ``db`nextSessionId``. Its postcondition gives every error case in the order the code checks
  them. It says that an error leaves the table as it was, except for the 500 that subject create
  and update answer after a commit that stays (below). It gives the whole new table on success,
  and it ties the returned value to the matching read function where the module has one
  (profiles have none).
- Reads of one row are functions on a table snapshot. Reads of many rows are methods that walk
  the table in an unspecified order (`Tables.Enumerate`). Their results are checked against
  the single-row read: one entry per row, no row twice, no row missing.
- The `setattr` loops of the update functions are loops over the list of fields to assign,
  proved against `Attributes.SetAttrs`. A lemma per table then says which fields change:
  truthy values for quests, values that are not `None` for subjects, explicitly set values for
  materials, and username and email always plus a truthy password for users.
- Errors are `Errors.Error` values carrying the HTTP status the API answers with
  (`Errors.StatusCode`). A response record that refuses the stored row it is built from
  (`SubjectRead` bounds the code name to 1..25 characters) is a 500 like in the code, even
  after a commit that stays. Commit failures the code can meet are modelled where a table rule
  causes them: a second profile for a player, a subject difficulty outside 1..5, a null
  material column, and an XP calculation that raises. Where the code has an except block
  (study_session_crud.py, subject_crud.py, material_crud.py) it rolls back. `crud_create_profile`
  has none, so its failed commit escapes as a 500. Either way nothing is stored. A session end
  time past `datetime.max` raises before anything is added, also a 500.
- The clock, the password hash and the XP calculation are parameters: `now` in whole seconds,
  `hash: string -> string`, and `calculateXp: StudySession -> Option<nat>`. For the XP
  calculation, `None` stands for a calculation that raises. `GameService.calculate_xp` is
  clamped at 0 (app/services/game_service.py:35), so the XP it gives is a `nat`.

## Model

| member | source | states |
|---|---|---|
| Tables.Enumerate | app/crud/study_session_crud.py:120-121 | Lists every key of a table exactly once: the list is as long as the table, holds only its keys, holds each key, and repeats none. |
| Attributes.SetAttrsConcat | app/crud/subject_crud.py:87-88 | Assigning the fields of `a + b` one after another is assigning those of `a`, then those of `b`. |
| Attributes.SetAttrsThree | app/crud/quest_crud.py:85-87 | With at most one assignment in each of three groups, the loop's result is the three optional assignments applied in order. |
| Errors.StatusCode | app/crud/study_session_crud.py:11-25 | Every error is answered with a 4xx or 5xx status: a 500 exactly for the exceptions that are not one of the layer's own HTTPExceptions, whether an except block catches and rolls them back or they escape (the ValueError for a missing user row or an empty player table, a failed commit or calculation, a date overflow, a refused response record, a broken raise), and a 409 exactly for the two session-state conflicts. |
| Database.HasActiveSessionIsExists | app/crud/study_session_crud.py:141-146 | A player has an active session exactly when some stored session of that player is `Active`, the `exists()` of the validation query. |
| StudySessionCrud.ValidateInputs | app/crud/study_session_crud.py:136-149 | The three flags are true exactly when the player exists, the subject exists, and the player has an `Active` session. |
| StudySessionCrud.ReadStudySession | app/crud/study_session_crud.py:68-82 | Succeeds exactly when the session exists and then returns its stored fields; otherwise StudySessionNotFound for that id. |
| StudySessionCrud.ReadAllStudySessions | app/crud/study_session_crud.py:120-131 | One entry per stored session, each equal to reading that session alone, none repeated, none missing. |
| StudySessionCrud.CreateStudySession | app/crud/study_session_crud.py:27-66 | Checks in order: PlayerNotFound, then SubjectNotFound, then StudySessionStillActive for any active session of the player. Then a 500 when the end time, `now + 60 * duration_mins` seconds, is past `datetime.max`. It succeeds exactly when none of these applies and then adds one session under a fresh id: `Active`, no XP, starting now and ending `60 * duration_mins` seconds later. It is then the player's only active session. An error adds nothing. |
| StudySessionCrud.EndStudySession | app/crud/study_session_crud.py:84-118 | StudySessionNotFound for an unknown id. StudySessionAlreadyCompleted for a completed session. A raising XP calculation is rolled back and answered with a 500. Otherwise only that session changes: it becomes `Completed` with the calculated non-negative XP. The one-active-session rule still holds. |
| StudySessionCrud.EndTwice | app/crud/study_session_crud.py:90-91 | Ending the same session twice never succeeds the second time. After a successful first end, the second fails with StudySessionAlreadyCompleted. |
| StudySessionCrud.AtMostOneActiveSession | app/crud/study_session_crud.py:41-42 | Under the one-active-session rule, a player has at most one `Active` session. |
| UserCrud.CreateUser | app/crud/user_crud.py:17-42 | UserAlreadyExists exactly when some user has the same username or email, and nothing is added. Otherwise one user is added under a fresh id, storing the hash of the password, and reading it back gives the result. |
| UserCrud.ReadUserById | app/crud/user_crud.py:44-54 | Succeeds exactly when the user exists and then returns its id, username and email; otherwise UserNotFound. |
| UserCrud.ReadUserByUsername | app/crud/user_crud.py:56-63 | Returns the stored user with that username, which usernames being unique makes the only one; UserNotFound when there is none. |
| UserCrud.ReadAllUsers | app/crud/user_crud.py:65-74 | One entry per stored user, each equal to reading that user alone, none repeated, none missing. |
| UserCrud.UserUpdateData | app/crud/user_crud.py:99-106 | The fields to assign are the username and the email, then the password only for a truthy password. The password is never assigned as given, only its hash. |
| UserCrud.UserUpdateAssigns | app/crud/user_crud.py:99-110 | The update loop sets the username and email to the given values. It replaces the password with the new hash only for a truthy password. |
| UserCrud.UpdateUser | app/crud/user_crud.py:76-124 | Checks in order: UserNotFound, then UserAlreadyExists when another user has the username or the email. With all three values falsy the user is returned unchanged. Otherwise the update loop's result is stored and returned. Usernames and emails stay unique. |
| UserCrud.DeleteUser | app/crud/user_crud.py:126-139 | UserNotFound for an unknown id. Otherwise exactly that user is removed and returned as it was. |
| SubjectCrud.ReadSubject | app/crud/subject_crud.py:49-59 | SubjectNotFound for an unknown id. A stored subject whose code name is not 1 to 25 characters is refused by the `SubjectRead` record (app/schemas/subject_schema.py:5-7), a 500. Otherwise it returns the stored fields. |
| SubjectCrud.CreateSubject | app/crud/subject_crud.py:16-47 | PlayerNotFound for an unknown player, then the 400 for a difficulty outside 1..5; both add nothing. Otherwise one subject with the given fields is committed under the next id and the answer is reading it: success exactly when the code name is 1 to 25 characters, a 500 with the row kept otherwise. |
| SubjectCrud.SubjectUpdateData | app/crud/subject_crud.py:68-78 | The update has nothing to assign exactly when every field of the request is `None`. |
| SubjectCrud.SubjectUpdateAssigns | app/crud/subject_crud.py:68-88 | Each field that is not `None` takes the new value. Every other field keeps its value, and the owning player never changes. |
| SubjectCrud.UpdateSubject | app/crud/subject_crud.py:61-104 | SubjectNotFound for an unknown id. A new difficulty outside 1..5 fails the commit and is rolled back with a 500. Otherwise the update loop's result is stored (the subject itself when nothing is set) and the answer is reading it, so a code name outside 1..25 characters, which the update request does not bound, is stored and answered with a 500. |
| SubjectCrud.UnboundedCodeNameUnreadable | app/schemas/subject_schema.py:16-19 | Any update that sets a code name of 0 or more than 25 characters, the empty one included, stores it, and reading that subject then ends in a 500. |
| PlayerCrud.MissingUserErrorAsWritten | app/crud/player_crud.py:36-37 | The raise for a missing user, as written, ends in a 500 and not in UserNotFound. |
| PlayerCrud.MissingUserError | app/crud/user_crud.py:9-11 | The intended error for a missing user is UserNotFound with a 404. |
| PlayerCrud.CreatePlayer | app/crud/player_crud.py:24-57 | Checks in order: the missing-user error (the corrected UserNotFound, see Findings), then PlayerAlreadyExist when the user already has a player. Success happens exactly when neither applies and adds one player with the given title, level and experience, by default "Noobie", 1 and 0; reading it back gives the result. A user keeps at most one player. |
| PlayerCrud.ReadPlayerWithUser | app/crud/player_crud.py:59-83 | Checks in order: PlayerNotFound, then a 500 when the player's user row is gone. Otherwise it returns the player with its user's id. |
| PlayerCrud.ReadAllPlayersWithUsers | app/crud/player_crud.py:85-107 | Fails with the ValueError's 500 when there is no player, and with a 500 exactly when some player's user row is gone. Otherwise one entry per player, each equal to reading that player alone, none repeated, none missing. |
| PlayerCrud.ReadAllPlayerSubjects | app/crud/player_crud.py:109-130 | PlayerNotFound for an unknown player. A 500 exactly when one of the player's subjects is refused by the `SubjectRead` record. Otherwise exactly the subjects the player owns, each equal to reading it alone, none repeated, none missing. |
| QuestCrud.DuplicateQuestErrorAsWritten | app/crud/quest_crud.py:26-27 | The raise for a duplicate quest, as written, ends in a 500 and not in QuestAlreadyExists. |
| QuestCrud.DuplicateQuestError | app/crud/quest_crud.py:14-16 | The intended error for a duplicate quest is QuestAlreadyExists for the subject, with a 400. |
| QuestCrud.FindQuestInSubject | app/crud/quest_crud.py:124-133 | Returns a quest of that subject with that description, and nothing exactly when there is none. |
| QuestCrud.ReadQuest | app/crud/quest_crud.py:108-121 | Succeeds exactly when the quest exists and then returns its stored fields; otherwise QuestNotFound for that id. |
| QuestCrud.CreateQuest | app/crud/quest_crud.py:23-55 | Succeeds exactly when the subject has no quest with the same description; otherwise the duplicate error (the corrected QuestAlreadyExists, see Findings) and nothing is added. On success one quest is added under a fresh id, in progress and created now, and it is then the subject's only quest with that description. |
| QuestCrud.QuestUpdateData | app/crud/quest_crud.py:64-75 | The update has nothing to assign exactly when the description and difficulty are falsy and no status is given. |
| QuestCrud.QuestUpdateAssigns | app/crud/quest_crud.py:64-87 | A truthy description or difficulty, and any given status, is assigned. Every other field keeps its value. The subject and creation time never change. |
| QuestCrud.UpdateQuest | app/crud/quest_crud.py:57-106 | Succeeds exactly when the quest exists and stores the update loop's result; otherwise QuestNotFound with nothing changed. |
| MaterialCrud.CreateMaterial | app/crud/material_crud.py:15-33 | Always adds one material under a fresh id with the given fields, and reading it back gives the result. |
| MaterialCrud.GetMaterial | app/crud/material_crud.py:95-99 | Returns the stored material exactly when it exists; otherwise MaterialNotFound. |
| MaterialCrud.ReadMaterial | app/crud/material_crud.py:36-44 | Checks in order: MaterialNotFound, then a 404 when the material belongs to another subject. Otherwise it returns the stored fields. |
| MaterialCrud.ReadAllSubjectMaterials | app/crud/material_crud.py:47-53 | Exactly the subject's materials, each equal to reading it alone, none repeated, none missing. |
| MaterialCrud.Committed | app/crud/material_crud.py:67-69 | The commit accepts the pending material exactly when none of its columns is null, and keeps its values. |
| MaterialCrud.MaterialUpdateData | app/crud/material_crud.py:64 | The update has nothing to assign exactly when the request sets no field. |
| MaterialCrud.MaterialUpdateAssigns | app/crud/material_crud.py:64-65 | Each explicitly set field takes the request's value, an explicit null included. Every other field keeps its value, and the subject never changes. |
| MaterialCrud.UpdateMaterial | app/crud/material_crud.py:56-74 | Fails as the read does for an unknown material or another subject's material. An explicit null fails the commit and is rolled back with a 500. Otherwise the update loop's result is stored and reading it gives the result. |
| MaterialCrud.DeleteMaterial | app/crud/material_crud.py:77-93 | Checks in order: MaterialNotFound, then a 403 when the material belongs to another subject. Otherwise exactly that material is removed and returned as the read gave it. |
| ProfileCrud.CreateProfile | app/crud/profile_crud.py:12-23 | PlayerNotFound for an unknown player. A player that already has a profile fails the commit on the unique player column with a 500. Otherwise exactly one profile with the given fields is added. An error adds nothing. |

## Left out

- `crud_create_study_session` raises its ValidationError when the validation query returns no row. That query always returns one row, so the branch is not modelled.
- `GameService.calculate_xp` and `next_level_xp` work in floating point and are not part of this model. The XP calculation is a parameter. As written it reads `expected_duration`, which the study session row does not declare, so it would raise. Ending a session would then always take the 500 path. The model keeps that path (`None`) and also covers a calculation that succeeds.
- The password hash (bcrypt with a random salt) is a parameter.
- The clock is a parameter. Times are whole seconds since 1970-01-01 UTC, and the end of a session is `now + 60 * duration_mins`. The fraction of a second `datetime.now()` carries is dropped, which does not change when the end passes `datetime.max`.
- `CreateStudySession`, `ReadUserById` and every other operation take ids and integers as unbounded. SQLite stores 64-bit integers, so a request id of 2^63 or more makes the driver raise, a 500, where the model answers with the not-found error.
- `app/crud/auth_crud.py`, the routes, the task table and the migrations are not part of this model.
- `CreateUser`, `DeleteUser`: the model's key counters never hand out a key twice. The `id` columns are `INTEGER PRIMARY KEY` without AUTOINCREMENT, so SQLite gives a new row the largest stored key plus one, and a key freed by deleting the newest user (or material) is given to the next new row. After `DeleteUser` of the newest user, the next `CreateUser` in the code takes over that id and with it the player left behind: `CreatePlayer` for it answers PlayerAlreadyExist and `ReadPlayerWithUser` returns the new user. In the model the new user gets a fresh id and the left-behind player keeps answering the missing-user 500.
- Foreign keys are not enforced by the configured SQLite database, so cascading deletes are not modelled. `DeleteUser` leaves the user's player in place. That is why reading such a player can hit the missing-user branch.
- `CreateMaterial`, `CreateQuest` and `CreateStudySession` do not check that the subject belongs to the player, or that it exists where the code does not look it up. The model does the same.
- `ReadAllStudySessions`, `ReadAllUsers`, `ReadAllPlayersWithUsers`, `ReadAllPlayerSubjects` and `ReadAllSubjectMaterials` return rows in an unspecified order. The model does not fix the database's row order.
- `CreatePlayer`: follows the crud code and the migrations, where a player row has a unique `user_id` and the user, player and subject rows are linked. app/models/player_model.py:4-8 and app/models/user_model.py:4-8 declare neither that column nor those links, and app/schemas/player_schema.py imports a `PlayerTitle` that the player model does not define. The title is a plain string.
- `CreatePlayer`: answers a missing user with the corrected UserNotFound (404), not with the 500 the raise as written produces; `PlayerCrud.MissingUserErrorAsWritten` states the as-written outcome.
- `ReadPlayerWithUser`: builds the player record with the fields the crud code passes (id, user id, title, level, experience). The `PlayerRead` schema declared in app/schemas/player_schema.py:15-18 has no user id and requires a username and an email, so with that declaration every found player would end in a 500. That failure is not modelled.
- `ReadAllPlayersWithUsers`: same record as `ReadPlayerWithUser`; the schema mismatch that would turn every non-empty answer into a 500 is not modelled.
- `CreateQuest`: answers a duplicate with the corrected QuestAlreadyExists (400), not with the 500 the raise as written produces; `QuestCrud.DuplicateQuestErrorAsWritten` states the as-written outcome.
- `ReadAllPlayersWithUsers`: which player's missing user is met first is not modelled, only that the call fails with a 500.
- The subject table's range check is named `difficulty_range` in app/crud/subject_crud.py:42. app/models/subject_model.py does not declare it. The model assumes the table has it, as the create function expects.
- `CreateQuest` and `UpdateQuest` require a difficulty in 1..5, which the request schema enforces before the crud function runs. The minimum and maximum description lengths of the update schema are not modelled.
- `CreateProfile` takes the mood as a `Mood`. A mood string outside the enumeration, which the crud function would store as it is, is not modelled.
- Commit failures other than the ones listed above are not modelled: lost connections, locks, and the ValueError and RuntimeError wrappers in `crud_create_player`.
- `crud_update_user` catches its commit errors with a 400. No table rule makes that commit fail once the duplicate check has passed, so that branch is not modelled.
- Sessions are async in `app/crud/material_crud.py`. Concurrent requests are not modelled, including the race between checking for an active session and inserting a new one. Every call is one sequential step.
- The `Pending` session status is declared but never assigned, and no operation produces it.

## Findings

| source | as written | input that shows it | evidently intended | confidence | as-written member | corrected member |
|---|---|---|---|---|---|---|
| app/crud/quest_crud.py:27 | `raise QuestAlreadyExists` raises the class, whose constructor needs a subject id, so building the exception fails and the client gets a 500 | a quest create whose subject already has a quest with the same description | QuestAlreadyExists for the subject, answered with a 400 | high; not executed | QuestCrud.DuplicateQuestErrorAsWritten | QuestCrud.DuplicateQuestError |
| app/crud/player_crud.py:37 | `UserNotFound(...)` is given a message, but its constructor takes no argument, so building the exception fails and the client gets a 500 | a player create for a user id with no user row | UserNotFound, answered with a 404 | high; not executed | PlayerCrud.MissingUserErrorAsWritten | PlayerCrud.MissingUserError |
