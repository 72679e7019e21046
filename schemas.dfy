/** The request and response shapes of the crud layer (app/schemas), with the validation the
    request schemas perform before a crud function is reached. */
module Schemas {
  import opened Errors
  import opened Models

  datatype UserRead = UserRead(id: int, username: string, email: string)

  datatype PlayerRead = PlayerRead(id: int, userId: int, title: string, level: int, experience: int)

  datatype ProfileRead = ProfileRead(id: int, playerId: int, avatarUrl: string, bio: string, mood: Mood)

  datatype SubjectCreate = SubjectCreate(codeName: string, description: string, difficulty: int)

  /** Every field optional; `None` means "leave unchanged". */
  datatype SubjectUpdate = SubjectUpdate(codeName: Option<string>, description: Option<string>, difficulty: Option<int>)

  datatype SubjectRead = SubjectRead(id: int, playerId: int, codeName: string, description: string, difficulty: int)

  /** The schema bounds `difficulty` to 1..5. */
  datatype QuestCreate = QuestCreate(subjectId: int, description: string, difficulty: int)

  /** The schema bounds a present `difficulty` to 1..5. */
  datatype QuestUpdate = QuestUpdate(description: Option<string>, difficulty: Option<int>, status: Option<QuestStatus>)

  datatype QuestRead = QuestRead(id: int, subjectId: int, description: string, difficulty: int, status: QuestStatus, createdAt: int)

  datatype MaterialCreate = MaterialCreate(title: string, kind: MaterialType, link: string)

  /** One field of a partial update as the client sent it: left out of the request body,
      sent as null, or sent with a value. */
  datatype Patch<+T> = Unset | Null | Value(value: T)

  datatype MaterialUpdate = MaterialUpdate(title: Patch<string>, kind: Patch<MaterialType>, link: Patch<string>)

  datatype MaterialRead = MaterialRead(id: int, subjectId: int, title: string, kind: MaterialType, link: string)

  /** The schema requires `durationMins > 0`. */
  datatype StudySessionCreate = StudySessionCreate(playerId: int, subjectId: int, durationMins: int)

  datatype StudySessionRead = StudySessionRead(
    id: int,
    playerId: int,
    subjectId: int,
    startTime: int,
    endTime: int,
    xpEarned: int,
    status: SessionStatus)

  /** Python truthiness of an optional string: present and non-empty. */
  predicate TruthyText(s: Option<string>)
  {
    s.Some? && s.value != ""
  }

  /** Python truthiness of an optional integer: present and non-zero. */
  predicate TruthyInt(n: Option<int>)
  {
    n.Some? && n.value != 0
  }
}
