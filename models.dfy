/** The rows of the database tables (app/models). Timestamps are integer seconds; optional
    columns that the crud layer always fills are plain values. */
module Models {

  /** A stored user; `password` holds the hash, never the plaintext. */
  datatype User = User(username: string, email: string, password: string)

  /** A player; `userId` links it to its user (unique across players). */
  datatype Player = Player(userId: int, title: string, level: int, experience: int)

  datatype Mood = Happy | Motivated | Neutral | Stressed | Exhausted

  datatype Profile = Profile(playerId: int, avatarUrl: string, bio: string, mood: Mood)

  datatype Subject = Subject(playerId: int, codeName: string, description: string, difficulty: int)

  datatype QuestStatus = InProgress | Completed

  datatype Quest = Quest(subjectId: int, description: string, difficulty: int, status: QuestStatus, createdAt: int)

  datatype MaterialType = Video | Flashcard | Note

  /** A study material; `kind` is the `type` column. */
  datatype Material = Material(subjectId: int, title: string, kind: MaterialType, link: string)

  /** `Pending` is declared but no operation ever assigns it. */
  datatype SessionStatus = Active | Pending | Completed

  datatype StudySession = StudySession(
    playerId: int,
    subjectId: int,
    startTime: int,
    endTime: int,
    status: SessionStatus,
    xpEarned: int)

  /** The difficulty range declared for subjects and quests. */
  predicate DifficultyInRange(d: int)
  {
    1 <= d <= 5
  }
}
