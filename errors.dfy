/** The exceptions the crud layer raises, with the HTTP status each one reaches the client with,
    and the Option/Result wrappers the operations return instead of raising. */
module Errors {

  datatype Option<+T> = None | Some(value: T)

  datatype Error =
    // user_crud.py
    | UserNotFound
    | UserAlreadyExists
    // player_crud.py
    | PlayerNotFound(playerId: int)
    | PlayerAlreadyExist(userId: int)
    /** The ValueError raised when a player's user row is missing. */
    | PlayerUserMissing(playerId: int)
    /** The ValueError raised when the player table is empty. */
    | NoPlayersValueError
    // subject_crud.py
    | SubjectNotFound(subjectId: int)
    /** The 400 reported when the subject difficulty constraint rejects a new row. */
    | DifficultyOutOfRange
    // quest_crud.py
    | QuestNotFound(questId: int)
    | QuestAlreadyExists(subjectId: int)
    // material_crud.py
    | MaterialNotFound(materialId: int)
    /** Read or update of a material through a subject it does not belong to (404). */
    | MaterialNotInSubject
    /** Delete of a material through a subject it does not belong to (403). */
    | MaterialForbidden
    // study_session_crud.py
    | StudySessionNotFound(studySessionId: int)
    | StudySessionStillActive(playerId: int)
    | StudySessionAlreadyCompleted(studySessionId: int)
    /** A 500 that is none of the layer's own exceptions: a failed commit or computation, which
        the code catches and rolls back where it has an except block, or a date overflow that
        escapes the crud function before anything is stored. */
    | InternalError
    /** The validation error raised while building a response record from a stored row (500). */
    | ResponseValidationFailed
    /** The TypeError Python raises when an exception class is instantiated with the wrong arguments. */
    | ExceptionArgumentMismatch

  /** The HTTP status code the client receives for each error: a client error for every
      HTTPException the crud layer raises on purpose, a 500 exactly for the other exceptions
      (caught and rolled back, or escaping the crud function), and a 409 exactly for the two
      session-state conflicts. */
  function StatusCode(e: Error): (code: int)
    ensures 400 <= code < 600
    ensures code == 500 <==> e.PlayerUserMissing? || e.NoPlayersValueError? || e.InternalError? || e.ResponseValidationFailed? || e.ExceptionArgumentMismatch?
    ensures code == 409 <==> e.StudySessionStillActive? || e.StudySessionAlreadyCompleted?
  {
    match e
    case UserNotFound => 404
    case UserAlreadyExists => 400
    case PlayerNotFound(_) => 404
    case PlayerAlreadyExist(_) => 404
    case PlayerUserMissing(_) => 500
    case NoPlayersValueError => 500
    case SubjectNotFound(_) => 404
    case DifficultyOutOfRange => 400
    case QuestNotFound(_) => 404
    case QuestAlreadyExists(_) => 400
    case MaterialNotFound(_) => 404
    case MaterialNotInSubject => 404
    case MaterialForbidden => 403
    case StudySessionNotFound(_) => 404
    case StudySessionStillActive(_) => 409
    case StudySessionAlreadyCompleted(_) => 409
    case InternalError => 500
    case ResponseValidationFailed => 500
    case ExceptionArgumentMismatch => 500
  }

  datatype Result<+T> = Ok(value: T) | Err(error: Error)
}
