/** Study sessions (app/crud/study_session_crud.py): a player starts a session on one of the
    subjects, at most one `Active` session per player, and ends it, which marks it `Completed`
    and stores the XP the game service computes for it. */
module StudySessionCrud {
  import opened Errors
  import opened Models
  import opened Schemas
  import opened Tables
  import opened Database

  /** `timedelta(minutes=...)` in the seconds timestamps are counted in. */
  const SecondsPerMinute := 60

  /** `datetime.max`, 9999-12-31 23:59:59.999999, in the whole seconds since 1970-01-01 UTC
      that `now` counts. A session ending later cannot be represented. */
  const MaxTimestamp := 253402300799

  /** The three facts the create-time query looks up together. */
  datatype ValidationResults = ValidationResults(playerExists: bool, subjectExists: bool, hasActiveSession: bool)

  /** The one-row query of `utils_validate_inputs`. */
  function ValidateInputs(
    players: map<int, Player>,
    subjects: map<int, Subject>,
    sessions: map<int, StudySession>,
    req: StudySessionCreate): (v: ValidationResults)
    ensures v.playerExists <==> req.playerId in players
    ensures v.subjectExists <==> req.subjectId in subjects
    ensures v.hasActiveSession <==>
      exists id :: id in sessions && sessions[id].playerId == req.playerId && sessions[id].status == Active
  {
    HasActiveSessionIsExists(sessions, req.playerId);
    ValidationResults(req.playerId in players, req.subjectId in subjects, HasActiveSession(sessions, req.playerId))
  }

  function Serialize(id: int, s: StudySession): StudySessionRead
  {
    StudySessionRead(id, s.playerId, s.subjectId, s.startTime, s.endTime, s.xpEarned, s.status)
  }

  /** `crud_read_study_session`: the stored fields of session `id`, or 404. */
  function ReadStudySession(sessions: map<int, StudySession>, id: int): (r: Result<StudySessionRead>)
    ensures r.Ok? <==> id in sessions
    ensures r.Err? ==> r.error == StudySessionNotFound(id)
    ensures r.Ok? ==>
      && r.value.id == id
      && r.value.playerId == sessions[id].playerId
      && r.value.subjectId == sessions[id].subjectId
      && r.value.startTime == sessions[id].startTime
      && r.value.endTime == sessions[id].endTime
      && r.value.xpEarned == sessions[id].xpEarned
      && r.value.status == sessions[id].status
  {
    if id in sessions then Ok(Serialize(id, sessions[id])) else Err(StudySessionNotFound(id))
  }

  /** `crud_read_all_study_sessions`: one record per stored session, each as read by id. */
  method ReadAllStudySessions(sessions: map<int, StudySession>) returns (r: seq<StudySessionRead>)
    ensures |r| == |sessions|
    ensures forall i :: 0 <= i < |r| ==> ReadStudySession(sessions, r[i].id) == Ok(r[i])
    ensures forall id :: id in sessions ==> Serialize(id, sessions[id]) in r
    ensures forall i, j :: 0 <= i < j < |r| ==> r[i].id != r[j].id
  {
    var ids := Enumerate(sessions);
    r := seq(|ids|, i requires 0 <= i < |ids| => Serialize(ids[i], sessions[ids[i]]));
    forall id | id in sessions
      ensures Serialize(id, sessions[id]) in r
    {
      var i :| 0 <= i < |ids| && ids[i] == id;
      assert r[i] == Serialize(id, sessions[id]);
    }
  }

  /** `crud_create_study_session`. The checks run in a fixed order, player, then subject, then
      the player's active session, and the first that fails decides the error. `now` is the
      server clock. Whether the subject belongs to the player is not checked. An end time past
      `datetime.max` raises OverflowError before the row is added: nothing is stored and the
      client gets a 500. With `now` a whole second and the clock's fraction of a second below
      one, the end passes `datetime.max` exactly when `now + 60 * duration_mins` does. */
  method CreateStudySession(db: Store, req: StudySessionCreate, now: int) returns (r: Result<StudySessionRead>)
    requires db.Valid()
    requires req.durationMins > 0
    modifies db`sessions, db`nextSessionId
    ensures db.Valid()
    ensures req.playerId !in db.players ==> r == Err(PlayerNotFound(req.playerId))
    ensures req.playerId in db.players && req.subjectId !in db.subjects ==> r == Err(SubjectNotFound(req.subjectId))
    ensures req.playerId in db.players && req.subjectId in db.subjects && HasActiveSession(old(db.sessions), req.playerId)
      ==> r == Err(StudySessionStillActive(req.playerId))
    ensures req.playerId in db.players && req.subjectId in db.subjects && !HasActiveSession(old(db.sessions), req.playerId)
      && now + SecondsPerMinute * req.durationMins > MaxTimestamp
      ==> r == Err(InternalError)
    ensures r.Ok? <==>
      && req.playerId in db.players && req.subjectId in db.subjects && !HasActiveSession(old(db.sessions), req.playerId)
      && now + SecondsPerMinute * req.durationMins <= MaxTimestamp
    ensures r.Err? ==> db.sessions == old(db.sessions) && db.nextSessionId == old(db.nextSessionId)
    ensures r.Ok? ==>
      var id := r.value.id;
      && id !in old(db.sessions)
      && db.sessions == old(db.sessions)[id := StudySession(
           req.playerId, req.subjectId, now, now + SecondsPerMinute * req.durationMins, Active, 0)]
      && db.sessions[id].startTime < db.sessions[id].endTime
      && ActiveSessionsOf(db.sessions, req.playerId) == {id}
      && r == ReadStudySession(db.sessions, id)
  {
    var v := ValidateInputs(db.players, db.subjects, db.sessions, req);
    if !v.playerExists {
      return Err(PlayerNotFound(req.playerId));
    }
    if !v.subjectExists {
      return Err(SubjectNotFound(req.subjectId));
    }
    if v.hasActiveSession {
      return Err(StudySessionStillActive(req.playerId));
    }
    var startTime := now;
    var endTime := startTime + SecondsPerMinute * req.durationMins;
    if endTime > MaxTimestamp {
      // the OverflowError escapes before the row is added
      return Err(InternalError);
    }
    var id := db.nextSessionId;
    db.sessions := db.sessions[id := StudySession(req.playerId, req.subjectId, startTime, endTime, Active, 0)];
    db.nextSessionId := id + 1;
    r := Ok(Serialize(id, db.sessions[id]));
  }

  /** What the XP calculation sees: the session already marked `Completed`. */
  function Finishing(s: StudySession): StudySession
  {
    s.(status := SessionStatus.Completed)
  }

  /** `crud_end_study_session`. The game service's XP computation is the parameter
      `calculateXp`: `None` when it raises, otherwise the non-negative XP it returns. A failure
      there (or in the commit) rolls the transaction back, leaving the table as it was.
      Only a `Completed` session is refused, so a `Pending` one can be ended. */
  method EndStudySession(db: Store, id: int, calculateXp: StudySession -> Option<nat>) returns (r: Result<StudySessionRead>)
    requires db.Valid()
    modifies db`sessions
    ensures db.Valid()
    ensures id !in old(db.sessions) ==> r == Err(StudySessionNotFound(id))
    ensures id in old(db.sessions) && old(db.sessions)[id].status == SessionStatus.Completed
      ==> r == Err(StudySessionAlreadyCompleted(id))
    ensures id in old(db.sessions) && old(db.sessions)[id].status != SessionStatus.Completed
      && calculateXp(Finishing(old(db.sessions)[id])).None?
      ==> r == Err(InternalError)
    ensures r.Ok? <==>
      id in old(db.sessions) && old(db.sessions)[id].status != SessionStatus.Completed
      && calculateXp(Finishing(old(db.sessions)[id])).Some?
    ensures r.Err? ==> db.sessions == old(db.sessions)
    ensures r.Ok? ==>
      var s := old(db.sessions)[id];
      && db.sessions == old(db.sessions)[id := s.(status := SessionStatus.Completed,
                                                 xpEarned := calculateXp(Finishing(s)).value)]
      && db.sessions[id].xpEarned >= 0
      && r == ReadStudySession(db.sessions, id)
  {
    if id !in db.sessions {
      return Err(StudySessionNotFound(id));
    }
    if db.sessions[id].status == SessionStatus.Completed {
      return Err(StudySessionAlreadyCompleted(id));
    }
    var committed := db.sessions;
    db.sessions := db.sessions[id := Finishing(db.sessions[id])];
    var xp := calculateXp(db.sessions[id]);
    if xp.None? {
      db.sessions := committed;
      return Err(InternalError);
    }
    db.sessions := db.sessions[id := db.sessions[id].(xpEarned := xp.value)];
    r := Ok(Serialize(id, db.sessions[id]));
  }

  /** Ending the same session twice: the second call always fails and changes nothing. */
  method EndTwice(db: Store, id: int, calculateXp: StudySession -> Option<nat>)
    returns (first: Result<StudySessionRead>, second: Result<StudySessionRead>)
    requires db.Valid()
    modifies db`sessions
    ensures db.Valid()
    ensures second.Err?
    ensures first.Ok? ==> second == Err(StudySessionAlreadyCompleted(id))
  {
    first := EndStudySession(db, id, calculateXp);
    second := EndStudySession(db, id, calculateXp);
  }

  /** The one-active-session rule, counted: a player has at most one `Active` session. */
  lemma AtMostOneActiveSession(sessions: map<int, StudySession>, playerId: int)
    requires OneActivePerPlayer(sessions)
    ensures |ActiveSessionsOf(sessions, playerId)| <= 1
  {
    var ids := ActiveSessionsOf(sessions, playerId);
    EmptyOrInhabited(ids);
    if ids != {} {
      var a :| a in ids;
      forall b | b in ids
        ensures b == a
      {
        assert sessions[b].playerId == sessions[a].playerId;
      }
      assert ids == {a};
    }
  }
}
