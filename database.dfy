/** The database the crud functions work on through their session: one table per model, each a
    map from primary key to row with a counter for the key of the next new row, and the integrity
    rules the crud functions keep between them. */
module Database {
  import opened Models
  import opened Tables

  /** No two users share a username. */
  ghost predicate UniqueUsernames(users: map<int, User>)
  {
    forall a, b :: a in users && b in users && users[a].username == users[b].username ==> a == b
  }

  /** No two users share an email. */
  ghost predicate UniqueEmails(users: map<int, User>)
  {
    forall a, b :: a in users && b in users && users[a].email == users[b].email ==> a == b
  }

  /** Each user has at most one player. */
  ghost predicate OnePlayerPerUser(players: map<int, Player>)
  {
    forall a, b :: a in players && b in players && players[a].userId == players[b].userId ==> a == b
  }

  /** Each player has at most one profile (the unique `player_id` column). */
  ghost predicate OneProfilePerPlayer(profiles: map<int, Profile>)
  {
    forall a, b :: a in profiles && b in profiles && profiles[a].playerId == profiles[b].playerId ==> a == b
  }

  ghost predicate SubjectDifficultiesInRange(subjects: map<int, Subject>)
  {
    forall id :: id in subjects ==> DifficultyInRange(subjects[id].difficulty)
  }

  ghost predicate QuestDifficultiesInRange(quests: map<int, Quest>)
  {
    forall id :: id in quests ==> DifficultyInRange(quests[id].difficulty)
  }

  /** The ids of the sessions of `playerId` that are still `Active`. */
  function ActiveSessionsOf(sessions: map<int, StudySession>, playerId: int): set<int>
  {
    set id | id in sessions && sessions[id].playerId == playerId && sessions[id].status == Active
  }

  /** A session of `playerId` is still `Active`. */
  predicate HasActiveSession(sessions: map<int, StudySession>, playerId: int)
  {
    ActiveSessionsOf(sessions, playerId) != {}
  }

  /** Having an active session is the `exists()` of the session query: some stored session of
      the player is `Active`. */
  lemma HasActiveSessionIsExists(sessions: map<int, StudySession>, playerId: int)
    ensures HasActiveSession(sessions, playerId) <==>
      exists id :: id in sessions && sessions[id].playerId == playerId && sessions[id].status == Active
  {
    var active := ActiveSessionsOf(sessions, playerId);
    if id :| id in sessions && sessions[id].playerId == playerId && sessions[id].status == Active {
      assert id in active;
    } else {
      EmptyOrInhabited(active);
    }
  }

  /** No player has more than one `Active` session. */
  ghost predicate OneActivePerPlayer(sessions: map<int, StudySession>)
  {
    forall a, b ::
      a in sessions && b in sessions &&
      sessions[a].status == Active && sessions[b].status == Active &&
      sessions[a].playerId == sessions[b].playerId
      ==> a == b
  }

  /** Every session ends after it starts and has earned a non-negative amount of XP. */
  ghost predicate SessionsWellFormed(sessions: map<int, StudySession>)
  {
    forall id :: id in sessions ==> sessions[id].startTime < sessions[id].endTime && sessions[id].xpEarned >= 0
  }

  class Store {
    var users: map<int, User>
    var nextUserId: int
    var players: map<int, Player>
    var nextPlayerId: int
    var profiles: map<int, Profile>
    var nextProfileId: int
    var subjects: map<int, Subject>
    var nextSubjectId: int
    var quests: map<int, Quest>
    var nextQuestId: int
    var materials: map<int, Material>
    var nextMaterialId: int
    var sessions: map<int, StudySession>
    var nextSessionId: int

    ghost predicate Valid()
      reads this
    {
      && KeysBelow(users, nextUserId) && UniqueUsernames(users) && UniqueEmails(users)
      && KeysBelow(players, nextPlayerId) && OnePlayerPerUser(players)
      && KeysBelow(profiles, nextProfileId) && OneProfilePerPlayer(profiles)
      && KeysBelow(subjects, nextSubjectId) && SubjectDifficultiesInRange(subjects)
      && KeysBelow(quests, nextQuestId) && QuestDifficultiesInRange(quests)
      && KeysBelow(materials, nextMaterialId)
      && KeysBelow(sessions, nextSessionId) && OneActivePerPlayer(sessions) && SessionsWellFormed(sessions)
    }

    /** An empty database whose key counters start at 1. */
    constructor ()
      ensures Valid()
      ensures users == map[] && players == map[] && profiles == map[] && subjects == map[]
      ensures quests == map[] && materials == map[] && sessions == map[]
    {
      users, nextUserId := map[], 1;
      players, nextPlayerId := map[], 1;
      profiles, nextProfileId := map[], 1;
      subjects, nextSubjectId := map[], 1;
      quests, nextQuestId := map[], 1;
      materials, nextMaterialId := map[], 1;
      sessions, nextSessionId := map[], 1;
    }
  }
}
