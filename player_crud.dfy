/** Players (app/crud/player_crud.py): one player per user, read together with the user that
    owns it, listed all at once, and asked for the subjects they own. */
module PlayerCrud {
  import opened Errors
  import opened Models
  import opened Schemas
  import opened Tables
  import opened Database
  import SubjectCrud

  function Serialize(id: int, p: Player): PlayerRead
  {
    PlayerRead(id, p.userId, p.title, p.level, p.experience)
  }

  /** The error raised for a missing user as the code is written: the user exception is
      constructed with a message although its constructor takes no argument, so the raise
      itself fails and the request ends with a 500 rather than a 404. */
  function MissingUserErrorAsWritten(userId: int): (e: Error)
    ensures e != UserNotFound && StatusCode(e) == 500
  {
    ExceptionArgumentMismatch
  }

  /** The error evidently intended for a missing user: UserNotFound, answered with a 404. */
  function MissingUserError(userId: int): (e: Error)
    ensures e == UserNotFound && StatusCode(e) == 404
  {
    UserNotFound
  }

  /** `crud_create_player`: the user must exist and must not have a player yet; then one player
      with the given title, level and experience (by default "Noobie", 1 and 0) is added. */
  method CreatePlayer(db: Store, userId: int, title: string := "Noobie", level: int := 1, experience: int := 0)
    returns (r: Result<PlayerRead>)
    requires db.Valid()
    modifies db`players, db`nextPlayerId
    ensures db.Valid()
    ensures userId !in db.users ==> r == Err(MissingUserError(userId))
    ensures userId in db.users && (exists id :: id in old(db.players) && old(db.players)[id].userId == userId)
      ==> r == Err(PlayerAlreadyExist(userId))
    ensures r.Ok? <==> userId in db.users && forall id :: id in old(db.players) ==> old(db.players)[id].userId != userId
    ensures r.Err? ==> db.players == old(db.players) && db.nextPlayerId == old(db.nextPlayerId)
    ensures r.Ok? ==>
      && r.value.id !in old(db.players)
      && db.players == old(db.players)[r.value.id := Player(userId, title, level, experience)]
      && r == Ok(Serialize(r.value.id, db.players[r.value.id]))
      && r == ReadPlayerWithUser(db.players, db.users, r.value.id)
  {
    if userId !in db.users {
      return Err(MissingUserError(userId));
    }
    if id :| id in db.players && db.players[id].userId == userId {
      return Err(PlayerAlreadyExist(userId));
    }
    var player := Player(userId, title, level, experience);
    var id := db.nextPlayerId;
    db.players := db.players[id := player];
    db.nextPlayerId := id + 1;
    r := Ok(Serialize(id, player));
  }

  /** `crud_read_player_with_user`: PlayerNotFound for an unknown id; a player whose user row is
      gone fails (a 500); otherwise the player with its user's id. */
  function ReadPlayerWithUser(players: map<int, Player>, users: map<int, User>, id: int): (r: Result<PlayerRead>)
    ensures id !in players ==> r == Err(PlayerNotFound(id))
    ensures id in players && players[id].userId !in users ==> r == Err(PlayerUserMissing(id))
    ensures r.Ok? <==> id in players && players[id].userId in users
    ensures r.Ok? ==>
      && r.value.id == id
      && r.value.userId == players[id].userId
      && r.value.title == players[id].title
      && r.value.level == players[id].level
      && r.value.experience == players[id].experience
  {
    if id !in players then Err(PlayerNotFound(id))
    else if players[id].userId !in users then Err(PlayerUserMissing(id))
    else Ok(Serialize(id, players[id]))
  }

  /** `crud_read_all_players_with_users`: fails when there is no player at all, and with a 500
      when some player's user row is gone; otherwise one entry per player, each as reading that
      player alone gives it. */
  method ReadAllPlayersWithUsers(players: map<int, Player>, users: map<int, User>) returns (r: Result<seq<PlayerRead>>)
    ensures players == map[] ==> r == Err(NoPlayersValueError)
    ensures r.Ok? <==> players != map[] && forall id :: id in players ==> players[id].userId in users
    ensures r.Err? && players != map[] ==> r == Err(InternalError)
    ensures r.Ok? ==>
      && |r.value| == |players|
      && (forall i :: 0 <= i < |r.value| ==> ReadPlayerWithUser(players, users, r.value[i].id) == Ok(r.value[i]))
      && (forall id :: id in players ==> Serialize(id, players[id]) in r.value)
      && (forall i, j :: 0 <= i < j < |r.value| ==> r.value[i].id != r.value[j].id)
  {
    if players == map[] {
      return Err(NoPlayersValueError);
    }
    var ids := Enumerate(players);
    var list: seq<PlayerRead> := [];
    for i := 0 to |ids|
      invariant |list| == i
      invariant forall j :: 0 <= j < i ==> players[ids[j]].userId in users
      invariant forall j :: 0 <= j < i ==> list[j] == Serialize(ids[j], players[ids[j]])
    {
      var id := ids[i];
      var player := players[id];
      if player.userId !in users {
        // `player.user.id` on a missing user fails
        assert id in players && players[id].userId !in users;
        return Err(InternalError);
      }
      list := list + [Serialize(id, player)];
    }
    forall id | id in players
      ensures players[id].userId in users && Serialize(id, players[id]) in list
    {
      var i :| 0 <= i < |ids| && ids[i] == id;
      assert list[i] == Serialize(id, players[id]);
    }
    r := Ok(list);
  }

  /** `crud_read_all_player_subjects`: PlayerNotFound for an unknown player; a 500 when one of
      the player's subjects is refused by the response record; otherwise exactly the subjects
      whose owner is that player, each as reading it alone gives it. */
  method ReadAllPlayerSubjects(players: map<int, Player>, subjects: map<int, Subject>, playerId: int)
    returns (r: Result<seq<SubjectRead>>)
    ensures playerId !in players ==> r == Err(PlayerNotFound(playerId))
    ensures r.Ok? <==>
      playerId in players &&
      forall id :: id in subjects && subjects[id].playerId == playerId ==> SubjectCrud.Presentable(subjects[id])
    ensures r.Err? && playerId in players ==> r == Err(ResponseValidationFailed)
    ensures r.Ok? ==>
      && |r.value| == |Where(subjects, (s: Subject) => s.playerId == playerId)|
      && (forall i :: 0 <= i < |r.value| ==>
            r.value[i].playerId == playerId && SubjectCrud.ReadSubject(subjects, r.value[i].id) == Ok(r.value[i]))
      && (forall id :: id in subjects && subjects[id].playerId == playerId ==>
            SubjectCrud.Serialize(id, subjects[id]) in r.value)
      && (forall i, j :: 0 <= i < j < |r.value| ==> r.value[i].id != r.value[j].id)
  {
    if playerId !in players {
      return Err(PlayerNotFound(playerId));
    }
    var owned := Where(subjects, (s: Subject) => s.playerId == playerId);
    var ids := Enumerate(owned);
    var list: seq<SubjectRead> := [];
    for i := 0 to |ids|
      invariant |list| == i
      invariant forall j :: 0 <= j < i ==> SubjectCrud.Presentable(owned[ids[j]])
      invariant forall j :: 0 <= j < i ==> list[j] == SubjectCrud.Serialize(ids[j], owned[ids[j]])
    {
      var id := ids[i];
      var subject := owned[id];
      if !SubjectCrud.Presentable(subject) {
        // building the `SubjectRead` record fails
        assert id in subjects && subjects[id].playerId == playerId && !SubjectCrud.Presentable(subjects[id]);
        return Err(ResponseValidationFailed);
      }
      list := list + [SubjectCrud.Serialize(id, subject)];
    }
    forall id | id in subjects && subjects[id].playerId == playerId
      ensures SubjectCrud.Presentable(subjects[id]) && SubjectCrud.Serialize(id, subjects[id]) in list
    {
      assert id in owned;
      var i :| 0 <= i < |ids| && ids[i] == id;
      assert list[i] == SubjectCrud.Serialize(id, subjects[id]);
    }
    r := Ok(list);
  }
}
