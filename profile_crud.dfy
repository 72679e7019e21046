/** Profiles (app/crud/profile_crud.py): a profile is added for an existing player. The
    profile's player column is unique, so a player's second profile is refused by the commit. */
module ProfileCrud {
  import opened Errors
  import opened Models
  import opened Schemas
  import opened Database

  function Serialize(id: int, p: Profile): ProfileRead
  {
    ProfileRead(id, p.playerId, p.avatarUrl, p.bio, p.mood)
  }

  /** Player `playerId` already has a profile. */
  predicate HasProfile(profiles: map<int, Profile>, playerId: int)
  {
    exists id :: id in profiles && profiles[id].playerId == playerId
  }

  /** `crud_create_profile`: PlayerNotFound for an unknown player, and nothing is added; a player
      that already has a profile makes the commit fail on the unique column (a 500), and nothing
      is added; otherwise exactly one profile with the given fields is added. */
  method CreateProfile(db: Store, playerId: int, avatarUrl: string, bio: string, mood: Mood) returns (r: Result<ProfileRead>)
    requires db.Valid()
    modifies db`profiles, db`nextProfileId
    ensures db.Valid()
    ensures playerId !in db.players ==> r == Err(PlayerNotFound(playerId))
    ensures playerId in db.players && HasProfile(old(db.profiles), playerId) ==> r == Err(InternalError)
    ensures r.Ok? <==> playerId in db.players && !HasProfile(old(db.profiles), playerId)
    ensures r.Err? ==> db.profiles == old(db.profiles) && db.nextProfileId == old(db.nextProfileId)
    ensures r.Ok? ==>
      && r.value.id !in old(db.profiles)
      && db.profiles == old(db.profiles)[r.value.id := Profile(playerId, avatarUrl, bio, mood)]
      && r == Ok(Serialize(r.value.id, db.profiles[r.value.id]))
      && |db.profiles| == |old(db.profiles)| + 1
  {
    if playerId !in db.players {
      return Err(PlayerNotFound(playerId));
    }
    if HasProfile(db.profiles, playerId) {
      // the unique player column fails the commit
      return Err(InternalError);
    }
    var profile := Profile(playerId, avatarUrl, bio, mood);
    var id := db.nextProfileId;
    db.profiles := db.profiles[id := profile];
    db.nextProfileId := id + 1;
    r := Ok(Serialize(id, profile));
  }
}
