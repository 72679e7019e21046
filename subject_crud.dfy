/** Subjects (app/crud/subject_crud.py): created under an existing player, read, and updated
    field by field where the request field is not `None`. The subject table carries the
    difficulty range check (named `difficulty_range`): a row outside 1..5 is refused when the
    transaction commits. */
module SubjectCrud {
  import opened Errors
  import opened Models
  import opened Schemas
  import opened Database
  import opened Attributes

  function Serialize(id: int, s: Subject): SubjectRead
  {
    SubjectRead(id, s.playerId, s.codeName, s.description, s.difficulty)
  }

  /** What the `SubjectRead` response record accepts (its `code_name` and `difficulty` fields
      inherited from `SubjectBase`): a code name of 1 to 25 characters and a difficulty in 1..5. */
  predicate Presentable(s: Subject)
  {
    1 <= |s.codeName| <= 25 && DifficultyInRange(s.difficulty)
  }

  /** `crud_read_subject`: SubjectNotFound for an unknown id; a stored subject that the response
      record refuses ends in a 500; otherwise its stored fields. */
  function ReadSubject(subjects: map<int, Subject>, id: int): (r: Result<SubjectRead>)
    ensures id !in subjects ==> r == Err(SubjectNotFound(id))
    ensures id in subjects && !Presentable(subjects[id]) ==> r == Err(ResponseValidationFailed)
    ensures r.Ok? <==> id in subjects && Presentable(subjects[id])
    ensures r.Ok? ==>
      && r.value.id == id
      && r.value.playerId == subjects[id].playerId
      && r.value.codeName == subjects[id].codeName
      && r.value.description == subjects[id].description
      && r.value.difficulty == subjects[id].difficulty
  {
    if id !in subjects then Err(SubjectNotFound(id))
    else if !Presentable(subjects[id]) then Err(ResponseValidationFailed)
    else Ok(Serialize(id, subjects[id]))
  }

  /** `crud_create_subject`: PlayerNotFound for an unknown player; a difficulty outside 1..5 is
      rejected by the range check at commit and reported as a 400, with nothing stored.
      Otherwise the subject is committed under the next id and the answer is what reading it
      gives: a code name the response record refuses ends in a 500 although the row stays. */
  method CreateSubject(db: Store, playerId: int, newSubject: SubjectCreate) returns (r: Result<SubjectRead>)
    requires db.Valid()
    modifies db`subjects, db`nextSubjectId
    ensures db.Valid()
    ensures playerId !in db.players ==> r == Err(PlayerNotFound(playerId))
    ensures playerId in db.players && !DifficultyInRange(newSubject.difficulty) ==> r == Err(DifficultyOutOfRange)
    ensures playerId !in db.players || !DifficultyInRange(newSubject.difficulty) ==>
      db.subjects == old(db.subjects) && db.nextSubjectId == old(db.nextSubjectId)
    ensures playerId in db.players && DifficultyInRange(newSubject.difficulty) ==>
      var id := old(db.nextSubjectId);
      && id !in old(db.subjects)
      && db.subjects == old(db.subjects)[id := Subject(playerId, newSubject.codeName, newSubject.description, newSubject.difficulty)]
      && r == ReadSubject(db.subjects, id)
    ensures r.Ok? <==>
      playerId in db.players && Presentable(Subject(playerId, newSubject.codeName, newSubject.description, newSubject.difficulty))
  {
    if playerId !in db.players {
      return Err(PlayerNotFound(playerId));
    }
    var subject := Subject(playerId, newSubject.codeName, newSubject.description, newSubject.difficulty);
    if !DifficultyInRange(subject.difficulty) {
      // the range check fails the commit; the transaction is rolled back
      return Err(DifficultyOutOfRange);
    }
    var id := db.nextSubjectId;
    db.subjects := db.subjects[id := subject];
    db.nextSubjectId := id + 1;
    // the response record is built after the commit
    r := ReadSubject(db.subjects, id);
  }

  /** One `setattr` of the update loop. */
  datatype SubjectField = SetCodeName(codeName: string) | SetDescription(description: string) | SetDifficulty(difficulty: int)

  function SetSubjectAttr(s: Subject, f: SubjectField): Subject
  {
    match f
    case SetCodeName(v) => s.(codeName := v)
    case SetDescription(v) => s.(description := v)
    case SetDifficulty(v) => s.(difficulty := v)
  }

  /** The `updated_data` dict: every field that is not `None`, an empty string included. */
  function SubjectUpdateData(u: SubjectUpdate): (data: seq<SubjectField>)
    ensures data == [] <==> u.codeName.None? && u.description.None? && u.difficulty.None?
  {
    (if u.codeName.Some? then [SetCodeName(u.codeName.value)] else [])
    + (if u.description.Some? then [SetDescription(u.description.value)] else [])
    + (if u.difficulty.Some? then [SetDifficulty(u.difficulty.value)] else [])
  }

  /** The subject the update loop leaves: each field that is not `None` takes the new value,
      every other field, the owner included, keeps its value. */
  lemma SubjectUpdateAssigns(s: Subject, u: SubjectUpdate)
    ensures var t := SetAttrs(s, SubjectUpdateData(u), SetSubjectAttr);
      && t.playerId == s.playerId
      && t.codeName == (if u.codeName.Some? then u.codeName.value else s.codeName)
      && t.description == (if u.description.Some? then u.description.value else s.description)
      && t.difficulty == (if u.difficulty.Some? then u.difficulty.value else s.difficulty)
  {
    SetAttrsThree(s,
      if u.codeName.Some? then [SetCodeName(u.codeName.value)] else [],
      if u.description.Some? then [SetDescription(u.description.value)] else [],
      if u.difficulty.Some? then [SetDifficulty(u.difficulty.value)] else [],
      SetSubjectAttr);
  }

  /** `crud_update_subject`: SubjectNotFound for an unknown id; with every field `None` the
      subject is answered as it is stored; otherwise the loop assigns the given fields and
      commits, and a difficulty outside 1..5 makes the range check fail the commit, which is
      rolled back and reported as a 500. After a commit the answer is what reading the subject
      gives, so a code name the response record refuses (the update request does not bound it)
      is stored and still answered with a 500. */
  method UpdateSubject(db: Store, subjectId: int, u: SubjectUpdate) returns (r: Result<SubjectRead>)
    requires db.Valid()
    modifies db`subjects
    ensures db.Valid()
    ensures subjectId !in old(db.subjects) ==> r == Err(SubjectNotFound(subjectId)) && db.subjects == old(db.subjects)
    ensures subjectId in old(db.subjects) && u.difficulty.Some? && !DifficultyInRange(u.difficulty.value)
      ==> r == Err(InternalError) && db.subjects == old(db.subjects)
    ensures subjectId in old(db.subjects) && (u.difficulty.Some? ==> DifficultyInRange(u.difficulty.value)) ==>
      && db.subjects == old(db.subjects)[subjectId := SetAttrs(old(db.subjects)[subjectId], SubjectUpdateData(u), SetSubjectAttr)]
      && r == ReadSubject(db.subjects, subjectId)
    ensures r.Ok? <==>
      && subjectId in old(db.subjects)
      && (u.difficulty.Some? ==> DifficultyInRange(u.difficulty.value))
      && Presentable(SetAttrs(old(db.subjects)[subjectId], SubjectUpdateData(u), SetSubjectAttr))
  {
    if subjectId !in db.subjects {
      return Err(SubjectNotFound(subjectId));
    }
    var original := db.subjects[subjectId];
    SubjectUpdateAssigns(original, u);
    var data := SubjectUpdateData(u);
    if data == [] {
      assert db.subjects == db.subjects[subjectId := original];
      return ReadSubject(db.subjects, subjectId);
    }
    var subject := AssignAll(original, data, SetSubjectAttr);
    if !DifficultyInRange(subject.difficulty) {
      // the range check fails the commit; the transaction is rolled back
      return Err(InternalError);
    }
    db.subjects := db.subjects[subjectId := subject];
    // the response record is built after the commit
    r := ReadSubject(db.subjects, subjectId);
  }

  /** The update request leaves `code_name` unbounded, so any update that sets a code name
      of 0 or more than 25 characters, the empty one included, stores it, and from then on every
      read of that subject ends in a 500. */
  lemma UnboundedCodeNameUnreadable(subjects: map<int, Subject>, id: int, u: SubjectUpdate)
    requires id in subjects
    requires u.codeName.Some? && !(1 <= |u.codeName.value| <= 25)
    ensures var t := SetAttrs(subjects[id], SubjectUpdateData(u), SetSubjectAttr);
      && t.codeName == u.codeName.value
      && ReadSubject(subjects[id := t], id) == Err(ResponseValidationFailed)
  {
    SubjectUpdateAssigns(subjects[id], u);
  }
}
