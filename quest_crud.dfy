/** Quests (app/crud/quest_crud.py): created in a subject unless the subject already has a quest
    with the same description, read by id, and updated for the fields given a truthy value. */
module QuestCrud {
  import opened Errors
  import opened Models
  import opened Schemas
  import opened Database
  import opened Attributes

  function Serialize(id: int, q: Quest): QuestRead
  {
    QuestRead(id, q.subjectId, q.description, q.difficulty, q.status, q.createdAt)
  }

  /** The error raised for a duplicate quest as the code is written: the exception class is
      raised without the subject id its constructor requires, so the raise itself fails and the
      request ends with a 500 rather than a 400. */
  function DuplicateQuestErrorAsWritten(subjectId: int): (e: Error)
    ensures e != QuestAlreadyExists(subjectId) && StatusCode(e) == 500
  {
    ExceptionArgumentMismatch
  }

  /** The error evidently intended for a duplicate quest: QuestAlreadyExists, answered with a 400. */
  function DuplicateQuestError(subjectId: int): (e: Error)
    ensures e == QuestAlreadyExists(subjectId) && StatusCode(e) == 400
  {
    QuestAlreadyExists(subjectId)
  }

  /** Subject `subjectId` already holds a quest described as `description`. */
  predicate DuplicateIn(quests: map<int, Quest>, description: string, subjectId: int)
  {
    exists id :: id in quests && quests[id].description == description && quests[id].subjectId == subjectId
  }

  /** `_check_quest_exists_in_subject`: some quest of the subject with that description, if any. */
  method FindQuestInSubject(quests: map<int, Quest>, description: string, subjectId: int) returns (r: Option<int>)
    ensures r.Some? ==> r.value in quests && quests[r.value].description == description && quests[r.value].subjectId == subjectId
    ensures r.None? <==> !DuplicateIn(quests, description, subjectId)
  {
    if id :| id in quests && quests[id].description == description && quests[id].subjectId == subjectId {
      r := Some(id);
    } else {
      r := None;
    }
  }

  /** `crud_read_quest`: the stored fields of quest `id`, or QuestNotFound. */
  function ReadQuest(quests: map<int, Quest>, id: int): (r: Result<QuestRead>)
    ensures r.Ok? <==> id in quests
    ensures r.Err? ==> r.error == QuestNotFound(id)
    ensures r.Ok? ==>
      && r.value.id == id
      && r.value.subjectId == quests[id].subjectId
      && r.value.description == quests[id].description
      && r.value.difficulty == quests[id].difficulty
      && r.value.status == quests[id].status
      && r.value.createdAt == quests[id].createdAt
  {
    if id in quests then Ok(Serialize(id, quests[id])) else Err(QuestNotFound(id))
  }

  /** `crud_create_quest`: refused when the subject already has a quest with that description;
      otherwise one quest is added, in progress and created at `now`, and it is then the only
      quest of its subject with that description. The request schema keeps the difficulty in
      1..5; the subject itself is not looked up. */
  method CreateQuest(db: Store, newQuest: QuestCreate, now: int) returns (r: Result<QuestRead>)
    requires db.Valid()
    requires DifficultyInRange(newQuest.difficulty)
    modifies db`quests, db`nextQuestId
    ensures db.Valid()
    ensures r.Ok? <==> !DuplicateIn(old(db.quests), newQuest.description, newQuest.subjectId)
    ensures r.Err? ==> r == Err(DuplicateQuestError(newQuest.subjectId))
    ensures r.Err? ==> db.quests == old(db.quests) && db.nextQuestId == old(db.nextQuestId)
    ensures r.Ok? ==>
      && r.value.id !in old(db.quests)
      && db.quests == old(db.quests)[r.value.id :=
           Quest(newQuest.subjectId, newQuest.description, newQuest.difficulty, QuestStatus.InProgress, now)]
      && r == ReadQuest(db.quests, r.value.id)
      && (forall id ::
            id in db.quests && db.quests[id].subjectId == newQuest.subjectId && db.quests[id].description == newQuest.description
            ==> id == r.value.id)
  {
    var existing := FindQuestInSubject(db.quests, newQuest.description, newQuest.subjectId);
    if existing.Some? {
      return Err(DuplicateQuestError(newQuest.subjectId));
    }
    var quest := Quest(newQuest.subjectId, newQuest.description, newQuest.difficulty, QuestStatus.InProgress, now);
    var id := db.nextQuestId;
    db.quests := db.quests[id := quest];
    db.nextQuestId := id + 1;
    r := Ok(Serialize(id, quest));
  }

  /** One `setattr` of the update loop. */
  datatype QuestField = SetDescription(description: string) | SetDifficulty(difficulty: int) | SetStatus(status: QuestStatus)

  function SetQuestAttr(q: Quest, f: QuestField): Quest
  {
    match f
    case SetDescription(v) => q.(description := v)
    case SetDifficulty(v) => q.(difficulty := v)
    case SetStatus(v) => q.(status := v)
  }

  /** The `updated_data` dict: the description and difficulty only when truthy (an empty
      description or a zero difficulty is skipped), the status whenever given. */
  function QuestUpdateData(u: QuestUpdate): (data: seq<QuestField>)
    ensures data == [] <==> !TruthyText(u.description) && !TruthyInt(u.difficulty) && u.status.None?
  {
    (if TruthyText(u.description) then [SetDescription(u.description.value)] else [])
    + (if TruthyInt(u.difficulty) then [SetDifficulty(u.difficulty.value)] else [])
    + (if u.status.Some? then [SetStatus(u.status.value)] else [])
  }

  /** The quest the update loop leaves: each field given a truthy value takes it, every other
      field keeps its value, and the subject and creation time never change. */
  lemma QuestUpdateAssigns(q: Quest, u: QuestUpdate)
    ensures var t := SetAttrs(q, QuestUpdateData(u), SetQuestAttr);
      && t.subjectId == q.subjectId
      && t.createdAt == q.createdAt
      && t.description == (if TruthyText(u.description) then u.description.value else q.description)
      && t.difficulty == (if TruthyInt(u.difficulty) then u.difficulty.value else q.difficulty)
      && t.status == (if u.status.Some? then u.status.value else q.status)
  {
    SetAttrsThree(q,
      if TruthyText(u.description) then [SetDescription(u.description.value)] else [],
      if TruthyInt(u.difficulty) then [SetDifficulty(u.difficulty.value)] else [],
      if u.status.Some? then [SetStatus(u.status.value)] else [],
      SetQuestAttr);
  }

  /** `crud_update_quest`: QuestNotFound for an unknown id; otherwise the truthy fields are
      assigned (nothing changes when there are none). The request schema keeps a given
      difficulty in 1..5; uniqueness of the description is not checked again. */
  method UpdateQuest(db: Store, questId: int, u: QuestUpdate) returns (r: Result<QuestRead>)
    requires db.Valid()
    requires u.difficulty.Some? ==> DifficultyInRange(u.difficulty.value)
    modifies db`quests
    ensures db.Valid()
    ensures r.Ok? <==> questId in old(db.quests)
    ensures r.Err? ==> r == Err(QuestNotFound(questId)) && db.quests == old(db.quests)
    ensures r.Ok? ==>
      && db.quests == old(db.quests)[questId := SetAttrs(old(db.quests)[questId], QuestUpdateData(u), SetQuestAttr)]
      && r == ReadQuest(db.quests, questId)
  {
    if questId !in db.quests {
      return Err(QuestNotFound(questId));
    }
    var data := QuestUpdateData(u);
    if data == [] {
      return Ok(Serialize(questId, db.quests[questId]));
    }
    var original := db.quests[questId];
    var quest := AssignAll(original, data, SetQuestAttr);
    QuestUpdateAssigns(original, u);
    db.quests := db.quests[questId := quest];
    r := Ok(Serialize(questId, quest));
  }
}
