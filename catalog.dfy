/**
 * The chapter and topic catalogue as the controllers query it. Chapters and
 * topics are read, never written, by the modelled handlers, so the catalogue
 * is a sequence of values passed in.
 */
module Catalog {
  import opened Wrappers

  datatype Topic = Topic(id: nat, name: string, isActive: bool)

  datatype Chapter = Chapter(
    id: nat,
    name: string,
    description: string,
    grade: string,
    isActive: bool,
    topics: seq<Topic>)

  /** The active topics of a chapter, in catalogue order. */
  function ActiveTopics(ts: seq<Topic>): (r: seq<Topic>)
    ensures |r| <= |ts|
    ensures forall t :: t in r <==> t in ts && t.isActive
  {
    if ts == [] then []
    else if ts[0].isActive then [ts[0]] + ActiveTopics(ts[1..])
    else ActiveTopics(ts[1..])
  }

  /**
   * `Chapter.findOne({ where: { id, is_active: true }, include: active topics })`:
   * the include carries its own `where`, so it is an inner join and a chapter
   * without an active topic is not found. The result is the first active
   * chapter with that id and an active topic, carrying only its active topics.
   */
  function FindActiveChapter(chapters: seq<Chapter>, id: int): (r: Option<Chapter>)
    ensures r.None? <==> forall c :: c in chapters ==> c.id != id || !c.isActive || ActiveTopics(c.topics) == []
    ensures r.Some? ==>
      (r.value.id == id && r.value.isActive && r.value.topics != [] &&
       exists c :: c in chapters && c.id == id && c.isActive && r.value == c.(topics := ActiveTopics(c.topics)))
  {
    if chapters == [] then None
    else if chapters[0].id == id && chapters[0].isActive && ActiveTopics(chapters[0].topics) != [] then
      Some(chapters[0].(topics := ActiveTopics(chapters[0].topics)))
    else FindActiveChapter(chapters[1..], id)
  }

  /** `Chapter.findOne({ where: { name, is_active: true } })`: the first active chapter with that name. */
  function FindChapterNamed(chapters: seq<Chapter>, name: string): (r: Option<Chapter>)
    ensures r.None? <==> forall c :: c in chapters ==> c.name != name || !c.isActive
    ensures r.Some? ==> r.value in chapters && r.value.name == name && r.value.isActive
  {
    if chapters == [] then None
    else if chapters[0].name == name && chapters[0].isActive then Some(chapters[0])
    else FindChapterNamed(chapters[1..], name)
  }

  /** The names of the active chapters of one grade, in catalogue order. */
  function ActiveNamesOfGrade(chapters: seq<Chapter>, grade: string): (r: seq<string>)
    ensures |r| <= |chapters|
    ensures forall n :: n in r <==> exists c :: c in chapters && c.grade == grade && c.isActive && c.name == n
  {
    if chapters == [] then []
    else
      var rest := ActiveNamesOfGrade(chapters[1..], grade);
      if chapters[0].grade == grade && chapters[0].isActive then [chapters[0].name] + rest else rest
  }

  /** `Topic.findOne({ where: { id, is_active: true } })`: the first active topic with that id. */
  function FindActiveTopic(topics: seq<Topic>, id: int): (r: Option<Topic>)
    ensures r.None? <==> forall t :: t in topics ==> t.id != id || !t.isActive
    ensures r.Some? ==> r.value in topics && r.value.id == id && r.value.isActive
  {
    if topics == [] then None
    else if topics[0].id == id && topics[0].isActive then Some(topics[0])
    else FindActiveTopic(topics[1..], id)
  }

  /** The topic with that id, active or not, as an include without conditions finds it. */
  function FindTopic(topics: seq<Topic>, id: int): (r: Option<Topic>)
    ensures r.None? <==> forall t :: t in topics ==> t.id != id
    ensures r.Some? ==> r.value in topics && r.value.id == id
  {
    if topics == [] then None
    else if topics[0].id == id then Some(topics[0])
    else FindTopic(topics[1..], id)
  }

  /** The chapter an `include` finds for an id, active or not. */
  function FindChapter(chapters: seq<Chapter>, id: int): (r: Option<Chapter>)
    ensures r.None? <==> forall c :: c in chapters ==> c.id != id
    ensures r.Some? ==> r.value in chapters && r.value.id == id
  {
    if chapters == [] then None
    else if chapters[0].id == id then Some(chapters[0])
    else FindChapter(chapters[1..], id)
  }
}
