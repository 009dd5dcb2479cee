/**
  * The course tree the content hierarchy edits: a subject holds terms, a
  * term holds weeks, a week holds chapters and a chapter holds topics.
  * Subject, term, week and chapter ids are numbers; topic ids are strings.
  */
module HierarchyTree {
  import opened Optional
  import opened Strings
  import opened Seqs

  datatype TopicStatus = Published | Draft | Review

  datatype Topic = Topic(
    id: string,
    title: string,
    topicType: string,   // 'video', 'pdf', 'quiz' or 'notes'; an edit may store any text
    duration: Option<string>,
    order: int,
    status: Option<TopicStatus>,
    estimatedTime: Option<string>)

  datatype Chapter = Chapter(
    id: int,
    title: string,
    description: Option<string>,
    order: int,
    topics: seq<Topic>,
    isExpanded: Option<bool>,
    isContinuation: Option<bool>,
    originalChapterId: Option<int>)

  datatype Week = Week(
    id: int,
    title: string,
    order: int,
    chapters: seq<Chapter>,
    isExpanded: Option<bool>)

  datatype Term = Term(
    id: int,
    title: string,
    order: int,
    weeks: seq<Week>,
    isExpanded: Option<bool>)

  datatype Subject = Subject(
    id: int,
    name: string,
    level: string,
    examBoard: string,
    school: Option<string>,
    terms: seq<Term>,
    isExpanded: Option<bool>)

  /** The level of a node, the `type` argument of the tree's handlers. */
  datatype Kind = SubjectNode | TermNode | WeekNode | ChapterNode | TopicNode

  /** A JavaScript `string | number` value; `===` never equates a string with a number. */
  datatype Key = Num(n: int) | Str(s: string)

  /** An absent `isExpanded` reads as collapsed. */
  predicate Expanded(flag: Option<bool>)
  {
    flag == Some(true)
  }

  /** `parentIds[k] === id`: an index past the end reads `undefined`, which equals no id. */
  predicate ParentIs(parentIds: seq<Key>, k: nat, id: int)
  {
    k < |parentIds| && parentIds[k] == Num(id)
  }

  /** `weeks.findIndex(w => w.id === id)` */
  function WeekIndex(weeks: seq<Week>, id: int): (k: int)
    ensures -1 <= k < |weeks|
    ensures k >= 0 ==> weeks[k].id == id && forall j :: 0 <= j < k ==> weeks[j].id != id
    ensures k == -1 <==> forall j :: 0 <= j < |weeks| ==> weeks[j].id != id
  {
    IndexWhere(weeks, (w: Week) => w.id == id)
  }

  /** `chapters.findIndex(c => c.id === id)`; `find` returns the chapter at that index. */
  function ChapterIndex(chapters: seq<Chapter>, id: int): (k: int)
    ensures -1 <= k < |chapters|
    ensures k >= 0 ==> chapters[k].id == id && forall j :: 0 <= j < k ==> chapters[j].id != id
    ensures k == -1 <==> forall j :: 0 <= j < |chapters| ==> chapters[j].id != id
  {
    IndexWhere(chapters, (c: Chapter) => c.id == id)
  }

  /** `topics.findIndex(t => t.id === id)` */
  function TopicIndex(topics: seq<Topic>, id: string): (k: int)
    ensures -1 <= k < |topics|
    ensures k >= 0 ==> topics[k].id == id && forall j :: 0 <= j < k ==> topics[j].id != id
    ensures k == -1 <==> forall j :: 0 <= j < |topics| ==> topics[j].id != id
  {
    IndexWhere(topics, (t: Topic) => t.id == id)
  }

  /** Every topic's `order` is its 1-based position in its chapter. */
  predicate OrdersArePositions(topics: seq<Topic>)
  {
    forall i :: 0 <= i < |topics| ==> topics[i].order == i + 1
  }

  predicate UniqueTopicIds(topics: seq<Topic>)
  {
    forall i, j :: 0 <= i < j < |topics| ==> topics[i].id != topics[j].id
  }

  predicate UniqueWeekIds(weeks: seq<Week>)
  {
    forall i, j :: 0 <= i < j < |weeks| ==> weeks[i].id != weeks[j].id
  }

  // The layout the seed data has and the rendering relies on: at every
  // level the `order` of a child is its 1-based position in its list.

  predicate ChapterOrdersArePositions(chapters: seq<Chapter>)
  {
    forall i :: 0 <= i < |chapters| ==> chapters[i].order == i + 1
  }

  predicate WeekOrdersArePositions(weeks: seq<Week>)
  {
    forall i :: 0 <= i < |weeks| ==> weeks[i].order == i + 1
  }

  predicate TermOrdersArePositions(terms: seq<Term>)
  {
    forall i :: 0 <= i < |terms| ==> terms[i].order == i + 1
  }

  predicate ChapterOrdered(c: Chapter)
  {
    OrdersArePositions(c.topics)
  }

  predicate WeekOrdered(w: Week)
  {
    ChapterOrdersArePositions(w.chapters) &&
    forall l :: 0 <= l < |w.chapters| ==> ChapterOrdered(w.chapters[l])
  }

  predicate TermOrdered(t: Term)
  {
    WeekOrdersArePositions(t.weeks) &&
    forall k :: 0 <= k < |t.weeks| ==> WeekOrdered(t.weeks[k])
  }

  predicate SubjectOrdered(s: Subject)
  {
    TermOrdersArePositions(s.terms) &&
    forall j :: 0 <= j < |s.terms| ==> TermOrdered(s.terms[j])
  }

  predicate TreeOrdered(subjects: seq<Subject>)
  {
    forall i :: 0 <= i < |subjects| ==> SubjectOrdered(subjects[i])
  }

  /**
    * The thirteen empty weeks of a term as the seed data and the new-subject
    * skeleton build them: ids `firstId`.., titles "Week 1".."Week 13",
    * orders 1..13.
    */
  function EmptyWeeks(firstId: int): (r: seq<Week>)
    ensures |r| == 13
    ensures forall k :: 0 <= k < 13 ==> r[k].id == firstId + k && r[k].order == k + 1 && r[k].chapters == []
  {
    seq(13, k requires 0 <= k < 13 => Week(firstId + k, "Week " + NatToString(k + 1), k + 1, [], None))
  }

  function KindName(k: Kind): string
  {
    match k
    case SubjectNode => "subject"
    case TermNode => "term"
    case WeekNode => "week"
    case ChapterNode => "chapter"
    case TopicNode => "topic"
  }

  /** The edit token `${kind}-${id}` naming the node being renamed. */
  function Token(k: Kind, idText: string): (r: string)
    ensures |r| == |KindName(k)| + 1 + |idText|
    ensures r[..|KindName(k)|] == KindName(k) && r[|KindName(k)|] == '-'
    ensures r[|KindName(k)| + 1..] == idText
  {
    KindName(k) + "-" + idText
  }

  /** The token of a subject, term, week or chapter, whose ids print as decimal numbers. */
  function NodeToken(k: Kind, id: int): string
  {
    Token(k, IntToString(id))
  }

  /** Two tokens are equal exactly when they name the same kind and the same id text. */
  lemma TokenInjective(k1: Kind, x1: string, k2: Kind, x2: string)
    ensures Token(k1, x1) == Token(k2, x2) <==> k1 == k2 && x1 == x2
  {
    if Token(k1, x1) == Token(k2, x2) {
      var t := Token(k1, x1);
      assert t[0] == KindName(k1)[0] == KindName(k2)[0];
      assert t[1] == KindName(k1)[1] == KindName(k2)[1];
      assert k1 == k2;
    }
  }

  /** Numeric tokens are equal exactly when they name the same kind and the same id. */
  lemma NodeTokenInjective(k1: Kind, a: int, k2: Kind, b: int)
    ensures NodeToken(k1, a) == NodeToken(k2, b) <==> k1 == k2 && a == b
  {
    TokenInjective(k1, IntToString(a), k2, IntToString(b));
    if IntToString(a) == IntToString(b) {
      IntToStringInjective(a, b);
    }
  }
}
