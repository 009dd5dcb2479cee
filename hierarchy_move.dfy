/**
  * `moveTopicUp` and `moveTopicDown`: swap a topic with its neighbour in its
  * chapter and renumber the two swapped topics by their new positions.
  */
module HierarchyMove {
  import opened Seqs
  import opened HierarchyTree

  datatype Direction = Up | Down

  /** The topics with every `order` blanked: what a move must only permute. */
  function WithoutOrders(topics: seq<Topic>): (r: seq<Topic>)
    ensures |r| == |topics|
  {
    seq(|topics|, i requires 0 <= i < |topics| => topics[i].(order := 0))
  }

  /** `moveTopicUp` within one chapter's topic list. */
  function MovedUp(topics: seq<Topic>, topicId: string): seq<Topic>
  {
    var k := TopicIndex(topics, topicId);
    if k > 0 then
      topics[k - 1 := topics[k].(order := k)][k := topics[k - 1].(order := k + 1)]
    else
      topics
  }

  /**
    * `findIndex` gives -1 for a missing topic, and the handler then swaps
    * `topics[-1]` with `topics[0]` and writes through `topics[0]`, which is
    * `undefined` by then: it throws unless the list is empty.
    */
  predicate DownDefined(topics: seq<Topic>, topicId: string)
  {
    topics == [] || TopicIndex(topics, topicId) >= 0
  }

  /** `moveTopicDown` within one chapter's topic list. */
  function MovedDown(topics: seq<Topic>, topicId: string): seq<Topic>
    requires DownDefined(topics, topicId)
  {
    var k := TopicIndex(topics, topicId);
    if k < |topics| - 1 then
      topics[k := topics[k + 1].(order := k + 1)][k + 1 := topics[k].(order := k + 2)]
    else
      topics
  }

  function Moved(topics: seq<Topic>, topicId: string, dir: Direction): seq<Topic>
    requires dir == Down ==> DownDefined(topics, topicId)
  {
    if dir == Up then MovedUp(topics, topicId) else MovedDown(topics, topicId)
  }

  /** At index 0, or when the topic is missing, moving up changes nothing. */
  lemma MoveUpAtTopIsNoOp(topics: seq<Topic>, topicId: string)
    requires TopicIndex(topics, topicId) <= 0
    ensures MovedUp(topics, topicId) == topics
  {
  }

  /**
    * Otherwise the topic at `i` and the one before it change places, taking
    * orders `i` and `i + 1`; no other topic changes.
    */
  lemma MoveUpSwaps(topics: seq<Topic>, topicId: string)
    requires TopicIndex(topics, topicId) > 0
    ensures var i := TopicIndex(topics, topicId);
      var r := MovedUp(topics, topicId);
      |r| == |topics| &&
      r[i - 1].(order := topics[i].order) == topics[i] && r[i - 1].order == i &&
      r[i].(order := topics[i - 1].order) == topics[i - 1] && r[i].order == i + 1 &&
      forall j :: 0 <= j < |topics| && j != i - 1 && j != i ==> r[j] == topics[j]
  {
  }

  /** At the last index moving down changes nothing. */
  lemma MoveDownAtBottomIsNoOp(topics: seq<Topic>, topicId: string)
    requires DownDefined(topics, topicId) && TopicIndex(topics, topicId) == |topics| - 1
    ensures MovedDown(topics, topicId) == topics
  {
  }

  /**
    * Otherwise the topic at `i` and the one after it change places, taking
    * orders `i + 1` and `i + 2`; no other topic changes.
    */
  lemma MoveDownSwaps(topics: seq<Topic>, topicId: string)
    requires 0 <= TopicIndex(topics, topicId) < |topics| - 1
    ensures var i := TopicIndex(topics, topicId);
      var r := MovedDown(topics, topicId);
      |r| == |topics| &&
      r[i].(order := topics[i + 1].order) == topics[i + 1] && r[i].order == i + 1 &&
      r[i + 1].(order := topics[i].order) == topics[i] && r[i + 1].order == i + 2 &&
      forall j :: 0 <= j < |topics| && j != i && j != i + 1 ==> r[j] == topics[j]
  {
  }

  /** Swapping two topics and renumbering them swaps them in the order-free view. */
  lemma WithoutOrdersSwap(topics: seq<Topic>, i: int, j: int, oi: int, oj: int)
    requires 0 <= i < j < |topics|
    ensures var b := WithoutOrders(topics);
      WithoutOrders(topics[i := topics[j].(order := oi)][j := topics[i].(order := oj)]) == b[i := b[j]][j := b[i]]
  {
  }

  /** A move rearranges the topics and rewrites nothing but `order` fields. */
  lemma MovePermutes(topics: seq<Topic>, topicId: string, dir: Direction)
    requires dir == Down ==> DownDefined(topics, topicId)
    ensures multiset(WithoutOrders(Moved(topics, topicId, dir))) == multiset(WithoutOrders(topics))
  {
    var k := TopicIndex(topics, topicId);
    if dir == Up && k > 0 {
      WithoutOrdersSwap(topics, k - 1, k, k, k + 1);
      SwapPermutes(WithoutOrders(topics), k - 1, k);
    } else if dir == Down && k < |topics| - 1 {
      WithoutOrdersSwap(topics, k, k + 1, k + 1, k + 2);
      SwapPermutes(WithoutOrders(topics), k, k + 1);
    }
  }

  /** When every order is its position, it still is after a move. */
  lemma MoveKeepsPositions(topics: seq<Topic>, topicId: string, dir: Direction)
    requires dir == Down ==> DownDefined(topics, topicId)
    requires OrdersArePositions(topics)
    ensures OrdersArePositions(Moved(topics, topicId, dir))
  {
  }

  /** Moving a topic up and then down again restores the list. */
  lemma UpThenDown(topics: seq<Topic>, topicId: string)
    requires OrdersArePositions(topics)
    requires TopicIndex(topics, topicId) > 0
    ensures DownDefined(MovedUp(topics, topicId), topicId)
    ensures MovedDown(MovedUp(topics, topicId), topicId) == topics
  {
    var k := TopicIndex(topics, topicId);
    var r := MovedUp(topics, topicId);
    assert r[k - 1].id == topicId;
    assert TopicIndex(r, topicId) == k - 1;
  }

  /** With topic ids unique, moving a topic down and then up again restores the list. */
  lemma DownThenUp(topics: seq<Topic>, topicId: string)
    requires OrdersArePositions(topics) && UniqueTopicIds(topics)
    requires 0 <= TopicIndex(topics, topicId) < |topics| - 1
    ensures MovedUp(MovedDown(topics, topicId), topicId) == topics
  {
    var k := TopicIndex(topics, topicId);
    var r := MovedDown(topics, topicId);
    assert r[k + 1].id == topicId;
    assert r[k].id == topics[k + 1].id != topicId;
    assert TopicIndex(r, topicId) == k + 1;
  }

  /**
    * The handler's own steps on a copy of the list: `findIndex`, the
    * destructuring swap and the two `order` assignments.
    */
  method MoveUpInPlace(topics: seq<Topic>, topicId: string) returns (r: seq<Topic>)
    ensures r == MovedUp(topics, topicId)
  {
    var a := new Topic[|topics|](i requires 0 <= i < |topics| => topics[i]);
    var k := 0;
    while k < a.Length && a[k].id != topicId
      invariant 0 <= k <= a.Length
      invariant forall j :: 0 <= j < k ==> a[j].id != topicId
      invariant a[..] == topics
    {
      k := k + 1;
    }
    if k == a.Length {
      k := -1;
    }
    assert k == TopicIndex(topics, topicId);
    if k > 0 {
      a[k - 1], a[k] := a[k], a[k - 1];
      a[k - 1] := a[k - 1].(order := k);
      a[k] := a[k].(order := k + 1);
    }
    r := a[..];
  }

  method MoveDownInPlace(topics: seq<Topic>, topicId: string) returns (r: seq<Topic>)
    requires DownDefined(topics, topicId)
    ensures r == MovedDown(topics, topicId)
  {
    var a := new Topic[|topics|](i requires 0 <= i < |topics| => topics[i]);
    var k := 0;
    while k < a.Length && a[k].id != topicId
      invariant 0 <= k <= a.Length
      invariant forall j :: 0 <= j < k ==> a[j].id != topicId
      invariant a[..] == topics
    {
      k := k + 1;
    }
    if k == a.Length {
      k := -1;
    }
    assert k == TopicIndex(topics, topicId);
    if k < a.Length - 1 {
      a[k], a[k + 1] := a[k + 1], a[k];
      a[k] := a[k].(order := k + 1);
      a[k + 1] := a[k + 1].(order := k + 2);
    }
    r := a[..];
  }

  // Where the move happens: the chapter `chapterId` of the week `weekId` of
  // the term `termId` of the subject `subjectId`; every chapter on that
  // path (ids repeat, so there may be several) gets its topics moved.

  datatype TopicPath = TopicPath(subjectId: int, termId: int, weekId: int, chapterId: int)

  predicate ChapterMoved(r: Chapter, c: Chapter, path: TopicPath, topicId: string, dir: Direction, reached: bool)
  {
    if reached && c.id == path.chapterId then
      (dir == Down ==> DownDefined(c.topics, topicId)) && r == c.(topics := Moved(c.topics, topicId, dir))
    else
      r == c
  }

  predicate WeekMoved(r: Week, w: Week, path: TopicPath, topicId: string, dir: Direction, reached: bool)
  {
    r.(chapters := w.chapters) == w && |r.chapters| == |w.chapters| &&
    forall l :: 0 <= l < |w.chapters| ==>
      ChapterMoved(r.chapters[l], w.chapters[l], path, topicId, dir, reached && w.id == path.weekId)
  }

  predicate TermMoved(r: Term, t: Term, path: TopicPath, topicId: string, dir: Direction, reached: bool)
  {
    r.(weeks := t.weeks) == t && |r.weeks| == |t.weeks| &&
    forall k :: 0 <= k < |t.weeks| ==>
      WeekMoved(r.weeks[k], t.weeks[k], path, topicId, dir, reached && t.id == path.termId)
  }

  predicate SubjectMoved(r: Subject, s: Subject, path: TopicPath, topicId: string, dir: Direction)
  {
    r.(terms := s.terms) == s && |r.terms| == |s.terms| &&
    forall j :: 0 <= j < |s.terms| ==>
      TermMoved(r.terms[j], s.terms[j], path, topicId, dir, s.id == path.subjectId)
  }

  // Moving down is defined when every chapter on the path holds the topic or is empty.

  predicate WeekMoveDefined(w: Week, path: TopicPath, topicId: string, dir: Direction)
  {
    forall l :: 0 <= l < |w.chapters| && w.chapters[l].id == path.chapterId && dir == Down ==>
      DownDefined(w.chapters[l].topics, topicId)
  }

  predicate TermMoveDefined(t: Term, path: TopicPath, topicId: string, dir: Direction)
  {
    forall k :: 0 <= k < |t.weeks| && t.weeks[k].id == path.weekId ==> WeekMoveDefined(t.weeks[k], path, topicId, dir)
  }

  predicate SubjectMoveDefined(s: Subject, path: TopicPath, topicId: string, dir: Direction)
  {
    forall j :: 0 <= j < |s.terms| && s.terms[j].id == path.termId ==> TermMoveDefined(s.terms[j], path, topicId, dir)
  }

  predicate MoveDefined(subjects: seq<Subject>, path: TopicPath, topicId: string, dir: Direction)
  {
    forall i :: 0 <= i < |subjects| && subjects[i].id == path.subjectId ==> SubjectMoveDefined(subjects[i], path, topicId, dir)
  }

  function MoveInWeek(w: Week, path: TopicPath, topicId: string, dir: Direction): (r: Week)
    requires w.id == path.weekId ==> WeekMoveDefined(w, path, topicId, dir)
    ensures WeekMoved(r, w, path, topicId, dir, true)
  {
    if w.id == path.weekId then
      w.(chapters := seq(|w.chapters|, l requires 0 <= l < |w.chapters| =>
        var c := w.chapters[l];
        if c.id == path.chapterId then c.(topics := Moved(c.topics, topicId, dir)) else c))
    else
      w
  }

  function MoveInTerm(t: Term, path: TopicPath, topicId: string, dir: Direction): (r: Term)
    requires t.id == path.termId ==> TermMoveDefined(t, path, topicId, dir)
    ensures TermMoved(r, t, path, topicId, dir, true)
  {
    if t.id == path.termId then
      t.(weeks := seq(|t.weeks|, k requires 0 <= k < |t.weeks| => MoveInWeek(t.weeks[k], path, topicId, dir)))
    else
      t
  }

  function MoveInSubject(s: Subject, path: TopicPath, topicId: string, dir: Direction): (r: Subject)
    requires s.id == path.subjectId ==> SubjectMoveDefined(s, path, topicId, dir)
    ensures SubjectMoved(r, s, path, topicId, dir)
  {
    if s.id == path.subjectId then
      s.(terms := seq(|s.terms|, j requires 0 <= j < |s.terms| => MoveInTerm(s.terms[j], path, topicId, dir)))
    else
      s
  }

  /** `moveTopicUp` / `moveTopicDown(subjectId, termId, weekId, chapterId, topicId)` */
  function MoveTopic(subjects: seq<Subject>, path: TopicPath, topicId: string, dir: Direction): (r: seq<Subject>)
    requires MoveDefined(subjects, path, topicId, dir)
    ensures |r| == |subjects|
    ensures forall i :: 0 <= i < |subjects| ==> SubjectMoved(r[i], subjects[i], path, topicId, dir)
  {
    seq(|subjects|, i requires 0 <= i < |subjects| => MoveInSubject(subjects[i], path, topicId, dir))
  }

  lemma {:induction false} WeekMovedOrdered(r: Week, w: Week, path: TopicPath, topicId: string, dir: Direction, reached: bool)
    requires WeekMoved(r, w, path, topicId, dir, reached) && WeekOrdered(w)
    ensures WeekOrdered(r)
  {
    forall l | 0 <= l < |w.chapters| ensures ChapterOrdered(r.chapters[l]) {
      var c := w.chapters[l];
      assert ChapterOrdered(c);
      if reached && w.id == path.weekId && c.id == path.chapterId {
        MoveKeepsPositions(c.topics, topicId, dir);
      }
    }
  }

  /** Moves keep every `order` equal to its position, throughout the tree. */
  lemma MoveKeepsOrders(subjects: seq<Subject>, path: TopicPath, topicId: string, dir: Direction)
    requires MoveDefined(subjects, path, topicId, dir) && TreeOrdered(subjects)
    ensures TreeOrdered(MoveTopic(subjects, path, topicId, dir))
  {
    var r := MoveTopic(subjects, path, topicId, dir);
    forall i, j, k | 0 <= i < |r| && 0 <= j < |r[i].terms| && 0 <= k < |r[i].terms[j].weeks|
      ensures WeekOrdered(r[i].terms[j].weeks[k])
    {
      assert SubjectOrdered(subjects[i]) && TermOrdered(subjects[i].terms[j]);
      WeekMovedOrdered(r[i].terms[j].weeks[k], subjects[i].terms[j].weeks[k], path, topicId, dir,
        subjects[i].id == path.subjectId && subjects[i].terms[j].id == path.termId);
    }
  }
}
