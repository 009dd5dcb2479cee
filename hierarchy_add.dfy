/**
  * `handleAddItem` and `continueChapterToNextWeek`: the edits that append a
  * child at the end of one list of the tree, numbering it one past the
  * list's previous length.
  */
module HierarchyAdd {
  import opened Optional
  import opened Strings
  import opened HierarchyTree

  /** `addDialogType` */
  datatype AddKind = AddWeek | AddChapter | AddTopic

  /** `addDialogContext`: the ids of the parent the new item goes under; an id not given is `undefined`. */
  datatype AddContext = AddContext(subjectId: int, termId: Option<int>, weekId: Option<int>, chapterId: Option<int>)

  /** What the add dialog submits; every field is text, empty when left blank. */
  datatype ItemForm = ItemForm(title: string, description: string, topicType: string, duration: string, estimatedTime: string)

  function NewWeek(form: ItemForm, now: int, count: nat): Week
  {
    Week(now, form.title, count + 1, [], Some(true))
  }

  function NewChapter(form: ItemForm, now: int, count: nat): Chapter
  {
    Chapter(now, form.title, Some(form.description), count + 1, [], Some(true), None, None)
  }

  /** A new topic's id is the decimal text of the fresh number. */
  function NewTopic(form: ItemForm, now: nat, count: nat): Topic
  {
    Topic(NatToString(now), form.title, form.topicType, Some(form.duration), count + 1, Some(Published), Some(form.estimatedTime))
  }

  // The specification: `r` is `x` after the add, where `reached` says that
  // every ancestor of `x` matched the context. The list of the reached node
  // the context names for this kind grows by the new item; every other node
  // stays as it was.

  predicate ChapterAdded(r: Chapter, c: Chapter, kind: AddKind, ctx: AddContext, form: ItemForm, now: nat, reached: bool)
  {
    if reached && kind == AddTopic && ctx.chapterId == Some(c.id) then
      r == c.(topics := c.topics + [NewTopic(form, now, |c.topics|)])
    else
      r == c
  }

  predicate WeekAdded(r: Week, w: Week, kind: AddKind, ctx: AddContext, form: ItemForm, now: nat, reached: bool)
  {
    if reached && kind == AddChapter && ctx.weekId == Some(w.id) then
      r == w.(chapters := w.chapters + [NewChapter(form, now, |w.chapters|)])
    else
      r.(chapters := w.chapters) == w && |r.chapters| == |w.chapters| &&
      forall l :: 0 <= l < |w.chapters| ==>
        ChapterAdded(r.chapters[l], w.chapters[l], kind, ctx, form, now, reached && ctx.weekId == Some(w.id))
  }

  predicate TermAdded(r: Term, t: Term, kind: AddKind, ctx: AddContext, form: ItemForm, now: nat, reached: bool)
  {
    if reached && kind == AddWeek && ctx.termId == Some(t.id) then
      r == t.(weeks := t.weeks + [NewWeek(form, now, |t.weeks|)])
    else
      r.(weeks := t.weeks) == t && |r.weeks| == |t.weeks| &&
      forall k :: 0 <= k < |t.weeks| ==>
        WeekAdded(r.weeks[k], t.weeks[k], kind, ctx, form, now, reached && ctx.termId == Some(t.id))
  }

  predicate SubjectAdded(r: Subject, s: Subject, kind: AddKind, ctx: AddContext, form: ItemForm, now: nat)
  {
    r.(terms := s.terms) == s && |r.terms| == |s.terms| &&
    forall j :: 0 <= j < |s.terms| ==>
      TermAdded(r.terms[j], s.terms[j], kind, ctx, form, now, s.id == ctx.subjectId)
  }

  // Whether a node has, at or below it, the parent the context names.

  predicate ChapterTargeted(c: Chapter, kind: AddKind, ctx: AddContext)
  {
    kind == AddTopic && ctx.chapterId == Some(c.id)
  }

  predicate WeekTargeted(w: Week, kind: AddKind, ctx: AddContext)
  {
    ctx.weekId == Some(w.id) &&
    (kind == AddChapter || exists l :: 0 <= l < |w.chapters| && ChapterTargeted(w.chapters[l], kind, ctx))
  }

  predicate TermTargeted(t: Term, kind: AddKind, ctx: AddContext)
  {
    ctx.termId == Some(t.id) &&
    (kind == AddWeek || exists k :: 0 <= k < |t.weeks| && WeekTargeted(t.weeks[k], kind, ctx))
  }

  predicate SubjectTargeted(s: Subject, kind: AddKind, ctx: AddContext)
  {
    s.id == ctx.subjectId && exists j :: 0 <= j < |s.terms| && TermTargeted(s.terms[j], kind, ctx)
  }

  /** Some subject holds the parent the context names. */
  predicate Reaches(subjects: seq<Subject>, kind: AddKind, ctx: AddContext)
  {
    exists i :: 0 <= i < |subjects| && SubjectTargeted(subjects[i], kind, ctx)
  }

  // The operation, level by level.

  function AddInChapter(c: Chapter, kind: AddKind, ctx: AddContext, form: ItemForm, now: nat): (r: Chapter)
    ensures ChapterAdded(r, c, kind, ctx, form, now, true)
  {
    if kind == AddTopic && ctx.chapterId == Some(c.id) then
      c.(topics := c.topics + [NewTopic(form, now, |c.topics|)])
    else
      c
  }

  function AddInWeek(w: Week, kind: AddKind, ctx: AddContext, form: ItemForm, now: nat): (r: Week)
    ensures WeekAdded(r, w, kind, ctx, form, now, true)
  {
    if kind == AddChapter && ctx.weekId == Some(w.id) then
      w.(chapters := w.chapters + [NewChapter(form, now, |w.chapters|)])
    else if ctx.weekId == Some(w.id) then
      w.(chapters := seq(|w.chapters|, l requires 0 <= l < |w.chapters| => AddInChapter(w.chapters[l], kind, ctx, form, now)))
    else
      w
  }

  function AddInTerm(t: Term, kind: AddKind, ctx: AddContext, form: ItemForm, now: nat): (r: Term)
    ensures TermAdded(r, t, kind, ctx, form, now, true)
  {
    if kind == AddWeek && ctx.termId == Some(t.id) then
      t.(weeks := t.weeks + [NewWeek(form, now, |t.weeks|)])
    else if ctx.termId == Some(t.id) then
      t.(weeks := seq(|t.weeks|, k requires 0 <= k < |t.weeks| => AddInWeek(t.weeks[k], kind, ctx, form, now)))
    else
      WeeksUnreached(t.weeks, kind, ctx, form, now);
      t
  }

  function AddInSubject(s: Subject, kind: AddKind, ctx: AddContext, form: ItemForm, now: nat): (r: Subject)
    ensures SubjectAdded(r, s, kind, ctx, form, now)
  {
    if s.id == ctx.subjectId then
      s.(terms := seq(|s.terms|, j requires 0 <= j < |s.terms| => AddInTerm(s.terms[j], kind, ctx, form, now)))
    else
      TermsUnreached(s.terms, kind, ctx, form, now);
      s
  }

  /** `handleAddItem(data)` with the dialog's kind and context; `now` stands for `Date.now()`. */
  function AddItem(subjects: seq<Subject>, kind: AddKind, ctx: AddContext, form: ItemForm, now: nat): (r: seq<Subject>)
    ensures |r| == |subjects|
    ensures forall i :: 0 <= i < |subjects| ==> SubjectAdded(r[i], subjects[i], kind, ctx, form, now)
  {
    seq(|subjects|, i requires 0 <= i < |subjects| => AddInSubject(subjects[i], kind, ctx, form, now))
  }

  lemma WeeksUnreached(weeks: seq<Week>, kind: AddKind, ctx: AddContext, form: ItemForm, now: nat)
    ensures forall k :: 0 <= k < |weeks| ==> WeekAdded(weeks[k], weeks[k], kind, ctx, form, now, false)
  {
  }

  lemma TermsUnreached(terms: seq<Term>, kind: AddKind, ctx: AddContext, form: ItemForm, now: nat)
    ensures forall j :: 0 <= j < |terms| ==> TermAdded(terms[j], terms[j], kind, ctx, form, now, false)
  {
    forall j | 0 <= j < |terms| {
      WeeksUnreached(terms[j].weeks, kind, ctx, form, now);
    }
  }

  // A node changes exactly when it was reached and holds the named parent.

  lemma {:induction false} WeekAddedChanges(r: Week, w: Week, kind: AddKind, ctx: AddContext, form: ItemForm, now: nat, reached: bool)
    requires WeekAdded(r, w, kind, ctx, form, now, reached)
    ensures r == w <==> !(reached && WeekTargeted(w, kind, ctx))
  {
    if !(reached && kind == AddChapter && ctx.weekId == Some(w.id)) {
      var down := reached && ctx.weekId == Some(w.id);
      if down && WeekTargeted(w, kind, ctx) {
        var l :| 0 <= l < |w.chapters| && ChapterTargeted(w.chapters[l], kind, ctx);
        assert r.chapters[l] != w.chapters[l] by {
          assert |r.chapters[l].topics| == |w.chapters[l].topics| + 1;
        }
      } else {
        assert r.chapters == w.chapters;
      }
    } else {
      assert |r.chapters| == |w.chapters| + 1;
    }
  }

  lemma {:induction false} TermAddedChanges(r: Term, t: Term, kind: AddKind, ctx: AddContext, form: ItemForm, now: nat, reached: bool)
    requires TermAdded(r, t, kind, ctx, form, now, reached)
    ensures r == t <==> !(reached && TermTargeted(t, kind, ctx))
  {
    if !(reached && kind == AddWeek && ctx.termId == Some(t.id)) {
      var down := reached && ctx.termId == Some(t.id);
      forall k | 0 <= k < |t.weeks|
        ensures r.weeks[k] == t.weeks[k] <==> !(down && WeekTargeted(t.weeks[k], kind, ctx))
      {
        WeekAddedChanges(r.weeks[k], t.weeks[k], kind, ctx, form, now, down);
      }
      if down && TermTargeted(t, kind, ctx) {
        var k :| 0 <= k < |t.weeks| && WeekTargeted(t.weeks[k], kind, ctx);
        assert r.weeks[k] != t.weeks[k];
      } else {
        assert r.weeks == t.weeks;
      }
    } else {
      assert |r.weeks| == |t.weeks| + 1;
    }
  }

  lemma {:induction false} SubjectAddedChanges(r: Subject, s: Subject, kind: AddKind, ctx: AddContext, form: ItemForm, now: nat)
    requires SubjectAdded(r, s, kind, ctx, form, now)
    ensures r == s <==> !SubjectTargeted(s, kind, ctx)
  {
    var down := s.id == ctx.subjectId;
    forall j | 0 <= j < |s.terms|
      ensures r.terms[j] == s.terms[j] <==> !(down && TermTargeted(s.terms[j], kind, ctx))
    {
      TermAddedChanges(r.terms[j], s.terms[j], kind, ctx, form, now, down);
    }
    if SubjectTargeted(s, kind, ctx) {
      var j :| 0 <= j < |s.terms| && TermTargeted(s.terms[j], kind, ctx);
      assert r.terms[j] != s.terms[j];
    } else {
      assert r.terms == s.terms;
    }
  }

  /**
    * Adding changes the tree exactly when some subject holds the parent the
    * context names; an unmatched path leaves the tree as it was.
    */
  lemma AddChangesIffReached(subjects: seq<Subject>, kind: AddKind, ctx: AddContext, form: ItemForm, now: nat)
    ensures AddItem(subjects, kind, ctx, form, now) == subjects <==> !Reaches(subjects, kind, ctx)
  {
    var r := AddItem(subjects, kind, ctx, form, now);
    forall i | 0 <= i < |subjects|
      ensures r[i] == subjects[i] <==> !SubjectTargeted(subjects[i], kind, ctx)
    {
      SubjectAddedChanges(r[i], subjects[i], kind, ctx, form, now);
    }
    if Reaches(subjects, kind, ctx) {
      var i :| 0 <= i < |subjects| && SubjectTargeted(subjects[i], kind, ctx);
      assert r[i] != subjects[i];
    } else {
      assert r == subjects;
    }
  }

  // Adding keeps every `order` equal to its position: the new item is
  // numbered one past the old length and has no children.

  lemma {:induction false} WeekAddedOrdered(r: Week, w: Week, kind: AddKind, ctx: AddContext, form: ItemForm, now: nat, reached: bool)
    requires WeekAdded(r, w, kind, ctx, form, now, reached) && WeekOrdered(w)
    ensures WeekOrdered(r)
  {
  }

  lemma {:induction false} TermAddedOrdered(r: Term, t: Term, kind: AddKind, ctx: AddContext, form: ItemForm, now: nat, reached: bool)
    requires TermAdded(r, t, kind, ctx, form, now, reached) && TermOrdered(t)
    ensures TermOrdered(r)
  {
    if !(reached && kind == AddWeek && ctx.termId == Some(t.id)) {
      forall k | 0 <= k < |r.weeks| ensures WeekOrdered(r.weeks[k]) {
        WeekAddedOrdered(r.weeks[k], t.weeks[k], kind, ctx, form, now, reached && ctx.termId == Some(t.id));
      }
    }
  }

  lemma AddKeepsOrders(subjects: seq<Subject>, kind: AddKind, ctx: AddContext, form: ItemForm, now: nat)
    requires TreeOrdered(subjects)
    ensures TreeOrdered(AddItem(subjects, kind, ctx, form, now))
  {
    var r := AddItem(subjects, kind, ctx, form, now);
    forall i, j | 0 <= i < |r| && 0 <= j < |r[i].terms| ensures TermOrdered(r[i].terms[j]) {
      TermAddedOrdered(r[i].terms[j], subjects[i].terms[j], kind, ctx, form, now, subjects[i].id == ctx.subjectId);
    }
  }

  /** What the add appends: numbered one past the old length, with no children; a topic is published. */
  lemma NewItems(form: ItemForm, now: nat, count: nat)
    ensures NewWeek(form, now, count).order == count + 1 && NewWeek(form, now, count).chapters == []
    ensures NewChapter(form, now, count).order == count + 1 && NewChapter(form, now, count).topics == []
    ensures NewTopic(form, now, count).order == count + 1 && NewTopic(form, now, count).status == Some(Published)
    ensures NewWeek(form, now, count).title == NewChapter(form, now, count).title == NewTopic(form, now, count).title == form.title
  {
  }

  // continueChapterToNextWeek

  /** The copy of `original` put into the next week: fresh id, marked as a continuation, no topics. */
  function Continuation(original: Chapter, now: int, count: nat): Chapter
  {
    original.(id := now, isContinuation := Some(true), originalChapterId := Some(original.id), order := count + 1, topics := [])
  }

  /**
    * The handler reads `weeks[index]` without checking the index: it throws
    * when `weekId` is not in a non-empty term.
    */
  predicate ContinueDefined(t: Term, weekId: int)
  {
    t.weeks == [] || WeekIndex(t.weeks, weekId) >= 0
  }

  /** Within the term: the week after `weekId` by position gets a copy of the chapter, when both exist. */
  function ContinueInTerm(t: Term, weekId: int, chapterId: int, now: int): Term
    requires ContinueDefined(t, weekId)
  {
    var k := WeekIndex(t.weeks, weekId);
    if k + 1 < |t.weeks| then
      var next := t.weeks[k + 1];
      var c := ChapterIndex(t.weeks[k].chapters, chapterId);
      if c >= 0 then
        var copy := Continuation(t.weeks[k].chapters[c], now, |next.chapters|);
        t.(weeks := seq(|t.weeks|, m requires 0 <= m < |t.weeks| =>
          if t.weeks[m].id == next.id then t.weeks[m].(chapters := t.weeks[m].chapters + [copy]) else t.weeks[m]))
      else
        t
    else
      t
  }

  predicate ContinueAllowed(subjects: seq<Subject>, subjectId: int, termId: int, weekId: int)
  {
    forall i, j ::
      (0 <= i < |subjects| && 0 <= j < |subjects[i].terms| &&
       subjects[i].id == subjectId && subjects[i].terms[j].id == termId) ==>
      ContinueDefined(subjects[i].terms[j], weekId)
  }

  /** `continueChapterToNextWeek(subjectId, termId, weekId, chapterId)`; `now` stands for `Date.now()`. */
  function Continue(subjects: seq<Subject>, subjectId: int, termId: int, weekId: int, chapterId: int, now: int): (r: seq<Subject>)
    requires ContinueAllowed(subjects, subjectId, termId, weekId)
    ensures |r| == |subjects|
    ensures forall i :: 0 <= i < |subjects| ==>
      r[i].(terms := subjects[i].terms) == subjects[i] && |r[i].terms| == |subjects[i].terms|
    ensures forall i, j :: 0 <= i < |subjects| && 0 <= j < |subjects[i].terms| ==>
      r[i].terms[j] == if subjects[i].id == subjectId && subjects[i].terms[j].id == termId
        then ContinueInTerm(subjects[i].terms[j], weekId, chapterId, now)
        else subjects[i].terms[j]
  {
    seq(|subjects|, i requires 0 <= i < |subjects| =>
      var s := subjects[i];
      if s.id == subjectId then
        s.(terms := seq(|s.terms|, j requires 0 <= j < |s.terms| =>
          if s.terms[j].id == termId then ContinueInTerm(s.terms[j], weekId, chapterId, now) else s.terms[j]))
      else
        s)
  }

  /**
    * With week ids unique in the term, when the week after `weekId` exists and
    * the source week holds the chapter: the next week gains exactly the copy
    * at its end, and every other week, the source week with its topics
    * included, is unchanged.
    */
  lemma ContinueCopiesIntoNextWeek(t: Term, weekId: int, chapterId: int, now: int)
    requires UniqueWeekIds(t.weeks)
    requires 0 <= WeekIndex(t.weeks, weekId) < |t.weeks| - 1
    requires ChapterIndex(t.weeks[WeekIndex(t.weeks, weekId)].chapters, chapterId) >= 0
    ensures var k := WeekIndex(t.weeks, weekId);
      var original := t.weeks[k].chapters[ChapterIndex(t.weeks[k].chapters, chapterId)];
      var next := t.weeks[k + 1];
      var r := ContinueInTerm(t, weekId, chapterId, now);
      r.(weeks := t.weeks) == t && |r.weeks| == |t.weeks| &&
      r.weeks[k] == t.weeks[k] &&
      r.weeks[k + 1].(chapters := next.chapters) == next &&
      |r.weeks[k + 1].chapters| == |next.chapters| + 1 &&
      r.weeks[k + 1].chapters[..|next.chapters|] == next.chapters &&
      (forall m :: 0 <= m < |t.weeks| && m != k + 1 ==> r.weeks[m] == t.weeks[m])
  {
  }

  /** The copy: fresh id, `isContinuation`, the source id, no topics, numbered after the next week's chapters. */
  lemma ContinuationShape(t: Term, weekId: int, chapterId: int, now: int)
    requires UniqueWeekIds(t.weeks)
    requires 0 <= WeekIndex(t.weeks, weekId) < |t.weeks| - 1
    requires ChapterIndex(t.weeks[WeekIndex(t.weeks, weekId)].chapters, chapterId) >= 0
    ensures var k := WeekIndex(t.weeks, weekId);
      var original := t.weeks[k].chapters[ChapterIndex(t.weeks[k].chapters, chapterId)];
      var next := t.weeks[k + 1];
      var copy := ContinueInTerm(t, weekId, chapterId, now).weeks[k + 1].chapters[|next.chapters|];
      copy.id == now && copy.isContinuation == Some(true) && copy.originalChapterId == Some(chapterId) &&
      copy.topics == [] && copy.order == |next.chapters| + 1 &&
      copy.title == original.title && copy.description == original.description
  {
  }

  /** When `weekId` is the last week, or the chapter is not in it, nothing changes. */
  lemma ContinueNoOp(t: Term, weekId: int, chapterId: int, now: int)
    requires ContinueDefined(t, weekId)
    requires WeekIndex(t.weeks, weekId) == |t.weeks| - 1 ||
      (0 <= WeekIndex(t.weeks, weekId) && ChapterIndex(t.weeks[WeekIndex(t.weeks, weekId)].chapters, chapterId) == -1)
    ensures ContinueInTerm(t, weekId, chapterId, now) == t
  {
  }

  lemma {:induction false} ContinueInTermOrdered(t: Term, weekId: int, chapterId: int, now: int)
    requires ContinueDefined(t, weekId) && TermOrdered(t) && UniqueWeekIds(t.weeks)
    ensures TermOrdered(ContinueInTerm(t, weekId, chapterId, now))
  {
    var r := ContinueInTerm(t, weekId, chapterId, now);
    var k := WeekIndex(t.weeks, weekId);
    forall m | 0 <= m < |r.weeks| ensures WeekOrdered(r.weeks[m]) {
      assert WeekOrdered(t.weeks[m]);
      if r.weeks[m] != t.weeks[m] {
        assert m == k + 1;
      }
    }
  }

  /**
    * The continuation is numbered after the chapters already in the next
    * week, so orders stay positions, as long as no other week of the term
    * shares the next week's id (each such week gets the same copy).
    */
  lemma ContinueKeepsOrders(subjects: seq<Subject>, subjectId: int, termId: int, weekId: int, chapterId: int, now: int)
    requires ContinueAllowed(subjects, subjectId, termId, weekId) && TreeOrdered(subjects)
    requires forall i, j :: 0 <= i < |subjects| && 0 <= j < |subjects[i].terms| ==> UniqueWeekIds(subjects[i].terms[j].weeks)
    ensures TreeOrdered(Continue(subjects, subjectId, termId, weekId, chapterId, now))
  {
    var r := Continue(subjects, subjectId, termId, weekId, chapterId, now);
    forall i, j | 0 <= i < |r| && 0 <= j < |r[i].terms| ensures TermOrdered(r[i].terms[j]) {
      assert SubjectOrdered(subjects[i]);
      if subjects[i].id == subjectId && subjects[i].terms[j].id == termId {
        ContinueInTermOrdered(subjects[i].terms[j], weekId, chapterId, now);
      }
    }
  }
}
