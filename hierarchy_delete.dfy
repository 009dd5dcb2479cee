/**
  * `deleteItem(type, id, parentIds)`: removes the children with that id from
  * the list `parentIds[1..]` leads to. The subject id `parentIds[0]` is never
  * compared, so the deletion happens in every subject that has such a
  * path, and the remaining siblings keep their `order` values.
  */
module HierarchyDelete {
  import opened Optional
  import opened Seqs
  import opened HierarchyTree
  import HierarchyAdd

  /** `weeks.filter(week => week.id !== id)` */
  function WeeksWithout(weeks: seq<Week>, id: Key): (r: seq<Week>)
    ensures forall w :: w in r <==> w in weeks && Num(w.id) != id
  {
    Filter(weeks, (w: Week) => Num(w.id) != id)
  }

  /** `chapters.filter(chapter => chapter.id !== id)` */
  function ChaptersWithout(chapters: seq<Chapter>, id: Key): (r: seq<Chapter>)
    ensures forall c :: c in r <==> c in chapters && Num(c.id) != id
  {
    Filter(chapters, (c: Chapter) => Num(c.id) != id)
  }

  /** `topics.filter(topic => topic.id !== id)` */
  function TopicsWithout(topics: seq<Topic>, id: Key): (r: seq<Topic>)
    ensures forall t :: t in r <==> t in topics && Str(t.id) != id
  {
    Filter(topics, (t: Topic) => Str(t.id) != id)
  }

  function DeleteInChapter(c: Chapter, id: Key, p: seq<Key>): Chapter
  {
    if ParentIs(p, 3, c.id) then c.(topics := TopicsWithout(c.topics, id)) else c
  }

  function DeleteInWeek(w: Week, kind: Kind, id: Key, p: seq<Key>): Week
  {
    if ParentIs(p, 2, w.id) then
      if kind == ChapterNode then w.(chapters := ChaptersWithout(w.chapters, id))
      else w.(chapters := seq(|w.chapters|, l requires 0 <= l < |w.chapters| => DeleteInChapter(w.chapters[l], id, p)))
    else
      w
  }

  function DeleteInTerm(t: Term, kind: Kind, id: Key, p: seq<Key>): Term
  {
    if ParentIs(p, 1, t.id) then
      if kind == WeekNode then t.(weeks := WeeksWithout(t.weeks, id))
      else t.(weeks := seq(|t.weeks|, k requires 0 <= k < |t.weeks| => DeleteInWeek(t.weeks[k], kind, id, p)))
    else
      t
  }

  function DeleteInSubject(s: Subject, kind: Kind, id: Key, parentIds: Option<seq<Key>>): Subject
  {
    if parentIds.Some? && (kind == WeekNode || kind == ChapterNode || kind == TopicNode) then
      s.(terms := seq(|s.terms|, j requires 0 <= j < |s.terms| => DeleteInTerm(s.terms[j], kind, id, parentIds.value)))
    else
      s
  }

  /** `deleteItem(type, id, parentIds)` over every subject. */
  function Delete(subjects: seq<Subject>, kind: Kind, id: Key, parentIds: Option<seq<Key>>): (r: seq<Subject>)
    ensures |r| == |subjects|
  {
    seq(|subjects|, i requires 0 <= i < |subjects| => DeleteInSubject(subjects[i], kind, id, parentIds))
  }

  /** Deleting a subject or a term, or deleting without `parentIds`, changes nothing. */
  lemma DeleteNoOp(subjects: seq<Subject>, kind: Kind, id: Key, parentIds: Option<seq<Key>>)
    requires kind == SubjectNode || kind == TermNode || parentIds == None
    ensures Delete(subjects, kind, id, parentIds) == subjects
  {
  }

  /**
    * The result does not depend on `parentIds[0]`: whatever subject id is
    * passed, every subject is searched.
    */
  lemma {:induction false} DeleteIgnoresSubjectId(subjects: seq<Subject>, kind: Kind, id: Key, p: seq<Key>, other: Key)
    requires |p| > 0
    ensures Delete(subjects, kind, id, Some(p)) == Delete(subjects, kind, id, Some(p[0 := other]))
  {
    var q := p[0 := other];
    assert forall n, x :: 1 <= n ==> ParentIs(p, n, x) == ParentIs(q, n, x);
    forall i | 0 <= i < |subjects|
      ensures DeleteInSubject(subjects[i], kind, id, Some(p)) == DeleteInSubject(subjects[i], kind, id, Some(q))
    {
      var s := subjects[i];
      forall j | 0 <= j < |s.terms|
        ensures DeleteInTerm(s.terms[j], kind, id, p) == DeleteInTerm(s.terms[j], kind, id, q)
      {
        var t := s.terms[j];
        forall k | 0 <= k < |t.weeks|
          ensures DeleteInWeek(t.weeks[k], kind, id, p) == DeleteInWeek(t.weeks[k], kind, id, q)
        {
          var w := t.weeks[k];
          forall l | 0 <= l < |w.chapters|
            ensures DeleteInChapter(w.chapters[l], id, p) == DeleteInChapter(w.chapters[l], id, q)
          {
          }
        }
      }
    }
  }

  /**
    * Deleting a week from the term `parentIds[1]` names, in any subject:
    * weeks with that id go, the others stay as they were; other terms are
    * unchanged.
    */
  lemma DeleteWeekSpec(subjects: seq<Subject>, id: Key, p: seq<Key>)
    ensures var r := Delete(subjects, WeekNode, id, Some(p));
      forall i, j :: 0 <= i < |subjects| && 0 <= j < |subjects[i].terms| ==>
        var t := subjects[i].terms[j];
        var t' := r[i].terms[j];
        r[i].(terms := subjects[i].terms) == subjects[i] &&
        t'.(weeks := t.weeks) == t &&
        t'.weeks == if ParentIs(p, 1, t.id) then WeeksWithout(t.weeks, id) else t.weeks
  {
  }

  /**
    * Deleting a chapter from the week `parentIds[1..2]` leads to, in any
    * subject: chapters with that id go, the others stay as they were;
    * other weeks are unchanged.
    */
  lemma DeleteChapterSpec(subjects: seq<Subject>, id: Key, p: seq<Key>)
    ensures var r := Delete(subjects, ChapterNode, id, Some(p));
      forall i, j, k :: 0 <= i < |subjects| && 0 <= j < |subjects[i].terms| && 0 <= k < |subjects[i].terms[j].weeks| ==>
        var t := subjects[i].terms[j];
        var w := t.weeks[k];
        var w' := r[i].terms[j].weeks[k];
        r[i].terms[j].(weeks := t.weeks) == t &&
        w'.(chapters := w.chapters) == w &&
        w'.chapters == if ParentIs(p, 1, t.id) && ParentIs(p, 2, w.id) then ChaptersWithout(w.chapters, id) else w.chapters
  {
  }

  /**
    * Deleting a topic from the chapter `parentIds[1..3]` leads to, in any
    * subject: no topic with that id is left there, the others stay, in
    * their order and with their own `order` values; every other chapter
    * is unchanged.
    */
  lemma DeleteTopicSpec(subjects: seq<Subject>, id: Key, p: seq<Key>)
    ensures var r := Delete(subjects, TopicNode, id, Some(p));
      forall i, j, k, l ::
        0 <= i < |subjects| && 0 <= j < |subjects[i].terms| &&
        0 <= k < |subjects[i].terms[j].weeks| && 0 <= l < |subjects[i].terms[j].weeks[k].chapters| ==>
        var c := subjects[i].terms[j].weeks[k].chapters[l];
        var c' := r[i].terms[j].weeks[k].chapters[l];
        c'.(topics := c.topics) == c &&
        if ParentIs(p, 1, subjects[i].terms[j].id) && ParentIs(p, 2, subjects[i].terms[j].weeks[k].id) && ParentIs(p, 3, c.id)
        then c'.topics == TopicsWithout(c.topics, id)
        else c'.topics == c.topics
  {
  }

  /** At every level, what a delete keeps keeps its relative order: filtering works piecewise. */
  lemma WeeksWithoutAppend(a: seq<Week>, b: seq<Week>, id: Key)
    ensures WeeksWithout(a + b, id) == WeeksWithout(a, id) + WeeksWithout(b, id)
  {
    FilterAppend(a, b, (w: Week) => Num(w.id) != id);
  }

  lemma ChaptersWithoutAppend(a: seq<Chapter>, b: seq<Chapter>, id: Key)
    ensures ChaptersWithout(a + b, id) == ChaptersWithout(a, id) + ChaptersWithout(b, id)
  {
    FilterAppend(a, b, (c: Chapter) => Num(c.id) != id);
  }

  lemma TopicsWithoutAppend(a: seq<Topic>, b: seq<Topic>, id: Key)
    ensures TopicsWithout(a + b, id) == TopicsWithout(a, id) + TopicsWithout(b, id)
  {
    FilterAppend(a, b, (t: Topic) => Str(t.id) != id);
  }

  /** Deleting an id that no topic has changes nothing. */
  lemma {:induction false} TopicsWithoutAbsent(topics: seq<Topic>, id: Key)
    requires forall t :: t in topics ==> Str(t.id) != id
    ensures TopicsWithout(topics, id) == topics
  {
    if topics != [] {
      TopicsWithoutAbsent(topics[1..], id);
    }
  }

  /**
    * Deletion does not renumber, so a later add can repeat an order: with
    * topics numbered 1..n (n >= 2, ids unique), deleting the first and then
    * adding one leaves two topics numbered n.
    */
  lemma DeleteThenAddRepeatsOrder(topics: seq<Topic>, form: HierarchyAdd.ItemForm, now: nat)
    requires |topics| >= 2 && OrdersArePositions(topics) && UniqueTopicIds(topics)
    ensures var left := TopicsWithout(topics, Str(topics[0].id));
      var after := left + [HierarchyAdd.NewTopic(form, now, |left|)];
      |after| == |topics| && after[|after| - 2].order == after[|after| - 1].order == |topics|
  {
    var id := Str(topics[0].id);
    assert forall t :: t in topics[1..] ==> Str(t.id) != id;
    TopicsWithoutAbsent(topics[1..], id);
    assert topics == [topics[0]] + topics[1..];
    TopicsWithoutAppend([topics[0]], topics[1..], id);
    assert TopicsWithout([topics[0]], id) == [];
  }
}
