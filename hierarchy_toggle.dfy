/**
  * `toggleExpanded(type, id, parentIds)`: flips the expanded flag of the one
  * node addressed by its kind, its id and the ids of its ancestors.
  */
module HierarchyToggle {
  import opened Optional
  import opened HierarchyTree

  /** `!flag`, stored as a definite boolean. */
  function Flip(flag: Option<bool>): (r: Option<bool>)
    ensures r.Some? && Expanded(r) == !Expanded(flag)
  {
    Some(!Expanded(flag))
  }

  /** The flag after `n` flips. */
  function Flipped(flag: Option<bool>, n: nat): (r: Option<bool>)
    ensures n > 0 ==> r.Some?
    ensures Expanded(r) == (Expanded(flag) != (n % 2 == 1))
  {
    if n == 0 then flag else Flip(Flipped(flag, n - 1))
  }

  // The specification: how a node `r` relates to the node `x` it was
  // computed from. `reached` says that the walk got down to `x` (every
  // ancestor id matched `parentIds`); a reached node flips when the kind and
  // the id address it, every other node keeps its flag exactly (an absent
  // flag stays absent), and nothing else about a node changes.

  predicate Hit(reached: bool, kind: Kind, id: Key, nodeKind: Kind, own: int)
  {
    reached && kind == nodeKind && id == Num(own)
  }

  predicate ChapterToggled(r: Chapter, c: Chapter, kind: Kind, id: Key, reached: bool, n: nat)
  {
    r.(isExpanded := c.isExpanded) == c &&
    r.isExpanded == (if Hit(reached, kind, id, ChapterNode, c.id) then Flipped(c.isExpanded, n) else c.isExpanded)
  }

  predicate WeekToggled(r: Week, w: Week, kind: Kind, id: Key, path: seq<Key>, reached: bool, n: nat)
  {
    r.(isExpanded := w.isExpanded, chapters := w.chapters) == w &&
    r.isExpanded == (if Hit(reached, kind, id, WeekNode, w.id) then Flipped(w.isExpanded, n) else w.isExpanded) &&
    |r.chapters| == |w.chapters| &&
    forall l :: 0 <= l < |w.chapters| ==>
      ChapterToggled(r.chapters[l], w.chapters[l], kind, id, reached && ParentIs(path, 2, w.id), n)
  }

  predicate TermToggled(r: Term, t: Term, kind: Kind, id: Key, path: seq<Key>, reached: bool, n: nat)
  {
    r.(isExpanded := t.isExpanded, weeks := t.weeks) == t &&
    r.isExpanded == (if Hit(reached, kind, id, TermNode, t.id) then Flipped(t.isExpanded, n) else t.isExpanded) &&
    |r.weeks| == |t.weeks| &&
    forall k :: 0 <= k < |t.weeks| ==>
      WeekToggled(r.weeks[k], t.weeks[k], kind, id, path, reached && ParentIs(path, 1, t.id), n)
  }

  predicate SubjectToggled(r: Subject, s: Subject, kind: Kind, id: Key, parentIds: Option<seq<Key>>, reached: bool, n: nat)
  {
    var path := if parentIds.Some? then parentIds.value else [];
    r.(isExpanded := s.isExpanded, terms := s.terms) == s &&
    r.isExpanded == (if Hit(reached, kind, id, SubjectNode, s.id) then Flipped(s.isExpanded, n) else s.isExpanded) &&
    |r.terms| == |s.terms| &&
    forall j :: 0 <= j < |s.terms| ==>
      TermToggled(r.terms[j], s.terms[j], kind, id, path, reached && parentIds.Some? && ParentIs(path, 0, s.id), n)
  }

  // The operation, level by level, as the handler walks the tree.

  function ToggleChapter(c: Chapter, kind: Kind, id: Key): (r: Chapter)
    ensures ChapterToggled(r, c, kind, id, true, 1)
  {
    if kind == ChapterNode && id == Num(c.id) then c.(isExpanded := Flip(c.isExpanded)) else c
  }

  function ToggleWeek(w: Week, kind: Kind, id: Key, path: seq<Key>): (r: Week)
    ensures WeekToggled(r, w, kind, id, path, true, 1)
  {
    if kind == WeekNode && id == Num(w.id) then
      ChaptersUntouched(w.chapters, kind, id);
      w.(isExpanded := Flip(w.isExpanded))
    else if ParentIs(path, 2, w.id) then
      w.(chapters := seq(|w.chapters|, l requires 0 <= l < |w.chapters| => ToggleChapter(w.chapters[l], kind, id)))
    else
      WeekUntouched(w, kind, id, path);
      w
  }

  function ToggleTerm(t: Term, kind: Kind, id: Key, path: seq<Key>): (r: Term)
    ensures TermToggled(r, t, kind, id, path, true, 1)
  {
    if kind == TermNode && id == Num(t.id) then
      WeeksUntouched(t.weeks, kind, id, path);
      t.(isExpanded := Flip(t.isExpanded))
    else if ParentIs(path, 1, t.id) then
      t.(weeks := seq(|t.weeks|, k requires 0 <= k < |t.weeks| => ToggleWeek(t.weeks[k], kind, id, path)))
    else
      TermUntouched(t, kind, id, path);
      t
  }

  function ToggleSubject(s: Subject, kind: Kind, id: Key, parentIds: Option<seq<Key>>): (r: Subject)
    ensures SubjectToggled(r, s, kind, id, parentIds, true, 1)
  {
    var path := if parentIds.Some? then parentIds.value else [];
    if kind == SubjectNode && id == Num(s.id) then
      TermsUntouched(s.terms, kind, id, path);
      s.(isExpanded := Flip(s.isExpanded))
    else if parentIds.Some? && ParentIs(path, 0, s.id) then
      s.(terms := seq(|s.terms|, j requires 0 <= j < |s.terms| => ToggleTerm(s.terms[j], kind, id, path)))
    else
      TermsUntouched(s.terms, kind, id, path);
      s
  }

  /** `toggleExpanded(type, id, parentIds)` over every subject. */
  function Toggle(subjects: seq<Subject>, kind: Kind, id: Key, parentIds: Option<seq<Key>>): (r: seq<Subject>)
    ensures |r| == |subjects|
    ensures forall i :: 0 <= i < |subjects| ==> SubjectToggled(r[i], subjects[i], kind, id, parentIds, true, 1)
  {
    seq(|subjects|, i requires 0 <= i < |subjects| => ToggleSubject(subjects[i], kind, id, parentIds))
  }

  // A subtree the walk does not enter relates to itself with nothing flipped.

  lemma ChaptersUntouched(chapters: seq<Chapter>, kind: Kind, id: Key)
    ensures forall l :: 0 <= l < |chapters| ==> ChapterToggled(chapters[l], chapters[l], kind, id, false, 1)
  {
  }

  lemma WeekUntouched(w: Week, kind: Kind, id: Key, path: seq<Key>)
    requires !Hit(true, kind, id, WeekNode, w.id) && !ParentIs(path, 2, w.id)
    ensures WeekToggled(w, w, kind, id, path, true, 1)
  {
    ChaptersUntouched(w.chapters, kind, id);
  }

  lemma WeeksUntouched(weeks: seq<Week>, kind: Kind, id: Key, path: seq<Key>)
    ensures forall k :: 0 <= k < |weeks| ==> WeekToggled(weeks[k], weeks[k], kind, id, path, false, 1)
  {
    forall k | 0 <= k < |weeks| {
      ChaptersUntouched(weeks[k].chapters, kind, id);
    }
  }

  lemma TermUntouched(t: Term, kind: Kind, id: Key, path: seq<Key>)
    requires !Hit(true, kind, id, TermNode, t.id) && !ParentIs(path, 1, t.id)
    ensures TermToggled(t, t, kind, id, path, true, 1)
  {
    WeeksUntouched(t.weeks, kind, id, path);
  }

  lemma TermsUntouched(terms: seq<Term>, kind: Kind, id: Key, path: seq<Key>)
    ensures forall j :: 0 <= j < |terms| ==> TermToggled(terms[j], terms[j], kind, id, path, false, 1)
  {
    forall j | 0 <= j < |terms| {
      WeeksUntouched(terms[j].weeks, kind, id, path);
    }
  }

  // Toggling twice: the addressed node is flipped twice, so it reads as it
  // did (an absent flag now reads as a stored `false`); every other node is
  // as it was.

  lemma ChapterTwice(c2: Chapter, c1: Chapter, c: Chapter, kind: Kind, id: Key, reached: bool)
    requires ChapterToggled(c1, c, kind, id, reached, 1) && ChapterToggled(c2, c1, kind, id, reached, 1)
    ensures ChapterToggled(c2, c, kind, id, reached, 2)
  {
  }

  lemma {:induction false} WeekTwice(w2: Week, w1: Week, w: Week, kind: Kind, id: Key, path: seq<Key>, reached: bool)
    requires WeekToggled(w1, w, kind, id, path, reached, 1) && WeekToggled(w2, w1, kind, id, path, reached, 1)
    ensures WeekToggled(w2, w, kind, id, path, reached, 2)
  {
    forall l | 0 <= l < |w.chapters|
      ensures ChapterToggled(w2.chapters[l], w.chapters[l], kind, id, reached && ParentIs(path, 2, w.id), 2)
    {
      ChapterTwice(w2.chapters[l], w1.chapters[l], w.chapters[l], kind, id, reached && ParentIs(path, 2, w.id));
    }
  }

  lemma {:induction false} TermTwice(t2: Term, t1: Term, t: Term, kind: Kind, id: Key, path: seq<Key>, reached: bool)
    requires TermToggled(t1, t, kind, id, path, reached, 1) && TermToggled(t2, t1, kind, id, path, reached, 1)
    ensures TermToggled(t2, t, kind, id, path, reached, 2)
  {
    forall k | 0 <= k < |t.weeks|
      ensures WeekToggled(t2.weeks[k], t.weeks[k], kind, id, path, reached && ParentIs(path, 1, t.id), 2)
    {
      WeekTwice(t2.weeks[k], t1.weeks[k], t.weeks[k], kind, id, path, reached && ParentIs(path, 1, t.id));
    }
  }

  lemma {:induction false} SubjectTwice(s2: Subject, s1: Subject, s: Subject, kind: Kind, id: Key, parentIds: Option<seq<Key>>)
    requires SubjectToggled(s1, s, kind, id, parentIds, true, 1) && SubjectToggled(s2, s1, kind, id, parentIds, true, 1)
    ensures SubjectToggled(s2, s, kind, id, parentIds, true, 2)
  {
    var path := if parentIds.Some? then parentIds.value else [];
    forall j | 0 <= j < |s.terms|
      ensures TermToggled(s2.terms[j], s.terms[j], kind, id, path, parentIds.Some? && ParentIs(path, 0, s.id), 2)
    {
      TermTwice(s2.terms[j], s1.terms[j], s.terms[j], kind, id, path, parentIds.Some? && ParentIs(path, 0, s.id));
    }
  }

  /**
    * Toggling the same node twice flips that node twice, which restores its
    * expanded reading, and leaves every other node and field as it was.
    */
  lemma ToggleTwice(subjects: seq<Subject>, kind: Kind, id: Key, parentIds: Option<seq<Key>>)
    ensures var r := Toggle(Toggle(subjects, kind, id, parentIds), kind, id, parentIds);
      |r| == |subjects| &&
      forall i :: 0 <= i < |subjects| ==> SubjectToggled(r[i], subjects[i], kind, id, parentIds, true, 2)
  {
    var r1 := Toggle(subjects, kind, id, parentIds);
    var r2 := Toggle(r1, kind, id, parentIds);
    forall i | 0 <= i < |subjects|
      ensures SubjectToggled(r2[i], subjects[i], kind, id, parentIds, true, 2)
    {
      SubjectTwice(r2[i], r1[i], subjects[i], kind, id, parentIds);
    }
  }

  /** A toggle writes no `order`, so every order stays its position. */
  lemma ToggleKeepsOrders(subjects: seq<Subject>, kind: Kind, id: Key, parentIds: Option<seq<Key>>)
    requires TreeOrdered(subjects)
    ensures TreeOrdered(Toggle(subjects, kind, id, parentIds))
  {
    var r := Toggle(subjects, kind, id, parentIds);
    forall i | 0 <= i < |r| ensures SubjectOrdered(r[i]) {
      var s := subjects[i];
      assert SubjectOrdered(s);
      forall j | 0 <= j < |s.terms| ensures TermOrdered(r[i].terms[j]) {
        var t := s.terms[j];
        assert TermOrdered(t);
        forall q | 0 <= q < |t.weeks| ensures WeekOrdered(r[i].terms[j].weeks[q]) {
          var w := t.weeks[q];
          assert WeekOrdered(w);
          forall l | 0 <= l < |w.chapters| ensures ChapterOrdered(r[i].terms[j].weeks[q].chapters[l]) {
            assert ChapterOrdered(w.chapters[l]);
          }
        }
      }
    }
  }

  /** Topics have no expanded flag: asking to toggle one changes nothing. */
  lemma ToggleTopicChangesNothing(subjects: seq<Subject>, id: Key, parentIds: Option<seq<Key>>)
    ensures Toggle(subjects, TopicNode, id, parentIds) == subjects
  {
    var r := Toggle(subjects, TopicNode, id, parentIds);
    forall i | 0 <= i < |subjects| ensures r[i] == subjects[i] {
      var s := subjects[i];
      assert r[i].terms == s.terms by {
        forall j | 0 <= j < |s.terms| ensures r[i].terms[j] == s.terms[j] {
          var t := s.terms[j];
          assert r[i].terms[j].weeks == t.weeks by {
            forall k | 0 <= k < |t.weeks| ensures r[i].terms[j].weeks[k] == t.weeks[k] {
              assert r[i].terms[j].weeks[k].chapters == t.weeks[k].chapters;
            }
          }
        }
      }
    }
  }
}
