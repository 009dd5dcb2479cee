/**
  * `saveEdit`: the rename driven by the edit token `${kind}-${id}`. The
  * token is compared with every node of every subject, so each node whose
  * kind and id it names is renamed, whatever its ancestors are.
  */
module HierarchyRename {
  import opened Optional
  import opened Strings
  import opened HierarchyTree

  /** The edit fields the rename writes: `editValue`, `editLevel`, `editExamBoard`, `editTopicType`. */
  datatype EditValues = EditValues(value: string, level: string, examBoard: string, topicType: string)

  function RenameTopic(t: Topic, token: string, v: EditValues): Topic
  {
    if token == Token(TopicNode, t.id) then t.(title := v.value, topicType := v.topicType) else t
  }

  function RenameChapter(c: Chapter, token: string, v: EditValues): Chapter
  {
    if token == NodeToken(ChapterNode, c.id) then c.(title := v.value)
    else c.(topics := seq(|c.topics|, m requires 0 <= m < |c.topics| => RenameTopic(c.topics[m], token, v)))
  }

  function RenameWeek(w: Week, token: string, v: EditValues): Week
  {
    if token == NodeToken(WeekNode, w.id) then w.(title := v.value)
    else w.(chapters := seq(|w.chapters|, l requires 0 <= l < |w.chapters| => RenameChapter(w.chapters[l], token, v)))
  }

  function RenameTerm(t: Term, token: string, v: EditValues): Term
  {
    if token == NodeToken(TermNode, t.id) then t.(title := v.value)
    else t.(weeks := seq(|t.weeks|, k requires 0 <= k < |t.weeks| => RenameWeek(t.weeks[k], token, v)))
  }

  function RenameSubject(s: Subject, token: string, v: EditValues): Subject
  {
    if token == NodeToken(SubjectNode, s.id) then s.(name := v.value, level := v.level, examBoard := v.examBoard)
    else s.(terms := seq(|s.terms|, j requires 0 <= j < |s.terms| => RenameTerm(s.terms[j], token, v)))
  }

  function Rename(subjects: seq<Subject>, token: string, v: EditValues): (r: seq<Subject>)
    ensures |r| == |subjects|
  {
    seq(|subjects|, i requires 0 <= i < |subjects| => RenameSubject(subjects[i], token, v))
  }

  /** `saveEdit`'s new tree: nothing happens while no token is set (`null` or empty). */
  function SaveEdit(subjects: seq<Subject>, editingItem: Option<string>, v: EditValues): seq<Subject>
  {
    if editingItem == None || editingItem == Some("") then subjects else Rename(subjects, editingItem.value, v)
  }

  // The specification, for the token of kind `k` and id text `x`: every
  // node of kind `k` whose id prints as `x` takes that kind's edited fields,
  // and nothing else in the tree changes.

  predicate TopicRenamed(r: Topic, t: Topic, k: Kind, x: string, v: EditValues)
  {
    if k == TopicNode && t.id == x then r == t.(title := v.value, topicType := v.topicType) else r == t
  }

  predicate ChapterRenamed(r: Chapter, c: Chapter, k: Kind, x: string, v: EditValues)
  {
    r.(title := c.title, topics := c.topics) == c &&
    r.title == (if k == ChapterNode && IntToString(c.id) == x then v.value else c.title) &&
    |r.topics| == |c.topics| &&
    forall m :: 0 <= m < |c.topics| ==> TopicRenamed(r.topics[m], c.topics[m], k, x, v)
  }

  predicate WeekRenamed(r: Week, w: Week, k: Kind, x: string, v: EditValues)
  {
    r.(title := w.title, chapters := w.chapters) == w &&
    r.title == (if k == WeekNode && IntToString(w.id) == x then v.value else w.title) &&
    |r.chapters| == |w.chapters| &&
    forall l :: 0 <= l < |w.chapters| ==> ChapterRenamed(r.chapters[l], w.chapters[l], k, x, v)
  }

  predicate TermRenamed(r: Term, t: Term, k: Kind, x: string, v: EditValues)
  {
    r.(title := t.title, weeks := t.weeks) == t &&
    r.title == (if k == TermNode && IntToString(t.id) == x then v.value else t.title) &&
    |r.weeks| == |t.weeks| &&
    forall j :: 0 <= j < |t.weeks| ==> WeekRenamed(r.weeks[j], t.weeks[j], k, x, v)
  }

  predicate SubjectRenamed(r: Subject, s: Subject, k: Kind, x: string, v: EditValues)
  {
    (if k == SubjectNode && IntToString(s.id) == x
     then r.(terms := s.terms) == s.(name := v.value, level := v.level, examBoard := v.examBoard)
     else r.(terms := s.terms) == s) &&
    |r.terms| == |s.terms| &&
    forall j :: 0 <= j < |s.terms| ==> TermRenamed(r.terms[j], s.terms[j], k, x, v)
  }

  // The operation meets it, level by level: a token of one kind never
  // equals a token of another.

  lemma TopicRenameMeetsSpec(t: Topic, k: Kind, x: string, v: EditValues)
    ensures TopicRenamed(RenameTopic(t, Token(k, x), v), t, k, x, v)
  {
    TokenInjective(k, x, TopicNode, t.id);
  }

  lemma {:induction false} ChapterRenameMeetsSpec(c: Chapter, k: Kind, x: string, v: EditValues)
    ensures ChapterRenamed(RenameChapter(c, Token(k, x), v), c, k, x, v)
  {
    TokenInjective(k, x, ChapterNode, IntToString(c.id));
    var r := RenameChapter(c, Token(k, x), v);
    if !(k == ChapterNode && IntToString(c.id) == x) {
      forall m | 0 <= m < |c.topics| ensures TopicRenamed(r.topics[m], c.topics[m], k, x, v) {
        TopicRenameMeetsSpec(c.topics[m], k, x, v);
      }
    }
  }

  lemma {:induction false} WeekRenameMeetsSpec(w: Week, k: Kind, x: string, v: EditValues)
    ensures WeekRenamed(RenameWeek(w, Token(k, x), v), w, k, x, v)
  {
    TokenInjective(k, x, WeekNode, IntToString(w.id));
    var r := RenameWeek(w, Token(k, x), v);
    if k == WeekNode && IntToString(w.id) == x {
      ChaptersUnrenamed(w.chapters, k, x, v);
    } else {
      forall l | 0 <= l < |w.chapters| ensures ChapterRenamed(r.chapters[l], w.chapters[l], k, x, v) {
        ChapterRenameMeetsSpec(w.chapters[l], k, x, v);
      }
    }
  }

  lemma {:induction false} TermRenameMeetsSpec(t: Term, k: Kind, x: string, v: EditValues)
    ensures TermRenamed(RenameTerm(t, Token(k, x), v), t, k, x, v)
  {
    TokenInjective(k, x, TermNode, IntToString(t.id));
    var r := RenameTerm(t, Token(k, x), v);
    if k == TermNode && IntToString(t.id) == x {
      WeeksUnrenamed(t.weeks, k, x, v);
    } else {
      forall j | 0 <= j < |t.weeks| ensures WeekRenamed(r.weeks[j], t.weeks[j], k, x, v) {
        WeekRenameMeetsSpec(t.weeks[j], k, x, v);
      }
    }
  }

  lemma {:induction false} SubjectRenameMeetsSpec(s: Subject, k: Kind, x: string, v: EditValues)
    ensures SubjectRenamed(RenameSubject(s, Token(k, x), v), s, k, x, v)
  {
    TokenInjective(k, x, SubjectNode, IntToString(s.id));
    var r := RenameSubject(s, Token(k, x), v);
    if k == SubjectNode && IntToString(s.id) == x {
      forall j | 0 <= j < |s.terms| ensures TermRenamed(s.terms[j], s.terms[j], k, x, v) {
        WeeksUnrenamed(s.terms[j].weeks, k, x, v);
      }
    } else {
      forall j | 0 <= j < |s.terms| ensures TermRenamed(r.terms[j], s.terms[j], k, x, v) {
        TermRenameMeetsSpec(s.terms[j], k, x, v);
      }
    }
  }

  // Below the node the token names, nothing changes.

  lemma ChaptersUnrenamed(chapters: seq<Chapter>, k: Kind, x: string, v: EditValues)
    requires k == SubjectNode || k == TermNode || k == WeekNode
    ensures forall l :: 0 <= l < |chapters| ==> ChapterRenamed(chapters[l], chapters[l], k, x, v)
  {
  }

  lemma WeeksUnrenamed(weeks: seq<Week>, k: Kind, x: string, v: EditValues)
    requires k == SubjectNode || k == TermNode
    ensures forall j :: 0 <= j < |weeks| ==> WeekRenamed(weeks[j], weeks[j], k, x, v)
  {
    forall j | 0 <= j < |weeks| ensures WeekRenamed(weeks[j], weeks[j], k, x, v) {
      ChaptersUnrenamed(weeks[j].chapters, k, x, v);
    }
  }

  /**
    * Saving the token of kind `k` and id text `x` renames every node of
    * kind `k` whose id prints as `x`, in every subject, and changes nothing
    * else.
    */
  lemma RenameSpec(subjects: seq<Subject>, k: Kind, x: string, v: EditValues)
    ensures var r := Rename(subjects, Token(k, x), v);
      |r| == |subjects| &&
      forall i :: 0 <= i < |subjects| ==> SubjectRenamed(r[i], subjects[i], k, x, v)
  {
    var r := Rename(subjects, Token(k, x), v);
    forall i | 0 <= i < |subjects| ensures SubjectRenamed(r[i], subjects[i], k, x, v) {
      SubjectRenameMeetsSpec(subjects[i], k, x, v);
    }
  }

  /**
    * Because term ids repeat across subjects, renaming term `n` renames the
    * term with id `n` of every subject.
    */
  lemma RenameTermHitsEverySubject(subjects: seq<Subject>, n: int, v: EditValues)
    ensures var r := Rename(subjects, NodeToken(TermNode, n), v);
      forall i, j :: 0 <= i < |subjects| && 0 <= j < |subjects[i].terms| && subjects[i].terms[j].id == n ==>
        r[i].terms[j].title == v.value
  {
    RenameSpec(subjects, TermNode, IntToString(n), v);
  }

  /** A rename writes no `order`, so every order stays its position. */
  lemma RenameKeepsOrders(subjects: seq<Subject>, k: Kind, x: string, v: EditValues)
    requires TreeOrdered(subjects)
    ensures TreeOrdered(Rename(subjects, Token(k, x), v))
  {
    var r := Rename(subjects, Token(k, x), v);
    RenameSpec(subjects, k, x, v);
    forall i | 0 <= i < |r| ensures SubjectOrdered(r[i]) {
      var s := subjects[i];
      assert SubjectOrdered(s);
      forall j | 0 <= j < |s.terms| ensures TermOrdered(r[i].terms[j]) {
        var t := s.terms[j];
        assert TermOrdered(t);
        forall q | 0 <= q < |t.weeks| ensures WeekOrdered(r[i].terms[j].weeks[q]) {
          var w := t.weeks[q];
          assert WeekOrdered(w);
          forall l | 0 <= l < |w.chapters| ensures ChapterOrdered(r[i].terms[j].weeks[q].chapters[l]) {
            assert ChapterOrdered(w.chapters[l]);
          }
        }
      }
    }
  }

  /** Without a token, saving changes nothing. */
  lemma SaveWithoutTokenIsNoOp(subjects: seq<Subject>, v: EditValues)
    ensures SaveEdit(subjects, None, v) == subjects && SaveEdit(subjects, Some(""), v) == subjects
  {
  }
}
