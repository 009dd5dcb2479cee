/**
  * The "Add New Content" dialog: cascading subject, term, week and chapter
  * selections, each of which clears the ones below it; the tag input; the
  * position input; and the record it submits.
  */
module AddContentDialog {
  import opened Optional
  import opened Strings
  import opened Seqs
  import opened HierarchyTree
  import HierarchyAdd

  /** `formData`; `contentType` is its `type` field, and the chosen file is kept by name only. */
  datatype FormData = FormData(
    subjectId: string,
    termId: string,
    weekNumber: string,
    chapterId: string,
    newChapterTitle: string,
    position: int,
    title: string,
    contentType: string,
    estimatedDuration: string,
    tags: seq<string>,
    file: Option<string>)

  const InitialForm := FormData("", "", "", "", "", 1, "", "", "", [], None)

  /** The record handed to `onContentAdded`; `createdAt` (a clock reading) is left out. */
  datatype ContentRecord = ContentRecord(
    id: int,
    form: FormData,
    subject: Option<string>,
    level: Option<string>,
    examBoard: Option<string>,
    term: Option<string>,
    week: string,
    chapter: Option<string>,
    status: string,
    views: int)

  /** `weekOptions` */
  function WeekOptions(): seq<string>
  {
    seq(13, i requires 0 <= i < 13 => "Week " + NatToString(i + 1))
  }

  /** The options are "Week 1" to "Week 13", in that order, each once. */
  lemma WeekOptionsSpec()
    ensures |WeekOptions()| == 13
    ensures forall i :: 0 <= i < 13 ==> WeekOptions()[i] == "Week " + NatToString(i + 1)
    ensures NoDuplicates(WeekOptions())
  {
    var w := WeekOptions();
    forall i, j | 0 <= i < j < 13 ensures w[i] != w[j] {
      if w[i] == w[j] {
        assert w[i][5..] == NatToString(i + 1);
        assert w[j][5..] == NatToString(j + 1);
        NatToStringInjective(i + 1, j + 1);
      }
    }
  }

  /** The week options name the titles of the weeks of every term of a new subject. */
  lemma WeekOptionsNameEmptyWeeks(firstId: int)
    ensures forall k :: 0 <= k < 13 ==> EmptyWeeks(firstId)[k].title == WeekOptions()[k]
  {
  }

  /** `parseInt(value) || 1`: no number, or zero, reads as position 1. */
  function ParsePosition(value: string): (r: int)
    ensures r != 0
    ensures ParseInt(value).None? || ParseInt(value) == Some(0) ==> r == 1
  {
    var p := ParseInt(value);
    if p.None? || p == Some(0) then 1 else p.value
  }

  /** A positive number typed in is taken as it is. */
  lemma ParsePositionOfNumber(n: nat)
    requires n >= 1
    ensures ParsePosition(NatToString(n)) == n
  {
    ParseIntOfNatToString(n);
  }

  /** Input without a digit, the empty input included, becomes 1. */
  lemma ParsePositionWithoutDigits(value: string)
    requires forall i :: 0 <= i < |value| ==> !IsDigit(value[i])
    ensures ParsePosition(value) == 1
  {
    var t := TrimStart(value);
    var rest := if t != [] && (t[0] == '-' || t[0] == '+') then t[1..] else t;
    if rest != [] {
      assert rest[0] == value[|value| - |rest|];
    }
  }

  /** "0" becomes 1. */
  lemma ParsePositionOfZero()
    ensures ParsePosition("0") == 1
  {
    ParseIntOfNatToString(0);
  }

  /** `list.find(x => x.id.toString() === value)` for the subject list. */
  function FindSubject(subjects: seq<Subject>, value: string): (r: Option<Subject>)
    ensures r.Some? ==> r.value in subjects && IntToString(r.value.id) == value
    ensures r.None? <==> forall s :: s in subjects ==> IntToString(s.id) != value
    ensures r.Some? ==> exists k :: 0 <= k < |subjects| && r.value == subjects[k] && forall j :: 0 <= j < k ==> IntToString(subjects[j].id) != value
  {
    var k := IndexWhere(subjects, (s: Subject) => IntToString(s.id) == value);
    if k >= 0 then Some(subjects[k]) else None
  }

  function FindTerm(terms: seq<Term>, value: string): (r: Option<Term>)
    ensures r.Some? ==> r.value in terms && IntToString(r.value.id) == value
    ensures r.None? <==> forall t :: t in terms ==> IntToString(t.id) != value
    ensures r.Some? ==> exists k :: 0 <= k < |terms| && r.value == terms[k] && forall j :: 0 <= j < k ==> IntToString(terms[j].id) != value
  {
    var k := IndexWhere(terms, (t: Term) => IntToString(t.id) == value);
    if k >= 0 then Some(terms[k]) else None
  }

  /** Weeks are found by title, the value the week options carry. */
  function FindWeek(weeks: seq<Week>, value: string): (r: Option<Week>)
    ensures r.Some? ==> r.value in weeks && r.value.title == value
    ensures r.None? <==> forall w :: w in weeks ==> w.title != value
    ensures r.Some? ==> exists k :: 0 <= k < |weeks| && r.value == weeks[k] && forall j :: 0 <= j < k ==> weeks[j].title != value
  {
    var k := IndexWhere(weeks, (w: Week) => w.title == value);
    if k >= 0 then Some(weeks[k]) else None
  }

  function FindChapter(chapters: seq<Chapter>, value: string): (r: Option<Chapter>)
    ensures r.Some? ==> r.value in chapters && IntToString(r.value.id) == value
    ensures r.None? <==> forall c :: c in chapters ==> IntToString(c.id) != value
    ensures r.Some? ==> exists k :: 0 <= k < |chapters| && r.value == chapters[k] && forall j :: 0 <= j < k ==> IntToString(chapters[j].id) != value
  {
    var k := IndexWhere(chapters, (c: Chapter) => IntToString(c.id) == value);
    if k >= 0 then Some(chapters[k]) else None
  }

  /**
    * The position offered for an existing chapter: after its last topic.
    * When the chapter's orders are its positions, it is one past the last
    * topic's order and beyond every order in the chapter.
    */
  function DefaultPosition(chapter: Chapter): (r: int)
    ensures r >= 1
    ensures OrdersArePositions(chapter.topics) ==> forall t :: t in chapter.topics ==> t.order < r
    ensures OrdersArePositions(chapter.topics) && chapter.topics != [] ==>
      r == chapter.topics[|chapter.topics| - 1].order + 1
  {
    |chapter.topics| + 1
  }

  /** It is the `order` the hierarchy editor gives a topic appended to that chapter. */
  lemma DefaultPositionIsNextOrder(chapter: Chapter, form: HierarchyAdd.ItemForm, now: nat)
    ensures DefaultPosition(chapter) == HierarchyAdd.NewTopic(form, now, |chapter.topics|).order
    ensures OrdersArePositions(chapter.topics) ==>
      OrdersArePositions(chapter.topics + [HierarchyAdd.NewTopic(form, now, |chapter.topics|)])
  {
  }

  /** The submitted record, from the form and the selections. */
  function Submitted(now: int, form: FormData, subject: Option<Subject>, term: Option<Term>,
                     chapter: Option<Chapter>, isNewChapter: bool): (r: ContentRecord)
    ensures r.status == "draft" && r.views == 0 && r.id == now && r.form == form && r.week == form.weekNumber
    ensures r.chapter == if isNewChapter then Some(form.newChapterTitle)
                         else if chapter.Some? then Some(chapter.value.title) else None
    ensures r.subject == (if subject.Some? then Some(subject.value.name) else None)
    ensures r.level == (if subject.Some? then Some(subject.value.level) else None)
    ensures r.examBoard == (if subject.Some? then Some(subject.value.examBoard) else None)
    ensures r.term == (if term.Some? then Some(term.value.title) else None)
  {
    ContentRecord(now, form,
      if subject.Some? then Some(subject.value.name) else None,
      if subject.Some? then Some(subject.value.level) else None,
      if subject.Some? then Some(subject.value.examBoard) else None,
      if term.Some? then Some(term.value.title) else None,
      form.weekNumber,
      if isNewChapter then Some(form.newChapterTitle) else if chapter.Some? then Some(chapter.value.title) else None,
      "draft", 0)
  }

  class Dialog {
    var open: bool
    var formData: FormData
    var currentTag: string
    var selectedSubject: Option<Subject>
    var selectedTerm: Option<Term>
    var selectedWeek: Option<Week>
    var selectedChapter: Option<Chapter>
    var isNewChapter: bool

    /** The state `resetForm` leaves. */
    predicate IsReset()
      reads this
    {
      formData == InitialForm && currentTag == "" && selectedSubject == None && selectedTerm == None &&
      selectedWeek == None && selectedChapter == None && !isNewChapter
    }

    constructor()
      ensures IsReset() && !open
    {
      open := false;
      formData := InitialForm;
      currentTag := "";
      selectedSubject := None;
      selectedTerm := None;
      selectedWeek := None;
      selectedChapter := None;
      isNewChapter := false;
    }

    /**
      * Choosing a subject, followed by the effect it triggers: a new,
      * non-empty choice looks the subject up and clears the term, week and
      * chapter, resetting the position to 1.
      */
    method SelectSubject(subjects: seq<Subject>, value: string)
      modifies this
      ensures formData.subjectId == value
      ensures value != "" && value != old(formData.subjectId) ==>
        selectedSubject == FindSubject(subjects, value) &&
        formData == old(formData).(subjectId := value, termId := "", weekNumber := "", chapterId := "", position := 1) &&
        selectedTerm == None && selectedWeek == None && selectedChapter == None
      ensures !(value != "" && value != old(formData.subjectId)) ==>
        formData == old(formData).(subjectId := value) && selectedSubject == old(selectedSubject) &&
        selectedTerm == old(selectedTerm) && selectedWeek == old(selectedWeek) && selectedChapter == old(selectedChapter)
      ensures currentTag == old(currentTag) && isNewChapter == old(isNewChapter) && open == old(open)
    {
      var changed := value != formData.subjectId;
      formData := formData.(subjectId := value);
      if value != "" && changed {
        selectedSubject := FindSubject(subjects, value);
        formData := formData.(termId := "", weekNumber := "", chapterId := "", position := 1);
        selectedTerm := None;
        selectedWeek := None;
        selectedChapter := None;
      }
    }

    /** Choosing a term within the selected subject; it clears the week and chapter. */
    method SelectTerm(value: string)
      modifies this
      ensures formData.termId == value
      ensures value != "" && value != old(formData.termId) && old(selectedSubject).Some? ==>
        selectedTerm == FindTerm(old(selectedSubject).value.terms, value) &&
        formData == old(formData).(termId := value, weekNumber := "", chapterId := "", position := 1) &&
        selectedWeek == None && selectedChapter == None
      ensures !(value != "" && value != old(formData.termId) && old(selectedSubject).Some?) ==>
        formData == old(formData).(termId := value) && selectedTerm == old(selectedTerm) &&
        selectedWeek == old(selectedWeek) && selectedChapter == old(selectedChapter)
      ensures selectedSubject == old(selectedSubject) && currentTag == old(currentTag) && isNewChapter == old(isNewChapter)
      ensures open == old(open)
    {
      var changed := value != formData.termId;
      formData := formData.(termId := value);
      if value != "" && changed && selectedSubject.Some? {
        selectedTerm := FindTerm(selectedSubject.value.terms, value);
        formData := formData.(weekNumber := "", chapterId := "", position := 1);
        selectedWeek := None;
        selectedChapter := None;
      }
    }

    /** Choosing a week by its title within the selected term; it clears the chapter. */
    method SelectWeek(value: string)
      modifies this
      ensures formData.weekNumber == value
      ensures value != "" && value != old(formData.weekNumber) && old(selectedTerm).Some? ==>
        selectedWeek == FindWeek(old(selectedTerm).value.weeks, value) &&
        formData == old(formData).(weekNumber := value, chapterId := "", position := 1) &&
        selectedChapter == None
      ensures !(value != "" && value != old(formData.weekNumber) && old(selectedTerm).Some?) ==>
        formData == old(formData).(weekNumber := value) && selectedWeek == old(selectedWeek) &&
        selectedChapter == old(selectedChapter)
      ensures selectedSubject == old(selectedSubject) && selectedTerm == old(selectedTerm)
      ensures currentTag == old(currentTag) && isNewChapter == old(isNewChapter) && open == old(open)
    {
      var changed := value != formData.weekNumber;
      formData := formData.(weekNumber := value);
      if value != "" && changed && selectedTerm.Some? {
        selectedWeek := FindWeek(selectedTerm.value.weeks, value);
        formData := formData.(chapterId := "", position := 1);
        selectedChapter := None;
      }
    }

    /** Choosing an existing chapter: the position defaults to one past its last topic. */
    method SelectChapter(value: string)
      modifies this
      ensures formData.chapterId == value
      ensures value != "" && value != old(formData.chapterId) && old(selectedWeek).Some? ==>
        var found := FindChapter(old(selectedWeek).value.chapters, value);
        selectedChapter == found &&
        formData == old(formData).(chapterId := value,
          position := if found.Some? then DefaultPosition(found.value) else old(formData).position)
      ensures !(value != "" && value != old(formData.chapterId) && old(selectedWeek).Some?) ==>
        formData == old(formData).(chapterId := value) && selectedChapter == old(selectedChapter)
      ensures selectedSubject == old(selectedSubject) && selectedTerm == old(selectedTerm) && selectedWeek == old(selectedWeek)
      ensures currentTag == old(currentTag) && isNewChapter == old(isNewChapter) && open == old(open)
    {
      var changed := value != formData.chapterId;
      formData := formData.(chapterId := value);
      if value != "" && changed && selectedWeek.Some? {
        var found := FindChapter(selectedWeek.value.chapters, value);
        selectedChapter := found;
        if found.Some? {
          formData := formData.(position := DefaultPosition(found.value));
        }
      }
    }

    /** The position input. */
    method SetPosition(value: string)
      modifies this
      ensures formData == old(formData).(position := ParsePosition(value))
      ensures currentTag == old(currentTag)
      ensures selectedSubject == old(selectedSubject) && selectedTerm == old(selectedTerm) && selectedWeek == old(selectedWeek)
      ensures selectedChapter == old(selectedChapter) && isNewChapter == old(isNewChapter) && open == old(open)
    {
      formData := formData.(position := ParsePosition(value));
    }

    /** The two chapter radio buttons: existing (`false`) or new (`true`). */
    method SetNewChapter(b: bool)
      modifies this
      ensures isNewChapter == b
      ensures formData == old(formData) && currentTag == old(currentTag)
      ensures selectedSubject == old(selectedSubject) && selectedTerm == old(selectedTerm) && selectedWeek == old(selectedWeek)
      ensures selectedChapter == old(selectedChapter) && open == old(open)
    {
      isNewChapter := b;
    }

    /** `addTag()` */
    method AddTag()
      modifies this
      ensures (formData.tags, currentTag) == AddTrimmedUnique(old(formData.tags), old(currentTag))
      ensures formData == old(formData).(tags := formData.tags)
      ensures NoDuplicates(old(formData.tags)) && AllTrimmedNonEmpty(old(formData.tags)) ==>
        NoDuplicates(formData.tags) && AllTrimmedNonEmpty(formData.tags)
      ensures selectedSubject == old(selectedSubject) && selectedTerm == old(selectedTerm) && selectedWeek == old(selectedWeek)
      ensures selectedChapter == old(selectedChapter) && isNewChapter == old(isNewChapter) && open == old(open)
    {
      if NoDuplicates(formData.tags) && AllTrimmedNonEmpty(formData.tags) {
        AddTrimmedUniqueKeepsInvariant(formData.tags, currentTag);
      }
      var (tags, input) := AddTrimmedUnique(formData.tags, currentTag);
      formData := formData.(tags := tags);
      currentTag := input;
    }

    /** `removeTag(tag)`: every copy of the tag goes. */
    method RemoveTag(tag: string)
      modifies this
      ensures formData == old(formData).(tags := RemoveAll(old(formData.tags), tag))
      ensures currentTag == old(currentTag)
      ensures selectedSubject == old(selectedSubject) && selectedTerm == old(selectedTerm) && selectedWeek == old(selectedWeek)
      ensures selectedChapter == old(selectedChapter) && isNewChapter == old(isNewChapter) && open == old(open)
    {
      formData := formData.(tags := RemoveAll(formData.tags, tag));
    }

    method ResetForm()
      modifies this
      ensures IsReset() && open == old(open)
    {
      formData := InitialForm;
      currentTag := "";
      selectedSubject := None;
      selectedTerm := None;
      selectedWeek := None;
      selectedChapter := None;
      isNewChapter := false;
    }

    /** `handleSubmit`: emits the record, closes the dialog and resets the form; `now` stands for `Date.now()`. */
    method HandleSubmit(now: int) returns (record: ContentRecord)
      modifies this
      ensures record == Submitted(now, old(formData), old(selectedSubject), old(selectedTerm), old(selectedChapter), old(isNewChapter))
      ensures !open && IsReset()
    {
      record := Submitted(now, formData, selectedSubject, selectedTerm, selectedChapter, isNewChapter);
      open := false;
      ResetForm();
    }
  }
}
