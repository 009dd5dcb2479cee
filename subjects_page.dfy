/**
  * The "Subjects" page: the subject list, its search and drop-down filters,
  * the enrolment and content-item totals, and the subjects the "Add
  * Subject" dialog hands over.
  */
module SubjectsPage {
  import opened Strings
  import opened Seqs
  import AddSubjectDialog

  /** The fields of a subject the page reads; `lastUpdated` is display text. */
  datatype SubjectRow = SubjectRow(
    id: int,
    name: string,
    level: string,
    examBoard: string,
    enrolledStudents: int,
    contentItems: int,
    completionRate: int,
    status: string)

  function InitialSubjects(): seq<SubjectRow>
  {
    [ SubjectRow(1, "Mathematics", "A-Level", "ZIMSEC", 2450, 156, 78, "active"),
      SubjectRow(2, "Physics", "A-Level", "Cambridge", 1890, 142, 72, "active"),
      SubjectRow(3, "Chemistry", "O-Level", "ZIMSEC", 3200, 134, 69, "active"),
      SubjectRow(4, "Biology", "O-Level", "Cambridge", 2800, 128, 81, "active"),
      SubjectRow(5, "English", "A-Level", "ZIMSEC", 4100, 98, 85, "active") ]
  }

  /** The row the page shows for a subject the dialog emits. */
  function RowOf(s: AddSubjectDialog.SubjectRecord): SubjectRow
  {
    SubjectRow(s.id, s.name, s.level, s.examBoard, s.enrolledStudents, s.contentItems, s.completionRate, s.status)
  }

  predicate SubjectMatches(s: SubjectRow, search: string, selectedLevel: string, selectedExamBoard: string)
  {
    MatchesSearch(s.name, search) && Selects(selectedLevel, s.level) && Selects(selectedExamBoard, s.examBoard)
  }

  /** `filteredSubjects` */
  function FilteredSubjects(subjects: seq<SubjectRow>, search: string, selectedLevel: string, selectedExamBoard: string): (r: seq<SubjectRow>)
    ensures forall s :: s in r <==>
      s in subjects && MatchesSearch(s.name, search) &&
      (selectedLevel == "all" || s.level == selectedLevel) &&
      (selectedExamBoard == "all" || s.examBoard == selectedExamBoard)
  {
    Filter(subjects, (s: SubjectRow) => SubjectMatches(s, search, selectedLevel, selectedExamBoard))
  }

  /** With an empty search and both drop-downs on `'all'`, every subject shows, in order. */
  lemma FilteredSubjectsUnfiltered(subjects: seq<SubjectRow>)
    ensures FilteredSubjects(subjects, "", "all", "all") == subjects
  {
    forall s | s in subjects ensures SubjectMatches(s, "", "all", "all") {
      EmptySearchMatches(s.name);
    }
    FilterKeepsAll(subjects, (s: SubjectRow) => SubjectMatches(s, "", "all", "all"));
  }

  function EnrolmentOf(s: SubjectRow): int { s.enrolledStudents }

  function ContentItemsOf(s: SubjectRow): int { s.contentItems }

  /** `subjects.reduce((acc, subject) => acc + subject.enrolledStudents, 0)` */
  function TotalEnrolments(subjects: seq<SubjectRow>): int
  {
    SumOf(subjects, EnrolmentOf)
  }

  /** `subjects.reduce((acc, subject) => acc + subject.contentItems, 0)` */
  function TotalContentItems(subjects: seq<SubjectRow>): int
  {
    SumOf(subjects, ContentItemsOf)
  }

  /** Adding a subject in front adds its enrolments and content items to the totals. */
  lemma TotalsAfterAdd(added: SubjectRow, subjects: seq<SubjectRow>)
    ensures TotalEnrolments([added] + subjects) == added.enrolledStudents + TotalEnrolments(subjects)
    ensures TotalContentItems([added] + subjects) == added.contentItems + TotalContentItems(subjects)
  {
    SumOfPrepend(added, subjects, EnrolmentOf);
    SumOfPrepend(added, subjects, ContentItemsOf);
  }

  /** The rows of the subjects one submit of the dialog emits, in the order they arrive. */
  function RowsOf(emitted: seq<AddSubjectDialog.SubjectRecord>): (r: seq<SubjectRow>)
    ensures |r| == |emitted|
    ensures forall i :: 0 <= i < |emitted| ==> r[i] == RowOf(emitted[i])
  {
    Map(emitted, RowOf)
  }

  /**
    * Subjects fresh from the dialog start with no students and no content,
    * so receiving them leaves both totals as they were.
    */
  lemma NewSubjectsKeepTotals(emitted: seq<AddSubjectDialog.SubjectRecord>, subjects: seq<SubjectRow>)
    requires forall i :: 0 <= i < |emitted| ==> emitted[i].enrolledStudents == 0 && emitted[i].contentItems == 0
    ensures TotalEnrolments(Reversed(RowsOf(emitted)) + subjects) == TotalEnrolments(subjects)
    ensures TotalContentItems(Reversed(RowsOf(emitted)) + subjects) == TotalContentItems(subjects)
  {
    var added := Reversed(RowsOf(emitted));
    SumOfAppend(added, subjects, EnrolmentOf);
    SumOfAppend(added, subjects, ContentItemsOf);
    SumOfZero(added, EnrolmentOf);
    SumOfZero(added, ContentItemsOf);
  }

  class Page {
    var subjects: seq<SubjectRow>

    constructor()
      ensures subjects == InitialSubjects()
    {
      subjects := InitialSubjects();
    }

    /** `handleSubjectAdded`: the new subject goes first. */
    method HandleSubjectAdded(added: AddSubjectDialog.SubjectRecord)
      modifies this
      ensures subjects == [RowOf(added)] + old(subjects)
    {
      subjects := [RowOf(added)] + subjects;
    }

    /**
      * The dialog's `forEach` handing over each emitted subject in turn:
      * each goes first, so they end up in front in reverse order.
      */
    method HandleSubjectsAdded(emitted: seq<AddSubjectDialog.SubjectRecord>)
      modifies this
      ensures subjects == Reversed(RowsOf(emitted)) + old(subjects)
    {
      var i := 0;
      while i < |emitted|
        invariant 0 <= i <= |emitted|
        invariant subjects == Reversed(RowsOf(emitted[..i])) + old(subjects)
      {
        assert emitted[..i + 1][..i] == emitted[..i];
        HandleSubjectAdded(emitted[i]);
        i := i + 1;
      }
      assert emitted[..i] == emitted;
    }
  }
}
