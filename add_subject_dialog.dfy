/**
  * The "Add Subject" dialog: the exam-board check boxes, the teacher list
  * and the submit that emits one subject per selected board, each with the
  * fixed three-term, thirteen-week skeleton.
  */
module AddSubjectDialog {
  import opened Optional
  import opened Strings
  import opened Seqs
  import opened HierarchyTree

  datatype Teacher = Teacher(name: string, email: string, phone: string, qualification: string)

  const EmptyTeacher := Teacher("", "", "", "")

  /** The record handed to `onSubjectAdded`; `lastUpdated` (a clock reading) is left out. */
  datatype SubjectRecord = SubjectRecord(
    id: int,
    name: string,
    description: string,
    level: string,
    examBoard: string,
    teachers: seq<Teacher>,
    enrolledStudents: int,
    contentItems: int,
    completionRate: int,
    status: string,
    terms: seq<Term>)

  /**
    * `handleExamBoardChange(board, checked)` on the board list: checking
    * appends the board; unchecking drops every copy of it and keeps the
    * other boards in their order.
    */
  function ChangeBoard(boards: seq<string>, board: string, checked: bool): (r: seq<string>)
    ensures checked ==> r == boards + [board]
    ensures !checked ==> r == Filter(boards, DiffersFrom(board))
    ensures !checked ==> board !in r && forall b :: b != board ==> (b in r <==> b in boards)
  {
    if checked then boards + [board] else RemoveAll(boards, board)
  }

  /**
    * The check box is checked exactly when the board is listed, so a click
    * asks to check only an unlisted board: the list then never repeats a
    * board, and checking then unchecking a board restores the list.
    */
  lemma ChangeBoardFromCheckBox(boards: seq<string>, board: string)
    requires NoDuplicates(boards)
    ensures board !in boards ==> NoDuplicates(ChangeBoard(boards, board, true))
    ensures board in boards ==> NoDuplicates(ChangeBoard(boards, board, false))
    ensures board !in boards ==> ChangeBoard(ChangeBoard(boards, board, true), board, false) == boards
  {
    if board in boards {
      RemoveAllKeepsNoDuplicates(boards, board);
    } else {
      RemoveAllAppend(boards, [board], board);
    }
  }

  /** `addTeacher`'s condition: the trimmed name and e-mail are both non-empty. */
  predicate TeacherComplete(t: Teacher)
  {
    Trim(t.name) != "" && Trim(t.email) != ""
  }

  /** `addTeacher()`: the list and the teacher being typed, afterwards. */
  function TeacherAdded(teachers: seq<Teacher>, current: Teacher): (r: (seq<Teacher>, Teacher))
    ensures teachers <= r.0 && |r.0| <= |teachers| + 1
    ensures |r.0| == |teachers| + 1 <==> TeacherComplete(current)
    ensures |r.0| == |teachers| + 1 ==> r.0[|teachers|] == current && r.1 == EmptyTeacher
    ensures |r.0| == |teachers| ==> r.1 == current
  {
    if TeacherComplete(current) then (teachers + [current], EmptyTeacher) else (teachers, current)
  }

  /** Every listed teacher has a non-blank name and e-mail; adding keeps that so. */
  lemma AddTeacherKeepsComplete(teachers: seq<Teacher>, current: Teacher)
    requires forall t :: t in teachers ==> TeacherComplete(t)
    ensures forall t :: t in TeacherAdded(teachers, current).0 ==> TeacherComplete(t)
  {
  }

  /** `removeTeacher(index)`: exactly the teacher at `index` goes. */
  lemma RemoveTeacherSpec(teachers: seq<Teacher>, index: int)
    requires 0 <= index < |teachers|
    ensures var r := RemoveAt(teachers, index);
      |r| == |teachers| - 1 && r[..index] == teachers[..index] && r[index..] == teachers[index + 1..]
  {
  }

  /** The three terms every new subject starts with. */
  function Skeleton(): seq<Term>
  {
    [Term(1, "Term 1", 1, EmptyWeeks(1), None),
     Term(2, "Term 2", 2, EmptyWeeks(14), None),
     Term(3, "Term 3", 3, EmptyWeeks(27), None)]
  }

  /**
    * Three terms ordered 1..3, each of 13 empty weeks ordered 1..13; the
    * week ids run 1..13, 14..26 and 27..39.
    */
  lemma SkeletonShape()
    ensures var s := Skeleton();
      |s| == 3 &&
      forall j :: 0 <= j < 3 ==>
        s[j].id == j + 1 && s[j].order == j + 1 && |s[j].weeks| == 13 &&
        forall k :: 0 <= k < 13 ==>
          s[j].weeks[k].id == 13 * j + k + 1 && s[j].weeks[k].order == k + 1 && s[j].weeks[k].chapters == []
  {
  }

  /** The skeleton already satisfies the editor's ordering invariant, with week ids unique per term. */
  lemma SkeletonOrdered()
    ensures SubjectOrdered(Subject(0, "", "", "", None, Skeleton(), None))
    ensures forall j :: 0 <= j < |Skeleton()| ==> UniqueWeekIds(Skeleton()[j].weeks)
  {
    var s := Skeleton();
    forall j | 0 <= j < 3 ensures TermOrdered(s[j]) && UniqueWeekIds(s[j].weeks) {
      var w := s[j].weeks;
      assert forall k :: 0 <= k < 13 ==> w[k].order == k + 1 && w[k].chapters == [];
    }
  }

  /** The subject emitted for one board; `id` stands for `Date.now() + Math.random()`. */
  function NewSubject(name: string, description: string, level: string, teachers: seq<Teacher>, board: string, id: int): SubjectRecord
  {
    SubjectRecord(id, name, description, level, board, teachers, 0, 0, 0, "active", Skeleton())
  }

  /**
    * The `forEach` of `handleSubmit`: one subject per selected board, in
    * the order the boards were selected; `ids[i]` is the id drawn for the
    * i-th board.
    */
  method EmitSubjects(name: string, description: string, level: string, teachers: seq<Teacher>, boards: seq<string>, ids: seq<int>)
    returns (emitted: seq<SubjectRecord>)
    requires |ids| == |boards|
    ensures |emitted| == |boards|
    ensures forall i :: 0 <= i < |boards| ==>
      emitted[i].examBoard == boards[i] && emitted[i].id == ids[i] &&
      emitted[i].name == name && emitted[i].level == level && emitted[i].description == description &&
      emitted[i].teachers == teachers && emitted[i].status == "active" &&
      emitted[i].enrolledStudents == 0 && emitted[i].contentItems == 0 && emitted[i].completionRate == 0 &&
      emitted[i].terms == Skeleton()
  {
    emitted := [];
    var i := 0;
    while i < |boards|
      invariant 0 <= i <= |boards|
      invariant |emitted| == i
      invariant forall k :: 0 <= k < i ==> emitted[k] == NewSubject(name, description, level, teachers, boards[k], ids[k])
    {
      emitted := emitted + [NewSubject(name, description, level, teachers, boards[i], ids[i])];
      i := i + 1;
    }
  }

  /** The submit button is enabled only with a name, a level and at least one board. */
  predicate CanSubmit(name: string, level: string, boards: seq<string>)
  {
    name != "" && level != "" && |boards| > 0
  }

  /**
    * With no board checked the dialog cannot be submitted; checking one
    * board enables it once a name and a level are set, and unchecking the
    * only board disables it again.
    */
  lemma SubmitGuard(name: string, level: string, board: string)
    ensures !CanSubmit(name, level, [])
    ensures name != "" && level != "" ==> CanSubmit(name, level, ChangeBoard([], board, true))
    ensures !CanSubmit(name, level, ChangeBoard([board], board, false))
  {
  }

  class Dialog {
    var open: bool
    var name: string
    var description: string
    var level: string
    var examBoards: seq<string>
    var icon: string
    var teachers: seq<Teacher>
    var currentTeacher: Teacher

    /** The form as `resetForm` leaves it. */
    predicate IsReset()
      reads this
    {
      name == "" && description == "" && level == "" && examBoards == [] && icon == "BookOpen" &&
      teachers == [] && currentTeacher == EmptyTeacher
    }

    constructor()
      ensures IsReset() && !open
    {
      open := false;
      name := "";
      description := "";
      level := "";
      examBoards := [];
      icon := "BookOpen";
      teachers := [];
      currentTeacher := EmptyTeacher;
    }

    method HandleExamBoardChange(board: string, checked: bool)
      modifies this
      ensures examBoards == ChangeBoard(old(examBoards), board, checked)
      ensures teachers == old(teachers) && currentTeacher == old(currentTeacher)
      ensures name == old(name) && level == old(level) && open == old(open)
      ensures description == old(description) && icon == old(icon)
    {
      examBoards := ChangeBoard(examBoards, board, checked);
    }

    method AddTeacher()
      modifies this
      ensures (teachers, currentTeacher) == TeacherAdded(old(teachers), old(currentTeacher))
      ensures examBoards == old(examBoards) && name == old(name) && level == old(level) && open == old(open)
      ensures description == old(description) && icon == old(icon)
    {
      var (t, c) := TeacherAdded(teachers, currentTeacher);
      teachers := t;
      currentTeacher := c;
    }

    method RemoveTeacher(index: int)
      modifies this
      ensures teachers == RemoveAt(old(teachers), index)
      ensures currentTeacher == old(currentTeacher) && examBoards == old(examBoards) && name == old(name) && level == old(level)
      ensures description == old(description) && icon == old(icon) && open == old(open)
    {
      teachers := RemoveAt(teachers, index);
    }

    method ResetForm()
      modifies this
      ensures IsReset() && open == old(open)
    {
      name := "";
      description := "";
      level := "";
      examBoards := [];
      icon := "BookOpen";
      teachers := [];
      currentTeacher := EmptyTeacher;
    }

    /** `handleSubmit`: emits the subjects, closes the dialog and resets the form. */
    method HandleSubmit(ids: seq<int>) returns (emitted: seq<SubjectRecord>)
      requires |ids| == |examBoards|
      modifies this
      ensures |emitted| == |old(examBoards)|
      ensures forall i :: 0 <= i < |emitted| ==>
        emitted[i] == NewSubject(old(name), old(description), old(level), old(teachers), old(examBoards)[i], ids[i])
      ensures !open && IsReset()
    {
      emitted := EmitSubjects(name, description, level, teachers, examBoards, ids);
      open := false;
      ResetForm();
    }
  }
}
