/**
  * The "Add Syllabus" dialog: the topic list of the paper being composed,
  * the list of papers, and the submitted syllabus with its topic total.
  */
module AddSyllabusDialog {
  import opened Optional
  import opened Strings
  import opened Seqs

  datatype Paper = Paper(id: int, name: string, topics: seq<string>)

  /** The paper being composed: a name and its topics. */
  datatype CurrentPaper = CurrentPaper(name: string, topics: seq<string>)

  const EmptyPaper := CurrentPaper("", [])

  /** The form fields; each file is kept by name, `None` when none is chosen. */
  datatype FormData = FormData(
    subject: string,
    level: string,
    examBoard: string,
    year: int,
    overview: string,
    totalTopics: int,
    syllabusFile: Option<string>,
    assessmentFile: Option<string>,
    specimenFile: Option<string>)

  function InitialForm(year: int): FormData
  {
    FormData("", "", "", year, "", 0, None, None, None)
  }

  /** The record handed to `onSyllabusAdded`; `addedDate` (a clock reading) is left out. */
  datatype SyllabusRecord = SyllabusRecord(
    id: int,
    subject: string,
    level: string,
    examBoard: string,
    year: int,
    overview: string,
    totalTopics: int,
    papers: seq<Paper>,
    syllabusFile: string,
    assessmentFile: string,
    specimenFile: string)

  /** `addPaper`'s condition: a non-blank name and at least one topic. */
  predicate PaperReady(current: CurrentPaper)
  {
    Trim(current.name) != "" && |current.topics| > 0
  }

  /** `addPaper()`: the paper list and the paper being composed, afterwards; `now` stands for `Date.now()`. */
  function PaperAdded(papers: seq<Paper>, current: CurrentPaper, now: int): (r: (seq<Paper>, CurrentPaper))
    ensures papers <= r.0 && |r.0| <= |papers| + 1
    ensures |r.0| == |papers| + 1 <==> PaperReady(current)
    ensures |r.0| == |papers| + 1 ==>
      var p := r.0[|papers|];
      p.id == now && p.name == Trim(current.name) && p.topics == current.topics && r.1 == EmptyPaper
    ensures |r.0| == |papers| ==> r.1 == current
  {
    if PaperReady(current) then (papers + [Paper(now, Trim(current.name), current.topics)], EmptyPaper)
    else (papers, current)
  }

  function PapersWithout(papers: seq<Paper>, paperId: int): (r: seq<Paper>)
    ensures forall p :: p in r <==> p in papers && p.id != paperId
  {
    Filter(papers, (p: Paper) => p.id != paperId)
  }

  /** Removal works piecewise, so the remaining papers keep their order. */
  lemma PapersWithoutAppend(a: seq<Paper>, b: seq<Paper>, paperId: int)
    ensures PapersWithout(a + b, paperId) == PapersWithout(a, paperId) + PapersWithout(b, paperId)
  {
    FilterAppend(a, b, (p: Paper) => p.id != paperId);
  }

  /** Every listed paper has a trimmed, non-blank name and at least one topic; adding and removing keep that so. */
  predicate PapersWellFormed(papers: seq<Paper>)
  {
    forall p :: p in papers ==> p.name != "" && IsTrimmed(p.name) && |p.topics| > 0
  }

  lemma PaperListKeepsWellFormed(papers: seq<Paper>, current: CurrentPaper, now: int, paperId: int)
    requires PapersWellFormed(papers)
    ensures PapersWellFormed(PaperAdded(papers, current, now).0)
    ensures PapersWellFormed(PapersWithout(papers, paperId))
  {
    TrimIsTrimmed(current.name);
  }

  function TopicCount(p: Paper): int
  {
    |p.topics|
  }

  /** `papers.reduce((acc, paper) => acc + paper.topics.length, 0)` */
  function TotalTopics(papers: seq<Paper>): int
  {
    SumOf(papers, TopicCount)
  }

  /** Adding a paper adds its topic count to the total; the total is never negative. */
  lemma TotalTopicsAdd(papers: seq<Paper>, p: Paper)
    ensures TotalTopics(papers + [p]) == TotalTopics(papers) + |p.topics|
    ensures TotalTopics(papers) >= 0
  {
    SumOfAppend(papers, [p], TopicCount);
    var single: seq<Paper> := [p];
    assert single[..0] == [];
    SumOfNonNegative(papers, TopicCount);
  }

  /** The submit button is enabled only with subject, level, board, overview, syllabus file and a paper. */
  predicate CanSubmit(form: FormData, papers: seq<Paper>)
  {
    form.subject != "" && form.level != "" && form.examBoard != "" && form.overview != "" &&
    form.syllabusFile.Some? && |papers| > 0
  }

  /** Every listed paper has a topic, so the total is at least the number of papers. */
  lemma {:induction false} TotalTopicsAtLeastPapers(papers: seq<Paper>)
    requires PapersWellFormed(papers)
    ensures TotalTopics(papers) >= |papers|
  {
    if papers != [] {
      var init := papers[..|papers| - 1];
      assert forall p :: p in init ==> p in papers;
      TotalTopicsAtLeastPapers(init);
      assert papers[|papers| - 1] in papers;
    }
  }

  /**
    * A fresh form cannot be submitted; a submittable form with papers
    * built by `addPaper` reports at least one topic.
    */
  lemma SubmitGuard(year: int, form: FormData, papers: seq<Paper>)
    ensures !CanSubmit(InitialForm(year), papers)
    ensures CanSubmit(form, papers) && PapersWellFormed(papers) ==> TotalTopics(papers) >= 1
  {
    if PapersWellFormed(papers) {
      TotalTopicsAtLeastPapers(papers);
    }
  }

  /** The year picker: the current year and the nine before it. */
  function Years(currentYear: int): seq<int>
  {
    seq(10, i requires 0 <= i < 10 => currentYear - i)
  }

  /** Ten years, starting at the current one and strictly descending, so none repeats. */
  lemma YearsSpec(currentYear: int)
    ensures var ys := Years(currentYear);
      |ys| == 10 && ys[0] == currentYear && ys[9] == currentYear - 9 &&
      StrictlyDescending(ys) && NoDuplicates(ys) && InitialForm(currentYear).year in ys
  {
  }

  /** `file?.name || ''` */
  function FileName(file: Option<string>): string
  {
    if file.Some? then file.value else ""
  }

  function Submitted(now: int, form: FormData, papers: seq<Paper>): (r: SyllabusRecord)
    ensures r.totalTopics == TotalTopics(papers) && r.papers == papers && r.id == now
    ensures r.syllabusFile == FileName(form.syllabusFile)
  {
    SyllabusRecord(now, form.subject, form.level, form.examBoard, form.year, form.overview, TotalTopics(papers), papers,
      FileName(form.syllabusFile), FileName(form.assessmentFile), FileName(form.specimenFile))
  }

  class Dialog {
    var open: bool
    var formData: FormData
    var papers: seq<Paper>
    var currentPaper: CurrentPaper
    var currentTopic: string

    /** `resetForm`'s state; `year` is the current year. */
    predicate IsReset(year: int)
      reads this
    {
      formData == InitialForm(year) && papers == [] && currentPaper == EmptyPaper && currentTopic == ""
    }

    constructor(year: int)
      ensures IsReset(year) && !open
    {
      open := false;
      formData := InitialForm(year);
      papers := [];
      currentPaper := EmptyPaper;
      currentTopic := "";
    }

    /** `addTopicToPaper()` */
    method AddTopicToPaper()
      modifies this
      ensures (currentPaper.topics, currentTopic) == AddTrimmedUnique(old(currentPaper.topics), old(currentTopic))
      ensures currentPaper.name == old(currentPaper.name) && papers == old(papers) && formData == old(formData)
      ensures open == old(open)
    {
      var (topics, input) := AddTrimmedUnique(currentPaper.topics, currentTopic);
      currentPaper := currentPaper.(topics := topics);
      currentTopic := input;
    }

    /** `removeTopicFromPaper(topic)` */
    method RemoveTopicFromPaper(topic: string)
      modifies this
      ensures currentPaper == old(currentPaper).(topics := RemoveAll(old(currentPaper.topics), topic))
      ensures currentTopic == old(currentTopic) && papers == old(papers) && formData == old(formData)
      ensures open == old(open)
    {
      currentPaper := currentPaper.(topics := RemoveAll(currentPaper.topics, topic));
    }

    /** `addPaper()`; `now` stands for `Date.now()`. */
    method AddPaper(now: int)
      modifies this
      ensures (papers, currentPaper) == PaperAdded(old(papers), old(currentPaper), now)
      ensures PapersWellFormed(old(papers)) ==> PapersWellFormed(papers)
      ensures currentTopic == old(currentTopic) && formData == old(formData)
      ensures open == old(open)
    {
      if PapersWellFormed(papers) {
        PaperListKeepsWellFormed(papers, currentPaper, now, 0);
      }
      var (ps, c) := PaperAdded(papers, currentPaper, now);
      papers := ps;
      currentPaper := c;
    }

    /** `removePaper(paperId)` */
    method RemovePaper(paperId: int)
      modifies this
      ensures papers == PapersWithout(old(papers), paperId)
      ensures currentPaper == old(currentPaper) && currentTopic == old(currentTopic) && formData == old(formData)
      ensures open == old(open)
    {
      papers := PapersWithout(papers, paperId);
    }

    method ResetForm(year: int)
      modifies this
      ensures IsReset(year) && open == old(open)
    {
      formData := InitialForm(year);
      papers := [];
      currentPaper := EmptyPaper;
      currentTopic := "";
    }

    /** `handleSubmit`: emits the syllabus, resets the form and closes the dialog. */
    method HandleSubmit(now: int, year: int) returns (record: SyllabusRecord)
      modifies this
      ensures record == Submitted(now, old(formData), old(papers))
      ensures IsReset(year) && !open
    {
      record := Submitted(now, formData, papers);
      ResetForm(year);
      open := false;
    }
  }
}
