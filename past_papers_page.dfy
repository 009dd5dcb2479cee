/**
  * The "Past Papers" page: the paper list, its search and three drop-down
  * filters, the derived subject and year lists, and the download and
  * marking-scheme totals.
  */
module PastPapersPage {
  import opened Strings
  import opened Seqs

  /** A past paper; `uploadedAt` and `fileSize` are display text. */
  datatype PastPaper = PastPaper(
    id: int,
    subject: string,
    year: int,
    paperType: string,
    level: string,
    examBoard: string,
    status: string,
    downloadCount: int,
    hasMarkingScheme: bool,
    uploadedAt: string,
    fileSize: string)

  function InitialPastPapers(): seq<PastPaper>
  {
    [ PastPaper(1, "Mathematics", 2023, "Paper 1", "A-Level", "ZIMSEC", "published", 1250, true, "2024-01-15", "2.4 MB"),
      PastPaper(2, "Physics", 2023, "Paper 2", "A-Level", "Cambridge", "published", 890, true, "2024-01-14", "3.1 MB"),
      PastPaper(3, "Chemistry", 2022, "Paper 1", "O-Level", "ZIMSEC", "published", 2100, false, "2024-01-13", "1.8 MB"),
      PastPaper(4, "Biology", 2023, "Paper 3", "O-Level", "Cambridge", "review", 0, true, "2024-01-12", "2.7 MB") ]
  }

  predicate PaperMatches(p: PastPaper, search: string, selectedSubject: string, selectedLevel: string, selectedYear: string)
  {
    (MatchesSearch(p.subject, search) || MatchesSearch(p.paperType, search)) &&
    Selects(selectedSubject, p.subject) && Selects(selectedLevel, p.level) &&
    Selects(selectedYear, IntToString(p.year))
  }

  /** `filteredPapers`: the year drop-down holds text and is compared with `year.toString()`. */
  function FilteredPapers(papers: seq<PastPaper>, search: string, selectedSubject: string, selectedLevel: string, selectedYear: string): (r: seq<PastPaper>)
    ensures forall p :: p in r <==>
      p in papers &&
      (MatchesSearch(p.subject, search) || MatchesSearch(p.paperType, search)) &&
      (selectedSubject == "all" || p.subject == selectedSubject) &&
      (selectedLevel == "all" || p.level == selectedLevel) &&
      (selectedYear == "all" || IntToString(p.year) == selectedYear)
  {
    Filter(papers, (p: PastPaper) => PaperMatches(p, search, selectedSubject, selectedLevel, selectedYear))
  }

  /** Choosing the year text of `y` shows exactly the matching papers of year `y`. */
  lemma FilterByYear(papers: seq<PastPaper>, search: string, selectedSubject: string, selectedLevel: string, y: int)
    ensures forall p :: p in FilteredPapers(papers, search, selectedSubject, selectedLevel, IntToString(y)) <==>
      p in FilteredPapers(papers, search, selectedSubject, selectedLevel, "all") && p.year == y
  {
    forall p | p in papers && IntToString(p.year) == IntToString(y) ensures p.year == y {
      IntToStringInjective(p.year, y);
    }
  }

  /** With an empty search and every drop-down on `'all'`, every paper shows, in order. */
  lemma FilteredPapersUnfiltered(papers: seq<PastPaper>)
    ensures FilteredPapers(papers, "", "all", "all", "all") == papers
  {
    forall p | p in papers ensures PaperMatches(p, "", "all", "all", "all") {
      EmptySearchMatches(p.subject);
    }
    FilterKeepsAll(papers, (p: PastPaper) => PaperMatches(p, "", "all", "all", "all"));
  }

  function SubjectOf(p: PastPaper): string { p.subject }

  function YearOf(p: PastPaper): int { p.year }

  /** `[...new Set(pastPapers.map(paper => paper.subject))]` */
  function Subjects(papers: seq<PastPaper>): seq<string>
  {
    Distinct(Map(papers, SubjectOf))
  }

  /** `[...new Set(pastPapers.map(paper => paper.year))].sort((a, b) => b - a)` */
  function Years(papers: seq<PastPaper>): seq<int>
  {
    SortDescending(Distinct(Map(papers, YearOf)))
  }

  /** The subject list names each subject of some paper exactly once. */
  lemma SubjectsSpec(papers: seq<PastPaper>)
    ensures NoDuplicates(Subjects(papers))
    ensures forall x :: x in Subjects(papers) <==> exists p :: p in papers && p.subject == x
  {
    DistinctMapSpec(papers, SubjectOf);
  }

  /** The year list is strictly descending and names each year of some paper exactly once. */
  lemma YearsSpec(papers: seq<PastPaper>)
    ensures StrictlyDescending(Years(papers))
    ensures NoDuplicates(Years(papers))
    ensures forall y :: y in Years(papers) <==> exists p :: p in papers && p.year == y
  {
    var d := Distinct(Map(papers, YearOf));
    DistinctMapSpec(papers, YearOf);
    SortDescendingStrict(d);
    var r := Years(papers);
    forall y ensures y in r <==> y in d {
      assert y in r <==> y in multiset(r);
      assert y in d <==> y in multiset(d);
    }
  }

  function DownloadsOf(p: PastPaper): int { p.downloadCount }

  function HasSchemeOf(p: PastPaper): bool { p.hasMarkingScheme }

  /** `pastPapers.reduce((acc, paper) => acc + paper.downloadCount, 0)` */
  function TotalDownloads(papers: seq<PastPaper>): int
  {
    SumOf(papers, DownloadsOf)
  }

  /** `pastPapers.filter(paper => paper.hasMarkingScheme).length` */
  function MarkingSchemeCount(papers: seq<PastPaper>): nat
  {
    CountWhere(papers, HasSchemeOf)
  }

  /**
    * Adding a paper in front adds its downloads to the total and counts it
    * once when it has a marking scheme; the count never exceeds the list.
    */
  lemma TotalsAfterAdd(added: PastPaper, papers: seq<PastPaper>)
    ensures TotalDownloads([added] + papers) == added.downloadCount + TotalDownloads(papers)
    ensures MarkingSchemeCount([added] + papers) == (if added.hasMarkingScheme then 1 else 0) + MarkingSchemeCount(papers)
    ensures MarkingSchemeCount(papers) <= |papers|
  {
    SumOfPrepend(added, papers, DownloadsOf);
    CountWherePrepend(added, papers, HasSchemeOf);
  }

  class Page {
    var pastPapers: seq<PastPaper>

    constructor()
      ensures pastPapers == InitialPastPapers()
    {
      pastPapers := InitialPastPapers();
    }

    /** `handlePaperAdded`: the new paper goes first. */
    method HandlePaperAdded(added: PastPaper)
      modifies this
      ensures pastPapers == [added] + old(pastPapers)
    {
      pastPapers := [added] + pastPapers;
    }
  }
}
