/**
  * The "Syllabus" page: the syllabus list, its search and drop-down
  * filters, the derived subject list, and adding and deleting syllabi.
  */
module SyllabusPage {
  import opened Strings
  import opened Seqs
  import opened AddSyllabusDialog

  function InitialSyllabi(): seq<SyllabusRecord>
  {
    [ SyllabusRecord(1, "Mathematics", "A-Level", "ZIMSEC", 2024,
        "Comprehensive mathematics syllabus covering algebra, calculus, statistics, and mechanics.", 45,
        [ Paper(1, "Paper 1", ["Number and Set Notation", "Algebra", "Functions", "Coordinate Geometry"]),
          Paper(2, "Paper 2", ["Calculus", "Statistics", "Probability", "Mechanics"]) ],
        "mathematics-a-level-2024.pdf", "mathematics-assessment-objectives.pdf", "mathematics-specimen-papers.pdf"),
      SyllabusRecord(2, "Physics", "A-Level", "Cambridge", 2024,
        "Advanced physics syllabus covering mechanics, waves, electricity, and modern physics.", 38,
        [ Paper(1, "Paper 1", ["Mechanics", "Waves", "Oscillations"]),
          Paper(2, "Paper 2", ["Electricity and Magnetism", "Atomic Physics", "Nuclear Physics"]) ],
        "physics-a-level-2024.pdf", "physics-assessment-objectives.pdf", "physics-specimen-papers.pdf") ]
  }

  predicate SyllabusMatches(s: SyllabusRecord, search: string, selectedSubject: string, selectedLevel: string)
  {
    (MatchesSearch(s.subject, search) || MatchesSearch(s.overview, search)) &&
    Selects(selectedSubject, s.subject) && Selects(selectedLevel, s.level)
  }

  /** `filteredSyllabi` */
  function FilteredSyllabi(syllabi: seq<SyllabusRecord>, search: string, selectedSubject: string, selectedLevel: string): (r: seq<SyllabusRecord>)
    ensures forall s :: s in r <==>
      s in syllabi &&
      (MatchesSearch(s.subject, search) || MatchesSearch(s.overview, search)) &&
      (selectedSubject == "all" || s.subject == selectedSubject) &&
      (selectedLevel == "all" || s.level == selectedLevel)
  {
    Filter(syllabi, (s: SyllabusRecord) => SyllabusMatches(s, search, selectedSubject, selectedLevel))
  }

  /** With an empty search and both drop-downs on `'all'`, every syllabus shows, in order. */
  lemma FilteredSyllabiUnfiltered(syllabi: seq<SyllabusRecord>)
    ensures FilteredSyllabi(syllabi, "", "all", "all") == syllabi
  {
    forall s | s in syllabi ensures SyllabusMatches(s, "", "all", "all") {
      EmptySearchMatches(s.subject);
    }
    FilterKeepsAll(syllabi, (s: SyllabusRecord) => SyllabusMatches(s, "", "all", "all"));
  }

  function SubjectOf(s: SyllabusRecord): string { s.subject }

  /** `[...new Set(syllabi.map(syllabus => syllabus.subject))]` */
  function Subjects(syllabi: seq<SyllabusRecord>): seq<string>
  {
    Distinct(Map(syllabi, SubjectOf))
  }

  /** The subject list names each subject of some syllabus exactly once. */
  lemma SubjectsSpec(syllabi: seq<SyllabusRecord>)
    ensures NoDuplicates(Subjects(syllabi))
    ensures forall x :: x in Subjects(syllabi) <==> exists s :: s in syllabi && s.subject == x
  {
    DistinctMapSpec(syllabi, SubjectOf);
  }

  /** `prev.filter(syllabus => syllabus.id !== syllabusId)` */
  function SyllabiWithout(syllabi: seq<SyllabusRecord>, id: int): (r: seq<SyllabusRecord>)
    ensures forall s :: s in r <==> s in syllabi && s.id != id
  {
    Filter(syllabi, (s: SyllabusRecord) => s.id != id)
  }

  /** Deletion works piecewise, so the remaining syllabi keep their order. */
  lemma SyllabiWithoutAppend(a: seq<SyllabusRecord>, b: seq<SyllabusRecord>, id: int)
    ensures SyllabiWithout(a + b, id) == SyllabiWithout(a, id) + SyllabiWithout(b, id)
  {
    FilterAppend(a, b, (x: SyllabusRecord) => x.id != id);
  }

  /** Deleting a syllabus just added under a new id gives the earlier list back. */
  lemma DeleteAfterAdd(syllabi: seq<SyllabusRecord>, added: SyllabusRecord)
    requires forall s :: s in syllabi ==> s.id != added.id
    ensures SyllabiWithout([added] + syllabi, added.id) == syllabi
  {
    FilterAppend([added], syllabi, (s: SyllabusRecord) => s.id != added.id);
    FilterKeepsAll(syllabi, (s: SyllabusRecord) => s.id != added.id);
  }

  class Page {
    var syllabi: seq<SyllabusRecord>

    constructor()
      ensures syllabi == InitialSyllabi()
    {
      syllabi := InitialSyllabi();
    }

    /** `handleSyllabusAdded`: the new syllabus goes first. */
    method HandleSyllabusAdded(added: SyllabusRecord)
      modifies this
      ensures syllabi == [added] + old(syllabi)
    {
      syllabi := [added] + syllabi;
    }

    /** `handleDeleteSyllabus` */
    method HandleDeleteSyllabus(id: int)
      modifies this
      ensures syllabi == SyllabiWithout(old(syllabi), id)
    {
      syllabi := SyllabiWithout(syllabi, id);
    }
  }
}
