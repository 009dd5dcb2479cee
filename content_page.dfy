/**
  * The "All Content" page: the seed course tree it hands to the hierarchy
  * editor, the content list with its search and filters, and the two
  * handlers that grow the lists.
  */
module ContentPage {
  import opened Optional
  import opened Strings
  import opened Seqs
  import opened HierarchyTree
  import AddContentDialog

  function SeedTopic(id: string, title: string, topicType: string, order: int): Topic
  {
    Topic(id, title, topicType, None, order, None, None)
  }

  /** Chemistry's first term: week 1 holds the one seeded chapter, weeks 2..13 are empty. */
  function ChemistryFirstTermWeeks(): seq<Week>
  {
    [Week(1, "Week 1", 1,
       [Chapter(1, "Introduction to Organic Chemistry", None, 1,
          [SeedTopic("1", "Hydrocarbons", "video", 1),
           SeedTopic("2", "Alkanes", "pdf", 2),
           SeedTopic("3", "Alkenes", "video", 3),
           SeedTopic("4", "Alkynes Quiz", "quiz", 4)],
          None, None, None)],
       None),
     Week(2, "Week 2", 2, [], None)]
    + seq(11, i requires 0 <= i < 11 => Week(i + 3, "Week " + NatToString(i + 3), i + 3, [], None))
  }

  /** `initialSubjects` */
  function InitialSubjects(): seq<Subject>
  {
    [Subject(1, "Chemistry", "A-Level", "ZIMSEC", None,
       [Term(1, "Term 1", 1, ChemistryFirstTermWeeks(), None),
        Term(2, "Term 2", 2, EmptyWeeks(14), None),
        Term(3, "Term 3", 3, EmptyWeeks(27), None)],
       None),
     Subject(2, "Mathematics", "A-Level", "ZIMSEC", None,
       [Term(1, "Term 1", 1, EmptyWeeks(40), None),
        Term(2, "Term 2", 2, EmptyWeeks(53), None),
        Term(3, "Term 3", 3, EmptyWeeks(66), None)],
       None)]
  }

  /**
    * Chemistry's terms 1, 2 and 3 have 13 weeks each with ids 1..13, 14..26
    * and 27..39 and orders 1..13; its first week holds one chapter with
    * four topics ordered 1..4.
    */
  lemma SeedChemistry()
    ensures var c := InitialSubjects()[0];
      c.name == "Chemistry" && |c.terms| == 3 &&
      (forall j, k :: 0 <= j < 3 && 0 <= k < 13 ==>
        |c.terms[j].weeks| == 13 && c.terms[j].weeks[k].id == 13 * j + k + 1 && c.terms[j].weeks[k].order == k + 1) &&
      |c.terms[0].weeks[0].chapters| == 1 &&
      |c.terms[0].weeks[0].chapters[0].topics| == 4 &&
      OrdersArePositions(c.terms[0].weeks[0].chapters[0].topics)
  {
  }

  /**
    * Mathematics reuses the term ids 1..3 of Chemistry, so term ids are not
    * unique across subjects; its weeks have ids 40..78.
    */
  lemma SeedMathematics()
    ensures var c := InitialSubjects()[0];
      var m := InitialSubjects()[1];
      m.name == "Mathematics" && |m.terms| == 3 &&
      (forall j :: 0 <= j < 3 ==> m.terms[j].id == c.terms[j].id == j + 1) &&
      (forall j, k :: 0 <= j < 3 && 0 <= k < 13 ==>
        |m.terms[j].weeks| == 13 && m.terms[j].weeks[k].id == 40 + 13 * j + k)
  {
  }

  /**
    * The seed tree has every `order` equal to its position and week ids
    * unique in each term: the layout the editor's invariant lemmas assume.
    */
  lemma SeedOrdered()
    ensures TreeOrdered(InitialSubjects())
    ensures forall i, j :: 0 <= i < |InitialSubjects()| && 0 <= j < |InitialSubjects()[i].terms| ==>
      UniqueWeekIds(InitialSubjects()[i].terms[j].weeks)
  {
    var s := InitialSubjects();
    EmptyWeeksOrdered(14);
    EmptyWeeksOrdered(27);
    EmptyWeeksOrdered(40);
    EmptyWeeksOrdered(53);
    EmptyWeeksOrdered(66);
    ChemistryFirstTermOrdered();
    assert SubjectOrdered(s[0]);
    assert SubjectOrdered(s[1]);
  }

  lemma EmptyWeeksOrdered(firstId: int)
    ensures TermOrdered(Term(0, "", 0, EmptyWeeks(firstId), None))
    ensures UniqueWeekIds(EmptyWeeks(firstId))
  {
  }

  lemma ChemistryFirstTermOrdered()
    ensures TermOrdered(Term(0, "", 0, ChemistryFirstTermWeeks(), None))
    ensures UniqueWeekIds(ChemistryFirstTermWeeks())
  {
    var w := ChemistryFirstTermWeeks();
    assert forall k :: 0 <= k < 13 ==> w[k].id == k + 1 && w[k].order == k + 1;
    assert forall k :: 1 <= k < 13 ==> w[k].chapters == [];
    assert ChapterOrdered(w[0].chapters[0]);
  }

  /**
    * One row of the content table. The page keeps whatever the dialog
    * hands it, so a field the record lacks or leaves `undefined` is `None`.
    */
  datatype ContentItem = ContentItem(
    id: int,
    title: string,
    subject: Option<string>,
    itemType: Option<string>,
    level: Option<string>,
    examBoard: Option<string>,
    status: string,
    views: int)

  /** `contentItems` */
  function InitialContent(): seq<ContentItem>
  {
    [ContentItem(1, "Introduction to Calculus", Some("Mathematics"), Some("video"), Some("A-Level"), Some("ZIMSEC"), "published", 2450),
     ContentItem(2, "Organic Chemistry Basics", Some("Chemistry"), Some("pdf"), Some("O-Level"), Some("Cambridge"), "draft", 0),
     ContentItem(3, "Mechanics Quiz", Some("Physics"), Some("quiz"), Some("A-Level"), Some("ZIMSEC"), "published", 1890),
     ContentItem(4, "Shakespeare Analysis", Some("English"), Some("video"), Some("O-Level"), Some("Cambridge"), "review", 0)]
  }

  /**
    * The row `handleContentAdded` stores for a record of the "Add New
    * Content" dialog. The record spreads the form, so its `type` is the
    * type chosen in the dialog; its subject, level and exam board come from
    * the subject selection and are undefined without one.
    */
  function ItemOf(rec: AddContentDialog.ContentRecord): (r: ContentItem)
    ensures r.title == rec.form.title && r.subject == rec.subject && r.itemType == Some(rec.form.contentType)
    ensures r.id == rec.id && r.level == rec.level && r.examBoard == rec.examBoard && r.status == rec.status && r.views == rec.views
  {
    ContentItem(rec.id, rec.form.title, rec.subject, Some(rec.form.contentType), rec.level, rec.examBoard, rec.status, rec.views)
  }

  /**
    * The search test calls `toLowerCase` on the subject only when the
    * title misses the search; on an undefined subject that call throws.
    * The filter is defined exactly when no item reaches that call.
    */
  predicate SearchDefined(content: seq<ContentItem>, search: string)
  {
    forall x :: x in content ==> x.subject.Some? || MatchesSearch(x.title, search)
  }

  /** `selected === 'all' || value === selected` with the value possibly undefined. */
  predicate SelectsOptional(selected: string, value: Option<string>)
  {
    selected == "all" || value == Some(selected)
  }

  /** A filter value of `'all'` lets every item through. */
  predicate ContentMatches(item: ContentItem, search: string, selectedType: string, selectedStatus: string)
  {
    (MatchesSearch(item.title, search) || (item.subject.Some? && MatchesSearch(item.subject.value, search))) &&
    SelectsOptional(selectedType, item.itemType) && Selects(selectedStatus, item.status)
  }

  /** `filteredContent`; the source throws when the search is not `SearchDefined`. */
  function FilteredContent(content: seq<ContentItem>, search: string, selectedType: string, selectedStatus: string): (r: seq<ContentItem>)
    requires SearchDefined(content, search)
    ensures forall x :: x in r <==>
      x in content &&
      (MatchesSearch(x.title, search) || MatchesSearch(x.subject.value, search)) &&
      (selectedType == "all" || x.itemType == Some(selectedType)) &&
      (selectedStatus == "all" || x.status == selectedStatus)
  {
    Filter(content, (x: ContentItem) => ContentMatches(x, search, selectedType, selectedStatus))
  }

  /** With an empty search and both filters on `'all'`, the whole list shows. */
  lemma FilteredContentUnfiltered(content: seq<ContentItem>)
    ensures SearchDefined(content, "")
    ensures FilteredContent(content, "", "all", "all") == content
  {
    forall x | x in content ensures MatchesSearch(x.title, "") && ContentMatches(x, "", "all", "all") {
      EmptySearchMatches(x.title);
    }
    FilterKeepsAll(content, (x: ContentItem) => ContentMatches(x, "", "all", "all"));
  }

  /** The seed rows all have a subject, so every search over them is defined. */
  lemma InitialContentSearchDefined(search: string)
    ensures SearchDefined(InitialContent(), search)
  {
  }

  /**
    * A record submitted before a subject was chosen has no subject; once it
    * is listed, any search its title misses makes the filter throw. Where
    * the filter is defined, a row from the dialog that meets the search and
    * the status filter shows exactly when the type filter is `'all'` or the
    * type chosen in the dialog.
    */
  lemma AddedItemFilter(rec: AddContentDialog.ContentRecord, content: seq<ContentItem>, search: string,
                        selectedType: string, selectedStatus: string)
    ensures rec.subject.None? && !MatchesSearch(rec.form.title, search) ==>
      !SearchDefined([ItemOf(rec)] + content, search)
    ensures (SearchDefined([ItemOf(rec)] + content, search) &&
             (MatchesSearch(rec.form.title, search) || MatchesSearch(rec.subject.value, search)) &&
             (selectedStatus == "all" || rec.status == selectedStatus)) ==>
      (ItemOf(rec) in FilteredContent([ItemOf(rec)] + content, search, selectedType, selectedStatus) <==>
       selectedType == "all" || selectedType == rec.form.contentType)
  {
    assert ItemOf(rec) in [ItemOf(rec)] + content;
  }

  class Page {
    var content: seq<ContentItem>
    var subjects: seq<Subject>

    constructor()
      ensures content == InitialContent() && subjects == InitialSubjects()
    {
      content := InitialContent();
      subjects := InitialSubjects();
    }

    /** `handleContentAdded`: the dialog's record goes first, as the row `ItemOf` describes. */
    method HandleContentAdded(rec: AddContentDialog.ContentRecord)
      modifies this
      ensures content == [ItemOf(rec)] + old(content) && subjects == old(subjects)
    {
      content := [ItemOf(rec)] + content;
    }

    /** `handleSubjectAdded`: the new subject goes last. */
    method HandleSubjectAdded(s: Subject)
      modifies this
      ensures subjects == old(subjects) + [s] && content == old(content)
    {
      subjects := subjects + [s];
    }
  }
}
