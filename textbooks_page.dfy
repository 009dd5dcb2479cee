/**
  * The "Textbooks" page: the book list, its search and drop-down filters,
  * the derived subject list and publisher count, and adding and deleting
  * books.
  */
module TextbooksPage {
  import opened Strings
  import opened Seqs
  import opened AddTextbookDialog

  function InitialTextbooks(): seq<TextbookRecord>
  {
    [ TextbookRecord(1, "Advanced Mathematics for A-Level", ["John Smith", "Mary Johnson"], "Oxford University Press",
        "3rd Edition", 2023, "978-0-19-123456-7", "Mathematics", "A-Level", "ZIMSEC",
        "Comprehensive mathematics textbook covering all A-Level topics with detailed explanations and practice exercises.",
        "/textbook-covers/math-advanced.jpg"),
      TextbookRecord(2, "Physics Principles and Applications", ["David Wilson"], "Cambridge University Press",
        "2nd Edition", 2022, "978-1-10-987654-3", "Physics", "A-Level", "Cambridge",
        "Modern physics textbook with real-world applications and laboratory experiments.",
        "/textbook-covers/physics-principles.jpg"),
      TextbookRecord(3, "Organic Chemistry Fundamentals", ["Sarah Brown", "Michael Davis"], "Pearson Education",
        "4th Edition", 2023, "978-0-13-456789-0", "Chemistry", "O-Level", "ZIMSEC",
        "Essential organic chemistry concepts with step-by-step problem solving approaches.",
        "/textbook-covers/chemistry-organic.jpg") ]
  }

  /** `book.authors.some(author => ...)` */
  predicate SomeAuthorMatches(authors: seq<string>, search: string)
  {
    exists a :: a in authors && MatchesSearch(a, search)
  }

  predicate TextbookMatches(b: TextbookRecord, search: string, selectedSubject: string, selectedLevel: string)
  {
    (MatchesSearch(b.title, search) || SomeAuthorMatches(b.authors, search) || MatchesSearch(b.publisher, search)) &&
    Selects(selectedSubject, b.subject) && Selects(selectedLevel, b.level)
  }

  /** `filteredTextbooks` */
  function FilteredTextbooks(books: seq<TextbookRecord>, search: string, selectedSubject: string, selectedLevel: string): (r: seq<TextbookRecord>)
    ensures forall b :: b in r <==>
      b in books &&
      (MatchesSearch(b.title, search) || (exists a :: a in b.authors && MatchesSearch(a, search)) ||
       MatchesSearch(b.publisher, search)) &&
      (selectedSubject == "all" || b.subject == selectedSubject) &&
      (selectedLevel == "all" || b.level == selectedLevel)
  {
    Filter(books, (b: TextbookRecord) => TextbookMatches(b, search, selectedSubject, selectedLevel))
  }

  /** With an empty search and both drop-downs on `'all'`, every book shows, in order. */
  lemma FilteredTextbooksUnfiltered(books: seq<TextbookRecord>)
    ensures FilteredTextbooks(books, "", "all", "all") == books
  {
    forall b | b in books ensures TextbookMatches(b, "", "all", "all") {
      EmptySearchMatches(b.title);
    }
    FilterKeepsAll(books, (b: TextbookRecord) => TextbookMatches(b, "", "all", "all"));
  }

  function SubjectOf(b: TextbookRecord): string { b.subject }

  function PublisherOf(b: TextbookRecord): string { b.publisher }

  /** `[...new Set(textbooks.map(book => book.subject))]` */
  function Subjects(books: seq<TextbookRecord>): seq<string>
  {
    Distinct(Map(books, SubjectOf))
  }

  /** `[...new Set(textbooks.map(book => book.publisher))].length` */
  function PublisherCount(books: seq<TextbookRecord>): nat
  {
    |Distinct(Map(books, PublisherOf))|
  }

  /**
    * The subject list names each subject of some book exactly once, and the
    * publisher count is the number of different publishers.
    */
  lemma DerivedListsSpec(books: seq<TextbookRecord>)
    ensures NoDuplicates(Subjects(books))
    ensures forall x :: x in Subjects(books) <==> exists b :: b in books && b.subject == x
    ensures PublisherCount(books) == |set b | b in books :: b.publisher|
  {
    DistinctMapSpec(books, SubjectOf);
    var m := Map(books, PublisherOf);
    DistinctCount(m);
    forall p | p in m ensures exists b :: b in books && b.publisher == p {
      var i :| 0 <= i < |m| && m[i] == p;
      assert books[i] in books;
    }
    assert (set p | p in m) == (set b | b in books :: b.publisher);
  }

  /** `prev.filter(book => book.id !== textbookId)` */
  function TextbooksWithout(books: seq<TextbookRecord>, id: int): (r: seq<TextbookRecord>)
    ensures forall b :: b in r <==> b in books && b.id != id
  {
    Filter(books, (b: TextbookRecord) => b.id != id)
  }

  /** Deletion works piecewise, so the remaining books keep their order. */
  lemma TextbooksWithoutAppend(a: seq<TextbookRecord>, b: seq<TextbookRecord>, id: int)
    ensures TextbooksWithout(a + b, id) == TextbooksWithout(a, id) + TextbooksWithout(b, id)
  {
    FilterAppend(a, b, (x: TextbookRecord) => x.id != id);
  }

  /** Deleting a book just added under a new id gives the earlier list back. */
  lemma DeleteAfterAdd(books: seq<TextbookRecord>, added: TextbookRecord)
    requires forall b :: b in books ==> b.id != added.id
    ensures TextbooksWithout([added] + books, added.id) == books
  {
    FilterAppend([added], books, (b: TextbookRecord) => b.id != added.id);
    FilterKeepsAll(books, (b: TextbookRecord) => b.id != added.id);
  }

  class Page {
    var textbooks: seq<TextbookRecord>

    constructor()
      ensures textbooks == InitialTextbooks()
    {
      textbooks := InitialTextbooks();
    }

    /** `handleTextbookAdded`: the new book goes first. */
    method HandleTextbookAdded(added: TextbookRecord)
      modifies this
      ensures textbooks == [added] + old(textbooks)
    {
      textbooks := [added] + textbooks;
    }

    /** `handleDeleteTextbook` */
    method HandleDeleteTextbook(id: int)
      modifies this
      ensures textbooks == TextbooksWithout(old(textbooks), id)
    {
      textbooks := TextbooksWithout(textbooks, id);
    }
  }
}
