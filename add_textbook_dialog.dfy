/**
  * The "Add Textbook" dialog: the author list, the year choices and the
  * submitted textbook.
  */
module AddTextbookDialog {
  import opened Optional
  import opened Strings
  import opened Seqs

  /** The form fields; the cover image is kept by name, `None` when none is chosen. */
  datatype FormData = FormData(
    title: string,
    authors: seq<string>,
    publisher: string,
    edition: string,
    year: int,
    isbn: string,
    subject: string,
    level: string,
    examBoard: string,
    description: string,
    coverImage: Option<string>)

  /** The form `resetForm` restores; `year` is the current year. */
  function InitialForm(year: int): FormData
  {
    FormData("", [], "", "", year, "", "", "", "", "", None)
  }

  /** The record handed to `onTextbookAdded`; `addedDate` (a clock reading) is left out. */
  datatype TextbookRecord = TextbookRecord(
    id: int,
    title: string,
    authors: seq<string>,
    publisher: string,
    edition: string,
    year: int,
    isbn: string,
    subject: string,
    level: string,
    examBoard: string,
    description: string,
    coverImage: string)

  const DefaultCover := "/textbook-covers/default.jpg"

  /**
    * The submitted textbook; `objectUrl` stands for the address
    * `URL.createObjectURL` gives the chosen cover, used only when there is one.
    */
  function Submitted(now: int, form: FormData, objectUrl: string): (r: TextbookRecord)
    ensures r.id == now && r.title == form.title && r.authors == form.authors
    ensures r.coverImage == if form.coverImage.Some? then objectUrl else DefaultCover
  {
    TextbookRecord(now, form.title, form.authors, form.publisher, form.edition, form.year, form.isbn,
      form.subject, form.level, form.examBoard, form.description,
      if form.coverImage.Some? then objectUrl else DefaultCover)
  }

  /** `years`: the current year and the 49 before it. */
  function Years(currentYear: int): seq<int>
  {
    seq(50, i requires 0 <= i < 50 => currentYear - i)
  }

  /** Fifty years, starting at the current one and strictly descending, so none repeats. */
  lemma YearsSpec(currentYear: int)
    ensures var ys := Years(currentYear);
      |ys| == 50 && ys[0] == currentYear && ys[49] == currentYear - 49 &&
      StrictlyDescending(ys) && NoDuplicates(ys)
  {
  }

  /** The submit button is enabled only with title, publisher, an author, subject, level and board. */
  predicate CanSubmit(form: FormData)
  {
    form.title != "" && form.publisher != "" && |form.authors| > 0 &&
    form.subject != "" && form.level != "" && form.examBoard != ""
  }

  /** A fresh form cannot be submitted; a submitted book always names an author. */
  lemma SubmitGuard(year: int, form: FormData, now: int, objectUrl: string)
    ensures !CanSubmit(InitialForm(year))
    ensures CanSubmit(form) ==> |Submitted(now, form, objectUrl).authors| > 0
  {
  }

  class Dialog {
    var open: bool
    var formData: FormData
    var currentAuthor: string

    predicate IsReset(year: int)
      reads this
    {
      formData == InitialForm(year) && currentAuthor == ""
    }

    constructor(year: int)
      ensures IsReset(year) && !open
    {
      open := false;
      formData := InitialForm(year);
      currentAuthor := "";
    }

    /** `addAuthor()` */
    method AddAuthor()
      modifies this
      ensures (formData.authors, currentAuthor) == AddTrimmedUnique(old(formData.authors), old(currentAuthor))
      ensures formData == old(formData).(authors := formData.authors)
      ensures NoDuplicates(old(formData.authors)) && AllTrimmedNonEmpty(old(formData.authors)) ==>
        NoDuplicates(formData.authors) && AllTrimmedNonEmpty(formData.authors)
      ensures open == old(open)
    {
      if NoDuplicates(formData.authors) && AllTrimmedNonEmpty(formData.authors) {
        AddTrimmedUniqueKeepsInvariant(formData.authors, currentAuthor);
      }
      var (authors, input) := AddTrimmedUnique(formData.authors, currentAuthor);
      formData := formData.(authors := authors);
      currentAuthor := input;
    }

    /** `removeAuthor(author)`: every copy of the author goes. */
    method RemoveAuthor(author: string)
      modifies this
      ensures formData == old(formData).(authors := RemoveAll(old(formData.authors), author))
      ensures currentAuthor == old(currentAuthor) && open == old(open)
    {
      formData := formData.(authors := RemoveAll(formData.authors, author));
    }

    /** `handleSubmit`: emits the textbook, resets the form and closes the dialog. */
    method HandleSubmit(now: int, objectUrl: string, year: int) returns (record: TextbookRecord)
      modifies this
      ensures record == Submitted(now, old(formData), objectUrl)
      ensures IsReset(year) && !open
    {
      record := Submitted(now, formData, objectUrl);
      ResetForm(year);
      open := false;
    }

    /** `resetForm()`, with `year` the current year. */
    method ResetForm(year: int)
      modifies this
      ensures IsReset(year) && open == old(open)
    {
      formData := InitialForm(year);
      currentAuthor := "";
    }
  }
}
