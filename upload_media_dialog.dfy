/**
  * The "Upload Media" dialog: the list of chosen files, the media type read
  * from a file's MIME type, the format read from its name, and the records
  * the upload produces.
  */
module UploadMediaDialog {
  import opened Optional
  import opened Strings
  import opened Seqs

  /** A chosen file: its name, its MIME type and its size in bytes. */
  datatype FileInfo = FileInfo(name: string, mimeType: string, size: int)

  datatype MediaType = Video | Image | Pdf

  /** `getFileType(file)` */
  function GetFileType(mimeType: string): (r: MediaType)
    ensures r == Video <==> StartsWith(mimeType, "video/")
    ensures r == Image <==> !StartsWith(mimeType, "video/") && StartsWith(mimeType, "image/")
    ensures r == Pdf <==> !StartsWith(mimeType, "video/") && !StartsWith(mimeType, "image/")
  {
    if StartsWith(mimeType, "video/") then Video
    else if StartsWith(mimeType, "image/") then Image
    else Pdf
  }

  /** The index of the last '.' in `s`, or -1 when there is none. */
  function LastDot(s: string): (k: int)
    ensures -1 <= k < |s|
    ensures k >= 0 ==> s[k] == '.'
    ensures forall i :: k < i < |s| ==> s[i] != '.'
  {
    if s == [] then -1
    else if s[|s| - 1] == '.' then |s| - 1
    else LastDot(s[..|s| - 1])
  }

  /** `name.split('.').pop()`: the text after the last '.', or the whole name when it has none. */
  function Extension(name: string): (r: string)
    ensures '.' !in r
    ensures |r| <= |name| && r == name[|name| - |r|..]
    ensures |r| < |name| ==> name[|name| - |r| - 1] == '.'
  {
    name[LastDot(name) + 1..]
  }

  /** `format`: the extension upper-cased, or "UNKNOWN" when it is empty. */
  function Format(name: string): (r: string)
    ensures r != ""
    ensures Extension(name) == "" ==> r == "UNKNOWN"
    ensures Extension(name) != "" ==> r == Upper(Extension(name))
  {
    var ext := Extension(name);
    if ext == "" then "UNKNOWN" else Upper(ext)
  }

  /** A name without a dot is its own extension; a name ending in a dot has none. */
  lemma FormatCases(name: string)
    ensures '.' !in name && name != "" ==> Format(name) == Upper(name)
    ensures name != [] && name[|name| - 1] == '.' ==> Format(name) == "UNKNOWN"
  {
    if '.' !in name {
      assert LastDot(name) == -1;
    }
  }

  /**
    * What a media record adds for its type. An upload draws a PDF's page
    * count at random; that draw is left out and reads as `None`.
    */
  datatype Extra = Duration(duration: string) | Dimensions(dimensions: string) | Pages(pages: Option<int>)

  function ExtraFor(t: MediaType): Extra
  {
    match t
    case Video => Duration("00:00")
    case Image => Dimensions("1920x1080")
    case Pdf => Pages(None)
  }

  datatype MediaForm = MediaForm(subject: string, level: string, examBoard: string, description: string)

  const EmptyForm := MediaForm("", "", "", "")

  /** One media item; an upload sets every field but the size text and the date, which are left out. */
  datatype MediaRecord = MediaRecord(
    id: int,
    name: string,
    mediaType: MediaType,
    format: string,
    uploadedBy: string,
    subject: string,
    level: string,
    examBoard: Option<string>,   // the media page's seed items have none
    views: int,
    status: string,
    thumbnail: string,
    extra: Extra)

  function MediaRecordFor(file: FileInfo, form: MediaForm, id: int): (r: MediaRecord)
    ensures r.id == id && r.name == file.name && r.mediaType == GetFileType(file.mimeType)
    ensures r.format == Format(file.name) && r.status == "published" && r.views == 0
    ensures r.subject == form.subject && r.level == form.level && r.examBoard == Some(form.examBoard)
  {
    var t := GetFileType(file.mimeType);
    MediaRecord(id, file.name, t, Format(file.name), "Admin User", form.subject, form.level, Some(form.examBoard),
      0, "published", "/placeholder-thumb.jpg", ExtraFor(t))
  }

  /** `files.map((file, index) => ...)`, with `now` standing for `Date.now()`. */
  function MediaItems(files: seq<FileInfo>, form: MediaForm, now: int): (r: seq<MediaRecord>)
    ensures |r| == |files|
  {
    seq(|files|, i requires 0 <= i < |files| => MediaRecordFor(files[i], form, now + i))
  }

  /**
    * One record per file, in order, carrying that file's name, type and
    * format and the form's subject, level and board, published with no
    * views; the ids `now + index` never repeat within one upload.
    */
  lemma MediaItemsSpec(files: seq<FileInfo>, form: MediaForm, now: int)
    ensures forall i :: 0 <= i < |files| ==> MediaItems(files, form, now)[i].id == now + i
    ensures forall i :: 0 <= i < |files| ==> MediaItems(files, form, now)[i].name == files[i].name
    ensures forall i :: 0 <= i < |files| ==> MediaItems(files, form, now)[i].mediaType == GetFileType(files[i].mimeType)
    ensures forall i :: 0 <= i < |files| ==> MediaItems(files, form, now)[i].format == Format(files[i].name)
    ensures forall i :: 0 <= i < |files| ==> MediaItems(files, form, now)[i].status == "published"
    ensures forall i :: 0 <= i < |files| ==> MediaItems(files, form, now)[i].views == 0
    ensures forall i :: 0 <= i < |files| ==> MediaItems(files, form, now)[i].subject == form.subject
    ensures forall i :: 0 <= i < |files| ==> MediaItems(files, form, now)[i].level == form.level
    ensures forall i :: 0 <= i < |files| ==> MediaItems(files, form, now)[i].examBoard == Some(form.examBoard)
    ensures forall i, j :: 0 <= i < j < |files| ==> MediaItems(files, form, now)[i].id != MediaItems(files, form, now)[j].id
  {
    var r := MediaItems(files, form, now);
    forall i | 0 <= i < |files|
      ensures r[i] == MediaRecordFor(files[i], form, now + i)
    {
    }
  }

  class Dialog {
    var open: bool
    var uploading: bool
    var uploadProgress: int
    var files: seq<FileInfo>
    var formData: MediaForm

    constructor()
      ensures !open && !uploading && uploadProgress == 0 && files == [] && formData == EmptyForm
    {
      open := false;
      uploading := false;
      uploadProgress := 0;
      files := [];
      formData := EmptyForm;
    }

    /** `handleFileSelect`: the new files go after the ones already chosen, in order. */
    method HandleFileSelect(selected: seq<FileInfo>)
      modifies this
      ensures files == old(files) + selected
      ensures formData == old(formData) && open == old(open)
      ensures uploading == old(uploading) && uploadProgress == old(uploadProgress)
    {
      files := files + selected;
    }

    /** `removeFile(index)`: exactly the file at `index` goes. */
    method RemoveFile(index: int)
      modifies this
      ensures files == RemoveAt(old(files), index)
      ensures formData == old(formData) && open == old(open)
      ensures uploading == old(uploading) && uploadProgress == old(uploadProgress)
    {
      files := RemoveAt(files, index);
    }

    /**
      * `handleSubmit` with the end of `simulateUpload`: with no file nothing
      * happens; otherwise one record per file is produced and the dialog is
      * cleared and closed.
      */
    method HandleSubmit(now: int) returns (items: seq<MediaRecord>)
      modifies this
      ensures old(files) == [] ==>
        items == [] && files == old(files) && formData == old(formData) && open == old(open) &&
        uploading == old(uploading) && uploadProgress == old(uploadProgress)
      ensures old(files) != [] ==>
        items == MediaItems(old(files), old(formData), now) &&
        files == [] && formData == EmptyForm && !open && !uploading && uploadProgress == 0
    {
      if files == [] {
        items := [];
        return;
      }
      items := MediaItems(files, formData, now);
      uploading := false;
      uploadProgress := 0;
      files := [];
      formData := EmptyForm;
      open := false;
    }
  }
}
