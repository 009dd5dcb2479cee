/**
  * The "Media Library" page: the media list, its search and drop-down
  * filters, the video count and view total, and the items an upload hands
  * over.
  */
module MediaPage {
  import opened Optional
  import opened Strings
  import opened Seqs
  import opened UploadMediaDialog

  function InitialMediaItems(): seq<MediaRecord>
  {
    [ MediaRecord(1, "Calculus Introduction Video", Video, "MP4", "Sarah Johnson", "Mathematics", "A-Level", None,
        2450, "published", "/video-thumb-1.jpg", Duration("15:30")),
      MediaRecord(2, "Organic Chemistry Diagram", Image, "PNG", "Mike Chen", "Chemistry", "O-Level", None,
        890, "published", "/image-thumb-1.jpg", Dimensions("1920x1080")),
      MediaRecord(3, "Physics Formulas Reference", Pdf, "PDF", "Lisa Williams", "Physics", "A-Level", None,
        1560, "published", "/pdf-thumb-1.jpg", Pages(Some(24))),
      MediaRecord(4, "Shakespeare Analysis Video", Video, "MP4", "David Brown", "English", "O-Level", None,
        0, "draft", "/video-thumb-2.jpg", Duration("22:15")),
      MediaRecord(5, "Biology Cell Structure", Image, "JPG", "Emma Wilson", "Biology", "O-Level", None,
        1200, "published", "/image-thumb-2.jpg", Dimensions("2048x1536")),
      MediaRecord(6, "History Timeline Document", Pdf, "PDF", "John Smith", "History", "A-Level", None,
        780, "review", "/pdf-thumb-2.jpg", Pages(Some(36))) ]
  }

  /** The `type` text of an item, as the type drop-down lists it. */
  function TypeName(t: MediaType): string
  {
    match t
    case Video => "video"
    case Image => "image"
    case Pdf => "pdf"
  }

  predicate MediaMatches(item: MediaRecord, search: string, selectedType: string, selectedStatus: string)
  {
    (MatchesSearch(item.name, search) || MatchesSearch(item.subject, search)) &&
    Selects(selectedType, TypeName(item.mediaType)) && Selects(selectedStatus, item.status)
  }

  /** `filteredMedia` */
  function FilteredMedia(items: seq<MediaRecord>, search: string, selectedType: string, selectedStatus: string): (r: seq<MediaRecord>)
    ensures forall m :: m in r <==>
      m in items &&
      (MatchesSearch(m.name, search) || MatchesSearch(m.subject, search)) &&
      (selectedType == "all" || TypeName(m.mediaType) == selectedType) &&
      (selectedStatus == "all" || m.status == selectedStatus)
  {
    Filter(items, (m: MediaRecord) => MediaMatches(m, search, selectedType, selectedStatus))
  }

  /** With an empty search and both drop-downs on `'all'`, every item shows, in order. */
  lemma FilteredMediaUnfiltered(items: seq<MediaRecord>)
    ensures FilteredMedia(items, "", "all", "all") == items
  {
    forall m | m in items ensures MediaMatches(m, "", "all", "all") {
      EmptySearchMatches(m.name);
    }
    FilterKeepsAll(items, (m: MediaRecord) => MediaMatches(m, "", "all", "all"));
  }

  predicate IsVideo(m: MediaRecord) { m.mediaType == Video }

  function ViewsOf(m: MediaRecord): int { m.views }

  /** `mediaItems.filter(item => item.type === 'video').length` */
  function VideoCount(items: seq<MediaRecord>): nat
  {
    CountWhere(items, IsVideo)
  }

  /** `mediaItems.reduce((acc, item) => acc + item.views, 0)` */
  function TotalViews(items: seq<MediaRecord>): int
  {
    SumOf(items, ViewsOf)
  }

  /**
    * Adding an item in front counts it once when it is a video and adds its
    * views to the total; the video count never exceeds the list.
    */
  lemma TotalsAfterAdd(added: MediaRecord, items: seq<MediaRecord>)
    ensures VideoCount([added] + items) == (if added.mediaType == Video then 1 else 0) + VideoCount(items)
    ensures TotalViews([added] + items) == added.views + TotalViews(items)
    ensures VideoCount(items) <= |items|
  {
    CountWherePrepend(added, items, IsVideo);
    SumOfPrepend(added, items, ViewsOf);
  }

  /** Uploaded items start with no views, so an upload leaves the view total as it was. */
  lemma UploadKeepsViews(files: seq<FileInfo>, form: MediaForm, now: int, items: seq<MediaRecord>)
    ensures TotalViews(Reversed(MediaItems(files, form, now)) + items) == TotalViews(items)
  {
    var added := Reversed(MediaItems(files, form, now));
    MediaItemsSpec(files, form, now);
    SumOfAppend(added, items, ViewsOf);
    SumOfZero(added, ViewsOf);
  }

  class Page {
    var mediaItems: seq<MediaRecord>

    constructor()
      ensures mediaItems == InitialMediaItems()
    {
      mediaItems := InitialMediaItems();
    }

    /** `handleMediaUploaded`: the new item goes first. */
    method HandleMediaUploaded(added: MediaRecord)
      modifies this
      ensures mediaItems == [added] + old(mediaItems)
    {
      mediaItems := [added] + mediaItems;
    }

    /**
      * The upload's `forEach` handing over each new item in turn: each goes
      * first, so they end up in front in reverse order.
      */
    method HandleMediaUploads(uploaded: seq<MediaRecord>)
      modifies this
      ensures mediaItems == Reversed(uploaded) + old(mediaItems)
    {
      var i := 0;
      while i < |uploaded|
        invariant 0 <= i <= |uploaded|
        invariant mediaItems == Reversed(uploaded[..i]) + old(mediaItems)
      {
        assert uploaded[..i + 1][..i] == uploaded[..i];
        HandleMediaUploaded(uploaded[i]);
        i := i + 1;
      }
      assert uploaded[..i] == uploaded;
    }
  }
}
