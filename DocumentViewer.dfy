/** The document viewer (`DocumentViewer.tsx`): how a document's declared
    type and URL choose a label, a file name and a display URL, and the
    viewer's own state (load error, fullscreen overlay, share dialog). */
module DocumentViewer {
  import opened Wrappers
  import opened Text
  import opened UriComponent

  /** Display-URL templates of the two third-party viewers; the file URL is
      appended, percent-encoded. */
  const PdfJsViewer := "https://mozilla.github.io" + "/pdf.js/web/viewer.html?file="
  const OfficeViewer := "https://view.officeapps.live.com" + "/op/embed.aspx?src="

  /** `getFileName(url)`: the text after the last `/`. The result is the
      longest `/`-free suffix of the URL: it is a suffix, holds no `/`, and is
      either the whole URL or preceded by a `/`. */
  function GetFileName(url: string): (r: string)
    ensures url == "" ==> r == ""
    ensures '/' !in r
    ensures |r| <= |url| && url[|url| - |r|..] == r
    ensures |r| < |url| ==> url[|url| - |r| - 1] == '/'
    ensures '/' !in url <==> r == url
  {
    if url == "" then ""
    else
      var parts := Split(url, '/');
      LastPartIsSuffix(url, '/');
      parts[|parts| - 1]
  }

  /** The seven labels `determineFileType` can give. */
  datatype FileKind = Pdf | Word | Excel | PowerPoint | Image | PlainText | Other

  function Label(k: FileKind): string {
    match k
    case Pdf => "PDF"
    case Word => "Word"
    case Excel => "Excel"
    case PowerPoint => "PowerPoint"
    case Image => "Hình ảnh"
    case PlainText => "Văn bản"
    case Other => "Tài liệu"
  }

  /** The seven labels are pairwise different. */
  lemma LabelsDistinct(a: FileKind, b: FileKind)
    ensures Label(a) == Label(b) ==> a == b
  {
  }

  /** The keywords that select each label, and the order in which the labels
      are tried: a table that states `determineFileType` independently of
      its chain of tests. */
  function Keywords(k: FileKind): seq<string> {
    match k
    case Pdf => ["pdf"]
    case Word => ["word", "doc"]
    case Excel => ["excel", "sheet", "xls"]
    case PowerPoint => ["powerpoint", "presentation", "ppt"]
    case Image => ["image", "jpg", "png"]
    case PlainText => ["text", "txt"]
    case Other => []
  }

  const LabelOrder: seq<FileKind> := [Pdf, Word, Excel, PowerPoint, Image, PlainText]

  function Rank(k: FileKind): nat {
    match k
    case Pdf => 0
    case Word => 1
    case Excel => 2
    case PowerPoint => 3
    case Image => 4
    case PlainText => 5
    case Other => 6
  }

  predicate MentionsAny(t: string, words: seq<string>) {
    exists w :: w in words && Contains(t, w)
  }

  /** `determineFileType()`: the first label in `LabelOrder` one of whose
      keywords occurs in the lower-cased type, or `Other` when none does. */
  function DetermineFileType(filetype: string): (k: FileKind)
    ensures k == Other || MentionsAny(ToLower(filetype), Keywords(k))
    ensures forall j :: 0 <= j < |LabelOrder| && j < Rank(k) ==>
              !MentionsAny(ToLower(filetype), Keywords(LabelOrder[j]))
  {
    var t := ToLower(filetype);
    if Contains(t, "pdf") then Pdf
    else if Contains(t, "word") || Contains(t, "doc") then Word
    else if Contains(t, "excel") || Contains(t, "sheet") || Contains(t, "xls") then Excel
    else if Contains(t, "powerpoint") || Contains(t, "presentation") || Contains(t, "ppt") then PowerPoint
    else if Contains(t, "image") || Contains(t, "jpg") || Contains(t, "png") then Image
    else if Contains(t, "text") || Contains(t, "txt") then PlainText
    else Other
  }

  /** A plain substring test for a loopback host anywhere in the URL. */
  predicate IsLoopbackUrl(url: string) {
    Contains(url, "localhost") || Contains(url, "127.0.0.1")
  }

  /** The keywords that send a non-PDF type to the Office viewer. */
  predicate IsOfficeType(t: string) {
    Contains(t, "word") || Contains(t, "doc") || Contains(t, "xls") ||
    Contains(t, "excel") || Contains(t, "ppt") || Contains(t, "powerpoint")
  }

  function PdfJsUrl(fileurl: string): string {
    PdfJsViewer + EncodeUriComponent(fileurl)
  }

  function OfficeEmbedUrl(fileurl: string): string {
    OfficeViewer + EncodeUriComponent(fileurl)
  }

  /** The file URL a display URL hands to one of the two viewers, read back
      from its query parameter; `None` when it is not a viewer URL. */
  function EmbeddedFileUrl(viewerUrl: string): Option<string> {
    if StartsWith(viewerUrl, PdfJsViewer) then DecodeUriComponent(viewerUrl[|PdfJsViewer|..])
    else if StartsWith(viewerUrl, OfficeViewer) then DecodeUriComponent(viewerUrl[|OfficeViewer|..])
    else None
  }

  lemma PdfJsUrlCarriesFile(fileurl: string)
    ensures StartsWith(PdfJsUrl(fileurl), PdfJsViewer)
    ensures EmbeddedFileUrl(PdfJsUrl(fileurl)) == Some(fileurl)
  {
    var r := PdfJsUrl(fileurl);
    assert r[..|PdfJsViewer|] == PdfJsViewer;
    assert r[|PdfJsViewer|..] == EncodeUriComponent(fileurl);
    DecodeEncode(fileurl);
  }

  lemma OfficeEmbedUrlCarriesFile(fileurl: string)
    ensures StartsWith(OfficeEmbedUrl(fileurl), OfficeViewer)
    ensures !StartsWith(OfficeEmbedUrl(fileurl), PdfJsViewer)
    ensures EmbeddedFileUrl(OfficeEmbedUrl(fileurl)) == Some(fileurl)
  {
    var r := OfficeEmbedUrl(fileurl);
    assert r[..|OfficeViewer|] == OfficeViewer;
    assert OfficeViewer[8] == 'v' && PdfJsViewer[8] == 'm';
    assert r[8] == OfficeViewer[8];
    assert r[|OfficeViewer|..] == EncodeUriComponent(fileurl);
    DecodeEncode(fileurl);
  }

  /** `getViewerUrl()`. It is total: every type, the empty one included, gets
      a URL. A PDF goes to the pdf.js viewer when its URL mentions a loopback
      host and is shown as is otherwise; an Office type goes to the Office
      viewer; an image is shown as is; anything else falls back to the Office
      viewer. Whenever a viewer is used, the file URL can be read back from
      the result. */
  function GetViewerUrl(filetype: string, fileurl: string): (r: string)
    ensures var t := ToLower(filetype);
      if Contains(t, "pdf") then
        if IsLoopbackUrl(fileurl) then
          StartsWith(r, PdfJsViewer) && EmbeddedFileUrl(r) == Some(fileurl)
        else r == fileurl
      else if IsOfficeType(t) || !Contains(t, "image") then
        StartsWith(r, OfficeViewer) && EmbeddedFileUrl(r) == Some(fileurl)
      else r == fileurl
  {
    var t := ToLower(filetype);
    if Contains(t, "pdf") then
      if Contains(fileurl, "localhost") || Contains(fileurl, "127.0.0.1") then
        PdfJsUrlCarriesFile(fileurl);
        PdfJsUrl(fileurl)
      else fileurl
    else if Contains(t, "word") || Contains(t, "doc") || Contains(t, "xls") ||
            Contains(t, "excel") || Contains(t, "ppt") || Contains(t, "powerpoint") then
      OfficeEmbedUrlCarriesFile(fileurl);
      OfficeEmbedUrl(fileurl)
    else if Contains(t, "image") then fileurl
    else
      OfficeEmbedUrlCarriesFile(fileurl);
      OfficeEmbedUrl(fileurl)
  }

  /** A display URL built on a viewer is strictly longer than the file URL,
      so it never equals it. */
  lemma ViewerUrlsDifferFromFile(fileurl: string)
    ensures PdfJsUrl(fileurl) != fileurl && OfficeEmbedUrl(fileurl) != fileurl
    ensures PdfJsUrl(fileurl) != OfficeEmbedUrl(fileurl)
  {
    assert |PdfJsUrl(fileurl)| > |fileurl|;
    assert |OfficeEmbedUrl(fileurl)| > |fileurl|;
    OfficeEmbedUrlCarriesFile(fileurl);
    PdfJsUrlCarriesFile(fileurl);
  }

  /** The three branch results spelled out: the pdf.js URL for a PDF on a
      loopback host, the file URL for any other PDF and for a non-Office
      image, and the Office URL for everything else. */
  lemma ViewerUrlBranches(filetype: string, fileurl: string)
    ensures var t, r := ToLower(filetype), GetViewerUrl(filetype, fileurl);
      (Contains(t, "pdf") && IsLoopbackUrl(fileurl) <==> r == PdfJsUrl(fileurl)) &&
      (!Contains(t, "pdf") && (IsOfficeType(t) || !Contains(t, "image")) <==> r == OfficeEmbedUrl(fileurl)) &&
      (((Contains(t, "pdf") && !IsLoopbackUrl(fileurl)) ||
        (!Contains(t, "pdf") && !IsOfficeType(t) && Contains(t, "image"))) <==> r == fileurl)
  {
    ViewerUrlsDifferFromFile(fileurl);
  }

  /** A PDF never goes to the Office viewer, whatever Office keyword its type
      also holds. */
  lemma PdfTakesPriority(filetype: string, fileurl: string)
    requires Contains(ToLower(filetype), "pdf")
    ensures GetViewerUrl(filetype, fileurl) != OfficeEmbedUrl(fileurl)
    ensures GetViewerUrl(filetype, fileurl) in {fileurl, PdfJsUrl(fileurl)}
  {
    ViewerUrlsDifferFromFile(fileurl);
  }

  /** The fallback is the Office viewer: every type that is neither a PDF
      nor an image gets the same URL as a Word document. */
  lemma FallbackMatchesOffice(filetype: string, fileurl: string)
    requires !Contains(ToLower(filetype), "pdf") && !Contains(ToLower(filetype), "image")
    ensures GetViewerUrl(filetype, fileurl) == GetViewerUrl("doc", fileurl)
  {
    assert ToLower("doc") == "doc";
    assert StartsWith("doc", "doc");
    assert 'p' !in "doc";
    if Contains("doc", "pdf") {
      ContainsChars("doc", "pdf", 'p');
    }
  }

  /** Classification looks at the type only through its lower-case form:
      types that differ only in letter case get the same URL and label. */
  lemma CaseInsensitive(filetype1: string, filetype2: string, fileurl: string)
    requires EqualIgnoringCase(filetype1, filetype2)
    ensures GetViewerUrl(filetype1, fileurl) == GetViewerUrl(filetype2, fileurl)
    ensures DetermineFileType(filetype1) == DetermineFileType(filetype2)
  {
    EqualIgnoringCaseLower(filetype1, filetype2);
  }

  /** How the label and the viewer relate: the PDF label goes with the PDF
      branch, a Word label always means the Office viewer, and so do the
      Excel and PowerPoint labels unless the type also says "image". */
  lemma LabelAndViewerAgree(filetype: string, fileurl: string)
    ensures DetermineFileType(filetype) == Pdf <==> Contains(ToLower(filetype), "pdf")
    ensures DetermineFileType(filetype) == Word ==> GetViewerUrl(filetype, fileurl) == OfficeEmbedUrl(fileurl)
    ensures (DetermineFileType(filetype) in {Excel, PowerPoint} && !Contains(ToLower(filetype), "image"))
              ==> GetViewerUrl(filetype, fileurl) == OfficeEmbedUrl(fileurl)
  {
    var t := ToLower(filetype);
    var k := DetermineFileType(filetype);
    if k == Pdf {
      assert MentionsAny(t, Keywords(Pdf));
    }
  }

  // The concrete scenarios below take each string as short literal pieces
  // joined in the requires (`t == kind + "/" + subtype`) rather than as one
  // literal: that keeps the verifier from evaluating the lower-casing and
  // substring functions on the whole literal, which is far more costly.

  /** The PDF branch for a loopback file URL, stated on keyword facts. */
  lemma LoopbackPdfBranch(filetype: string, fileurl: string)
    requires Contains(ToLower(filetype), "pdf") && IsLoopbackUrl(fileurl)
    ensures GetViewerUrl(filetype, fileurl) == PdfJsViewer + EncodeUriComponent(fileurl)
  {
  }

  /** The image branch, stated on keyword facts: an image type that names
      neither a PDF nor an Office format is shown from its own URL. */
  lemma PlainImageBranch(filetype: string, fileurl: string)
    requires Contains(ToLower(filetype), "image")
    requires !Contains(ToLower(filetype), "pdf") && !IsOfficeType(ToLower(filetype))
    ensures GetViewerUrl(filetype, fileurl) == fileurl
  {
  }

  /** Keyword facts about the MIME type `application/pdf`. */
  lemma PdfMimeMentionsPdf(t: string, kind: string, subtype: string)
    requires kind == "application" && subtype == "pdf" && t == kind + "/" + subtype
    ensures Contains(ToLower(t), "pdf")
  {
    LowerOccurrence(t, "pdf", 12);
  }

  /** Facts about the development URL `http://localhost:3000/f.pdf`. */
  lemma LocalUrlIsLoopback(u: string, scheme: string, host: string, port: string, path: string)
    requires scheme == "http" && host == "localhost" && port == "3000" && path == "f.pdf"
    requires u == scheme + "://" + host + ":" + port + "/" + path
    ensures IsLoopbackUrl(u)
  {
    assert OccursAt(u, "localhost", 7);
    ContainsAt(u, "localhost", 7);
  }

  lemma LocalUrlParts(scheme: string, host: string, port: string, path: string)
    requires scheme == "http" && host == "localhost" && port == "3000" && path == "f.pdf"
    ensures AllUnescaped(scheme) && AllUnescaped(host) && AllUnescaped(port) && AllUnescaped(path)
  {
  }

  lemma LocalUrlEncoding(u: string, scheme: string, host: string, port: string, path: string)
    requires scheme == "http" && host == "localhost" && port == "3000" && path == "f.pdf"
    requires u == scheme + "://" + host + ":" + port + "/" + path
    ensures EncodeUriComponent(u) == "http%3A%2F%2Flocalhost%3A3000%2Ff.pdf"
  {
    LocalUrlParts(scheme, host, port, path);
    EncodeHttpUrl(scheme, host, port, path);
  }

  /** The scenario of a PDF served from a development machine: the pdf.js
      viewer receives the encoded file URL. */
  lemma LocalPdfExample(t: string, kind: string, subtype: string,
                        u: string, scheme: string, host: string, port: string, path: string)
    requires kind == "application" && subtype == "pdf" && t == kind + "/" + subtype
    requires scheme == "http" && host == "localhost" && port == "3000" && path == "f.pdf"
    requires u == scheme + "://" + host + ":" + port + "/" + path
    ensures GetViewerUrl(t, u) == PdfJsViewer + "http%3A%2F%2Flocalhost%3A3000%2Ff.pdf"
  {
    PdfMimeMentionsPdf(t, kind, subtype);
    LocalUrlIsLoopback(u, scheme, host, port, path);
    LocalUrlEncoding(u, scheme, host, port, path);
    LoopbackPdfBranch(t, u);
  }

  /** An Excel document goes to the Office viewer. */
  lemma ExcelExample(t: string, kind: string, subtype: string, fileurl: string)
    requires kind == "application" && subtype == "vnd.ms-excel" && t == kind + "/" + subtype
    ensures GetViewerUrl(t, fileurl) == OfficeEmbedUrl(fileurl)
  {
    MissingLetter(t, "pdf", 'f');
    LowerOccurrence(t, "excel", 19);
  }

  /** Keyword facts shared by `image/png` and `image/sheet`: neither names
      a PDF or Office format (each lacks a letter of every such keyword, in
      both cases). */
  lemma ImageNoPdfOrSpreadsheetKeyword(t: string, kind: string, subtype: string)
    requires kind == "image" && (subtype == "png" || subtype == "sheet") && t == kind + "/" + subtype
    ensures !Contains(ToLower(t), "pdf") && !Contains(ToLower(t), "xls") && !Contains(ToLower(t), "excel")
  {
    MissingLetter(t, "pdf", 'f');
    MissingLetter(t, "xls", 'x');
    MissingLetter(t, "excel", 'x');
  }

  lemma ImageNoWordKeyword(t: string, kind: string, subtype: string)
    requires kind == "image" && (subtype == "png" || subtype == "sheet") && t == kind + "/" + subtype
    ensures !Contains(ToLower(t), "word") && !Contains(ToLower(t), "doc")
  {
    MissingLetter(t, "word", 'w');
    MissingLetter(t, "doc", 'd');
  }

  lemma ImageNoSlidesKeyword(t: string, kind: string, subtype: string)
    requires kind == "image" && (subtype == "png" || subtype == "sheet") && t == kind + "/" + subtype
    ensures !Contains(ToLower(t), "ppt") && !Contains(ToLower(t), "powerpoint")
  {
    if subtype == "png" {
      MissingLetter(t, "ppt", 't');
    } else {
      MissingLetter(t, "ppt", 'p');
    }
    MissingLetter(t, "powerpoint", 'w');
  }

  /** `image/png` says "image". */
  lemma PngMentionsImage(t: string, kind: string, subtype: string)
    requires kind == "image" && subtype == "png" && t == kind + "/" + subtype
    ensures Contains(ToLower(t), "image")
  {
    LowerOccurrence(t, "image", 0);
  }

  /** A PNG image is shown directly from its own URL. */
  lemma PngExample(t: string, kind: string, subtype: string, fileurl: string)
    requires kind == "image" && subtype == "png" && t == kind + "/" + subtype
    ensures GetViewerUrl(t, fileurl) == fileurl
  {
    PngMentionsImage(t, kind, subtype);
    ImageNoPdfOrSpreadsheetKeyword(t, kind, subtype);
    ImageNoWordKeyword(t, kind, subtype);
    ImageNoSlidesKeyword(t, kind, subtype);
    PlainImageBranch(t, fileurl);
  }

  /** `image/sheet` says both "image" and "sheet". */
  lemma SheetImageKeywords(t: string, kind: string, subtype: string)
    requires kind == "image" && subtype == "sheet" && t == kind + "/" + subtype
    ensures Contains(ToLower(t), "image") && Contains(ToLower(t), "sheet")
  {
    LowerOccurrence(t, "image", 0);
    LowerOccurrence(t, "sheet", 6);
  }

  /** A type with both "image" and "sheet" is labelled a spreadsheet but
      shown directly as an image: label and viewer use different keywords. */
  lemma LabelViewerMismatch(t: string, kind: string, subtype: string, fileurl: string)
    requires kind == "image" && subtype == "sheet" && t == kind + "/" + subtype
    ensures DetermineFileType(t) == Excel
    ensures GetViewerUrl(t, fileurl) == fileurl
  {
    SheetImageKeywords(t, kind, subtype);
    ImageNoPdfOrSpreadsheetKeyword(t, kind, subtype);
    ImageNoWordKeyword(t, kind, subtype);
    ImageNoSlidesKeyword(t, kind, subtype);
    PlainImageBranch(t, fileurl);
  }

  /** Unrecognised types, the empty one included, fall back to the Office
      viewer. */
  lemma UnknownTypeExamples(e: string, t: string, kind: string, subtype: string, fileurl: string)
    requires e == "" && kind == "video" && subtype == "mp4" && t == kind + "/" + subtype
    ensures GetViewerUrl(e, fileurl) == OfficeEmbedUrl(fileurl)
    ensures GetViewerUrl(t, fileurl) == OfficeEmbedUrl(fileurl)
  {
    MissingLetter(e, "pdf", 'f');
    MissingLetter(e, "image", 'i');
    MissingLetter(t, "pdf", 'f');
    MissingLetter(t, "image", 'a');
  }

  /** Messages the load-error handlers store; the error panel shows them. */
  const ImageLoadError := "Không thể tải hình ảnh. Vui lòng tải xuống để xem."
  const DocumentLoadError := "Không thể tải tài liệu. Vui lòng tải xuống để xem."

  /** What `renderDocumentContent` puts in the content area. */
  datatype Surface =
    | ErrorPanel(message: string)
    | ImageElement(src: string)
    | InlineFrame(src: string)

  /** The viewer of one document: the state `useDocumentViewer` keeps. */
  class Viewer {
    const filetype: string
    const fileurl: string
    var error: Option<string>
    var showFullscreen: bool
    var showShareDialog: bool

    constructor (filetype: string, fileurl: string)
      ensures this.filetype == filetype && this.fileurl == fileurl
      ensures error == None && !showFullscreen && !showShareDialog
    {
      this.filetype := filetype;
      this.fileurl := fileurl;
      error := None;
      showFullscreen := false;
      showShareDialog := false;
    }

    /** Header subtitle parts and the URL every surface loads. */
    function FileName(): string { GetFileName(fileurl) }
    function FileTypeLabel(): string { Label(DetermineFileType(filetype)) }
    function ViewerUrl(): string { GetViewerUrl(filetype, fileurl) }

    /** `renderDocumentContent()`: once an error is recorded the error panel
        replaces the content whatever the type; otherwise an image element
        exactly when the lower-cased type says "image", else an inline frame,
        both loading the display URL. */
    function Content(): (s: Surface)
      reads this
      ensures error.Some? ==> s == ErrorPanel(error.value)
      ensures error.None? ==> !s.ErrorPanel? && s.src == ViewerUrl()
      ensures error.None? ==> (s.ImageElement? <==> Contains(ToLower(filetype), "image"))
    {
      if error.Some? then ErrorPanel(error.value)
      else if Contains(ToLower(filetype), "image") then ImageElement(ViewerUrl())
      else InlineFrame(ViewerUrl())
    }

    /** The fullscreen overlay: present only while `showFullscreen` holds,
        and always a frame on the same display URL as the inline content. */
    function Overlay(): (o: Option<string>)
      reads this
      ensures o.Some? <==> showFullscreen
      ensures o.Some? ==> o.value == ViewerUrl()
    {
      if showFullscreen then Some(ViewerUrl()) else None
    }

    /** The image element's load-error handler; it can fire only while that
        element is on screen. */
    method ImageLoadFailed()
      requires Content().ImageElement?
      modifies this`error
      ensures error == Some(ImageLoadError)
      ensures Content() == ErrorPanel(ImageLoadError)
    {
      error := Some(ImageLoadError);
    }

    /** The inline frame's load-error handler; it can fire only while that
        frame is on screen. The fullscreen frame has no handler. */
    method FrameLoadFailed()
      requires Content().InlineFrame?
      modifies this`error
      ensures error == Some(DocumentLoadError)
      ensures Content() == ErrorPanel(DocumentLoadError)
    {
      error := Some(DocumentLoadError);
    }

    /** The "fullscreen" button (`on`) and the overlay's close button (`!on`):
        the inline content, error panel included, is left as it was. */
    method SetFullscreen(on: bool)
      modifies this`showFullscreen
      ensures showFullscreen == on
      ensures error == old(error) && Content() == old(Content())
      ensures Overlay() == if on then Some(ViewerUrl()) else None
    {
      showFullscreen := on;
    }

    /** The share button and the share dialog's open/close callback. */
    method SetShareDialog(open: bool)
      modifies this`showShareDialog
      ensures showShareDialog == open
      ensures Content() == old(Content()) && Overlay() == old(Overlay())
    {
      showShareDialog := open;
    }
  }

  /** A failed image followed by fullscreen on and off: the error panel stays,
      and the overlay showed the same display URL meanwhile. */
  method ViewerScenario(fileurl: string)
  {
    var kind, subtype := "image", "png";
    var png := kind + "/" + subtype;
    var v := new Viewer(png, fileurl);
    PngExample(png, kind, subtype, fileurl);
    assert v.Content() == ImageElement(fileurl);
    v.ImageLoadFailed();
    v.SetFullscreen(true);
    assert v.Overlay() == Some(fileurl);
    assert v.Content() == ErrorPanel(ImageLoadError);
    v.SetFullscreen(false);
    assert v.error == Some(ImageLoadError) && v.Overlay() == None;
  }
}
