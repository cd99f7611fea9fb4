# DocShare document viewer and save button in Dafny

This project models two client components of DocShare, a document-sharing web
application.

- **DocumentViewer.** It shows one document. The declared `filetype` picks a
  display label, and `filetype` plus `fileurl` pick the display URL. The
  display URL is one of three things:
  - the pdf.js web viewer, used for a PDF whose URL mentions a loopback host;
  - the file URL itself;
  - the Office Online embed viewer, which is also the fallback.

  The viewer keeps three pieces of state: a load `error`, the fullscreen
  overlay flag and the share-dialog flag. The content area shows an error
  panel once an error is recorded. Otherwise it shows an image element for
  image types and an inline frame for everything else.
- **SaveDocumentButton.** It bookmarks a document into the user's account.
  Clicking an unsaved document opens a folder dialog. Clicking a saved one
  removes it. Confirming the dialog saves the document. The folder picked is
  checked against the textual UUID layout, but the result of that check is
  never sent to the service.

Files:

- `Wrappers.dfy`: `Option`.
- `Text.dfy`: the string operations the components use.
  - `toLowerCase`, `includes` and `split`.
  - Lemmas that establish substring facts: an occurrence at an index proves
    `includes`; a letter missing in both cases disproves it.
- `UriComponent.dfy`: `encodeURIComponent`, written out.
  - Each character outside `A-Z a-z 0-9 - _ . ! ~ * ' ( )` is UTF-8 encoded.
  - Each of its bytes is written as `%XX` with upper-case hex digits.
  - A decoder is the partner, with the round trip proved.
- `DocumentViewer.dfy`: `getFileName`, `determineFileType`, `getViewerUrl`, the
  `Viewer` class and concrete scenarios.
- `SaveDocumentButton.dfy`: the folder-id check and the `SaveButton` class.

Modelling choices:

- Handlers are atomic. Each handler of `SaveButton` is one step, and the
  saved-document service's answers are parameters: success or failure, and
  the value returned.
- Calls are logged. Every service call is appended to the ghost field
  `calls` with exactly the arguments the component passes. Every value
  written to `loading` is appended to the ghost field `loadingWrites`. The
  compiled state is exactly the component's own: `saved`, `loading`,
  `showDialog`, `folders` and `selectedFolder`.
- Both recovery actions of the error panel open `fileurl` itself
  (DocumentViewer.tsx:26, 31), not the display URL; both are outside the
  model (see "Left out").

## Model

| member | source | states |
|---|---|---|
| `Text.ToLower` | DocShare/src/components/documents/DocumentViewer.tsx:45 | Lower-casing keeps the length and maps each character on its own, A-Z to a-z, all else unchanged |
| `Text.EqualIgnoringCaseLower` | DocShare/src/components/documents/DocumentViewer.tsx:59 | Two types that differ only in letter case have the same lower-case form |
| `Text.ContainsIff` | DocShare/src/components/documents/DocumentViewer.tsx:46 | `includes` holds exactly when the keyword occurs at some index |
| `Text.Split` | DocShare/src/components/documents/DocumentViewer.tsx:37 | `split('/')` gives at least one part, no part holds the separator, joining the parts gives back the URL, and there is one part exactly when the URL has no separator |
| `Text.LastPartIsSuffix` | DocShare/src/components/documents/DocumentViewer.tsx:38 | The last part is a suffix of the URL; it is the whole URL exactly when there is no separator, and otherwise the character before it is the separator |
| `UriComponent.EncodeUriComponent` | DocShare/src/components/documents/DocumentViewer.tsx:64 | The encoding holds only characters `encodeURIComponent` leaves alone and `%`, and is never shorter than its input |
| `UriComponent.HexRoundTrip` | DocShare/src/components/documents/DocumentViewer.tsx:64 | Each hex digit written in an escape reads back as its value |
| `UriComponent.Utf8` | DocShare/src/components/documents/DocumentViewer.tsx:64 | A character is escaped as one to four UTF-8 bytes |
| `UriComponent.PercentBytes` | DocShare/src/components/documents/DocumentViewer.tsx:64 | Each byte becomes three characters, `%` and two hex digits |
| `UriComponent.EncodeAppend` | DocShare/src/components/documents/DocumentViewer.tsx:64 | Encoding a concatenation is the concatenation of the encodings |
| `UriComponent.EncodeUnescaped` | DocShare/src/components/documents/DocumentViewer.tsx:64 | A string made only of characters left alone is encoded as itself |
| `UriComponent.EncodeDelimiters` | DocShare/src/components/documents/DocumentViewer.tsx:64 | `://`, `:` and `/` are encoded as `%3A%2F%2F`, `%3A` and `%2F` |
| `UriComponent.EncodeHttpUrl` | DocShare/src/components/documents/DocumentViewer.tsx:63-64 | A URL `scheme://host:port/path` whose pieces need no escaping is encoded by escaping just its delimiters |
| `UriComponent.Utf8RoundTrip` | DocShare/src/components/documents/DocumentViewer.tsx:64 | UTF-8 decoding undoes the encoding of every string |
| `UriComponent.PercentRoundTrip` | DocShare/src/components/documents/DocumentViewer.tsx:64 | Reading the escapes back gives the UTF-8 bytes of the original string |
| `UriComponent.DecodeEncode` | DocShare/src/components/documents/DocumentViewer.tsx:64 | Decoding undoes `encodeURIComponent` on every string |
| `UriComponent.EncodeInjective` | DocShare/src/components/documents/DocumentViewer.tsx:64 | Different file URLs never share an encoding |
| `DocumentViewer.GetFileName` | DocShare/src/components/documents/DocumentViewer.tsx:35-39 | The empty URL gives the empty name; otherwise the name is the longest `/`-free suffix: it is a suffix, holds no `/`, is the whole URL exactly when the URL has no `/`, and is otherwise preceded by `/` |
| `DocumentViewer.LabelsDistinct` | DocShare/src/components/documents/DocumentViewer.tsx:46-52 | The seven display labels are pairwise different, so the label names the kind |
| `DocumentViewer.DetermineFileType` | DocShare/src/components/documents/DocumentViewer.tsx:44-53 | The label is the first in the order PDF, Word, Excel, PowerPoint, image, text one of whose keywords occurs in the lower-cased type, and the default label when none occurs |
| `DocumentViewer.PdfJsUrlCarriesFile` | DocShare/src/components/documents/DocumentViewer.tsx:64 | The pdf.js URL starts with the viewer prefix, and the file URL can be read back from it |
| `DocumentViewer.OfficeEmbedUrlCarriesFile` | DocShare/src/components/documents/DocumentViewer.tsx:72 | The Office URL starts with the Office prefix and not with the pdf.js prefix, and the file URL can be read back from it |
| `DocumentViewer.GetViewerUrl` | DocShare/src/components/documents/DocumentViewer.tsx:58-80 | Total over every type and URL. A PDF on a loopback URL gets the pdf.js viewer carrying the file URL. Any other PDF gets the file URL. An Office type, or any type without "image", gets the Office viewer carrying the file URL. A remaining image gets the file URL |
| `DocumentViewer.ViewerUrlsDifferFromFile` | DocShare/src/components/documents/DocumentViewer.tsx:64-78 | The two viewer URLs differ from each other and from the file URL |
| `DocumentViewer.ViewerUrlBranches` | DocShare/src/components/documents/DocumentViewer.tsx:58-80 | Each of the three results occurs exactly under its condition (both directions): pdf.js, Office viewer, or the file URL unchanged |
| `DocumentViewer.PdfTakesPriority` | DocShare/src/components/documents/DocumentViewer.tsx:61-72 | A type mentioning "pdf" never gets the Office URL, whatever Office keyword it also holds |
| `DocumentViewer.FallbackMatchesOffice` | DocShare/src/components/documents/DocumentViewer.tsx:68-79 | A type that is neither PDF nor image gets the same URL as a Word document |
| `DocumentViewer.CaseInsensitive` | DocShare/src/components/documents/DocumentViewer.tsx:44-59 | Types equal up to letter case get the same URL and the same label |
| `DocumentViewer.LabelAndViewerAgree` | DocShare/src/components/documents/DocumentViewer.tsx:44-80 | The PDF label goes exactly with the PDF branch. A Word label always means the Office viewer. Excel and PowerPoint labels mean it too unless the type also says "image" |
| `DocumentViewer.LoopbackPdfBranch` | DocShare/src/components/documents/DocumentViewer.tsx:61-64 | A PDF type with a loopback URL gets the pdf.js prefix followed by the encoded URL |
| `DocumentViewer.PlainImageBranch` | DocShare/src/components/documents/DocumentViewer.tsx:73-75 | An image type with no PDF or Office keyword is shown from its own URL |
| `DocumentViewer.LocalPdfExample` | DocShare/src/components/documents/DocumentViewer.tsx:61-64 | `application/pdf` at `http://localhost:3000/f.pdf` gives the pdf.js prefix followed by `http%3A%2F%2Flocalhost%3A3000%2Ff.pdf` |
| `DocumentViewer.ExcelExample` | DocShare/src/components/documents/DocumentViewer.tsx:68-72 | `application/vnd.ms-excel` gets the Office viewer |
| `DocumentViewer.PngExample` | DocShare/src/components/documents/DocumentViewer.tsx:73-75 | `image/png` is shown from its own URL |
| `DocumentViewer.LabelViewerMismatch` | DocShare/src/components/documents/DocumentViewer.tsx:48-75 | `image/sheet` is labelled Excel but shown as an image, because label and viewer test keywords in different orders |
| `DocumentViewer.UnknownTypeExamples` | DocShare/src/components/documents/DocumentViewer.tsx:76-79 | The empty type and `video/mp4` fall back to the Office viewer |
| `DocumentViewer.Viewer.constructor` | DocShare/src/components/documents/DocumentViewer.tsx:20-22 | A new viewer has no error, no overlay and no share dialog |
| `DocumentViewer.Viewer.Content` | DocShare/src/components/documents/DocumentViewer.tsx:137-194 | With an error the error panel shows that message, whatever the type. Without one the surface loads the display URL, and it is an image element exactly when the lower-cased type says "image" |
| `DocumentViewer.Viewer.Overlay` | DocShare/src/components/documents/DocumentViewer.tsx:277-301 | The fullscreen frame is present exactly while the flag is set, and it loads the same display URL |
| `DocumentViewer.Viewer.ImageLoadFailed` | DocShare/src/components/documents/DocumentViewer.tsx:171-173 | The image's error handler records the image message, and the error panel replaces the content |
| `DocumentViewer.Viewer.FrameLoadFailed` | DocShare/src/components/documents/DocumentViewer.tsx:188-190 | The inline frame's error handler records the document message, and the error panel replaces the content |
| `DocumentViewer.Viewer.SetFullscreen` | DocShare/src/components/documents/DocumentViewer.tsx:213-285 | Opening (line 213) and closing (line 285) fullscreen set the flag and the overlay. The error and the inline content are left unchanged |
| `DocumentViewer.Viewer.SetShareDialog` | DocShare/src/components/documents/DocumentViewer.tsx:263-307 | The share button and the dialog's callback set the flag and change neither the content nor the overlay |
| `SaveDocumentButton.UuidMatchesLayout` | DocShare/src/components/documents/SaveDocumentButton.tsx:112 | The grouped pattern accepts exactly the strings with the RFC 4122 layout: 36 characters, `-` at 8, 13, 18 and 23, hex digits elsewhere |
| `SaveDocumentButton.UuidIgnoresCase` | DocShare/src/components/documents/SaveDocumentButton.tsx:112 | Because of the `i` flag, a string matches exactly when its lower-case form does |
| `SaveDocumentButton.UuidIsAscii` | DocShare/src/components/documents/SaveDocumentButton.tsx:112 | Only ASCII strings match |
| `SaveDocumentButton.UuidFromGroups` | DocShare/src/components/documents/SaveDocumentButton.tsx:112 | Hex groups of lengths 8, 4, 4, 4 and 12 joined by `-` match |
| `SaveDocumentButton.NormalizeFolderId` | DocShare/src/components/documents/SaveDocumentButton.tsx:108-118 | The folder id is kept exactly when a selection is present and has the UUID layout, and is then the selection unchanged; `"none"`, the empty string, no selection and any other string give none |
| `SaveDocumentButton.MixedCaseFolderIdKept` | DocShare/src/components/documents/SaveDocumentButton.tsx:108-118 | `123e4567-E89B-12d3-a456-426614174000` is kept as it is |
| `SaveDocumentButton.LoadingPairedAppend` | DocShare/src/components/documents/SaveDocumentButton.tsx:76-93 | After a handler's `true, false` pair of loading writes, the writes are still in such pairs; stopping after `true` would break that |
| `SaveDocumentButton.SaveButton.constructor` | DocShare/src/components/documents/SaveDocumentButton.tsx:30-34 | Initially nothing is saved, loading, open, loaded or selected, and no call has been made |
| `SaveDocumentButton.SaveButton.CheckSavedStatus` | DocShare/src/components/documents/SaveDocumentButton.tsx:37-50 | Without a user nothing happens. With one, the status is asked with the user's id alone, and `saved` takes the answer or stays as it was on failure |
| `SaveDocumentButton.SaveButton.LoadFolders` | DocShare/src/components/documents/SaveDocumentButton.tsx:53-62 | Without a user nothing happens. With one, the folders are asked for without arguments, and the list takes the answer or stays as it was on failure |
| `SaveDocumentButton.SaveButton.HandleSaveClick` | DocShare/src/components/documents/SaveDocumentButton.tsx:64-99 | Without a user no state changes and no call is made. For a saved document one removal call is made with the user's id alone; `saved` becomes false only if it succeeds; loading is raised then lowered; the dialog is untouched. For an unsaved document the folders are loaded and the dialog opens, with `saved` still false |
| `SaveDocumentButton.SaveButton.HandleSaveToFolder` | DocShare/src/components/documents/SaveDocumentButton.tsx:101-137 | Without a user nothing changes. Otherwise the one save call carries only the user's id and the document id, never the folder. Success sets `saved` and closes the dialog, failure keeps both, and loading is raised then lowered |
| `SaveDocumentButton.SaveButton.SelectFolder` | DocShare/src/components/documents/SaveDocumentButton.tsx:173-176 | Picking a folder records the picked value |
| `SaveDocumentButton.SaveButton.SetShowDialog` | DocShare/src/components/documents/SaveDocumentButton.tsx:160-194 | The dialog's open/close callback and its cancel button set the dialog flag |

## Left out

- The "open in new tab" and "download" actions (DocumentViewer.tsx:25-32, 146-153, 220-238). They only call `window.open`, which is browser I/O.
- The view-recording effect (DocumentViewer.tsx:85-99). It is a fire-and-forget call to a service that is not part of this model, and it calls a hook inside an effect.
- Toasts and console logging in both components. They are presentation and I/O; the model keeps the state changes and the service calls around them.
- JSX markup, class names, icons and tooltip texts, and the frame's `sandbox`/`allow` attribute strings. They are presentation.
- `DocumentShareDialog` and the UI library's `Select`, `Dialog`, `Tooltip` and `Button`. These are foreign components.
- The document service, the documents page and the root layout. They are not part of this model.
- Asynchronous interleaving. Each handler is one atomic step, so `loading` is false between events. The `disabled={loading}` guards (SaveDocumentButton.tsx:149, 201) therefore never block an event in the model.
- React re-rendering. The viewer's type and URL are fixed per `Viewer` object. A render with a new document is a new object, so the model does not show that React keeps an old `error` when the props change.
- The bookmark button driven by `onToggleBookmark` (DocumentViewer.tsx:248-258). It forwards to a callback supplied by the caller.
- `Text.ToLower`: models only the ASCII part of `toLowerCase`. This is enough for classification, because every keyword is ASCII. No non-ASCII letter lower-cases to an ASCII letter that could complete a keyword, except U+0130 and U+212A. Those become `i` followed by a combining dot and `k`, and neither case changes any keyword match.
- `UriComponent.EncodeUriComponent`: does not model the `URIError` thrown for a lone surrogate. Dafny's `char` is a Unicode scalar value, so such a string cannot be formed.
- The fullscreen frame has no load-error handler (DocumentViewer.tsx:292-297). `Viewer.Overlay` therefore offers no error transition.
