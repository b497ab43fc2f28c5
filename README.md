# pdfmulti: title-derived file names, the image wait and the conversion outcome

This Dafny project models the logic inside the `pdfmulti` PowerApps component
(`pdfmulti/index.ts`). The component shows a preview of an HTML string and has a
"Download PDF" button that turns the string into a PDF through `html2pdf.js`.
The model covers the parts of that file that can be stated and proved:

- **Title regex** (`title_regex.dfy`, module `TitleRegex`). This is what
  `content.match(/<title>(.*?)<\/title>/i)` returns. The match starts at the leftmost
  position that admits one. The tag letters match ASCII case-insensitively. The capture
  `(.*?)` is lazy, so it is the shortest one at that start. `.` matches any character
  except LF, CR, U+2028 and U+2029. `Exec` is proved to return exactly the first match
  (`IsFirstMatch`), and `ExecIsTheFirstMatch` proves that this first match is unique.
- **File name and options** (`conversion_options.dfy`, module `ConversionOptions`).
  `BaseName` is the capture, or `document` when nothing matches. `Options` is the record
  passed to `html2pdf().set(...)`: every field is a constant except `filename`, which is
  the base name plus `.pdf`.
- **Image wait** (`asset_gate.dfy`, module `AssetGate`). Each `<img>` in the staged
  copy is `Complete`, `Loads`, `Errors` or `NeverSettles`. It becomes one promise, and
  `Promise.all` over those promises ends `Ready`, `ImageFailed` or `Pending`.
- **The control** (`pdf_control.dfy`, module `PdfControl`). The class `PdfMulti` holds
  the stored content (`_htmlContent`) and the preview markup. It has `Init` and
  `UpdateView`, and `ConvertToPdf` runs one conversion, during whose image wait an
  `updateView` may run. That method is proved equal to the function `Convert`, which gives
  the run's outcome (`Aborted`, `Suspended`, `Failed(reason)` or `Saved(fileName)`) and its
  effects in order: staging, handler registration, rendering, offering the file, removing
  the temporary container, and logging an error.
- **Examples** (`scenarios.dfy`, module `Scenarios`). These are general lemmas about
  content shaped `open + title + close + rest`, and concrete documents: an invoice,
  mixed-case tags, an empty title, a newline inside the title, several titles, a report
  with no images, and a broken image.

Behaviours of the code worth knowing, all of which the model keeps:

- An empty title `<title></title>` gives the file name `.pdf`. A successful match is
  truthy even when its capture is empty, so the `document` fallback applies only when
  nothing matches (`pdfmulti/index.ts:81-82`).
- The temporary container's `remove()` runs only after a successful `save()`
  (`pdfmulti/index.ts:113-116`). After a failure, or while the image wait never ends,
  the container is not removed: those runs have no `StagingRemoved` effect. The
  container is never attached to the page (`pdfmulti/index.ts:59-61`), so `remove()`
  detaches nothing there, and `StagingRemoved` only records that the call is made.
- When the `htmlInput` parameter object is missing, `init`/`updateView` leave the stored
  content and the preview as they were. Only a present parameter whose `raw` is
  null, undefined or empty clears them (`pdfmulti/index.ts:39-42`, `47-50`).
- The staged copy is made from the content at the click (`pdfmulti/index.ts:61`), but
  the title is read from `this._htmlContent` again after the image wait
  (`pdfmulti/index.ts:81`). An `updateView` that runs during the wait therefore changes
  the file name but not what is rendered: a report retitled `Invoice` is saved as
  `Invoice.pdf`, and content cleared to `''` is saved as `document.pdf`. `Convert` takes
  the content at that second read as its own parameter.

## Model

| member | source | states |
|---|---|---|
| TitleRegex.LazyClose | pdfmulti/index.ts:81 | the lazy `(.*?)<\/title>` tail: the first position from `j` where the closing tag matches with no line terminator before it; `None` exactly when every closing tag is preceded by a line terminator or there is none |
| TitleRegex.TryAt | pdfmulti/index.ts:81 | one attempt at a start position: on success a match there with the shortest capture; `None` exactly when no capture length matches there |
| TitleRegex.Search | pdfmulti/index.ts:81 | the scan over start positions: the reported match is at the leftmost start at or after `i` that matches, with the shortest capture; `None` when no start from `i` on matches |
| TitleRegex.Exec | pdfmulti/index.ts:81 | `content.match(regex)`: a result is the first match (leftmost, shortest capture, the capture being the text between the tags); `null` exactly when nothing matches anywhere |
| TitleRegex.ExecIsTheFirstMatch | pdfmulti/index.ts:81 | the first match is unique: any match that is leftmost with the shortest capture is the one returned |
| TitleRegex.TagInSlice | pdfmulti/index.ts:81 | a closing tag found inside a capture is a closing tag of the content at the shifted position |
| TitleRegex.CaptureIsClean | pdfmulti/index.ts:81 | a returned capture holds no line terminator and no `</title>` (in any case), and no closing tag of the content starts inside it |
| TitleRegex.MatchIsTagged | pdfmulti/index.ts:81 | the content holds `<title>` + capture + `</title>` (tags in any ASCII case) at the reported index |
| TitleRegex.LineTerminatorBlocksMatch | pdfmulti/index.ts:81 | a line terminator after an opening tag, with no closing tag before it, rules out every match at that opening tag |
| ConversionOptions.BaseName | pdfmulti/index.ts:81-82 | `document` when nothing matches; otherwise the capture of the first match, even when that capture is empty |
| ConversionOptions.Options | pdfmulti/index.ts:85-104 | the option record is well formed (four non-negative margins, quality in (0, 1], scale at least 1, known and distinct page-break modes); its file name ends in `.pdf`, and removing that suffix gives back the base name |
| ConversionOptions.FixedSettings | pdfmulti/index.ts:85-104 | margins [10,10,20,10], JPEG quality 0.98, scale 2 with CORS, mm/A4/portrait, page breaks `avoid-all`, `css`, `legacy` in that order, for every base name |
| ConversionOptions.OptionsDifferOnlyInFileName | pdfmulti/index.ts:85-104 | two option records are equal once their file names are made equal: no other field depends on the content |
| ConversionOptions.OptionsInjective | pdfmulti/index.ts:87 | two option records are equal exactly when their base names are |
| ConversionOptions.FileNameFromContent | pdfmulti/index.ts:81-87 | the file name is the first match's capture plus `.pdf`, or `document.pdf` when nothing matches |
| ConversionOptions.EmptyTitleGivesBareExtension | pdfmulti/index.ts:81-82 | an empty title at the first matching position gives the file name `.pdf`, not `document.pdf` |
| AssetGate.ImagePromise | pdfmulti/index.ts:65-73 | a complete image resolves at once; a promise rejects exactly for an erroring image and stays pending exactly for one that never fires |
| AssetGate.Promises | pdfmulti/index.ts:64-74 | one promise per image, in document order |
| AssetGate.All | pdfmulti/index.ts:78 | `Promise.all`: ready exactly when every promise resolves, failed exactly when some promise rejects, pending exactly when none rejects and some never settles |
| AssetGate.PromisesReflectImages | pdfmulti/index.ts:65-73 | some promise rejects exactly when some image errors, and some stays pending exactly when some image never fires |
| AssetGate.Gate | pdfmulti/index.ts:64-78 | `await Promise.all(imagePromises)`: ready exactly when every image is complete or loads, fails exactly when some image errors, pending exactly when none errors and some never fires |
| AssetGate.Registered | pdfmulti/index.ts:67-71 | the images given `onload`/`onerror` handlers: each image that is not complete, as often as it occurs, and none that is; so there are as many handler pairs as images minus complete ones |
| AssetGate.RegisteredMembers | pdfmulti/index.ts:67-71 | an image kind gets handlers exactly when it occurs and is not complete |
| AssetGate.GateIgnoresCompleteImages | pdfmulti/index.ts:67-78 | the wait settles as it would over only the images that got handlers |
| AssetGate.OnlyCompleteImagesAreReady | pdfmulti/index.ts:64-78 | with no images, or only complete ones, no handler is registered and the wait is ready |
| AssetGate.AnyErrorFails | pdfmulti/index.ts:71-78 | one erroring image fails the wait, whatever the other images do |
| AssetGate.GateOfConcat | pdfmulti/index.ts:78 | the wait over two groups of images: failure if either fails, else pending if either is pending, else ready |
| PdfControl.CurrentMarkup | pdfmulti/index.ts:54 | the content is empty exactly when it is unset or `''`; a set content is read as it is |
| PdfControl.Convert | pdfmulti/index.ts:53-121 | aborted with no effect exactly when the content is empty; suspended exactly when no image errors and some never fires, and then only staged with one handler pair per non-complete image; asset failure exactly when some image errors, and then staged, handlers registered and the error logged, with no render; render failure or saved exactly when every image is complete or loads and the render fails or succeeds, with the whole effect list in order (stage, register, render, then log the error, or offer the file and remove the container); the options rendered with, and the saved name, come from the content read after the wait |
| PdfControl.PdfMulti.constructor | pdfmulti/index.ts:12-14 | a new control has no preview and no stored content |
| PdfControl.PdfMulti.Init | pdfmulti/index.ts:16-43 | creates an empty preview; stores `raw` (or `''` when null) only when the parameter is present; afterwards the preview shows exactly the stored content |
| PdfControl.PdfMulti.UpdateView | pdfmulti/index.ts:45-51 | replaces the stored content and the preview only when the parameter is present (`raw` or `''`); otherwise changes nothing; keeps the preview mirroring the content |
| PdfControl.PdfMulti.ConvertToPdf | pdfmulti/index.ts:53-121 | one conversion run step by step (return on empty content; stage; register handlers; await the images, during which an `updateView` may replace the content when some image waits for an event; read the title again; configure; render; remove the container after saving; catch and log), proved equal to `Convert` on the content at the click and the content after the wait; the lemmas about runs are stated on `Convert` |
| PdfControl.RemovedOnlyAfterSave | pdfmulti/index.ts:110-116 | the temporary container is removed exactly when the file was saved, once, as the last effect, right after the file is offered |
| PdfControl.FailureIsCaughtAndLogged | pdfmulti/index.ts:76-120 | a failed run logs its reason once, as the last effect, offers no file and does not remove the container; only failed runs log an error |
| PdfControl.RendersOnlyAfterImagesReady | pdfmulti/index.ts:76-112 | a run renders or offers a file exactly when the content is non-empty and the image wait is fulfilled: nothing is rendered before every image is complete or loaded, nor after a failed or endless wait |
| PdfControl.SavedFileName | pdfmulti/index.ts:81-87 | a saved file is named after the first title capture of the content read after the wait, plus `.pdf`, or `document.pdf` when nothing matches |
| PdfControl.UndisturbedRunNamesStagedContent | pdfmulti/index.ts:61-87 | with no update during the wait, the saved name comes from the very content that was staged |
| PdfControl.ClearedDuringWait | pdfmulti/index.ts:61-87 | content cleared while an image loads: the old content is still rendered and saved, as `document.pdf` |
| PdfControl.RenderOptionsIndependentOfContent | pdfmulti/index.ts:85-107 | the options given to the renderer by any two runs that reach it, whatever each render does, differ at most in the file name |
| PdfControl.CompleteImagesNeverWait | pdfmulti/index.ts:64-78 | non-empty content whose images are all complete registers no handlers and ends saved or with a render failure, never suspended or failed on images |
| Scenarios.TagChar | pdfmulti/index.ts:81 | a tag found at a position fixes the lower case of each character it covers |
| Scenarios.NoTagWithoutAngle | pdfmulti/index.ts:81 | no tag starts at a character other than `<` |
| Scenarios.TitleAtStart | pdfmulti/index.ts:81 | content that opens with a title of plain text (any tag case), followed by anything, matches at 0 with that text as capture |
| Scenarios.LineBreakInTitle | pdfmulti/index.ts:81-82 | a lone title whose text holds a line terminator and no `<` gives no match, so the base name is `document` |
| Scenarios.TitleOnly | pdfmulti/index.ts:81-82 | a lone title of plain text gives that text as the base name |
| Scenarios.InvoiceTitle | pdfmulti/index.ts:81-87 | `<title>Invoice</title>` gives `Invoice.pdf` |
| Scenarios.MixedCaseTagsFirstTitle | pdfmulti/index.ts:81-82 | `<TITLE>Report</Title><p>Hello</p><title>Other</title>` gives the base name `Report`: tags match in any case, and the first of two titles is used |
| Scenarios.EmptyTitle | pdfmulti/index.ts:81-87 | `<title></title>` gives `.pdf` |
| Scenarios.NewlineInTitle | pdfmulti/index.ts:81-82 | `<title>a` LF `b</title>` gives `document` |
| Scenarios.ReportScenario | pdfmulti/index.ts:53-116 | `<title>Report</title><p>Hello</p>` with no images and a successful render is saved as `Report.pdf`, A4 portrait, margins [10,10,20,10] |
| Scenarios.RetitledDuringWait | pdfmulti/index.ts:61-87 | a report retitled `Invoice` while its image loads renders the report and saves it as `Invoice.pdf` |
| Scenarios.BrokenImageScenario | pdfmulti/index.ts:64-120 | a document whose only image errors registers one handler pair, ends as an asset-load failure and logs it, with no render and no file |

## Left out

- The DOM construction and styling in `init` (container div, class names, button, click
  listener): these are browser APIs. The preview is modelled only as the markup assigned to its `innerHTML`.
- Parsing the markup and `getElementsByTagName('img')`: a conversion takes the images
  found in the staged copy as a given sequence of `ImageState` values.
- `html2pdf.js` itself (rendering, pagination, saving): a foreign library. How its
  `.from(...).save()` chain settles is an input (`RenderOutcome`).
- Real asynchrony: the timing of `onload`/`onerror` events, and overlapping conversions
  started by repeated clicks. Each awaited result is taken as a given value.
- The floating-point values `quality: 0.98` and `floatPrecision: 16`: they are carried as
  constants (0.98 as `Decimal(98, 2)`) and nothing is computed from them.
- `console.error`'s output (modelled only as an `ErrorLogged` effect), `getOutputs` (it returns
  an empty object) and `destroy`: host glue. `destroy` means to remove the click listener, but it passes a
  newly bound function (`pdfmulti/index.ts:129`), which is not the listener added at
  `pdfmulti/index.ts:35`, so nothing is removed.
- Full Unicode case folding: the regex has no `u` flag, so a non-ASCII character never
  matches an ASCII letter of the pattern, and ASCII case-insensitivity is exact for it.
- UTF-16 code units: the content is a sequence of Unicode scalar values. No line terminator or tag character is a
  surrogate, so the match and its capture are the same text either way.
- TitleRegex.Exec: the result is the capture (`match[1]`) and the start index counted in
  Unicode scalar values, where `match.index` counts UTF-16 code units; the rest of the
  match array (`match[0]`, `input`, `groups`) is not modelled.
- PdfControl.PdfMulti.ConvertToPdf: one `updateView` during the image wait is modelled;
  several in a row act as the last one whose parameter is present, and an update during
  rendering changes nothing the run reads afterwards.
