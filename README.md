# Wedding gallery: a verified model of its core logic

The wedding gallery has a browser side and a server side.

Guests pick photos and videos on an upload page, and the page posts them to
the server one after another. An album page shows what was uploaded. There,
a long press (on phones) or a checkbox (on desktops) turns on a selection
mode. In that mode the guest can download or share several items at once.
A help page shows a card carousel.

On the server, each upload is checked against a MIME allowlist, filed by its
extension and stored as a media record. The listing, gallery and statistics
endpoints read the visible records.

This project models the logic of those pieces in Dafny and proves what they
promise:

- **Selection** (`selection_common.dfy`, `selection.dfy`,
  `selection_legacy.dfy`).
  - The selection script of the album page is the class `Selection.Engine`.
    Its methods are the event handlers.
  - The two timers are explicit events: the long-press timer
    (`LongPressFired`) and the 300 ms exit window (`ExitWindowExpired`).
  - Gallery items are integer ids. The selection is an insertion-ordered
    sequence without duplicates, as a JavaScript `Set` iterates.
  - The invariant `Valid()` says four things: a non-empty selection implies
    the mode is on; the markers are the selection; the count label tells its
    size; the checkbox mirrors the mode.
  - The older copy of the script, served from the collected static files,
    differs in three places, each modelled separately:
    - only the items and the selection bar keep the mode alive on an
      outside press;
    - its click listener only suppresses;
    - its download opens tabs or creates links without fetching anything.
  - The share flow and the clear control are the same in both copies.
- **Upload** (`upload_common.dfy`, `upload.dfy`, `upload_legacy.dfy`).
  - The page state is the class `UploadCommon.Uploader`: the picked files,
    the preview tiles, the prompt and the two modals.
  - The confirm loop is a method proved against prefix-recursive
    specification functions.
  - What the network does is an input: one outcome per file. `Date.now()`
    is an input too: one clock reading per file.
  - The older page differs in its confirm step: no CSRF header, no timeout,
    no pause, no failure list, and a 2 s redirect.
- **Album** (`album.dfy`): the item plan built from the gallery listing, the
  empty and error states, and the click gate of the viewer.
- **Carousel** (`carousel.dfy`): the class `Carousel.Carousel`, holding the
  active card, the drag state and the integer part of every card's style.
- **Server** (`media_model.dfy`, `media_serializer.dfy`, `media_views.dfy`):
  - the upload path;
  - what `Media.save` fills in;
  - the display text of a record;
  - the validation and type derivation of the serializer;
  - the endpoints, as functions of the stored records.

Functions the model cannot see are parameters. These are
`mimetypes.guess_type`, `build_absolute_uri`, the measured card width, the
user's answers to confirmation prompts, and how each fetch or share call
ends.

Two facts about the code shape the upload model:

- **Upload progress.** The progress text advances only when an upload
  succeeds (`project/static/js/camara.js:206-207`). A failed file leaves it
  unchanged.
- **Camera.** The page has no capture logic of its own. It only opens a
  native file input with the `capture` attribute
  (`project/static/js/camara.js:5`).

## Model

| member | source | states |
|---|---|---|
| SelectionCommon.CountLabelFaithful | project/static/js/seleccion.js:37-40 | The label is the singular "1 seleccionada" exactly for one item. Different counts (0 included) give different labels. |
| SelectionCommon.Remove | project/static/js/seleccion.js:80-81 | Deleting from the set removes exactly that element. The rest stay free of duplicates. The size drops by one when the element was present, and nothing changes when it was absent. |
| SelectionCommon.ToggledFlips | project/static/js/seleccion.js:79-88 | Toggling flips the membership of that item and of no other. The set stays free of duplicates, and its size moves by exactly one. |
| SelectionCommon.ToggleTwice | project/static/js/seleccion.js:79-88 | Toggling the same item twice gives back the same set of items. |
| SelectionCommon.KindOrImage | project/static/js/seleccion.js:156 | An item's type is never empty. It is the item's own type when it has one. |
| SelectionCommon.DataOf | project/static/js/seleccion.js:98 | The selected items are taken in selection order, one per selected id. |
| SelectionCommon.ShareUrls | project/static/js/seleccion.js:291 | No shared URL is empty, and there are at most as many URLs as items. |
| SelectionCommon.ShareUrlsKeepsUrls | project/static/js/seleccion.js:291 | Every non-empty URL of the selection is among the shared URLs. |
| SelectionCommon.ShareUrlsOnlyUrls | project/static/js/seleccion.js:291 | Every shared URL is the URL of some selected item. |
| SelectionCommon.ShareTextReadBack | project/static/js/seleccion.js:342-383 | The URLs can be read back from the shared text. With one URL, the text ends with it. With several, a header carrying their count is followed by the URLs one per line, and splitting at newlines gives back the list. The same holds for the last-resort WhatsApp text. |
| SelectionCommon.Extension | project/static/js/seleccion.js:314-315 | The extension is the path's own tail from its last dot on: a suffix of the path that starts with a dot and holds no further dot. A path without a dot is taken whole. |
| SelectionCommon.ShareDecisionProperties | project/static/js/seleccion.js:295-386 | Files are shared only when the platform can share files and there are at most three URLs. A text share always carries the text of exactly those URLs. A failed share falls back to WhatsApp with the fallback text. Only a user abort of the text share ends as cancelled, and something is always attempted. |
| SelectionCommon.CollectShareFiles | project/static/js/seleccion.js:304-324 | The file list exists exactly when every fetch succeeded. File i is then named `archivo_<i+1>` followed by its extension. |
| SelectionCommon.ShareItems | project/static/js/seleccion.js:286-387 | Nothing is shared without a URL. Otherwise files are fetched only when they may be shared, and the outcome is the share decision for what the fetches gave. |
| Selection.Engine.constructor | project/static/js/seleccion.js:26-35 | The script starts with the mode off and nothing selected. The label reads "0 seleccionadas", the exit flag is down and there are no gesture records. |
| Selection.Engine.EnsureSelectionMode | project/static/js/seleccion.js:42-51 | The mode is on afterwards and the selection is untouched. If the mode was already on, nothing changes. |
| Selection.Engine.ExitSelectionMode | project/static/js/seleccion.js:53-69 | With nothing selected, the mode goes off and the checkbox is unchecked. The exit flag is raised and one more 300 ms reset is pending. |
| Selection.Engine.ToggleImage | project/static/js/seleccion.js:79-91 | The item's membership and marker flip, and no other marker changes. The label follows the new size. The mode ends, raising the exit flag, exactly when the selection became empty. |
| Selection.Engine.ClearTimers | project/static/js/seleccion.js:487-492 | The item's gesture record and its armed timer are dropped. The selection is unchanged. |
| Selection.Engine.PointerDown | project/static/js/seleccion.js:440-470 | Mouse and other pointers change nothing. Touch and pen record the start point with the long press not yet triggered, and arm a fresh timer. An earlier timer for the same item stays armed. |
| Selection.Engine.LongPressFired | project/static/js/seleccion.js:464-469 | An armed timer marks its record as long-pressed (if that record is still the item's current one), turns the mode on and toggles the item. A cancelled timer does nothing. |
| Selection.Engine.PointerMove | project/static/js/seleccion.js:472-485 | A move strictly beyond 12 px on either axis, before the long press, drops the record and its timer. A move of exactly 12 px, a move after the long press, or a move with no record changes nothing. |
| Selection.Engine.PointerUp | project/static/js/seleccion.js:494-522 | The record is always dropped. After a long press the event is suppressed without a toggle. Otherwise, with the mode on, the item toggles and the event is suppressed. With the mode off nothing else happens. |
| Selection.Engine.PointerCancel | project/static/js/seleccion.js:524-528 | The record and its timer are dropped, and the selection is unchanged. |
| Selection.Engine.DocumentPointerDown | project/static/js/seleccion.js:530-538 | The mode ends exactly when it is on, nothing is selected, and the press is outside the items, the selection bar, the mode toggle and the album menu. |
| Selection.Engine.ClickCapture | project/static/js/seleccion.js:547-559 | A click is suppressed exactly when the mode is on, and the item is then toggled. Otherwise nothing changes. |
| Selection.Engine.DocumentPointerDownLegacy | project/staticfiles/js/seleccion.js:376-380 | In the older script the mode ends exactly when it is on, nothing is selected, and the press is neither on an item nor on the selection bar. |
| Selection.Engine.ClickCaptureLegacy | project/staticfiles/js/seleccion.js:389-398 | The older script suppresses an item click exactly when the mode is on or the exit flag is raised, and it never toggles. |
| Selection.Engine.ClearButton | project/static/js/seleccion.js:394-407 | Nothing is left selected and every marker is off. The mode is off and the exit flag is raised, whether or not anything was selected. |
| Selection.Engine.CheckboxChange | project/static/js/seleccion.js:412-427 | Checking turns the mode on and keeps the selection, so checking twice changes nothing more. Unchecking clears the selection and its markers and exits. Without the desktop checkbox nothing changes. |
| Selection.Engine.ExitWindowExpired | project/static/js/seleccion.js:66-68 | A pending 300 ms timer lowers the exit flag. Mode and selection are untouched. |
| Selection.Engine.DownloadSelected | project/static/js/seleccion.js:94-277 | Nothing starts without a selection, or on a phone with several items when the prompt is declined. Otherwise the names, the two counters and the feedback are those of the download specification, over the selected items in order. |
| Selection.DownloadAccounting | project/static/js/seleccion.js:150-224 | Every item with a URL ends either downloaded or failed, and items without one are skipped. There is one name per download. An error is remembered exactly when something failed. |
| Selection.DownloadNamesFromItems | project/static/js/seleccion.js:184-190 | Every downloaded name is `<type>_<time>_<index><extension>` of one downloaded item. |
| Selection.DownloadFeedbackTone | project/static/js/seleccion.js:227-277 | The feedback starts with a check mark exactly when something was downloaded, and with a cross exactly when nothing was. |
| SelectionLegacy.DownloadSelectedLegacy | project/staticfiles/js/seleccion.js:74-150 | Nothing happens without a selection, or on a phone with more than three items when the prompt is declined. Otherwise there is one action per item with a URL, in order: a tab on a phone, a download link on a desktop. The instructions alert is raised on phones. |
| SelectionLegacy.ActionsCoverUrls | project/staticfiles/js/seleccion.js:91-147 | The older download acts on exactly the URLs the share flow would share: every non-empty one, once, in selection order. |
| SelectionLegacy.ActionsMatchDevice | project/staticfiles/js/seleccion.js:83-147 | On a phone only tabs are opened, and on a desktop only download links are made. |
| SelectionLegacy.LegacyNameHasNoExtension | project/staticfiles/js/seleccion.js:131 | The older download name holds no dot unless the item's type does, so the file is saved without an extension. |
| UploadCommon.PreviewAccountsForAllFiles | project/static/js/camara.js:68-98 | The preview accounts for every picked file exactly once. There are at most six tiles for the first files, in order; each shows a video exactly for a `video/` type. A closing `+N` tile covers the rest exactly when there are more than six. |
| UploadCommon.PromptTextInjective | project/static/js/camara.js:101-105 | Different numbers of files give different prompts, the singular one included. |
| UploadCommon.SafeNameProperties | project/static/js/camara.js:178 | A name that is not blank is kept as it is. A blank or missing one becomes the generated `archivo_<time>_<index>.jpg`, and the name sent is never blank. |
| UploadCommon.Uploader.constructor | project/static/js/camara.js:23 | The page starts with no picked files, no preview and both modals closed. |
| UploadCommon.Uploader.ResetSelection | project/static/js/camara.js:36-42 | The picked files, the preview and the file inputs are emptied. |
| UploadCommon.Uploader.OpenCameraLink | project/static/js/camara.js:45-48 | The camera link opens the source chooser and changes nothing else. |
| UploadCommon.Uploader.OpenGalleryButton | project/static/js/camara.js:51-55 | The gallery button closes the chooser and changes nothing else. |
| UploadCommon.Uploader.ChoiceClick | project/static/js/camara.js:58-62 | Only a click on the chooser's backdrop closes it. |
| UploadCommon.Uploader.HandleFilesFromInput | project/static/js/camara.js:65-117 | A missing or empty list changes nothing. Otherwise the list replaces the picked files, rebuilds the preview and the prompt, and opens the confirmation; the inputs then no longer count as emptied by a reset. |
| UploadCommon.Uploader.Cancel | project/static/js/camara.js:120-123 | The confirmation closes and nothing is left picked, so a later confirm sends nothing. |
| UploadCommon.Uploader.UploadClick | project/static/js/camara.js:253-258 | A click on the confirmation's backdrop acts as cancel. Any other click changes nothing. |
| Upload.FindRow | project/static/js/camara.js:127-130 | The row found starts with the prefix, and no earlier row does: it is the first such row. There is none exactly when no row starts with the prefix. |
| Upload.CsrfToken | project/static/js/camara.js:126-132 | Without a `csrftoken=` row the token is empty. |
| Upload.FindRowFirst | project/static/js/camara.js:129 | When row k is the first with the prefix, the lookup returns row k. |
| Upload.CsrfTokenFirstRow | project/static/js/camara.js:126-132 | For any cookie, the token is the text of the first `csrftoken=` entry from its `=` up to the next `=` or the end of the entry. |
| Upload.CsrfTokenReadsBack | project/static/js/camara.js:126-132 | A cookie holding only `csrftoken=<v>`, with a `v` free of `=` and of the separator, gives `v` back. |
| Upload.CsrfTokenFromRow | project/static/js/camara.js:126-132 | A non-empty token comes from a row that starts with `csrftoken=`, and holds no `=`. |
| Upload.TimeoutProperties | project/static/js/camara.js:186 | The timeout is never below 60 s. It grows with the size, by exactly one second per extra MiB. |
| Upload.SizeMiBRounding | project/static/js/camara.js:181 | The two decimals are the nearest hundredth of the exact size in MiB, rounding a tie upward, and the text has a point before the last two digits. |
| Upload.Prefix | project/static/js/camara.js:198 | The kept part of an error body is its first 200 characters, or the whole body when it is shorter. |
| Upload.UploadError | project/static/js/camara.js:135-219 | A request fails exactly when it runs into its timeout, is rejected, or gets a non-2xx answer, and every failure has a non-empty reason. |
| Upload.UploadErrorReasons | project/static/js/camara.js:148-218 | Past the timeout the reason is the abort message. A timely non-2xx answer fails with `HTTP <status>: ` followed by exactly the first 200 characters of its body, or all of a shorter body. A timely rejection fails with its message, or with `Error desconocido` when the message is empty. |
| Upload.RunRequests | project/static/js/camara.js:175-194 | Every file is sent once, in order, under its safe name, with its own timeout and the page's token. |
| Upload.RunCounts | project/static/js/camara.js:175-222 | Uploaded plus failed is the number of files handled. |
| Upload.RunStatuses | project/static/js/camara.js:165-207 | The progress text starts at `Subiendo 0/N…` and moves up by one on each success only. |
| Upload.RunPauses | project/static/js/camara.js:209-212 | The page pauses after exactly the successful files that are not the last one. |
| Upload.FailuresListed | project/static/js/camara.js:213-221 | Each listed failure is a failed file, with its name, its size and its reason, in the order sent. |
| Upload.SummaryProperties | project/static/js/camara.js:224-244 | The page always returns to the album. It raises the alert exactly when some file failed. It waits 1 s before leaving exactly when nothing failed, and 3 s otherwise. The final text starts with the success mark exactly when nothing failed. |
| Upload.UploadAll | project/static/js/camara.js:175-222 | The loop's requests, counters, failure list, progress texts and pauses are the run specification over all files. |
| Upload.ConfirmUpload | project/static/js/camara.js:161-244 | Nothing happens without picked files. Otherwise the report is the summary of the full run with the cookie's token. |
| UploadLegacy.ConfirmUploadLegacy | project/staticfiles/js/camara.js:126-172 | On the older page nothing happens without picked files. Otherwise the requests, counters, progress texts and redirect are the older run specification. |
| UploadLegacy.LegacyRunRequests | project/staticfiles/js/camara.js:138-148 | Every file is sent once, in order, under its safe name, with nothing but the form body. |
| UploadLegacy.LegacyRunCounts | project/staticfiles/js/camara.js:144-159 | Each file handled ends uploaded or failed: the two counters add up to the number of files handled. |
| UploadLegacy.LegacyRunStatuses | project/staticfiles/js/camara.js:130-155 | The progress text counts the successes up from 0. |
| UploadLegacy.LegacySummaryProperties | project/staticfiles/js/camara.js:162-172 | The older page always returns to the album, after 1 s when nothing failed and after 2 s otherwise. Uploaded plus failed is the number of files. |
| Album.AllMedia | project/static/js/album.js:14 | The media list is as long as the two arrays together, a missing array counting as empty. |
| Album.ImagesFirst | project/static/js/album.js:14 | The images come first, in order, and then the videos, in order. |
| Album.LoadGallery | project/static/js/album.js:4-71 | A rejected request, a non-2xx status or an unreadable body shows the error text. An empty listing shows the empty-state text. Otherwise there is one item per record, in order. |
| Album.ItemsFollowRecords | project/static/js/album.js:19-50 | Item j carries record j's URL. It is typed `video` exactly when the record's type is `video` and `image` otherwise, so every item has a type. |
| Album.ViewerFor | project/static/js/album.js:75-89 | The viewer shows the clicked item's own URL. |
| Album.ClickShowsRecord | project/static/js/album.js:53-89 | A click opens the viewer exactly outside selection mode and outside the exit window. The viewer then shows the record's own file, as a video player exactly for a video. |
| Carousel.CardWidth | project/static/js/ayuda.js:14-18 | The card width is always positive. It is the measured width when that is not 0, and 300 otherwise. |
| Carousel.LayoutProperties | project/static/js/ayuda.js:21-40 | Only the active card is on top and only it is sharp. Blur grows by 2 px per card of distance, up to 6 px. Cards more than three away are hidden. The active card sits at the drag offset and the others are evenly spaced by the step, in card order. A farther card always lies below a nearer one. |
| Carousel.Carousel.Render | project/static/js/ayuda.js:14-40 | With cards, the width is measured, the step is the width plus 40, and the drawing is the layout for the active card and the offset. The index and the drag state are unchanged. |
| Carousel.Carousel.constructor | project/static/js/ayuda.js:7-18 | The first card is active, no drag is in progress, and the first drawing is at rest. |
| Carousel.Carousel.GoNext | project/static/js/ayuda.js:43-48 | The carousel moves one card on and redraws at rest. At the last card nothing changes, not even the drawing. |
| Carousel.Carousel.GoPrev | project/static/js/ayuda.js:49-54 | The carousel moves one card back and redraws at rest. At the first card nothing changes. |
| Carousel.Carousel.KeyDown | project/static/js/ayuda.js:43-63 | The right arrow moves on and the left arrow moves back, each within the bounds. Other keys change nothing. When the card moved, the cards are redrawn at rest with the new width. When it did not, the drawing, the step and the width are unchanged. |
| Carousel.Carousel.PointerDown | project/static/js/ayuda.js:72-81 | A drag starts at the pointer with no offset. The card and the drawing are unchanged. |
| Carousel.Carousel.PointerMove | project/static/js/ayuda.js:83-88 | While dragging, the offset is the distance from the start and the cards are drawn shifted by it. Without a drag nothing changes. |
| Carousel.Carousel.PointerUp | project/static/js/ayuda.js:90-105 | The drag ends. A swipe further than 60 px to the left moves on and one to the right moves back, each within the bounds. After such a swipe, a moved card means a redraw at rest. At the first or last card the drawing, the step and the width stay as the drag left them. A shorter swipe keeps the card and redraws at rest. Without a drag nothing changes. |
| Carousel.Carousel.Resize | project/static/js/ayuda.js:124 | A resize redraws at rest with the new width. |
| MediaModel.ExtensionAfterLastDot | project/wedding_gallery/models.py:7 | The extension is the text after the last dot, or the whole name without a dot, and holds no dot. |
| MediaModel.UploadPathKeepsName | project/wedding_gallery/models.py:5-12 | The upload path is one of the three folders followed by the file name exactly as given. |
| MediaModel.UploadPathRouting | project/wedding_gallery/models.py:5-12 | A name ending in `.ext` goes to `images/` for the five image extensions and to `videos/` for the five video extensions, in any letter case. Everything else goes to `other/`. |
| MediaModel.UploadPathCaseInsensitive | project/wedding_gallery/models.py:7-11 | Two names whose extensions differ only in letter case land in the same folder. |
| MediaModel.UploadPathWithoutDot | project/wedding_gallery/models.py:7-12 | A name without a dot is routed by the whole name. |
| MediaModel.SavedMediaTypeProperties | project/wedding_gallery/models.py:136-141 | A guess starting with `image` sets `image`, and one starting with `video` sets `video`. Any other guess, or none, keeps the previous type, so a type among the choices stays among them. |
| MediaModel.TitleKeepsLetters | project/wedding_gallery/models.py:99 | Title casing changes only the case of letters. |
| MediaModel.TitleOfLowerWordFirst | project/wedding_gallery/models.py:99 | A non-empty word of lower-case ASCII letters title-cases to its first letter in upper case followed by the rest unchanged. |
| MediaModel.DisplayTextProperties | project/wedding_gallery/models.py:98-101 | The display text is `Image: `, `Video: ` or `Media: ` (for no type) followed by the object key, or by `(sin clave)` exactly when there is no key. |
| MediaModel.Media.constructor | project/wedding_gallery/models.py:69-73 | A new record is visible (status 1), with no key, blank types and no size. |
| MediaModel.Media.Save | project/wedding_gallery/models.py:121-141 | With a file, an empty key becomes the file's name and an existing key is kept. The size is recorded, the MIME type is the guess, and the media type follows the guess's prefix. Without a file nothing changes. |
| MediaSerializer.ValidateFileProperties | project/wedding_gallery/serializers.py:29-41 | A file passes exactly when its guessed type is one of the eight allowed ones, and it is then returned unchanged. A missing guess is "not recognized"; any other type is "not allowed". |
| MediaSerializer.AllowedTypesArePrefixed | project/wedding_gallery/serializers.py:34-35 | Every allowed type is an image type with the `image/` prefix or a video type with the `video/` prefix. |
| MediaSerializer.PrepareCreate | project/wedding_gallery/serializers.py:43-51 | `mime_type` becomes the guess, or `application/octet-stream` without one. `media_type` is set by the `image/` or `video/` prefix and left as it was otherwise. No other entry changes. |
| MediaSerializer.ValidatedFileIsTyped | project/wedding_gallery/serializers.py:43-51 | For a validated file, create stores the guess and always sets the media type, `image` exactly for the image types and `video` exactly for the video types. The record's own save then arrives at the same media type. |
| MediaSerializer.FileUrl | project/wedding_gallery/serializers.py:23-27 | There is no URL exactly when the record has no file. It is absolute when a request is in the context, and the storage URL otherwise. |
| MediaViews.VisibleCounts | project/wedding_gallery/views.py:66 | The visible filter keeps each visible record as often as it is stored, and drops every hidden one. |
| MediaViews.OfTypeCounts | project/wedding_gallery/views.py:83 | The type filter keeps each record of that type as often as it occurs, and drops the rest. |
| MediaViews.NewestFirstSorts | project/wedding_gallery/views.py:66 | Ordering newest first gives a newest-first sequence of the same records, each as often. |
| MediaViews.OfTypeKeepsOrder | project/wedding_gallery/views.py:81-83 | Filtering a newest-first sequence by type keeps it newest first. |
| MediaViews.QuerysetProperties | project/wedding_gallery/views.py:66 | The base query holds exactly the visible records, each as often as stored, newest first. |
| MediaViews.ListResultProperties | project/wedding_gallery/views.py:76-91 | The list is newest first. For `image` or `video` it holds exactly the visible records of that type. Any other value, or none, gives the whole base query. |
| MediaViews.VisibleOfTypeCounts | project/wedding_gallery/views.py:130-131 | A gallery half is newest first and holds exactly the visible records of its type. |
| MediaViews.VisibleOfTypeMembers | project/wedding_gallery/views.py:130-131 | Every record of a gallery half is visible and of that half's type. |
| MediaViews.VisibleOfTypeMatchesList | project/wedding_gallery/views.py:130-131 | A gallery half holds the same records as the list filtered by its type. |
| MediaViews.GalleryProperties | project/wedding_gallery/views.py:126-137 | Images are the visible images and videos the visible videos, each newest first. The total is their sum, and each half holds the same records as the list filtered by its type. |
| MediaViews.StatsProperties | project/wedding_gallery/views.py:155-167 | The total is at least images plus videos, and equal to it exactly when every visible record has a type. Images plus videos is the gallery's total. |
| MediaViews.CreateResponseProperties | project/wedding_gallery/views.py:93-108 | An upload gets 201 exactly when its type is allowed and saving succeeds, with the allowed type and the matching media type. Every other outcome is 400: either the validation message, or the save error after `Error al subir el archivo: `. |
| MediaViews.SerializerForProperties | project/wedding_gallery/views.py:70-74 | Only the listing uses the list serializer; every other action uses the full one. Every field shown is a detail field, and the URL is always shown. |

## Left out

- Vibration, styles, object URLs, pointer capture, console logging, `alert` and `confirm` dialogs are left out as browser plumbing. The answer to a confirm is a parameter.
- The `touchstart` and `contextmenu` handlers of both selection scripts are left out. They only cancel the browser's default action.
- Delays are not modelled: pauses between downloads, the feedback that hides after 2 s, the delayed error alerts, and the redirect timers. The upload report names the redirect and its delay instead of waiting.
- Selection.Engine.DownloadSelected: the report does not record the address fetched (the download proxy on phones), the progress messages shown during the loop, or the details alert.
- Selection.Engine.DownloadSelected: the last error is kept in `window._lastDownloadError`. A stale value from an earlier run can reach the feedback when this run had no failure and nothing was downloaded. The model uses only the current run's first error.
- SelectionLegacy.DownloadSelectedLegacy: the fallback to a tab when creating a download link throws is not modelled. Nothing in the loop can throw there.
- SelectionCommon.ShareItems: the title and the `N archivo(s)` text passed along with shared files are not part of the result. The WhatsApp text is kept before `encodeURIComponent`.
- SelectionCommon.Extension: the URL's pathname is an input. `new URL` parsing is left out, and a URL it rejects counts as a failed fetch.
- Upload.UploadError: a 2xx answer whose body is not JSON counts as a success. In the page, `resp.json()` would reject it and list it as a failure.
- Upload.UploadError: the timeout covers only the wait for the response headers, as its timer is cleared once `fetch` resolves. Reading the body has no time limit.
- Upload.Prefix: JavaScript counts UTF-16 code units and Dafny counts Unicode scalar values. They differ for characters outside the Basic Multilingual Plane.
- Upload.SizeMiBRounding is exact: dividing by 2^20 is exact in IEEE doubles for every size below 2^53, so `toFixed(2)` rounds the exact quotient. Only larger sizes are outside the model.
- The general `catch` of the confirm handler (`project/static/js/camara.js:245-249`) is not modelled. Nothing inside its `try` can throw past the per-file `catch`.
- Carousel.Carousel.Render: positions are whole pixels. Scale, rotation and the opacity values within distance 3 are floating point and are not modelled.
- The carousel's choice between pointer events and the touch/mouse fallback (`project/static/js/ayuda.js:108-121`) is not modelled. Both routes call the same three handlers, which take the pointer's x as a parameter.
- Carousel.Carousel.PointerUp states the code as written: a swipe past the threshold at the first or last card calls `goPrev` or `goNext`, which then do nothing, so the cards stay drawn at the drag offset.
- Album.LoadGallery: a null record inside the arrays is not modelled. The page would show the error text for it.
- Album.LoadGallery: a record whose `file_url` is null (the server sends none for a record without a file) is not modelled. The page would store the text `null` as the item's URL. `MediaRecord.fileUrl` is always a string.
- MediaModel.Title: only ASCII letters are cased. Python's `str.title` also cases other scripts.
- MediaModel.Folder follows Python's `lower()` only as far as an extension in the lists can be reached. That means ASCII letters plus the Kelvin sign.
- MediaViews.NewestFirst: records created at the same instant keep their storage order. The database leaves that order unspecified.
- MediaModel.Media.Save: the SHA-256 hash, the empty metadata helpers, the database write and the log lines are left out. The unique and NOT NULL constraints of the columns are not modelled.
- The Pillow width and height extraction after `create` (`project/wedding_gallery/serializers.py:53-65`) is left out as a foreign library.
- Validation of request fields other than the file is left out; it is the serializer framework's own. So are the read-only and writable field lists: only the list and detail outputs are modelled, through `MediaViews.SerializerForProperties`.
- Pagination, the inherited retrieve, update and delete actions, `health_check` and the schema decorators of `views.py` are left out as framework plumbing.
- The database is a sequence of rows with the fields the endpoints look at. The response bodies keep only the fields the properties are about.
