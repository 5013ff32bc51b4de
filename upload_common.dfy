/** The part of the upload page script shared by both versions: the two
    modals (the source chooser and the upload confirmation), the preview of
    the picked files, the confirmation prompt, the name each file is sent
    under, and the HTTP success test. */
module UploadCommon {
  import opened Util

  /** At most this many picked files get their own preview tile. */
  const MAX_PREVIEW_FILES := 6

  /** A picked file: its name, its size in bytes and its MIME type (`""` when
      the browser does not know it). */
  datatype File = File(name: string, size: nat, mime: string)

  /** One cell of the preview grid: the file at (1-based) `position` shown as
      an image or a video, or the closing `+N` cell. */
  datatype Tile = ImageTile(position: nat) | VideoTile(position: nat) | MoreTile(remaining: nat)

  predicate StartsWith(s: string, prefix: string) { prefix <= s }

  predicate IsVideoFile(f: File) { StartsWith(f.mime, "video/") }

  function TileFor(f: File, position: nat): Tile
  {
    if IsVideoFile(f) then VideoTile(position) else ImageTile(position)
  }

  function Min(a: nat, b: nat): nat { if a < b then a else b }

  /** The preview grid for the picked files: one tile per file among the
      first six, then `+N` for the rest when there are more. */
  function BuildPreview(files: seq<File>): (tiles: seq<Tile>)
  {
    var shown := Min(|files|, MAX_PREVIEW_FILES);
    seq(shown, k requires 0 <= k < shown => TileFor(files[k], k + 1))
    + (if |files| > MAX_PREVIEW_FILES then [MoreTile(|files| - MAX_PREVIEW_FILES)] else [])
  }

  /** How many files a preview stands for. */
  function TileCount(t: Tile): nat
  {
    if t.MoreTile? then t.remaining else 1
  }

  function FilesShown(tiles: seq<Tile>): nat
  {
    if tiles == [] then 0 else TileCount(tiles[0]) + FilesShown(tiles[1..])
  }

  lemma {:induction false} FilesShownAppend(a: seq<Tile>, b: seq<Tile>)
    ensures FilesShown(a + b) == FilesShown(a) + FilesShown(b)
    decreases |a|
  {
    if a == [] {
      assert a + b == b;
    } else {
      assert (a + b)[0] == a[0];
      assert (a + b)[1..] == a[1..] + b;
      FilesShownAppend(a[1..], b);
    }
  }

  lemma {:induction false} FilesShownSingles(tiles: seq<Tile>)
    requires forall k :: 0 <= k < |tiles| ==> !tiles[k].MoreTile?
    ensures FilesShown(tiles) == |tiles|
    decreases |tiles|
  {
    if tiles != [] { FilesShownSingles(tiles[1..]); }
  }

  /** The preview accounts for every picked file exactly once: tile k stands
      for file k (as a video exactly when its type is `video/...`), at most
      six files are shown, and the `+N` tile covers the rest. */
  lemma PreviewAccountsForAllFiles(files: seq<File>)
    ensures var tiles := BuildPreview(files);
      && FilesShown(tiles) == |files|
      && |tiles| == Min(|files|, MAX_PREVIEW_FILES) + (if |files| > MAX_PREVIEW_FILES then 1 else 0)
      && (forall k :: 0 <= k < Min(|files|, MAX_PREVIEW_FILES) ==>
            !tiles[k].MoreTile? && tiles[k].position == k + 1
            && (tiles[k].VideoTile? <==> IsVideoFile(files[k])))
      && (|files| > MAX_PREVIEW_FILES ==> tiles[|tiles| - 1] == MoreTile(|files| - MAX_PREVIEW_FILES))
  {
    var shown := Min(|files|, MAX_PREVIEW_FILES);
    var singles := seq(shown, k requires 0 <= k < shown => TileFor(files[k], k + 1));
    var more := if |files| > MAX_PREVIEW_FILES then [MoreTile(|files| - MAX_PREVIEW_FILES)] else [];
    assert BuildPreview(files) == singles + more;
    FilesShownSingles(singles);
    FilesShownAppend(singles, more);
    if more != [] {
      assert more[1..] == [];
    }
  }

  /** Text asking to confirm the upload of `n` files. */
  function PromptText(n: nat): string
  {
    if n == 1 then "¿Subir este archivo?" else "¿Subir estos " + NatToString(n) + " archivos?"
  }

  /** The prompt tells the number of files: different counts give different
      prompts. */
  lemma PromptTextInjective(m: nat, n: nat)
    requires PromptText(m) == PromptText(n)
    ensures m == n
  {
    var pre := "¿Subir estos ";
    assert PromptText(1)[10] == 'e' && pre[10] == 'o';
    if m != 1 {
      assert PromptText(m)[..|pre|] == pre;
      assert PromptText(m)[|pre|..|pre| + |NatToString(m)|] == NatToString(m);
    }
    if n != 1 {
      assert PromptText(n)[..|pre|] == pre;
      assert PromptText(n)[|pre|..|pre| + |NatToString(n)|] == NatToString(n);
    }
    if m != 1 && n != 1 {
      assert |PromptText(m)| == |pre| + |NatToString(m)| + 10;
      assert |PromptText(n)| == |pre| + |NatToString(n)| + 10;
      NatToStringInjective(m, n);
    }
  }

  /** The name a file is sent under: its own name unless that is missing or
      blank, else `archivo_<now>_<index>.jpg`. */
  function SafeName(f: File, now: nat, i: nat): string
  {
    if f.name != "" && !IsBlank(f.name) then f.name else FallbackName(now, i)
  }

  function FallbackName(now: nat, i: nat): string
  {
    "archivo_" + NatToString(now) + "_" + NatToString(i) + ".jpg"
  }

  /** A usable name is kept as it is; otherwise the file gets a generated,
      non-blank `.jpg` name. */
  lemma SafeNameProperties(f: File, now: nat, i: nat)
    ensures !IsBlank(f.name) ==> SafeName(f, now, i) == f.name
    ensures IsBlank(f.name) ==> SafeName(f, now, i) == FallbackName(now, i)
    ensures !IsBlank(SafeName(f, now, i))
    ensures IsBlank(f.name) ==> ".jpg" <= SafeName(f, now, i)[|SafeName(f, now, i)| - 4..]
  {
    if IsBlank(f.name) {
      assert FallbackName(now, i)[0] == 'a';
    }
  }

  /** `Subiendo u/N…`. */
  function ProgressText(u: nat, n: nat): string
  {
    "Subiendo " + NatToString(u) + "/" + NatToString(n) + "…"
  }

  /** `response.ok`. */
  predicate IsOk(status: nat) { 200 <= status <= 299 }

  /** The page's mutable state: the picked files and the visible parts. */
  class Uploader {
    /** `selectedFiles`. */
    var selectedFiles: seq<File>
    /** The source chooser is open. */
    var choiceOpen: bool
    /** The upload confirmation is open. */
    var uploadOpen: bool
    /** The preview block is displayed. */
    var previewVisible: bool
    /** The cells of the preview grid. */
    var tiles: seq<Tile>
    /** The confirmation prompt text. */
    var prompt: string
    /** The file inputs were emptied by a reset and no files were picked
        since. */
    var inputsCleared: bool

    /** The preview shows the picked files, the prompt counts them, and the
        confirmation is only open with something picked. */
    ghost predicate Valid()
      reads this
    {
      && previewVisible == (selectedFiles != [])
      && tiles == BuildPreview(selectedFiles)
      && (selectedFiles != [] ==> prompt == PromptText(|selectedFiles|))
      && (uploadOpen ==> selectedFiles != [])
    }

    constructor (prompt: string)
      ensures Valid()
      ensures selectedFiles == [] && !choiceOpen && !uploadOpen && !previewVisible && tiles == []
      ensures this.prompt == prompt && !inputsCleared
    {
      selectedFiles := [];
      choiceOpen := false;
      uploadOpen := false;
      previewVisible := false;
      tiles := [];
      this.prompt := prompt;
      inputsCleared := false;
    }

    /** `resetSelection`. */
    method ResetSelection()
      requires Valid() && !uploadOpen
      modifies this
      ensures Valid()
      ensures selectedFiles == [] && !previewVisible && tiles == [] && inputsCleared
      ensures choiceOpen == old(choiceOpen) && !uploadOpen && prompt == old(prompt)
    {
      selectedFiles := [];
      inputsCleared := true;
      previewVisible := false;
      tiles := [];
    }

    /** The camera link: opens the source chooser. */
    method OpenCameraLink()
      requires Valid()
      modifies this
      ensures Valid() && choiceOpen
      ensures selectedFiles == old(selectedFiles) && uploadOpen == old(uploadOpen)
      ensures prompt == old(prompt) && inputsCleared == old(inputsCleared)
    {
      choiceOpen := true;
    }

    /** The "gallery" button of the chooser: closes it (and opens the
        system file picker). */
    method OpenGalleryButton()
      requires Valid()
      modifies this
      ensures Valid() && !choiceOpen
      ensures selectedFiles == old(selectedFiles) && uploadOpen == old(uploadOpen)
      ensures prompt == old(prompt) && inputsCleared == old(inputsCleared)
    {
      choiceOpen := false;
    }

    /** A click inside the chooser: only its backdrop closes it. */
    method ChoiceClick(onBackdrop: bool)
      requires Valid()
      modifies this
      ensures Valid() && choiceOpen == (old(choiceOpen) && !onBackdrop)
      ensures selectedFiles == old(selectedFiles) && uploadOpen == old(uploadOpen)
      ensures prompt == old(prompt) && inputsCleared == old(inputsCleared)
    {
      if onBackdrop { choiceOpen := false; }
    }

    /** `handleFilesFromInput`, for the `files` of either input (`None` for no
        list): a non-empty list replaces the picked files, rebuilds the
        preview and the prompt and opens the confirmation; otherwise nothing
        changes. */
    method HandleFilesFromInput(files: Option<seq<File>>)
      requires Valid()
      modifies this
      ensures Valid() && choiceOpen == old(choiceOpen)
      ensures (files == None || files == Some([])) ==>
        && selectedFiles == old(selectedFiles) && uploadOpen == old(uploadOpen) && prompt == old(prompt)
        && inputsCleared == old(inputsCleared)
      ensures (files.Some? && files.value != []) ==>
        && selectedFiles == files.value && tiles == BuildPreview(files.value)
        && prompt == PromptText(|files.value|) && previewVisible && uploadOpen && !inputsCleared
    {
      if files == None || |files.value| == 0 { return; }
      inputsCleared := false;
      selectedFiles := files.value;
      tiles := BuildPreview(selectedFiles);
      prompt := PromptText(|selectedFiles|);
      previewVisible := true;
      uploadOpen := true;
    }

    /** The cancel button: closes the confirmation and resets the selection. */
    method Cancel()
      requires Valid()
      modifies this
      ensures Valid() && !uploadOpen && selectedFiles == [] && !previewVisible && tiles == [] && inputsCleared
      ensures choiceOpen == old(choiceOpen) && prompt == old(prompt)
    {
      uploadOpen := false;
      ResetSelection();
    }

    /** A click inside the confirmation: on its backdrop it acts as cancel. */
    method UploadClick(onBackdrop: bool)
      requires Valid()
      modifies this
      ensures Valid() && choiceOpen == old(choiceOpen) && prompt == old(prompt)
      ensures onBackdrop ==> !uploadOpen && selectedFiles == [] && !previewVisible && inputsCleared
      ensures !onBackdrop ==> selectedFiles == old(selectedFiles) && uploadOpen == old(uploadOpen)
                              && inputsCleared == old(inputsCleared)
    {
      if onBackdrop { Cancel(); }
    }
  }
}
