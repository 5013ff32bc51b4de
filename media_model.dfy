/** The stored media record of the server: where an upload is filed by its
    extension, what `save` fills in before writing the record, and the
    record's display text. Files, hashing and the database are outside the
    model; the file is represented by its name (`""` when there is none). */
module MediaModel {
  import opened Util

  const IMAGE_EXTENSIONS: seq<string> := ["jpg", "jpeg", "png", "gif", "webp"]
  const VIDEO_EXTENSIONS: seq<string> := ["mp4", "mov", "avi", "mkv", "webm"]

  /** The folder prefixes an upload can be filed under. */
  const IMAGE_FOLDER := "images/"
  const VIDEO_FOLDER := "videos/"
  const OTHER_FOLDER := "other/"

  /** The status value of a visible record, and the default of new ones. */
  const VISIBLE := 1
  const HIDDEN := 0

  // ---------------------------------------------------------------------
  // Upload path

  /** Python `filename.split('.')[-1]` (the separator is not empty, so
      Python's `split` and the shared `Split` agree). */
  function FileExtension(filename: string): string
  {
    var parts := Split(filename, ".");
    parts[|parts| - 1]
  }

  /** The folder an extension is filed under, ignoring letter case. */
  function Folder(ext: string): string
  {
    if Lower(ext) in IMAGE_EXTENSIONS then IMAGE_FOLDER
    else if Lower(ext) in VIDEO_EXTENSIONS then VIDEO_FOLDER
    else OTHER_FOLDER
  }

  /** `get_upload_path(instance, filename)`. */
  function UploadPath(filename: string): string
  {
    Folder(FileExtension(filename)) + filename
  }

  /** After a dot, a dot-free ending is the last piece of the split. */
  lemma {:induction false} SplitLastPiece(stem: string, ext: string)
    requires '.' !in ext
    ensures |Split(stem + "." + ext, ".")| >= 2
    ensures FileExtension(stem + "." + ext) == ext
    decreases |stem|
  {
    var s := stem + "." + ext;
    if stem == [] {
      assert s == "." + ext && s[..1] == ".";
      assert s[1..] == ext;
      SplitAbsent(ext, ".");
    } else {
      assert s[1..] == stem[1..] + "." + ext;
      SplitLastPiece(stem[1..], ext);
    }
  }

  /** The extension is exactly the text after the last dot, or the whole
      name when it has no dot; it never holds a dot. */
  lemma ExtensionAfterLastDot(filename: string)
    ensures '.' !in FileExtension(filename)
    ensures LastIndexOf(filename, '.') == -1 ==> FileExtension(filename) == filename
    ensures LastIndexOf(filename, '.') >= 0 ==>
      FileExtension(filename) == filename[LastIndexOf(filename, '.') + 1..]
  {
    var r := LastIndexOf(filename, '.');
    if r == -1 {
      SplitAbsent(filename, ".");
    } else {
      var stem, ext := filename[..r], filename[r + 1..];
      assert filename == stem + "." + ext;
      SplitLastPiece(stem, ext);
    }
  }

  /** The upload path is one of the three folders followed by the file name
      as it was given. */
  lemma UploadPathKeepsName(filename: string)
    ensures var path := UploadPath(filename);
      && |path| >= |filename|
      && path[|path| - |filename|..] == filename
      && path[..|path| - |filename|] in {IMAGE_FOLDER, VIDEO_FOLDER, OTHER_FOLDER}
  {
    var path := UploadPath(filename);
    var folder := Folder(FileExtension(filename));
    assert path[..|folder|] == folder && path[|folder|..] == filename;
  }

  /** A name ending in `.ext` is filed by `ext` alone, whatever comes before
      the last dot: under `images/` for the image extensions, under `videos/`
      for the video extensions and under `other/` for the rest, in any mix of
      upper and lower case. */
  lemma UploadPathRouting(stem: string, ext: string)
    requires '.' !in ext
    ensures Lower(ext) in IMAGE_EXTENSIONS ==> UploadPath(stem + "." + ext) == IMAGE_FOLDER + stem + "." + ext
    ensures Lower(ext) in VIDEO_EXTENSIONS ==> UploadPath(stem + "." + ext) == VIDEO_FOLDER + stem + "." + ext
    ensures Lower(ext) !in IMAGE_EXTENSIONS && Lower(ext) !in VIDEO_EXTENSIONS ==>
      UploadPath(stem + "." + ext) == OTHER_FOLDER + stem + "." + ext
  {
    SplitLastPiece(stem, ext);
  }

  /** Routing ignores the extension's letter case: two names whose
      extensions differ only in case land in the same folder. */
  lemma UploadPathCaseInsensitive(stem1: string, ext1: string, stem2: string, ext2: string)
    requires '.' !in ext1 && '.' !in ext2 && Lower(ext1) == Lower(ext2)
    ensures var p1, p2 := UploadPath(stem1 + "." + ext1), UploadPath(stem2 + "." + ext2);
      p1[..|p1| - |stem1 + "." + ext1|] == p2[..|p2| - |stem2 + "." + ext2|]
  {
    SplitLastPiece(stem1, ext1);
    SplitLastPiece(stem2, ext2);
    var n1, n2 := stem1 + "." + ext1, stem2 + "." + ext2;
    assert UploadPath(n1)[..|UploadPath(n1)| - |n1|] == Folder(ext1);
    assert UploadPath(n2)[..|UploadPath(n2)| - |n2|] == Folder(ext2);
  }

  /** A name without a dot is its own extension: `jpg` alone is filed under
      `images/`, a plain `clip` under `other/`. */
  lemma UploadPathWithoutDot(filename: string)
    requires '.' !in filename
    ensures UploadPath(filename) == Folder(filename) + filename
    ensures Lower(filename) in IMAGE_EXTENSIONS ==> UploadPath(filename) == IMAGE_FOLDER + filename
  {
    SplitAbsent(filename, ".");
  }

  // ---------------------------------------------------------------------
  // Media type from a guessed MIME type

  predicate StartsWith(s: string, prefix: string) { prefix <= s }

  /** The media type `save` leaves, from the one the record had and the MIME
      type guessed from the file name: `image` for a guess starting with
      `image`, `video` for one starting with `video`, the previous one otherwise
      (no guess, an empty guess, or any other type). */
  function SavedMediaType(previous: string, guessed: Option<string>): string
  {
    if guessed.Some? && guessed.value != "" then
      (if StartsWith(guessed.value, "image") then "image"
       else if StartsWith(guessed.value, "video") then "video"
       else previous)
    else previous
  }

  /** `save` only ever moves the media type to `image` or `video`, exactly by
      the guess's prefix, and keeps it otherwise; so a record whose type is
      one of the choices (or blank) keeps a type among them. */
  lemma SavedMediaTypeProperties(previous: string, guessed: Option<string>)
    ensures var t := SavedMediaType(previous, guessed);
      && (guessed.Some? && StartsWith(guessed.value, "image") ==> t == "image")
      && (guessed.Some? && StartsWith(guessed.value, "video") ==> t == "video")
      && (guessed.None? || (!StartsWith(guessed.value, "image") && !StartsWith(guessed.value, "video")) ==> t == previous)
      && (previous in {"", "image", "video"} ==> t in {"", "image", "video"})
  {
    if guessed.Some? && guessed.value == "" {
      assert StartsWith("", "") && !StartsWith("", "image") && !StartsWith("", "video");
    }
  }

  // ---------------------------------------------------------------------
  // Display text

  /** Python `str.title()` on ASCII letters: a letter after a letter is
      lowered, any other letter is raised; other characters are kept and end
      a word. */
  function TitleFrom(s: string, afterLetter: bool): (r: string)
    ensures |r| == |s|
    decreases |s|
  {
    if s == [] then []
    else if IsAsciiLetter(s[0]) then
      [if afterLetter then LowerChar(s[0]) else UpperChar(s[0])] + TitleFrom(s[1..], true)
    else [s[0]] + TitleFrom(s[1..], false)
  }

  function Title(s: string): string { TitleFrom(s, false) }

  /** Title casing changes only the case of letters: lowering both sides
      gives the same text. */
  lemma {:induction false} TitleKeepsLetters(s: string, afterLetter: bool)
    ensures Lower(TitleFrom(s, afterLetter)) == Lower(s)
    decreases |s|
  {
    if s != [] {
      TitleKeepsLetters(s[1..], IsAsciiLetter(s[0]));
      var r := TitleFrom(s, afterLetter);
      assert r[1..] == TitleFrom(s[1..], IsAsciiLetter(s[0]));
      assert Lower(r)[0] == Lower(s)[0];
      assert Lower(r)[1..] == Lower(r[1..]);
      assert Lower(s)[1..] == Lower(s[1..]);
    }
  }

  /** A word already in lower case stays as it is after its first letter. */
  lemma {:induction false} TitleOfLowerWord(s: string)
    requires forall k :: 0 <= k < |s| ==> IsAsciiLower(s[k])
    ensures TitleFrom(s, true) == s
    decreases |s|
  {
    if s != [] {
      TitleOfLowerWord(s[1..]);
    }
  }

  /** A lower-case word is title-cased by raising its first letter alone. */
  lemma TitleOfLowerWordFirst(s: string)
    requires |s| > 0 && forall k :: 0 <= k < |s| ==> IsAsciiLower(s[k])
    ensures Title(s) == [UpperChar(s[0])] + s[1..]
  {
    TitleOfLowerWord(s[1..]);
  }

  /** The three type names shown: `Image`, `Video` and `Media`. */
  lemma TitleOfImage()
    ensures Title("image") == "Image"
  {
    TitleOfLowerWordFirst("image");
  }

  lemma TitleOfVideo()
    ensures Title("video") == "Video"
  {
    TitleOfLowerWordFirst("video");
  }

  lemma TitleOfMedia()
    ensures Title("media") == "Media"
  {
    TitleOfLowerWordFirst("media");
  }

  /** The key part of the display text. */
  function KeyText(objectKey: Option<string>): string
  {
    if objectKey.Some? && objectKey.value != "" then objectKey.value else "(sin clave)"
  }

  /** The display text of a record: its title-cased media type (`Media` when
      it has none), a colon, and its object key (`(sin clave)` when it has
      none). */
  function DisplayText(mediaType: string, objectKey: Option<string>): string
  {
    Title(if mediaType == "" then "media" else mediaType) + ": " + KeyText(objectKey)
  }

  /** The display text names an image as `Image`, a video as `Video` and an
      untyped record as `Media`, and shows its key, or `(sin clave)` exactly
      when it has none. */
  lemma DisplayTextProperties(mediaType: string, objectKey: Option<string>)
    ensures mediaType == "image" ==> DisplayText(mediaType, objectKey) == "Image: " + KeyText(objectKey)
    ensures mediaType == "video" ==> DisplayText(mediaType, objectKey) == "Video: " + KeyText(objectKey)
    ensures mediaType == "" ==> DisplayText(mediaType, objectKey) == "Media: " + KeyText(objectKey)
    ensures objectKey.Some? && objectKey.value != "" ==> KeyText(objectKey) == objectKey.value
    ensures objectKey.None? || objectKey.value == "" ==> KeyText(objectKey) == "(sin clave)"
  {
    TitleOfImage();
    TitleOfVideo();
    TitleOfMedia();
  }

  // ---------------------------------------------------------------------
  // The record

  /** One stored media record, with the fields `save` fills in. */
  class Media {
    /** The file's name (`""`: no file attached). */
    var fileName: string
    /** `object_key` (`None` is NULL). */
    var objectKey: Option<string>
    /** `mime_type` (`None` once a guess has failed). */
    var mimeType: Option<string>
    /** `media_type` (`""` when blank). */
    var mediaType: string
    /** `bytes`. */
    var bytes: Option<nat>
    /** `status`: 1 visible, 0 hidden. */
    var status: nat

    /** A new record for a file: visible, with no key, blank types and no
        size. */
    constructor (fileName: string)
      ensures this.fileName == fileName && objectKey == None && mimeType == Some("")
      ensures mediaType == "" && bytes == None && status == VISIBLE
    {
      this.fileName := fileName;
      objectKey := None;
      mimeType := Some("");
      mediaType := "";
      bytes := None;
      status := VISIBLE;
    }

    /** `save`, before the write: with a file attached, an empty key becomes
        the file's name (an existing one is kept), the size is recorded, the
        MIME type is guessed from the name and the media type follows it.
        Without a file nothing changes. `guess` is `mimetypes.guess_type`'s
        type and `size` the file's size, if it has one. */
    method Save(guess: string -> Option<string>, size: Option<nat>)
      modifies this
      ensures fileName == old(fileName) && status == old(status)
      ensures old(fileName) == "" ==>
        objectKey == old(objectKey) && mimeType == old(mimeType) && mediaType == old(mediaType) && bytes == old(bytes)
      ensures old(fileName) != "" ==>
        && objectKey == (if old(objectKey).Some? && old(objectKey).value != "" then old(objectKey) else Some(fileName))
        && bytes == size
        && mimeType == guess(fileName)
        && mediaType == SavedMediaType(old(mediaType), guess(fileName))
    {
      if fileName != "" {
        if objectKey == None || objectKey == Some("") {
          objectKey := Some(fileName);
        }
        bytes := size;
        mimeType := guess(fileName);
        if mimeType.Some? && mimeType.value != "" {
          if StartsWith(mimeType.value, "image") {
            mediaType := "image";
          } else if StartsWith(mimeType.value, "video") {
            mediaType := "video";
          }
        }
      }
    }

    /** `__str__`. */
    function Describe(): string
      reads this
    {
      DisplayText(mediaType, objectKey)
    }
  }
}
