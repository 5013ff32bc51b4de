/** The upload serializer of the server: the MIME allowlist that accepts or
    rejects an uploaded file, the type fields `create` derives before the
    record is written, and the file URL both serializers expose.
    `mimetypes.guess_type` is the parameter `guess`, a function from a file
    name to the guessed type. */
module MediaSerializer {
  import opened Util
  import opened MediaModel

  const ALLOWED_IMAGE_TYPES: seq<string> := ["image/jpeg", "image/png", "image/gif", "image/webp"]
  const ALLOWED_VIDEO_TYPES: seq<string> := ["video/mp4", "video/quicktime", "video/x-msvideo", "video/webm"]
  const ALLOWED_TYPES: seq<string> := ALLOWED_IMAGE_TYPES + ALLOWED_VIDEO_TYPES

  const UNRECOGNIZED_TYPE := "Tipo de archivo no reconocido"
  const TYPE_NOT_ALLOWED :=
    "Tipo de archivo no permitido. Solo imágenes (JPEG, PNG, GIF, WebP) y vídeos (MP4, MOV, AVI, WebM)"
  /** The MIME type stored when none can be guessed. */
  const DEFAULT_MIME := "application/octet-stream"

  /** An uploaded file as the serializer sees it. */
  datatype UploadedFile = UploadedFile(name: string, size: nat)

  /** `validate_file`: the value itself when its guessed type is one of the
      eight allowed ones, else the validation message. A missing or empty
      guess is "not recognized"; any other type is "not allowed". */
  function ValidateFile(value: UploadedFile, guess: string -> Option<string>): Result<UploadedFile, string>
  {
    var mime := guess(value.name);
    if mime.None? || mime.value == "" then Err(UNRECOGNIZED_TYPE)
    else if mime.value !in ALLOWED_TYPES then Err(TYPE_NOT_ALLOWED)
    else Ok(value)
  }

  /** A file passes exactly when its guessed type is allowed, and then it is
      returned unchanged; the two rejections are told apart by whether a
      type was guessed at all. */
  lemma ValidateFileProperties(value: UploadedFile, guess: string -> Option<string>)
    ensures var r := ValidateFile(value, guess);
      var mime := guess(value.name);
      && (r.Ok? <==> mime.Some? && mime.value in ALLOWED_TYPES)
      && (r.Ok? ==> r.value == value)
      && (r == Err(UNRECOGNIZED_TYPE) <==> mime.None? || mime.value == "")
      && (r == Err(TYPE_NOT_ALLOWED) <==> mime.Some? && mime.value != "" && mime.value !in ALLOWED_TYPES)
  {
    assert "" !in ALLOWED_TYPES;
    assert UNRECOGNIZED_TYPE != TYPE_NOT_ALLOWED by { assert |UNRECOGNIZED_TYPE| < |TYPE_NOT_ALLOWED|; }
  }

  /** The media type `create` derives from a guess: by the `image/` or
      `video/` prefix, and none (left unset) otherwise. */
  function CreateMediaType(guessed: Option<string>): Option<string>
  {
    if guessed.Some? && guessed.value != "" && StartsWith(guessed.value, "image/") then Some("image")
    else if guessed.Some? && guessed.value != "" && StartsWith(guessed.value, "video/") then Some("video")
    else None
  }

  /** `create`'s changes to the string-valued entries of `validated_data`
      for a file named `fileName`: `mime_type` becomes the guess, or the
      generic binary type when there is none; `media_type` is set only when
      the guess has an image or video prefix. */
  function PrepareCreate(data: map<string, string>, fileName: string, guess: string -> Option<string>)
    : (d: map<string, string>)
    ensures "mime_type" in d
    ensures d["mime_type"] == (if guess(fileName).Some? && guess(fileName).value != "" then guess(fileName).value else DEFAULT_MIME)
    ensures CreateMediaType(guess(fileName)).Some? ==> "media_type" in d && d["media_type"] == CreateMediaType(guess(fileName)).value
    ensures CreateMediaType(guess(fileName)).None? ==>
      ("media_type" in d <==> "media_type" in data) && ("media_type" in data ==> d["media_type"] == data["media_type"])
    ensures forall k :: k != "mime_type" && k != "media_type" ==>
      (k in d <==> k in data) && (k in data ==> d[k] == data[k])
  {
    var mime := guess(fileName);
    var withMime := data["mime_type" := if mime.Some? && mime.value != "" then mime.value else DEFAULT_MIME];
    if mime.Some? && mime.value != "" && StartsWith(mime.value, "image/") then withMime["media_type" := "image"]
    else if mime.Some? && mime.value != "" && StartsWith(mime.value, "video/") then withMime["media_type" := "video"]
    else withMime
  }

  /** Every allowed type has an image or a video prefix, by its list. */
  lemma AllowedTypesArePrefixed(mime: string)
    requires mime in ALLOWED_TYPES
    ensures mime in ALLOWED_IMAGE_TYPES ==> StartsWith(mime, "image/") && !StartsWith(mime, "video/")
    ensures mime in ALLOWED_VIDEO_TYPES ==> StartsWith(mime, "video/") && !StartsWith(mime, "image/")
    ensures mime in ALLOWED_IMAGE_TYPES || mime in ALLOWED_VIDEO_TYPES
  {
    if mime in ALLOWED_IMAGE_TYPES {
      assert mime[..6] == "image/" && mime[0] == 'i';
    } else {
      assert mime[..6] == "video/" && mime[0] == 'v';
    }
  }

  /** For a file that passed validation, `create` stores its guessed type as
      it is and always sets the media type, `image` for the four image types
      and `video` for the four video types; and the record's own `save`,
      which tests only the `image` / `video` prefix without the slash, then
      arrives at the same media type whatever the record held before. */
  lemma ValidatedFileIsTyped(value: UploadedFile, guess: string -> Option<string>, data: map<string, string>, previous: string)
    requires ValidateFile(value, guess).Ok?
    ensures var d := PrepareCreate(data, value.name, guess);
      var mime := guess(value.name).value;
      && d["mime_type"] == mime
      && "media_type" in d
      && (d["media_type"] == "image" <==> mime in ALLOWED_IMAGE_TYPES)
      && (d["media_type"] == "video" <==> mime in ALLOWED_VIDEO_TYPES)
      && SavedMediaType(previous, guess(value.name)) == d["media_type"]
  {
    var mime := guess(value.name).value;
    AllowedTypesArePrefixed(mime);
    assert "image" <= "image/" && "video" <= "video/";
    if mime in ALLOWED_IMAGE_TYPES {
      assert StartsWith(mime, "image") by { assert mime[..5] == "image"; }
    } else {
      assert StartsWith(mime, "video") by { assert mime[..5] == "video"; }
      assert !StartsWith(mime, "image") by { assert mime[0] == 'v'; }
    }
  }

  /** The request a serializer is given in its context: what it provides for
      turning a file's URL into an absolute one. */
  datatype Request = Request(buildAbsoluteUri: string -> string)

  /** `get_file_url` (identical in both serializers): no URL for a record
      without a file, the absolute form of the file's URL when a request is
      in the context, and the storage URL as it is otherwise. */
  function FileUrl(fileName: string, storageUrl: string, request: Option<Request>): (r: Option<string>)
    ensures r.None? <==> fileName == ""
    ensures r.Some? && request.None? ==> r.value == storageUrl
    ensures r.Some? && request.Some? ==> r.value == request.value.buildAbsoluteUri(storageUrl)
  {
    if fileName == "" then None
    else if request.Some? then Some(request.value.buildAbsoluteUri(storageUrl))
    else Some(storageUrl)
  }

  // ---------------------------------------------------------------------
  // The two serializers

  datatype SerializerClass = MediaListSerializer | MediaSerializer

  const DETAIL_FIELDS: seq<string> := ["id", "object_key", "file", "file_url", "mime_type", "media_type",
                                        "bytes", "width", "height", "duration_ms", "status", "created_at"]
  const LIST_FIELDS: seq<string> := ["id", "file_url", "media_type", "width", "height", "created_at"]

  /** The fields each serializer outputs. */
  function Fields(c: SerializerClass): seq<string>
  {
    if c == MediaListSerializer then LIST_FIELDS else DETAIL_FIELDS
  }

  /** The list form is a cut-down detail form: every field it outputs is a
      detail field, it always carries the file's URL and the type, and it
      omits the storage key, the MIME type and the size. */
  lemma ListFieldsAreDetailFields()
    ensures forall f :: f in Fields(MediaListSerializer) ==> f in Fields(MediaSerializer)
    ensures "file_url" in Fields(MediaListSerializer) && "media_type" in Fields(MediaListSerializer)
    ensures "object_key" !in Fields(MediaListSerializer) && "mime_type" !in Fields(MediaListSerializer)
    ensures "bytes" !in Fields(MediaListSerializer)
  {
  }
}
