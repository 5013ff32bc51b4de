/** The media endpoints of the server, as functions of the stored records:
    the visible records newest first, the list with its optional type filter,
    the gallery split by type, the statistics, the status of an upload, and
    the serializer each action uses. The database is the sequence `rows` of
    stored records, in storage order. */
module MediaViews {
  import opened Util
  import opened MediaModel
  import opened MediaSerializer

  /** One stored record, as far as the endpoints look at it. */
  datatype Row = Row(id: nat, mediaType: string, status: nat, createdAt: int)

  // ---------------------------------------------------------------------
  // Filters

  /** `filter(status=1)`, keeping the storage order. */
  function Visible(rows: seq<Row>): (v: seq<Row>)
    ensures |v| <= |rows|
  {
    if rows == [] then []
    else (if rows[0].status == VISIBLE then [rows[0]] else []) + Visible(rows[1..])
  }

  /** `filter(media_type=t)`, keeping the order. */
  function OfType(rows: seq<Row>, t: string): (v: seq<Row>)
    ensures |v| <= |rows|
  {
    if rows == [] then []
    else (if rows[0].mediaType == t then [rows[0]] else []) + OfType(rows[1..], t)
  }

  /** How often a record occurs in a filtered sequence: as often as in the
      input when it passes the filter, never otherwise. */
  lemma {:induction false} VisibleCounts(rows: seq<Row>, x: Row)
    ensures multiset(Visible(rows))[x] == if x.status == VISIBLE then multiset(rows)[x] else 0
  {
    if rows != [] {
      VisibleCounts(rows[1..], x);
      assert rows == [rows[0]] + rows[1..];
    }
  }

  lemma {:induction false} OfTypeCounts(rows: seq<Row>, t: string, x: Row)
    ensures multiset(OfType(rows, t))[x] == if x.mediaType == t then multiset(rows)[x] else 0
  {
    if rows != [] {
      OfTypeCounts(rows[1..], t, x);
      assert rows == [rows[0]] + rows[1..];
    }
  }

  // ---------------------------------------------------------------------
  // Newest first

  predicate NewestFirstOrder(s: seq<Row>)
  {
    forall i, j :: 0 <= i < j < |s| ==> s[i].createdAt >= s[j].createdAt
  }

  function Insert(r: Row, s: seq<Row>): (out: seq<Row>)
    ensures |out| == |s| + 1
  {
    if s == [] || r.createdAt >= s[0].createdAt then [r] + s else [s[0]] + Insert(r, s[1..])
  }

  /** `order_by('-created_at')`. Records created at the same instant keep
      their storage order. */
  function NewestFirst(s: seq<Row>): (out: seq<Row>)
    ensures |out| == |s|
  {
    if s == [] then [] else Insert(s[0], NewestFirst(s[1..]))
  }

  /** No record of `s` is newer than `b`. */
  predicate NoneNewerThan(s: seq<Row>, b: int)
  {
    forall k :: 0 <= k < |s| ==> s[k].createdAt <= b
  }

  lemma {:induction false} InsertBounded(r: Row, s: seq<Row>, b: int)
    requires r.createdAt <= b && NoneNewerThan(s, b)
    ensures NoneNewerThan(Insert(r, s), b)
  {
    if !(s == [] || r.createdAt >= s[0].createdAt) {
      InsertBounded(r, s[1..], b);
    }
  }

  lemma {:induction false} InsertOrdered(r: Row, s: seq<Row>)
    requires NewestFirstOrder(s)
    ensures NewestFirstOrder(Insert(r, s))
  {
    if !(s == [] || r.createdAt >= s[0].createdAt) {
      InsertOrdered(r, s[1..]);
      InsertBounded(r, s[1..], s[0].createdAt);
    }
  }

  lemma {:induction false} InsertCounts(r: Row, s: seq<Row>)
    ensures multiset(Insert(r, s)) == multiset(s) + multiset{r}
  {
    if !(s == [] || r.createdAt >= s[0].createdAt) {
      InsertCounts(r, s[1..]);
      assert s == [s[0]] + s[1..];
    }
  }

  /** The order is newest first and holds the same records, each as often. */
  lemma {:induction false} NewestFirstSorts(s: seq<Row>)
    ensures NewestFirstOrder(NewestFirst(s))
    ensures multiset(NewestFirst(s)) == multiset(s)
  {
    if s != [] {
      NewestFirstSorts(s[1..]);
      InsertOrdered(s[0], NewestFirst(s[1..]));
      InsertCounts(s[0], NewestFirst(s[1..]));
      assert s == [s[0]] + s[1..];
    }
  }

  lemma {:induction false} OfTypeBounded(s: seq<Row>, t: string, b: int)
    requires NoneNewerThan(s, b)
    ensures NoneNewerThan(OfType(s, t), b)
  {
    if s != [] {
      OfTypeBounded(s[1..], t, b);
    }
  }

  /** A filter keeps the newest-first order. */
  lemma {:induction false} OfTypeKeepsOrder(s: seq<Row>, t: string)
    requires NewestFirstOrder(s)
    ensures NewestFirstOrder(OfType(s, t))
  {
    if s != [] {
      OfTypeKeepsOrder(s[1..], t);
      OfTypeBounded(s[1..], t, s[0].createdAt);
    }
  }

  // ---------------------------------------------------------------------
  // The endpoints

  /** The view set's base query: the visible records, newest first. */
  function Queryset(rows: seq<Row>): seq<Row>
  {
    NewestFirst(Visible(rows))
  }

  /** The base query holds exactly the visible records, each as often as it
      is stored, newest first. */
  lemma QuerysetProperties(rows: seq<Row>)
    ensures NewestFirstOrder(Queryset(rows))
    ensures forall x :: multiset(Queryset(rows))[x] == if x.status == VISIBLE then multiset(rows)[x] else 0
    ensures forall k :: 0 <= k < |Queryset(rows)| ==> Queryset(rows)[k].status == VISIBLE
  {
    NewestFirstSorts(Visible(rows));
    forall x ensures multiset(Visible(rows))[x] == if x.status == VISIBLE then multiset(rows)[x] else 0 {
      VisibleCounts(rows, x);
    }
    forall k | 0 <= k < |Queryset(rows)| ensures Queryset(rows)[k].status == VISIBLE {
      var x := Queryset(rows)[k];
      VisibleCounts(rows, x);
      assert x in multiset(Queryset(rows));
    }
  }

  /** `list`'s records for the `type` query parameter: filtered by type when
      it is `image` or `video`, all visible records for any other value or
      none. */
  function ListResult(rows: seq<Row>, typeParam: Option<string>): seq<Row>
  {
    if typeParam == Some("image") || typeParam == Some("video") then OfType(Queryset(rows), typeParam.value)
    else Queryset(rows)
  }

  /** The list is newest first and holds the visible records of the asked
      type, each as often as stored; an unknown or absent type is no
      filter at all. */
  lemma ListResultProperties(rows: seq<Row>, typeParam: Option<string>)
    ensures NewestFirstOrder(ListResult(rows, typeParam))
    ensures typeParam.Some? && typeParam.value in {"image", "video"} ==>
      forall x :: multiset(ListResult(rows, typeParam))[x]
        == if x.status == VISIBLE && x.mediaType == typeParam.value then multiset(rows)[x] else 0
    ensures !(typeParam.Some? && typeParam.value in {"image", "video"}) ==> ListResult(rows, typeParam) == Queryset(rows)
  {
    QuerysetProperties(rows);
    if typeParam.Some? && typeParam.value in {"image", "video"} {
      OfTypeKeepsOrder(Queryset(rows), typeParam.value);
      forall x ensures multiset(OfType(Queryset(rows), typeParam.value))[x]
        == if x.mediaType == typeParam.value then multiset(Queryset(rows))[x] else 0 {
        OfTypeCounts(Queryset(rows), typeParam.value, x);
      }
    }
  }

  /** The gallery response. */
  datatype GalleryResponse = GalleryResponse(images: seq<Row>, videos: seq<Row>, totalCount: nat)

  /** `filter(status=1, media_type=t).order_by('-created_at')`. */
  function VisibleOfType(rows: seq<Row>, t: string): seq<Row>
  {
    NewestFirst(OfType(Visible(rows), t))
  }

  /** `gallery`. */
  function Gallery(rows: seq<Row>): GalleryResponse
  {
    var images, videos := VisibleOfType(rows, "image"), VisibleOfType(rows, "video");
    GalleryResponse(images, videos, |images| + |videos|)
  }

  lemma VisibleOfTypeCounts(rows: seq<Row>, t: string)
    ensures NewestFirstOrder(VisibleOfType(rows, t))
    ensures forall x :: multiset(VisibleOfType(rows, t))[x]
                        == if x.status == VISIBLE && x.mediaType == t then multiset(rows)[x] else 0
  {
    NewestFirstSorts(OfType(Visible(rows), t));
    forall x ensures multiset(OfType(Visible(rows), t))[x]
      == if x.status == VISIBLE && x.mediaType == t then multiset(rows)[x] else 0 {
      OfTypeCounts(Visible(rows), t, x);
      VisibleCounts(rows, x);
    }
  }

  /** Each record of a gallery half is visible and of that half's type. */
  lemma VisibleOfTypeMembers(rows: seq<Row>, t: string)
    ensures forall k :: 0 <= k < |VisibleOfType(rows, t)| ==>
      VisibleOfType(rows, t)[k].status == VISIBLE && VisibleOfType(rows, t)[k].mediaType == t
  {
    VisibleOfTypeCounts(rows, t);
    forall k | 0 <= k < |VisibleOfType(rows, t)|
      ensures VisibleOfType(rows, t)[k].status == VISIBLE && VisibleOfType(rows, t)[k].mediaType == t
    {
      assert VisibleOfType(rows, t)[k] in multiset(VisibleOfType(rows, t));
    }
  }

  /** A gallery half holds the same records as the list filtered by its
      type. */
  lemma VisibleOfTypeMatchesList(rows: seq<Row>, t: string)
    requires t == "image" || t == "video"
    ensures multiset(VisibleOfType(rows, t)) == multiset(ListResult(rows, Some(t)))
  {
    VisibleOfTypeCounts(rows, t);
    ListResultProperties(rows, Some(t));
    assert forall x :: multiset(VisibleOfType(rows, t))[x] == multiset(ListResult(rows, Some(t)))[x];
  }

  /** The gallery's images are the visible images and its videos the visible
      videos, each newest first; the total is their sum; and each half holds
      the same records as the list filtered by that type. */
  lemma GalleryProperties(rows: seq<Row>)
    ensures var g := Gallery(rows);
      && NewestFirstOrder(g.images) && NewestFirstOrder(g.videos)
      && (forall k :: 0 <= k < |g.images| ==> g.images[k].status == VISIBLE && g.images[k].mediaType == "image")
      && (forall k :: 0 <= k < |g.videos| ==> g.videos[k].status == VISIBLE && g.videos[k].mediaType == "video")
      && g.totalCount == |g.images| + |g.videos|
      && multiset(g.images) == multiset(ListResult(rows, Some("image")))
      && multiset(g.videos) == multiset(ListResult(rows, Some("video")))
  {
    VisibleOfTypeCounts(rows, "image");
    VisibleOfTypeCounts(rows, "video");
    VisibleOfTypeMembers(rows, "image");
    VisibleOfTypeMembers(rows, "video");
    VisibleOfTypeMatchesList(rows, "image");
    VisibleOfTypeMatchesList(rows, "video");
  }

  /** The statistics response. */
  datatype StatsResponse = StatsResponse(totalFiles: nat, totalImages: nat, totalVideos: nat)

  /** `stats`. */
  function Stats(rows: seq<Row>): StatsResponse
  {
    StatsResponse(|Visible(rows)|, |OfType(Visible(rows), "image")|, |OfType(Visible(rows), "video")|)
  }

  predicate Typed(r: Row) { r.mediaType == "image" || r.mediaType == "video" }

  lemma {:induction false} CountsSplitByType(s: seq<Row>)
    ensures |s| >= |OfType(s, "image")| + |OfType(s, "video")|
    ensures |s| == |OfType(s, "image")| + |OfType(s, "video")| <==> forall k :: 0 <= k < |s| ==> Typed(s[k])
  {
    if s != [] {
      CountsSplitByType(s[1..]);
      if Typed(s[0]) {
        assert forall k :: 1 <= k < |s| ==> s[k] == s[1..][k - 1];
      } else {
        assert !Typed(s[0]);
      }
    }
  }

  /** The total counts every visible record, the image and video counts
      only those of their type: the total is at least their sum, and equal
      to it exactly when every visible record is an image or a video. The
      counts are the gallery's list lengths, so the two endpoints agree. */
  lemma StatsProperties(rows: seq<Row>)
    ensures var st := Stats(rows);
      && st.totalFiles >= st.totalImages + st.totalVideos
      && (st.totalFiles == st.totalImages + st.totalVideos <==>
            forall k :: 0 <= k < |rows| && rows[k].status == VISIBLE ==> Typed(rows[k]))
      && st.totalImages + st.totalVideos == Gallery(rows).totalCount
  {
    var v := Visible(rows);
    CountsSplitByType(v);
    forall x: Row ensures multiset(v)[x] == if x.status == VISIBLE then multiset(rows)[x] else 0 {
      VisibleCounts(rows, x);
    }
    assert (forall k :: 0 <= k < |v| ==> Typed(v[k])) <==>
           (forall k :: 0 <= k < |rows| && rows[k].status == VISIBLE ==> Typed(rows[k])) by {
      if forall k :: 0 <= k < |v| ==> Typed(v[k]) {
        forall k | 0 <= k < |rows| && rows[k].status == VISIBLE ensures Typed(rows[k]) {
          assert rows[k] in multiset(rows);
          assert rows[k] in multiset(v);
          assert rows[k] in v;
        }
      }
      if forall k :: 0 <= k < |rows| && rows[k].status == VISIBLE ==> Typed(rows[k]) {
        forall k | 0 <= k < |v| ensures Typed(v[k]) {
          assert v[k] in multiset(v);
          assert v[k] in rows;
        }
      }
    }
  }

  // ---------------------------------------------------------------------
  // Upload

  /** The body of a response to an upload. */
  datatype CreateBody =
    | Created(mimeType: string, mediaType: Option<string>)
    | ValidationFailed(fileErrors: seq<string>)
    | UploadError(error: string)

  datatype Response = Response(status: nat, body: CreateBody)

  const HTTP_201_CREATED := 201
  const HTTP_400_BAD_REQUEST := 400
  const UPLOAD_ERROR_PREFIX := "Error al subir el archivo: "

  /** `create` for an upload of `file`: a file that fails validation is
      refused with 400 and the validation message; otherwise the record is
      saved, and the response is 201 with its type fields, or 400 with the
      error text when saving raises (`saveError` is the exception's text). */
  function CreateResponse(file: UploadedFile, guess: string -> Option<string>, saveError: Option<string>): Response
  {
    var v := ValidateFile(file, guess);
    if v.Err? then Response(HTTP_400_BAD_REQUEST, ValidationFailed([v.error]))
    else if saveError.Some? then Response(HTTP_400_BAD_REQUEST, UploadError(UPLOAD_ERROR_PREFIX + saveError.value))
    else
      var data := PrepareCreate(map[], file.name, guess);
      Response(HTTP_201_CREATED, Created(data["mime_type"], if "media_type" in data then Some(data["media_type"]) else None))
  }

  /** An upload is created exactly when its type is allowed and saving
      succeeds; the new record then has the allowed type and a media type
      matching it. Every failure is a 400, naming the validation problem or
      carrying the save error after the fixed prefix. */
  lemma CreateResponseProperties(file: UploadedFile, guess: string -> Option<string>, saveError: Option<string>)
    ensures var r := CreateResponse(file, guess, saveError);
      && (r.status == HTTP_201_CREATED <==> ValidateFile(file, guess).Ok? && saveError.None?)
      && (r.status != HTTP_201_CREATED ==> r.status == HTTP_400_BAD_REQUEST)
      && (r.status == HTTP_201_CREATED ==>
            r.body.Created? && r.body.mimeType in ALLOWED_TYPES && r.body.mimeType == guess(file.name).value
            && (r.body.mediaType == Some("image") <==> r.body.mimeType in ALLOWED_IMAGE_TYPES)
            && (r.body.mediaType == Some("video") <==> r.body.mimeType in ALLOWED_VIDEO_TYPES))
      && (ValidateFile(file, guess).Err? ==> r.body == ValidationFailed([ValidateFile(file, guess).error]))
      && (ValidateFile(file, guess).Ok? && saveError.Some? ==>
            r.body.UploadError? && r.body.error[..|UPLOAD_ERROR_PREFIX|] == UPLOAD_ERROR_PREFIX
            && r.body.error[|UPLOAD_ERROR_PREFIX|..] == saveError.value)
  {
    ValidateFileProperties(file, guess);
    if ValidateFile(file, guess).Ok? {
      ValidatedFileIsTyped(file, guess, map[], "");
    }
  }

  // ---------------------------------------------------------------------
  // Serializer choice

  /** `get_serializer_class`. */
  function SerializerFor(action: string): SerializerClass
  {
    if action == "list" then MediaListSerializer else MediaSerializer
  }

  /** Only the listing uses the cut-down serializer; every other action,
      including the upload, answers with the full one. In both forms each
      field shown is a detail field. */
  lemma SerializerForProperties(action: string)
    ensures SerializerFor(action) == MediaListSerializer <==> action == "list"
    ensures forall f :: f in Fields(SerializerFor(action)) ==> f in Fields(MediaSerializer)
    ensures "file_url" in Fields(SerializerFor(action))
  {
    ListFieldsAreDetailFields();
  }
}
