/** The album page script: it loads the gallery listing, turns every record
    into one gallery item (an image, or a video for records whose type is
    exactly `video`), shows an empty-state or error text instead when there
    is nothing to show or the load fails, and opens a full-size viewer on a
    click unless the selection script is busy. The items carry the same
    `data-url` / `data-type` pair the selection script reads. */
module Album {
  import opened Util
  import opened SelectionCommon

  const GALLERY_URL := "/api/media/gallery/"
  const EMPTY_MESSAGE := "No hay fotos ni videos aún. ¡Sé el primero en subir!"
  const ERROR_MESSAGE := "Error al cargar las fotos. Intenta recargar la página."

  /** One record of the listing: its `media_type` (`""` when absent) and its
      `file_url`. */
  datatype MediaRecord = MediaRecord(mediaType: string, fileUrl: string)

  /** The listing body; a missing or null array is `None`. */
  datatype GalleryData = GalleryData(images: Option<seq<MediaRecord>>, videos: Option<seq<MediaRecord>>)

  /** How the request for the listing ends: `fetch` rejects, or a response
      arrives with its status and its body parsed as the listing (`None` when
      it does not parse). */
  datatype GalleryFetch = Rejected | Received(status: nat, body: Option<GalleryData>)

  /** What the gallery element ends up showing. */
  datatype GalleryView = Items(items: seq<ItemData>) | EmptyState(message: string) | ErrorState(message: string)

  function OrEmpty(s: Option<seq<MediaRecord>>): seq<MediaRecord>
  {
    if s.Some? then s.value else []
  }

  /** `[...(data.images || []), ...(data.videos || [])]`. */
  function AllMedia(data: GalleryData): (all: seq<MediaRecord>)
    ensures |all| == |OrEmpty(data.images)| + |OrEmpty(data.videos)|
  {
    OrEmpty(data.images) + OrEmpty(data.videos)
  }

  /** The item one record becomes. */
  function ItemFor(m: MediaRecord): ItemData
  {
    if m.mediaType == "video" then ItemData(m.fileUrl, "video") else ItemData(m.fileUrl, "image")
  }

  /** Items made from the first k records. */
  function ItemsUpTo(all: seq<MediaRecord>, k: nat): (items: seq<ItemData>)
    requires k <= |all|
    ensures |items| == k
  {
    if k == 0 then [] else ItemsUpTo(all, k - 1) + [ItemFor(all[k - 1])]
  }

  /** `loadGallery`: a failed request, a non-2xx status or an unparsable body
      gives the error text; an empty listing gives the empty-state text;
      otherwise one item per record, images first, in listing order. */
  method LoadGallery(fetch: GalleryFetch) returns (view: GalleryView)
    ensures fetch.Rejected? || !(200 <= fetch.status <= 299) || fetch.body.None?
            ==> view == ErrorState(ERROR_MESSAGE)
    ensures fetch.Received? && 200 <= fetch.status <= 299 && fetch.body.Some? ==>
      var all := AllMedia(fetch.body.value);
      && (all == [] ==> view == EmptyState(EMPTY_MESSAGE))
      && (all != [] ==> view == Items(ItemsUpTo(all, |all|)))
  {
    if fetch.Rejected? || !(200 <= fetch.status <= 299) || fetch.body.None? {
      return ErrorState(ERROR_MESSAGE);
    }
    var all := AllMedia(fetch.body.value);
    if |all| == 0 {
      return EmptyState(EMPTY_MESSAGE);
    }
    var items: seq<ItemData> := [];
    for i := 0 to |all|
      invariant items == ItemsUpTo(all, i)
    {
      var media := all[i];
      if media.mediaType == "video" {
        items := items + [ItemData(media.fileUrl, "video")];
      } else {
        items := items + [ItemData(media.fileUrl, "image")];
      }
    }
    view := Items(items);
  }

  /** Every record yields exactly one item, in order, carrying its URL, typed
      `video` exactly for records of type `video` and `image` for every other
      value; so every item has a type, and the selection script never falls
      back to its default. */
  lemma {:induction false} ItemsFollowRecords(all: seq<MediaRecord>, k: nat)
    requires k <= |all|
    ensures forall j :: 0 <= j < k ==>
      && ItemsUpTo(all, k)[j].url == all[j].fileUrl
      && (ItemsUpTo(all, k)[j].kind == "video" <==> all[j].mediaType == "video")
      && (ItemsUpTo(all, k)[j].kind == "image" <==> all[j].mediaType != "video")
      && KindOrImage(ItemsUpTo(all, k)[j]) == ItemsUpTo(all, k)[j].kind
  {
    if k > 0 {
      ItemsFollowRecords(all, k - 1);
    }
  }

  /** Images come before videos: the first records are the images, in order. */
  lemma ImagesFirst(data: GalleryData, j: nat)
    requires j < |AllMedia(data)|
    ensures j < |OrEmpty(data.images)| ==> AllMedia(data)[j] == OrEmpty(data.images)[j]
    ensures j >= |OrEmpty(data.images)| ==> AllMedia(data)[j] == OrEmpty(data.videos)[j - |OrEmpty(data.images)|]
  {
  }

  // ---------------------------------------------------------------------
  // The viewer

  /** The click gate: the viewer opens unless the body has the `selecting`
      class or the selection mode ended within the last 300 ms. */
  predicate OpensViewer(selecting: bool, justExited: bool)
  {
    !(selecting || justExited)
  }

  /** The element the viewer shows for an item. */
  datatype ViewerMedia = VideoPlayer(src: string) | FullImage(src: string)

  /** `openMediaViewer`: a video player exactly for items typed `video`. */
  function ViewerFor(item: ItemData): (v: ViewerMedia)
    ensures v.src == item.url
  {
    if item.kind == "video" then VideoPlayer(item.url) else FullImage(item.url)
  }

  /** A click on item `item`: the viewer it opens, if any. */
  function ClickViewer(selecting: bool, justExited: bool, item: ItemData): Option<ViewerMedia>
  {
    if OpensViewer(selecting, justExited) then Some(ViewerFor(item)) else None
  }

  /** The viewer opens only outside selection and outside the exit window,
      and then shows the clicked record's own file, as a video player exactly
      when the record is a video. */
  lemma ClickShowsRecord(all: seq<MediaRecord>, j: nat, selecting: bool, justExited: bool)
    requires j < |all|
    ensures ClickViewer(selecting, justExited, ItemsUpTo(all, |all|)[j]).Some? <==> !selecting && !justExited
    ensures !selecting && !justExited ==>
      ClickViewer(selecting, justExited, ItemsUpTo(all, |all|)[j]).value
        == (if all[j].mediaType == "video" then VideoPlayer(all[j].fileUrl) else FullImage(all[j].fileUrl))
  {
    ItemsFollowRecords(all, |all|);
  }
}
