/** Vocabulary shared by both variants of the gallery's selection script:
    gesture constants, the per-item tracking record, the count label, the
    insertion-ordered selection, and the share-text derivation (identical in
    both variants). */
module SelectionCommon {
  import opened Util

  /** Milliseconds a touch must be held to count as a long press. */
  const LONG_PRESS_MS: nat := 350
  /** Pixels a touch may wander, per axis, before the long press is cancelled. */
  const MOVE_TOLERANCE: nat := 12
  /** Milliseconds during which `justExitedSelectionMode` stays raised. */
  const EXIT_WINDOW_MS: nat := 300

  datatype PointerKind = Mouse | Touch | Pen | OtherPointer

  /** Only touch and pen pointers start a long-press gesture. */
  predicate TracksGestures(k: PointerKind) { k == Touch || k == Pen }

  /** The record kept per gallery item between pointerdown and pointerup:
      start point, the id of the long-press timer armed with it, and whether
      that timer has fired. */
  datatype Track = Track(startX: int, startY: int, timer: nat, longTriggered: bool)

  /** `dx > MOVE_TOLERANCE || dy > MOVE_TOLERANCE`. */
  predicate MovedBeyondTolerance(t: Track, x: int, y: int)
  {
    Abs(x - t.startX) > MOVE_TOLERANCE || Abs(y - t.startY) > MOVE_TOLERANCE
  }

  /** Where a document-level pointerdown landed. */
  datatype DocTarget = OnItem | OnSelectionBar | OnModeToggle | OnAlbumMenu | Elsewhere

  // ---------------------------------------------------------------------
  // The count label

  /** `updateCount`: "1 seleccionada", otherwise "<n> seleccionadas". */
  function CountLabel(n: nat): string
  {
    if n == 1 then "1 seleccionada" else NatToString(n) + " seleccionadas"
  }

  /** The label is singular exactly for one item, and it tells every count
      apart (0 included). */
  lemma CountLabelFaithful(m: nat, n: nat)
    ensures CountLabel(n) == "1 seleccionada" <==> n == 1
    ensures CountLabel(m) == CountLabel(n) ==> m == n
  {
    assert |CountLabel(1)| == 14;
    if n != 1 {
      assert |CountLabel(n)| == |NatToString(n)| + 14;
    }
    if m != 1 {
      assert |CountLabel(m)| == |NatToString(m)| + 14;
    }
    if CountLabel(m) == CountLabel(n) && m != 1 && n != 1 {
      var lm, ln := CountLabel(m), CountLabel(n);
      assert lm[..|NatToString(m)|] == NatToString(m);
      assert ln[..|NatToString(n)|] == NatToString(n);
      NatToStringInjective(m, n);
    }
  }

  // ---------------------------------------------------------------------
  // The selection: a JavaScript `Set`, which iterates in insertion order

  predicate NoDup(s: seq<int>)
  {
    forall i, j :: 0 <= i < j < |s| ==> s[i] != s[j]
  }

  function Elems(s: seq<int>): set<int>
  {
    set x | x in s
  }

  /** `Set.prototype.delete`: the same order without `x`. */
  function Remove(s: seq<int>, x: int): (r: seq<int>)
    ensures Elems(r) == Elems(s) - {x}
    ensures NoDup(s) ==> NoDup(r)
    ensures NoDup(s) && x in s ==> |r| == |s| - 1
    ensures x !in s ==> r == s
  {
    if s == [] then []
    else
      var rest := Remove(s[1..], x);
      assert Elems(s) == {s[0]} + Elems(s[1..]);
      assert NoDup(s) ==> NoDup(s[1..]) && s[0] !in s[1..];
      if s[0] == x then rest
      else
        assert Elems([s[0]] + rest) == {s[0]} + Elems(rest);
        [s[0]] + rest
  }

  /** `toggleImage` on the set: delete when present, otherwise add at the end. */
  function Toggled(s: seq<int>, x: int): seq<int>
  {
    if x in s then Remove(s, x) else s + [x]
  }

  /** Toggling flips exactly the membership of `x`, keeps the sequence free
      of duplicates and moves its size by one. */
  lemma ToggledFlips(s: seq<int>, x: int)
    requires NoDup(s)
    ensures NoDup(Toggled(s, x))
    ensures x in Toggled(s, x) <==> x !in s
    ensures forall y :: y != x ==> (y in Toggled(s, x) <==> y in s)
    ensures |Toggled(s, x)| == if x in s then |s| - 1 else |s| + 1
  {
    if x in s {
      assert Elems(Remove(s, x)) == Elems(s) - {x};
      forall y | y != x ensures y in Remove(s, x) <==> y in s {
        assert y in Remove(s, x) <==> y in Elems(Remove(s, x));
        assert y in s <==> y in Elems(s);
      }
    }
  }

  /** Toggling twice gives back the same set (the insertion order may differ). */
  lemma ToggleTwice(s: seq<int>, x: int)
    requires NoDup(s)
    ensures Elems(Toggled(Toggled(s, x), x)) == Elems(s)
  {
    ToggledFlips(s, x);
    ToggledFlips(Toggled(s, x), x);
    forall y ensures y in Elems(Toggled(Toggled(s, x), x)) <==> y in Elems(s) {
    }
  }

  // ---------------------------------------------------------------------
  // What a gallery item carries, and the share derivation

  /** `dataset.url` and `dataset.type`; the empty string stands for a missing
      attribute. */
  datatype ItemData = ItemData(url: string, kind: string)

  /** `item.dataset.type || 'image'`. */
  function KindOrImage(d: ItemData): (k: string)
    ensures k != ""
    ensures d.kind != "" ==> k == d.kind
  {
    if d.kind == "" then "image" else d.kind
  }

  /** The data of the selected items, in selection order. */
  function DataOf(ids: seq<int>, dataOf: int -> ItemData): (r: seq<ItemData>)
    ensures |r| == |ids|
    ensures forall k :: 0 <= k < |ids| ==> r[k] == dataOf(ids[k])
  {
    seq(|ids|, k requires 0 <= k < |ids| => dataOf(ids[k]))
  }

  /** `items.map(item => item.dataset.url).filter(url => url)`. */
  function ShareUrls(items: seq<ItemData>): (urls: seq<string>)
    ensures |urls| <= |items|
    ensures forall k :: 0 <= k < |urls| ==> urls[k] != ""
  {
    if items == [] then []
    else (if items[0].url != "" then [items[0].url] else []) + ShareUrls(items[1..])
  }

  /** Every non-empty URL of the selection is shared. */
  lemma {:induction false} ShareUrlsKeepsUrls(items: seq<ItemData>, k: nat)
    requires k < |items| && items[k].url != ""
    ensures items[k].url in ShareUrls(items)
  {
    if k > 0 { ShareUrlsKeepsUrls(items[1..], k - 1); }
  }

  lemma {:induction false} ShareUrlsOnlyUrls(items: seq<ItemData>, u: string)
    requires u in ShareUrls(items)
    ensures exists k :: 0 <= k < |items| && items[k].url == u
  {
    if items[0].url == u {
    } else {
      assert u in ShareUrls(items[1..]);
      ShareUrlsOnlyUrls(items[1..], u);
      var k :| 0 <= k < |items[1..]| && items[1..][k].url == u;
      assert items[k + 1].url == u;
    }
  }

  /** The text shared for the selected URLs. */
  function ShareText(urls: seq<string>): (t: string)
    requires |urls| >= 1
  {
    if |urls| == 1 then "Mira esta foto/video de la boda:\n\n" + urls[0]
    else "Mira estas " + NatToString(|urls|) + " fotos/videos de la boda:\n\n" + Join(urls, "\n")
  }

  /** The text of the last-resort WhatsApp link (no count in it). */
  function FallbackText(urls: seq<string>): string
    requires |urls| >= 1
  {
    "Mira estas fotos/videos de la boda:\n\n" + Join(urls, "\n")
  }

  /** Joining newline-free URLs with newlines and splitting again gives back
      the list. */
  lemma {:induction false} SplitJoinLines(urls: seq<string>)
    requires |urls| >= 1
    requires forall k :: 0 <= k < |urls| ==> '\n' !in urls[k]
    ensures Split(Join(urls, "\n"), "\n") == urls
    decreases |urls|
  {
    if |urls| == 1 {
      SplitAbsent(urls[0], "\n");
    } else {
      var rest := Join(urls[1..], "\n");
      var s := urls[0] + "\n" + rest;
      assert s[|urls[0]|] == '\n';
      assert s[..|urls[0]|] == urls[0];
      assert s[|urls[0]| + 1..] == rest;
      SplitCharFirst(s, '\n', |urls[0]|);
      SplitJoinLines(urls[1..]);
      assert Split(s, "\n") == [urls[0]] + urls[1..];
    }
  }

  /** The URLs can be read back from the shared text: for several URLs the
      text is a header followed by the URLs, one per line; for one URL the
      text ends with it. */
  lemma ShareTextReadBack(urls: seq<string>)
    requires |urls| >= 1
    requires forall k :: 0 <= k < |urls| ==> '\n' !in urls[k]
    ensures |urls| == 1 ==> ShareText(urls)[|ShareText(urls)| - |urls[0]|..] == urls[0]
    ensures |urls| > 1 ==>
      var header := "Mira estas " + NatToString(|urls|) + " fotos/videos de la boda:\n\n";
      header <= ShareText(urls) && Split(ShareText(urls)[|header|..], "\n") == urls
    ensures var header := "Mira estas fotos/videos de la boda:\n\n";
      header <= FallbackText(urls) && Split(FallbackText(urls)[|header|..], "\n") == urls
  {
    SplitJoinLines(urls);
    if |urls| > 1 {
      var header := "Mira estas " + NatToString(|urls|) + " fotos/videos de la boda:\n\n";
      assert ShareText(urls)[|header|..] == Join(urls, "\n");
    }
    var header := "Mira estas fotos/videos de la boda:\n\n";
    assert FallbackText(urls)[|header|..] == Join(urls, "\n");
  }

  /** `urlPath.substring(urlPath.lastIndexOf('.'))`: from the last dot on,
      or the WHOLE path when it has no dot (lastIndexOf gives -1). */
  function Extension(path: string): (e: string)
    ensures '.' in path ==> |e| >= 1 && e[0] == '.' && '.' !in e[1..]
    ensures '.' in path ==> |e| <= |path| && e == path[|path| - |e|..]
    ensures '.' !in path ==> e == path
  {
    SubstringFrom(path, LastIndexOf(path, '.'))
  }

  /** Name of the i-th (0-based) file handed to the native share sheet. */
  function ShareFileName(i: nat, path: string): string
  {
    "archivo_" + NatToString(i + 1) + Extension(path)
  }

  // ---------------------------------------------------------------------
  // The share flow (`shareSelected`)

  /** What the platform offers: `navigator.share`, `navigator.canShare`, and
      the answer of `canShare({files: []})`. */
  datatype ShareEnv = ShareEnv(hasShare: bool, hasCanShare: bool, canShareFiles: bool)

  /** How a call to `navigator.share` ends. */
  datatype ShareReply = Shared | UserAborted | ShareFailed

  /** The observable end of `shareSelected`. */
  datatype ShareEffect =
    | NothingShared
    | SharedFiles(names: seq<string>)
    | SharedText(text: string)
    | OpenedWhatsApp(text: string)
    | ShareCancelled

  /** Files are tried only when the platform can share them and there are at
      most three URLs. */
  predicate TriesFiles(env: ShareEnv, urls: seq<string>)
  {
    env.hasShare && env.hasCanShare && env.canShareFiles && |urls| <= 3
  }

  /** The text-share step and its catch block. */
  function TextShare(urls: seq<string>, reply: ShareReply): ShareEffect
    requires |urls| >= 1
  {
    match reply
    case Shared => SharedText(ShareText(urls))
    case UserAborted => ShareCancelled
    case ShareFailed => OpenedWhatsApp(FallbackText(urls))
  }

  /** The whole decision, given whether every file fetch succeeded (`files`
      holds their names then) and the replies of the two share calls. */
  function ShareDecision(urls: seq<string>, env: ShareEnv, files: Option<seq<string>>,
                         fileReply: ShareReply, textReply: ShareReply): ShareEffect
    requires |urls| >= 1
  {
    if env.hasShare && env.hasCanShare then
      if TriesFiles(env, urls) && files.Some? && |files.value| > 0 && fileReply == Shared
      then SharedFiles(files.value)
      else TextShare(urls, textReply)   // a failed or aborted file share falls through
    else if env.hasShare then TextShare(urls, textReply)
    else OpenedWhatsApp(ShareText(urls))
  }

  /** Files are shared only for at most three URLs; a shared text is always
      the text of those URLs; the WhatsApp link carries one of the two texts;
      only a user abort of the text share ends as cancelled. */
  lemma ShareDecisionProperties(urls: seq<string>, env: ShareEnv, files: Option<seq<string>>,
                                fileReply: ShareReply, textReply: ShareReply)
    requires |urls| >= 1
    ensures var e := ShareDecision(urls, env, files, fileReply, textReply);
      && (e.SharedFiles? ==> |urls| <= 3 && env.canShareFiles && files == Some(e.names))
      && (e.SharedText? ==> e.text == ShareText(urls) && env.hasShare && textReply == Shared)
      && (e.OpenedWhatsApp? ==> e.text == ShareText(urls) || e.text == FallbackText(urls))
      && (e.OpenedWhatsApp? && env.hasShare ==> textReply == ShareFailed && e.text == FallbackText(urls))
      && (e.ShareCancelled? <==> env.hasShare && textReply == UserAborted
                                  && !(TriesFiles(env, urls) && files.Some? && |files.value| > 0 && fileReply == Shared))
      && !e.NothingShared?
  {
  }

  /** The names the fetched files get, one per fetch result. */
  function ShareFileNames(fetched: seq<Option<string>>): (names: seq<string>)
    ensures |names| == |fetched|
  {
    seq(|fetched|, k requires 0 <= k < |fetched| =>
      match fetched[k] case Some(path) => ShareFileName(k, path) case None => "")
  }

  /** The file-fetching loop of `shareSelected`: one fetch per URL, in order;
      `fetched[i]` is the pathname of URL i when its fetch and `new URL`
      succeed. The first failure throws out of the loop. */
  method CollectShareFiles(urls: seq<string>, fetched: seq<Option<string>>)
    returns (files: Option<seq<string>>)
    requires |fetched| == |urls|
    ensures files.Some? <==> forall k :: 0 <= k < |urls| ==> fetched[k].Some?
    ensures files.Some? ==> files.value == ShareFileNames(fetched)
  {
    var names: seq<string> := [];
    for i := 0 to |urls|
      invariant forall k :: 0 <= k < i ==> fetched[k].Some?
      invariant names == ShareFileNames(fetched)[..i]
    {
      match fetched[i]
      case None =>
        return None;
      case Some(path) =>
        assert ShareFileNames(fetched)[..i + 1] == ShareFileNames(fetched)[..i] + [ShareFileName(i, path)];
        names := names + [ShareFileName(i, path)];
    }
    assert ShareFileNames(fetched)[..|urls|] == ShareFileNames(fetched);
    return Some(names);
  }

  /** `shareSelected` for the data of the selected items: nothing without a
      URL; otherwise files are fetched only when they may be shared, and the
      outcome is the share decision for what the fetches gave. */
  method ShareItems(items: seq<ItemData>, env: ShareEnv, fetched: seq<Option<string>>,
                    fileReply: ShareReply, textReply: ShareReply)
    returns (effect: ShareEffect)
    requires |fetched| == |ShareUrls(items)|
    ensures ShareUrls(items) == [] ==> effect == NothingShared
    ensures (ShareUrls(items) != [] && TriesFiles(env, ShareUrls(items))
             && forall k :: 0 <= k < |fetched| ==> fetched[k].Some?)
      ==> effect == ShareDecision(ShareUrls(items), env, Some(ShareFileNames(fetched)), fileReply, textReply)
    ensures (ShareUrls(items) != [] && !(TriesFiles(env, ShareUrls(items))
             && forall k :: 0 <= k < |fetched| ==> fetched[k].Some?))
      ==> effect == ShareDecision(ShareUrls(items), env, None, fileReply, textReply)
  {
    var urls := ShareUrls(items);
    if |urls| == 0 { return NothingShared; }
    var files: Option<seq<string>> := None;
    if TriesFiles(env, urls) {
      files := CollectShareFiles(urls, fetched);
    }
    effect := ShareDecision(urls, env, files, fileReply, textReply);
  }
}
