/** The download flow of the older selection script (served from the
    collected static files). Its selection state machine is the current one
    without the desktop checkbox, with the two differences modelled as
    `Selection.Engine.DocumentPointerDownLegacy` and
    `Selection.Engine.ClickCaptureLegacy`; its share flow is the common one.
    Here downloading fetches nothing: on a phone every URL opens in a new
    tab, on a desktop every URL gets a temporary download link. */
module SelectionLegacy {
  import opened Util
  import opened SelectionCommon

  /** Phones may be asked to confirm when more than this many items are selected. */
  const MOBILE_CONFIRM_ABOVE := 3

  /** One browser action of the download loop. */
  datatype DownloadAction =
    | OpenTab(url: string)
    | AnchorDownload(url: string, fileName: string)

  datatype LegacyDownload =
    | Declined
    | Performed(actions: seq<DownloadAction>, instructionsAlert: bool)

  /** `${type}_${Date.now()}_${i}`: the legacy name carries no extension. */
  function LegacyName(d: ItemData, ts: nat, i: nat): string
  {
    KindOrImage(d) + "_" + NatToString(ts) + "_" + NatToString(i)
  }

  /** The action for item k, if it has a URL. */
  function ActionFor(items: seq<ItemData>, mobile: bool, clock: seq<nat>, k: nat): seq<DownloadAction>
    requires k < |items| && |clock| == |items|
  {
    if items[k].url == "" then []
    else if mobile then [OpenTab(items[k].url)]
    else [AnchorDownload(items[k].url, LegacyName(items[k], clock[k], k))]
  }

  /** The actions taken for the first k items. */
  function ActionsUpTo(items: seq<ItemData>, mobile: bool, clock: seq<nat>, k: nat): seq<DownloadAction>
    requires k <= |items| && |clock| == |items|
  {
    if k == 0 then [] else ActionsUpTo(items, mobile, clock, k - 1) + ActionFor(items, mobile, clock, k - 1)
  }

  /** `downloadSelected` of the legacy script over the selected items in
      selection order, `clock[i]` being `Date.now()` when item i is reached. */
  method DownloadSelectedLegacy(items: seq<ItemData>, mobile: bool, confirmed: bool, clock: seq<nat>)
    returns (r: LegacyDownload)
    requires |clock| == |items|
    ensures r.Declined? <==> items == [] || (mobile && |items| > MOBILE_CONFIRM_ABOVE && !confirmed)
    ensures r.Performed? ==> r.actions == ActionsUpTo(items, mobile, clock, |items|)
                             && r.instructionsAlert == mobile
  {
    if |items| == 0 { return Declined; }
    if mobile && |items| > MOBILE_CONFIRM_ABOVE && !confirmed { return Declined; }
    var actions: seq<DownloadAction> := [];
    for i := 0 to |items|
      invariant actions == ActionsUpTo(items, mobile, clock, i)
    {
      if items[i].url == "" { continue; }
      if mobile {
        actions := actions + [OpenTab(items[i].url)];
      } else {
        actions := actions + [AnchorDownload(items[i].url, LegacyName(items[i], clock[i], i))];
      }
    }
    r := Performed(actions, mobile);
  }

  /** The URLs acted on, in order. */
  function ActionUrls(actions: seq<DownloadAction>): (urls: seq<string>)
    ensures |urls| == |actions|
    ensures forall j :: 0 <= j < |actions| ==> urls[j] == actions[j].url
  {
    seq(|actions|, j requires 0 <= j < |actions| => actions[j].url)
  }

  lemma {:induction false} ShareUrlsAppend(a: seq<ItemData>, b: seq<ItemData>)
    ensures ShareUrls(a + b) == ShareUrls(a) + ShareUrls(b)
    decreases |a|
  {
    if a == [] {
      assert a + b == b;
    } else {
      assert (a + b)[0] == a[0];
      assert (a + b)[1..] == a[1..] + b;
      ShareUrlsAppend(a[1..], b);
    }
  }

  /** The legacy loop acts on exactly the URLs the share flow would share:
      every non-empty URL once, in selection order, and nothing else. */
  lemma {:induction false} ActionsCoverUrls(items: seq<ItemData>, mobile: bool, clock: seq<nat>, k: nat)
    requires k <= |items| && |clock| == |items|
    ensures ActionUrls(ActionsUpTo(items, mobile, clock, k)) == ShareUrls(items[..k])
  {
    if k > 0 {
      ActionsCoverUrls(items, mobile, clock, k - 1);
      assert items[..k] == items[..k - 1] + [items[k - 1]];
      ShareUrlsAppend(items[..k - 1], [items[k - 1]]);
      assert [items[k - 1]][1..] == [];
      var prev := ActionsUpTo(items, mobile, clock, k - 1);
      var step := ActionFor(items, mobile, clock, k - 1);
      assert ActionUrls(prev + step) == ActionUrls(prev) + ActionUrls(step);
    }
  }

  /** On a phone only tabs are opened; on a desktop only download links are
      made. */
  lemma {:induction false} ActionsMatchDevice(items: seq<ItemData>, mobile: bool, clock: seq<nat>, k: nat, j: nat)
    requires k <= |items| && |clock| == |items|
    requires j < |ActionsUpTo(items, mobile, clock, k)|
    ensures ActionsUpTo(items, mobile, clock, k)[j].OpenTab? <==> mobile
  {
    var prev := ActionsUpTo(items, mobile, clock, k - 1);
    if j < |prev| {
      ActionsMatchDevice(items, mobile, clock, k - 1, j);
    }
  }

  /** A legacy download name has a dot only if the item's type has one: the
      file is saved without an extension. */
  lemma LegacyNameHasNoExtension(d: ItemData, ts: nat, i: nat)
    requires '.' !in KindOrImage(d)
    ensures '.' !in LegacyName(d, ts, i)
  {
    var a, b := NatToString(ts), NatToString(i);
    assert forall k :: 0 <= k < |a| ==> a[k] != '.';
    assert forall k :: 0 <= k < |b| ==> b[k] != '.';
  }
}
