/** The selection script of the album page (current variant): a long press
    on touch or pen enters selection mode, taps toggle items while the mode
    is on, a desktop checkbox switches the mode, the clear control empties
    the selection, and downloads / shares act on the selected items. Timers
    are explicit events: `LongPressFired(t)` for the 350 ms long-press timer
    with id `t`, `ExitWindowExpired()` for the 300 ms reset of
    `justExitedSelectionMode`. Items are integer ids. */
module Selection {
  import opened Util
  import opened SelectionCommon

  class Engine {
    /** The page runs on a desktop browser and has the mode checkbox (its
        `change` listener is registered only then). */
    const hasCheckbox: bool

    /** `selectionMode`; the body's `selecting` class always equals it. */
    var selectionMode: bool
    /** The `selected` Set, in insertion order. */
    var selected: seq<int>
    /** Items carrying `is-selected` / `aria-pressed="true"`. */
    var marked: set<int>
    /** Text of the count element. */
    var countLabel: string
    /** `checked` of the mode checkbox. */
    var checkboxChecked: bool
    /** `window.justExitedSelectionMode`, read by the album's viewer gate. */
    var justExited: bool
    /** Pending 300 ms timers that will reset `justExited`. */
    var exitTimers: nat
    /** The `state` WeakMap: item -> tracking record. */
    var tracking: map<int, Track>
    /** Armed long-press timers: timer id -> item. */
    var longTimers: map<nat, int>
    /** The next timer id to hand out. */
    var nextTimer: nat

    ghost predicate Valid()
      reads this
    {
      && NoDup(selected)
      && (selected != [] ==> selectionMode)
      && marked == Elems(selected)
      && countLabel == CountLabel(|selected|)
      && (hasCheckbox ==> checkboxChecked == selectionMode)
      && (justExited ==> exitTimers > 0)
      && (forall t :: t in longTimers ==> t < nextTimer)
      && (forall i :: i in tracking ==> tracking[i].timer < nextTimer)
    }

    /** Gesture bookkeeping is untouched. */
    twostate predicate SameGestures()
      reads this
    {
      tracking == old(tracking) && longTimers == old(longTimers) && nextTimer == old(nextTimer)
    }

    /** Mode, selection, markers and flags are untouched. */
    twostate predicate SameSelection()
      reads this
    {
      && selectionMode == old(selectionMode) && selected == old(selected)
      && marked == old(marked) && countLabel == old(countLabel)
      && checkboxChecked == old(checkboxChecked)
      && justExited == old(justExited) && exitTimers == old(exitTimers)
    }

    /** The effect of `toggleImage(item)` called while the mode is on: the
        item's membership flips, and the mode ends (raising the exit flag)
        exactly when the selection became empty. */
    twostate predicate ToggledFrom(item: int)
      reads this
    {
      && selected == Toggled(old(selected), item)
      && selectionMode == (selected != [])
      && (selected == [] ==> justExited && exitTimers == old(exitTimers) + 1)
      && (selected != [] ==> justExited == old(justExited) && exitTimers == old(exitTimers))
    }

    /** The state after `exitSelectionMode` with nothing selected. */
    twostate predicate ExitedEmpty()
      reads this
    {
      && !selectionMode && selected == [] && marked == {}
      && countLabel == CountLabel(0)
      && justExited && exitTimers == old(exitTimers) + 1
    }

    constructor (hasCheckbox: bool)
      ensures Valid()
      ensures this.hasCheckbox == hasCheckbox
      ensures !selectionMode && selected == [] && marked == {} && countLabel == CountLabel(0)
      ensures !checkboxChecked && !justExited && exitTimers == 0
      ensures tracking == map[] && longTimers == map[] && nextTimer == 0
    {
      this.hasCheckbox := hasCheckbox;
      selectionMode := false;
      selected := [];
      marked := {};
      countLabel := CountLabel(0);
      checkboxChecked := false;
      justExited := false;
      exitTimers := 0;
      tracking := map[];
      longTimers := map[];
      nextTimer := 0;
    }

    // -------------------------------------------------------------------
    // Internal steps

    /** `ensureSelectionMode`. */
    method EnsureSelectionMode()
      requires Valid()
      modifies this
      ensures Valid() && SameGestures()
      ensures selectionMode
      ensures selected == old(selected) && marked == old(marked) && countLabel == old(countLabel)
      ensures justExited == old(justExited) && exitTimers == old(exitTimers)
      ensures old(selectionMode) ==> checkboxChecked == old(checkboxChecked)
    {
      if selectionMode { return; }
      selectionMode := true;
      if hasCheckbox { checkboxChecked := true; }
    }

    /** `exitSelectionMode`, which every caller reaches with nothing
        selected; it schedules the 300 ms reset of the exit flag. */
    method ExitSelectionMode()
      requires Valid() && selected == []
      modifies this
      ensures Valid() && SameGestures() && ExitedEmpty()
    {
      selectionMode := false;
      if hasCheckbox { checkboxChecked := false; }
      justExited := true;
      exitTimers := exitTimers + 1;
    }

    /** `toggleImage(img)`; every caller has the mode on. */
    method ToggleImage(item: int)
      requires Valid() && selectionMode
      modifies this
      ensures Valid() && SameGestures() && ToggledFrom(item)
      ensures item in marked <==> old(item !in marked)
      ensures forall other :: other != item ==> (other in marked <==> old(other in marked))
    {
      ToggledFlips(selected, item);
      if item in selected {
        selected := Remove(selected, item);
        marked := marked - {item};
      } else {
        selected := selected + [item];
        marked := marked + {item};
      }
      countLabel := CountLabel(|selected|);
      if selectionMode && |selected| == 0 {
        ExitSelectionMode();
      }
    }

    /** Clearing of the long-press bookkeeping for one item (`clearTimers`). */
    method ClearTimers(item: int)
      requires Valid()
      modifies this
      ensures Valid() && SameSelection() && nextTimer == old(nextTimer)
      ensures tracking == old(tracking) - {item}
      ensures longTimers == if old(item in tracking) then old(longTimers) - {old(tracking[item].timer)}
                            else old(longTimers)
    {
      if item in tracking {
        longTimers := longTimers - {tracking[item].timer};
        tracking := tracking - {item};
      }
    }

    // -------------------------------------------------------------------
    // Event handlers

    /** `pointerdown` on an item: touch and pen arm a long-press timer and
        record the start point; a second pointerdown on the same item replaces
        the record without cancelling the earlier timer. */
    method PointerDown(item: int, kind: PointerKind, x: int, y: int)
      requires Valid()
      modifies this
      ensures Valid() && SameSelection()
      ensures !TracksGestures(kind) ==> SameGestures()
      ensures TracksGestures(kind) ==>
        && tracking == old(tracking)[item := Track(x, y, old(nextTimer), false)]
        && longTimers == old(longTimers)[old(nextTimer) := item]
        && nextTimer == old(nextTimer) + 1
    {
      if kind == Mouse { return; }
      if kind != Touch && kind != Pen { return; }
      var t := nextTimer;
      nextTimer := nextTimer + 1;
      tracking := tracking[item := Track(x, y, t, false)];
      longTimers := longTimers[t := item];
    }

    /** The long-press timer `t` fires: it marks its record (if that record is
        still the item's current one), turns the mode on and toggles the item. */
    method LongPressFired(t: nat)
      requires Valid()
      modifies this
      ensures Valid() && nextTimer == old(nextTimer)
      ensures t !in old(longTimers) ==> SameGestures() && SameSelection()
      ensures t in old(longTimers) ==>
        var item := old(longTimers[t]);
        && longTimers == old(longTimers) - {t}
        && tracking == (if item in old(tracking) && old(tracking[item].timer) == t
                        then old(tracking)[item := old(tracking[item]).(longTriggered := true)]
                        else old(tracking))
        && ToggledFrom(item)
    {
      if t !in longTimers { return; }
      var item := longTimers[t];
      longTimers := longTimers - {t};
      if item in tracking && tracking[item].timer == t {
        tracking := tracking[item := tracking[item].(longTriggered := true)];
      }
      EnsureSelectionMode();
      ToggleImage(item);
    }

    /** `pointermove` on an item: a move of more than 12 px on either axis
        before the long press cancels the gesture; after the long press, or
        without a record, nothing happens. */
    method PointerMove(item: int, x: int, y: int)
      requires Valid()
      modifies this
      ensures Valid() && SameSelection() && nextTimer == old(nextTimer)
      ensures var cancels := item in old(tracking) && !old(tracking[item].longTriggered)
                             && MovedBeyondTolerance(old(tracking[item]), x, y);
        && (cancels ==> tracking == old(tracking) - {item}
                        && longTimers == old(longTimers) - {old(tracking[item].timer)})
        && (!cancels ==> SameGestures())
    {
      if item !in tracking || tracking[item].longTriggered { return; }
      var info := tracking[item];
      if MovedBeyondTolerance(info, x, y) {
        longTimers := longTimers - {info.timer};
        tracking := tracking - {item};
      }
    }

    /** `pointerup` on an item. The record is always dropped. After a long
        press the event is suppressed and nothing toggles; otherwise, if the
        mode was on, the item toggles and the event is suppressed; otherwise
        the click is left to the viewer. */
    method PointerUp(item: int) returns (suppressed: bool)
      requires Valid()
      modifies this
      ensures Valid() && nextTimer == old(nextTimer)
      ensures tracking == old(tracking) - {item}
      ensures longTimers == if item in old(tracking) then old(longTimers) - {old(tracking[item].timer)}
                            else old(longTimers)
      ensures var wasLong := item in old(tracking) && old(tracking[item].longTriggered);
        && suppressed == (wasLong || old(selectionMode))
        && (!wasLong && old(selectionMode) ==> ToggledFrom(item))
        && (wasLong || !old(selectionMode) ==> SameSelection())
    {
      var longTriggered := item in tracking && tracking[item].longTriggered;
      var wasInSelectionMode := selectionMode;
      ClearTimers(item);
      if !longTriggered {
        if wasInSelectionMode {
          ToggleImage(item);
          return true;
        }
        return false;
      }
      return true;
    }

    /** `pointercancel` on an item drops its record and timer. */
    method PointerCancel(item: int)
      requires Valid()
      modifies this
      ensures Valid() && SameSelection() && nextTimer == old(nextTimer)
      ensures tracking == old(tracking) - {item}
      ensures longTimers == if item in old(tracking) then old(longTimers) - {old(tracking[item].timer)}
                            else old(longTimers)
    {
      ClearTimers(item);
    }

    /** A pointerdown anywhere in the document: with the mode on and nothing
        selected, a press outside the items, the selection bar, the mode
        toggle and the album menu ends the mode. */
    method DocumentPointerDown(target: DocTarget)
      requires Valid()
      modifies this
      ensures Valid() && SameGestures()
      ensures old(selectionMode) && target == Elsewhere && old(selected) == [] ==> ExitedEmpty()
      ensures !(old(selectionMode) && target == Elsewhere && old(selected) == []) ==> SameSelection()
    {
      if !selectionMode { return; }
      if target == OnItem || target == OnSelectionBar || target == OnModeToggle || target == OnAlbumMenu { return; }
      if |selected| == 0 { ExitSelectionMode(); }
    }

    /** The gallery's capture-phase click listener: in selection mode it
        swallows the click and toggles the item; otherwise the click passes. */
    method ClickCapture(item: int) returns (suppressed: bool)
      requires Valid()
      modifies this
      ensures Valid() && SameGestures()
      ensures suppressed == old(selectionMode)
      ensures old(selectionMode) ==> ToggledFrom(item)
      ensures !old(selectionMode) ==> SameSelection()
    {
      if selectionMode {
        ToggleImage(item);
        return true;
      }
      return false;
    }

    /** The legacy script's document pointerdown: only the items and the
        selection bar keep an empty selection mode alive, so a press on the
        mode toggle or the album menu ends it as well. */
    method DocumentPointerDownLegacy(target: DocTarget)
      requires Valid()
      modifies this
      ensures Valid() && SameGestures()
      ensures var ends := old(selectionMode) && target != OnItem && target != OnSelectionBar && old(selected) == [];
        && (ends ==> ExitedEmpty())
        && (!ends ==> SameSelection())
    {
      if !selectionMode { return; }
      if target == OnItem || target == OnSelectionBar { return; }
      if |selected| == 0 { ExitSelectionMode(); }
    }

    /** The legacy script's capture-phase click listener: it swallows item
        clicks while the mode is on or during the exit window, and toggles
        nothing itself (taps toggle through `pointerup`). */
    method ClickCaptureLegacy(item: int) returns (suppressed: bool)
      requires Valid()
      ensures suppressed <==> selectionMode || justExited
    {
      suppressed := selectionMode || justExited;
    }

    /** The clear control: all markers off, nothing selected, mode off, exit
        flag raised, whether or not anything was selected. */
    method ClearButton()
      requires Valid()
      modifies this
      ensures Valid() && SameGestures() && ExitedEmpty()
    {
      if |selected| == 0 {
        ExitSelectionMode();
        return;
      }
      marked := marked - Elems(selected);
      selected := [];
      countLabel := CountLabel(0);
      ExitSelectionMode();
    }

    /** The desktop checkbox's `change` event with its new `checked` value:
        checking turns the mode on and keeps the selection; unchecking clears
        everything and exits. */
    method CheckboxChange(checked: bool)
      requires Valid()
      modifies this
      ensures Valid() && SameGestures()
      ensures !hasCheckbox ==> SameSelection()
      ensures hasCheckbox && checked ==>
        && selectionMode && checkboxChecked
        && selected == old(selected) && marked == old(marked) && countLabel == old(countLabel)
        && justExited == old(justExited) && exitTimers == old(exitTimers)
      ensures hasCheckbox && !checked ==> ExitedEmpty() && !checkboxChecked
    {
      if !hasCheckbox { return; }
      if checked {
        EnsureSelectionMode();
      } else {
        marked := marked - Elems(selected);
        selected := [];
        countLabel := CountLabel(0);
        ExitSelectionMode();
      }
    }

    /** The oldest pending 300 ms timer fires and lowers the exit flag. */
    method ExitWindowExpired()
      requires Valid()
      modifies this
      ensures Valid() && SameGestures()
      ensures selectionMode == old(selectionMode) && selected == old(selected)
      ensures marked == old(marked) && checkboxChecked == old(checkboxChecked)
      ensures old(exitTimers) > 0 ==> !justExited && exitTimers == old(exitTimers) - 1
      ensures old(exitTimers) == 0 ==> SameSelection()
    {
      if exitTimers > 0 {
        exitTimers := exitTimers - 1;
        justExited := false;
      }
    }

    // -------------------------------------------------------------------
    // Download

    /** `downloadSelected` over the selected items in selection order;
        `fetches[i]` and `clock[i]` are what the fetch of item i gave and
        `Date.now()` at that moment. Nothing starts without a selection, or
        on mobile with several items when the user declines the prompt. */
    method DownloadSelected(dataOf: int -> ItemData, mobile: bool, confirmed: bool,
                            fetches: seq<Fetch>, clock: seq<nat>)
      returns (r: DownloadReport)
      requires |fetches| == |selected| && |clock| == |selected|
      ensures r.NotStarted? <==> selected == [] || (mobile && |selected| > 1 && !confirmed)
      ensures r.Downloaded? ==>
        var items := DataOf(selected, dataOf);
        var n := |items|;
        && r.names == NamesUpTo(items, fetches, clock, n)
        && r.successCount == SuccessUpTo(items, fetches, n)
        && r.failCount == FailUpTo(items, fetches, n)
        && r.feedback == DownloadFeedback(r.successCount, r.failCount, n, mobile,
                                          FirstErrorUpTo(items, fetches, n))
    {
      if |selected| == 0 { return NotStarted; }
      var items := DataOf(selected, dataOf);
      if mobile && |items| > 1 && !confirmed { return NotStarted; }
      var names: seq<string> := [];
      var successCount, failCount := 0, 0;
      var firstError: Option<ErrorInfo> := None;
      for i := 0 to |items|
        invariant names == NamesUpTo(items, fetches, clock, i)
        invariant successCount == SuccessUpTo(items, fetches, i)
        invariant failCount == FailUpTo(items, fetches, i)
        invariant firstError == FirstErrorUpTo(items, fetches, i)
      {
        if items[i].url == "" { continue; }
        match fetches[i]
        case Fetched(path) =>
          names := names + [DownloadName(items[i], clock[i], i, path)];
          successCount := successCount + 1;
        case _ =>
          failCount := failCount + 1;
          if firstError == None { firstError := Some(ErrorOf(fetches[i])); }
      }
      r := Downloaded(names, successCount, failCount,
                      DownloadFeedback(successCount, failCount, |items|, mobile, firstError));
    }
  }

  // ---------------------------------------------------------------------
  // Download specification

  /** What the fetch for one item gave: a non-ok response, an exception
      (network, or `new URL` on the item's URL), or the blob together with the
      URL's pathname. */
  datatype Fetch = HttpFail(status: nat, statusText: string) | Thrown(name: string, message: string)
                 | Fetched(pathname: string)

  /** `error.name` and `error.message` of a failed download. */
  datatype ErrorInfo = ErrorInfo(name: string, message: string)

  datatype DownloadReport =
    | NotStarted
    | Downloaded(names: seq<string>, successCount: nat, failCount: nat, feedback: string)

  function ErrorOf(f: Fetch): ErrorInfo
    requires !f.Fetched?
  {
    match f
    case HttpFail(status, text) => ErrorInfo("Error", "HTTP " + NatToString(status) + ": " + text)
    case Thrown(name, message) => ErrorInfo(name, message)
  }

  /** `${type}_${Date.now()}_${i}${extension}`. */
  function DownloadName(d: ItemData, ts: nat, i: nat, path: string): string
  {
    KindOrImage(d) + "_" + NatToString(ts) + "_" + NatToString(i) + Extension(path)
  }

  predicate Succeeds(items: seq<ItemData>, fetches: seq<Fetch>, k: nat)
    requires k < |items| && |fetches| == |items|
  {
    items[k].url != "" && fetches[k].Fetched?
  }

  /** Names of the files downloaded among the first k items. */
  function NamesUpTo(items: seq<ItemData>, fetches: seq<Fetch>, clock: seq<nat>, k: nat): seq<string>
    requires k <= |items| && |fetches| == |items| && |clock| == |items|
  {
    if k == 0 then []
    else NamesUpTo(items, fetches, clock, k - 1)
         + (if Succeeds(items, fetches, k - 1)
            then [DownloadName(items[k - 1], clock[k - 1], k - 1, fetches[k - 1].pathname)] else [])
  }

  function SuccessUpTo(items: seq<ItemData>, fetches: seq<Fetch>, k: nat): nat
    requires k <= |items| && |fetches| == |items|
  {
    if k == 0 then 0
    else SuccessUpTo(items, fetches, k - 1) + (if Succeeds(items, fetches, k - 1) then 1 else 0)
  }

  function FailUpTo(items: seq<ItemData>, fetches: seq<Fetch>, k: nat): nat
    requires k <= |items| && |fetches| == |items|
  {
    if k == 0 then 0
    else FailUpTo(items, fetches, k - 1)
         + (if items[k - 1].url != "" && !fetches[k - 1].Fetched? then 1 else 0)
  }

  /** Items with a URL among the first k. */
  function WithUrlUpTo(items: seq<ItemData>, k: nat): nat
    requires k <= |items|
  {
    if k == 0 then 0 else WithUrlUpTo(items, k - 1) + (if items[k - 1].url != "" then 1 else 0)
  }

  /** The error of the first failed download among the first k items. */
  function FirstErrorUpTo(items: seq<ItemData>, fetches: seq<Fetch>, k: nat): Option<ErrorInfo>
    requires k <= |items| && |fetches| == |items|
  {
    if k == 0 then None
    else
      var before := FirstErrorUpTo(items, fetches, k - 1);
      if before == None && items[k - 1].url != "" && !fetches[k - 1].Fetched?
      then Some(ErrorOf(fetches[k - 1])) else before
  }

  /** Every item with a URL is attempted once and ends either downloaded or
      failed; items without a URL are skipped; one name per download; an
      error is reported exactly when something failed. */
  lemma {:induction false} DownloadAccounting(items: seq<ItemData>, fetches: seq<Fetch>, clock: seq<nat>, k: nat)
    requires k <= |items| && |fetches| == |items| && |clock| == |items|
    ensures SuccessUpTo(items, fetches, k) + FailUpTo(items, fetches, k) == WithUrlUpTo(items, k)
    ensures |NamesUpTo(items, fetches, clock, k)| == SuccessUpTo(items, fetches, k)
    ensures FirstErrorUpTo(items, fetches, k).Some? <==> FailUpTo(items, fetches, k) > 0
  {
    if k > 0 { DownloadAccounting(items, fetches, clock, k - 1); }
  }

  /** The j-th downloaded name belongs to some downloaded item i, and has that
      item's type, time stamp, index and extension. */
  lemma {:induction false} DownloadNamesFromItems(items: seq<ItemData>, fetches: seq<Fetch>, clock: seq<nat>,
                                                  k: nat, j: nat)
    requires k <= |items| && |fetches| == |items| && |clock| == |items|
    requires j < |NamesUpTo(items, fetches, clock, k)|
    ensures exists i :: (0 <= i < k && Succeeds(items, fetches, i)
      && NamesUpTo(items, fetches, clock, k)[j] == DownloadName(items[i], clock[i], i, fetches[i].pathname))
  {
    var prev := NamesUpTo(items, fetches, clock, k - 1);
    if j < |prev| {
      DownloadNamesFromItems(items, fetches, clock, k - 1, j);
      var i :| 0 <= i < k - 1 && Succeeds(items, fetches, i)
        && prev[j] == DownloadName(items[i], clock[i], i, fetches[i].pathname);
      assert NamesUpTo(items, fetches, clock, k)[j] == prev[j];
    } else {
      assert Succeeds(items, fetches, k - 1);
    }
  }

  /** The feedback shown when the loop ends. */
  function DownloadFeedback(success: nat, fail: nat, total: nat, mobile: bool, firstError: Option<ErrorInfo>): string
  {
    if success > 0 then
      if success == total
      then "✓ " + NatToString(success) + " archivo" + (if success > 1 then "s descargados" else " descargado")
      else "✓ " + NatToString(success) + " descargados, " + NatToString(fail) + " fallaron"
    else if mobile && firstError.Some? then
      "✗ Error: " + firstError.value.message + "\n(" + firstError.value.name + ")"
    else "✗ Error en la descarga"
  }

  /** The feedback starts with a check mark exactly when something was
      downloaded, and an all-items success mentions no failures. */
  lemma DownloadFeedbackTone(success: nat, fail: nat, total: nat, mobile: bool, firstError: Option<ErrorInfo>)
    ensures var f := DownloadFeedback(success, fail, total, mobile, firstError);
      && |f| > 0
      && (f[0] == '✓' <==> success > 0)
      && (f[0] == '✗' <==> success == 0)
  {
  }
}
