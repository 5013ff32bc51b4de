/** The confirm step of the older upload page script (served from the
    collected static files): the same sequential posting as the current one,
    but without the CSRF header, without a timeout, without pauses and
    without an error summary; a failure only counts. `outcomes[i]` is how the
    request for file i ends and `clock[i]` is `Date.now()` when file i is
    reached. */
module UploadLegacy {
  import opened Util
  import opened UploadCommon

  const UPLOAD_URL := "/api/media/"
  const ALBUM_URL := "/album/"

  /** How one request ends: a response with its status, or a rejected
      `fetch`. */
  datatype LegacyOutcome = Responded(status: nat) | NetworkError

  /** What is sent for one file: only the form body with the file. */
  datatype LegacyRequest = LegacyRequest(url: string, fileName: string)

  predicate LegacyInputs(files: seq<File>, clock: seq<nat>, outcomes: seq<LegacyOutcome>)
  {
    |clock| == |files| && |outcomes| == |files|
  }

  predicate LegacySucceeded(outcomes: seq<LegacyOutcome>, i: nat)
    requires i < |outcomes|
  {
    outcomes[i].Responded? && IsOk(outcomes[i].status)
  }

  function LegacyRequestsUpTo(files: seq<File>, clock: seq<nat>, k: nat): seq<LegacyRequest>
    requires k <= |files| && |clock| == |files|
  {
    if k == 0 then []
    else LegacyRequestsUpTo(files, clock, k - 1) + [LegacyRequest(UPLOAD_URL, SafeName(files[k - 1], clock[k - 1], k - 1))]
  }

  function LegacySuccessesUpTo(outcomes: seq<LegacyOutcome>, k: nat): nat
    requires k <= |outcomes|
  {
    if k == 0 then 0 else LegacySuccessesUpTo(outcomes, k - 1) + (if LegacySucceeded(outcomes, k - 1) then 1 else 0)
  }

  function LegacyFailuresUpTo(outcomes: seq<LegacyOutcome>, k: nat): nat
    requires k <= |outcomes|
  {
    if k == 0 then 0 else LegacyFailuresUpTo(outcomes, k - 1) + (if LegacySucceeded(outcomes, k - 1) then 0 else 1)
  }

  /** Progress texts shown while the first k files are handled (`n` files in all). */
  function LegacyStatusesUpTo(outcomes: seq<LegacyOutcome>, n: nat, k: nat): seq<string>
    requires k <= |outcomes|
  {
    if k == 0 then [ProgressText(0, n)]
    else LegacyStatusesUpTo(outcomes, n, k - 1)
         + (if LegacySucceeded(outcomes, k - 1) then [ProgressText(LegacySuccessesUpTo(outcomes, k), n)] else [])
  }

  function LegacyFinalStatus(uploaded: nat, failed: nat): string
  {
    if failed == 0 then NatToString(uploaded) + " archivos subidos. Redirigiendo…"
    else NatToString(uploaded) + " subidos, " + NatToString(failed) + " fallaron. Redirigiendo…"
  }

  datatype LegacyReport =
    | NotStarted
    | Finished(requests: seq<LegacyRequest>, uploaded: nat, failed: nat, statuses: seq<string>,
               finalStatus: string, redirectTo: string, redirectAfterMs: nat)

  /** The report for a finished run over all files. */
  function LegacySummary(files: seq<File>, clock: seq<nat>, outcomes: seq<LegacyOutcome>): LegacyReport
    requires LegacyInputs(files, clock, outcomes)
  {
    var n := |files|;
    var u, f := LegacySuccessesUpTo(outcomes, n), LegacyFailuresUpTo(outcomes, n);
    Finished(LegacyRequestsUpTo(files, clock, n), u, f, LegacyStatusesUpTo(outcomes, n, n),
             LegacyFinalStatus(u, f), ALBUM_URL, if f == 0 then 1000 else 2000)
  }

  /** The confirm button of the older page. */
  method ConfirmUploadLegacy(files: seq<File>, clock: seq<nat>, outcomes: seq<LegacyOutcome>)
    returns (report: LegacyReport)
    requires LegacyInputs(files, clock, outcomes)
    ensures report.NotStarted? <==> files == []
    ensures files != [] ==> report == LegacySummary(files, clock, outcomes)
  {
    if |files| == 0 { return NotStarted; }
    var statuses := [ProgressText(0, |files|)];
    var requests: seq<LegacyRequest> := [];
    var uploaded, failed := 0, 0;
    for i := 0 to |files|
      invariant requests == LegacyRequestsUpTo(files, clock, i)
      invariant uploaded == LegacySuccessesUpTo(outcomes, i)
      invariant failed == LegacyFailuresUpTo(outcomes, i)
      invariant statuses == LegacyStatusesUpTo(outcomes, |files|, i)
    {
      var safeName := SafeName(files[i], clock[i], i);
      requests := requests + [LegacyRequest(UPLOAD_URL, safeName)];
      if outcomes[i].Responded? && IsOk(outcomes[i].status) {
        uploaded := uploaded + 1;
        statuses := statuses + [ProgressText(uploaded, |files|)];
      } else {
        failed := failed + 1;
      }
    }
    var delay := if failed == 0 then 1000 else 2000;
    report := Finished(requests, uploaded, failed, statuses, LegacyFinalStatus(uploaded, failed), ALBUM_URL, delay);
  }

  /** Every file is sent once, in order, under its safe name. */
  lemma {:induction false} LegacyRunRequests(files: seq<File>, clock: seq<nat>, k: nat)
    requires |clock| == |files| && k <= |files|
    ensures |LegacyRequestsUpTo(files, clock, k)| == k
    ensures forall j :: 0 <= j < k ==> LegacyRequestsUpTo(files, clock, k)[j] == LegacyRequest(UPLOAD_URL, SafeName(files[j], clock[j], j))
  {
    if k > 0 {
      LegacyRunRequests(files, clock, k - 1);
      var prev := LegacyRequestsUpTo(files, clock, k - 1);
      var all := LegacyRequestsUpTo(files, clock, k);
      assert all == prev + [LegacyRequest(UPLOAD_URL, SafeName(files[k - 1], clock[k - 1], k - 1))];
      forall j | 0 <= j < k ensures all[j] == LegacyRequest(UPLOAD_URL, SafeName(files[j], clock[j], j)) {
        if j < k - 1 { assert all[j] == prev[j]; }
      }
    }
  }

  /** Each file ends uploaded or failed. */
  lemma {:induction false} LegacyRunCounts(outcomes: seq<LegacyOutcome>, k: nat)
    requires k <= |outcomes|
    ensures LegacySuccessesUpTo(outcomes, k) + LegacyFailuresUpTo(outcomes, k) == k
  {
    if k > 0 {
      LegacyRunCounts(outcomes, k - 1);
    }
  }

  /** The progress counts up by one per success, from 0. */
  lemma {:induction false} LegacyRunStatuses(outcomes: seq<LegacyOutcome>, n: nat, k: nat)
    requires k <= |outcomes|
    ensures |LegacyStatusesUpTo(outcomes, n, k)| == LegacySuccessesUpTo(outcomes, k) + 1
    ensures forall j :: 0 <= j < |LegacyStatusesUpTo(outcomes, n, k)| ==>
      LegacyStatusesUpTo(outcomes, n, k)[j] == ProgressText(j, n)
  {
    if k > 0 {
      LegacyRunStatuses(outcomes, n, k - 1);
    }
  }

  /** The older page always returns to the album, after 1 s when everything
      went up and after 2 s otherwise; the final text names the failures
      exactly when there were some. */
  lemma LegacySummaryProperties(files: seq<File>, clock: seq<nat>, outcomes: seq<LegacyOutcome>)
    requires LegacyInputs(files, clock, outcomes)
    ensures var r := LegacySummary(files, clock, outcomes);
      && r.redirectTo == ALBUM_URL
      && (r.redirectAfterMs == 1000 <==> r.failed == 0)
      && (r.redirectAfterMs == 2000 <==> r.failed > 0)
      && r.uploaded + r.failed == |files|
  {
    LegacyRunCounts(outcomes, |files|);
  }
}
