/** The confirm step of the current upload page script: the picked files are
    posted one after another to the media endpoint with the CSRF token from
    the cookie and a size-dependent timeout; successes advance the progress
    text, failures are collected with their reason, and the page then shows a
    summary and goes back to the album. What the network does is an input:
    `outcomes[i]` is how the request for file i ends and `clock[i]` is
    `Date.now()` when file i is reached. */
module Upload {
  import opened Util
  import opened UploadCommon

  const UPLOAD_URL := "/api/media/"
  const ALBUM_URL := "/album/"
  /** Fixed part of every request's timeout, in milliseconds. */
  const BASE_TIMEOUT_MS := 60000.0
  /** Extra timeout per mebibyte of file, in milliseconds. */
  const TIMEOUT_MS_PER_MIB := 1000.0
  /** Bytes in a mebibyte. */
  const MIB := 1048576
  /** Pause after each successful upload but the last, in milliseconds. */
  const PAUSE_MS := 800
  /** At most this many characters of an error response body are kept. */
  const ERROR_BODY_CHARS := 200
  const TIMEOUT_MESSAGE := "Timeout: El archivo tardó demasiado en subir"
  const UNKNOWN_ERROR := "Error desconocido"

  // ---------------------------------------------------------------------
  // The CSRF token

  /** The first row that starts with `prefix`. */
  function FindRow(rows: seq<string>, prefix: string): (r: Option<string>)
    ensures r.Some? ==> prefix <= r.value && r.value in rows
    ensures r.Some? ==> exists k :: 0 <= k < |rows| && rows[k] == r.value
                                   && forall j :: 0 <= j < k ==> !(prefix <= rows[j])
    ensures r.None? <==> forall k :: 0 <= k < |rows| ==> !(prefix <= rows[k])
  {
    if rows == [] then None
    else if prefix <= rows[0] then Some(rows[0])
    else
      var r := FindRow(rows[1..], prefix);
      assert forall k :: 1 <= k < |rows| ==> rows[k] == rows[1..][k - 1];
      assert r.Some? ==> exists k :: 0 <= k < |rows| && rows[k] == r.value
                                     && forall j :: 0 <= j < k ==> !(prefix <= rows[j]) by {
        if r.Some? {
          var k :| 0 <= k < |rows[1..]| && rows[1..][k] == r.value
                   && forall j :: 0 <= j < k ==> !(prefix <= rows[1..][j]);
          assert rows[k + 1] == r.value;
          forall j | 0 <= j < k + 1 ensures !(prefix <= rows[j]) {
            if j > 0 { assert rows[j] == rows[1..][j - 1]; }
          }
        }
      }
      r
  }

  const CSRF_PREFIX := "csrftoken="

  /** `getCsrfToken`: the text between the first and the second `=` of the
      first `csrftoken=` cookie, or `""` when there is none. */
  function CsrfToken(cookie: string): (token: string)
    ensures FindRow(Split(cookie, "; "), CSRF_PREFIX) == None ==> token == ""
  {
    match FindRow(Split(cookie, "; "), CSRF_PREFIX)
    case None => ""
    case Some(row) =>
      assert row[..9] == "csrftoken" && row[9] == '=';
      SplitCharFirst(row, '=', 9);
      Split(row, "=")[1]
  }

  /** A cookie holding only the token gives the token back, provided its
      value contains neither `=` nor `;`. */
  lemma CsrfTokenReadsBack(v: string)
    requires '=' !in v && ';' !in v
    ensures CsrfToken(CSRF_PREFIX + v) == v
  {
    var row := CSRF_PREFIX + v;
    assert ';' !in row;
    SplitAbsent(row, "; ");
    assert FindRow([row], CSRF_PREFIX) == Some(row);
    assert row[..9] == "csrftoken" && row[9] == '=';
    SplitCharFirst(row, '=', 9);
    assert row[10..] == v;
    SplitAbsent(v, "=");
  }

  /** `.find` stops at the first row with the prefix. */
  lemma {:induction false} FindRowFirst(rows: seq<string>, prefix: string, k: nat)
    requires k < |rows| && prefix <= rows[k]
    requires forall j :: 0 <= j < k ==> !(prefix <= rows[j])
    ensures FindRow(rows, prefix) == Some(rows[k])
  {
    if k > 0 {
      assert !(prefix <= rows[0]);
      forall j | 0 <= j < k - 1 ensures !(prefix <= rows[1..][j]) {
        assert rows[1..][j] == rows[j + 1];
      }
      FindRowFirst(rows[1..], prefix, k - 1);
    }
  }

  /** After `csrftoken=` the pieces are those of the rest of the row. */
  lemma PrefixedRowPieces(t: string)
    ensures |Split(CSRF_PREFIX + t, "=")| >= 2
    ensures Split(CSRF_PREFIX + t, "=")[1..] == Split(t, "=")
  {
    var row := CSRF_PREFIX + t;
    assert row[9] == '=' && '=' !in row[..9] by {
      assert row[..9] == "csrftoken";
    }
    SplitCharFirst(row, '=', 9);
    assert row[10..] == t;
  }

  /** The first `=`-piece of `v + rest` is `v` when `v` holds no `=` and
      `rest` is empty or starts with one. */
  lemma FirstPiece(v: string, rest: string)
    requires '=' !in v && (rest == [] || rest[0] == '=')
    ensures Split(v + rest, "=")[0] == v
  {
    if rest == [] {
      assert v + rest == v;
      SplitAbsent(v, "=");
    } else {
      assert (v + rest)[..|v|] == v;
      SplitCharFirst(v + rest, '=', |v|);
    }
  }

  /** For any cookie, the token is the text of the FIRST `csrftoken=` row
      after its `=` and up to the next `=` (or the row's end). */
  lemma CsrfTokenFirstRow(cookie: string, k: nat, v: string, rest: string)
    requires k < |Split(cookie, "; ")| && Split(cookie, "; ")[k] == CSRF_PREFIX + v + rest
    requires forall j :: 0 <= j < k ==> !(CSRF_PREFIX <= Split(cookie, "; ")[j])
    requires '=' !in v && (rest == [] || rest[0] == '=')
    ensures CsrfToken(cookie) == v
  {
    var t := v + rest;
    assert Split(cookie, "; ")[k] == CSRF_PREFIX + t;
    FindRowFirst(Split(cookie, "; "), CSRF_PREFIX, k);
    PrefixedRowPieces(t);
    FirstPiece(v, rest);
  }

  /** A non-empty token is taken from a `csrftoken=` row and stops at the
      next `=`. */
  lemma CsrfTokenFromRow(cookie: string)
    requires CsrfToken(cookie) != ""
    ensures exists row :: row in Split(cookie, "; ") && CSRF_PREFIX <= row
    ensures '=' !in CsrfToken(cookie)
  {
    var row := FindRow(Split(cookie, "; "), CSRF_PREFIX).value;
    assert row[..9] == "csrftoken" && row[9] == '=';
    SplitCharFirst(row, '=', 9);
    SplitCharPiecesFree(row, '=', 1);
  }

  // ---------------------------------------------------------------------
  // Timeout and size text

  /** The timeout of one request: 60 s plus 1 s per MiB, fractions kept. */
  function TimeoutMs(size: nat): real
  {
    60000.0 + (size as real / 1048576.0) * 1000.0
  }

  /** The timeout never drops below 60 s, grows with the size, and grows by
      exactly one second per extra MiB. */
  lemma TimeoutProperties(a: nat, b: nat)
    ensures TimeoutMs(a) >= BASE_TIMEOUT_MS
    ensures a <= b ==> TimeoutMs(a) <= TimeoutMs(b)
    ensures TimeoutMs(a + MIB) == TimeoutMs(a) + TIMEOUT_MS_PER_MIB
  {
    assert (a + MIB) as real / 1048576.0 == a as real / 1048576.0 + 1.0;
  }

  /** `(size / (1024 * 1024)).toFixed(2)` as hundredths: the division is
      exact, and `toFixed` picks the nearest, the larger one on a tie. */
  function HundredthsOfMiB(size: nat): nat
  {
    (size * 100 + MIB / 2) / MIB
  }

  function TwoDigits(n: nat): string
    requires n < 100
  {
    [DigitChar(n / 10), DigitChar(n % 10)]
  }

  /** The size in MiB with two decimals. */
  function SizeMiBText(size: nat): (t: string)
  {
    var h := HundredthsOfMiB(size);
    NatToString(h / 100) + "." + TwoDigits(h % 100)
  }

  /** The two decimals are the nearest hundredth of the exact size in MiB:
      away by at most half a hundredth, rounding a tie upward. */
  lemma SizeMiBRounding(size: nat)
    ensures var h := HundredthsOfMiB(size);
      h * MIB <= size * 100 + MIB / 2 < h * MIB + MIB
    ensures var t := SizeMiBText(size);
      |t| >= 4 && t[|t| - 3] == '.'
  {
  }

  // ---------------------------------------------------------------------
  // One request

  /** How the request for one file ends, `elapsedMs` after it was sent: a
      response with its status and body text, or a rejection of `fetch` with
      the error's message. */
  datatype UploadOutcome =
    | Responded(elapsedMs: real, status: nat, body: string)
    | NetworkError(elapsedMs: real, message: string)

  /** What is sent for one file. */
  datatype UploadRequest = UploadRequest(url: string, fileName: string, timeoutMs: real, csrfToken: string)

  /** A failed file as listed in the error summary. */
  datatype FailedFile = FailedFile(name: string, sizeMiB: string, error: string)

  /** `substring(0, n)`: the first `n` characters, or all of `s` when it is
      shorter. */
  function Prefix(s: string, n: nat): (r: string)
    ensures |r| <= n && r <= s
    ensures |r| == (if |s| <= n then |s| else n)
  {
    if |s| <= n then s else s[..n]
  }

  /** The reason a request fails, or `None` on success. Past the timeout the
      abort wins; a non-2xx status fails with its code and the start of its
      body; a rejection fails with its message. */
  function UploadError(o: UploadOutcome, timeoutMs: real): (e: Option<string>)
    ensures e.Some? ==> e.value != ""
    ensures e.None? <==> o.elapsedMs < timeoutMs && o.Responded? && IsOk(o.status)
  {
    if o.elapsedMs >= timeoutMs then Some(TIMEOUT_MESSAGE)
    else match o
      case Responded(_, status, body) =>
        if IsOk(status) then None
        else Some("HTTP " + NatToString(status) + ": " + Prefix(body, ERROR_BODY_CHARS))
      case NetworkError(_, message) =>
        Some(if message == "" then UNKNOWN_ERROR else message)
  }

  /** The three reasons a request can fail with: the abort message once the
      timeout has passed; for a timely non-2xx answer, `HTTP <status>: `
      followed by the first 200 characters of the body; for a timely
      rejection, the error's message, or `Error desconocido` when it has
      none. */
  lemma UploadErrorReasons(o: UploadOutcome, timeoutMs: real)
    ensures o.elapsedMs >= timeoutMs ==> UploadError(o, timeoutMs) == Some(TIMEOUT_MESSAGE)
    ensures o.elapsedMs < timeoutMs && o.Responded? && !IsOk(o.status) ==>
              var h := "HTTP " + NatToString(o.status) + ": ";
              var e := UploadError(o, timeoutMs);
              e.Some? && h <= e.value
              && |e.value| == |h| + (if |o.body| <= ERROR_BODY_CHARS then |o.body| else ERROR_BODY_CHARS)
              && e.value[|h|..] <= o.body
    ensures o.elapsedMs < timeoutMs && o.NetworkError? ==>
              UploadError(o, timeoutMs) == Some(if o.message == "" then UNKNOWN_ERROR else o.message)
  {
    if o.elapsedMs < timeoutMs && o.Responded? && !IsOk(o.status) {
      var h := "HTTP " + NatToString(o.status) + ": ";
      var p := Prefix(o.body, ERROR_BODY_CHARS);
      assert UploadError(o, timeoutMs).value == h + p;
      assert (h + p)[|h|..] == p;
    }
  }

  // ---------------------------------------------------------------------
  // The loop, as a specification

  /** What the loop has done so far. */
  datatype Run = Run(requests: seq<UploadRequest>, uploaded: nat, failed: seq<FailedFile>,
                     statuses: seq<string>, pausesAfter: seq<nat>)

  predicate Inputs(files: seq<File>, clock: seq<nat>, outcomes: seq<UploadOutcome>)
  {
    |clock| == |files| && |outcomes| == |files|
  }

  function RequestFor(files: seq<File>, csrf: string, clock: seq<nat>, i: nat): UploadRequest
    requires i < |files| && |clock| == |files|
  {
    UploadRequest(UPLOAD_URL, SafeName(files[i], clock[i], i), TimeoutMs(files[i].size), csrf)
  }

  predicate Succeeded(files: seq<File>, outcomes: seq<UploadOutcome>, i: nat)
    requires i < |files| && |outcomes| == |files|
  {
    UploadError(outcomes[i], TimeoutMs(files[i].size)).None?
  }

  /** The entry listed for a failed file i. */
  function FailedFor(files: seq<File>, clock: seq<nat>, outcomes: seq<UploadOutcome>, i: nat): FailedFile
    requires Inputs(files, clock, outcomes) && i < |files| && !Succeeded(files, outcomes, i)
  {
    FailedFile(SafeName(files[i], clock[i], i), SizeMiBText(files[i].size),
               UploadError(outcomes[i], TimeoutMs(files[i].size)).value)
  }

  /** Requests sent for the first k files. */
  function RequestsUpTo(files: seq<File>, csrf: string, clock: seq<nat>, k: nat): (r: seq<UploadRequest>)
    requires k <= |files| && |clock| == |files|
    ensures |r| == k
  {
    if k == 0 then [] else RequestsUpTo(files, csrf, clock, k - 1) + [RequestFor(files, csrf, clock, k - 1)]
  }

  /** Successful files among the first k. */
  function SuccessesUpTo(files: seq<File>, outcomes: seq<UploadOutcome>, k: nat): nat
    requires k <= |files| && |outcomes| == |files|
  {
    if k == 0 then 0
    else SuccessesUpTo(files, outcomes, k - 1) + (if Succeeded(files, outcomes, k - 1) then 1 else 0)
  }

  /** Failure entries for the first k files. */
  function FailedUpTo(files: seq<File>, clock: seq<nat>, outcomes: seq<UploadOutcome>, k: nat): seq<FailedFile>
    requires Inputs(files, clock, outcomes) && k <= |files|
  {
    if k == 0 then []
    else FailedUpTo(files, clock, outcomes, k - 1)
         + (if Succeeded(files, outcomes, k - 1) then [] else [FailedFor(files, clock, outcomes, k - 1)])
  }

  /** Progress texts shown while the first k files are handled. */
  function StatusesUpTo(files: seq<File>, outcomes: seq<UploadOutcome>, k: nat): seq<string>
    requires k <= |files| && |outcomes| == |files|
  {
    if k == 0 then [ProgressText(0, |files|)]
    else StatusesUpTo(files, outcomes, k - 1)
         + (if Succeeded(files, outcomes, k - 1) then [ProgressText(SuccessesUpTo(files, outcomes, k), |files|)]
            else [])
  }

  /** Files after which the page waits, among the first k. */
  function PausesUpTo(files: seq<File>, outcomes: seq<UploadOutcome>, k: nat): seq<nat>
    requires k <= |files| && |outcomes| == |files|
  {
    if k == 0 then []
    else PausesUpTo(files, outcomes, k - 1)
         + (if Succeeded(files, outcomes, k - 1) && k - 1 < |files| - 1 then [k - 1] else [])
  }

  /** The state after the first k files. */
  function RunUpTo(files: seq<File>, csrf: string, clock: seq<nat>, outcomes: seq<UploadOutcome>, k: nat): Run
    requires Inputs(files, clock, outcomes) && k <= |files|
  {
    Run(RequestsUpTo(files, csrf, clock, k), SuccessesUpTo(files, outcomes, k), FailedUpTo(files, clock, outcomes, k),
        StatusesUpTo(files, outcomes, k), PausesUpTo(files, outcomes, k))
  }

  /** Every file is sent once, in order, under its safe name, with its own
      timeout and the page's token. */
  lemma {:induction false} RunRequests(files: seq<File>, csrf: string, clock: seq<nat>, k: nat)
    requires k <= |files| && |clock| == |files|
    ensures |RequestsUpTo(files, csrf, clock, k)| == k
    ensures forall j :: 0 <= j < k ==> RequestsUpTo(files, csrf, clock, k)[j] == RequestFor(files, csrf, clock, j)
  {
    if k > 0 {
      RunRequests(files, csrf, clock, k - 1);
      var prev := RequestsUpTo(files, csrf, clock, k - 1);
      var all := RequestsUpTo(files, csrf, clock, k);
      assert all == prev + [RequestFor(files, csrf, clock, k - 1)];
      forall j | 0 <= j < k ensures all[j] == RequestFor(files, csrf, clock, j) {
        if j < k - 1 { assert all[j] == prev[j]; }
      }
    }
  }

  /** Each file ends either uploaded or failed. */
  lemma {:induction false} RunCounts(files: seq<File>, clock: seq<nat>, outcomes: seq<UploadOutcome>, k: nat)
    requires Inputs(files, clock, outcomes) && k <= |files|
    ensures SuccessesUpTo(files, outcomes, k) + |FailedUpTo(files, clock, outcomes, k)| == k
  {
    if k > 0 {
      RunCounts(files, clock, outcomes, k - 1);
    }
  }

  /** The progress text moves by one exactly on each success (a failure
      leaves it where it was): after the start text there is one text per
      uploaded file, counting up. */
  lemma {:induction false} RunStatuses(files: seq<File>, outcomes: seq<UploadOutcome>, k: nat)
    requires k <= |files| && |outcomes| == |files|
    ensures |StatusesUpTo(files, outcomes, k)| == SuccessesUpTo(files, outcomes, k) + 1
    ensures forall j :: 0 <= j < |StatusesUpTo(files, outcomes, k)| ==>
      StatusesUpTo(files, outcomes, k)[j] == ProgressText(j, |files|)
  {
    if k > 0 {
      RunStatuses(files, outcomes, k - 1);
    }
  }

  /** The page pauses after each success except the last file's, and at no
      other point. */
  lemma {:induction false} RunPauses(files: seq<File>, outcomes: seq<UploadOutcome>, k: nat)
    requires k <= |files| && |outcomes| == |files|
    ensures forall j: nat :: j in PausesUpTo(files, outcomes, k) <==>
      j < k && j < |files| - 1 && Succeeded(files, outcomes, j)
  {
    if k > 0 {
      RunPauses(files, outcomes, k - 1);
    }
  }

  /** Each failed file is listed with its name, its size and the reason its
      request failed, in the order the files were sent. */
  lemma {:induction false} FailuresListed(files: seq<File>, clock: seq<nat>, outcomes: seq<UploadOutcome>,
                                          k: nat, j: nat)
    requires Inputs(files, clock, outcomes) && k <= |files|
    requires j < |FailedUpTo(files, clock, outcomes, k)|
    ensures exists i :: (0 <= i < k && !Succeeded(files, outcomes, i)
      && FailedUpTo(files, clock, outcomes, k)[j] == FailedFor(files, clock, outcomes, i))
  {
    var prev := FailedUpTo(files, clock, outcomes, k - 1);
    if j < |prev| {
      FailuresListed(files, clock, outcomes, k - 1, j);
      var i :| 0 <= i < k - 1 && !Succeeded(files, outcomes, i) && prev[j] == FailedFor(files, clock, outcomes, i);
      assert FailedUpTo(files, clock, outcomes, k)[j] == prev[j];
    } else {
      assert !Succeeded(files, outcomes, k - 1);
    }
  }

  // ---------------------------------------------------------------------
  // The summary

  /** One entry of the failure alert. */
  function FailureLine(idx: nat, f: FailedFile): string
  {
    "\n" + NatToString(idx + 1) + ". " + f.name + " (" + f.sizeMiB + "MB)\n   Error: " + f.error + "\n"
  }

  /** The entries for failures `from` onward, numbered from `from + 1`. */
  function FailureLines(failed: seq<FailedFile>, from: nat): string
    requires from <= |failed|
    decreases |failed| - from
  {
    if from == |failed| then "" else FailureLine(from, failed[from]) + FailureLines(failed, from + 1)
  }

  function AlertText(uploaded: nat, failed: seq<FailedFile>): string
  {
    "Subidos: " + NatToString(uploaded) + "\nFallaron: " + NatToString(|failed|) + "\n\n"
    + "Archivos que fallaron:\n" + FailureLines(failed, 0)
  }

  function FinalStatus(uploaded: nat, failedCount: nat): string
  {
    if failedCount == 0 then "\U{2705} " + NatToString(uploaded) + " archivos subidos. Redirigiendo…"
    else "\U{26A0}\U{FE0F} " + NatToString(uploaded) + " subidos, " + NatToString(failedCount) + " fallaron. Redirigiendo…"
  }

  datatype ConfirmReport =
    | NotStarted
    | Finished(run: Run, finalStatus: string, alert: Option<string>, redirectTo: string, redirectAfterMs: nat)

  /** The summary for a finished run: the final status, the alert (only with
      failures), and the redirect to the album after 1 s, or 3 s with
      failures. */
  function Summary(r: Run): ConfirmReport
  {
    Finished(r, FinalStatus(r.uploaded, |r.failed|),
             if |r.failed| == 0 then None else Some(AlertText(r.uploaded, r.failed)),
             ALBUM_URL, if |r.failed| == 0 then 1000 else 3000)
  }

  /** The page always returns to the album; it raises an alert, and waits
      longer, exactly when some file failed, and the final status starts with
      the success mark exactly then too. */
  lemma SummaryProperties(r: Run)
    ensures var s := Summary(r);
      && s.redirectTo == ALBUM_URL
      && (s.alert.Some? <==> |r.failed| > 0)
      && (s.redirectAfterMs == 1000 <==> |r.failed| == 0)
      && (s.finalStatus[0] == '\U{2705}' <==> |r.failed| == 0)
  {
  }

  // ---------------------------------------------------------------------
  // The confirm handler

  /** One more file: how each part of the run grows with file i. */
  lemma RunStep(files: seq<File>, csrf: string, clock: seq<nat>, outcomes: seq<UploadOutcome>, i: nat)
    requires Inputs(files, clock, outcomes) && i < |files|
    ensures RequestsUpTo(files, csrf, clock, i + 1) == RequestsUpTo(files, csrf, clock, i) + [RequestFor(files, csrf, clock, i)]
    ensures Succeeded(files, outcomes, i) ==>
      && SuccessesUpTo(files, outcomes, i + 1) == SuccessesUpTo(files, outcomes, i) + 1
      && FailedUpTo(files, clock, outcomes, i + 1) == FailedUpTo(files, clock, outcomes, i)
      && StatusesUpTo(files, outcomes, i + 1)
         == StatusesUpTo(files, outcomes, i) + [ProgressText(SuccessesUpTo(files, outcomes, i) + 1, |files|)]
      && PausesUpTo(files, outcomes, i + 1) == PausesUpTo(files, outcomes, i) + (if i < |files| - 1 then [i] else [])
    ensures !Succeeded(files, outcomes, i) ==>
      && SuccessesUpTo(files, outcomes, i + 1) == SuccessesUpTo(files, outcomes, i)
      && FailedUpTo(files, clock, outcomes, i + 1)
         == FailedUpTo(files, clock, outcomes, i) + [FailedFor(files, clock, outcomes, i)]
      && StatusesUpTo(files, outcomes, i + 1) == StatusesUpTo(files, outcomes, i)
      && PausesUpTo(files, outcomes, i + 1) == PausesUpTo(files, outcomes, i)
  {
  }

  /** The loop of the confirm handler: each file in turn is sent under its
      safe name with its own timeout and the page's token; a success counts,
      moves the progress text and (but after the last file) pauses; a
      failure is listed with its name, its size and its error, and the loop
      goes on. */
  method UploadAll(files: seq<File>, csrf: string, clock: seq<nat>, outcomes: seq<UploadOutcome>)
    returns (run: Run)
    requires Inputs(files, clock, outcomes)
    ensures run == RunUpTo(files, csrf, clock, outcomes, |files|)
  {
    var statuses := [ProgressText(0, |files|)];
    var requests: seq<UploadRequest> := [];
    var uploaded := 0;
    var failed: seq<FailedFile> := [];
    var pauses: seq<nat> := [];
    for i := 0 to |files|
      invariant requests == RequestsUpTo(files, csrf, clock, i)
      invariant uploaded == SuccessesUpTo(files, outcomes, i)
      invariant failed == FailedUpTo(files, clock, outcomes, i)
      invariant statuses == StatusesUpTo(files, outcomes, i)
      invariant pauses == PausesUpTo(files, outcomes, i)
    {
      var file := files[i];
      var safeName := SafeName(file, clock[i], i);
      var timeout := TimeoutMs(file.size);
      requests := requests + [UploadRequest(UPLOAD_URL, safeName, timeout, csrf)];
      var error := UploadError(outcomes[i], timeout);
      RunStep(files, csrf, clock, outcomes, i);
      if error == None {
        uploaded := uploaded + 1;
        statuses := statuses + [ProgressText(uploaded, |files|)];
        if i < |files| - 1 { pauses := pauses + [i]; }
      } else {
        failed := failed + [FailedFile(safeName, SizeMiBText(file.size), error.value)];
      }
    }
    run := Run(requests, uploaded, failed, statuses, pauses);
  }

  /** The confirm button. Nothing happens without picked files. */
  method ConfirmUpload(files: seq<File>, cookie: string, clock: seq<nat>, outcomes: seq<UploadOutcome>)
    returns (report: ConfirmReport)
    requires Inputs(files, clock, outcomes)
    ensures report.NotStarted? <==> files == []
    ensures files != [] ==> report == Summary(RunUpTo(files, CsrfToken(cookie), clock, outcomes, |files|))
  {
    if |files| == 0 { return NotStarted; }
    var csrf := CsrfToken(cookie);
    var run := UploadAll(files, csrf, clock, outcomes);
    var alert: Option<string> := None;
    var delay := 1000;
    if |run.failed| > 0 {
      alert := Some(AlertText(run.uploaded, run.failed));
      delay := 3000;
    }
    report := Finished(run, FinalStatus(run.uploaded, |run.failed|), alert, ALBUM_URL, delay);
  }
}
