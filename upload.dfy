/**
 * The upload client (`PredictionView` in src/predictionPortel.js): pick a
 * CSV file, send it for analysis, then either name the classified file that
 * came back or explain the failure. The request itself is asynchronous; here
 * it is split into the part before the request (`StartUpload`) and the part
 * after it settles (`FinishUpload`), with the settled request as a value.
 */
module Upload {
  import opened Wrappers
  import opened Text

  const ReadyMessage := "Ready to analyze data. Please upload a network traffic CSV file."
  const FileSelectedPrefix := "File selected: "
  const InvalidFileMessage := "Error: Please select a valid CSV file."
  const AnalyzingMessage := "Analyzing data... This may take a moment."
  const CompletePrefix := "Analysis complete! Classified file downloaded. Filename: "
  const FailedPrefix := "Prediction Failed: "
  const UnknownError := "An unknown network or server error occurred."
  const NetworkError := "Network Error: Cannot connect to Flask backend. Is the server running on http://127.0.0.1:5000?"
  const NetworkCode := "ERR_NETWORK"
  const DefaultFilename := "classified_packets.csv"

  // ---------------------------------------------------------------------
  // The download name: `/filename="?(.+)"?$/` on Content-Disposition
  // ---------------------------------------------------------------------

  const Key := "filename="

  /** `filename=` occurs at position `i` of `h`. */
  predicate KeyAt(h: string, i: nat)
  {
    i + |Key| <= |h| && h[i..i + |Key|] == Key
  }

  /** What `"?(.+)"?$` can match entirely: a non-empty rest of the header with no line terminator (`.` stops at one, `$` is the end of input). */
  predicate Matchable(t: string)
  {
    |t| > 0 && forall k :: 0 <= k < |t| ==> !IsLineTerminator(t[k])
  }

  /** The pattern matches when started at position `i`. */
  predicate MatchesAt(h: string, i: nat)
  {
    KeyAt(h, i) && Matchable(h[i + |Key|..])
  }

  /** The leftmost start position at or after `from` where the pattern matches. */
  function FirstMatch(h: string, from: nat): (r: Option<nat>)
    ensures r.Some? ==> from <= r.value && MatchesAt(h, r.value)
    ensures r.Some? ==> forall j :: from <= j < r.value ==> !MatchesAt(h, j)
    ensures r.None? ==> forall j :: from <= j ==> !MatchesAt(h, j)
    decreases |h| - from
  {
    if from + |Key| > |h| then None
    else if MatchesAt(h, from) then Some(from)
    else FirstMatch(h, from + 1)
  }

  /** The text after `filename=` opens with a quote that the pattern may consume. */
  predicate Quoted(t: string)
  {
    |t| >= 2 && t[0] == '"'
  }

  /** Group 1 on a matchable rest: the optional quote is taken when something is left for `.+`, and `.+` then runs to the end. */
  function Capture(t: string): (c: string)
    requires Matchable(t)
    ensures |c| > 0
  {
    if Quoted(t) then t[1..] else t
  }

  /** One way `"?(.+)"?` can cover `t` exactly: an optional quote, group `c`, an optional quote. */
  predicate Split(t: string, openQuote: bool, c: string, closeQuote: bool)
  {
    && |c| > 0
    && (forall k :: 0 <= k < |c| ==> !IsLineTerminator(c[k]))
    && t == (if openQuote then "\"" else "") + c + (if closeQuote then "\"" else "")
  }

  /**
   * `Capture` is the group a backtracking matcher reports: a split of `t`,
   * taking the opening quote whenever any split takes it, and among the splits
   * that agree on it, the one with the longest group (greedy `.+`).
   */
  lemma CaptureIsPreferredSplit(t: string, openQuote: bool, c: string, closeQuote: bool)
    requires Matchable(t)
    ensures Split(t, Quoted(t), Capture(t), false)
    ensures Split(t, openQuote, c, closeQuote) ==> (openQuote ==> Quoted(t))
    ensures Split(t, openQuote, c, closeQuote) && openQuote == Quoted(t) ==> |c| <= |Capture(t)|
  {
    if Quoted(t) {
      assert t == "\"" + t[1..];
    } else {
      assert t == "" + t + "";
    }
    if Split(t, openQuote, c, closeQuote) && openQuote {
      assert t[0] == '"' && |t| >= 1 + |c|;
    }
  }

  /** The name the browser saves the classified file under. */
  function DownloadFilename(contentDisposition: Option<string>): (f: string)
    ensures |f| > 0
  {
    if contentDisposition.None? || contentDisposition.value == "" then DefaultFilename
    else
      var h := contentDisposition.value;
      match FirstMatch(h, 0)
      case None => DefaultFilename
      case Some(i) => Capture(h[i + |Key|..])
  }

  /** A header holding no match of the pattern, or no header, leaves the default name. */
  lemma NoMatchKeepsDefault(contentDisposition: Option<string>)
    requires contentDisposition.Some? ==> forall j :: !MatchesAt(contentDisposition.value, j)
    ensures DownloadFilename(contentDisposition) == DefaultFilename
  {
  }

  /** Under `filename=` preceded by text without `=`, the rest of the header is the name. */
  lemma {:induction false} FirstKeyFound(prefix: string, rest: string)
    requires forall k :: 0 <= k < |prefix| ==> prefix[k] != '='
    requires Matchable(rest)
    ensures FirstMatch(prefix + Key + rest, 0) == Some(|prefix|)
  {
    var h := prefix + Key + rest;
    var key := Key;
    assert key == "filename=";
    assert h[|prefix|..|prefix| + |Key|] == Key;
    assert h[|prefix| + |Key|..] == rest;
    assert MatchesAt(h, |prefix|);
    forall j | 0 <= j < |prefix|
      ensures !MatchesAt(h, j)
    {
      var eq := j + |Key| - 1;
      if eq < |prefix| {
        assert h[eq] == prefix[eq];
      } else {
        assert h[eq] == key[eq - |prefix|];
      }
    }
  }

  /** An unquoted name comes back whole. */
  lemma UnquotedName(prefix: string, name: string)
    requires forall k :: 0 <= k < |prefix| ==> prefix[k] != '='
    requires Matchable(name) && name[0] != '"'
    ensures DownloadFilename(Some(prefix + Key + name)) == name
  {
    FirstKeyFound(prefix, name);
    assert (prefix + Key + name)[|prefix| + |Key|..] == name;
  }

  /**
   * A quoted name keeps its closing quote: the greedy group reaches the end of
   * the header before the trailing `"?` is tried, so that `"?` always matches empty.
   */
  lemma QuotedNameKeepsClosingQuote(prefix: string, name: string)
    requires forall k :: 0 <= k < |prefix| ==> prefix[k] != '='
    requires Matchable(name)
    ensures DownloadFilename(Some(prefix + Key + "\"" + name + "\"")) == name + "\""
  {
    var rest := "\"" + name + "\"";
    assert Matchable(rest) by {
      forall k | 0 <= k < |rest|
        ensures !IsLineTerminator(rest[k])
      {
        if 0 < k < |rest| - 1 {
          assert rest[k] == name[k - 1];
        }
      }
    }
    FirstKeyFound(prefix, rest);
    assert prefix + Key + "\"" + name + "\"" == prefix + Key + rest;
    assert (prefix + Key + rest)[|prefix| + |Key|..] == rest;
    assert rest[1..] == name + "\"";
  }

  // ---------------------------------------------------------------------
  // The failure message
  // ---------------------------------------------------------------------

  /** The body of an error response, read as text and given to `JSON.parse`. */
  datatype ErrorBody =
    | Unparseable                       // `JSON.parse` throws
    | JsonNull                          // parses to `null`, so reading `.error` throws
    | Parsed(errorField: Option<string>) // any other value, with its `error` member if it is a string

  datatype ErrorResponse = ErrorResponse(status: nat, statusText: string, body: ErrorBody)

  /** The failed request as the client sees it: the error's `code` and its `response`, if any. */
  datatype Failure = Failure(code: Option<string>, response: Option<ErrorResponse>)

  /** The message `status` and `statusText` give when the body cannot be read as an object. */
  function HttpErrorMessage(status: nat, statusText: string): (m: string)
    ensures |m| > 13 + |NatToDecimal(status)| + |statusText|
    ensures m[..11] == "HTTP Error "
    ensures m[11..11 + |NatToDecimal(status)|] == NatToDecimal(status)
    ensures DecimalValue(m[11..11 + |NatToDecimal(status)|]) == status
    ensures m[11 + |NatToDecimal(status)|..13 + |NatToDecimal(status)|] == ": "
    ensures m[13 + |NatToDecimal(status)|..13 + |NatToDecimal(status)| + |statusText|] == statusText
  {
    var digits := NatToDecimal(status);
    var d := |digits|;
    var m := "HTTP Error " + digits + ": " + statusText + ". Check server console.";
    assert m[11..11 + d] == digits;
    assert m[11 + d..13 + d] == ": ";
    assert m[13 + d..13 + d + |statusText|] == statusText;
    DecimalRoundTrip(status);
    m
  }

  /** The explanation of a failed request. */
  function ErrorMessage(f: Failure): (m: string)
    ensures |m| > 0
    ensures f.code == Some(NetworkCode) ==> m == NetworkError
    ensures f.code != Some(NetworkCode) && f.response.None? ==> m == UnknownError
    ensures f.code != Some(NetworkCode) && f.response.Some? ==>
      match f.response.value.body
      case Parsed(e) => m == (if e.Some? && e.value != "" then e.value else UnknownError)
      case _ => m == HttpErrorMessage(f.response.value.status, f.response.value.statusText)
  {
    if f.code == Some(NetworkCode) then NetworkError
    else if f.response.None? then UnknownError
    else
      var r := f.response.value;
      match r.body
      case Parsed(e) => if e.Some? && e.value != "" then e.value else UnknownError
      case _ => HttpErrorMessage(r.status, r.statusText)
  }

  /** How the request settled. */
  datatype Settled = Succeeded(contentDisposition: Option<string>) | Failed(failure: Failure)

  // ---------------------------------------------------------------------
  // The view's state
  // ---------------------------------------------------------------------

  class UploadClient {
    var selectedFile: Option<string>  // the chosen file, by name
    var isLoading: bool
    var isError: bool
    var message: string
    var stats: Option<string>         // the name reported after a completed analysis

    /**
     * The states the handlers keep the view in: only CSV names are ever
     * selected; a request in flight has a file and no error or result; an
     * error and a result are never shown together.
     */
    predicate Valid()
      reads this
    {
      && (selectedFile.Some? ==> EndsWith(selectedFile.value, ".csv"))
      && (isLoading ==> selectedFile.Some? && !isError && stats.None? && message == AnalyzingMessage)
      && (stats.Some? ==> !isLoading && !isError && message == CompletePrefix + stats.value)
      && (isError ==> stats.None?)
    }

    constructor ()
      ensures selectedFile.None? && !isLoading && !isError && stats.None?
      ensures message == ReadyMessage
      ensures Valid()
    {
      selectedFile := None;
      isLoading := false;
      isError := false;
      message := ReadyMessage;
      stats := None;
    }

    /** `handleFileChange`, with the first chosen file's name (`None` when nothing was chosen). The input is disabled while a request is in flight. */
    method HandleFileChange(file: Option<string>)
      requires Valid() && !isLoading
      modifies this
      ensures file.Some? && EndsWith(file.value, ".csv") ==>
        selectedFile == file && !isError && message == FileSelectedPrefix + file.value
      ensures !(file.Some? && EndsWith(file.value, ".csv")) ==>
        selectedFile.None? && isError && message == InvalidFileMessage
      ensures stats.None? && isLoading == old(isLoading)
      ensures Valid()
    {
      isError := false;
      stats := None;
      if file.Some? && EndsWith(file.value, ".csv") {
        selectedFile := file;
        message := FileSelectedPrefix + file.value;
      } else {
        selectedFile := None;
        message := InvalidFileMessage;
        isError := true;
      }
    }

    /** `handleFileUpload` up to the request: nothing happens without a file or while a request is in flight. */
    method StartUpload() returns (started: bool)
      requires Valid()
      modifies this
      ensures started <==> old(selectedFile).Some? && !old(isLoading)
      ensures !started ==> unchanged(this)
      ensures started ==> isLoading && !isError && stats.None? && message == AnalyzingMessage
                          && selectedFile == old(selectedFile)
      ensures Valid()
    {
      if selectedFile.None? || isLoading {
        return false;
      }
      isLoading := true;
      isError := false;
      stats := None;
      message := AnalyzingMessage;
      return true;
    }

    /** `handleFileUpload` after the request settles, including its `finally` block. */
    method FinishUpload(outcome: Settled)
      requires Valid() && isLoading
      modifies this
      ensures !isLoading && selectedFile.None?
      ensures outcome.Succeeded? ==>
        var name := DownloadFilename(outcome.contentDisposition);
        stats == Some(name) && !isError && message == CompletePrefix + name
      ensures outcome.Failed? ==>
        stats.None? && isError && message == FailedPrefix + ErrorMessage(outcome.failure)
      ensures Valid()
    {
      if outcome.Succeeded? {
        var filename := DownloadFilename(outcome.contentDisposition);
        message := CompletePrefix + filename;
        stats := Some(filename);
      } else {
        message := FailedPrefix + ErrorMessage(outcome.failure);
        isError := true;
      }
      isLoading := false;
      selectedFile := None;
    }
  }

  /** A whole round: selecting a CSV file and uploading it ends with the download name reported, or the failure explained, and nothing selected. */
  method UploadRound(fileName: string, outcome: Settled) returns (view: UploadClient)
    requires EndsWith(fileName, ".csv")
    ensures fresh(view) && view.Valid() && !view.isLoading && view.selectedFile.None?
    ensures outcome.Succeeded? ==> view.stats == Some(DownloadFilename(outcome.contentDisposition))
    ensures outcome.Failed? ==> view.isError && view.message == FailedPrefix + ErrorMessage(outcome.failure)
  {
    view := new UploadClient();
    view.HandleFileChange(Some(fileName));
    var started := view.StartUpload();
    view.FinishUpload(outcome);
  }
}
