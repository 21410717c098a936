/**
 * The URL/file checker panel: which check a click issues, how a file's
 * hash is obtained, and what the result popup shows.
 */
module FileChecker {
  import opened Options
  import opened Text
  import opened Hex
  import opened Model

  /** A content URI as the panel uses it: its text form and last path segment. */
  datatype Uri = Uri(text: string, lastPathSegment: Option<string>)

  /** Reading the picked file: its bytes, no stream at all, or a failure while reading. */
  datatype ReadOutcome = Opened(bytes: seq<Byte>) | NoStream | IoFailure | OtherFailure

  /**
   * `computeFileHash`: the hex digest of the file's bytes, or `null` when
   * there is no stream or reading fails. The digest function is a parameter.
   */
  function ComputeFileHash(read: ReadOutcome, digest: seq<Byte> -> seq<Byte>): (r: Option<string>)
    ensures r.Some? <==> read.Opened?
    ensures r.Some? ==> |r.value| == 2 * |digest(read.bytes)|
    ensures r.Some? ==> DecodeHex(r.value) == Some(digest(read.bytes))
  {
    match read
    case Opened(bytes) =>
      DecodeEncodeHex(digest(bytes));
      Some(GenerateFileHash(digest(bytes)))
    case NoStream => None
    case IoFailure => None
    case OtherFailure => None
  }

  /** The "Check URL" button is enabled for non-blank input while no check is running. */
  function CheckUrlEnabled(urlInput: string, isLoading: bool): (enabled: bool)
    ensures enabled <==> UrlSubmission(urlInput).Some? && !isLoading
  {
    !IsBlank(urlInput) && !isLoading
  }

  /** The request a "Check URL" click issues: the trimmed input, and only for non-blank input. */
  function UrlSubmission(urlInput: string): (r: Option<FileCheckRequest>)
    ensures r.Some? <==> !IsBlank(urlInput)
    ensures r.Some? ==> r.value.fileName.None? && r.value.fileUri.None? && r.value.fileHash.None?
    ensures r.Some? ==> r.value.url == Some(Trim(urlInput))
  {
    if IsBlank(urlInput) then None else Some(UrlRequest(Trim(urlInput)))
  }

  /** A submitted URL is never empty and has no surrounding whitespace. */
  lemma SubmittedUrlTrimmed(urlInput: string)
    requires UrlSubmission(urlInput).Some?
    ensures var u := UrlSubmission(urlInput).value.url.value;
      u != [] && Trimmed(u)
  {
  }

  /** The request a "Validate File" click issues: only for a picked file whose hash could be computed. */
  function FileSubmission(selected: Option<Uri>, read: ReadOutcome, digest: seq<Byte> -> seq<Byte>): (r: Option<FileCheckRequest>)
    ensures r.Some? <==> selected.Some? && read.Opened?
    ensures r.Some? ==> r.value == FileCheckRequest(selected.value.lastPathSegment, Some(selected.value.text),
                                                     ComputeFileHash(read, digest), None)
  {
    match selected
    case None => None
    case Some(uri) =>
      match ComputeFileHash(read, digest)
      case None => None
      case Some(hash) => Some(FileCheckRequest(uri.lastPathSegment, Some(uri.text), Some(hash), None))
  }

  // ---------------------------------------------------------------------
  // The result popup.

  /** The popup title. */
  function PopupTitle(result: FileCheckResult, request: Option<FileCheckRequest>): string {
    if result.isSafe then
      if request.Some? && (request.value.fileHash.Some? || request.value.fileUri.Some?) then "This file is safe"
      else "This link is safe"
    else "Threat Detected"
  }

  /** The "Browser" action: a safe result for a plain, non-blank URL request. */
  predicate ShowsBrowser(result: FileCheckResult, request: Option<FileCheckRequest>) {
    && result.isSafe && request.Some? && request.value.url.Some? && !IsBlank(request.value.url.value)
    && request.value.fileHash.None? && request.value.fileUri.None?
  }

  /**
   * The "Delete File" action, in the `else if` after "Browser": an unsafe
   * result about a file. The two conditions exclude each other, so the
   * `else` adds nothing (`ActionGates`).
   */
  predicate ShowsDeleteFile(result: FileCheckResult, request: Option<FileCheckRequest>) {
    !result.isSafe && request.Some? && request.value.fileUri.Some?
  }

  /** The title names a threat exactly for unsafe results, and a file exactly when the request names one. */
  lemma PopupTitleCases(result: FileCheckResult, request: Option<FileCheckRequest>)
    ensures PopupTitle(result, request) == "Threat Detected" <==> !result.isSafe
    ensures PopupTitle(result, request) == "This file is safe"
        <==> result.isSafe && request.Some? && (request.value.fileHash.Some? || request.value.fileUri.Some?)
    ensures PopupTitle(result, request) == "This link is safe"
        <==> result.isSafe && !(request.Some? && (request.value.fileHash.Some? || request.value.fileUri.Some?))
  {
  }

  /**
   * The action buttons: "Browser" exactly for a safe URL-only request, "Delete
   * File" exactly for an unsafe result about a file, never both.
   */
  lemma ActionGates(result: FileCheckResult, request: Option<FileCheckRequest>)
    ensures ShowsBrowser(result, request)
        <==> && result.isSafe && request.Some? && request.value.url.Some? && !IsBlank(request.value.url.value)
             && request.value.fileHash.None? && request.value.fileUri.None?
    ensures ShowsDeleteFile(result, request) <==> !result.isSafe && request.Some? && request.value.fileUri.Some?
    ensures !(ShowsBrowser(result, request) && ShowsDeleteFile(result, request))
  {
  }

  predicate HasWebScheme(url: string) {
    StartsWith(url, "http://") || StartsWith(url, "https://")
  }

  /** The URL handed to the browser: `https://` is prepended when neither web scheme is present. */
  function UrlToOpen(url: string): (r: string)
    ensures HasWebScheme(r)
    ensures HasWebScheme(url) ==> r == url
    ensures !HasWebScheme(url) ==> r == "https://" + url && r[8..] == url
  {
    if !StartsWith(url, "http://") && !StartsWith(url, "https://") then "https://" + url else url
  }

  /** Opening a prepared URL again prepares nothing more. */
  lemma UrlToOpenIdempotent(url: string)
    ensures UrlToOpen(UrlToOpen(url)) == UrlToOpen(url)
  {
  }

  // ---------------------------------------------------------------------
  // The panel's state across clicks.

  /**
   * The panel's remembered state. `lastCheckedUrl` is the source's field;
   * `lastRequest` is the request most recently handed to the checker.
   */
  datatype Panel = Panel(
    urlInput: string,
    selectedFile: Option<Uri>,
    lastCheckedUrl: Option<string>,
    lastRequest: Option<FileCheckRequest>)

  const InitialPanel := Panel("", None, None, None)

  datatype Click =
    | EditUrl(text: string)
    | PressCheckUrl
    | PickFile(picked: Option<Uri>)
    | PressRemove
    | PressValidate(read: ReadOutcome)

  /** A click's effect: the new state and the request it issued, if any. */
  datatype Pressed = Pressed(panel: Panel, issued: Option<FileCheckRequest>)

  function Press(p: Panel, click: Click, digest: seq<Byte> -> seq<Byte>): Pressed {
    match click
    case EditUrl(text) => Pressed(p.(urlInput := text), None)
    case PressCheckUrl =>
      (match UrlSubmission(p.urlInput)
       case None => Pressed(p, None)
       case Some(request) => Pressed(p.(lastCheckedUrl := request.url, lastRequest := Some(request)), Some(request)))
    // The picker's answer replaces the selection, a cancelled pick clearing it.
    case PickFile(picked) => Pressed(p.(selectedFile := picked), None)
    case PressRemove => Pressed(p.(selectedFile := None), None)
    case PressValidate(read) =>
      match FileSubmission(p.selectedFile, read, digest)
      case None => Pressed(p, None)
      case Some(request) => Pressed(p.(lastRequest := Some(request)), Some(request))
  }

  /** A run of clicks: the final state and every request issued, in order. */
  datatype Run = Run(panel: Panel, issued: seq<FileCheckRequest>)

  function RunClicks(p: Panel, clicks: seq<Click>, digest: seq<Byte> -> seq<Byte>): Run
    decreases |clicks|
  {
    if clicks == [] then Run(p, [])
    else
      var step := Press(p, clicks[0], digest);
      var rest := RunClicks(step.panel, clicks[1..], digest);
      Run(rest.panel, (if step.issued.Some? then [step.issued.value] else []) + rest.issued)
  }

  /** Issued requests are well formed: a URL check carries only the URL, a file check a uri and hash and no URL. */
  predicate WellFormedIssue(r: FileCheckRequest) {
    || (r.url.Some? && r.url.value != [] && r.fileUri.None? && r.fileHash.None? && r.fileName.None?)
    || (r.url.None? && r.fileUri.Some? && r.fileHash.Some?)
  }

  lemma {:induction false} IssuedWellFormed(p: Panel, clicks: seq<Click>, digest: seq<Byte> -> seq<Byte>)
    ensures forall r :: r in RunClicks(p, clicks, digest).issued ==> WellFormedIssue(r)
    decreases |clicks|
  {
    if clicks != [] {
      var step := Press(p, clicks[0], digest);
      IssuedWellFormed(step.panel, clicks[1..], digest);
      if clicks[0].PressCheckUrl? && step.issued.Some? {
        SubmittedUrlTrimmed(p.urlInput);
      }
    }
  }

  /** `lastRequest` is always the most recently issued request. */
  lemma {:induction false} LastRequestTracksIssued(p: Panel, clicks: seq<Click>, digest: seq<Byte> -> seq<Byte>)
    ensures var run := RunClicks(p, clicks, digest);
      run.panel.lastRequest == if run.issued == [] then p.lastRequest else Some(run.issued[|run.issued| - 1])
    decreases |clicks|
  {
    if clicks != [] {
      var step := Press(p, clicks[0], digest);
      LastRequestTracksIssued(step.panel, clicks[1..], digest);
    }
  }

  /**
   * The popup's request as written: the last checked URL if there ever was
   * one, else the selected file (without its hash), else none.
   */
  function PopupRequestAsWritten(p: Panel): (r: Option<FileCheckRequest>)
    ensures p.lastCheckedUrl.Some? ==> r == Some(UrlRequest(p.lastCheckedUrl.value))
    ensures p.lastCheckedUrl.None? ==> (r.Some? <==> p.selectedFile.Some?)
    ensures p.lastCheckedUrl.None? && p.selectedFile.Some? ==>
      && r.value.url.None? && r.value.fileHash.None?
      && r.value.fileUri == Some(p.selectedFile.value.text)
      && r.value.fileName == p.selectedFile.value.lastPathSegment
  {
    if p.lastCheckedUrl.Some? then Some(UrlRequest(p.lastCheckedUrl.value))
    else if p.selectedFile.Some? then
      Some(FileCheckRequest(p.selectedFile.value.lastPathSegment, Some(p.selectedFile.value.text), None, None))
    else None
  }

  /** A stand-in digest for the example below: any digest function would do. */
  function SampleDigest(bytes: seq<Byte>): seq<Byte> {
    bytes
  }

  /**
   * A URL check followed by a file check: the result shown belongs to the
   * file, yet the popup as written still describes the earlier URL, calls it
   * a safe link and offers to open it.
   */
  lemma StaleUrlPopupAfterFileCheck()
    ensures var file := Uri("content://f", Some("f"));
      var clicks := [EditUrl("evil.io"), PressCheckUrl, PickFile(Some(file)), PressValidate(Opened([]))];
      var run := RunClicks(InitialPanel, clicks, SampleDigest);
      var safeForFile := FileCheckResult(true, [], "Security Engine");
      && |run.issued| == 2
      && run.issued[1].fileHash.Some? && run.issued[1].url.None?
      && PopupRequestAsWritten(run.panel) == Some(UrlRequest("evil.io"))
      && PopupTitle(safeForFile, PopupRequestAsWritten(run.panel)) == "This link is safe"
      && ShowsBrowser(safeForFile, PopupRequestAsWritten(run.panel))
  {
    var file := Uri("content://f", Some("f"));
    var url := "evil.io";
    assert !IsWhitespace(url[0]);
    assert !IsBlank(url);
    TrimOfTrimmed(url);
    var clicks := [EditUrl(url), PressCheckUrl, PickFile(Some(file)), PressValidate(Opened([]))];
    var s1 := Press(InitialPanel, clicks[0], SampleDigest);
    var s2 := Press(s1.panel, clicks[1], SampleDigest);
    var s3 := Press(s2.panel, clicks[2], SampleDigest);
    var s4 := Press(s3.panel, clicks[3], SampleDigest);
    assert s1.issued.None? && s3.issued.None?;
    assert s2.issued == Some(UrlRequest(url));
    assert s4.issued.Some? && s4.issued.value.fileHash.Some? && s4.issued.value.url.None?;
    assert s4.panel.lastCheckedUrl == Some(url);
    var r4 := RunClicks(s3.panel, clicks[3..], SampleDigest);
    assert clicks[3..][0] == clicks[3] && clicks[3..][1..] == [];
    assert RunClicks(s4.panel, [], SampleDigest) == Run(s4.panel, []);
    assert r4 == Run(s4.panel, [s4.issued.value]);
    var r3 := RunClicks(s2.panel, clicks[2..], SampleDigest);
    assert clicks[2..][0] == clicks[2] && clicks[2..][1..] == clicks[3..];
    assert r3 == r4;
    var r2 := RunClicks(s1.panel, clicks[1..], SampleDigest);
    assert clicks[1..][0] == clicks[1] && clicks[1..][1..] == clicks[2..];
    assert r2 == Run(s4.panel, [s2.issued.value, s4.issued.value]);
    assert RunClicks(InitialPanel, clicks, SampleDigest) == r2;
    assert !IsBlank(UrlRequest(url).url.value);
  }

  /** The corrected popup request: the request whose result is being shown. */
  function PopupRequest(p: Panel): Option<FileCheckRequest> {
    p.lastRequest
  }

  /**
   * With the corrected popup, "Browser" appears only when the latest check
   * was a check of exactly that URL, and a safe file result is titled as a file.
   */
  lemma BrowserOnlyForLastCheckedUrl(clicks: seq<Click>, digest: seq<Byte> -> seq<Byte>, result: FileCheckResult)
    ensures var run := RunClicks(InitialPanel, clicks, digest);
      var shown := PopupRequest(run.panel);
      && (ShowsBrowser(result, shown) ==>
            run.issued != [] && run.issued[|run.issued| - 1] == UrlRequest(shown.value.url.value))
      && (result.isSafe && run.issued != [] && run.issued[|run.issued| - 1].fileHash.Some? ==>
            PopupTitle(result, shown) == "This file is safe")
  {
    var run := RunClicks(InitialPanel, clicks, digest);
    LastRequestTracksIssued(InitialPanel, clicks, digest);
    IssuedWellFormed(InitialPanel, clicks, digest);
    if run.issued != [] {
      assert run.issued[|run.issued| - 1] in run.issued;
    }
  }
}
