/**
 * The reputation-service client: the two-phase URL protocol (submit, wait,
 * retrieve) and the single hash lookup. Every remote call is a scripted
 * reply, and each check returns the trace of calls it made.
 */
module Remote {
  import opened Options
  import opened Verdict

  /** The transport faults the client distinguishes in its logs, and any other exception. */
  datatype Fault = ConnectRefused | UnknownHost | SocketTimeout | Unexpected(message: Option<string>)

  /** One HTTP exchange: a successful response (whose body may be absent), an error status, or a thrown fault. */
  datatype Reply<+T> = Success(body: Option<T>) | HttpFail(code: int) | Throw(fault: Fault)

  /** Body of the submission response: the handle of the started analysis. */
  datatype Submission = Submission(analysisId: Option<string>)

  /** The replies the three endpoints give to the next call made to them. */
  datatype Remote = Remote(
    submit: Reply<Submission>,
    analysis: Reply<Counters>,
    byHash: Reply<Counters>)

  /** A call made to the service. */
  datatype Call = SubmitUrl(url: string) | GetAnalysisResult(analysisId: string) | CheckFileHash(hash: string)

  /** What a check hands back (the counters, or `null`) and the calls it made. */
  datatype Lookup = Lookup(response: Option<Counters>, calls: seq<Call>)

  /** How a service call ended, seen from its caller: a value (possibly `null`) or an exception. */
  datatype ServiceAnswer = Answered(response: Option<Counters>) | Raised(message: Option<string>)

  /** The analysis handle, when the submission succeeded and carried one. */
  function SubmittedId(r: Reply<Submission>): Option<string> {
    if r.Success? && r.body.Some? then r.body.value.analysisId else None
  }

  /** The counters carried by a successful response with a body. */
  function Delivered(r: Reply<Counters>): Option<Counters> {
    if r.Success? then r.body else None
  }

  /**
   * `checkUrl`: submit the URL; unless that failed or gave no analysis id,
   * wait and fetch the analysis with that id. Every failure becomes `null`.
   */
  function CheckUrl(url: string, remote: Remote): (out: Lookup)
    ensures 1 <= |out.calls| <= 2 && out.calls[0] == SubmitUrl(url)
    ensures |out.calls| == 2 <==> SubmittedId(remote.submit).Some?
    ensures |out.calls| == 2 ==> out.calls[1] == GetAnalysisResult(SubmittedId(remote.submit).value)
    ensures out.response.Some? ==> |out.calls| == 2 && remote.analysis == Success(out.response)
  {
    match remote.submit
    case HttpFail(_) => Lookup(None, [SubmitUrl(url)])
    case Throw(_) => Lookup(None, [SubmitUrl(url)])
    case Success(body) =>
      if body.None? || body.value.analysisId.None? then Lookup(None, [SubmitUrl(url)])
      else
        var id := body.value.analysisId.value;
        // The one-second pause before retrieval has no observable effect here.
        var calls := [SubmitUrl(url), GetAnalysisResult(id)];
        match remote.analysis
        case Success(counters) => Lookup(counters, calls)
        case HttpFail(_) => Lookup(None, calls)
        case Throw(_) => Lookup(None, calls)
  }

  /** `checkFileHash`: one lookup by hash; failures become `null`. */
  function CheckHash(hash: string, remote: Remote): (out: Lookup)
    ensures out.calls == [CheckFileHash(hash)]
    ensures out.response == Delivered(remote.byHash)
  {
    match remote.byHash
    case Success(counters) => Lookup(counters, [CheckFileHash(hash)])
    case HttpFail(_) => Lookup(None, [CheckFileHash(hash)])
    case Throw(_) => Lookup(None, [CheckFileHash(hash)])
  }

  /** A rejected or failed submission ends the check with `null` and no retrieval. */
  lemma SubmitFailureStops(url: string, remote: Remote)
    requires !remote.submit.Success?
    ensures CheckUrl(url, remote) == Lookup(None, [SubmitUrl(url)])
  {
  }

  /**
   * A successful submission without a body or without an analysis id also
   * ends with `null` and no retrieval. An empty id is not rejected.
   */
  lemma MissingIdStops(url: string, remote: Remote)
    requires remote.submit.Success?
    requires remote.submit.body.None? || remote.submit.body.value.analysisId.None?
    ensures CheckUrl(url, remote) == Lookup(None, [SubmitUrl(url)])
  {
  }

  /** An empty analysis id is passed on to the retrieval call as it is. */
  lemma EmptyIdIsRetrieved(url: string, remote: Remote)
    requires remote.submit == Success(Some(Submission(Some(""))))
    ensures CheckUrl(url, remote).calls == [SubmitUrl(url), GetAnalysisResult("")]
  {
  }

  /**
   * After a successful submission the result is exactly what the retrieval
   * delivered: its body unchanged (possibly absent) on success, else `null`.
   */
  lemma RetrievalDecides(url: string, remote: Remote)
    requires SubmittedId(remote.submit).Some?
    ensures CheckUrl(url, remote).response == Delivered(remote.analysis)
  {
  }

  /** The fault kinds are told apart only in logs: every one gives `null`. */
  lemma FaultsAbsorbed(url: string, hash: string, remote: Remote, f: Fault, g: Fault)
    ensures CheckUrl(url, remote.(submit := Throw(f))).response.None?
    ensures CheckUrl(url, remote.(analysis := Throw(f))).response.None?
    ensures CheckHash(hash, remote.(byHash := Throw(f))).response.None?
    ensures CheckUrl(url, remote.(analysis := Throw(f))) == CheckUrl(url, remote.(analysis := Throw(g)))
  {
  }

  /** The URL protocol never touches the hash endpoint, and the hash lookup never submits. */
  lemma EndpointsSeparate(url: string, hash: string, remote: Remote)
    ensures forall call :: call in CheckUrl(url, remote).calls ==> !call.CheckFileHash?
    ensures forall call :: call in CheckHash(hash, remote).calls ==> call.CheckFileHash?
  {
  }
}
