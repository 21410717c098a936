/**
 * The verification orchestrator and the news-feed logic of the security
 * repository: dispatch of a check request, the fail-closed mapping of
 * service answers to results, threat-line rendering, keyword severity and
 * the sorted insertion of news.
 */
module Repository {
  import opened Options
  import opened Text
  import opened Verdict
  import opened Model
  import opened Remote

  const EngineName := "Security Engine"
  const EngineFailed := "Security Engine (Failed)"
  const EngineError := "Security Engine (Error)"
  const ApiUnavailable := "API unavailable - verification failed"
  const InvalidRequest := "Invalid request - no URL or hash provided"

  function MaliciousLine(count: int): string
    requires count > 0
  {
    "Malicious content detected by " + DecimalString(count) + " security engines"
  }

  function SuspiciousLine(count: int): string
    requires count > 0
  {
    "Suspicious activity flagged by " + DecimalString(count) + " security engines"
  }

  /** One line per positive count, the malicious line first. */
  function BuildThreatList(maliciousCount: int, suspiciousCount: int): (lines: seq<string>)
    ensures |lines| <= 2
    ensures lines == [] <==> !(maliciousCount > 0) && !(suspiciousCount > 0)
    ensures |lines| == 2 <==> maliciousCount > 0 && suspiciousCount > 0
    ensures maliciousCount > 0 ==> lines[0] == MaliciousLine(maliciousCount)
    ensures suspiciousCount > 0 ==> lines[|lines| - 1] == SuspiciousLine(suspiciousCount)
  {
    (if maliciousCount > 0 then [MaliciousLine(maliciousCount)] else [])
    + (if suspiciousCount > 0 then [SuspiciousLine(suspiciousCount)] else [])
  }

  /** The count either threat line reports is the count it was built from. */
  lemma ThreatLineCount(count: int)
    requires count > 0
    ensures var prefix := "Malicious content detected by ";
      var line := MaliciousLine(count);
      var digits := line[|prefix|..|line| - |" security engines"|];
      ParseDecimal(digits) == count
    ensures var prefix := "Suspicious activity flagged by ";
      var line := SuspiciousLine(count);
      var digits := line[|prefix|..|line| - |" security engines"|];
      ParseDecimal(digits) == count
  {
    ParseDecimalString(count);
    var prefix := "Malicious content detected by ";
    var line := MaliciousLine(count);
    assert line[|prefix|..|line| - |" security engines"|] == DecimalString(count);
    var prefix2 := "Suspicious activity flagged by ";
    var line2 := SuspiciousLine(count);
    assert line2[|prefix2|..|line2| - |" security engines"|] == DecimalString(count);
  }

  /** What the orchestrator checks: the URL is tested before the hash. */
  datatype Target = UrlTarget(url: string) | HashTarget(hash: string) | NoTarget

  function TargetOf(request: FileCheckRequest): Target {
    if request.url.Some? then UrlTarget(request.url.value)
    else if request.fileHash.Some? then HashTarget(request.fileHash.value)
    else NoTarget
  }

  /** Kotlin renders a `null` message as the text "null". */
  function ScanErrorLine(message: Option<string>): string {
    "Scan error: " + message.GetOr("null")
  }

  /**
   * The result for one service answer: real counters are judged by the gate,
   * a `null` answer is a failed verification, an exception a scan error.
   */
  function Conclude(answer: ServiceAnswer): (r: FileCheckResult)
    ensures r.isSafe <==> answer.Answered? && answer.response.Some? && IsSafe(answer.response.value)
    ensures answer == Answered(None) ==> r == FileCheckResult(false, [ApiUnavailable], EngineFailed)
    ensures answer.Raised? ==> r == FileCheckResult(false, [ScanErrorLine(answer.message)], EngineError)
    ensures answer.Answered? && answer.response.Some? ==>
      var c := answer.response.value;
      r.threats == BuildThreatList(c.malicious, c.suspicious) && r.scanEngine == EngineName
  {
    match answer
    case Raised(message) => FileCheckResult(false, [ScanErrorLine(message)], EngineError)
    case Answered(None) => FileCheckResult(false, [ApiUnavailable], EngineFailed)
    case Answered(Some(c)) => FileCheckResult(IsSafe(c), BuildThreatList(c.malicious, c.suspicious), EngineName)
  }

  /** A result with the calls that produced it. */
  datatype Checked = Checked(result: FileCheckResult, calls: seq<Call>)

  /**
   * `checkFileOrUrl`: run the URL protocol if there is a URL, else the hash
   * lookup if there is a hash, else reject the request without a call.
   */
  function CheckFileOrUrl(request: FileCheckRequest, remote: Remote): (out: Checked)
    ensures request.url.Some? ==> |out.calls| >= 1 && out.calls[0] == SubmitUrl(request.url.value)
    ensures request.url.None? && request.fileHash.Some? ==> out.calls == [CheckFileHash(request.fileHash.value)]
    ensures request.url.None? && request.fileHash.None? ==>
      out == Checked(FileCheckResult(false, [InvalidRequest], EngineName), [])
  {
    match TargetOf(request)
    case UrlTarget(url) =>
      var lookup := CheckUrl(url, remote);
      Checked(Conclude(Answered(lookup.response)), lookup.calls)
    case HashTarget(hash) =>
      var lookup := CheckHash(hash, remote);
      Checked(Conclude(Answered(lookup.response)), lookup.calls)
    case NoTarget =>
      Checked(FileCheckResult(false, [InvalidRequest], EngineName), [])
  }

  /**
   * The counters `c` really came back from the service for this request:
   * for a URL, from the retrieval after a submission that returned an id;
   * otherwise, for a hash, from the hash lookup.
   */
  predicate Obtained(request: FileCheckRequest, remote: Remote, c: Counters) {
    if request.url.Some? then
      remote.submit.Success? && remote.submit.body.Some? && remote.submit.body.value.analysisId.Some?
      && remote.analysis == Success(Some(c))
    else
      request.fileHash.Some? && remote.byHash == Success(Some(c))
  }

  /**
   * Fail-closed: a result is safe only if real counters came back and the
   * gate passed them; when counters came back the result is exactly their
   * verdict, and when none did the result is the fixed failure result (or
   * the invalid-request result when there was nothing to check).
   */
  lemma {:induction false} FailClosed(request: FileCheckRequest, remote: Remote)
    ensures var r := CheckFileOrUrl(request, remote).result;
      r.isSafe ==> exists c :: Obtained(request, remote, c) && c.malicious == 0 && c.suspicious == 0
    ensures forall c :: Obtained(request, remote, c) ==>
      CheckFileOrUrl(request, remote).result
        == FileCheckResult(IsSafe(c), BuildThreatList(c.malicious, c.suspicious), EngineName)
    ensures (forall c :: !Obtained(request, remote, c)) ==>
      var r := CheckFileOrUrl(request, remote).result;
      !r.isSafe && |r.threats| == 1 && r.scanEngine in {EngineName, EngineFailed}
    ensures (forall c :: !Obtained(request, remote, c)) ==>
      CheckFileOrUrl(request, remote).result
        == if request.url.None? && request.fileHash.None? then FileCheckResult(false, [InvalidRequest], EngineName)
           else FileCheckResult(false, [ApiUnavailable], EngineFailed)
  {
    var out := CheckFileOrUrl(request, remote);
    match TargetOf(request)
    case UrlTarget(url) =>
      var lookup := CheckUrl(url, remote);
      if SubmittedId(remote.submit).Some? {
        RetrievalDecides(url, remote);
      }
      if lookup.response.Some? {
        assert Obtained(request, remote, lookup.response.value);
      }
    case HashTarget(hash) =>
      if CheckHash(hash, remote).response.Some? {
        assert Obtained(request, remote, CheckHash(hash, remote).response.value);
      }
    case NoTarget =>
  }

  /** With the service modelled above every fault is absorbed: the error path is never taken. */
  lemma ErrorPathUnreachable(request: FileCheckRequest, remote: Remote)
    ensures CheckFileOrUrl(request, remote).result.scanEngine != EngineError
  {
  }

  /** A URL wins over a hash when both are present: the hash endpoint is not called. */
  lemma UrlBeforeHash(request: FileCheckRequest, remote: Remote)
    requires request.url.Some? && request.fileHash.Some?
    ensures forall call :: call in CheckFileOrUrl(request, remote).calls ==> !call.CheckFileHash?
  {
    EndpointsSeparate(request.url.value, request.fileHash.value, remote);
  }

  /**
   * Every way a check can end without counters (a failed, throwing or
   * id-less submission, a failed, throwing or empty retrieval or hash
   * lookup) yields the fixed "API unavailable" result.
   */
  lemma ServiceFailureResult(request: FileCheckRequest, remote: Remote)
    requires request.url.Some? || request.fileHash.Some?
    requires forall c :: !Obtained(request, remote, c)
    ensures CheckFileOrUrl(request, remote).result == FileCheckResult(false, [ApiUnavailable], EngineFailed)
  {
    FailClosed(request, remote);
  }

  // ---------------------------------------------------------------------
  // News severity from keywords.

  const CriticalWords: seq<string> := ["critical", "urgent", "zero-day", "alertă", "critic", "urgente"]
  const HighWords: seq<string> :=
    ["high", "severe", "exploit", "breach", "ransomware", "atac", "phishing", "atenție"]
  const MediumWords: seq<string> :=
    ["medium", "moderate", "vulnerability", "patch", "dezinformare", "vigilență", "securitate"]

  /** Some word of `words` occurs in `text`. */
  function AnyContains(text: string, words: seq<string>): (b: bool)
    ensures b <==> exists i :: 0 <= i < |words| && Contains(text, words[i])
  {
    if words == [] then false
    else Contains(text, words[0]) || AnyContains(text, words[1..])
  }

  /**
   * `determineSeverity`: the first keyword group, from CRITICAL down to
   * MEDIUM, with a word in the lower-cased "title description"; LOW if none.
   */
  function DetermineSeverity(title: string, description: string): SecuritySeverity {
    var text := Lower(title + " " + description);
    if AnyContains(text, CriticalWords) then Critical
    else if AnyContains(text, HighWords) then SecuritySeverity.High
    else if AnyContains(text, MediumWords) then SecuritySeverity.Medium
    else Low
  }

  function MaxSeverity(a: SecuritySeverity, b: SecuritySeverity): SecuritySeverity {
    if SeverityRank(a) >= SeverityRank(b) then a else b
  }

  /** Every keyword with the severity it signals. */
  function Tag(words: seq<string>, severity: SecuritySeverity): seq<(string, SecuritySeverity)> {
    seq(|words|, i requires 0 <= i < |words| => (words[i], severity))
  }

  function KeywordTable(): seq<(string, SecuritySeverity)> {
    Tag(CriticalWords, Critical) + Tag(HighWords, SecuritySeverity.High) + Tag(MediumWords, SecuritySeverity.Medium)
  }

  /** Reference reading: the strongest severity among the keywords found, LOW if none. */
  function StrongestMatch(text: string, table: seq<(string, SecuritySeverity)>): SecuritySeverity {
    if table == [] then Low
    else MaxSeverity(if Contains(text, table[0].0) then table[0].1 else Low, StrongestMatch(text, table[1..]))
  }

  lemma {:induction false} StrongestMatchAppend(text: string, a: seq<(string, SecuritySeverity)>, b: seq<(string, SecuritySeverity)>)
    ensures StrongestMatch(text, a + b) == MaxSeverity(StrongestMatch(text, a), StrongestMatch(text, b))
  {
    if a == [] {
      assert a + b == b;
    } else {
      assert (a + b)[1..] == a[1..] + b;
      StrongestMatchAppend(text, a[1..], b);
    }
  }

  lemma {:induction false} StrongestMatchTag(text: string, words: seq<string>, severity: SecuritySeverity)
    ensures StrongestMatch(text, Tag(words, severity)) == if AnyContains(text, words) then severity else Low
  {
    if words != [] {
      assert Tag(words, severity)[1..] == Tag(words[1..], severity);
      StrongestMatchTag(text, words[1..], severity);
    }
  }

  /**
   * The first-match cascade gives the strongest severity of all keywords
   * present: precedence is CRITICAL > HIGH > MEDIUM > LOW.
   */
  lemma SeverityIsStrongestKeyword(title: string, description: string)
    ensures DetermineSeverity(title, description) == StrongestMatch(Lower(title + " " + description), KeywordTable())
  {
    var text := Lower(title + " " + description);
    StrongestMatchAppend(text, Tag(CriticalWords, Critical) + Tag(HighWords, SecuritySeverity.High), Tag(MediumWords, SecuritySeverity.Medium));
    StrongestMatchAppend(text, Tag(CriticalWords, Critical), Tag(HighWords, SecuritySeverity.High));
    StrongestMatchTag(text, CriticalWords, Critical);
    StrongestMatchTag(text, HighWords, SecuritySeverity.High);
    StrongestMatchTag(text, MediumWords, SecuritySeverity.Medium);
  }

  lemma AnyContainsAppend(text: string, more: string, words: seq<string>)
    requires AnyContains(text, words)
    ensures AnyContains(text + more, words)
  {
    var i :| 0 <= i < |words| && Contains(text, words[i]);
    ContainsAppend(text, more, words[i]);
  }

  /** Adding text to the description never lowers the severity. */
  lemma SeverityMonotone(title: string, description: string, more: string)
    ensures SeverityRank(DetermineSeverity(title, description))
         <= SeverityRank(DetermineSeverity(title, description + more))
  {
    var text := Lower(title + " " + description);
    assert title + " " + (description + more) == (title + " " + description) + more;
    LowerAppend(title + " " + description, more);
    forall words | AnyContains(text, words) ensures AnyContains(text + Lower(more), words) {
      AnyContainsAppend(text, Lower(more), words);
    }
  }

  // ---------------------------------------------------------------------
  // The news list, newest first.

  predicate SortedDesc(news: seq<SecurityNews>) {
    forall i, j :: 0 <= i < j < |news| ==> news[i].timestamp >= news[j].timestamp
  }

  /** Places `item` before the first entry that is not newer than it. */
  function InsertDesc(item: SecurityNews, news: seq<SecurityNews>): (r: seq<SecurityNews>)
    ensures multiset(r) == multiset([item] + news)
  {
    if news == [] || item.timestamp >= news[0].timestamp then [item] + news
    else
      assert news == [news[0]] + news[1..];
      [news[0]] + InsertDesc(item, news[1..])
  }

  /** No entry is newer than `t`. */
  predicate AllAtMost(news: seq<SecurityNews>, t: int) {
    forall i :: 0 <= i < |news| ==> news[i].timestamp <= t
  }

  lemma {:induction false} InsertDescAtMost(item: SecurityNews, news: seq<SecurityNews>, t: int)
    requires AllAtMost(news, t) && item.timestamp <= t
    ensures AllAtMost(InsertDesc(item, news), t)
  {
    if news != [] && item.timestamp < news[0].timestamp {
      InsertDescAtMost(item, news[1..], t);
    }
  }

  lemma SortedCons(head: SecurityNews, rest: seq<SecurityNews>)
    requires SortedDesc(rest) && AllAtMost(rest, head.timestamp)
    ensures SortedDesc([head] + rest)
  {
    var r := [head] + rest;
    forall i, j | 0 <= i < j < |r| ensures r[i].timestamp >= r[j].timestamp {
      assert r[j] == rest[j - 1];
      if i > 0 { assert r[i] == rest[i - 1]; }
    }
  }

  /** Inserting into a list kept newest first keeps it newest first. */
  lemma {:induction false} InsertDescSorted(item: SecurityNews, news: seq<SecurityNews>)
    requires SortedDesc(news)
    ensures SortedDesc(InsertDesc(item, news))
  {
    if news == [] || item.timestamp >= news[0].timestamp {
      SortedCons(item, news);
    } else {
      InsertDescSorted(item, news[1..]);
      InsertDescAtMost(item, news[1..], news[0].timestamp);
      SortedCons(news[0], InsertDesc(item, news[1..]));
    }
  }

  /** Kotlin's stable `sortedByDescending { it.timestamp }`. */
  function SortByDescending(news: seq<SecurityNews>): (r: seq<SecurityNews>)
    ensures multiset(r) == multiset(news)
    ensures SortedDesc(r)
  {
    if news == [] then []
    else
      var rest := SortByDescending(news[1..]);
      InsertDescSorted(news[0], rest);
      assert news == [news[0]] + news[1..];
      InsertDesc(news[0], rest)
  }

  /** `addSecurityNews`: put the item at the top, then re-sort by date. */
  function AddSecurityNews(item: SecurityNews, news: seq<SecurityNews>): seq<SecurityNews> {
    SortByDescending([item] + news)
  }

  /** The new list holds the new item and every old one, once each, newest first. */
  lemma AddSecurityNewsSpec(item: SecurityNews, news: seq<SecurityNews>)
    ensures var r := AddSecurityNews(item, news);
      && |r| == |news| + 1
      && multiset(r) == multiset(news) + multiset{item}
      && item in r
      && (forall x :: x in news ==> x in r)
      && SortedDesc(r)
  {
    var r := AddSecurityNews(item, news);
    assert multiset(r) == multiset([item] + news);
    assert |multiset(r)| == |r|;
    assert [item] + news == [item] + news;
    assert item in multiset(r);
    forall x | x in news ensures x in r {
      assert x in multiset(news);
      assert x in multiset(r);
    }
  }

  /** An already sorted list is left as it is by the sort. */
  lemma {:induction false} SortSorted(news: seq<SecurityNews>)
    requires SortedDesc(news)
    ensures SortByDescending(news) == news
  {
    if news != [] {
      SortSorted(news[1..]);
    }
  }

  /** How many leading entries are strictly newer than `item`. */
  function NewerPrefix(item: SecurityNews, news: seq<SecurityNews>): (k: nat)
    ensures k <= |news|
    ensures forall i :: 0 <= i < k ==> news[i].timestamp > item.timestamp
    ensures k < |news| ==> news[k].timestamp <= item.timestamp
  {
    if news == [] || item.timestamp >= news[0].timestamp then 0 else 1 + NewerPrefix(item, news[1..])
  }

  /** Putting `x` in front of a list split at `k` shifts the split by one. */
  lemma ConsAroundSplit<T>(x: T, tail: seq<T>, y: T, k: nat)
    requires k <= |tail|
    ensures [x] + (tail[..k] + [y] + tail[k..]) == ([x] + tail)[..k + 1] + [y] + ([x] + tail)[k + 1..]
  {
    assert ([x] + tail)[..k + 1] == [x] + tail[..k];
    assert ([x] + tail)[k + 1..] == tail[k..];
  }

  lemma {:induction false} InsertAtNewerPrefix(item: SecurityNews, news: seq<SecurityNews>)
    ensures InsertDesc(item, news) == news[..NewerPrefix(item, news)] + [item] + news[NewerPrefix(item, news)..]
  {
    if news == [] || item.timestamp >= news[0].timestamp {
      assert NewerPrefix(item, news) == 0;
      assert news[..0] == [] && news[0..] == news;
    } else {
      var tail := news[1..];
      var k := NewerPrefix(item, tail);
      assert NewerPrefix(item, news) == k + 1;
      assert InsertDesc(item, news) == [news[0]] + (tail[..k] + [item] + tail[k..]) by {
        InsertAtNewerPrefix(item, tail);
      }
      assert news == [news[0]] + tail;
      ConsAroundSplit(news[0], tail, item, k);
    }
  }

  /**
   * On a list kept newest first, the new item lands after the strictly
   * newer entries and before all others, ties included, and nothing else moves.
   */
  lemma AddToSortedNews(item: SecurityNews, news: seq<SecurityNews>)
    requires SortedDesc(news)
    ensures var k := NewerPrefix(item, news);
      AddSecurityNews(item, news) == news[..k] + [item] + news[k..]
  {
    var k := NewerPrefix(item, news);
    var r := AddSecurityNews(item, news);
    SortSorted(news);
    assert [item] + news == [item] + news;
    assert ([item] + news)[1..] == news;
    InsertAtNewerPrefix(item, news);
  }
}
