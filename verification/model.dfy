/** The request, result and news records shared by the checker and the news feed. */
module Model {
  import opened Options

  /** What the user asked to check: a URL, or a file identified by its hash. */
  datatype FileCheckRequest = FileCheckRequest(
    fileName: Option<string>,
    fileUri: Option<string>,
    fileHash: Option<string>,
    url: Option<string>)

  /** A request for a URL alone. */
  function UrlRequest(url: string): FileCheckRequest {
    FileCheckRequest(None, None, None, Some(url))
  }

  /** The uniform answer of one check. */
  datatype FileCheckResult = FileCheckResult(isSafe: bool, threats: seq<string>, scanEngine: string)

  /** News severity; the display colour attached in the source is presentation only. */
  datatype SecuritySeverity = Low | Medium | High | Critical

  /** Position of a severity in the order LOW < MEDIUM < HIGH < CRITICAL. */
  function SeverityRank(s: SecuritySeverity): nat {
    match s
    case Low => 0
    case Medium => 1
    case High => 2
    case Critical => 3
  }

  /** One news item; `timestamp` is the item's date in milliseconds. */
  datatype SecurityNews = SecurityNews(
    id: string,
    title: string,
    description: string,
    severity: SecuritySeverity,
    timestamp: int,
    source: string,
    url: Option<string>)
}
