/**
 * The scan counters returned by the reputation service and the two verdicts
 * read from them: the boolean safety gate and the graded threat level.
 */
module Verdict {

  /** The eight per-analysis counters, each a Kotlin `Int`. */
  datatype Counters = Counters(
    malicious: int,
    suspicious: int,
    undetected: int,
    harmless: int,
    timeout: int,
    confirmedTimeout: int,
    failure: int,
    typeUnsupported: int)

  datatype ThreatLevel = Safe | Medium | High | Unknown

  /** The counters as the service is expected to send them. */
  predicate NonNegative(c: Counters) {
    && c.malicious >= 0 && c.suspicious >= 0 && c.undetected >= 0 && c.harmless >= 0
    && c.timeout >= 0 && c.confirmedTimeout >= 0 && c.failure >= 0 && c.typeUnsupported >= 0
  }

  /** The safety gate: no engine found the target malicious or suspicious. */
  predicate IsSafe(c: Counters) {
    c.malicious == 0 && c.suspicious == 0
  }

  /** First-match classification: malicious, then suspicious, then failures and timeouts. */
  function GetThreatLevel(c: Counters): ThreatLevel {
    if c.malicious > 0 then High
    else if c.suspicious > 0 then Medium
    else if c.failure > 0 || c.timeout > 0 then Unknown
    else Safe
  }

  /** Any malicious count makes the level HIGH, whatever the other counters say. */
  lemma MaliciousIsHigh(c: Counters)
    ensures c.malicious > 0 <==> GetThreatLevel(c) == High
  {
  }

  /** MEDIUM exactly when nothing is malicious and something is suspicious. */
  lemma SuspiciousIsMedium(c: Counters)
    ensures GetThreatLevel(c) == Medium <==> !(c.malicious > 0) && c.suspicious > 0
  {
  }

  /** UNKNOWN exactly when no engine flagged the target and some engine failed or timed out. */
  lemma FailureIsUnknown(c: Counters)
    ensures GetThreatLevel(c) == Unknown
        <==> !(c.malicious > 0) && !(c.suspicious > 0) && (c.failure > 0 || c.timeout > 0)
  {
  }

  /** SAFE exactly when none of the four deciding counters is positive. */
  lemma NothingFlaggedIsSafe(c: Counters)
    ensures GetThreatLevel(c) == Safe
        <==> !(c.malicious > 0) && !(c.suspicious > 0) && !(c.failure > 0) && !(c.timeout > 0)
  {
  }

  /**
   * For counters the service can send, the gate is coarser than the level:
   * it passes SAFE and UNKNOWN alike and blocks MEDIUM and HIGH.
   */
  lemma GateAgreesWithLevel(c: Counters)
    requires NonNegative(c)
    ensures IsSafe(c) <==> GetThreatLevel(c) in {Safe, Unknown}
  {
  }

  /**
   * The gate tests `== 0` while the level tests `> 0`: a negative malicious
   * count always fails the gate, even where the level reads SAFE.
   */
  lemma NegativeCountFailsClosed(c: Counters)
    requires c.malicious < 0
    ensures !IsSafe(c)
    ensures GetThreatLevel(c) == Safe <==> c.suspicious <= 0 && c.failure <= 0 && c.timeout <= 0
  {
  }

  /** The counters that decide neither verdict. */
  predicate SameDecidingCounters(a: Counters, b: Counters) {
    a.malicious == b.malicious && a.suspicious == b.suspicious
    && a.failure == b.failure && a.timeout == b.timeout
  }

  /**
   * `undetected`, `harmless`, `confirmed_timeout` and `type_unsupported`
   * influence neither the gate nor the level.
   */
  lemma IgnoredCountersIrrelevant(a: Counters, b: Counters)
    requires SameDecidingCounters(a, b)
    ensures IsSafe(a) == IsSafe(b)
    ensures GetThreatLevel(a) == GetThreatLevel(b)
  {
  }
}
