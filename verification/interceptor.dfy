/**
 * The link interceptor: a URL opened from another app is verified before
 * any browser sees it. While the check runs only a loading dialog shows;
 * afterwards the browser chooser appears for a safe verdict and the block
 * screen for everything else.
 */
module Interceptor {
  import opened Options
  import opened Verdict
  import opened Model
  import opened Remote
  import opened Repository

  datatype Screen = LoadingDialog(url: string) | BrowserChooser(url: string) | BlockScreen(url: string)

  /** The activity: finished, or showing a URL with its loading flag and verdict. */
  datatype Activity = Finished | Showing(url: string, isLoading: bool, isSafe: Option<bool>)

  /**
   * `validateWithService`: real counters give their gate verdict; a `null`
   * answer or an exception gives `false`.
   */
  function ValidateWithService(answer: ServiceAnswer): (safe: bool)
    ensures safe ==> answer.Answered? && answer.response.Some? && IsSafe(answer.response.value)
    ensures answer.Answered? && answer.response.Some? ==> safe == IsSafe(answer.response.value)
  {
    match answer
    case Answered(Some(c)) => IsSafe(c)
    case Answered(None) => false
    case Raised(_) => false
  }

  /** A missing intent URL finishes the activity; otherwise loading starts with no verdict yet. */
  function OnCreate(intentUrl: Option<string>): (a: Activity)
    ensures intentUrl.None? <==> a.Finished?
    ensures intentUrl.Some? ==> a == Showing(intentUrl.value, true, None)
  {
    match intentUrl
    case None => Finished
    case Some(url) => Showing(url, true, None)
  }

  /** The verification finished: record the verdict and stop loading. */
  function Settle(a: Activity, safe: bool): Activity {
    match a
    case Finished => Finished
    case Showing(url, _, _) => Showing(url, false, Some(safe))
  }

  /** The routing of the activity's content. */
  function Render(a: Activity): Option<Screen> {
    match a
    case Finished => None
    case Showing(url, isLoading, isSafe) =>
      if isLoading then Some(LoadingDialog(url))
      else if isSafe == Some(true) then Some(BrowserChooser(url))
      else Some(BlockScreen(url))
  }

  /** What the user sees, in order, and the service calls made. */
  datatype Session = Session(screens: seq<Screen>, calls: seq<Call>)

  /** The whole interception of one intent. */
  function Intercept(intentUrl: Option<string>, remote: Remote): Session {
    var a := OnCreate(intentUrl);
    match a
    case Finished => Session([], [])
    case Showing(url, _, _) =>
      var lookup := CheckUrl(url, remote);
      var settled := Settle(a, ValidateWithService(Answered(lookup.response)));
      Session([Render(a).value, Render(settled).value], lookup.calls)
  }

  /** Without a URL nothing is shown and nothing is validated. */
  lemma NoUrlFinishes(remote: Remote)
    ensures Intercept(None, remote) == Session([], [])
  {
  }

  /** While loading, the loading dialog is the only screen, whatever verdict is stored. */
  lemma LoadingShowsDialog(url: string, isSafe: Option<bool>)
    ensures Render(Showing(url, true, isSafe)) == Some(LoadingDialog(url))
  {
  }

  /** The browser chooser appears only for a settled `true`; every other settled state is blocked. */
  lemma RoutingGates(a: Activity)
    ensures Render(a).Some? && Render(a).value.BrowserChooser? ==> a.Showing? && !a.isLoading && a.isSafe == Some(true)
    ensures a.Showing? && !a.isLoading && a.isSafe != Some(true) ==> Render(a) == Some(BlockScreen(a.url))
  {
  }

  /**
   * Fail-closed interception: the browser chooser is reached exactly when the
   * service returned counters that pass the gate; the loading dialog always comes first.
   */
  lemma InterceptFailClosed(url: string, remote: Remote)
    ensures var s := Intercept(Some(url), remote);
      && |s.screens| == 2 && s.screens[0] == LoadingDialog(url)
      && (s.screens[1] == BrowserChooser(url)
          <==> exists c :: Obtained(UrlRequest(url), remote, c) && IsSafe(c))
      && (s.screens[1] != BrowserChooser(url) ==> s.screens[1] == BlockScreen(url))
  {
    var request := UrlRequest(url);
    FailClosed(request, remote);
    var lookup := CheckUrl(url, remote);
    if SubmittedId(remote.submit).Some? {
      RetrievalDecides(url, remote);
    }
    if lookup.response.Some? {
      assert Obtained(request, remote, lookup.response.value);
    }
  }

  /** The interceptor and the checker screen reach the same verdict on the same replies. */
  lemma AgreesWithRepository(url: string, remote: Remote)
    ensures ValidateWithService(Answered(CheckUrl(url, remote).response))
         == CheckFileOrUrl(UrlRequest(url), remote).result.isSafe
  {
  }
}
