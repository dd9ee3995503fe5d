/** The decision logic of the play control at the bottom of the screen: the
    displayed state is an immutable record, and each callback from the
    player service, the click handler and the status-document handler is a
    pure transition on it. */
module PlayControl {
  import opened AsciiText
  import opened StatusJson

  /** The two images the logo view can show. */
  datatype Logo = KodsnackLogo | AppsnackLogo

  /** What the play control displays: whether the play/pause button can be
      pressed, whether it shows the "playing" face, the title text, and the
      logo. */
  datatype ViewState = ViewState(enabled: bool, playing: bool, title: string, logo: Logo)

  /** What a transition asks of the player service besides redrawing. */
  datatype ServiceRequest = NoRequest | TogglePlaying

  /** The marker in a stream title that selects the Appsnack logo. */
  const AppsnackMarker: string := "appsnack"

  /** The logo for a title: Appsnack's exactly when the lowercased title
      contains the marker, Kodsnack's otherwise. */
  function LogoFor(title: string): (l: Logo)
    ensures l == AppsnackLogo <==> exists i :: MatchesIgnoringCaseAt(title, AppsnackMarker, i)
  {
    ContainsLowerIff(title, AppsnackMarker);
    if Contains(Lower(title), AppsnackMarker) then AppsnackLogo else KodsnackLogo
  }

  /** Show a title: the text is displayed as given, and the logo follows it. */
  function UpdateUI(s: ViewState, title: string): (r: ViewState)
    ensures r.title == title
    ensures r.logo == AppsnackLogo <==> exists i :: MatchesIgnoringCaseAt(title, AppsnackMarker, i)
    ensures r.enabled == s.enabled && r.playing == s.playing
  {
    s.(title := title, logo := LogoFor(title))
  }

  /** The view just after it is laid out: the button starts disabled, until
      there is a stream to play; the rest is whatever the layout shows. */
  function OnCreateView(inflated: ViewState): (r: ViewState)
    ensures !r.enabled
    ensures r.playing == inflated.playing && r.title == inflated.title && r.logo == inflated.logo
  {
    inflated.(enabled := false)
  }

  /** The stream is prepared: clear the title and enable the button. */
  function OnPrepared(s: ViewState): (r: ViewState)
    ensures r.enabled
    ensures r.title == "" && r.logo == KodsnackLogo
    ensures r.playing == s.playing
  {
    UpdateUI(s, "").(enabled := true)
  }

  function OnPlaying(s: ViewState): (r: ViewState)
    ensures r.playing
    ensures r.enabled == s.enabled && r.title == s.title && r.logo == s.logo
  {
    s.(playing := true)
  }

  function OnPaused(s: ViewState): (r: ViewState)
    ensures !r.playing
    ensures r.enabled == s.enabled && r.title == s.title && r.logo == s.logo
  {
    s.(playing := false)
  }

  /** Playback stopped: the button shows "paused" and is disabled. */
  function OnStopped(s: ViewState): (r: ViewState)
    ensures !r.playing && !r.enabled
    ensures r.title == s.title && r.logo == s.logo
  {
    s.(playing := false, enabled := false)
  }

  /** Buffering: show the buffering label and the "paused" face. */
  function OnBuffering(s: ViewState, bufferingLabel: string): (r: ViewState)
    ensures r.title == bufferingLabel && !r.playing
    ensures r.enabled == s.enabled
    ensures r.logo == AppsnackLogo <==> exists i :: MatchesIgnoringCaseAt(bufferingLabel, AppsnackMarker, i)
  {
    UpdateUI(s, bufferingLabel).(playing := false)
  }

  /** A playback error is received and not acted upon. */
  function OnError(s: ViewState): (r: ViewState)
    ensures r == s
  {
    s
  }

  /** A tap asks the service to toggle playback; the view waits for the
      service's callback instead of changing on its own. */
  function OnClick(s: ViewState, buttonPlaying: bool): (r: (ViewState, ServiceRequest))
    ensures r.0 == s
    ensures r.1 == TogglePlaying
  {
    (s, TogglePlaying)
  }

  /** A status document: show the extracted title, or leave the view alone
      when there is no source or a lookup fails. */
  function OnJsonInfo(s: ViewState, info: JsonObject): (r: ViewState)
    ensures r.enabled == s.enabled && r.playing == s.playing
    ensures ExtractTitle(info).Show? ==> r == UpdateUI(s, ExtractTitle(info).title)
    ensures !ExtractTitle(info).Show? ==> r == s
  {
    match ExtractTitle(info)
    case Show(t) => UpdateUI(s, t)
    case _ => s
  }

  /** The logo never depends on the case of the title. */
  lemma LogoIgnoresCase(a: string, b: string)
    requires Lower(a) == Lower(b)
    ensures LogoFor(a) == LogoFor(b)
  {
  }

  /** A title with "AppSnack" in any capitalisation selects the Appsnack logo. */
  lemma AppsnackInAnyCase()
    ensures LogoFor("Kodsnack & AppSnack") == AppsnackLogo
    ensures LogoFor("APPSNACK") == AppsnackLogo
    ensures LogoFor("Kodsnack 123") == KodsnackLogo
  {
    assert MatchesIgnoringCaseAt("Kodsnack & AppSnack", AppsnackMarker, 11);
    assert MatchesIgnoringCaseAt("APPSNACK", AppsnackMarker, 0);
    var plain := "Kodsnack 123";
    forall i | 0 <= i < |plain| - 1
      ensures !MatchesIgnoringCaseAt(plain, AppsnackMarker, i)
    {
      assert LowerChar(plain[i + 1]) != AppsnackMarker[1];
    }
  }

  /** The status document's title reaches the screen: a string `title` is
      shown as is, otherwise a string `server_name`; the button is never
      touched. */
  lemma JsonInfoShowsTitle(s: ViewState, info: JsonObject)
    ensures forall t: string :: PathIs(info, "title", JString(t)) ==>
              OnJsonInfo(s, info) == UpdateUI(s, t)
    ensures forall n: string :: SourceLacks(info, "title") && PathIs(info, "server_name", JString(n)) ==>
              OnJsonInfo(s, info) == UpdateUI(s, n)
    ensures !HasSourceObject(info) ==> OnJsonInfo(s, info) == s
    ensures SourceLacks(info, "title") && SourceLacks(info, "server_name") ==> OnJsonInfo(s, info) == s
  {
  }
}
