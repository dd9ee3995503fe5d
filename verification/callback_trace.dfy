/** Sequences of callbacks delivered to the play control, and what the
    display shows after them: each field mirrors the last callback that
    writes it; once the logo agrees with the title it keeps agreeing, and
    every event that shows a title establishes that agreement. */
module CallbackTrace {
  import opened AsciiText
  import opened StatusJson
  import opened PlayControl

  /** One event delivered on the UI thread. */
  datatype Event =
    | Prepared
    | Playing
    | Paused
    | Stopped
    | Buffering
    | Error
    | JsonInfo(info: JsonObject)
    | Click(buttonPlaying: bool)

  /** Apply one event; `bufferingLabel` is the localized buffering text. */
  function Step(s: ViewState, e: Event, bufferingLabel: string): ViewState {
    match e
    case Prepared => OnPrepared(s)
    case Playing => OnPlaying(s)
    case Paused => OnPaused(s)
    case Stopped => OnStopped(s)
    case Buffering => OnBuffering(s, bufferingLabel)
    case Error => OnError(s)
    case JsonInfo(info) => OnJsonInfo(s, info)
    case Click(p) => OnClick(s, p).0
  }

  /** Apply the events in delivery order. */
  function Run(s: ViewState, events: seq<Event>, bufferingLabel: string): ViewState
    decreases |events|
  {
    if events == [] then s else Run(Step(s, events[0], bufferingLabel), events[1..], bufferingLabel)
  }

  /** Reference view of `enabled`: the last `Prepared` or `Stopped` decides;
      with neither, the initial value stays. */
  function EnabledAfter(initial: bool, events: seq<Event>): bool
    decreases |events|
  {
    if events == [] then initial
    else match events[|events| - 1]
      case Prepared => true
      case Stopped => false
      case _ => EnabledAfter(initial, events[..|events| - 1])
  }

  /** Reference view of `playing`: the last `Playing`, `Paused`, `Stopped`
      or `Buffering` decides. */
  function PlayingAfter(initial: bool, events: seq<Event>): bool
    decreases |events|
  {
    if events == [] then initial
    else match events[|events| - 1]
      case Playing => true
      case Paused => false
      case Stopped => false
      case Buffering => false
      case _ => PlayingAfter(initial, events[..|events| - 1])
  }

  /** Reference view of the title: the last event that shows text decides —
      `Prepared` clears it, `Buffering` shows the label, and a status
      document shows its extracted title. */
  function TitleAfter(initial: string, events: seq<Event>, bufferingLabel: string): string
    decreases |events|
  {
    if events == [] then initial
    else match events[|events| - 1]
      case Prepared => ""
      case Buffering => bufferingLabel
      case JsonInfo(info) =>
        (match ExtractTitle(info)
         case Show(t) => t
         case _ => TitleAfter(initial, events[..|events| - 1], bufferingLabel))
      case _ => TitleAfter(initial, events[..|events| - 1], bufferingLabel)
  }

  /** Reference view of the logo: the last event that shows text decides,
      by the appsnack rule applied to that text. */
  function LogoAfter(initial: Logo, events: seq<Event>, bufferingLabel: string): Logo
    decreases |events|
  {
    if events == [] then initial
    else match events[|events| - 1]
      case Prepared => KodsnackLogo
      case Buffering => LogoFor(bufferingLabel)
      case JsonInfo(info) =>
        (match ExtractTitle(info)
         case Show(t) => LogoFor(t)
         case _ => LogoAfter(initial, events[..|events| - 1], bufferingLabel))
      case _ => LogoAfter(initial, events[..|events| - 1], bufferingLabel)
  }

  /** Running a trace extended by one event is one more step. */
  lemma {:induction false} RunSnoc(s: ViewState, events: seq<Event>, e: Event, bufferingLabel: string)
    ensures Run(s, events + [e], bufferingLabel) == Step(Run(s, events, bufferingLabel), e, bufferingLabel)
    decreases |events|
  {
    if events == [] {
      assert [e][1..] == [];
    } else {
      assert (events + [e])[1..] == events[1..] + [e];
      RunSnoc(Step(s, events[0], bufferingLabel), events[1..], e, bufferingLabel);
    }
  }

  /** The button is enabled exactly as the last `Prepared`/`Stopped` says. */
  lemma {:induction false} RunEnabled(s: ViewState, events: seq<Event>, bufferingLabel: string)
    ensures Run(s, events, bufferingLabel).enabled == EnabledAfter(s.enabled, events)
    decreases |events|
  {
    if events != [] {
      var init, last := events[..|events| - 1], events[|events| - 1];
      assert events == init + [last];
      RunSnoc(s, init, last, bufferingLabel);
      RunEnabled(s, init, bufferingLabel);
    }
  }

  /** The button's face is "playing" exactly as the last playback-state
      callback says. */
  lemma {:induction false} RunPlaying(s: ViewState, events: seq<Event>, bufferingLabel: string)
    ensures Run(s, events, bufferingLabel).playing == PlayingAfter(s.playing, events)
    decreases |events|
  {
    if events != [] {
      var init, last := events[..|events| - 1], events[|events| - 1];
      assert events == init + [last];
      RunSnoc(s, init, last, bufferingLabel);
      RunPlaying(s, init, bufferingLabel);
    }
  }

  /** The title is the text of the last event that shows one. */
  lemma {:induction false} RunTitle(s: ViewState, events: seq<Event>, bufferingLabel: string)
    ensures Run(s, events, bufferingLabel).title == TitleAfter(s.title, events, bufferingLabel)
    decreases |events|
  {
    if events != [] {
      var init, last := events[..|events| - 1], events[|events| - 1];
      assert events == init + [last];
      RunSnoc(s, init, last, bufferingLabel);
      RunTitle(s, init, bufferingLabel);
    }
  }

  /** The logo is the one chosen by the last event that shows text, or the
      starting logo if no event did. */
  lemma {:induction false} RunLogo(s: ViewState, events: seq<Event>, bufferingLabel: string)
    ensures Run(s, events, bufferingLabel).logo == LogoAfter(s.logo, events, bufferingLabel)
    decreases |events|
  {
    if events != [] {
      var init, last := events[..|events| - 1], events[|events| - 1];
      assert events == init + [last];
      RunSnoc(s, init, last, bufferingLabel);
      RunLogo(s, init, bufferingLabel);
    }
  }

  /** The logo agrees with the displayed title. */
  predicate LogoMatchesTitle(s: ViewState) {
    s.logo == LogoFor(s.title)
  }

  /** The event shows a title: `Prepared` (the empty one), `Buffering` (the
      label), or a status document from which a title is extracted. */
  predicate ShowsTitle(e: Event) {
    e.Prepared? || e.Buffering? || (e.JsonInfo? && ExtractTitle(e.info).Show?)
  }

  /** Every event keeps the logo in agreement with the title, and any event
      that shows a title establishes that agreement. */
  lemma StepKeepsLogo(s: ViewState, e: Event, bufferingLabel: string)
    ensures LogoMatchesTitle(s) ==> LogoMatchesTitle(Step(s, e, bufferingLabel))
    ensures ShowsTitle(e) ==> LogoMatchesTitle(Step(s, e, bufferingLabel))
  {
  }

  /** Once the logo agrees with the title, it agrees after any trace. */
  lemma {:induction false} RunKeepsLogo(s: ViewState, events: seq<Event>, bufferingLabel: string)
    requires LogoMatchesTitle(s)
    ensures LogoMatchesTitle(Run(s, events, bufferingLabel))
    decreases |events|
  {
    if events != [] {
      StepKeepsLogo(s, events[0], bufferingLabel);
      RunKeepsLogo(Step(s, events[0], bufferingLabel), events[1..], bufferingLabel);
    }
  }

  /** Once any event of a trace has shown a title, the logo agrees with the
      title at the end, whatever the starting display was. */
  lemma {:induction false} LogoAgreesAfterTitleShown(s: ViewState, events: seq<Event>, bufferingLabel: string)
    requires exists i :: 0 <= i < |events| && ShowsTitle(events[i])
    ensures LogoMatchesTitle(Run(s, events, bufferingLabel))
    decreases |events|
  {
    var s' := Step(s, events[0], bufferingLabel);
    if ShowsTitle(events[0]) {
      StepKeepsLogo(s, events[0], bufferingLabel);
      RunKeepsLogo(s', events[1..], bufferingLabel);
    } else {
      var i :| 0 <= i < |events| && ShowsTitle(events[i]);
      assert events[1..][i - 1] == events[i];
      LogoAgreesAfterTitleShown(s', events[1..], bufferingLabel);
    }
  }

  /** Errors and clicks never change the display, wherever they appear. */
  lemma {:induction false} SilentEventsInvisible(s: ViewState, before: seq<Event>, e: Event, after: seq<Event>, bufferingLabel: string)
    requires e.Error? || e.Click?
    ensures Run(s, before + [e] + after, bufferingLabel) == Run(s, before + after, bufferingLabel)
    decreases |before|
  {
    if before == [] {
      assert [e] + after == before + [e] + after;
      assert after == before + after;
    } else {
      assert (before + [e] + after)[1..] == before[1..] + [e] + after;
      assert (before + after)[1..] == before[1..] + after;
      SilentEventsInvisible(Step(s, before[0], bufferingLabel), before[1..], e, after, bufferingLabel);
    }
  }

  /** From a freshly laid-out view, the button stays disabled until the first
      `Prepared` arrives. */
  lemma {:induction false} DisabledUntilPrepared(inflated: ViewState, events: seq<Event>, bufferingLabel: string)
    requires forall i :: 0 <= i < |events| ==> !events[i].Prepared?
    ensures !Run(OnCreateView(inflated), events, bufferingLabel).enabled
    decreases |events|
  {
    RunEnabled(OnCreateView(inflated), events, bufferingLabel);
    NeverEnabledWithoutPrepared(events);
  }

  /** Without a `Prepared`, the reference view of `enabled` never turns on
      from off. */
  lemma {:induction false} NeverEnabledWithoutPrepared(events: seq<Event>)
    requires forall i :: 0 <= i < |events| ==> !events[i].Prepared?
    ensures !EnabledAfter(false, events)
    decreases |events|
  {
    if events != [] {
      NeverEnabledWithoutPrepared(events[..|events| - 1]);
    }
  }
}
