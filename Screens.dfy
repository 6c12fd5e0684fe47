/**
 * The wizard's screens as values: each screen record carries the state of
 * its widgets (the highlighted option, the platform form, the checklist),
 * and the screen stack is a sequence of them with the top last.
 */
module Screens {
  import opened Wrappers
  import opened Checklist
  import opened Settings

  /** The inputs of the platform screen, as the user left them. */
  datatype PlatformForm = PlatformForm(
    platform: string, domain: string, machineNetwork: string, dnsServers: string, ntpServers: string)

  datatype Screen =
    | Welcome
    | Channel(highlighted: Option<nat>)
    | Version(options: seq<string>, highlighted: Option<nat>)
    | Platform(form: PlatformForm)
    | Operators
    | OperatorSets(boxes: seq<Checkbox>)
    | OperatorSearch(shown: set<string>, boxes: seq<Checkbox>)
    | ViewBasket(boxes: seq<Checkbox>)
    | Summary

  /** The three screens the operators screen opens over itself. */
  predicate IsOverlay(s: Screen) {
    s.OperatorSets? || s.OperatorSearch? || s.ViewBasket?
  }

  /** The place of a main screen in the chain Welcome, Channel, Version, Platform, Operators, Summary. */
  function Step(s: Screen): (n: nat)
    ensures n <= 5
    ensures n == 4 <==> s.Operators?
    ensures !IsOverlay(s) ==>
      && (n == 0 <==> s.Welcome?) && (n == 1 <==> s.Channel?) && (n == 2 <==> s.Version?)
      && (n == 3 <==> s.Platform?) && (n == 5 <==> s.Summary?)
  {
    match s
    case Welcome => 0
    case Channel(_) => 1
    case Version(_, _) => 2
    case Platform(_) => 3
    case Operators => 4
    case Summary => 5
    case _ => 0
  }

  /**
   * The stack is a non-empty prefix of the chain, or the chain up to
   * Operators with one overlay on top of it.
   */
  predicate WellShaped(stack: seq<Screen>) {
    1 <= |stack| <= 6 &&
    forall i :: 0 <= i < |stack| ==>
      if IsOverlay(stack[i]) then i == 5 else Step(stack[i]) == i
  }

  /** Pushing the next main screen onto a main screen keeps the shape. */
  lemma PushNext(stack: seq<Screen>, s: Screen)
    requires WellShaped(stack) && !IsOverlay(stack[|stack| - 1]) && |stack| < 6
    requires !IsOverlay(s) && Step(s) == |stack|
    ensures WellShaped(stack + [s])
  {
    assert forall i :: 0 <= i < |stack| ==> (stack + [s])[i] == stack[i];
  }

  /** Pushing an overlay onto the operators screen keeps the shape. */
  lemma PushOverlay(stack: seq<Screen>, s: Screen)
    requires WellShaped(stack) && stack[|stack| - 1].Operators?
    requires IsOverlay(s)
    ensures WellShaped(stack + [s])
  {
    assert forall i :: 0 <= i < |stack| ==> (stack + [s])[i] == stack[i];
  }

  /** Popping anything but the welcome screen keeps the shape, and uncovers the operators screen under an overlay. */
  lemma PopKeeps(stack: seq<Screen>)
    requires WellShaped(stack) && |stack| >= 2
    ensures WellShaped(stack[..|stack| - 1])
    ensures IsOverlay(stack[|stack| - 1]) ==> stack[|stack| - 2].Operators?
  {
  }

  /** Replacing the top screen by one of the same place keeps the shape. */
  lemma ReplaceTop(stack: seq<Screen>, s: Screen)
    requires WellShaped(stack)
    requires IsOverlay(s) == IsOverlay(stack[|stack| - 1])
    requires !IsOverlay(s) ==> Step(s) == Step(stack[|stack| - 1])
    ensures WellShaped(stack[|stack| - 1 := s])
  {
  }

  // ---------------------------------------------------------------------
  // Channel and version screens.

  const ChannelOptions: seq<string> := ["stable", "fast", "candidate"]

  /** The option the channel screen highlights for the configured channel. */
  function ChannelIndex(channel: string): (r: Option<nat>)
    ensures r.Some? ==> r.value < |ChannelOptions| && ChannelOptions[r.value] == channel
    ensures r.None? ==> channel !in ChannelOptions
  {
    if channel == "stable" then Some(0)
    else if channel == "fast" then Some(1)
    else if channel == "candidate" then Some(2)
    else None
  }

  /** The channel screen as it opens: the configured channel (default stable) highlighted. */
  function ChannelScreen(config: Config): (s: Screen)
    ensures s.Channel?
    ensures s.highlighted.Some? <==> Get(config, "ocp_channel", "stable") in ChannelOptions
    ensures s.highlighted.Some? ==>
      s.highlighted.value < |ChannelOptions| && ChannelOptions[s.highlighted.value] == Get(config, "ocp_channel", "stable")
  {
    Channel(ChannelIndex(Get(config, "ocp_channel", "stable")))
  }

  /** The versions offered for a channel when none can be fetched. */
  function FallbackVersions(channel: string): (r: seq<string>)
    ensures |r| == 2
    ensures r[0] == (if channel == "candidate" then "4.21.0-rc.1" else "4.20.8")
    ensures r[1] == (if channel == "candidate" then "4.20.8" else "4.19.21")
  {
    if channel == "stable" then ["4.20.8", "4.19.21"]
    else if channel == "fast" then ["4.20.8", "4.19.21"]
    else if channel == "candidate" then ["4.21.0-rc.1", "4.20.8"]
    else ["4.20.8", "4.19.21"]
  }

  /** The version the screen should highlight: the first option equal to `current`, if `current` is set. */
  predicate IsVersionHighlight(options: seq<string>, current: string, h: Option<nat>) {
    if current == [] || current !in options then h.None?
    else
      && h.Some? && h.value < |options| && options[h.value] == current
      && forall j :: 0 <= j < h.value ==> options[j] != current
  }

  /** The platform screen as it opens: each input shows the configured value or its default. */
  function PlatformScreen(config: Config): (s: Screen)
    ensures s.Platform?
    ensures s.form.platform == Get(config, "platform", Default("platform"))
    ensures s.form.domain == Get(config, "domain", Default("domain"))
    ensures s.form.machineNetwork == Get(config, "machine_network", "")
    ensures s.form.dnsServers == Get(config, "dns_servers", "")
    ensures s.form.ntpServers == Get(config, "ntp_servers", "")
  {
    Platform(PlatformForm(
      Get(config, "platform", "bm"),
      Get(config, "domain", "example.com"),
      Get(config, "machine_network", ""),
      Get(config, "dns_servers", ""),
      Get(config, "ntp_servers", "")))
  }
}
