/**
 * The wizard application (`ABATUI`): the config dict, the operator basket,
 * the screen stack and the handlers every screen's buttons and keys call.
 * A handler runs on the screen at the top of the stack. The subprocess calls
 * that write the conf file are recorded in `flushes`; the template directory
 * and the catalog index files are passed in as their contents.
 */
module Wizard {
  import opened Wrappers
  import opened Catalog
  import opened SetFiles
  import opened Checklist
  import opened Settings
  import opened Screens

  datatype Status = Running | Exited(message: Option<string>)

  /** The keys the screens write into `config`. */
  const SettingKeys: set<string> :=
    {"ocp_channel", "ocp_version", "platform", "domain", "machine_network", "dns_servers", "ntp_servers"}

  /** The widget state of a screen is in range: highlights point at options. */
  predicate ScreenOk(s: Screen) {
    && (s.Channel? && s.highlighted.Some? ==> s.highlighted.value < |ChannelOptions|)
    && (s.Version? && s.highlighted.Some? ==> s.highlighted.value < |s.options|)
  }

  /**
   * The stack has its shape, the config only the settings keys, every
   * highlight is in range, and an open checklist lists what it was built
   * from: the review list the basket, the search list its results.
   */
  predicate Coherent(config: Config, operators: set<string>, stack: seq<Screen>) {
    && WellShaped(stack)
    && config.Keys <= SettingKeys
    && (forall i :: 0 <= i < |stack| ==> ScreenOk(stack[i]))
    && OverlayOk(operators, stack[|stack| - 1])
  }

  /** An open review or search list keeps the ids it was built with. */
  predicate OverlayOk(operators: set<string>, top: Screen) {
    && (top.ViewBasket? ==> SameIds(top.boxes, Listed(OpPrefix, operators, operators)))
    && (top.OperatorSearch? ==> SameIds(top.boxes, Listed(OpPrefix, top.shown, operators)))
  }

  lemma CoherentPushNext(config: Config, operators: set<string>, stack: seq<Screen>, s: Screen)
    requires Coherent(config, operators, stack)
    requires !IsOverlay(stack[|stack| - 1]) && |stack| < 6 && !IsOverlay(s) && Step(s) == |stack| && ScreenOk(s)
    ensures Coherent(config, operators, stack + [s])
  {
    PushNext(stack, s);
    assert forall i :: 0 <= i < |stack| ==> (stack + [s])[i] == stack[i];
  }

  lemma CoherentPushOverlay(config: Config, operators: set<string>, stack: seq<Screen>, s: Screen)
    requires Coherent(config, operators, stack)
    requires stack[|stack| - 1].Operators? && IsOverlay(s) && OverlayOk(operators, s)
    ensures Coherent(config, operators, stack + [s])
  {
    PushOverlay(stack, s);
    assert forall i :: 0 <= i < |stack| ==> (stack + [s])[i] == stack[i];
  }

  /** Popping uncovers a main screen, so the basket may have changed meanwhile. */
  lemma CoherentPop(config: Config, before: set<string>, after: set<string>, stack: seq<Screen>)
    requires Coherent(config, before, stack) && |stack| >= 2
    ensures Coherent(config, after, stack[..|stack| - 1])
  {
    PopKeeps(stack);
  }

  /** The basket may change under a main screen. */
  lemma CoherentBasket(config: Config, before: set<string>, after: set<string>, stack: seq<Screen>)
    requires Coherent(config, before, stack) && !IsOverlay(stack[|stack| - 1])
    ensures Coherent(config, after, stack)
  {
  }

  lemma CoherentReplaceTop(config: Config, operators: set<string>, stack: seq<Screen>, s: Screen)
    requires Coherent(config, operators, stack)
    requires IsOverlay(s) == IsOverlay(stack[|stack| - 1])
    requires !IsOverlay(s) ==> Step(s) == Step(stack[|stack| - 1])
    requires ScreenOk(s) && OverlayOk(operators, s)
    ensures Coherent(config, operators, stack[|stack| - 1 := s])
  {
    ReplaceTop(stack, s);
  }

  /** `fetch_versions`: the fallback list for the channel, with the current version highlighted. */
  method FetchVersions(channel: string, current: string) returns (options: seq<string>, highlighted: Option<nat>)
    ensures options == FallbackVersions(channel)
    ensures IsVersionHighlight(options, current, highlighted)
  {
    options := FallbackVersions(channel);
    highlighted := None;
    if current != [] {
      var i := 0;
      while i < |options|
        invariant 0 <= i <= |options|
        invariant forall j :: 0 <= j < i ==> options[j] != current
      {
        if options[i] == current {
          highlighted := Some(i);
          return;
        }
        i := i + 1;
      }
    }
  }

  /** The loop of `add_operator_set` over the lines of one set file. */
  method AddSetFile(basket: set<string>, lines: seq<string>) returns (r: set<string>)
    ensures r == AddedFrom(basket, lines)
  {
    r := basket;
    var l := 0;
    while l < |lines|
      invariant 0 <= l <= |lines|
      invariant r == AddedFrom(basket, lines[..l])
    {
      var parsed := ParseSetLine(lines[l]);
      if parsed.Some? {
        r := r + {parsed.value};
      }
      assert lines[..l + 1][..l] == lines[..l];
      l := l + 1;
    }
    assert lines[..l] == lines;
  }

  /** The loop of the search screen's "Add Selected": `add` or `discard` per checkbox. */
  method ApplyChecklist(basket: set<string>, boxes: seq<Checkbox>) returns (r: set<string>)
    ensures r == ApplyBoxes(basket, boxes)
  {
    r := basket;
    var i := 0;
    while i < |boxes|
      invariant 0 <= i <= |boxes|
      invariant r == ApplyBoxes(basket, boxes[..i])
    {
      var op := Decode(boxes[i].id, OpPrefix);
      if boxes[i].value {
        r := r + {op};
      } else {
        r := r - {op};
      }
      assert boxes[..i + 1][..i] == boxes[..i];
      i := i + 1;
    }
    assert boxes[..i] == boxes;
  }

  /** The loop of the basket screen's "Apply Changes": collect the checked identifiers. */
  method CollectChecked(boxes: seq<Checkbox>) returns (kept: set<string>)
    ensures kept == CheckedIds(boxes)
  {
    kept := {};
    var i := 0;
    while i < |boxes|
      invariant 0 <= i <= |boxes|
      invariant kept == CheckedIds(boxes[..i])
    {
      if boxes[i].value {
        kept := kept + {Decode(boxes[i].id, OpPrefix)};
      }
      assert boxes[..i + 1][..i] == boxes[..i];
      i := i + 1;
    }
    assert boxes[..i] == boxes;
  }

  class App {
    var config: Config
    var operators: set<string>
    var stack: seq<Screen>
    var flushes: seq<Flush>
    var status: Status

    /** The screen receiving input. */
    function Top(): Screen
      reads this
      requires |stack| > 0
    {
      stack[|stack| - 1]
    }

    /** The object invariant: see `Coherent`. */
    ghost predicate Valid()
      reads this
    {
      Coherent(config, operators, stack)
    }

    /** `__init__`: empty config and basket, nothing shown yet. */
    constructor ()
      ensures config == map[] && operators == {} && stack == [] && flushes == [] && status == Running
    {
      config := map[];
      operators := {};
      stack := [];
      flushes := [];
      status := Running;
    }

    /** `on_mount`: show the welcome screen. */
    method Mount()
      requires stack == [] && config.Keys <= SettingKeys
      modifies this`stack
      ensures stack == [Welcome] && Valid()
    {
      stack := [Welcome];
    }

    /** Push a main screen onto the main screen before it. */
    method PushNext(s: Screen)
      requires Valid() && !IsOverlay(Top()) && |stack| < 6 && !IsOverlay(s) && Step(s) == |stack| && ScreenOk(s)
      modifies this`stack
      ensures stack == old(stack) + [s] && Valid()
    {
      CoherentPushNext(config, operators, stack, s);
      stack := stack + [s];
    }

    /** Push an overlay onto the operators screen. */
    method PushOverlay(s: Screen)
      requires Valid() && Top().Operators? && IsOverlay(s) && OverlayOk(operators, s)
      modifies this`stack
      ensures stack == old(stack) + [s] && Valid()
    {
      CoherentPushOverlay(config, operators, stack, s);
      stack := stack + [s];
    }

    /** Every "Back", "Cancel" and Escape: pop the top screen. */
    method Back()
      requires Valid() && status == Running && |stack| >= 2
      modifies this`stack
      ensures stack == old(stack)[..|old(stack)| - 1] && Valid()
      ensures IsOverlay(old(Top())) ==> Top().Operators?
    {
      CoherentPop(config, operators, operators, stack);
      PopKeeps(stack);
      stack := stack[..|stack| - 1];
    }

    // -------------------------------------------------------------------
    // Welcome

    /** Enter on the welcome screen: open the channel screen. */
    method WelcomeContinue()
      requires Valid() && status == Running && Top().Welcome?
      modifies this`stack
      ensures stack == old(stack) + [ChannelScreen(config)] && Valid()
    {
      PushNext(ChannelScreen(config));
    }

    /** Q or Escape on the welcome screen: exit without a message. */
    method WelcomeQuit()
      requires Valid() && status == Running && Top().Welcome?
      modifies this`status
      ensures status == Exited(None)
    {
      status := Exited(None);
    }

    // -------------------------------------------------------------------
    // Channel

    /** The user moves the highlight of the channel list. */
    method ChannelHighlight(i: nat)
      requires Valid() && status == Running && Top().Channel? && i < |ChannelOptions|
      modifies this`stack
      ensures stack == old(stack)[|old(stack)| - 1 := Channel(Some(i))] && Valid()
    {
      CoherentReplaceTop(config, operators, stack, Channel(Some(i)));
      stack := stack[|stack| - 1 := Channel(Some(i))];
    }

    /**
     * Choose channel `i`: highlight it, record it and open the version
     * screen for it, listing that channel's versions with the recorded
     * version highlighted.
     */
    method ChooseChannel(i: nat)
      requires Valid() && status == Running && Top().Channel? && i < |ChannelOptions|
      modifies this`config, this`stack
      ensures config == old(config)["ocp_channel" := ChannelOptions[i]]
      ensures |stack| == |old(stack)| + 1 && stack[..|old(stack)|] == old(stack)[|old(stack)| - 1 := Channel(Some(i))]
      ensures Top().Version? && Top().options == FallbackVersions(ChannelOptions[i])
      ensures IsVersionHighlight(Top().options, Get(config, "ocp_version", ""), Top().highlighted)
      ensures Valid()
    {
      ChannelHighlight(i);
      config := config["ocp_channel" := ChannelOptions[i]];
      var options, highlighted := FetchVersions(ChannelOptions[i], Get(config, "ocp_version", ""));
      PushNext(Version(options, highlighted));
    }

    /** "Next" on the channel screen: choose the highlighted channel; with no highlight nothing happens. */
    method ChannelNext()
      requires Valid() && status == Running && Top().Channel?
      modifies this`config, this`stack
      ensures old(Top()).highlighted.None? ==> config == old(config) && stack == old(stack)
      ensures old(Top()).highlighted.Some? ==>
        && config == old(config)["ocp_channel" := ChannelOptions[old(Top()).highlighted.value]]
        && |stack| == |old(stack)| + 1 && stack[..|old(stack)|] == old(stack)
        && Top().Version? && Top().options == FallbackVersions(ChannelOptions[old(Top()).highlighted.value])
        && IsVersionHighlight(Top().options, Get(config, "ocp_version", ""), Top().highlighted)
      ensures Valid()
    {
      var h := Top().highlighted;
      if h.Some? {
        assert stack[|stack| - 1 := Channel(h)] == stack;
        ChooseChannel(h.value);
      }
    }

    /** Enter on channel option `i`: the list selects the option it highlights. */
    method ChannelSelect(i: nat)
      requires Valid() && status == Running && Top().Channel? && i < |ChannelOptions|
      modifies this`config, this`stack
      ensures config == old(config)["ocp_channel" := ChannelOptions[i]]
      ensures |stack| == |old(stack)| + 1 && stack[..|old(stack)|] == old(stack)[|old(stack)| - 1 := Channel(Some(i))]
      ensures Top().Version? && Top().options == FallbackVersions(ChannelOptions[i])
      ensures IsVersionHighlight(Top().options, Get(config, "ocp_version", ""), Top().highlighted)
      ensures Valid()
    {
      ChooseChannel(i);
    }

    // -------------------------------------------------------------------
    // Version

    /** The user moves the highlight of the version list. */
    method VersionHighlight(i: nat)
      requires Valid() && status == Running && Top().Version? && i < |Top().options|
      modifies this`stack
      ensures stack == old(stack)[|old(stack)| - 1 := old(Top()).(highlighted := Some(i))] && Valid()
    {
      var s := Top().(highlighted := Some(i));
      CoherentReplaceTop(config, operators, stack, s);
      stack := stack[|stack| - 1 := s];
    }

    /**
     * Choose version `i`: highlight it, record it, flush the minimal config
     * and open the platform screen.
     */
    method ChooseVersion(i: nat)
      requires Valid() && status == Running && Top().Version? && i < |Top().options|
      modifies this`config, this`stack, this`flushes
      ensures config == old(config)["ocp_version" := old(Top()).options[i]]
      ensures flushes == old(flushes) + [Flush(ConfFile, MinimalWrites(config))]
      ensures stack == old(stack)[|old(stack)| - 1 := old(Top()).(highlighted := Some(i))] + [PlatformScreen(config)]
      ensures Valid()
    {
      VersionHighlight(i);
      config := config["ocp_version" := Top().options[i]];
      flushes := flushes + [Flush(ConfFile, MinimalWrites(config))];
      PushNext(PlatformScreen(config));
    }

    /** "Next" on the version screen: choose the highlighted version; with no highlight nothing happens. */
    method VersionNext()
      requires Valid() && status == Running && Top().Version?
      modifies this`config, this`stack, this`flushes
      ensures old(Top()).highlighted.None? ==>
        config == old(config) && stack == old(stack) && flushes == old(flushes)
      ensures old(Top()).highlighted.Some? ==>
        && config == old(config)["ocp_version" := old(Top()).options[old(Top()).highlighted.value]]
        && flushes == old(flushes) + [Flush(ConfFile, MinimalWrites(config))]
        && stack == old(stack) + [PlatformScreen(config)]
      ensures Valid()
    {
      var h := Top().highlighted;
      if h.Some? {
        assert stack[|stack| - 1 := Top().(highlighted := h)] == stack;
        ChooseVersion(h.value);
      }
    }

    /** Enter on version option `i`: the list selects the option it highlights. */
    method VersionSelect(i: nat)
      requires Valid() && status == Running && Top().Version? && i < |Top().options|
      modifies this`config, this`stack, this`flushes
      ensures config == old(config)["ocp_version" := old(Top()).options[i]]
      ensures flushes == old(flushes) + [Flush(ConfFile, MinimalWrites(config))]
      ensures stack == old(stack)[|old(stack)| - 1 := old(Top()).(highlighted := Some(i))] + [PlatformScreen(config)]
      ensures Valid()
    {
      ChooseVersion(i);
    }

    // -------------------------------------------------------------------
    // Platform

    /** The user edits the platform inputs. */
    method EditPlatform(form: PlatformForm)
      requires Valid() && status == Running && Top().Platform?
      modifies this`stack
      ensures stack == old(stack)[|old(stack)| - 1 := Platform(form)] && Valid()
    {
      CoherentReplaceTop(config, operators, stack, Platform(form));
      stack := stack[|stack| - 1 := Platform(form)];
    }

    /** "Next" on the platform screen: copy the five inputs into the config and open the operators screen. */
    method PlatformNext()
      requires Valid() && status == Running && Top().Platform?
      modifies this`config, this`stack
      ensures var f := old(Top()).form;
        config == old(config)["platform" := f.platform]["domain" := f.domain]
          ["machine_network" := f.machineNetwork]["dns_servers" := f.dnsServers]["ntp_servers" := f.ntpServers]
      ensures stack == old(stack) + [Operators] && Valid()
    {
      var f := Top().form;
      config := config["platform" := f.platform]["domain" := f.domain]
        ["machine_network" := f.machineNetwork]["dns_servers" := f.dnsServers]["ntp_servers" := f.ntpServers];
      PushNext(Operators);
    }

    // -------------------------------------------------------------------
    // Operators

    /** "Next" on the operators screen: open the summary. */
    method OperatorsNext()
      requires Valid() && status == Running && Top().Operators?
      modifies this`stack
      ensures stack == old(stack) + [Summary] && Valid()
    {
      PushNext(Summary);
    }

    /** "Clear": empty the basket. */
    method ClearBasket()
      requires Valid() && status == Running && Top().Operators?
      modifies this`operators
      ensures operators == {} && Valid()
    {
      CoherentBasket(config, operators, {}, stack);
      operators := {};
    }

    /** "Select Set": list the set keys of the template files, none checked. */
    method OpenSets(templates: map<string, seq<string>>)
      requires Valid() && status == Running && Top().Operators?
      modifies this`stack
      ensures stack == old(stack) + [OperatorSets(Listed(SetPrefix, SetKeys(templates.Keys), {}))] && Valid()
    {
      PushOverlay(OperatorSets(Listed(SetPrefix, SetKeys(templates.Keys), {})));
    }

    /** "Search": open the search screen with no results. */
    method OpenSearch()
      requires Valid() && status == Running && Top().Operators?
      modifies this`stack
      ensures stack == old(stack) + [OperatorSearch({}, [])] && Valid()
    {
      PushOverlay(OperatorSearch({}, []));
    }

    /** "View Basket": list the basket, every member checked. */
    method OpenBasket()
      requires Valid() && status == Running && Top().Operators?
      modifies this`stack
      ensures stack == old(stack) + [ViewBasket(Listed(OpPrefix, operators, operators))] && Valid()
    {
      PushOverlay(ViewBasket(Listed(OpPrefix, operators, operators)));
    }

    /** The user ticks or unticks box `i` of the open checklist. */
    method ToggleBox(i: nat)
      requires Valid() && status == Running && IsOverlay(Top()) && i < |Top().boxes|
      modifies this`stack
      ensures stack == old(stack)[|old(stack)| - 1 := old(Top()).(boxes := Toggle(old(Top()).boxes, i))]
      ensures Valid()
    {
      var s := Top().(boxes := Toggle(Top().boxes, i));
      CoherentReplaceTop(config, operators, stack, s);
      stack := stack[|stack| - 1 := s];
    }

    // -------------------------------------------------------------------
    // Operator sets

    /** `add_operator_set`: add every identifier the set file for `key` lists. */
    method AddOperatorSet(key: string, templates: map<string, seq<string>>)
      modifies this`operators
      ensures operators == AddedFrom(old(operators), SetLines(templates, key))
    {
      operators := AddSetFile(operators, SetLines(templates, key));
    }

    /** "Add Selected" on the sets screen: add each checked set in turn, then close the screen. */
    method SetsAdd(templates: map<string, seq<string>>)
      requires Valid() && status == Running && Top().OperatorSets?
      modifies this`operators, this`stack
      ensures operators == AddCheckedSets(old(operators), old(Top()).boxes, templates)
      ensures stack == old(stack)[..|old(stack)| - 1] && Valid()
    {
      var boxes := Top().boxes;
      ghost var before := operators;
      var i := 0;
      while i < |boxes|
        invariant 0 <= i <= |boxes|
        invariant operators == AddCheckedSets(before, boxes[..i], templates)
        invariant stack == old(stack)
      {
        if boxes[i].value {
          AddOperatorSet(Decode(boxes[i].id, SetPrefix), templates);
        }
        assert boxes[..i + 1][..i] == boxes[..i];
        i := i + 1;
      }
      assert boxes[..i] == boxes;
      CoherentPop(config, before, operators, stack);
      stack := stack[..|stack| - 1];
    }

    // -------------------------------------------------------------------
    // Operator search

    /**
     * `perform_search`: a query shorter than two characters changes nothing;
     * otherwise the results are replaced by the matching identifiers of the
     * index files, each checked when it is in the basket.
     */
    method PerformSearch(query: string, index: seq<seq<string>>)
      requires Valid() && status == Running && Top().OperatorSearch?
      modifies this`stack
      ensures |query| < 2 ==> stack == old(stack)
      ensures |query| >= 2 ==>
        var found := IndexMatches(Terms(query), index);
        stack == old(stack)[|old(stack)| - 1 := OperatorSearch(found, Listed(OpPrefix, found, operators))]
      ensures Valid()
    {
      if |query| < 2 {
        return;
      }
      var terms := Terms(query);
      var found := SearchIndex(terms, index);
      var s := OperatorSearch(found, Listed(OpPrefix, found, operators));
      CoherentReplaceTop(config, operators, stack, s);
      stack := stack[|stack| - 1 := s];
    }

    /** "Add Selected" on the search screen: set each shown identifier's membership, then close. */
    method SearchAdd()
      requires Valid() && status == Running && Top().OperatorSearch?
      modifies this`operators, this`stack
      ensures operators == ApplyBoxes(old(operators), old(Top()).boxes)
      ensures stack == old(stack)[..|old(stack)| - 1] && Valid()
    {
      var applied := ApplyChecklist(operators, Top().boxes);
      CoherentPop(config, operators, applied, stack);
      operators := applied;
      stack := stack[..|stack| - 1];
    }

    // -------------------------------------------------------------------
    // Basket review

    /** "Apply Changes": the basket becomes the checked identifiers; then close. */
    method BasketApply()
      requires Valid() && status == Running && Top().ViewBasket?
      modifies this`operators, this`stack
      ensures operators == CheckedIds(old(Top()).boxes)
      ensures stack == old(stack)[..|old(stack)| - 1] && Valid()
    {
      var kept := CollectChecked(Top().boxes);
      CoherentPop(config, operators, kept, stack);
      operators := kept;
      stack := stack[..|stack| - 1];
    }

    // -------------------------------------------------------------------
    // Summary

    /** "Save Draft" or "Apply to aba.conf": flush every setting and the basket, then exit. */
    method Save(draft: bool)
      requires Valid() && status == Running && Top().Summary?
      modifies this`flushes, this`status
      ensures flushes == old(flushes) + [Flush(SaveTarget(draft), SaveWrites(config, operators))]
      ensures status == Exited(Some(if draft then "Draft saved to aba.conf.draft" else "Configuration saved to aba.conf"))
    {
      flushes := flushes + [Flush(SaveTarget(draft), SaveWrites(config, operators))];
      status := Exited(Some(if draft then "Draft saved to aba.conf.draft" else "Configuration saved to aba.conf"));
    }
  }
}
