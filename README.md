# ABA TUI wizard — a Dafny model

ABA's text user interface (`tui/aba_tui_textual.py`) is a wizard. It walks the
user through these screens:

1. the OpenShift update channel;
2. the release version;
3. the platform and network settings;
4. an operator basket;
5. a summary.

The wizard then writes `aba.conf` (or `aba.conf.draft`). This project models the
wizard's engine:

- **`ABATUI` application (`Wizard.App`).** It holds the `config` dict, the
  `operators` basket and the screen stack. It has one method per button or key
  handler. Its invariant says:
  - the stack is a prefix of the screen chain, or the chain up to the operators
    screen with one overlay on top;
  - `config` holds only the settings keys;
  - every highlight is in range;
  - an open review or search list keeps the widget ids it was built with.
- **Config accumulator (`Settings`).** `write_minimal_config` and `save_config`
  become *flushes*. A flush is the target file plus the ordered key/value pairs
  handed to `replace-value-conf`. Their effect on the conf file's pairs is
  stated as "replace the key's value or append it". The helper's code is not
  part of this model, so this reading of it is the one assumption the model
  makes about code outside the file.
- **Set files (`SetFiles`).** These are the operator-set template files: the
  line parser of `add_operator_set`, the add loop, and the key a template file
  is listed under.
- **Checklists (`Checklist`).** These are the three basket overlays:
  - the search results;
  - the set list;
  - the basket review.

  A checklist is a sorted list of checkboxes with ids `op_<name>` / `set_<key>`.
  It is read back with `replace(prefix, "")`. Each overlay has its own apply
  step: add/discard, add the set files, or keep what is checked.
- **Catalog search (`Catalog`).** This is `perform_search`: the query terms, the
  first token of each index line, and the all-terms substring match.
- **Screens (`Screens`).** These are the screen records, the stack shape and the
  defaults each screen opens with.
- **Python text operations (`Text`, `Order`).** These are the string operations
  the above rely on, with CPython's meaning (`strip`, `split`, `replace`, `join`
  and so on), plus sorting by code point.

A template file and an index file are each given as their sequence of lines. A
file that is missing or cannot be read is an empty sequence. This matches the
source, which swallows the exception and adds nothing.

## Model

| member | source | states |
|---|---|---|
| `Text.Strip` | tui/aba_tui_textual.py:419 | `line.strip()`: no whitespace (CPython's `isspace` set) at either end; empty exactly when the line is all whitespace; a line that starts with a non-space keeps its first character |
| `Text.StripParts` | tui/aba_tui_textual.py:419 | what `strip()` removes is whitespace padding: the line is that padding, the stripped text and more padding |
| `Text.StripPadded` | tui/aba_tui_textual.py:419 | stripping a text with no whitespace at its ends out of any whitespace padding gives that text back |
| `Text.Split` | tui/aba_tui_textual.py:471 | `split()`: every piece is a non-empty whitespace-free run; no pieces exactly for a blank string |
| `Text.SplitGaps` | tui/aba_tui_textual.py:471 | the string is its `split()` pieces interleaved with whitespace runs, the runs between two pieces non-empty |
| `Text.SplitUnique` | tui/aba_tui_textual.py:471 | any such interleaving of whitespace-free words with whitespace runs splits back to exactly those words |
| `Text.LowerPointwise` | tui/aba_tui_textual.py:471 | `lower()` lowers each character in place (ASCII letters only) |
| `Text.Before` | tui/aba_tui_textual.py:422 | `split('#')[0]`: a prefix of the line holding no `#`, ending at the first `#` or at the end |
| `Text.RemovePrefixRoundTrip` | tui/aba_tui_textual.py:505 | `(pat + x).replace(pat, "")` gives `x` back exactly when `x` holds no copy of `pat` (both directions) |
| `Text.SplitOnJoin` | tui/aba_tui_textual.py:736 | splitting a `join` on its separator gives the pieces back when no piece holds the separator |
| `Order.SortedMembers` | tui/aba_tui_textual.py:492 | `sorted(s)` of a set: strictly ascending by code point, the same members, one entry each |
| `Catalog.Terms` | tui/aba_tui_textual.py:471 | `query.lower().split()`: the `split()` words of the lower-cased query, so they are whitespace-free and non-empty; no terms exactly for a blank query |
| `Catalog.FirstTokenIsFirstWord` | tui/aba_tui_textual.py:484 | the name an index line gives is the whitespace-free run after its leading whitespace; it is empty exactly for a blank line |
| `Catalog.Tokens` | tui/aba_tui_textual.py:483-484 | one name per line of an index file, in order |
| `Catalog.IndexMatchesIff` | tui/aba_tui_textual.py:478-488 | a name is found exactly when some line of some index file names it and every term is a substring of its lower-case form |
| `Catalog.SearchIndex` | tui/aba_tui_textual.py:478-488 | the nested loop over files and lines collects exactly the set that `IndexMatches` defines |
| `Catalog.BlankQueryMatchesEveryLine` | tui/aba_tui_textual.py:471-487 | a blank query yields no terms and so finds every name; the empty name is found exactly when some index line is blank |
| `Catalog.KiLiExample` | tui/aba_tui_textual.py:445 | the search field's own example: "ki li" over an index naming kiali, grafana and logging-operator finds kiali only |
| `Catalog.NamesAreOwnTokens` | tui/aba_tui_textual.py:484 | an index whose lines are bare non-empty names names exactly those lines |
| `SetFiles.ParseSetLine` | tui/aba_tui_textual.py:419-423 | a line yields an identifier exactly when its stripped form is non-empty and does not start with `#`; the identifier is non-empty, holds no `#` and has no surrounding whitespace |
| `SetFiles.ParseSetLineRoundTrip` | tui/aba_tui_textual.py:419-423 | an identifier padded with whitespace, with or without a trailing `#` comment, parses back to that identifier |
| `SetFiles.ParseSetLineWithin` | tui/aba_tui_textual.py:419-423 | a parsed identifier is a substring of the line it came from |
| `SetFiles.AddedFromIff` | tui/aba_tui_textual.py:417-424 | after `add_operator_set`, an identifier is in the basket exactly when it was before or some line of the file yields it |
| `SetFiles.AddedFromUnion` | tui/aba_tui_textual.py:417-424 | adding a set file is a union with that file's identifiers alone, whatever the basket held |
| `SetFiles.AddedFromGrowsOnce` | tui/aba_tui_textual.py:413-426 | adding a set file only grows the basket, adds only well-formed identifiers, and adding the same file again changes nothing |
| `SetFiles.SetKeys` | tui/aba_tui_textual.py:385-386 | the listed keys are exactly the `replace("operator-set-", "")` forms of the template names that start with `operator-set-` |
| `SetFiles.SetFileName` | tui/aba_tui_textual.py:415 | the file opened for a key starts with `operator-set-` |
| `SetFiles.SetFileRoundTrip` | tui/aba_tui_textual.py:386 | listing a template under its key and opening the file for that key reach the same file exactly when the name does not repeat `operator-set-` after its prefix |
| `Checklist.ListedMeaning` | tui/aba_tui_textual.py:492-496 | a checklist has a box `prefix + x` for every shown identifier and for nothing else; a box is checked exactly when its identifier is in the checked set; all ids are distinct |
| `Checklist.Listed` | tui/aba_tui_textual.py:541-545 | the review and search lists have one box per shown identifier |
| `Checklist.Toggle` | tui/aba_tui_textual.py:495 | ticking box `i` flips its value and keeps every id and every other box |
| `Checklist.DecodeListed` | tui/aba_tui_textual.py:505 | the id of a listed identifier holding no `op_` decodes back to that identifier |
| `Checklist.DecodeMerges` | tui/aba_tui_textual.py:505 | `replace` drops every copy of the prefix, so the box for `op_` + x decodes to the same identifier as the box for x |
| `Checklist.ApplyFrame` | tui/aba_tui_textual.py:503-509 | an identifier that no box decodes to keeps its membership |
| `Checklist.ApplyLastWins` | tui/aba_tui_textual.py:503-509 | the last box that decodes to an identifier decides its membership |
| `Checklist.SearchAddFrame` | tui/aba_tui_textual.py:498-510 | "Add Selected" on the search results leaves every identifier that is not among the results as it was |
| `Checklist.SearchAddShown` | tui/aba_tui_textual.py:498-510 | "Add Selected" puts a shown identifier in the basket exactly when its box is ticked |
| `Checklist.SearchAddUntoggled` | tui/aba_tui_textual.py:492-510 | adding the results as they were listed, untouched, leaves the basket unchanged |
| `Checklist.CheckedIdsIff` | tui/aba_tui_textual.py:553-557 | the new basket holds an identifier exactly when some ticked box decodes to it |
| `Checklist.CheckedListed` | tui/aba_tui_textual.py:541-559 | after review, a listed identifier stays exactly when its box is ticked |
| `Checklist.BasketApplySubset` | tui/aba_tui_textual.py:547-559 | "Apply Changes" never adds an identifier: the new basket is within the old one |
| `Checklist.BasketApplyUntoggled` | tui/aba_tui_textual.py:541-559 | "Apply Changes" with every box still ticked keeps the basket exactly |
| `Checklist.AddCheckedSetsIff` | tui/aba_tui_textual.py:404-411 | "Add Selected" on the sets screen keeps every member and adds exactly the identifiers that the files of the ticked sets yield |
| `Settings.Get` | tui/aba_tui_textual.py:714-716 | `config.get(key, default)`: the stored value if present, the default otherwise |
| `Settings.MinimalWrites` | tui/aba_tui_textual.py:709-728 | the minimal flush writes ocp_channel, ocp_version and platform, in that order, each with its configured value or its default (stable, empty, bm) |
| `Settings.SaveWrites` | tui/aba_tui_textual.py:730-748 | the full save writes the eight keys in order: the seven settings with their configured values or defaults, then `ops` as the sorted basket joined by commas |
| `Settings.SaveTarget` | tui/aba_tui_textual.py:732 | a draft goes to aba.conf.draft, otherwise to aba.conf (both directions) |
| `Settings.MinimalIsSavePrefix` | tui/aba_tui_textual.py:709-748 | the minimal flush writes the same pairs as the first three writes of a full save from the same config |
| `Settings.ApplyWritesLookup` | tui/aba_tui_textual.py:739-749 | after a flush, a key holds the value of its last write; a key that no write targets is present and valued as before |
| `Settings.Overridden` | tui/aba_tui_textual.py:739-749 | a flush whose keys are all written again by a later flush leaves no trace |
| `Settings.SaveEffect` | tui/aba_tui_textual.py:730-751 | after a save, each of the eight keys holds the value written for it and every other key is untouched; when the save goes to the file the minimal flush wrote (aba.conf, the non-draft save of lines 711 and 732), that earlier flush is entirely overwritten, whatever config it was made from (the flush comes at lines 200-202 and 208-209, before the platform inputs are copied in at lines 275-279); a draft save writes aba.conf.draft and leaves the flushed values in aba.conf |
| `Settings.OpsValueRoundTrip` | tui/aba_tui_textual.py:736 | the `ops` value is empty for an empty basket; otherwise splitting it on commas gives the basket back in sorted order, when no identifier holds a comma |
| `Screens.Step` | tui/aba_tui_textual.py:58-322 | each main screen has its own place in the chain: 0 Welcome, 1 Channel, 2 Version, 3 Platform, 4 Operators, 5 Summary, and only the operators screen has place 4 |
| `Screens.PopKeeps` | tui/aba_tui_textual.py:131 | popping any screen but the welcome screen keeps the stack's shape; an overlay always sits on the operators screen |
| `Screens.ChannelIndex` | tui/aba_tui_textual.py:98-108 | the highlighted option is the configured channel when it is one of stable, fast, candidate, and there is none otherwise |
| `Screens.ChannelScreen` | tui/aba_tui_textual.py:98-108 | the channel screen opens with the configured channel (default stable) highlighted, or with no highlight for an unknown channel |
| `Screens.FallbackVersions` | tui/aba_tui_textual.py:174-182 | the versions offered for a channel: 4.21.0-rc.1 and 4.20.8 for candidate, 4.20.8 and 4.19.21 for any other channel |
| `Screens.PlatformScreen` | tui/aba_tui_textual.py:231-258 | the platform screen opens with each input showing its configured value or its default (bm, example.com, empty) |
| `Wizard.FetchVersions` | tui/aba_tui_textual.py:167-190 | the options are the channel's version list; the highlight is the first option equal to the configured version, and there is none when no version is set or it is not offered |
| `Wizard.AddSetFile` | tui/aba_tui_textual.py:417-424 | the loop over a set file's lines computes `AddedFrom` |
| `Wizard.ApplyChecklist` | tui/aba_tui_textual.py:503-509 | the loop over the search boxes computes `ApplyBoxes` |
| `Wizard.CollectChecked` | tui/aba_tui_textual.py:552-557 | the loop over the review boxes computes `CheckedIds` |
| `Wizard.App.constructor` | tui/aba_tui_textual.py:692-696 | the app starts with an empty config and basket, no screen and no flush |
| `Wizard.App.Mount` | tui/aba_tui_textual.py:698-702 | mounting shows the welcome screen |
| `Wizard.App.Back` | tui/aba_tui_textual.py:129-131 | every Back, Cancel and Escape pops exactly the top screen and keeps the invariant; leaving an overlay returns to the operators screen |
| `Wizard.App.WelcomeContinue` | tui/aba_tui_textual.py:56-58 | continuing from the welcome screen opens the channel screen |
| `Wizard.App.WelcomeQuit` | tui/aba_tui_textual.py:60-62 | quitting exits without a message |
| `Wizard.App.ChannelHighlight` | tui/aba_tui_textual.py:83-88 | moving the highlight of the channel list changes only that highlight |
| `Wizard.App.ChooseChannel` | tui/aba_tui_textual.py:117-121 | choosing a channel leaves it highlighted, records it and opens the version screen listing that channel's versions, with the configured version highlighted |
| `Wizard.App.ChannelNext` | tui/aba_tui_textual.py:110-121 | Next with no highlight changes nothing; with one, it records the highlighted channel and opens the version screen for it, listing that channel's versions with the configured version highlighted; the channel screen underneath is unchanged |
| `Wizard.App.ChannelSelect` | tui/aba_tui_textual.py:123-127 | Enter on a channel (the option the list highlights) leaves it highlighted, records it and opens the version screen for it, listing that channel's versions with the configured version highlighted |
| `Wizard.App.VersionHighlight` | tui/aba_tui_textual.py:150-153 | moving the highlight of the version list changes only that highlight |
| `Wizard.App.ChooseVersion` | tui/aba_tui_textual.py:199-204 | choosing a version leaves it highlighted, records it, appends the minimal flush to aba.conf and opens the platform screen |
| `Wizard.App.VersionNext` | tui/aba_tui_textual.py:192-204 | Next with no highlight changes nothing; with one, it records the version, flushes and opens the platform screen |
| `Wizard.App.VersionSelect` | tui/aba_tui_textual.py:206-211 | Enter on a version (the option the list highlights) leaves it highlighted, records it, flushes and opens the platform screen |
| `Wizard.App.EditPlatform` | tui/aba_tui_textual.py:231-258 | editing the platform inputs changes only the platform screen's form |
| `Wizard.App.PlatformNext` | tui/aba_tui_textual.py:269-280 | Next copies the five inputs into the config and opens the operators screen |
| `Wizard.App.OperatorsNext` | tui/aba_tui_textual.py:321-322 | Next on the operators screen opens the summary |
| `Wizard.App.ClearBasket` | tui/aba_tui_textual.py:329-330 | Clear empties the basket |
| `Wizard.App.OpenSets` | tui/aba_tui_textual.py:377-398 | the sets screen lists the keys of the template files, sorted, none ticked |
| `Wizard.App.OpenSearch` | tui/aba_tui_textual.py:339-341 | the search screen opens with no results |
| `Wizard.App.OpenBasket` | tui/aba_tui_textual.py:541-545 | the review screen lists the basket, sorted, every box ticked |
| `Wizard.App.ToggleBox` | tui/aba_tui_textual.py:495 | ticking a box of the open checklist flips it and changes nothing else |
| `Wizard.App.AddOperatorSet` | tui/aba_tui_textual.py:413-426 | the basket becomes the old basket plus the identifiers of the set file for the key (nothing for a missing file) |
| `Wizard.App.SetsAdd` | tui/aba_tui_textual.py:400-411 | each ticked set is added in turn through `add_operator_set`, so the basket becomes `AddCheckedSets` of the old basket, then the sets screen closes |
| `Wizard.App.PerformSearch` | tui/aba_tui_textual.py:466-496 | a query shorter than two characters changes nothing; otherwise the results become the matching names of the index, sorted, each ticked when it is in the basket |
| `Wizard.App.SearchAdd` | tui/aba_tui_textual.py:498-510 | each result box adds or discards its identifier, in order, then the search screen closes |
| `Wizard.App.BasketApply` | tui/aba_tui_textual.py:547-559 | the basket becomes the ticked identifiers, then the review screen closes |
| `Wizard.App.Save` | tui/aba_tui_textual.py:610-619 | Save Draft and Apply append the full save to the right file, then exit with the matching message |

## Left out

- Rendering and Textual widget mechanics are not modelled: layout, CSS, help text, the summary's text and the checkbox labels. The model keeps only the widget state the handlers read (highlight, form inputs, checkbox ids and values).
- The description line that the sets screen reads from each template file (`readline().strip().lstrip('#')`) is not modelled. It only labels the checkbox.
- Textual's own checks on widget ids are not modelled. An identifier that is not a valid widget id, or two boxes with the same id, would raise inside Textual. The model treats any string as an id.
- `update_basket_count` is left out. Its `query_one(Static)` finds the title first, so the count line never updates; the model has no count text.
- `start_background_task` is an empty placeholder in the source and is left out. So is the asynchronous mount order of screens.
- The subprocess call is left out. The bash `source ... && ...` chain, shell quoting of values, the `-q` flag and the exit status of `replace-value-conf` are all unmodelled. A flush is recorded as its pairs, and its effect is stated as "replace or append" for every pair. A failing call that stops the `&&` chain early is not modelled.
- `write_minimal_config` first creates `aba.conf` with placeholder lines when it is missing. The model starts from whatever pairs the file holds, so this creation is not modelled.
- Directory globbing is left out. The template directory is a map from file name to lines, and the index directory is a sequence of files. A missing index directory is an empty sequence, as the source's `exists()` test makes it. `glob` matching a directory (whose `open` fails and is ignored) counts as an empty file.
- An exception partway through reading a file is not modelled. The source keeps what was added before the exception; the model reads a file completely or treats it as empty.
- Text.Lower: only ASCII letters are lowered. CPython's `str.lower` also lowers non-ASCII letters, so identifiers with such letters may match differently.
- Screens.FallbackVersions: the source's version "fetch" is a hard-coded table, which is what is modelled. Fetching real versions from ABA scripts is not part of the source.
- Screens.ChannelIndex: for an unknown channel, Textual's own default highlight for an option list is not modelled; the model leaves the highlight empty.
- Wizard.App.EditPlatform: the platform Select is modelled as free text. The source offers only bm and vmw, but shows any configured value.
- The Select's blank value (`Select.BLANK`) is not modelled. Neither is a Python `None` written into the config.
- `scripts/render_template.py` is not part of this model. It is not called by the wizard.

- Checklist.SearchAddFrame, Checklist.SearchAddShown, Checklist.SearchAddUntoggled: stated only for results in which no identifier holds `op_`. For other results `replace` merges boxes, as Checklist.DecodeMerges shows, and what the handler then does is given only by `ApplyBoxes` and Checklist.ApplyLastWins.
- Checklist.CheckedListed, Checklist.BasketApplySubset, Checklist.BasketApplyUntoggled: stated only for a basket in which no identifier holds `op_`, for the same reason. `CheckedIdsIff` covers every basket.
- Settings.OpsValueRoundTrip: stated only for identifiers without a comma. An identifier holding a comma makes the `ops` value ambiguous.
- Settings.Overridden and Settings.SaveEffect: they rest on the replace-or-append reading of `replace-value-conf`, whose code is not part of this model.
