/**
 * The wizard's configuration: the `config` dict the screens fill in, read
 * with defaults, and the two flushes to the conf file: the minimal one made
 * when a version is chosen (`write_minimal_config`) and the full one made
 * from the summary (`save_config`). A flush is the list of key/value pairs
 * handed to the `replace-value-conf` helper, one call per pair, plus the
 * file it targets; the helper replaces the key's line or appends one.
 */
module Settings {
  import opened Wrappers
  import opened Text
  import opened Order

  type Config = map<string, string>

  /** `config.get(key, default)`. */
  function Get(config: Config, key: string, default: string): (v: string)
    ensures key in config ==> v == config[key]
    ensures key !in config ==> v == default
  {
    if key in config then config[key] else default
  }

  datatype Write = Write(key: string, value: string)

  /** One subprocess call: the pairs it writes, in order, into `file`. */
  datatype Flush = Flush(file: string, writes: seq<Write>)

  const ConfFile: string := "aba.conf"
  const DraftFile: string := "aba.conf.draft"

  /** The keys of the full save, in the order they are written. */
  const SaveKeys: seq<string> :=
    ["ocp_channel", "ocp_version", "platform", "domain", "machine_network", "dns_servers", "ntp_servers", "ops"]

  /** The value written for a key the wizard never set. */
  function Default(key: string): string {
    if key == "ocp_channel" then "stable"
    else if key == "platform" then "bm"
    else if key == "domain" then "example.com"
    else ""
  }

  /** `",".join(sorted(operators))`. */
  function OpsValue(ops: set<string>): string {
    Join(SortedMembers(ops), ",")
  }

  /** `write_minimal_config`: channel, version and platform, with their defaults. */
  function MinimalWrites(config: Config): (ws: seq<Write>)
    ensures |ws| == 3
    ensures forall i :: 0 <= i < 3 ==> ws[i].key == SaveKeys[i]
    ensures forall i :: 0 <= i < 3 ==> ws[i].value == Get(config, SaveKeys[i], Default(SaveKeys[i]))
  {
    [ Write("ocp_channel", Get(config, "ocp_channel", "stable")),
      Write("ocp_version", Get(config, "ocp_version", "")),
      Write("platform", Get(config, "platform", "bm")) ]
  }

  /** `save_config`: the seven settings with their defaults, then the basket. */
  function SaveWrites(config: Config, ops: set<string>): (ws: seq<Write>)
    ensures |ws| == |SaveKeys|
    ensures forall i :: 0 <= i < |ws| ==> ws[i].key == SaveKeys[i]
    ensures forall i :: 0 <= i < 7 ==> ws[i].value == Get(config, SaveKeys[i], Default(SaveKeys[i]))
    ensures ws[7].value == OpsValue(ops)
  {
    [ Write("ocp_channel", Get(config, "ocp_channel", "stable")),
      Write("ocp_version", Get(config, "ocp_version", "")),
      Write("platform", Get(config, "platform", "bm")),
      Write("domain", Get(config, "domain", "example.com")),
      Write("machine_network", Get(config, "machine_network", "")),
      Write("dns_servers", Get(config, "dns_servers", "")),
      Write("ntp_servers", Get(config, "ntp_servers", "")),
      Write("ops", OpsValue(ops)) ]
  }

  /** The file `save_config(draft)` writes. */
  function SaveTarget(draft: bool): (file: string)
    ensures file == DraftFile <==> draft
    ensures file == ConfFile <==> !draft
  {
    if draft then DraftFile else ConfFile
  }

  /** The minimal flush writes the same pairs as the start of a full save from the same config. */
  lemma MinimalIsSavePrefix(config: Config, ops: set<string>)
    ensures MinimalWrites(config) == SaveWrites(config, ops)[..3]
  {
  }

  // ---------------------------------------------------------------------
  // The intended effect of a flush on the conf file's key/value pairs.

  /** The conf file's pairs after replacing or appending each write, in order. */
  function ApplyWrites(file: map<string, string>, ws: seq<Write>): map<string, string>
    decreases |ws|
  {
    if ws == [] then file
    else
      var last := ws[|ws| - 1];
      ApplyWrites(file, ws[..|ws| - 1])[last.key := last.value]
  }

  /** The value the last write to `key` gives it, if any write does. */
  function LastWrite(ws: seq<Write>, key: string): Option<string>
    decreases |ws|
  {
    if ws == [] then None
    else if ws[|ws| - 1].key == key then Some(ws[|ws| - 1].value)
    else LastWrite(ws[..|ws| - 1], key)
  }

  /** The keys some write targets. */
  function Keys(ws: seq<Write>): set<string> {
    set i | 0 <= i < |ws| :: ws[i].key
  }

  /** A key is written exactly when it is among the written keys. */
  lemma {:induction false} LastWriteKeys(ws: seq<Write>, key: string)
    ensures LastWrite(ws, key).Some? <==> key in Keys(ws)
    decreases |ws|
  {
    if ws != [] {
      var init := ws[..|ws| - 1];
      LastWriteKeys(init, key);
      if key in Keys(ws) && ws[|ws| - 1].key != key {
        var i :| 0 <= i < |ws| && ws[i].key == key;
        assert init[i].key == key;
      }
      if key in Keys(init) {
        var i :| 0 <= i < |init| && init[i].key == key;
        assert ws[i].key == key;
      }
    }
  }

  /**
   * After a flush a key holds the value of its last write; a key no write
   * targets is present and valued exactly as before.
   */
  lemma {:induction false} ApplyWritesLookup(file: map<string, string>, ws: seq<Write>, key: string)
    ensures LastWrite(ws, key).Some? ==>
      key in ApplyWrites(file, ws) && ApplyWrites(file, ws)[key] == LastWrite(ws, key).value
    ensures LastWrite(ws, key).None? ==>
      (key in ApplyWrites(file, ws) <==> key in file) &&
      (key in file ==> ApplyWrites(file, ws)[key] == file[key])
    decreases |ws|
  {
    if ws != [] {
      ApplyWritesLookup(file, ws[..|ws| - 1], key);
    }
  }

  /**
   * A flush whose keys are all written again by a later flush leaves no
   * trace: the later flush alone gives the same pairs.
   */
  lemma Overridden(file: map<string, string>, earlier: seq<Write>, later: seq<Write>)
    requires Keys(earlier) <= Keys(later)
    ensures ApplyWrites(ApplyWrites(file, earlier), later) == ApplyWrites(file, later)
  {
    var mid := ApplyWrites(file, earlier);
    forall key
      ensures key in ApplyWrites(mid, later) <==> key in ApplyWrites(file, later)
      ensures key in ApplyWrites(file, later) ==> ApplyWrites(mid, later)[key] == ApplyWrites(file, later)[key]
    {
      ApplyWritesLookup(mid, later, key);
      ApplyWritesLookup(file, later, key);
      ApplyWritesLookup(file, earlier, key);
      LastWriteKeys(earlier, key);
      LastWriteKeys(later, key);
    }
  }

  /** The last write to the key at position `i` of distinct keys is that write. */
  lemma {:induction false} LastWriteDistinct(ws: seq<Write>, i: int)
    requires 0 <= i < |ws|
    requires forall a, b :: 0 <= a < b < |ws| ==> ws[a].key != ws[b].key
    ensures LastWrite(ws, ws[i].key) == Some(ws[i].value)
    decreases |ws|
  {
    if i < |ws| - 1 {
      LastWriteDistinct(ws[..|ws| - 1], i);
    }
  }

  /** The eight keys of a save are distinct. */
  lemma SaveKeysDistinct()
    ensures forall a, b :: 0 <= a < b < |SaveKeys| ==> SaveKeys[a] != SaveKeys[b]
  {
    var ks := SaveKeys;
    assert |ks[0]| == 11 && |ks[1]| == 11 && ks[0][4] != ks[1][4];
    assert |ks[2]| == 8 && |ks[7]| == 3 && |ks[3]| == 6;
    assert |ks[4]| == 15 && |ks[5]| == 11 && |ks[6]| == 11;
    assert ks[5][0] != ks[0][0] && ks[5][0] != ks[1][0] && ks[5][0] != ks[6][0];
    assert ks[6][0] != ks[0][0] && ks[6][0] != ks[1][0];
  }

  /**
   * After a full save the conf file holds each of the eight keys with the
   * value the save wrote for it, and every other key as it was. When the
   * save goes to the file a minimal flush went to (aba.conf, not a draft),
   * that flush is overwritten entirely, whatever config it was made from
   * (the wizard flushes when the version is chosen, before the platform
   * inputs are known).
   */
  lemma SaveEffect(file: map<string, string>, earlier: Config, config: Config, ops: set<string>, i: int, key: string)
    requires 0 <= i < |SaveKeys|
    ensures var after := ApplyWrites(file, SaveWrites(config, ops));
      SaveKeys[i] in after && after[SaveKeys[i]] == SaveWrites(config, ops)[i].value
    ensures key !in SaveKeys ==>
      var after := ApplyWrites(file, SaveWrites(config, ops));
      (key in after <==> key in file) && (key in file ==> after[key] == file[key])
    ensures ApplyWrites(ApplyWrites(file, MinimalWrites(earlier)), SaveWrites(config, ops)) ==
      ApplyWrites(file, SaveWrites(config, ops))
  {
    var ws := SaveWrites(config, ops);
    SaveKeysDistinct();
    LastWriteDistinct(ws, i);
    ApplyWritesLookup(file, ws, SaveKeys[i]);
    ApplyWritesLookup(file, ws, key);
    LastWriteKeys(ws, key);
    if key in Keys(ws) {
      var j :| 0 <= j < |ws| && ws[j].key == key;
      assert key == SaveKeys[j];
    }
    var minimal := MinimalWrites(earlier);
    forall k | k in Keys(minimal) ensures k in Keys(ws) {
      var j :| 0 <= j < |minimal| && minimal[j].key == k;
      assert ws[j].key == k;
    }
    Overridden(file, minimal, ws);
  }

  /**
   * The `ops` value lists the basket in sorted order: splitting it on commas
   * gives the members back, unless the basket is empty (an empty value) or a
   * member itself holds a comma.
   */
  lemma OpsValueRoundTrip(ops: set<string>)
    requires forall op :: op in ops ==> ',' !in op
    ensures ops == {} ==> OpsValue(ops) == []
    ensures ops != {} ==> SplitOn(OpsValue(ops), ',') == SortedMembers(ops)
    ensures ops != {} ==> forall x :: x in SplitOn(OpsValue(ops), ',') <==> x in ops
  {
    var sorted := SortedMembers(ops);
    if ops != {} {
      assert |sorted| > 0;
      SplitOnJoin(sorted, ',');
    }
  }
}
