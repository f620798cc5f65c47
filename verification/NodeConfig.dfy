/**
 * The layers of the Virtlet configuration: mappingMatches, Override,
 * MergeConfigs and configForNode in pkg/config/config.go, with the field sets
 * of pkg/config/fields.go.
 */
module NodeConfig {
  import opened Common

  datatype Value = Text(s: string) | Flag(b: bool) | Number(n: int)

  const SIZE := 20

  /** The fields in the order of the field set; None is a nil pointer. */
  type Fields = s: seq<Option<Value>> | |s| == SIZE witness seq(SIZE, _ => None)

  const UNSET: Fields := seq(SIZE, _ => None)

  /** The default values, in the order of the field set. */
  const DEFAULTS: seq<Value> := [
    Text("/var/lib/virtlet/tapfdserver.sock"),   // fdServerSocketPath
    Text("/var/lib/virtlet/virtlet.db"),         // databasePath
    Text("https"),                               // downloadProtocol
    Text("/var/lib/virtlet/images"),             // imageDir
    Text("/etc/virtlet/images"),                 // imageTranslationConfigsDir
    Flag(false),                                 // skipImageTranslation
    Text("qemu:///system"),                      // libvirtURI
    Text("loop*"),                               // rawDevices
    Text("/run/virtlet.sock"),                   // criSocketPath
    Flag(false),                                 // disableLogging
    Flag(false),                                 // disableKVM
    Flag(false),                                 // enableSriov
    Text("/opt/cni/bin"),                        // cniPluginDir
    Text("/etc/cni/net.d"),                      // cniConfigDir
    Number(24),                                  // calicoSubnetSize
    Flag(true),                                  // enableRegexpImageTranslation
    Text(""),                                    // cpuModel
    Number(10010),                               // streamPort
    Text("/var/lib/kubelet/pods"),               // kubeletRootDir
    Number(1)                                    // logLevel
  ]

  predicate AreDefaults(fields: Fields) {
    forall f :: 0 <= f < SIZE ==> fields[f] == Some(DEFAULTS[f])
  }

  predicate AllSet(fields: Fields) {
    forall f :: 0 <= f < SIZE ==> fields[f].Some?
  }

  // ----- Layers -----------------------------------------------------------

  /** A layer over another one. */
  function Over(under: Fields, over: Fields): (r: Fields)
    ensures forall f :: 0 <= f < SIZE ==> r[f] == if over[f].Some? then over[f] else under[f]
  {
    seq(SIZE, f requires 0 <= f < SIZE => if over[f].Some? then over[f] else under[f])
  }

  function Stack(bottom: Fields, layers: seq<Fields>): Fields {
    if layers == [] then bottom else Over(Stack(bottom, layers[..|layers| - 1]), layers[|layers| - 1])
  }

  /** The value of a field comes from this layer: no later layer sets it. */
  predicate SetLast(layers: seq<Fields>, f: nat, i: nat)
    requires f < SIZE
  {
    i < |layers| && layers[i][f].Some? && forall j :: i < j < |layers| ==> layers[j][f].None?
  }

  lemma {:induction false} StackAt(bottom: Fields, layers: seq<Fields>, f: nat)
    requires f < SIZE
    ensures (exists i: nat :: SetLast(layers, f, i) && Stack(bottom, layers)[f] == layers[i][f])
            || ((forall i :: 0 <= i < |layers| ==> layers[i][f].None?) && Stack(bottom, layers)[f] == bottom[f])
  {
    if layers != [] {
      var n := |layers| - 1;
      if layers[n][f].Some? {
        assert SetLast(layers, f, n);
      } else {
        StackAt(bottom, layers[..n], f);
        if i: nat :| SetLast(layers[..n], f, i) && Stack(bottom, layers[..n])[f] == layers[i][f] {
          assert SetLast(layers, f, i);
        }
      }
    }
  }

  // ----- Configurations ---------------------------------------------------

  class VirtletConfig {
    var fields: Fields

    constructor ()
      ensures fields == UNSET
    {
      fields := UNSET;
    }

    /** applyDefaults */
    method ApplyDefaults()
      modifies this
      ensures forall f :: 0 <= f < SIZE ==>
                fields[f] == if old(fields[f]).Some? then old(fields[f]) else Some(DEFAULTS[f])
    {
      for n := 0 to SIZE
        invariant forall f :: 0 <= f < n ==>
                    fields[f] == if old(fields[f]).Some? then old(fields[f]) else Some(DEFAULTS[f])
        invariant forall f :: n <= f < SIZE ==> fields[f] == old(fields[f])
      {
        if fields[n].None? {
          fields := fields[n := Some(DEFAULTS[n])];
        }
      }
    }

    /** Override: the target may be the other configuration itself. */
    method Override(other: VirtletConfig)
      modifies this
      ensures fields == Over(old(fields), old(other.fields))
    {
      for n := 0 to SIZE
        invariant forall f :: 0 <= f < n ==> fields[f] == Over(old(fields), old(other.fields))[f]
        invariant forall f :: n <= f < SIZE ==> fields[f] == old(fields[f])
        invariant other != this ==> other.fields == old(other.fields)
      {
        if other.fields[n].Some? {
          fields := fields[n := other.fields[n]];
        }
      }
      assert fields == Over(old(fields), old(other.fields));
    }
  }

  /** GetDefaultConfig */
  method GetDefaultConfig() returns (c: VirtletConfig)
    ensures fresh(c) && AreDefaults(c.fields) && AllSet(c.fields)
  {
    c := new VirtletConfig();
    c.ApplyDefaults();
  }

  /** The layers that a list of configurations puts over its first one. */
  ghost function LayersOver(first: VirtletConfig, rest: seq<VirtletConfig>): (ls: seq<Fields>)
    reads rest
    ensures |ls| == |rest|
    ensures forall i :: 0 <= i < |rest| ==> ls[i] == if rest[i] == first then UNSET else rest[i].fields
  {
    seq(|rest|, i requires 0 <= i < |rest| reads rest => if rest[i] == first then UNSET else rest[i].fields)
  }

  lemma OverSelf(a: Fields)
    ensures Over(a, a) == a && Over(a, UNSET) == a
  {
  }

  /** MergeConfigs: the first configuration is changed in place and returned. */
  method MergeConfigs(configs: seq<VirtletConfig>) returns (cfg: VirtletConfig?)
    modifies if configs == [] then {} else {configs[0]}
    ensures configs == [] ==> cfg == null
    ensures configs != [] ==> cfg == configs[0]
    ensures configs != [] ==>
              configs[0].fields == Stack(old(configs[0].fields), old(LayersOver(configs[0], configs[1..])))
  {
    cfg := null;
    for n := 0 to |configs|
      invariant cfg == if n == 0 then null else configs[0]
      invariant forall i :: 0 <= i < |configs| && configs[i] != configs[0] ==>
                  configs[i].fields == old(configs[i].fields)
      invariant n == 0 ==> unchanged(configs)
      invariant n > 0 ==>
                  configs[0].fields == Stack(old(configs[0].fields), old(LayersOver(configs[0], configs[1..]))[..n - 1])
    {
      if cfg == null {
        cfg := configs[n];
      } else {
        ghost var layers := old(LayersOver(configs[0], configs[1..]));
        OverSelf(cfg.fields);
        assert layers[..n][..n - 1] == layers[..n - 1];
        assert configs[1..][n - 1] == configs[n];
        cfg.Override(configs[n]);
      }
    }
    if configs != [] {
      ghost var layers := old(LayersOver(configs[0], configs[1..]));
      assert layers[..|configs| - 1] == layers;
    }
  }

  // ----- Mappings ---------------------------------------------------------

  datatype Mapping = Mapping(config: VirtletConfig?, nodeName: string, selector: map<string, string>, priority: int)

  datatype Node = Node(name: string, labels: map<string, string>)

  predicate Matches(m: Mapping, node: Node) {
    && m.config != null
    && (m.nodeName == "" || m.nodeName == node.name)
    && forall l :: l in m.selector ==> l in node.labels && node.labels[l] == m.selector[l]
  }

  /** mappingMatches */
  method MappingMatches(m: Mapping, node: Node) returns (r: bool)
    ensures r == Matches(m, node)
  {
    if m.config == null { return false; }
    if m.nodeName != "" && m.nodeName != node.name { return false; }
    var labels := m.selector.Keys;
    while labels != {}
      invariant labels <= m.selector.Keys
      invariant forall l :: l in m.selector && l !in labels ==> l in node.labels && node.labels[l] == m.selector[l]
      decreases |labels|
    {
      var l :| l in labels;
      if l !in node.labels || node.labels[l] != m.selector[l] { return false; }
      labels := labels - {l};
    }
    return true;
  }

  predicate ByPriority(ms: seq<Mapping>) {
    forall i, j :: 0 <= i < j < |ms| ==> ms[i].priority <= ms[j].priority
  }

  lemma InsertedOrdered(ms: seq<Mapping>, m: Mapping, n: nat)
    requires ByPriority(ms) && n <= |ms|
    requires n > 0 ==> ms[n - 1].priority <= m.priority
    requires n < |ms| ==> m.priority <= ms[n].priority
    ensures ByPriority(ms[..n] + [m] + ms[n..])
  {
    var r := ms[..n] + [m] + ms[n..];
    forall i, j | 0 <= i < j < |r| ensures r[i].priority <= r[j].priority {
      assert i < n ==> r[i] == ms[i] && (i < n - 1 ==> ms[i].priority <= ms[n - 1].priority);
      assert j > n ==> r[j] == ms[j - 1] && (j > n + 1 ==> ms[n].priority <= ms[j - 1].priority);
    }
  }

  lemma InsertedElements(ms: seq<Mapping>, m: Mapping, n: nat)
    requires n <= |ms|
    ensures multiset(ms[..n] + [m] + ms[n..]) == multiset(ms) + multiset{m}
  {
    assert ms == ms[..n] + ms[n..];
  }

  /** Where a mapping goes into an ordered list. */
  method Insert(ms: seq<Mapping>, m: Mapping) returns (r: seq<Mapping>)
    requires ByPriority(ms)
    ensures ByPriority(r)
    ensures multiset(r) == multiset(ms) + multiset{m}
  {
    var n := |ms|;
    while n > 0 && ms[n - 1].priority > m.priority
      invariant 0 <= n <= |ms|
      invariant n < |ms| ==> m.priority < ms[n].priority
    {
      n := n - 1;
    }
    InsertedOrdered(ms, m, n);
    InsertedElements(ms, m, n);
    r := ms[..n] + [m] + ms[n..];
  }

  /** sort.Slice: nothing but the order and the elements of the result is known to the caller. */
  method SortByPriority(ms: seq<Mapping>) returns (r: seq<Mapping>)
    ensures ByPriority(r)
    ensures multiset(r) == multiset(ms)
  {
    r := [];
    for n := 0 to |ms|
      invariant ByPriority(r)
      invariant multiset(r) == multiset(ms[..n])
    {
      assert ms[..n + 1] == ms[..n] + [ms[n]];
      r := Insert(r, ms[n]);
    }
    assert ms[..|ms|] == ms;
  }

  /** The matching mappings, in order of priority. */
  method MatchingByPriority(mappings: seq<Mapping>, node: Node) returns (r: seq<Mapping>)
    ensures ByPriority(r)
    ensures forall i :: 0 <= i < |r| ==> r[i] in mappings && Matches(r[i], node)
    ensures forall m :: m in mappings && Matches(m, node) ==> m in r
  {
    var matching: seq<Mapping> := [];
    for n := 0 to |mappings|
      invariant forall m :: m in matching <==> m in mappings[..n] && Matches(m, node)
    {
      assert mappings[..n + 1] == mappings[..n] + [mappings[n]];
      var ok := MappingMatches(mappings[n], node);
      if ok {
        matching := matching + [mappings[n]];
      }
    }
    assert mappings[..|mappings|] == mappings;
    r := SortByPriority(matching);
    assert forall m :: m in r <==> m in multiset(r);
    assert forall i :: 0 <= i < |r| ==> r[i] in r;
    assert forall m :: m in matching <==> m in multiset(matching);
  }

  // ----- The configuration of a node --------------------------------------

  /** What a mapping that applies to the node asks for. */
  datatype Setting = Setting(priority: int, fields: Fields)

  /** The fields of the configurations of the mappings, at this moment. */
  ghost function Contents(mappings: seq<Mapping>): (cs: seq<Option<Fields>>)
    reads set m | m in mappings && m.config != null :: m.config
    ensures |cs| == |mappings|
    ensures forall i :: 0 <= i < |cs| ==> cs[i] == FieldsOf(mappings[i].config)
  {
    seq(|mappings|, i requires 0 <= i < |mappings| reads set m | m in mappings && m.config != null :: m.config =>
      FieldsOf(mappings[i].config))
  }

  ghost function FieldsOf(config: VirtletConfig?): Option<Fields>
    reads if config == null then {} else {config}
  {
    if config == null then None else Some(config.fields)
  }

  function Settings(mappings: seq<Mapping>, contents: seq<Option<Fields>>, node: Node): set<Setting>
    requires |contents| == |mappings|
  {
    set i | 0 <= i < |mappings| && Matches(mappings[i], node) && contents[i].Some? ::
      Setting(mappings[i].priority, contents[i].value)
  }

  predicate Setter(settings: set<Setting>, f: nat, s: Setting)
    requires f < SIZE
  {
    s in settings && s.fields[f].Some?
  }

  predicate TopSetter(settings: set<Setting>, f: nat, s: Setting)
    requires f < SIZE
  {
    Setter(settings, f, s) && forall s' :: s' in settings && Setter(settings, f, s') ==> s'.priority <= s.priority
  }

  /** The value that the field should have: local, else of the top priority, else the default. */
  ghost predicate Proper(settings: set<Setting>, local: Option<Fields>, defaults: Fields, f: nat, v: Option<Value>)
    requires f < SIZE
  {
    if local.Some? && local.value[f].Some? then v == local.value[f]
    else if exists s :: Setter(settings, f, s) then exists s :: TopSetter(settings, f, s) && v == s.fields[f]
    else v == defaults[f]
  }

  /** The layers over the defaults: the settings from the lowest priority up, then the local configuration. */
  function NodeLayers(sorted: seq<Setting>, local: Option<Fields>): (ls: seq<Fields>)
    ensures |ls| == |sorted| + (if local.None? then 0 else 1)
    ensures forall i :: 0 <= i < |sorted| ==> ls[i] == sorted[i].fields
    ensures local.Some? ==> ls[|sorted|] == local.value
  {
    var mapped: seq<Fields> := seq(|sorted|, i requires 0 <= i < |sorted| => sorted[i].fields);
    if local.None? then mapped else mapped + [local.value]
  }

  lemma LastIsTop(sorted: seq<Setting>, local: Option<Fields>, f: nat, i: nat)
    requires forall i, j :: 0 <= i < j < |sorted| ==> sorted[i].priority <= sorted[j].priority
    requires f < SIZE && i < |sorted| && SetLast(NodeLayers(sorted, local), f, i)
    ensures TopSetter(ToSet(sorted), f, sorted[i])
  {
    forall s' | s' in ToSet(sorted) && Setter(ToSet(sorted), f, s') ensures s'.priority <= sorted[i].priority {
      var j :| 0 <= j < |sorted| && sorted[j] == s';
      assert NodeLayers(sorted, local)[j][f].Some?;
    }
  }

  lemma NoLayerNoSetter(sorted: seq<Setting>, local: Option<Fields>, f: nat, s: Setting)
    requires f < SIZE
    requires forall i :: 0 <= i < |NodeLayers(sorted, local)| ==> NodeLayers(sorted, local)[i][f].None?
    ensures !Setter(ToSet(sorted), f, s)
  {
    if s in sorted {
      var j :| 0 <= j < |sorted| && sorted[j] == s;
      assert NodeLayers(sorted, local)[j][f].None?;
    }
  }

  /** The stack of the layers has the proper value in every field. */
  lemma StackProper(sorted: seq<Setting>, local: Option<Fields>, bottom: Fields, f: nat)
    requires f < SIZE && AllSet(bottom)
    requires forall i, j :: 0 <= i < j < |sorted| ==> sorted[i].priority <= sorted[j].priority
    ensures Proper(ToSet(sorted), local, bottom, f, Stack(bottom, NodeLayers(sorted, local))[f])
    ensures Stack(bottom, NodeLayers(sorted, local))[f].Some?
  {
    var layers := NodeLayers(sorted, local);
    StackAt(bottom, layers, f);
    if i: nat :| SetLast(layers, f, i) && Stack(bottom, layers)[f] == layers[i][f] {
      if i < |sorted| {
        LastIsTop(sorted, local, f, i);
      }
    } else {
      forall s ensures !Setter(ToSet(sorted), f, s) {
        NoLayerNoSetter(sorted, local, f, s);
      }
    }
  }

  /** The configurations of the mappings, in order. */
  method ConfigsOf(sorted: seq<Mapping>) returns (configs: seq<VirtletConfig>)
    requires forall i :: 0 <= i < |sorted| ==> sorted[i].config != null
    ensures |configs| == |sorted|
    ensures forall i :: 0 <= i < |sorted| ==> configs[i] == sorted[i].config
  {
    configs := [];
    for n := 0 to |sorted|
      invariant |configs| == n
      invariant forall i :: 0 <= i < n ==> configs[i] == sorted[i].config
    {
      configs := configs + [sorted[n].config];
    }
  }

  /** What the sorted mappings ask for, in order. */
  ghost function Asked(sorted: seq<Mapping>, configs: seq<VirtletConfig>): (ss: seq<Setting>)
    requires |configs| == |sorted|
    reads configs
    ensures |ss| == |sorted|
    ensures forall i :: 0 <= i < |sorted| ==> ss[i] == Setting(sorted[i].priority, configs[i].fields)
  {
    seq(|sorted|, i requires 0 <= i < |sorted| reads configs => Setting(sorted[i].priority, configs[i].fields))
  }

  lemma AskedAreSettings(mappings: seq<Mapping>, node: Node, sorted: seq<Mapping>, configs: seq<VirtletConfig>)
    requires |configs| == |sorted|
    requires forall i :: 0 <= i < |sorted| ==> sorted[i] in mappings && Matches(sorted[i], node)
    requires forall i :: 0 <= i < |sorted| ==> configs[i] == sorted[i].config
    requires forall m :: m in mappings && Matches(m, node) ==> m in sorted
    ensures ToSet(Asked(sorted, configs)) == Settings(mappings, Contents(mappings), node)
  {
    var asked, settings := Asked(sorted, configs), Settings(mappings, Contents(mappings), node);
    forall s | s in asked ensures s in settings {
      var i :| 0 <= i < |asked| && asked[i] == s;
      var j :| 0 <= j < |mappings| && mappings[j] == sorted[i];
      assert s == Setting(mappings[j].priority, Contents(mappings)[j].value);
    }
    forall s | s in settings ensures s in asked {
      var j :| 0 <= j < |mappings| && Matches(mappings[j], node) && Contents(mappings)[j].Some?
               && s == Setting(mappings[j].priority, Contents(mappings)[j].value);
      assert mappings[j] in sorted;
      var i :| 0 <= i < |sorted| && sorted[i] == mappings[j];
      assert asked[i] == s;
    }
  }

  function WithLocal(configs: seq<VirtletConfig>, local: VirtletConfig?): seq<VirtletConfig> {
    if local == null then configs else configs + [local]
  }

  lemma LayersAgree(c: VirtletConfig, sorted: seq<Mapping>, configs: seq<VirtletConfig>, local: VirtletConfig?)
    requires |configs| == |sorted|
    requires c !in configs && c != local
    ensures LayersOver(c, WithLocal(configs, local)) == NodeLayers(Asked(sorted, configs), FieldsOf(local))
  {
  }

  /** Every field is set, to its proper value. */
  ghost predicate Resolved(settings: set<Setting>, local: Option<Fields>, defaults: Fields, fields: Fields) {
    AllSet(fields) && forall f :: 0 <= f < SIZE ==> Proper(settings, local, defaults, f, fields[f])
  }

  lemma StackResolved(sorted: seq<Setting>, local: Option<Fields>, bottom: Fields)
    requires forall i, j :: 0 <= i < j < |sorted| ==> sorted[i].priority <= sorted[j].priority
    requires AllSet(bottom)
    ensures Resolved(ToSet(sorted), local, bottom, Stack(bottom, NodeLayers(sorted, local)))
  {
    forall f | 0 <= f < SIZE
      ensures Proper(ToSet(sorted), local, bottom, f, Stack(bottom, NodeLayers(sorted, local))[f])
              && Stack(bottom, NodeLayers(sorted, local))[f].Some?
    {
      StackProper(sorted, local, bottom, f);
    }
  }

  lemma MergedResolved(c: VirtletConfig, mappings: seq<Mapping>, sorted: seq<Mapping>, configs: seq<VirtletConfig>,
                       local: VirtletConfig?, node: Node)
    requires AllSet(c.fields) && c != local && c !in configs
    requires ByPriority(sorted) && |configs| == |sorted|
    requires forall i :: 0 <= i < |sorted| ==> sorted[i] in mappings && Matches(sorted[i], node)
    requires forall i :: 0 <= i < |sorted| ==> configs[i] == sorted[i].config
    requires forall m :: m in mappings && Matches(m, node) ==> m in sorted
    ensures Resolved(Settings(mappings, Contents(mappings), node), FieldsOf(local), c.fields,
                     Stack(c.fields, LayersOver(c, WithLocal(configs, local))))
  {
    AskedAreSettings(mappings, node, sorted, configs);
    LayersAgree(c, sorted, configs, local);
    StackResolved(Asked(sorted, configs), FieldsOf(local), c.fields);
  }

  /** The configurations that configForNode puts over the defaults in `c`. */
  method ConfigsOver(ghost c: VirtletConfig, mappings: seq<Mapping>, local: VirtletConfig?, node: Node)
    returns (rest: seq<VirtletConfig>)
    requires AllSet(c.fields) && c != local
    requires forall i :: 0 <= i < |mappings| ==> mappings[i].config != c
    ensures Resolved(Settings(mappings, Contents(mappings), node), FieldsOf(local), c.fields,
                     Stack(c.fields, LayersOver(c, rest)))
  {
    var sorted := MatchingByPriority(mappings, node);
    var configs := ConfigsOf(sorted);
    MergedResolved(c, mappings, sorted, configs, local, node);
    rest := WithLocal(configs, local);
  }

  /** The part of configForNode after the defaults: everything is merged into the given configuration. */
  method MergeOver(c: VirtletConfig, mappings: seq<Mapping>, local: VirtletConfig?, node: Node)
    returns (cfg: VirtletConfig)
    requires AllSet(c.fields) && c != local
    requires forall i :: 0 <= i < |mappings| ==> mappings[i].config != c
    modifies c
    ensures cfg == c
    ensures Resolved(Settings(mappings, Contents(mappings), node), FieldsOf(local), old(c.fields), c.fields)
  {
    var rest := ConfigsOver(c, mappings, local, node);
    ghost var layers, contents := LayersOver(c, rest), Contents(mappings);
    var all: seq<VirtletConfig> := [c] + rest;
    assert all[0] == c && all[1..] == rest;
    cfg := MergeConfigs(all);
    assert c.fields == Stack(old(c.fields), layers);
    assert Contents(mappings) == contents;
  }

  /**
   * configForNode: a fresh configuration with every field set to its proper
   * value; the configurations of the mappings and the local one are not
   * changed.
   */
  method ConfigForNode(mappings: seq<Mapping>, local: VirtletConfig?, node: Node) returns (cfg: VirtletConfig)
    ensures fresh(cfg)
    ensures exists defaults :: AreDefaults(defaults)
              && Resolved(Settings(mappings, Contents(mappings), node), FieldsOf(local), defaults, cfg.fields)
  {
    var c := GetDefaultConfig();
    cfg := MergeOver(c, mappings, local, node);
  }
}
