/** The plugin service of Chart.js: a global list of plugins, and for each chart a cached list of
    descriptors that is valid as long as its id is the service's. */
module PluginCache {
  import opened Wrappers

  /** A plugin object; `ref` tells objects with the same id apart. */
  datatype Plugin = Plugin(ref: nat, id: string)

  /** A chart's `options.plugins[id]`: undefined, false, true, or an options object. */
  datatype Setting<+O> = Missing | Disabled | Default | Given(options: O)

  /** `options` is None for the empty object. */
  datatype Descriptor<+O> = Descriptor(plugin: Plugin, options: Option<O>)

  type Settings<O> = map<string, Setting<O>>

  function SettingOf<O>(settings: Settings<O>, id: string): Setting<O> {
    if id in settings then settings[id] else Missing
  }

  function Resolve<O>(settings: Settings<O>, defaults: map<string, O>, id: string): Option<O> {
    match SettingOf(settings, id)
    case Given(o) => Some(o)
    case Default => if id in defaults then Some(defaults[id]) else None
    case _ => None
  }

  function Plugins<O>(ds: seq<Descriptor<O>>): (r: seq<Plugin>)
    ensures |r| == |ds| && forall i :: 0 <= i < |r| ==> r[i] == ds[i].plugin
  {
    seq(|ds|, i requires 0 <= i < |ds| => ds[i].plugin)
  }

  /** The descriptors a chart with these settings is to have. */
  function Describe<O>(all: seq<Plugin>, settings: Settings<O>, defaults: map<string, O>): seq<Descriptor<O>> {
    if all == [] then []
    else
      var before := Describe(all[..|all| - 1], settings, defaults);
      var p := all[|all| - 1];
      if p in Plugins(before) || SettingOf(settings, p.id) == Disabled then before
      else before + [Descriptor(p, Resolve(settings, defaults, p.id))]
  }

  /** Position of the first occurrence. */
  function First(all: seq<Plugin>, p: Plugin): (i: nat)
    requires p in all
    ensures i < |all| && all[i] == p && p !in all[..i]
  {
    if all[0] == p then 0 else 1 + First(all[1..], p)
  }

  lemma {:induction false} FirstPrefix(a: seq<Plugin>, q: Plugin, p: Plugin)
    requires p in a
    ensures First(a + [q], p) == First(a, p)
  {
    if a[0] != p {
      assert (a + [q])[1..] == a[1..] + [q];
      FirstPrefix(a[1..], q, p);
    }
  }

  /** A plugin gets the options object that is given for it, the defaults for its id if it is just switched on, and the
      empty object if neither is there. */
  ghost predicate HasOptions<O>(d: Descriptor<O>, settings: Settings<O>, defaults: map<string, O>) {
    var id := d.plugin.id;
    && (id in settings && settings[id].Given? ==> d.options == Some(settings[id].options))
    && (id in settings && settings[id] == Default ==>
          d.options == if id in defaults then Some(defaults[id]) else None)
    && (id !in settings || settings[id] == Missing ==> d.options == None)
  }

  /** Exactly the enabled plugins are described, with the options that apply to them. */
  lemma {:induction false} DescribesEnabled<O>(all: seq<Plugin>, settings: Settings<O>, defaults: map<string, O>)
    ensures var ds := Describe(all, settings, defaults);
      && (forall p :: p in Plugins(ds) <==> p in all && SettingOf(settings, p.id) != Disabled)
      && (forall d :: d in ds ==> d.plugin in Plugins(ds) && HasOptions(d, settings, defaults))
  {
    if all != [] {
      var front, p := all[..|all| - 1], all[|all| - 1];
      assert all == front + [p];
      DescribesEnabled(front, settings, defaults);
      var before, ds := Describe(front, settings, defaults), Describe(all, settings, defaults);
      assert ds != before ==> Plugins(ds) == Plugins(before) + [p];
    }
  }

  /** The plugins of `s` come in the order in which they first occur in `was`. */
  ghost predicate InOrderOf(was: seq<Plugin>, s: seq<Plugin>) {
    && (forall i :: 0 <= i < |s| ==> s[i] in was)
    && forall i, j :: 0 <= i < j < |s| ==> First(was, s[i]) < First(was, s[j])
  }

  lemma OrderKept(all: seq<Plugin>, p: Plugin, s: seq<Plugin>)
    requires InOrderOf(all, s)
    ensures InOrderOf(all + [p], s)
  {
    forall q | q in s ensures q in all && First(all + [p], q) == First(all, q) {
      FirstPrefix(all, p, q);
    }
  }

  lemma NewLast(all: seq<Plugin>, p: Plugin, s: seq<Plugin>)
    requires InOrderOf(all, s) && p !in all
    ensures InOrderOf(all + [p], s + [p])
  {
    OrderKept(all, p, s);
    assert First(all + [p], p) == |all|;
    forall q | q in s ensures q in all && First(all + [p], q) < |all| {
      FirstPrefix(all, p, q);
    }
  }

  /** They are described in the order of their first occurrence, hence each once. */
  lemma {:induction false} DescribesInOrder<O>(all: seq<Plugin>, settings: Settings<O>, defaults: map<string, O>)
    ensures InOrderOf(all, Plugins(Describe(all, settings, defaults)))
  {
    if all != [] {
      var front, p := all[..|all| - 1], all[|all| - 1];
      assert all == front + [p];
      DescribesInOrder(front, settings, defaults);
      DescribesEnabled(front, settings, defaults);
      var before, ps := Plugins(Describe(front, settings, defaults)), Plugins(Describe(all, settings, defaults));
      if p in before || SettingOf(settings, p.id) == Disabled {
        OrderKept(front, p, before);
      } else {
        assert ps == before + [p];
        NewLast(front, p, before);
      }
    }
  }

  /** The plugins of `s` are those of `all`, in the order of their first occurrence. */
  ghost predicate Registered(all: seq<Plugin>, s: seq<Plugin>) {
    InOrderOf(all, s) && forall q :: q in s <==> q in all
  }

  /** Registering one more plugin keeps the order of first occurrence. */
  lemma RegisterNext(all: seq<Plugin>, p: Plugin, s: seq<Plugin>)
    requires Registered(all, s)
    ensures Registered(all + [p], if p in s then s else s + [p])
  {
    if p in s {
      OrderKept(all, p, s);
    } else {
      NewLast(all, p, s);
    }
  }

  /** The plugins with those of `ps` that are not among them yet. */
  function WithNew(own: seq<Plugin>, ps: seq<Plugin>): seq<Plugin> {
    if ps == [] then own
    else
      var before, p := WithNew(own, ps[..|ps| - 1]), ps[|ps| - 1];
      if p in before then before else before + [p]
  }

  lemma {:induction false} NewAppended(own: seq<Plugin>, ps: seq<Plugin>)
    requires NoDuplicates(own)
    ensures NoDuplicates(WithNew(own, ps)) && own <= WithNew(own, ps)
  {
    if ps != [] {
      NewAppended(own, ps[..|ps| - 1]);
    }
  }

  lemma {:induction false} NewRegistered(own: seq<Plugin>, ps: seq<Plugin>, all: seq<Plugin>)
    requires Registered(own, own) && all == own + ps
    ensures Registered(all, WithNew(own, ps))
  {
    if ps == [] {
      assert all == own;
    } else {
      var front, p := ps[..|ps| - 1], ps[|ps| - 1];
      var before := own + front;
      NewRegistered(own, front, before);
      assert all == before + [p];
      RegisterNext(before, p, WithNew(own, front));
    }
  }

  datatype Cache<+O> = Cache(id: nat, descriptors: seq<Descriptor<O>>)

  /** The part of a chart's configuration that decides on its plugins. */
  datatype Config<O> = Config(plugins: seq<Plugin>, settings: Settings<O>)

  /** A chart: its configuration and its `$plugins`, and the configuration at the time its cache was filled. */
  class Chart<O> {
    var config: Config<O>
    var cache: Option<Cache<O>>
    ghost var described: Config<O>

    constructor (config: Config<O>)
      ensures this.config == config && cache == None
    {
      this.config, cache, described := config, None, config;
    }
  }

  ghost predicate NoDuplicates(s: seq<Plugin>) {
    forall i, j :: 0 <= i < j < |s| ==> s[i] != s[j]
  }

  class PluginService<O> {
    var plugins: seq<Plugin>
    var cacheId: nat
    const defaults: map<string, O>
    /** The charts that use this service. */
    ghost var charts: set<Chart<O>>

    ghost function DescriptorsOf(config: Config<O>): seq<Descriptor<O>>
      reads this`plugins
    {
      Describe(plugins + config.plugins, config.settings, defaults)
    }

    predicate Cached(chart: Chart<O>)
      reads this`cacheId, chart`cache
    {
      chart.cache.Some? && chart.cache.value.id == cacheId
    }

    ghost predicate Coherent(chart: Chart<O>)
      reads this, chart
    {
      && (chart.cache.Some? ==> chart.cache.value.id <= cacheId)
      && (Cached(chart) ==> chart.cache.value.descriptors == DescriptorsOf(chart.described))
    }

    /** What the service would hand out for the chart is for its present configuration. */
    ghost predicate Current(chart: Chart<O>)
      reads this, chart
    {
      Cached(chart) ==> chart.described == chart.config
    }

    ghost predicate Valid()
      reads this, charts
    {
      NoDuplicates(plugins) && forall c :: c in charts ==> Coherent(c)
    }

    constructor (defaults: map<string, O>)
      ensures Valid() && plugins == [] && charts == {} && this.defaults == defaults
    {
      plugins, cacheId, charts := [], 0, {};
      this.defaults := defaults;
    }

    method Register(ps: seq<Plugin>)
      requires Valid()
      modifies this`plugins, this`cacheId
      ensures Valid() && cacheId > old(cacheId) && forall c :: c in charts ==> Current(c)
      ensures old(plugins) <= plugins && Registered(old(plugins) + ps, plugins)
    {
      for i := 0 to |ps|
        invariant plugins == WithNew(old(plugins), ps[..i]) && cacheId == old(cacheId)
      {
        assert ps[..i + 1][..i] == ps[..i];
        if ps[i] !in plugins {
          plugins := plugins + [ps[i]];
        }
      }
      assert ps[..|ps|] == ps;
      OwnOrder(old(plugins));
      NewAppended(old(plugins), ps);
      NewRegistered(old(plugins), ps, old(plugins) + ps);
      cacheId := cacheId + 1;
    }

    method Unregister(ps: seq<Plugin>)
      requires Valid()
      modifies this`plugins, this`cacheId
      ensures Valid() && cacheId > old(cacheId) && forall c :: c in charts ==> Current(c)
      ensures forall p :: p in plugins <==> p in old(plugins) && p !in ps
      ensures InOrderOf(old(plugins), plugins)
    {
      OwnOrder(plugins);
      for i := 0 to |ps|
        invariant NoDuplicates(plugins) && cacheId == old(cacheId)
        invariant forall p :: p in plugins <==> p in old(plugins) && p !in ps[..i]
        invariant InOrderOf(old(plugins), plugins)
      {
        assert ps[..i + 1] == ps[..i] + [ps[i]];
        if ps[i] in plugins {
          var idx := First(plugins, ps[i]);
          RemoveAt(plugins, idx);
          RemovalKeepsOrder(old(plugins), plugins, idx);
          plugins := plugins[..idx] + plugins[idx + 1..];
        }
      }
      cacheId := cacheId + 1;
    }

    method Clear()
      requires Valid()
      modifies this`plugins, this`cacheId
      ensures Valid() && cacheId > old(cacheId) && plugins == [] && forall c :: c in charts ==> Current(c)
    {
      plugins := [];
      cacheId := cacheId + 1;
    }

    /** A chart that never asked for its plugins begins to use the service. */
    ghost method Attach(chart: Chart<O>)
      requires Valid() && chart.cache == None
      modifies this`charts
      ensures Valid() && charts == old(charts) + {chart} && Current(chart)
      ensures forall c :: c in old(charts) && old(Current(c)) ==> Current(c)
    {
      charts := charts + {chart};
    }

    /** The user replaces plugins or plugin options of a chart; nobody tells the service. */
    method Reconfigure(chart: Chart<O>, config: Config<O>)
      requires Valid() && chart in charts
      modifies chart`config
      ensures Valid() && chart.config == config
      ensures forall c :: c in charts && c != chart && old(Current(c)) ==> Current(c)
    {
      chart.config := config;
    }

    method Invalidate(chart: Chart<O>)
      requires Valid() && chart in charts
      modifies chart`cache
      ensures Valid() && chart.cache == None && Current(chart)
      ensures forall c :: c in charts && old(Current(c)) ==> Current(c)
    {
      chart.cache := None;
    }

    /** The descriptors of a chart are those of the plugins registered now. A filled cache stands for the configuration
        it was filled with, any other is filled for the configuration of now. */
    method Descriptors(chart: Chart<O>) returns (descriptors: seq<Descriptor<O>>)
      requires Valid() && chart in charts
      modifies chart`cache, chart`described
      ensures Valid() && chart.cache == Some(Cache(cacheId, descriptors))
      ensures chart.described == if old(Cached(chart)) then old(chart.described) else chart.config
      ensures descriptors == DescriptorsOf(chart.described)
      ensures old(Current(chart)) ==> descriptors == DescriptorsOf(chart.config)
      ensures forall c :: c in charts && old(Current(c)) ==> Current(c)
    {
      if chart.cache.Some? && chart.cache.value.id == cacheId {
        return chart.cache.value.descriptors;
      }
      var all := plugins + chart.config.plugins;
      var seen := [];
      descriptors := [];
      for i := 0 to |all|
        invariant descriptors == Describe(all[..i], chart.config.settings, defaults) && seen == Plugins(descriptors)
      {
        var plugin := all[i];
        assert all[..i + 1][..i] == all[..i];
        if plugin !in seen && SettingOf(chart.config.settings, plugin.id) != Disabled {
          seen := seen + [plugin];
          descriptors := descriptors + [Descriptor(plugin, Resolve(chart.config.settings, defaults, plugin.id))];
        }
      }
      assert all[..|all|] == all;
      chart.cache := Some(Cache(cacheId, descriptors));
      chart.described := chart.config;
    }

    /** A changed chart is updated: its cache is invalidated before its plugins are asked, so that they are those of the
        new configuration. */
    method Update(chart: Chart<O>, config: Config<O>) returns (descriptors: seq<Descriptor<O>>)
      requires Valid() && chart in charts
      modifies chart
      ensures Valid() && chart.config == config && Current(chart)
      ensures descriptors == DescriptorsOf(config)
      ensures forall c :: c in charts && old(Current(c)) ==> Current(c)
    {
      Reconfigure(chart, config);
      Invalidate(chart);
      descriptors := Descriptors(chart);
    }
  }

  lemma RemoveAt(s: seq<Plugin>, k: nat)
    requires k < |s| && NoDuplicates(s)
    ensures var r := s[..k] + s[k + 1..];
      NoDuplicates(r) && forall p :: p in r <==> p in s && p != s[k]
  {
    var r := s[..k] + s[k + 1..];
    forall i, j | 0 <= i < j < |r| ensures r[i] != r[j] {
      var i', j' := if i < k then i else i + 1, if j < k then j else j + 1;
      assert r[i] == s[i'] && r[j] == s[j'];
    }
    forall p | p in s && p != s[k] ensures p in r {
      var i :| 0 <= i < |s| && s[i] == p;
      assert r[if i < k then i else i - 1] == p;
    }
  }

  lemma OwnOrder(s: seq<Plugin>)
    requires NoDuplicates(s)
    ensures InOrderOf(s, s)
  {
    assert forall i :: 0 <= i < |s| ==> First(s, s[i]) == i;
  }

  lemma RemovalKeepsOrder(was: seq<Plugin>, s: seq<Plugin>, k: nat)
    requires k < |s| && InOrderOf(was, s)
    ensures InOrderOf(was, s[..k] + s[k + 1..])
  {
    var r := s[..k] + s[k + 1..];
    forall i | 0 <= i < |r| ensures r[i] in was {
      assert r[i] == s[if i < k then i else i + 1];
    }
    forall i, j | 0 <= i < j < |r| ensures First(was, r[i]) < First(was, r[j]) {
      var i', j' := if i < k then i else i + 1, if j < k then j else j + 1;
      assert r[i] == s[i'] && r[j] == s[j'];
    }
  }
}
