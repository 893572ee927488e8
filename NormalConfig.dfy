/** The default configuration package (`@wxparcel-config/normal`): the
    JavaScript rules, the WXSS rules and the plugins it starts with, and the
    `Config` object that reads and edits those three lists. */
module NormalConfig {
  import opened Wrappers
  import opened Typings

  /** A plugin instance: its class, by name, and an identity telling two
      instances of one class apart. */
  datatype Plugin = Plugin(cls: string, id: nat)

  /** What `delPlugin` is given: a plugin class or a plugin instance. */
  datatype PluginRef = ClassRef(cls: string) | InstanceRef(instance: Plugin)

  const BabelLoader := "wxparcel-loader-babel"
  const EnvifyLoader := "wxparcel-loader-envify"
  const UglifyJSLoader := "wxparcel-loader-uglifyjs"
  const SassLoader := "wxparcel-loader-sass"
  const CleanPlugin := "wxparcel-plugin-clean"
  const DevServerPlugin := "wxparcel-plugin-devserver"

  /** The three module-level lists. */
  datatype Lists = Lists(jsRules: seq<Rule>, wxssRules: seq<Rule>, plugins: seq<Plugin>)

  /** The loader appended to the JavaScript rule for test and production
      builds: it minifies bundler and scatter chunks only. */
  const Uglify := RuleLoader(UglifyJSLoader, [Bundler, Scatter], Some(map[]))

  predicate IsReleaseEnv(nodeEnv: string) {
    nodeEnv == "prerelease" || nodeEnv == "production"
  }

  /** The JavaScript rule for `NODE_ENV` value `nodeEnv` (`""` when unset):
      `.js` files through Babel, then Envify with `NODE_ENV` filled in, then
      UglifyJS in a release environment. */
  function JsRule(nodeEnv: string): Rule {
    var base := [RuleLoader(BabelLoader, [], None), RuleLoader(EnvifyLoader, [], Some(map["env.NODE_ENV" := nodeEnv]))];
    Rule(Pattern("\\.js$"), Some(".js"), if IsReleaseEnv(nodeEnv) then base + [Uglify] else base, [])
  }

  /** The WXSS rule: `.scss` files through Sass, written as `.wxss`. */
  const WxssRule := Rule(Pattern("\\.scss$"), Some(".wxss"), [RuleLoader(SassLoader, [], Some(map[]))], [])

  /** The lists when the module is loaded: one rule each, the clean plugin
      (identity 0), and the dev server (identity 1) in development. */
  function InitialLists(nodeEnv: string): Lists {
    var clean := [Plugin(CleanPlugin, 0)];
    Lists([JsRule(nodeEnv)], [WxssRule], if nodeEnv == "development" then clean + [Plugin(DevServerPlugin, 1)] else clean)
  }

  /** Some loader of `rule` is `use`. */
  predicate HasLoader(rule: Rule, use: string) {
    exists k :: 0 <= k < |rule.loaders| && rule.loaders[k].use == use
  }

  /** Some plugin of `plugins` is of class `cls`. */
  predicate HasPlugin(plugins: seq<Plugin>, cls: string) {
    exists k :: 0 <= k < |plugins| && plugins[k].cls == cls
  }

  /** UglifyJS is in the JavaScript rule exactly in a release environment,
      and then it is restricted to bundler and scatter chunks; the dev server
      is a plugin exactly in development, after the clean plugin. */
  lemma InitialListsSpec(nodeEnv: string)
    ensures var l := InitialLists(nodeEnv);
      |l.jsRules| == 1 && l.wxssRules == [WxssRule] && l.plugins[0] == Plugin(CleanPlugin, 0) &&
      (HasLoader(l.jsRules[0], UglifyJSLoader) <==> IsReleaseEnv(nodeEnv)) &&
      (forall k :: 0 <= k < |l.jsRules[0].loaders| && l.jsRules[0].loaders[k].use == UglifyJSLoader ==>
         l.jsRules[0].loaders[k].forTypes == [Bundler, Scatter]) &&
      (HasPlugin(l.plugins, DevServerPlugin) <==> nodeEnv == "development")
  {
    var l := InitialLists(nodeEnv);
    var loaders := l.jsRules[0].loaders;
    if IsReleaseEnv(nodeEnv) {
      assert loaders[2].use == UglifyJSLoader;
    } else {
      assert |loaders| == 2 && loaders[0].use == BabelLoader && loaders[1].use == EnvifyLoader;
    }
    if nodeEnv == "development" {
      assert l.plugins[1].cls == DevServerPlugin;
    } else {
      assert l.plugins == [Plugin(CleanPlugin, 0)];
    }
  }

  /** What the `rules` getter returns: the JavaScript rules, then the WXSS
      rules. */
  function AllRules(l: Lists): (r: seq<Rule>)
    ensures |r| == |l.jsRules| + |l.wxssRules|
    ensures forall k :: 0 <= k < |l.jsRules| ==> r[k] == l.jsRules[k]
    ensures forall k :: 0 <= k < |l.wxssRules| ==> r[|l.jsRules| + k] == l.wxssRules[k]
  {
    l.jsRules + l.wxssRules
  }

  /** `setRule(name, callback)` as written: `rules` is the stored array
      itself, which `splice(0)` empties before `callback` sees it, so the
      callback always receives `[]`. */
  function SetRuleAsWritten(l: Lists, name: string, callback: seq<Rule> -> seq<Rule>): Lists {
    if name == "js" then l.(jsRules := callback([]))
    else if name == "wxss" then l.(wxssRules := callback([]))
    else l
  }

  /** `setRule` handing the callback the rules it replaces. */
  function SetRuleIntended(l: Lists, name: string, callback: seq<Rule> -> seq<Rule>): (r: Lists)
    ensures name == "js" ==> r == l.(jsRules := callback(l.jsRules))
    ensures name == "wxss" ==> r == l.(wxssRules := callback(l.wxssRules))
    ensures name != "js" && name != "wxss" ==> r == l
  {
    if name == "js" then l.(jsRules := callback(l.jsRules))
    else if name == "wxss" then l.(wxssRules := callback(l.wxssRules))
    else l
  }

  /** As written, the new rules do not depend on the old ones: the same
      callback gives the same list whatever was stored, and a callback that
      keeps what it is given clears the list. */
  lemma SetRuleIgnoresCurrent(l: Lists, m: Lists, callback: seq<Rule> -> seq<Rule>)
    requires forall rs :: callback(rs) == rs
    ensures SetRuleAsWritten(l, "js", callback).jsRules == SetRuleAsWritten(m, "js", callback).jsRules == []
    ensures SetRuleAsWritten(l, "wxss", callback).wxssRules == []
    ensures l.jsRules != [] ==> SetRuleAsWritten(l, "js", callback) != l
  {
    assert callback([]) == [];
  }

  /** With the intended behavior a callback that keeps its argument keeps
      the configuration, and one that appends a rule adds exactly that rule;
      only the named list changes, and an unknown name changes nothing. */
  lemma SetRuleIntendedSpec(l: Lists, name: string, rule: Rule, keep: seq<Rule> -> seq<Rule>, append: seq<Rule> -> seq<Rule>)
    requires forall rs :: keep(rs) == rs
    requires forall rs :: append(rs) == rs + [rule]
    ensures SetRuleIntended(l, name, keep) == l
    ensures name == "js" ==> AllRules(SetRuleIntended(l, name, append)) == l.jsRules + [rule] + l.wxssRules
    ensures name == "wxss" ==> AllRules(SetRuleIntended(l, name, append)) == AllRules(l) + [rule]
    ensures SetRuleIntended(l, name, append).plugins == l.plugins
  {
    if name == "js" {
      assert keep(l.jsRules) == l.jsRules;
    } else if name == "wxss" {
      assert keep(l.wxssRules) == l.wxssRules;
      assert l.jsRules + (l.wxssRules + [rule]) == l.jsRules + l.wxssRules + [rule];
    }
  }

  /** `item === plugin` for a class, `item.constructor === plugin.constructor`
      for an instance, as written: an instance in the list is never the
      class object itself. */
  predicate MatchesAsWritten(item: Plugin, target: PluginRef) {
    match target
    case ClassRef(_) => false
    case InstanceRef(p) => item.cls == p.cls
  }

  /** The match `delPlugin` evidently means: an instance of the class given,
      or of the class of the instance given. */
  predicate MatchesIntended(item: Plugin, target: PluginRef) {
    match target
    case ClassRef(c) => item.cls == c
    case InstanceRef(p) => item.cls == p.cls
  }

  /** `plugins.findIndex(...)` with matcher `matches`. */
  function FindIndex(plugins: seq<Plugin>, target: PluginRef, matches: (Plugin, PluginRef) -> bool): (i: int)
    ensures -1 <= i < |plugins|
    ensures i == -1 <==> forall k :: 0 <= k < |plugins| ==> !matches(plugins[k], target)
    ensures i >= 0 ==> matches(plugins[i], target) && forall k :: 0 <= k < i ==> !matches(plugins[k], target)
    decreases |plugins|
  {
    if plugins == [] then -1
    else if matches(plugins[0], target) then 0
    else
      var j := FindIndex(plugins[1..], target, matches);
      if j == -1 then -1 else j + 1
  }

  /** `index !== -1 && plugins.splice(index, 1)`. */
  function RemoveFirst(plugins: seq<Plugin>, target: PluginRef, matches: (Plugin, PluginRef) -> bool): seq<Plugin> {
    var i := FindIndex(plugins, target, matches);
    if i == -1 then plugins else plugins[..i] + plugins[i + 1..]
  }

  /** At most one plugin goes; with no match the list is unchanged. */
  lemma RemoveFirstSpec(plugins: seq<Plugin>, target: PluginRef, matches: (Plugin, PluginRef) -> bool)
    ensures |plugins| - 1 <= |RemoveFirst(plugins, target, matches)| <= |plugins|
    ensures (forall k :: 0 <= k < |plugins| ==> !matches(plugins[k], target)) ==> RemoveFirst(plugins, target, matches) == plugins
  {
  }

  /** The plugin that goes is the first that matches; the rest keep their
      order. */
  lemma RemoveFirstAt(plugins: seq<Plugin>, target: PluginRef, matches: (Plugin, PluginRef) -> bool, i: nat)
    requires i < |plugins| && matches(plugins[i], target)
    requires forall k :: 0 <= k < i ==> !matches(plugins[k], target)
    ensures RemoveFirst(plugins, target, matches) == plugins[..i] + plugins[i + 1..]
    ensures multiset(RemoveFirst(plugins, target, matches)) + multiset{plugins[i]} == multiset(plugins)
  {
    assert FindIndex(plugins, target, matches) == i;
    assert plugins == plugins[..i] + [plugins[i]] + plugins[i + 1..];
  }

  /** Removing by class as written never removes anything. */
  lemma DelPluginClassIsNoOp(plugins: seq<Plugin>, cls: string)
    ensures RemoveFirst(plugins, ClassRef(cls), MatchesAsWritten) == plugins
  {
  }

  /** The smallest case: the clean plugin is not removed by its class as
      written, and is removed with the intended match. */
  lemma DelPluginClassExample()
    ensures RemoveFirst([Plugin(CleanPlugin, 0)], ClassRef(CleanPlugin), MatchesAsWritten) == [Plugin(CleanPlugin, 0)]
    ensures RemoveFirst([Plugin(CleanPlugin, 0)], ClassRef(CleanPlugin), MatchesIntended) == []
  {
    assert MatchesIntended(Plugin(CleanPlugin, 0), ClassRef(CleanPlugin));
  }

  /** The number of plugins of class `cls`. */
  function CountClass(plugins: seq<Plugin>, cls: string): nat
    decreases |plugins|
  {
    if plugins == [] then 0 else (if plugins[0].cls == cls then 1 else 0) + CountClass(plugins[1..], cls)
  }

  lemma {:induction false} CountClassConcat(a: seq<Plugin>, b: seq<Plugin>, cls: string)
    ensures CountClass(a + b, cls) == CountClass(a, cls) + CountClass(b, cls)
    decreases |a|
  {
    if a != [] {
      assert (a + b)[1..] == a[1..] + b;
      CountClassConcat(a[1..], b, cls);
    } else {
      assert a + b == b;
    }
  }

  /** Taking out position `i` lowers the count of that plugin's class by
      one and leaves every other count. */
  lemma CountClassRemove(plugins: seq<Plugin>, i: nat, cls: string)
    requires i < |plugins|
    ensures CountClass(plugins[..i] + plugins[i + 1..], cls) == CountClass(plugins, cls) - (if plugins[i].cls == cls then 1 else 0)
  {
    var tail := [plugins[i]] + plugins[i + 1..];
    assert plugins == plugins[..i] + tail;
    assert tail[1..] == plugins[i + 1..];
    CountClassConcat(plugins[..i], tail, cls);
    CountClassConcat(plugins[..i], plugins[i + 1..], cls);
  }

  /** With the intended match, removing by class takes away exactly one
      plugin of that class when there is one, and no plugin of another
      class. */
  lemma DelPluginByClass(plugins: seq<Plugin>, cls: string, other: string)
    requires HasPlugin(plugins, cls) && other != cls
    ensures CountClass(RemoveFirst(plugins, ClassRef(cls), MatchesIntended), cls) == CountClass(plugins, cls) - 1
    ensures CountClass(RemoveFirst(plugins, ClassRef(cls), MatchesIntended), other) == CountClass(plugins, other)
  {
    var k :| 0 <= k < |plugins| && plugins[k].cls == cls;
    assert MatchesIntended(plugins[k], ClassRef(cls));
    var i := FindIndex(plugins, ClassRef(cls), MatchesIntended);
    assert i >= 0;
    assert plugins[i].cls == cls by {
      assert MatchesIntended(plugins[i], ClassRef(cls));
    }
    assert RemoveFirst(plugins, ClassRef(cls), MatchesIntended) == plugins[..i] + plugins[i + 1..];
    CountClassRemove(plugins, i, cls);
    CountClassRemove(plugins, i, other);
  }

  lemma {:induction false} FindIndexAppend(plugins: seq<Plugin>, p: Plugin, target: PluginRef, matches: (Plugin, PluginRef) -> bool)
    requires forall k :: 0 <= k < |plugins| ==> !matches(plugins[k], target)
    requires matches(p, target)
    ensures FindIndex(plugins + [p], target, matches) == |plugins|
  {
    var s := plugins + [p];
    assert s[|plugins|] == p;
    forall k | 0 <= k < |plugins| ensures !matches(s[k], target) {
      assert s[k] == plugins[k];
    }
  }

  /** A plugin added to a list holding no plugin of its class is the one
      `delPlugin` removes when given that plugin: the list comes back. */
  lemma AddThenDelPlugin(plugins: seq<Plugin>, p: Plugin)
    requires !HasPlugin(plugins, p.cls)
    ensures RemoveFirst(plugins + [p], InstanceRef(p), MatchesAsWritten) == plugins
    ensures RemoveFirst(plugins + [p], InstanceRef(p), MatchesIntended) == plugins
  {
    FindIndexAppend(plugins, p, InstanceRef(p), MatchesAsWritten);
    FindIndexAppend(plugins, p, InstanceRef(p), MatchesIntended);
    assert (plugins + [p])[..|plugins|] == plugins;
    assert (plugins + [p])[|plugins| + 1..] == [];
  }

  /** The exported `Config` object and the lists it edits. */
  class Config {
    var jsRules: seq<Rule>
    var wxssRules: seq<Rule>
    var plugins: seq<Plugin>

    /** Loading the module with `NODE_ENV` `nodeEnv`. */
    constructor (nodeEnv: string)
      ensures State() == InitialLists(nodeEnv)
    {
      var clean := [Plugin(CleanPlugin, 0)];
      jsRules, wxssRules, plugins := [JsRule(nodeEnv)], [WxssRule], clean;
      if nodeEnv == "development" {
        plugins := plugins + [Plugin(DevServerPlugin, 1)];
      }
    }

    function State(): Lists
      reads this
    {
      Lists(jsRules, wxssRules, plugins)
    }

    /** The `rules` getter: a new list of all the rules, JavaScript first. */
    function Rules(): (r: seq<Rule>)
      reads this
      ensures r == AllRules(State())
    {
      jsRules + wxssRules
    }

    /** `setRule(name, callback)`: the stored array is emptied and refilled
        with what the callback returns for that same, now empty, array. */
    method SetRule(name: string, callback: seq<Rule> -> seq<Rule>)
      modifies this
      ensures State() == SetRuleAsWritten(old(State()), name, callback)
    {
      if name == "js" {
        jsRules := [];
        jsRules := jsRules + callback(jsRules);
      } else if name == "wxss" {
        wxssRules := [];
        wxssRules := wxssRules + callback(wxssRules);
      }
    }

    /** `addPlugin(plugin)`: appended at the end. */
    method AddPlugin(plugin: Plugin)
      modifies this
      ensures State() == old(State()).(plugins := old(plugins) + [plugin])
    {
      plugins := plugins + [plugin];
    }

    /** `delPlugin(plugin)`: the first plugin that matches, as written, is
        spliced out. */
    method DelPlugin(target: PluginRef)
      modifies this
      ensures State() == old(State()).(plugins := RemoveFirst(old(plugins), target, MatchesAsWritten))
    {
      var index := FindIndex(plugins, target, MatchesAsWritten);
      if index != -1 {
        plugins := plugins[..index] + plugins[index + 1..];
      }
    }
  }
}
