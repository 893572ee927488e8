/** The first-generation option manager (`src/option-manager.js`): the
    folders, public path, rules and plugins of a build, the validation of
    the rules, the loading of `app.json`, and the read-only view `connect`
    hands out. */
module OptionManager {
  import opened Wrappers
  import opened Strings
  import opened Paths
  import opened Typings

  /** A rule's `test` as found: absent, falsy, a regular expression, or
      some other truthy value. */
  datatype RawTest = MissingTest | FalsyTest | RegExpTest(source: string) | OtherTest

  /** A loader entry `{ use? }`; `use` absent is `None`. */
  datatype RawLoader = RawLoader(use: Option<string>)

  /** A rule's `loaders` as found: absent, falsy, an array, or some other
      truthy value. */
  datatype RawLoaders = MissingLoaders | FalsyLoaders | LoaderArray(loaders: seq<RawLoader>) | OtherLoaders

  /** A rule as the user wrote it. */
  datatype RawRule = RawRule(test: RawTest, loaders: RawLoaders)

  /** The user's options; `None` is an absent key. */
  datatype Options = Options(
    src: Option<string>,
    output: Option<string>,
    staticFolder: Option<string>,  // the `static` key
    tmpl: Option<string>,
    publicPath: Option<string>,
    nodeModuleDirectoryName: Option<string>,
    rules: Option<seq<RawRule>>,
    plugins: Option<seq<string>>,
    watch: bool,
    silence: bool)

  /** What `resolve` throws. */
  datatype Thrown = TypeError(message: string) | Error(message: string)

  /** `value || fallback` for an optional string. */
  function Or(value: Option<string>, fallback: string): (r: string)
    ensures Truthy(value) ==> r == value.value
    ensures !Truthy(value) ==> r == fallback
  {
    if Truthy(value) then value.value else fallback
  }

  /** `path.join(rootDir, given || fallback)`. */
  function Folder(root: string, given: Option<string>, fallback: string): string {
    Join(root, Or(given, fallback))
  }

  /** `/https?:\/\//.test(p)`. */
  predicate IsRemote(p: string) {
    Contains(p, "http://") || Contains(p, "https://")
  }

  /** The public path `resolve` stores: the given one, else
      `http://<ip>:<idle port>`. */
  function PubPath(options: Options, ipAddress: string, idlePort: nat): string {
    Or(options.publicPath, "http://" + ipAddress + ":" + NatToString(idlePort))
  }

  /** The default public path always passes the remote check; only a
      given `publicPath` can fail it. */
  lemma DefaultPubPathIsRemote(options: Options, ipAddress: string, idlePort: nat)
    requires !Truthy(options.publicPath)
    ensures IsRemote(PubPath(options, ipAddress, idlePort))
  {
    var p := "http://" + ipAddress + ":" + NatToString(idlePort);
    assert p == "http://" + (ipAddress + ":" + NatToString(idlePort));
    IndexOfPrefix(p, "http://");
  }

  const TipsPrefix := ", please check this rule:\n"

  /** A rule failure: the reason, then the rule (`tips` stands for the
      `JSON.stringify` rendering of `{ rule }`). */
  function RuleMessage(reason: string, rule: RawRule, tips: RawRule -> string): string {
    reason + TipsPrefix + tips(rule)
  }

  const TestNotProvided := "Option test is not provided"
  const TestNotRegExp := "Option test is not a regexp"
  const LoadersNotProvided := "Option loaders is not provied"
  const LoadersNotArray := "Option loaders is not a array"
  const UseNotProvided := "Options use is not a provided"

  /** The checks of one rule, in the order they are made; `None` when the
      rule passes them all. */
  function RuleError(rule: RawRule, tips: RawRule -> string): Option<string> {
    if rule.test.MissingTest? || rule.test.FalsyTest? then Some(RuleMessage(TestNotProvided, rule, tips))
    else if !rule.test.RegExpTest? then Some(RuleMessage(TestNotRegExp, rule, tips))
    else if rule.loaders.MissingLoaders? || rule.loaders.FalsyLoaders? then Some(RuleMessage(LoadersNotProvided, rule, tips))
    else if !rule.loaders.LoaderArray? then Some(RuleMessage(LoadersNotArray, rule, tips))
    else if exists k :: 0 <= k < |rule.loaders.loaders| && !Truthy(rule.loaders.loaders[k].use) then
      Some(RuleMessage(UseNotProvided, rule, tips))
    else None
  }

  /** The reference for `checkRules`: the rules are examined from last to
      first, and the first failure found is reported. */
  function RulesError(rules: seq<RawRule>, tips: RawRule -> string): Option<string>
    decreases |rules|
  {
    if rules == [] then None
    else
      var e := RuleError(rules[|rules| - 1], tips);
      if e.Some? then e else RulesError(rules[..|rules| - 1], tips)
  }

  /** `checkRules` passes (returns `true`) exactly when every rule passes,
      in particular for no rules at all. */
  lemma {:induction false} RulesErrorNone(rules: seq<RawRule>, tips: RawRule -> string)
    ensures RulesError(rules, tips).None? <==> forall k :: 0 <= k < |rules| ==> RuleError(rules[k], tips).None?
    decreases |rules|
  {
    if rules != [] {
      var n := |rules| - 1;
      RulesErrorNone(rules[..n], tips);
      assert forall k :: 0 <= k < n ==> rules[..n][k] == rules[k];
    }
  }

  /** A reported failure is that of the LAST failing rule. */
  lemma {:induction false} RulesErrorLast(rules: seq<RawRule>, tips: RawRule -> string)
    requires RulesError(rules, tips).Some?
    ensures exists i :: (0 <= i < |rules| && RuleError(rules[i], tips) == RulesError(rules, tips) &&
      forall k :: i < k < |rules| ==> RuleError(rules[k], tips).None?)
    decreases |rules|
  {
    var n := |rules| - 1;
    if RuleError(rules[n], tips).None? {
      var init := rules[..n];
      RulesErrorLast(init, tips);
      var i :| 0 <= i < |init| && RuleError(init[i], tips) == RulesError(init, tips) &&
        forall k :: i < k < |init| ==> RuleError(init[k], tips).None?;
      assert rules[i] == init[i];
      forall k | i < k < |rules| ensures RuleError(rules[k], tips).None? {
        if k < n {
          assert rules[k] == init[k];
        }
      }
    }
  }

  /** Each check in turn: a missing or falsy test is reported before
      anything else, a test that is not a regular expression before any
      trouble with the loaders. */
  lemma RuleCheckOrder(rule: RawRule, tips: RawRule -> string)
    ensures (rule.test.MissingTest? || rule.test.FalsyTest?) ==>
      RuleError(rule, tips) == Some(RuleMessage(TestNotProvided, rule, tips))
    ensures rule.test.OtherTest? ==> RuleError(rule, tips) == Some(RuleMessage(TestNotRegExp, rule, tips))
    ensures rule.test.RegExpTest? && rule.loaders.OtherLoaders? ==>
      RuleError(rule, tips) == Some(RuleMessage(LoadersNotArray, rule, tips))
    ensures rule.test.RegExpTest? && rule.loaders.LoaderArray? ==>
      (RuleError(rule, tips).None? <==> forall k :: 0 <= k < |rule.loaders.loaders| ==> Truthy(rule.loaders.loaders[k].use))
  {
  }

  /** `checkRules(rules)`: `None` for `true`, else the message returned. */
  method CheckRules(rules: seq<RawRule>, tips: RawRule -> string) returns (r: Option<string>)
    ensures r == RulesError(rules, tips)
  {
    var i := |rules|;
    assert rules[..i] == rules;
    while i > 0
      invariant 0 <= i <= |rules|
      invariant RulesError(rules, tips) == RulesError(rules[..i], tips)
    {
      assert rules[..i][..i - 1] == rules[..i - 1];
      i := i - 1;
      var rule := rules[i];
      if rule.test.MissingTest? || rule.test.FalsyTest? {
        return Some(RuleMessage(TestNotProvided, rule, tips));
      }
      if !rule.test.RegExpTest? {
        return Some(RuleMessage(TestNotRegExp, rule, tips));
      }
      if rule.loaders.MissingLoaders? || rule.loaders.FalsyLoaders? {
        return Some(RuleMessage(LoadersNotProvided, rule, tips));
      }
      if !rule.loaders.LoaderArray? {
        return Some(RuleMessage(LoadersNotArray, rule, tips));
      }
      var loaders := rule.loaders.loaders;
      var j := |loaders|;
      while j > 0
        invariant 0 <= j <= |loaders|
        invariant forall k :: j <= k < |loaders| ==> Truthy(loaders[k].use)
      {
        j := j - 1;
        if !Truthy(loaders[j].use) {
          return Some(RuleMessage(UseNotProvided, rule, tips));
        }
      }
    }
    return None;
  }

  /** A manifest with no fields, `{}`. */
  const EmptyManifest := Manifest(None, None, None, None, None, None, None, None, None)

  function NotRemoteMessage(pubPath: string): string {
    "publicPath 为 " + pubPath + ", 微信小程序并不能访问非远程的静态资源"
  }

  const NoPagesMessage := "没有找到入口页面, 请检查 app.json 中的 pages 属性"

  function NotFoundMessage(file: string): string {
    "File " + file + " is not found, please ensure " + file + " is valid."
  }

  function InvalidJsonMessage(file: string, error: string): string {
    "File " + file + " is invalid json, please check the json corrected.\n" + error
  }

  /** The reference for `resolveWXAppConf(file)`: an error for a missing
      file or for text that is not JSON, else the parsed manifest. */
  function ReadAppConf(file: string, existing: set<string>, readJson: string -> Result<Manifest>): (r: Result<Manifest>)
    ensures file !in existing ==> r == Err(NotFoundMessage(file))
    ensures file in existing && readJson(file).Err? ==> r == Err(InvalidJsonMessage(file, readJson(file).error))
    ensures file in existing && readJson(file).Ok? ==> r == readJson(file)
  {
    if file !in existing then Err(NotFoundMessage(file))
    else if readJson(file).Err? then Err(InvalidJsonMessage(file, readJson(file).error))
    else readJson(file)
  }

  /** `Array.isArray(appConfig.pages) && appConfig.pages.length > 0`. */
  predicate HasPages(config: Manifest) {
    config.pages.Some? && |config.pages.value| > 0
  }

  /** What `resolve` ends in, as a function of its inputs: the checks in
      the order they are made. */
  function ResolveOutcome(srcDir: string, pubPath: string, rules: seq<RawRule>, tips: RawRule -> string,
                          existing: set<string>, readJson: string -> Result<Manifest>): Option<Thrown>
  {
    if !IsRemote(pubPath) then Some(TypeError(NotRemoteMessage(pubPath)))
    else if RulesError(rules, tips).Some? then Some(TypeError(RulesError(rules, tips).value))
    else
      var conf := ReadAppConf(Join(srcDir, "./app.json"), existing, readJson);
      if conf.Err? then Some(Error(conf.error))
      else if !HasPages(conf.value) then Some(Error(NoPagesMessage))
      else None
  }

  /** A resolve that goes through has a remote public path, valid rules and
      a manifest with at least one page; and each failure is reported only
      when every earlier check passed. */
  lemma ResolveOutcomeSpec(srcDir: string, pubPath: string, rules: seq<RawRule>, tips: RawRule -> string,
                           existing: set<string>, readJson: string -> Result<Manifest>)
    ensures ResolveOutcome(srcDir, pubPath, rules, tips, existing, readJson).None? <==>
      IsRemote(pubPath) && (forall k :: 0 <= k < |rules| ==> RuleError(rules[k], tips).None?) &&
      ReadAppConf(Join(srcDir, "./app.json"), existing, readJson).Ok? &&
      HasPages(ReadAppConf(Join(srcDir, "./app.json"), existing, readJson).value)
    ensures ResolveOutcome(srcDir, pubPath, rules, tips, existing, readJson) == Some(Error(NoPagesMessage)) ==>
      IsRemote(pubPath) && RulesError(rules, tips).None?
  {
    RulesErrorNone(rules, tips);
  }

  /** The value of one manager field or one copied property. */
  datatype Value = Text(text: string) | Flag(flag: bool) | RuleList(rules: seq<RawRule>) | NameList(names: seq<string>) | Config(config: Manifest)

  class OptionManager {
    var rootDir: string
    var execDir: string
    var srcDir: string
    var outDir: string
    var staticDir: string
    var tmplDir: string
    var pubPath: string
    var npmDir: string
    var rules: seq<RawRule>
    var plugins: seq<string>
    var watching: bool
    var silence: bool
    var appConfig: Manifest
    var appConfigFile: Option<string>

    /** `new OptionManager()`: the root is the working directory `cwd`; the
        other folders are unset (`''` here) until `resolve` runs. */
    constructor (cwd: string, dirname: string)
      ensures rootDir == cwd && execDir == Join(dirname, "../")
      ensures srcDir == "" && outDir == "" && staticDir == "" && tmplDir == "" && pubPath == "" && npmDir == ""
      ensures rules == [] && plugins == [] && !watching && !silence
      ensures appConfig == EmptyManifest && appConfigFile.None?
    {
      rootDir := cwd;
      execDir := Join(dirname, "../");
      srcDir, outDir, staticDir, tmplDir, pubPath, npmDir := "", "", "", "", "", "";
      rules, plugins := [], [];
      watching, silence := false, false;
      appConfig := EmptyManifest;
      appConfigFile := None;
    }

    /** The manager's own fields by name, as `mapValues(this, …)` sees them;
        `appConfigFile` is there once a manifest was loaded. */
    function Fields(): (m: map<string, Value>)
      reads this
      ensures "rootDir" in m && m["rootDir"] == Text(rootDir)
      ensures ("appConfigFile" in m) <==> appConfigFile.Some?
    {
      var base := map[
        "rootDir" := Text(rootDir), "execDir" := Text(execDir), "srcDir" := Text(srcDir),
        "outDir" := Text(outDir), "staticDir" := Text(staticDir), "tmplDir" := Text(tmplDir),
        "pubPath" := Text(pubPath), "npmDir" := Text(npmDir), "rules" := RuleList(rules),
        "plugins" := NameList(plugins), "watching" := Flag(watching), "silence" := Flag(silence),
        "appConfig" := Config(appConfig)];
      if appConfigFile.Some? then base["appConfigFile" := Text(appConfigFile.value)] else base
    }

    /** `resolveWXAppConf(file)`: on success `appConfig` and `appConfigFile`
        are set; on failure nothing changes. */
    method ResolveWXAppConf(file: string, existing: set<string>, readJson: string -> Result<Manifest>)
      returns (err: Option<Thrown>)
      modifies this
      ensures var conf := ReadAppConf(file, existing, readJson);
        (conf.Err? ==> err == Some(Error(conf.error)) && appConfig == old(appConfig) && appConfigFile == old(appConfigFile)) &&
        (conf.Ok? ==> err.None? && appConfig == conf.value && appConfigFile == Some(file))
      ensures rootDir == old(rootDir) && execDir == old(execDir) && srcDir == old(srcDir) && outDir == old(outDir)
      ensures staticDir == old(staticDir) && tmplDir == old(tmplDir) && pubPath == old(pubPath) && npmDir == old(npmDir)
      ensures rules == old(rules) && plugins == old(plugins) && watching == old(watching) && silence == old(silence)
    {
      if file !in existing {
        return Some(Error(NotFoundMessage(file)));
      }
      var parsed := readJson(file);
      if parsed.Err? {
        return Some(Error(InvalidJsonMessage(file, parsed.error)));
      }
      appConfig := parsed.value;
      appConfigFile := Some(file);
      return None;
    }

    /** `resolve(options)`, with the idle port, the machine's address and
        whether `--quiet` is on the command line given. Every field is
        assigned before the checks run, so they stay assigned when a check
        throws; `appConfig` is then `{}` and `appConfigFile` keeps its old
        value. A manifest that loads sets both, even if it has no pages. */
    method Resolve(options: Options, idlePort: nat, ipAddress: string, quietFlag: bool, tips: RawRule -> string,
                   existing: set<string>, readJson: string -> Result<Manifest>) returns (err: Option<Thrown>)
      modifies this
      ensures rootDir == old(rootDir) && execDir == old(execDir)
      ensures srcDir == Folder(rootDir, options.src, "src") && outDir == Folder(rootDir, options.output, "app")
      ensures staticDir == Folder(rootDir, options.staticFolder, "static") && tmplDir == Folder(rootDir, options.tmpl, ".temporary")
      ensures pubPath == PubPath(options, ipAddress, idlePort)
      ensures npmDir == Or(options.nodeModuleDirectoryName, "npm")
      ensures rules == options.rules.GetOr([]) && plugins == options.plugins.GetOr([])
      ensures watching == options.watch && silence == (options.silence || quietFlag)
      ensures err == ResolveOutcome(srcDir, pubPath, rules, tips, existing, readJson)
      ensures var conf := ReadAppConf(Join(srcDir, "./app.json"), existing, readJson);
        (IsRemote(pubPath) && RulesError(rules, tips).None? && conf.Ok?) ==>
          appConfig == conf.value && appConfigFile == Some(Join(srcDir, "./app.json"))
      ensures var conf := ReadAppConf(Join(srcDir, "./app.json"), existing, readJson);
        !(IsRemote(pubPath) && RulesError(rules, tips).None? && conf.Ok?) ==>
          appConfig == EmptyManifest && appConfigFile == old(appConfigFile)
    {
      AssignFields(options, idlePort, ipAddress, quietFlag);
      err := RunChecks(tips, existing, readJson);
    }

    /** The assignments at the start of `resolve`. */
    method AssignFields(options: Options, idlePort: nat, ipAddress: string, quietFlag: bool)
      modifies this`srcDir, this`outDir, this`staticDir, this`tmplDir
      modifies this`pubPath, this`npmDir, this`rules, this`plugins, this`watching, this`silence, this`appConfig
      ensures srcDir == Folder(rootDir, options.src, "src") && outDir == Folder(rootDir, options.output, "app")
      ensures staticDir == Folder(rootDir, options.staticFolder, "static") && tmplDir == Folder(rootDir, options.tmpl, ".temporary")
      ensures pubPath == PubPath(options, ipAddress, idlePort)
      ensures npmDir == Or(options.nodeModuleDirectoryName, "npm")
      ensures rules == options.rules.GetOr([]) && plugins == options.plugins.GetOr([])
      ensures watching == options.watch && silence == (options.silence || quietFlag)
      ensures appConfig == EmptyManifest
    {
      AssignFolders(options);
      AssignSettings(options, idlePort, ipAddress, quietFlag);
    }

    /** The four folders under the root. */
    method AssignFolders(options: Options)
      modifies this`srcDir, this`outDir, this`staticDir, this`tmplDir
      ensures srcDir == Folder(rootDir, options.src, "src") && outDir == Folder(rootDir, options.output, "app")
      ensures staticDir == Folder(rootDir, options.staticFolder, "static") && tmplDir == Folder(rootDir, options.tmpl, ".temporary")
    {
      var root := rootDir;
      srcDir, outDir, staticDir, tmplDir := Folder(root, options.src, "src"), Folder(root, options.output, "app"),
                                            Folder(root, options.staticFolder, "static"), Folder(root, options.tmpl, ".temporary");
    }

    /** The public path, the package folder, the rules, the plugins and the flags. */
    method AssignSettings(options: Options, idlePort: nat, ipAddress: string, quietFlag: bool)
      modifies this`pubPath, this`npmDir, this`rules, this`plugins, this`watching, this`silence, this`appConfig
      ensures pubPath == PubPath(options, ipAddress, idlePort)
      ensures npmDir == Or(options.nodeModuleDirectoryName, "npm")
      ensures rules == options.rules.GetOr([]) && plugins == options.plugins.GetOr([])
      ensures watching == options.watch && silence == (options.silence || quietFlag)
      ensures appConfig == EmptyManifest
    {
      pubPath := PubPath(options, ipAddress, idlePort);
      npmDir := Or(options.nodeModuleDirectoryName, "npm");
      rules, plugins := options.rules.GetOr([]), options.plugins.GetOr([]);
      watching, silence := options.watch, options.silence || quietFlag;
      appConfig := EmptyManifest;
    }

    /** The checks at the end of `resolve`, in order. */
    method RunChecks(tips: RawRule -> string, existing: set<string>, readJson: string -> Result<Manifest>)
      returns (err: Option<Thrown>)
      modifies this
      ensures rootDir == old(rootDir) && execDir == old(execDir) && srcDir == old(srcDir) && outDir == old(outDir)
      ensures staticDir == old(staticDir) && tmplDir == old(tmplDir) && pubPath == old(pubPath) && npmDir == old(npmDir)
      ensures rules == old(rules) && plugins == old(plugins) && watching == old(watching) && silence == old(silence)
      ensures err == ResolveOutcome(srcDir, pubPath, rules, tips, existing, readJson)
      ensures var conf := ReadAppConf(Join(srcDir, "./app.json"), existing, readJson);
        (IsRemote(pubPath) && RulesError(rules, tips).None? && conf.Ok?) ==>
          appConfig == conf.value && appConfigFile == Some(Join(srcDir, "./app.json"))
      ensures var conf := ReadAppConf(Join(srcDir, "./app.json"), existing, readJson);
        !(IsRemote(pubPath) && RulesError(rules, tips).None? && conf.Ok?) ==>
          appConfig == old(appConfig) && appConfigFile == old(appConfigFile)
    {
      if !IsRemote(pubPath) {
        return Some(TypeError(NotRemoteMessage(pubPath)));
      }
      var valid := CheckRules(rules, tips);
      if valid.Some? {
        return Some(TypeError(valid.value));
      }
      var thrown := ResolveWXAppConf(Join(srcDir, "./app.json"), existing, readJson);
      if thrown.Some? {
        return thrown;
      }
      if !HasPages(appConfig) {
        return Some(Error(NoPagesMessage));
      }
      return None;
    }

    /** `connect(options)`: a new object holding a copy of `options` with a
        read-only getter for each of the manager's fields on top; the
        argument itself is left alone. */
    method Connect(options: map<string, Value>) returns (view: Connected)
      ensures fresh(view)
      ensures view.manager == this && view.names == Fields().Keys && view.copied == options
      ensures forall name :: name in Fields() ==> view.Get(name) == Some(Fields()[name])
      ensures forall name :: name in options && name !in Fields() ==> view.Get(name) == Some(options[name])
    {
      view := new Connected(this, options);
    }
  }

  /** The object `connect` returns: properties copied from the argument and
      getters into the manager for the fields it had when connected. */
  class Connected {
    const manager: OptionManager
    const names: set<string>
    const copied: map<string, Value>

    constructor (manager: OptionManager, options: map<string, Value>)
      ensures this.manager == manager && names == manager.Fields().Keys && copied == options
    {
      this.manager := manager;
      names := manager.Fields().Keys;
      copied := options;
    }

    /** Reading property `name`: a manager field reads the manager now, any
        other copied property reads its copy. */
    function Get(name: string): Option<Value>
      reads manager
    {
      if name in names && name in manager.Fields() then Some(manager.Fields()[name])
      else if name in copied then Some(copied[name])
      else None
    }
  }
}
