/** The manifest resolver (`resolver/json-resolver.ts`): reads `app.json`
    (or a page/component manifest), finds the files of every page and
    component module, the tab-bar images and the plugin entry files, and
    rewrites the project roots before the manifest is written out. */
module JsonResolver {
  import opened Wrappers
  import opened Strings
  import opened Paths
  import opened Seqs
  import opened Typings

  /** A module found by `findModule`: its name, its folder and its files. */
  datatype Module = Module(name: string, dir: string, files: seq<string>)

  /** What the resolver reads from its options and the file system. */
  datatype Env = Env(
    srcDir: string,
    outDir: string,
    rules: Option<seq<Rule>>,
    projectPluginRoot: Option<string>,
    fs: FileSystem,
    test: Tester,
    regexp: RegExpCompiler)

  // ---------------------------------------------------------------------
  // findModule

  /** `/\.json$/`, `/\.js$/`, `/\.wxml$/`, `/\.wxss$/`. */
  predicate HasModuleSuffix(file: string) {
    EndsWith(file, ".json") || EndsWith(file, ".js") || EndsWith(file, ".wxml") || EndsWith(file, ".wxss")
  }

  /** Some rule's `test` matches the entry (only when `rules` is an array). */
  predicate MatchesRule(rules: Option<seq<Rule>>, test: Tester, file: string) {
    rules.Some? && exists k :: 0 <= k < |rules.value| && test(rules.value[k].test, file)
  }

  /** The filter of `findModule`: the basename passes `nameTest` (the
      compiled `new RegExp(name)`), and the entry has a module suffix or
      matches a rule. */
  predicate Keep(nameTest: string -> bool, env: Env, entry: string) {
    nameTest(Basename(entry)) && (HasModuleSuffix(entry) || MatchesRule(env.rules, env.test, entry))
  }

  /** The kept entries, in listing order, joined to the folder. */
  function KeptFiles(nameTest: string -> bool, folder: string, env: Env, entries: seq<string>): seq<string>
    decreases |entries|
  {
    if entries == [] then []
    else (if Keep(nameTest, env, entries[0]) then [Join(folder, entries[0])] else []) + KeptFiles(nameTest, folder, env, entries[1..])
  }

  lemma {:induction false} KeptFilesMembers(nameTest: string -> bool, folder: string, env: Env, entries: seq<string>)
    ensures forall f :: f in KeptFiles(nameTest, folder, env, entries) <==>
      exists k :: 0 <= k < |entries| && Keep(nameTest, env, entries[k]) && f == Join(folder, entries[k])
    decreases |entries|
  {
    if entries != [] {
      KeptFilesMembers(nameTest, folder, env, entries[1..]);
      var rest := entries[1..];
      forall f ensures f in KeptFiles(nameTest, folder, env, entries) <==>
        exists k :: 0 <= k < |entries| && Keep(nameTest, env, entries[k]) && f == Join(folder, entries[k])
      {
        if exists k :: 0 <= k < |entries| && Keep(nameTest, env, entries[k]) && f == Join(folder, entries[k]) {
          var k :| 0 <= k < |entries| && Keep(nameTest, env, entries[k]) && f == Join(folder, entries[k]);
          if k > 0 { assert rest[k - 1] == entries[k]; }
        }
        if exists k :: 0 <= k < |rest| && Keep(nameTest, env, rest[k]) && f == Join(folder, rest[k]) {
          var k :| 0 <= k < |rest| && Keep(nameTest, env, rest[k]) && f == Join(folder, rest[k]);
          assert entries[k + 1] == rest[k];
        }
      }
    }
  }

  function Listing(fs: FileSystem, folder: string): seq<string> {
    if folder in fs.listing then fs.listing[folder] else []
  }

  /** `findModule(name, folder)`. `statSync` of a missing path throws
      Node's ENOENT error; once the folder is a directory, `new RegExp(name)`
      throws its `SyntaxError` for a name that is not a valid pattern. */
  function FindModule(name: string, folder: string, env: Env): (r: Result<Module>)
    ensures folder == "" ==> r == Err("Folder is not provided")
    ensures r.Ok? <==> folder != "" && folder in env.fs.existing && folder in env.fs.directories &&
                       env.regexp(Pattern(name)).Ok?
    ensures folder != "" && folder in env.fs.existing && folder !in env.fs.directories ==>
      r == Err("Folder " + folder + " is not found or not a folder")
    ensures folder != "" && folder in env.fs.existing && folder in env.fs.directories && env.regexp(Pattern(name)).Err? ==>
      r == Err(env.regexp(Pattern(name)).error)
    ensures r.Ok? ==> r.value.name == name && r.value.dir == folder
  {
    if folder == "" then Err("Folder is not provided")
    else if folder !in env.fs.existing then Err("ENOENT: no such file or directory, stat '" + folder + "'")
    else if folder !in env.fs.directories then Err("Folder " + folder + " is not found or not a folder")
    else
      var re := env.regexp(Pattern(name));
      if re.Err? then Err(re.error)
      else Ok(Module(name, folder, KeptFiles(re.value, folder, env, Listing(env.fs, folder))))
  }

  /** The files of a found module are exactly the folder entries that pass
      the filter, joined to the folder. */
  lemma FindModuleFiles(name: string, folder: string, env: Env)
    requires FindModule(name, folder, env).Ok?
    ensures forall f :: f in FindModule(name, folder, env).value.files <==>
      exists k :: 0 <= k < |Listing(env.fs, folder)| && Keep(env.regexp(Pattern(name)).value, env, Listing(env.fs, folder)[k]) &&
                  f == Join(folder, Listing(env.fs, folder)[k])
  {
    KeptFilesMembers(env.regexp(Pattern(name)).value, folder, env, Listing(env.fs, folder));
  }

  // ---------------------------------------------------------------------
  // resolvePages

  /** One page: joined to the manifest's folder; its folder must exist. */
  function ResolvePage(base: string, page: string, env: Env): Result<Module> {
    var p := Join(base, page);
    var folder := Dirname(p);
    if folder !in env.fs.existing then Err("查找不到文件夹 " + folder)
    else FindModule(Basename(p), folder, env)
  }

  /** `pages.map(resolve)`: the first page that throws ends the resolution. */
  function MapPages(pages: seq<string>, resolve: string -> Result<Module>): (r: Result<seq<Module>>)
    ensures r.Ok? ==> |r.value| == |pages|
    decreases |pages|
  {
    if pages == [] then Ok([])
    else
      var first := resolve(pages[0]);
      if first.Err? then Err(first.error)
      else
        var rest := MapPages(pages[1..], resolve);
        if rest.Err? then rest else Ok([first.value] + rest.value)
  }

  /** Either every page resolves, giving its module in order, or the result
      is the error of the first page that does not. */
  lemma {:induction false} MapPagesSpec(pages: seq<string>, resolve: string -> Result<Module>)
    ensures MapPages(pages, resolve).Ok? <==> forall k :: 0 <= k < |pages| ==> resolve(pages[k]).Ok?
    ensures MapPages(pages, resolve).Ok? ==>
      forall k :: 0 <= k < |pages| ==> MapPages(pages, resolve).value[k] == resolve(pages[k]).value
    ensures MapPages(pages, resolve).Err? ==>
      exists k :: 0 <= k < |pages| && resolve(pages[k]).Err? &&
        MapPages(pages, resolve).error == resolve(pages[k]).error &&
        forall j :: 0 <= j < k ==> resolve(pages[j]).Ok?
    decreases |pages|
  {
    if pages != [] {
      var rest := pages[1..];
      MapPagesSpec(rest, resolve);
      assert forall k :: 1 <= k < |pages| ==> pages[k] == rest[k - 1];
      if resolve(pages[0]).Ok? && MapPages(rest, resolve).Err? {
        var k :| 0 <= k < |rest| && resolve(rest[k]).Err? &&
          MapPages(rest, resolve).error == resolve(rest[k]).error &&
          forall j :: 0 <= j < k ==> resolve(rest[j]).Ok?;
        assert resolve(pages[k + 1]).Err?;
        assert forall j :: 1 <= j < k + 1 ==> resolve(pages[j]).Ok?;
      }
    }
  }

  /** The pages of a manifest resolved against the folder `base`. */
  function ResolvePagesFrom(base: string, pages: seq<string>, env: Env): (r: Result<seq<Module>>)
    ensures r.Ok? ==> |r.value| == |pages|
  {
    MapPages(pages, page => ResolvePage(base, page, env))
  }

  /** `resolvePages(pages)`: relative to the manifest's folder. */
  function ResolvePages(file: string, pages: seq<string>, env: Env): Result<seq<Module>> {
    ResolvePagesFrom(Dirname(file), pages, env)
  }

  /** Either every page resolves, giving its module in order, or the result
      is the error of the first page that does not. */
  lemma ResolvePagesSpec(base: string, pages: seq<string>, env: Env)
    ensures ResolvePagesFrom(base, pages, env).Ok? <==> forall k :: 0 <= k < |pages| ==> ResolvePage(base, pages[k], env).Ok?
    ensures ResolvePagesFrom(base, pages, env).Ok? ==>
      forall k :: 0 <= k < |pages| ==> ResolvePagesFrom(base, pages, env).value[k] == ResolvePage(base, pages[k], env).value
    ensures ResolvePagesFrom(base, pages, env).Err? ==>
      exists k :: 0 <= k < |pages| && ResolvePage(base, pages[k], env).Err? &&
        ResolvePagesFrom(base, pages, env).error == ResolvePage(base, pages[k], env).error &&
        forall j :: 0 <= j < k ==> ResolvePage(base, pages[j], env).Ok?
  {
    MapPagesSpec(pages, page => ResolvePage(base, page, env));
  }

  // ---------------------------------------------------------------------
  // convertRelative

  /** The first `join(dir, file)` over `paths` that exists. */
  function FirstExisting(file: string, paths: seq<string>, fs: FileSystem): (r: Option<string>)
    ensures r.Some? ==> (r.value in fs.existing &&
      exists k :: 0 <= k < |paths| && r.value == Join(paths[k], file) &&
        forall j :: 0 <= j < k ==> Join(paths[j], file) !in fs.existing)
    ensures r.None? ==> forall k :: 0 <= k < |paths| ==> Join(paths[k], file) !in fs.existing
    decreases |paths|
  {
    if paths == [] then None
    else if Join(paths[0], file) in fs.existing then Some(Join(paths[0], file))
    else
      var rest := FirstExisting(file, paths[1..], fs);
      assert forall k :: 1 <= k < |paths| ==> paths[k] == paths[1..][k - 1];
      if rest.Some? then
        var k :| 0 <= k < |paths[1..]| && rest.value == Join(paths[1..][k], file) &&
          forall j :: 0 <= j < k ==> Join(paths[1..][j], file) !in fs.existing;
        assert rest.value == Join(paths[k + 1], file);
        rest
      else rest
  }

  /** `convertRelative(file, paths)`: `false` is `None`. */
  method ConvertRelative(file: string, paths: seq<string>, fs: FileSystem) returns (r: Result<Option<string>>)
    ensures |paths| == 0 <==> r.Err?
    ensures r.Err? ==> r.error == "Paths is not a array or not be provided"
    ensures r.Ok? ==> r.value == FirstExisting(file, paths, fs)
  {
    if |paths| == 0 {
      return Err("Paths is not a array or not be provided");
    }
    var i := 0;
    while i < |paths|
      invariant 0 <= i <= |paths|
      invariant FirstExisting(file, paths, fs) == FirstExisting(file, paths[i..], fs)
    {
      var target := Join(paths[i], file);
      FirstExistingStep(file, paths, i, fs);
      if target in fs.existing {
        return Ok(Some(target));
      }
      i := i + 1;
    }
    return Ok(None);
  }

  /** The search from position `i` stops there when that candidate exists,
      and goes on from `i + 1` otherwise. */
  lemma FirstExistingStep(file: string, paths: seq<string>, i: nat, fs: FileSystem)
    requires i < |paths|
    ensures Join(paths[i], file) in fs.existing ==> FirstExisting(file, paths[i..], fs) == Some(Join(paths[i], file))
    ensures Join(paths[i], file) !in fs.existing ==> FirstExisting(file, paths[i..], fs) == FirstExisting(file, paths[i + 1..], fs)
  {
    assert paths[i..][0] == paths[i];
    assert paths[i..][1..] == paths[i + 1..];
  }

  // ---------------------------------------------------------------------
  // resolveComponents

  /** The module of one component path, if its folder is found under the
      manifest's folder or `srcDir` (`None` when it is skipped). */
  function ComponentModule(base: string, component: string, env: Env): Result<Option<Module>> {
    var folder := FirstExisting(Dirname(component), [base, env.srcDir], env.fs);
    if folder.None? then Ok(None)
    else
      var m := FindModule(Basename(component), folder.value, env);
      if m.Err? then Err(m.error) else Ok(Some(m.value))
  }

  /** The modules of the components, in key order; skipped components
      leave no entry and the first error ends the resolution. */
  function ComponentModules(base: string, components: seq<(string, string)>, env: Env): (r: Result<seq<Module>>)
    ensures r.Ok? ==> |r.value| <= |components|
    decreases |components|
  {
    if components == [] then Ok([])
    else
      var init := ComponentModules(base, components[..|components| - 1], env);
      if init.Err? then init
      else
        var last := ComponentModule(base, components[|components| - 1].1, env);
        if last.Err? then Err(last.error)
        else if last.value.None? then init
        else Ok(init.value + [last.value.value])
  }

  /** A component whose folder exists in neither place is skipped, not an
      error. */
  lemma SkippedComponent(base: string, components: seq<(string, string)>, env: Env, c: (string, string))
    requires ComponentModules(base, components, env).Ok?
    requires FirstExisting(Dirname(c.1), [base, env.srcDir], env.fs).None?
    ensures ComponentModules(base, components + [c], env) == ComponentModules(base, components, env)
  {
    assert (components + [c])[..|components|] == components;
  }

  /** `resolveComponents(components)`. */
  method ResolveComponents(file: string, components: seq<(string, string)>, env: Env) returns (r: Result<seq<Module>>)
    ensures r == ComponentModules(Dirname(file), components, env)
  {
    var base := Dirname(file);
    var outputs: seq<Module> := [];
    var i := 0;
    while i < |components|
      invariant 0 <= i <= |components|
      invariant ComponentModules(base, components[..i], env) == Ok(outputs)
    {
      ComponentStep(base, components, i, env);
      var m := ResolveComponent(base, components[i].1, env);
      if m.Err? {
        ComponentModulesPrefixErr(base, components, i + 1, env);
        return Err(m.error);
      }
      if m.value.Some? {
        outputs := outputs + [m.value.value];
      }
      i := i + 1;
    }
    assert components[..i] == components;
    return Ok(outputs);
  }

  /** The body of the `forEach` in `resolveComponents`: find the folder,
      and if there is one, the module in it. */
  method ResolveComponent(base: string, component: string, env: Env) returns (r: Result<Option<Module>>)
    ensures r == ComponentModule(base, component, env)
  {
    var folder := ConvertRelative(Dirname(component), [base, env.srcDir], env.fs);
    if folder.value.None? {
      return Ok(None);
    }
    var m := FindModule(Basename(component), folder.value.value, env);
    if m.Err? {
      return Err(m.error);
    }
    return Ok(Some(m.value));
  }

  lemma ComponentStep(base: string, components: seq<(string, string)>, i: nat, env: Env)
    requires i < |components|
    ensures ComponentModules(base, components[..i + 1], env) ==
      var init := ComponentModules(base, components[..i], env);
      if init.Err? then init
      else
        var last := ComponentModule(base, components[i].1, env);
        if last.Err? then Err(last.error)
        else if last.value.None? then init
        else Ok(init.value + [last.value.value])
  {
    assert components[..i + 1][..i] == components[..i];
  }

  /** Once a prefix of the components fails, the whole list fails with the
      same error. */
  lemma {:induction false} ComponentModulesPrefixErr(base: string, components: seq<(string, string)>, n: nat, env: Env)
    requires n <= |components| && ComponentModules(base, components[..n], env).Err?
    ensures ComponentModules(base, components, env) == ComponentModules(base, components[..n], env)
    decreases |components|
  {
    if n < |components| {
      var init := components[..|components| - 1];
      assert init[..n] == components[..n];
      ComponentModulesPrefixErr(base, init, n, env);
    } else {
      assert components[..n] == components;
    }
  }

  // ---------------------------------------------------------------------
  // resolveTabs

  /** The image paths of the tabs as visited: icon, then selected icon,
      each only when truthy, joined to `base`. */
  function TabCandidates(base: string, tabs: seq<TabItem>): seq<string>
    decreases |tabs|
  {
    if tabs == [] then []
    else
      var t := tabs[|tabs| - 1];
      TabCandidates(base, tabs[..|tabs| - 1]) +
      (if Truthy(t.iconPath) then [Join(base, t.iconPath.value)] else []) +
      (if Truthy(t.selectedIconPath) then [Join(base, t.selectedIconPath.value)] else [])
  }

  /** `resolveTabs(tabs)`: the images, each once, in first-seen order. */
  method ResolveTabs(file: string, tabs: seq<TabItem>) returns (images: seq<string>)
    ensures images == Uniq(TabCandidates(Dirname(file), tabs))
  {
    var base := Dirname(file);
    images := [];
    var i := 0;
    while i < |tabs|
      invariant 0 <= i <= |tabs|
      invariant images == Uniq(TabCandidates(base, tabs[..i]))
    {
      assert tabs[..i + 1][..i] == tabs[..i];
      var t := tabs[i];
      ghost var before := TabCandidates(base, tabs[..i]);
      if Truthy(t.iconPath) {
        var p := Join(base, t.iconPath.value);
        UniqAppend(before, p);
        before := before + [p];
        if p !in images {
          images := images + [p];
        }
      }
      if Truthy(t.selectedIconPath) {
        var p := Join(base, t.selectedIconPath.value);
        UniqAppend(before, p);
        before := before + [p];
        if p !in images {
          images := images + [p];
        }
      }
      assert before == TabCandidates(base, tabs[..i + 1]);
      i := i + 1;
    }
    assert tabs[..i] == tabs;
  }

  lemma UniqAppend(xs: seq<string>, x: string)
    ensures Uniq(xs + [x]) == AddIfAbsent(Uniq(xs), x)
  {
    assert (xs + [x])[..|xs|] == xs;
  }

  /** The tab images are distinct, and an image is listed exactly when some
      tab's icon or selected icon resolves to it. */
  lemma TabImagesSpec(base: string, tabs: seq<TabItem>)
    ensures Distinct(Uniq(TabCandidates(base, tabs)))
    ensures forall x :: x in Uniq(TabCandidates(base, tabs)) <==> x in TabCandidates(base, tabs)
  {
    UniqDistinct(TabCandidates(base, tabs));
    UniqMembers(TabCandidates(base, tabs));
  }

  /** Within a tab the icon comes before the selected icon. */
  lemma {:induction false} TabCandidatesOrder(base: string, tabs: seq<TabItem>, k: nat)
    requires k < |tabs| && Truthy(tabs[k].iconPath) && Truthy(tabs[k].selectedIconPath)
    ensures exists i :: (0 <= i < |TabCandidates(base, tabs)| - 1 &&
      TabCandidates(base, tabs)[i] == Join(base, tabs[k].iconPath.value) &&
      TabCandidates(base, tabs)[i + 1] == Join(base, tabs[k].selectedIconPath.value))
    decreases |tabs|
  {
    var init := tabs[..|tabs| - 1];
    var c := TabCandidates(base, tabs);
    var ci := TabCandidates(base, init);
    if k == |tabs| - 1 {
      assert c[|ci|] == Join(base, tabs[k].iconPath.value);
      assert c[|ci| + 1] == Join(base, tabs[k].selectedIconPath.value);
    } else {
      TabCandidatesOrder(base, init, k);
      var i :| 0 <= i < |ci| - 1 && ci[i] == Join(base, init[k].iconPath.value) && ci[i + 1] == Join(base, init[k].selectedIconPath.value);
      assert c[i] == ci[i] && c[i + 1] == ci[i + 1];
    }
  }

  // ---------------------------------------------------------------------
  // resolveProjectConf and convertProjectConf

  /** `resolveProjectConf(config)`: `srcDir/pluginRoot/plugin.json` when the
      manifest has `pluginRoot`, then `srcDir/<project pluginRoot>/main`
      when it has `main` and the project configuration has `pluginRoot`;
      each only when it exists. */
  function ProjectConfFiles(config: Manifest, env: Env): (files: seq<string>)
    ensures |files| <= 2
    ensures config.pluginRoot.Some? && JoinAll([env.srcDir, config.pluginRoot.value, "plugin.json"]) in env.fs.existing ==>
      |files| >= 1 && files[0] == JoinAll([env.srcDir, config.pluginRoot.value, "plugin.json"])
    ensures forall f :: f in files ==> f in env.fs.existing
    ensures config.main.None? && config.pluginRoot.None? ==> files == []
    ensures |files| ==
      (if config.pluginRoot.Some? && JoinAll([env.srcDir, config.pluginRoot.value, "plugin.json"]) in env.fs.existing then 1 else 0) +
      (if config.main.Some? && env.projectPluginRoot.Some? &&
          JoinAll([env.srcDir, env.projectPluginRoot.value, config.main.value]) in env.fs.existing then 1 else 0)
    ensures config.main.Some? && env.projectPluginRoot.Some? &&
            JoinAll([env.srcDir, env.projectPluginRoot.value, config.main.value]) in env.fs.existing ==>
      files[|files| - 1] == JoinAll([env.srcDir, env.projectPluginRoot.value, config.main.value])
  {
    var first :=
      if config.pluginRoot.Some? then
        var file := JoinAll([env.srcDir, config.pluginRoot.value, "plugin.json"]);
        if file in env.fs.existing then [file] else []
      else [];
    var second :=
      if config.main.Some? && env.projectPluginRoot.Some? then
        var file := JoinAll([env.srcDir, env.projectPluginRoot.value, config.main.value]);
        if file in env.fs.existing then [file] else []
      else [];
    first + second
  }

  predicate IsSeparator(c: char) {
    c == '/' || c == '\\'
  }

  /** `s.replace(/[\\/]+/g, '/')`: every run of separators becomes one `/`. */
  function CollapseSeparators(s: string): (t: string)
    decreases |s|
  {
    if s == [] then []
    else if IsSeparator(s[0]) then ['/'] + CollapseSeparators(DropSeparators(s[1..]))
    else [s[0]] + CollapseSeparators(s[1..])
  }

  function DropSeparators(s: string): (t: string)
    ensures |t| <= |s| && (t == [] || !IsSeparator(t[0]))
    ensures t == s[|s| - |t|..]
  {
    if s != [] && IsSeparator(s[0]) then DropSeparators(s[1..]) else s
  }

  /** Collapsed paths hold no `\` and no two `/` in a row. */
  predicate Collapsed(s: string) {
    (forall k :: 0 <= k < |s| ==> s[k] != '\\') && (forall k :: 0 <= k < |s| - 1 ==> !(s[k] == '/' && s[k + 1] == '/'))
  }

  lemma {:induction false} CollapseSeparatorsSpec(s: string)
    ensures Collapsed(CollapseSeparators(s))
    ensures CollapseSeparators(s) == [] || (IsSeparator(s[0]) <==> CollapseSeparators(s)[0] == '/')
    decreases |s|
  {
    if s != [] {
      if IsSeparator(s[0]) {
        var rest := DropSeparators(s[1..]);
        CollapseSeparatorsSpec(rest);
        var t := CollapseSeparators(rest);
        assert t == [] || t[0] != '/' by {
          if t != [] { assert !IsSeparator(rest[0]); }
        }
        assert forall k :: 0 < k < |['/'] + t| ==> (['/'] + t)[k] == t[k - 1];
      } else {
        CollapseSeparatorsSpec(s[1..]);
        var t := CollapseSeparators(s[1..]);
        assert forall k :: 0 < k < |[s[0]] + t| ==> ([s[0]] + t)[k] == t[k - 1];
      }
    }
  }

  /** A collapsed path is left as it is, so collapsing twice is collapsing
      once. */
  lemma {:induction false} CollapseSeparatorsIdentity(s: string)
    requires Collapsed(s)
    ensures CollapseSeparators(s) == s
    decreases |s|
  {
    if s != [] {
      assert Collapsed(s[1..]) by {
        assert forall k :: 0 <= k < |s| - 1 ==> s[1..][k] == s[k + 1];
      }
      if IsSeparator(s[0]) {
        assert |s| == 1 || !IsSeparator(s[1]);
        assert DropSeparators(s[1..]) == s[1..];
      }
      CollapseSeparatorsIdentity(s[1..]);
    }
  }

  lemma CollapseSeparatorsIdempotent(s: string)
    ensures CollapseSeparators(CollapseSeparators(s)) == CollapseSeparators(s)
  {
    CollapseSeparatorsSpec(s);
    CollapseSeparatorsIdentity(CollapseSeparators(s));
  }

  /** `folder.replace(basename(outDir), '')`, joined to `.`, separators
      collapsed. */
  function ConvertRoot(root: string, outDir: string): (r: string)
    ensures Collapsed(r)
  {
    var joined := Join(".", ReplaceFirst(root, Basename(outDir), ""));
    CollapseSeparatorsSpec(joined);
    CollapseSeparators(joined)
  }

  /** The first occurrence of the output folder's name is cut out of the
      root: the name itself becomes `.`. */
  lemma ConvertRootName(outDir: string)
    requires Basename(outDir) != ""
    ensures ConvertRoot(Basename(outDir), outDir) == "."
  {
    var name := Basename(outDir);
    assert ReplaceFirst(name, name, "") == "" by {
      ReplaceFirstPrefix(name, name, "");
      assert name[|name|..] == "";
    }
    assert CollapseSeparators(Join(".", "")) == "." by {
      JoinDotEmpty();
      CollapseSeparatorsIdentity(".");
    }
  }

  /** The name with a trailing slash becomes `./`. */
  lemma ConvertRootNameSlash(outDir: string)
    requires Basename(outDir) != ""
    ensures ConvertRoot(Basename(outDir) + "/", outDir) == "./"
  {
    var name := Basename(outDir);
    assert ReplaceFirst(name + "/", name, "") == "/" by {
      assert (name + "/")[..|name|] == name;
      ReplaceFirstPrefix(name + "/", name, "");
      assert (name + "/")[|name|..] == "/";
    }
    JoinDotSlash();
    CollapseDotSlash();
  }

  lemma CollapseDotSlash()
    ensures CollapseSeparators("./") == "./"
  {
    CollapseSeparatorsIdentity("./");
  }

  /** The output folder's name followed by a segment becomes that segment
      alone. */
  lemma ConvertRootStripsName(outDir: string, seg: string)
    requires Basename(outDir) != "" && PlainSegment(seg)
    ensures ConvertRoot(Basename(outDir) + "/" + seg, outDir) == seg
  {
    var name := Basename(outDir);
    var root := name + "/" + seg;
    assert ReplaceFirst(root, name, "") == "/" + seg by {
      assert root[..|name|] == name;
      ReplaceFirstPrefix(root, name, "");
      assert root[|name|..] == "/" + seg;
    }
    assert CollapseSeparators(Join(".", "/" + seg)) == seg by {
      JoinDotRootedSegment(seg);
      CollapseSeparatorsIdentity(seg);
    }
  }

  /** A root that does not mention the output folder's name is only
      normalised: a plain segment comes back unchanged. */
  lemma ConvertRootKeepsOthers(root: string, outDir: string, seg: string)
    requires !Contains(root, Basename(outDir))
    requires PlainSegment(seg) && !Contains(seg, Basename(outDir))
    ensures ConvertRoot(root, outDir) == CollapseSeparators(Join(".", root))
    ensures ConvertRoot(seg, outDir) == seg
  {
    JoinDotSegment(seg);
    CollapseSeparatorsIdentity(seg);
  }

  /** `convertProjectConf(config)`: only `miniprogramRoot` and `pluginRoot`
      change, and only where the manifest has them. */
  function ConvertProjectConf(config: Manifest, outDir: string): (r: Manifest)
    ensures r.(miniprogramRoot := config.miniprogramRoot, pluginRoot := config.pluginRoot) == config
    ensures r.miniprogramRoot.Some? <==> config.miniprogramRoot.Some?
    ensures r.pluginRoot.Some? <==> config.pluginRoot.Some?
    ensures r.miniprogramRoot.Some? ==> Collapsed(r.miniprogramRoot.value)
    ensures r.pluginRoot.Some? ==> Collapsed(r.pluginRoot.value)
    ensures config.miniprogramRoot.Some? ==> r.miniprogramRoot.value == ConvertRoot(config.miniprogramRoot.value, outDir)
    ensures config.pluginRoot.Some? ==> r.pluginRoot.value == ConvertRoot(config.pluginRoot.value, outDir)
  {
    var mini := if config.miniprogramRoot.Some? then Some(ConvertRoot(config.miniprogramRoot.value, outDir)) else None;
    var plugin := if config.pluginRoot.Some? then Some(ConvertRoot(config.pluginRoot.value, outDir)) else None;
    config.(miniprogramRoot := mini, pluginRoot := plugin)
  }

  /** Roots written as the output folder followed by one segment are
      rewritten to that segment, and nothing else in the manifest changes. */
  lemma ConvertProjectConfStripsOutDir(config: Manifest, outDir: string, mini: string, plugin: string)
    requires Basename(outDir) != "" && PlainSegment(mini) && PlainSegment(plugin)
    requires config.miniprogramRoot == Some(Basename(outDir) + "/" + mini)
    requires config.pluginRoot == Some(Basename(outDir) + "/" + plugin)
    ensures ConvertProjectConf(config, outDir) == config.(miniprogramRoot := Some(mini), pluginRoot := Some(plugin))
  {
    ConvertRootStripsName(outDir, mini);
    ConvertRootStripsName(outDir, plugin);
  }

  // ---------------------------------------------------------------------
  // resolve

  /** The resolver's input: text (a decoded Buffer or a string) or an
      already parsed plain object. */
  datatype Source = Text(text: string) | Object(config: Manifest)

  /** What `resolve` returns: the manifest file, its new content and its
      dependencies. */
  datatype Resolved = Resolved(file: string, content: string, dependencies: seq<Dependency>)

  const InvalidJsonMark: string := "is invalid json"

  function InvalidJson(file: string, error: string): string {
    "File " + file + " " + InvalidJsonMark + ", please check the json corrected.\n" + error
  }

  /** The manifest: the object as given, or the parsed text. */
  function ParseConfig(file: string, source: Source, parse: string -> Result<Manifest>): (r: Result<Manifest>)
    ensures source.Object? ==> r == Ok(source.config)
    ensures source.Text? && parse(source.text).Err? ==> r == Err(InvalidJson(file, parse(source.text).error))
    ensures source.Text? && parse(source.text).Ok? ==> r == parse(source.text)
  {
    match source
    case Object(config) => Ok(config)
    case Text(text) =>
      var parsed := parse(text);
      if parsed.Err? then Err(InvalidJson(file, parsed.error)) else parsed
  }

  /** `subPackages || subpackages || []`. */
  function SubPackagesOf(config: Manifest): seq<SubPackage> {
    if config.subPackages.Some? then config.subPackages.value
    else if config.subpackages.Some? then config.subpackages.value
    else []
  }

  /** The pages of one sub-package, joined to its root only when the root
      is truthy and the page list is not empty. */
  function SubPackagePages(item: SubPackage): seq<string> {
    var pages := item.pages.GetOr([]);
    if Truthy(item.root) && |pages| > 0 then
      seq(|pages|, k requires 0 <= k < |pages| => Join(item.root.value, pages[k]))
    else pages
  }

  /** The top-level pages followed by the pages of every sub-package. */
  function AllPages(config: Manifest): seq<string> {
    var subs := SubPackagesOf(config);
    config.pages.GetOr([]) + Flatten(seq(|subs|, k requires 0 <= k < |subs| => SubPackagePages(subs[k])))
  }

  function FilesOf(ms: seq<Module>): seq<string>
    decreases |ms|
  {
    if ms == [] then [] else ms[0].files + FilesOf(ms[1..])
  }

  function DependencyFiles(file: string, config: Manifest, pages: seq<Module>, using: seq<Module>, public: seq<Module>,
                           env: Env): seq<string> {
    Uniq(FilesOf(pages + using + public)) +
    Uniq(TabCandidates(Dirname(file), config.tabBarList.GetOr([]))) +
    ProjectConfFiles(config, env)
  }

  /** Every dependency of the manifest: `required` is `''`. */
  function MakeDependencies(file: string, deps: seq<string>, convertDestination: string -> string): (r: seq<Dependency>)
    ensures |r| == |deps|
    ensures forall k :: 0 <= k < |deps| ==>
      r[k] == Dependency(file, deps[k], Some(convertDestination(deps[k])), "")
  {
    seq(|deps|, k requires 0 <= k < |deps| => Dependency(file, deps[k], Some(convertDestination(deps[k])), ""))
  }

  /** The whole of `resolve`, as a function of its inputs. */
  function ResolveResult(file: string, source: Source, env: Env, parse: string -> Result<Manifest>,
                         production: bool, stringify: (Manifest, nat) -> string,
                         convertDestination: string -> string): Result<Resolved>
  {
    var config :- ParseConfig(file, source, parse);
    var pages :- ResolvePages(file, AllPages(config), env);
    var using :- ComponentModules(Dirname(file), config.usingComponents.GetOr([]), env);
    var public :- ComponentModules(Dirname(file), config.publicComponents.GetOr([]), env);
    var deps := DependencyFiles(file, config, pages, using, public, env);
    Ok(Resolved(file, stringify(ConvertProjectConf(config, env.outDir), if production then 0 else 2),
                MakeDependencies(file, deps, convertDestination)))
  }

  /** `resolve()`. `parse` is `JSON.parse` (its error text on failure),
      `stringify` is `JSON.stringify(config, null, indent)`, and
      `convertDestination` is the resolver base's destination mapping. */
  method Resolve(file: string, source: Source, env: Env, parse: string -> Result<Manifest>,
                 production: bool, stringify: (Manifest, nat) -> string,
                 convertDestination: string -> string) returns (r: Result<Resolved>)
    ensures r == ResolveResult(file, source, env, parse, production, stringify, convertDestination)
  {
    var config :- ParseConfig(file, source, parse);
    var pageModules :- ResolvePages(file, AllPages(config), env);
    var usingModules :- ResolveComponents(file, config.usingComponents.GetOr([]), env);
    var publicModules :- ResolveComponents(file, config.publicComponents.GetOr([]), env);
    var tabImageFiles := ResolveTabs(file, config.tabBarList.GetOr([]));
    var confDependedFiles := ProjectConfFiles(config, env);
    var files := Uniq(FilesOf(pageModules + usingModules + publicModules)) + tabImageFiles + confDependedFiles;
    var dependencies := MakeDependencies(file, files, convertDestination);
    var converted := ConvertProjectConf(config, env.outDir);
    var content := stringify(converted, if production then 0 else 2);
    return Ok(Resolved(file, content, dependencies));
  }

  // ---------------------------------------------------------------------
  // Properties of resolve

  /** Text that is not JSON is rejected with the "is invalid json" error;
      an object is taken as it is. */
  lemma InvalidJsonRejected(file: string, text: string, env: Env, parse: string -> Result<Manifest>,
                            production: bool, stringify: (Manifest, nat) -> string, convertDestination: string -> string)
    requires parse(text).Err?
    ensures ResolveResult(file, Text(text), env, parse, production, stringify, convertDestination) ==
      Err(InvalidJson(file, parse(text).error))
    ensures Contains(InvalidJson(file, parse(text).error), InvalidJsonMark)
  {
    var msg := InvalidJson(file, parse(text).error);
    var head := "File " + file + " ";
    var tail := ", please check the json corrected.\n" + parse(text).error;
    assert msg == head + InvalidJsonMark + tail;
    assert msg[|head|..|head| + |InvalidJsonMark|] == InvalidJsonMark;
    assert OccursAt(msg, InvalidJsonMark, |head|);
  }

  /** Every dependency names the manifest as its `file`, has `required`
      `''`, and its destination is the converted dependency path. */
  lemma ResolvedDependencies(file: string, source: Source, env: Env, parse: string -> Result<Manifest>,
                             production: bool, stringify: (Manifest, nat) -> string, convertDestination: string -> string)
    requires ResolveResult(file, source, env, parse, production, stringify, convertDestination).Ok?
    ensures var r := ResolveResult(file, source, env, parse, production, stringify, convertDestination).value;
      r.file == file &&
      forall k :: 0 <= k < |r.dependencies| ==>
        r.dependencies[k].file == file && r.dependencies[k].required == "" &&
        r.dependencies[k].destination == Some(convertDestination(r.dependencies[k].dependency))
  {
  }

  /** The paths a list of dependencies points at, in order. */
  function DependencyNames(ds: seq<Dependency>): (names: seq<string>)
    ensures |names| == |ds| && forall k :: 0 <= k < |ds| ==> names[k] == ds[k].dependency
  {
    seq(|ds|, k requires 0 <= k < |ds| => ds[k].dependency)
  }

  /** A file is among the modules' files exactly when one of the modules
      holds it. */
  lemma {:induction false} FilesOfMembers(ms: seq<Module>)
    ensures forall f :: f in FilesOf(ms) <==> exists k :: 0 <= k < |ms| && f in ms[k].files
    decreases |ms|
  {
    if ms != [] {
      FilesOfMembers(ms[1..]);
      forall f ensures f in FilesOf(ms) <==> exists k :: 0 <= k < |ms| && f in ms[k].files {
        if exists k :: 0 <= k < |ms| && f in ms[k].files {
          var k :| 0 <= k < |ms| && f in ms[k].files;
          if k > 0 { assert f in ms[1..][k - 1].files; }
        }
        if exists k :: 0 <= k < |ms[1..]| && f in ms[1..][k].files {
          var k :| 0 <= k < |ms[1..]| && f in ms[1..][k].files;
          assert f in ms[k + 1].files;
        }
      }
    }
  }

  /** Once the manifest parses and its pages and components resolve, the
      dependencies are, in order: the files of the page, `usingComponents`
      and `publicComponents` modules, each once and where it first occurs;
      the tab images; the plugin files. No module file is dropped and none
      is invented. */
  lemma ResolvedDependencyNames(file: string, source: Source, env: Env, parse: string -> Result<Manifest>,
                                production: bool, stringify: (Manifest, nat) -> string, convertDestination: string -> string,
                                config: Manifest, pages: seq<Module>, using: seq<Module>, public: seq<Module>)
    requires ParseConfig(file, source, parse) == Ok(config)
    requires ResolvePages(file, AllPages(config), env) == Ok(pages)
    requires ComponentModules(Dirname(file), config.usingComponents.GetOr([]), env) == Ok(using)
    requires ComponentModules(Dirname(file), config.publicComponents.GetOr([]), env) == Ok(public)
    ensures ResolveResult(file, source, env, parse, production, stringify, convertDestination).Ok?
    ensures DependencyNames(ResolveResult(file, source, env, parse, production, stringify, convertDestination).value.dependencies) ==
      Uniq(FilesOf(pages + using + public)) +
      Uniq(TabCandidates(Dirname(file), config.tabBarList.GetOr([]))) +
      ProjectConfFiles(config, env)
    ensures Distinct(Uniq(FilesOf(pages + using + public)))
    ensures forall f :: f in Uniq(FilesOf(pages + using + public)) <==>
      exists k :: 0 <= k < |pages + using + public| && f in (pages + using + public)[k].files
  {
    var modules := pages + using + public;
    var r := ResolveResult(file, source, env, parse, production, stringify, convertDestination).value;
    var deps := DependencyFiles(file, config, pages, using, public, env);
    assert r.dependencies == MakeDependencies(file, deps, convertDestination);
    assert DependencyNames(r.dependencies) == deps;
    UniqDistinct(FilesOf(modules));
    UniqMembers(FilesOf(modules));
    FilesOfMembers(modules);
  }

  /** `subPackages` wins over `subpackages`; either spelling is read. */
  lemma SubPackagesPreference(config: Manifest)
    ensures config.subPackages.Some? ==> SubPackagesOf(config) == config.subPackages.value
    ensures config.subPackages.None? && config.subpackages.Some? ==> SubPackagesOf(config) == config.subpackages.value
    ensures config.subPackages.None? && config.subpackages.None? ==> SubPackagesOf(config) == []
  {
  }

  /** A sub-package page is prefixed with its root exactly when the root is
      set and the list is not empty; the top-level pages come first. */
  lemma SubPackagePagesSpec(config: Manifest, item: SubPackage, k: nat)
    requires item.pages.Some? && k < |item.pages.value|
    ensures Truthy(item.root) ==> SubPackagePages(item)[k] == Join(item.root.value, item.pages.value[k])
    ensures !Truthy(item.root) ==> SubPackagePages(item)[k] == item.pages.value[k]
    ensures config.pages.GetOr([]) <= AllPages(config)
  {
  }
}
