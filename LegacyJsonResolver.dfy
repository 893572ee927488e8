/** The first-generation manifest resolver (`src/resolver/json-resolver.js`).
    It shares `findModule`, the folder search and the tab-image collection
    with the newer resolver (the code is the same), and differs in how it
    reads sub-packages, where pages are looked up, which components it
    reads, and that it does not de-duplicate module files. */
module LegacyJsonResolver {
  import opened Wrappers
  import opened Paths
  import opened Seqs
  import opened Typings
  import JR = JsonResolver

  /** The source as given back: the text for a string source, the
      `JSON.stringify` of an object source (which may throw). */
  function SourceText(file: string, source: JR.Source, stringify: Manifest -> Result<string>): (r: Result<string>)
    ensures source.Text? ==> r == Ok(source.text)
    ensures source.Object? && stringify(source.config).Err? ==> r == Err(JR.InvalidJson(file, stringify(source.config).error))
  {
    match source
    case Text(text) => Ok(text)
    case Object(config) =>
      var s := stringify(config);
      if s.Err? then Err(JR.InvalidJson(file, s.error)) else s
  }

  /** `config.pages || []` followed by every `subPackages[i].pages || []`,
      with no root prefix; `subpackages` is not read. */
  function LegacyPages(config: Manifest): seq<string> {
    var subs := config.subPackages.GetOr([]);
    config.pages.GetOr([]) + Flatten(seq(|subs|, k requires 0 <= k < |subs| => subs[k].pages.GetOr([])))
  }

  /** Those pages resolved against `srcDir` (not the manifest's folder). */
  function ResolvePages(config: Manifest, env: JR.Env): Result<seq<Module>> {
    JR.ResolvePagesFrom(env.srcDir, LegacyPages(config), env)
  }

  type Module = JR.Module

  /** `resolveComponents(config, file)`: only `usingComponents`. */
  method ResolveComponents(config: Manifest, file: string, env: JR.Env) returns (r: Result<seq<Module>>)
    ensures r == JR.ComponentModules(Dirname(file), config.usingComponents.GetOr([]), env)
  {
    r := JR.ResolveComponents(file, config.usingComponents.GetOr([]), env);
  }

  /** The whole of `resolve`, as a function of its inputs. */
  function ResolveResult(file: string, source: JR.Source, env: JR.Env, parse: string -> Result<Manifest>,
                         stringify: Manifest -> Result<string>, resolveDestination: string -> string): Result<JR.Resolved>
  {
    var config :- JR.ParseConfig(file, source, parse);
    var text :- SourceText(file, source, stringify);
    var pages :- ResolvePages(config, env);
    var components :- JR.ComponentModules(Dirname(file), config.usingComponents.GetOr([]), env);
    var files := JR.FilesOf(pages + components) + Uniq(JR.TabCandidates(Dirname(file), config.tabBarList.GetOr([])));
    Ok(JR.Resolved(file, text, JR.MakeDependencies(file, files, resolveDestination)))
  }

  /** `resolve(source, file)`. */
  method Resolve(file: string, source: JR.Source, env: JR.Env, parse: string -> Result<Manifest>,
                 stringify: Manifest -> Result<string>, resolveDestination: string -> string) returns (r: Result<JR.Resolved>)
    ensures r == ResolveResult(file, source, env, parse, stringify, resolveDestination)
  {
    var config :- JR.ParseConfig(file, source, parse);
    var text :- SourceText(file, source, stringify);
    var pages :- ResolvePages(config, env);
    var components :- ResolveComponents(config, file, env);
    var files := JR.FilesOf(pages + components);
    var images := JR.ResolveTabs(file, config.tabBarList.GetOr([]));
    var dependencies := JR.MakeDependencies(file, files + images, resolveDestination);
    return Ok(JR.Resolved(file, text, dependencies));
  }

  /** Two modules that both hold a file put it into the module files twice
      (at least). */
  lemma {:induction false} FilesOfRepeats(ms: seq<Module>, i: nat, j: nat, f: string)
    requires i < j < |ms| && f in ms[i].files && f in ms[j].files
    ensures multiset(JR.FilesOf(ms))[f] >= 2
    decreases |ms|
  {
    assert JR.FilesOf(ms) == ms[0].files + JR.FilesOf(ms[1..]);
    if i == 0 {
      JR.FilesOfMembers(ms[1..]);
      assert f in ms[1..][j - 1].files;
      assert f in JR.FilesOf(ms[1..]);
    } else {
      FilesOfRepeats(ms[1..], i - 1, j - 1, f);
    }
  }

  /** Once the manifest parses and its pages and components resolve, the
      dependencies are the files of the page and `usingComponents` modules
      as found, repeats kept, followed by the tab images. */
  lemma LegacyResolvedDependencyNames(file: string, source: JR.Source, env: JR.Env, parse: string -> Result<Manifest>,
                                      stringify: Manifest -> Result<string>, resolveDestination: string -> string,
                                      config: Manifest, pages: seq<Module>, components: seq<Module>)
    requires JR.ParseConfig(file, source, parse) == Ok(config)
    requires SourceText(file, source, stringify).Ok?
    requires ResolvePages(config, env) == Ok(pages)
    requires JR.ComponentModules(Dirname(file), config.usingComponents.GetOr([]), env) == Ok(components)
    ensures ResolveResult(file, source, env, parse, stringify, resolveDestination).Ok?
    ensures JR.DependencyNames(ResolveResult(file, source, env, parse, stringify, resolveDestination).value.dependencies) ==
      JR.FilesOf(pages + components) + Uniq(JR.TabCandidates(Dirname(file), config.tabBarList.GetOr([])))
  {
    var r := ResolveResult(file, source, env, parse, stringify, resolveDestination).value;
    var files := JR.FilesOf(pages + components) + Uniq(JR.TabCandidates(Dirname(file), config.tabBarList.GetOr([])));
    assert r.dependencies == JR.MakeDependencies(file, files, resolveDestination);
  }

  /** Unlike the newer resolver, a file that two of the modules hold is a
      dependency at least twice. */
  lemma LegacyDuplicateDependency(file: string, source: JR.Source, env: JR.Env, parse: string -> Result<Manifest>,
                                  stringify: Manifest -> Result<string>, resolveDestination: string -> string,
                                  config: Manifest, pages: seq<Module>, components: seq<Module>, i: nat, j: nat, f: string)
    requires JR.ParseConfig(file, source, parse) == Ok(config)
    requires SourceText(file, source, stringify).Ok?
    requires ResolvePages(config, env) == Ok(pages)
    requires JR.ComponentModules(Dirname(file), config.usingComponents.GetOr([]), env) == Ok(components)
    requires i < j < |pages + components| && f in (pages + components)[i].files && f in (pages + components)[j].files
    ensures multiset(JR.DependencyNames(ResolveResult(file, source, env, parse, stringify, resolveDestination).value.dependencies))[f] >= 2
  {
    LegacyResolvedDependencyNames(file, source, env, parse, stringify, resolveDestination, config, pages, components);
    FilesOfRepeats(pages + components, i, j, f);
  }

  /** A plain-object source comes back as its `JSON.stringify` text, and a
      text source comes back unchanged. */
  lemma ResolvedSource(file: string, source: JR.Source, env: JR.Env, parse: string -> Result<Manifest>,
                       stringify: Manifest -> Result<string>, resolveDestination: string -> string)
    requires ResolveResult(file, source, env, parse, stringify, resolveDestination).Ok?
    ensures source.Object? ==> Ok(ResolveResult(file, source, env, parse, stringify, resolveDestination).value.content) == stringify(source.config)
    ensures source.Text? ==> ResolveResult(file, source, env, parse, stringify, resolveDestination).value.content == source.text
  {
  }

  /** Only camel-case `subPackages` counts, and its pages follow the
      top-level pages verbatim: a page is listed exactly when the top level
      or some sub-package names it, with no root prefix. Where no
      sub-package root applies, the legacy list is the newer resolver's. */
  lemma LegacyPagesSpec(config: Manifest)
    ensures config.subPackages.None? ==> LegacyPages(config) == config.pages.GetOr([])
    ensures config.pages.GetOr([]) <= LegacyPages(config)
    ensures var subs := config.subPackages.GetOr([]);
      forall p :: p in LegacyPages(config) <==>
        p in config.pages.GetOr([]) || exists k :: 0 <= k < |subs| && p in subs[k].pages.GetOr([])
    ensures (config.subPackages.Some? || config.subpackages.None?) &&
            (forall k :: 0 <= k < |config.subPackages.GetOr([])| ==> !Truthy(config.subPackages.GetOr([])[k].root)) ==>
      LegacyPages(config) == JR.AllPages(config)
  {
    var subs := config.subPackages.GetOr([]);
    var lists := seq(|subs|, k requires 0 <= k < |subs| => subs[k].pages.GetOr([]));
    if config.subPackages.None? {
      assert lists == [];
    }
    FlattenMembers(lists);
    forall p | p in Flatten(lists) ensures exists k :: 0 <= k < |subs| && p in subs[k].pages.GetOr([]) {
      var k :| 0 <= k < |lists| && p in lists[k];
      assert p in subs[k].pages.GetOr([]);
    }
    forall p, k | 0 <= k < |subs| && p in subs[k].pages.GetOr([]) ensures p in Flatten(lists) {
      assert p in lists[k];
    }
    if (config.subPackages.Some? || config.subpackages.None?) &&
       (forall k :: 0 <= k < |subs| ==> !Truthy(subs[k].root)) {
      assert JR.SubPackagesOf(config) == subs;
      var prefixed := seq(|subs|, k requires 0 <= k < |subs| => JR.SubPackagePages(subs[k]));
      assert prefixed == lists by {
        forall k | 0 <= k < |subs| ensures prefixed[k] == lists[k] {
          assert !Truthy(subs[k].root);
        }
      }
    }
  }
}
