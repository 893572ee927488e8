# wxparcel build core, modelled in Dafny

wxparcel builds WeChat mini-programs. It reads the app's `app.json` and
`project.config.json` and turns every page, component and asset into a
*chunk*: a file, its destination in the output folder, its content and its
dependencies. The global *assets* registry holds the chunks. A transformer
rewrites source paths into output paths. In bundle mode, the JS bundler wraps
every script chunk into one module table with numeric module ids. `flush`
writes each chunk to every one of its destinations. The watcher recompiles a
file when it, or a chunk depending on it, changes.

This project models that core:

- **Base modules:** chunk and manifest types (`Typings`), `Wrappers`,
  `Strings`, `Paths` (POSIX `path.join`, `dirname`, `basename`) and `Seqs`.
- **`Utils` and `ModuleName`:** the shared helpers.
- **`Assets`:** the chunk registry, as a class over a sequence of chunks.
- **`JSBundler`:** the bundler, as a class with the id table `uid`/`fileMap`.
  It is proved against specification functions for the module table and the
  entry stubs.
- **`JsonResolver` and `LegacyJsonResolver`:** the resolvers for the current
  and the legacy `app.json`.
- **`Transformer`:** the base transformer's path conversions and alias
  lookup.
- **`PackageManager`:** the template tarball lookup of `create-wxapp`.
- **`OptionManager`:** the option manager, as a class whose `Resolve` fills
  its fields.
- **`NormalConfig`:** the default configuration, as a class over its rule
  and plugin lists.
- **`Parcel`:** `run`, `flush`, the watcher's handlers and `findEntries`.

The model leaves a number of things outside it and takes them as parameters
instead:

- the file system: a set of existing paths, the directories and their
  listings;
- `glob` and `minimatch` (a tester on patterns);
- JSON parsing and stringifying;
- base64 encoding;
- the compiler and the bundler that `run` calls.

## Model

| member | source | states |
|---|---|---|
| Assets.FirstIndex | src/assets.js:14-16 | the index is -1 exactly when no chunk has the file; otherwise it is the first chunk with that file |
| Assets.CountPositive | src/assets.js:39-41 | a file occurs a positive number of times exactly when `exists` holds for it |
| Assets.CountConcat | src/assets.js:18-22 | chunk counts per file add up over concatenation |
| Assets.RemoveFirstSpec | src/assets.js:34-37 | `del` leaves the list alone when the file is absent; otherwise it drops exactly the first chunk for it, keeping the order and the multiset of the others |
| Assets.CountRemoveFirst | src/assets.js:34-37 | deleting a present file lowers its count by one |
| Assets.DelThenExists | src/assets.js:34-41 | after `del`, the file still exists exactly when it was registered twice or more |
| Assets.AddThenGet | src/assets.js:18-32 | after `add`, `index` finds the earlier chunk if there was one, and the new last position otherwise |
| Assets.Assets.constructor | src/assets.js:9-12 | a new registry is empty |
| Assets.Assets.Index | src/assets.js:14-16 | returns the first index of the file, -1 exactly when it is absent |
| Assets.Assets.Add | src/assets.js:18-22 | appends one chunk for the file, grows the size by one and returns that chunk |
| Assets.Assets.Get | src/assets.js:29-32 | returns the first chunk for the file, and nothing exactly when the file is absent |
| Assets.Assets.Update | src/assets.js:24-27 | merges the new state into the first chunk for the file only; an absent file changes nothing |
| Assets.Assets.Del | src/assets.js:34-37 | removes the first chunk for the file |
| Assets.Assets.Exists | src/assets.js:39-41 | true exactly when a chunk has the file |
| Assets.Assets.Clean | src/assets.js:43-48 | empties the registry and returns the chunks it held |
| JSBundler.ToBase32 | @wxparcel/core/src/libs/bundler/JSBundler.ts:47-51 | ids are non-empty lower-case base-32 numerals (`uid.toString(32)`) |
| JSBundler.Base32RoundTrip | @wxparcel/core/src/libs/bundler/JSBundler.ts:47-51 | reading a generated id back gives the counter value |
| JSBundler.Base32Injective | @wxparcel/core/src/libs/bundler/JSBundler.ts:47-51 | distinct counter values give distinct ids |
| JSBundler.Base32Sequence | @wxparcel/core/src/libs/bundler/JSBundler.ts:47-51 | the id sequence starts 0…9, a…v, 10, 11 |
| JSBundler.IdsDistinct | @wxparcel/core/src/libs/bundler/JSBundler.ts:59-71 | in a valid id table, two different files never share an id |
| JSBundler.IdIsNumeral | @wxparcel/core/src/libs/bundler/JSBundler.ts:59-71 | every remembered id is a non-empty numeral without a quote, so it can be quoted safely |
| JSBundler.TableAdd | @wxparcel/core/src/libs/bundler/JSBundler.ts:59-71 | remembering a new file keeps the table valid |
| JSBundler.AddAllConcat | @wxparcel/core/src/libs/bundler/JSBundler.ts:59-71 | remembering two lists of files in turn is remembering their concatenation |
| JSBundler.AddAllMembers | @wxparcel/core/src/libs/bundler/JSBundler.ts:59-71 | remembering only adds, and what it adds is exactly the given paths |
| JSBundler.DepTargetsPrefix | @wxparcel/core/src/libs/bundler/JSBundler.ts:215-224 | the dependency targets of a prefix are a prefix of the targets |
| JSBundler.DepStep | @wxparcel/core/src/libs/bundler/JSBundler.ts:215-224 | one more dependency adds its target and its `required` entry only when it points into the bundle |
| JSBundler.DepFailure | @wxparcel/core/src/libs/bundler/JSBundler.ts:59-62 | a bundled dependency with no single destination path makes the dependency map fail |
| JSBundler.AllVisitsHasOwn | @wxparcel/core/src/libs/bundler/JSBundler.ts:178-204 | every module's own destination is among the paths the module table remembers |
| JSBundler.UnescapeOne | @wxparcel/core/src/libs/bundler/JSBundler.ts:246-256 | each escaped character decodes back to itself |
| JSBundler.JsonEscapeRoundTrip | @wxparcel/core/src/libs/bundler/JSBundler.ts:246-256 | JSON string escaping of map values decodes back to the original |
| JSBundler.SetPropSemantics | @wxparcel/core/src/libs/bundler/JSBundler.ts:215-224 | a set entry reads back its value, leaves every other key alone, and keeps the first-insertion key order |
| JSBundler.WrapCodeShape | @wxparcel/core/src/libs/bundler/JSBundler.ts:239-258 | the wrapped module is the quoted name, the function header, the code verbatim, then the dependency map and `],\n` |
| JSBundler.ModuleNameOfWrapCode | @wxparcel/core/src/libs/bundler/JSBundler.ts:239-267 | the module name read back from the wrapped code is the quoted id |
| JSBundler.ModuleCodes | @wxparcel/core/src/libs/bundler/JSBundler.ts:184-194 | the module table has one wrapped module per chunk, in order |
| JSBundler.TrimEndIsNoOp | @wxparcel/core/src/libs/bundler/JSBundler.ts:178-204 | trimming the trailing comma does nothing, because every module ends in `],\n` |
| JSBundler.StubModuleIdOfEntryStub | @wxparcel/core/src/libs/bundler/JSBundler.ts:123-133 | the entry stub requires the bundle and boots exactly the given module id |
| JSBundler.NonBundle | @wxparcel/core/src/libs/bundler/JSBundler.ts:118 | the filter never grows the list |
| JSBundler.NonBundleMembers | @wxparcel/core/src/libs/bundler/JSBundler.ts:118 | the entries are exactly the chunks that are not bundle chunks |
| JSBundler.EntryBootsItsModule | @wxparcel/core/src/libs/bundler/JSBundler.ts:119-144 | each entry stub boots the id under which the module table holds that chunk |
| JSBundler.ModuleNamesDistinct | @wxparcel/core/src/libs/bundler/JSBundler.ts:178-204 | chunks with different destinations get modules with different names |
| JSBundler.DepMapStable | @wxparcel/core/src/libs/bundler/JSBundler.ts:212-228 | remembering later files never changes a dependency map already built |
| JSBundler.ModuleCodesStable | @wxparcel/core/src/libs/bundler/JSBundler.ts:178-204 | remembering later files never changes modules already wrapped |
| JSBundler.JSBundler.constructor | @wxparcel/core/src/libs/bundler/JSBundler.ts:35-40 | starts with `uid` 0 and an empty file map |
| JSBundler.JSBundler.GenUid | @wxparcel/core/src/libs/bundler/JSBundler.ts:47-51 | returns the current `uid` in base 32 and increments it |
| JSBundler.JSBundler.Remember | @wxparcel/core/src/libs/bundler/JSBundler.ts:59-71 | rejects a destination that is not a single path with the source's message; a known path keeps its id and state; a new path gets the next id |
| JSBundler.JSBundler.WrapModule | @wxparcel/core/src/libs/bundler/JSBundler.ts:212-228 | succeeds exactly when all visited destinations are paths, and then returns the specified module code |
| JSBundler.JSBundler.WrapDependencies | @wxparcel/core/src/libs/bundler/JSBundler.ts:215-224 | builds the dependency map of the bundled dependencies, or fails with the remember error |
| JSBundler.JSBundler.WrapModules | @wxparcel/core/src/libs/bundler/JSBundler.ts:178-204 | returns the module table of all chunks, against the final id table |
| JSBundler.JSBundler.WrapBundler | @wxparcel/core/src/libs/bundler/JSBundler.ts:154-171 | wraps the module table into the bundler template |
| JSBundler.JSBundler.Bundle | @wxparcel/core/src/libs/bundler/JSBundler.ts:81-147 | returns the bundler chunk (prelude plus template) followed by one entry stub per non-bundle chunk, or the remember error |
| JSBundler.JSBundler.WrapEntries | @wxparcel/core/src/libs/bundler/JSBundler.ts:119-144 | returns the entry chunks of the non-bundle chunks and changes no id |
| JSBundler.JSBundler.WrapEntry | @wxparcel/core/src/libs/bundler/JSBundler.ts:123-133 | returns the entry chunk for one chunk and changes no id |
| JsonResolver.KeptFilesMembers | @wxparcel/core/src/resolver/json-resolver.ts:265-286 | the module's files are exactly the folder entries whose name matches and whose extension is kept |
| JsonResolver.FindModule | @wxparcel/core/src/resolver/json-resolver.ts:253-287 | fails for an empty folder and for a path that is not a directory, with the source's messages, then with the `SyntaxError` of `new RegExp(name)`; succeeds exactly when none of these happens, naming the module and its folder |
| JsonResolver.FindModuleFiles | @wxparcel/core/src/resolver/json-resolver.ts:253-287 | the files of a found module are exactly its kept folder entries |
| JsonResolver.MapPagesSpec | @wxparcel/core/src/resolver/json-resolver.ts:153-169 | resolving pages succeeds exactly when every page resolves, in order; otherwise it reports the first failing page's error |
| JsonResolver.ResolvePagesSpec | @wxparcel/core/src/resolver/json-resolver.ts:153-169 | the same, for pages under a given base directory |
| JsonResolver.FirstExisting | @wxparcel/core/src/resolver/json-resolver.ts:226-241 | returns the first search path under which the file exists, and nothing exactly when there is none |
| JsonResolver.ConvertRelative | @wxparcel/core/src/resolver/json-resolver.ts:226-241 | an empty path list is an error; otherwise returns the first existing candidate |
| JsonResolver.SkippedComponent | @wxparcel/core/src/resolver/json-resolver.ts:175-190 | a component found in neither its own folder nor the source folder is skipped |
| JsonResolver.ResolveComponents | @wxparcel/core/src/resolver/json-resolver.ts:175-190 | the loop computes the component modules, in order |
| JsonResolver.ResolveComponent | @wxparcel/core/src/resolver/json-resolver.ts:178-187 | one component resolves to its module, nothing, or an error |
| JsonResolver.ComponentModulesPrefixErr | @wxparcel/core/src/resolver/json-resolver.ts:175-190 | the first failing component decides the result |
| JsonResolver.ResolveTabs | @wxparcel/core/src/resolver/json-resolver.ts:197-214 | returns the de-duplicated icon paths of the tab bar |
| JsonResolver.TabImagesSpec | @wxparcel/core/src/resolver/json-resolver.ts:197-214 | the tab images are distinct, and are exactly the candidate icon paths |
| JsonResolver.TabCandidatesOrder | @wxparcel/core/src/resolver/json-resolver.ts:201-209 | a tab with both icons contributes the icon and then the selected icon |
| JsonResolver.ProjectConfFiles | @wxparcel/core/src/resolver/json-resolver.ts:126-146 | `srcDir/pluginRoot/plugin.json` comes first when the manifest has `pluginRoot` and it exists; `srcDir/<project pluginRoot>/main` comes last when the manifest has `main`, the project configuration has `pluginRoot` and it exists; there are exactly as many files as these conditions hold, and no others |
| JsonResolver.CollapseSeparatorsSpec | @wxparcel/core/src/resolver/json-resolver.ts:104-119 | collapsing runs of separators leaves no two separators in a row |
| JsonResolver.CollapseSeparatorsIdempotent | @wxparcel/core/src/resolver/json-resolver.ts:104-119 | collapsing twice is collapsing once |
| JsonResolver.ConvertRoot | @wxparcel/core/src/resolver/json-resolver.ts:104-119 | a converted root has no `\` and no repeated `/` |
| JsonResolver.ConvertRootName | @wxparcel/core/src/resolver/json-resolver.ts:108-110 | a root that is just the output folder's name becomes `.` |
| JsonResolver.ConvertRootNameSlash | @wxparcel/core/src/resolver/json-resolver.ts:108-110 | the output folder's name with a trailing slash becomes `./` |
| JsonResolver.ConvertRootStripsName | @wxparcel/core/src/resolver/json-resolver.ts:108-110 | the output folder's name, a slash and a plain segment become that segment |
| JsonResolver.ConvertRootKeepsOthers | @wxparcel/core/src/resolver/json-resolver.ts:108-110 | a root not containing the output folder's name is only joined to `.` and collapsed; a plain segment comes back unchanged |
| JsonResolver.ConvertProjectConf | @wxparcel/core/src/resolver/json-resolver.ts:104-119 | changes only `miniprogramRoot` and `pluginRoot`, keeps whether each is set, and sets each present one to its converted root |
| JsonResolver.ConvertProjectConfStripsOutDir | @wxparcel/core/src/resolver/json-resolver.ts:104-119 | roots written as the output folder's name and one segment become that segment; the rest of the manifest is unchanged |
| JsonResolver.ParseConfig | @wxparcel/core/src/resolver/json-resolver.ts:27-40 | an object is taken as is; a parse error becomes the invalid-JSON error for the file |
| JsonResolver.MakeDependencies | @wxparcel/core/src/resolver/json-resolver.ts:87-90 | one dependency per file, from this file, with its converted destination and an empty `required` |
| JsonResolver.Resolve | @wxparcel/core/src/resolver/json-resolver.ts:24-97 | the method computes the specified resolve result |
| JsonResolver.InvalidJsonRejected | @wxparcel/core/src/resolver/json-resolver.ts:27-40 | invalid JSON text is rejected with a message marking it as invalid JSON |
| JsonResolver.ResolvedDependencies | @wxparcel/core/src/resolver/json-resolver.ts:83-97 | every dependency of a resolved file comes from that file and points at its converted destination |
| JsonResolver.DependencyNames | @wxparcel/core/src/resolver/json-resolver.ts:87-90 | one dependency path per dependency, in order |
| JsonResolver.FilesOfMembers | @wxparcel/core/src/resolver/json-resolver.ts:83-84 | a file is among the flattened module files exactly when some module holds it |
| JsonResolver.ResolvedDependencyNames | @wxparcel/core/src/resolver/json-resolver.ts:77-90 | once every step succeeds, resolving succeeds, and the dependencies are the module files (each once, exactly those some module holds), then the tab images, then the plugin files |
| JsonResolver.SubPackagesPreference | @wxparcel/core/src/resolver/json-resolver.ts:53 | `subPackages` wins over `subpackages`; neither means none |
| JsonResolver.SubPackagePagesSpec | @wxparcel/core/src/resolver/json-resolver.ts:62-75 | a sub-package page is joined to its root when the root is set; the top-level pages come first |
| LegacyJsonResolver.SourceText | src/resolver/json-resolver.js:18-32 | text is kept verbatim; an object is stringified, and a stringify failure is the invalid-JSON error |
| LegacyJsonResolver.ResolveComponents | src/resolver/json-resolver.js:70-86 | resolves `usingComponents` relative to the file, as the current resolver does |
| LegacyJsonResolver.Resolve | src/resolver/json-resolver.js:15-46 | the method computes the specified legacy resolve result |
| LegacyJsonResolver.FilesOfRepeats | src/resolver/json-resolver.js:36-37 | a file held by two modules occurs at least twice among the module files |
| LegacyJsonResolver.LegacyResolvedDependencyNames | src/resolver/json-resolver.js:34-43 | once every step succeeds, resolving succeeds, and the dependencies are the page and component module files as found, repeats kept, then the tab images |
| LegacyJsonResolver.LegacyDuplicateDependency | src/resolver/json-resolver.js:34-43 | a file that two modules hold is a dependency at least twice |
| LegacyJsonResolver.ResolvedSource | src/resolver/json-resolver.js:45 | the resolved content is the stringified object or the original text |
| LegacyJsonResolver.LegacyPagesSpec | src/resolver/json-resolver.js:48-54 | without `subPackages` the pages are the top-level pages, which always come first; a page is listed exactly when the top level or a sub-package names it, verbatim with no root prefix; with no applicable sub-package root the list equals the newer resolver's |
| ModuleName.TruthModuleNameSpec | @wxparcel/core/src/share/module.ts:13-20 | a scoped name keeps its first two segments, any other name its first segment |
| ModuleName.TruthModuleNamePrefix | @wxparcel/core/src/share/module.ts:13-20 | the truth module name is a prefix of the name, and the whole name when it has no `/` |
| ModuleName.TruthModuleNameSegments | @wxparcel/core/src/share/module.ts:13-20 | `@scope/name/rest` gives `@scope/name`, and `name/rest` gives `name` |
| PackageManager.GetTarballName | @wxparcel/create-wxapp/src/utils/pm.ts:22-28 | a name that does not start with a word-only `@scope/` is kept as is |
| PackageManager.UnscopedName | @wxparcel/create-wxapp/src/utils/pm.ts:22-28 | an unscoped name is its own tarball name |
| PackageManager.ScopedName | @wxparcel/create-wxapp/src/utils/pm.ts:22-28 | `@scope/rest` with a word-only scope becomes `scope-rest` |
| PackageManager.NonWordScope | @wxparcel/create-wxapp/src/utils/pm.ts:24 | a scope with a non-word character is not rewritten |
| PackageManager.FirstMatching | @wxparcel/create-wxapp/src/utils/pm.ts:40 | the index of the first listing entry the compiled pattern accepts, or -1 exactly when it accepts none |
| PackageManager.FirstPrefixed | @wxparcel/create-wxapp/src/utils/pm.ts:38-40 | the literal reading of the pattern: the first entry that starts with the tarball name ignoring case, or -1 exactly when none does |
| PackageManager.FirstMatchingLiteral | @wxparcel/create-wxapp/src/utils/pm.ts:38-40 | when the pattern `^tarball` (case-insensitive) accepts exactly the names starting with the tarball name, the search is the literal prefix search |
| PackageManager.GetTarball | @wxparcel/create-wxapp/src/utils/pm.ts:33-47 | an empty listing fails with the message as written; otherwise `^tarball` is compiled unescaped and a compile error is the result; else the cwd-joined first entry that it accepts, or the message as written when none does |
| PackageManager.GetTarballLiteral | @wxparcel/create-wxapp/src/utils/pm.ts:38-47 | for a tarball name whose pattern reads literally, the chosen file is the first starting with the name ignoring case |
| PackageManager.GetTarballMessageUninformative | @wxparcel/create-wxapp/src/utils/pm.ts:41-43 | any two missing templates give the same message |
| PackageManager.GetTarballEmptyDirectory | @wxparcel/create-wxapp/src/utils/pm.ts:41-43 | `@a/x` in an empty folder fails with `该模板不存在undefined` |
| PackageManager.GetTarballNamed | @wxparcel/create-wxapp/src/utils/pm.ts:33-47 | same pattern, listing and compile-error cases as `GetTarball`, agrees with it on success, and the missing-template error names the tarball |
| PackageManager.GetTarballNamedTellsApart | @wxparcel/create-wxapp/src/utils/pm.ts:41-43 | with the corrected message, two different missing templates are told apart |
| Transformer.Transform | @wxparcel-transformer/base/src/Transformer.ts:22-28 | the base transformer returns the source unchanged, with no source map, no AST and no dependencies |
| Transformer.FindKey | @wxparcel-transformer/base/src/Transformer.ts:36-39 | finds the first alias key that matches the pattern |
| Transformer.MatchAlias | @wxparcel-transformer/base/src/Transformer.ts:36-39 | returns the value list of the first matching key, or none |
| Transformer.MatchAliasExample | @wxparcel-transformer/base/test/Transformer.spec.ts:37-52 | `@/index` matches `@/*` and gives `src/*`; `@notfound/index` gives none |
| Transformer.LastWhereSpec | @wxparcel-transformer/base/src/Transformer.ts:56-64 | returns the last file satisfying the test, and none exactly when there is none |
| Transformer.FindFile | @wxparcel-transformer/base/src/Transformer.ts:47-67 | propagates a glob error; otherwise returns the last globbed file with the searched base name |
| Transformer.AliasChainStops | @wxparcel-transformer/base/src/Transformer.ts:75-102 | the corrected chain (see Findings) stops at the first pattern that finds a file or fails |
| Transformer.AliasChainFound | @wxparcel-transformer/base/src/Transformer.ts:75-102 | in the corrected chain, a found file comes from the first pattern that finds anything |
| Transformer.AliasChainAsWritten | @wxparcel-transformer/base/src/Transformer.ts:80-101 | whenever the waterfall as written settles, it settles as the corrected chain |
| Transformer.AliasChainAsWrittenStuck | @wxparcel-transformer/base/src/Transformer.ts:80-101 | the promise never settles exactly when there are two or more patterns and the first finds nothing; with at most one pattern it is the corrected chain |
| Transformer.AliasChainSecondPattern | @wxparcel-transformer/base/src/Transformer.ts:80-101 | a file only under the second of two patterns: the source never settles, the corrected chain finds it |
| Transformer.FindFileByAlias | @wxparcel-transformer/base/src/Transformer.ts:75-102 | no alias gives none; otherwise the corrected chain over the matched patterns (see Findings) |
| Transformer.ConvertOutput | @wxparcel-transformer/base/src/Transformer.ts:110-119 | replaces the first occurrence of `srcDir`, else of `rootDir`, by the destination; otherwise keeps the path |
| Transformer.ConvertOutputPrefix | @wxparcel-transformer/base/test/Transformer.spec.ts:79-88 | a file under `srcDir` moves to the destination with the same relative path |
| Transformer.ConvertOutputRoot | @wxparcel-transformer/base/src/Transformer.ts:110-119 | a file under `rootDir` but outside `srcDir` moves relative to the root |
| Transformer.ConvertApp | @wxparcel-transformer/base/src/Transformer.ts:126-129 | a file under `srcDir` moves to `outDir` |
| Transformer.FindNpmSegment | @wxparcel-transformer/base/src/Transformer.ts:136-143 | finds the first `/node_modules/` segment |
| Transformer.ConvertNPMSpec | @wxparcel-transformer/base/src/Transformer.ts:136-143 | without `node_modules`, converts like an app file; otherwise cuts the first segment and converts into `npmDir` |
| Transformer.ConvertNPMUnderRoot | @wxparcel-transformer/base/test/Transformer.spec.ts:100-108 | `root/node_modules/rest` lands at `npmDir/rest` |
| Utils.EscapeRegExp | @wxparcel/core/src/share/utils.ts:9-11 | escaping never shortens the string |
| Utils.EscapeRegExpRoundTrip | @wxparcel/core/src/share/utils.ts:9-11 | unescaping an escaped string gives it back |
| Utils.EscapeRegExpPlain | @wxparcel/core/src/share/utils.ts:9-11 | a string without special characters is unchanged |
| Utils.EscapeRegExpChar | @wxparcel/core/src/share/utils.ts:9-11 | exactly the special characters get a backslash |
| Utils.ReplaceAbsent | @wxparcel/core/src/share/utils.ts:21-30 | with no match, the global case-insensitive replace changes nothing |
| Utils.ReplaceLeftmost | @wxparcel/core/src/share/utils.ts:21-30 | the leftmost match is replaced and scanning resumes after it |
| Utils.ReplacementSpec | @wxparcel/core/src/share/utils.ts:21-30 | `replacement` leaves a source without the content alone, and replaces a source equal to the content by the callback's value |
| Utils.StripBomBytes | @wxparcel/core/src/share/utils.ts:65-71 | drops the UTF-8 BOM exactly when the buffer starts with it |
| Utils.StripBomText | @wxparcel/core/src/share/utils.ts:73-79 | drops U+FEFF exactly when the string starts with it |
| Utils.StripBOM | @wxparcel/core/src/share/utils.ts:64-80 | buffers and strings are stripped; anything else is returned as is |
| Utils.StripBomRoundTrip | @wxparcel/core/src/share/utils.ts:64-80 | stripping a prefixed BOM gives the content back |
| Utils.StripBomOnce | @wxparcel/core/src/share/utils.ts:73-79 | only one BOM is removed |
| Utils.InMatches | @wxparcel/core/src/share/utils.ts:88-96 | true exactly when some pattern tests positive |
| Utils.FindSharedDir | @wxparcel/core/src/share/utils.ts:109 | the first directory that both paths match, every earlier one compiling and missing from a path; or the `SyntaxError` of the first directory that does not compile, every earlier one having passed; never an error when all compile |
| Utils.IsSameOutPath | @wxparcel/core/src/share/utils.ts:104-110 | a missing path is the `Path must be a string` error; an invalid directory expression reached by the search is its `SyntaxError`; otherwise true exactly when a directory matches both paths |
| OptionManager.Or | src/option-manager.js:56-126 | a set, non-empty option wins, else the default |
| OptionManager.DefaultPubPathIsRemote | src/option-manager.js:128-130 | the default public path is an http address |
| OptionManager.RulesErrorNone | src/option-manager.js:151-185 | rule checking passes exactly when every rule passes |
| OptionManager.RulesErrorLast | src/option-manager.js:151-185 | a failure reported is that of the last failing rule |
| OptionManager.RuleCheckOrder | src/option-manager.js:160-181 | a missing test, then a non-RegExp test, then non-array loaders, then a loader without `use`: in that order |
| OptionManager.CheckRules | src/option-manager.js:151-185 | the loop computes the specified rule error |
| OptionManager.ReadAppConf | src/option-manager.js:192-208 | a missing file and invalid JSON raise their errors; otherwise the parsed manifest |
| OptionManager.ResolveOutcomeSpec | src/option-manager.js:128-142 | resolve succeeds exactly when the public path is remote, every rule passes, and `app.json` reads and has pages |
| OptionManager.OptionManager.constructor | src/option-manager.js:20-36 | the root is the working directory; every setting starts unset |
| OptionManager.OptionManager.Fields | src/option-manager.js:218-225 | the field table names `rootDir`, and `appConfigFile` only when it is set |
| OptionManager.OptionManager.ResolveWXAppConf | src/option-manager.js:192-208 | on success sets `appConfig` and `appConfigFile`; on failure keeps them and returns the error |
| OptionManager.OptionManager.Resolve | src/option-manager.js:43-143 | every folder and setting gets its option or its default, and the outcome is the specified check result |
| OptionManager.OptionManager.AssignFields | src/option-manager.js:56-126 | assigns every folder and setting from the options or their defaults |
| OptionManager.OptionManager.Connect | src/option-manager.js:218-225 | the view reads the manager's fields first, then the copied options |
| OptionManager.Connected.constructor | src/option-manager.js:218-225 | the view shares its manager and copies the options |
| NormalConfig.InitialListsSpec | @wxparcel-config/normal/src/index.ts:14-67 | one JS rule, which carries uglify exactly in release environments and only for bundler and scatter chunks; the clean plugin first; the dev server exactly in development |
| NormalConfig.AllRules | @wxparcel-config/normal/src/index.ts:90-92 | the rules are the JS rules followed by the WXSS rules |
| NormalConfig.SetRuleIntended | @wxparcel-config/normal/src/index.ts:107-123 | the corrected `setRule` passes the current list to the callback and stores its result |
| NormalConfig.SetRuleIgnoresCurrent | @wxparcel-config/normal/src/index.ts:110-118 | as written, the callback always receives an empty list |
| NormalConfig.SetRuleIntendedSpec | @wxparcel-config/normal/src/index.ts:107-123 | corrected: an identity callback changes nothing, and an appending one adds the rule at its place |
| NormalConfig.FindIndex | @wxparcel-config/normal/src/index.ts:138 | finds the first matching plugin |
| NormalConfig.RemoveFirstSpec | @wxparcel-config/normal/src/index.ts:137-140 | removes at most one plugin, and none when none matches |
| NormalConfig.RemoveFirstAt | @wxparcel-config/normal/src/index.ts:139 | removes exactly the first match, keeping the others |
| NormalConfig.DelPluginClassIsNoOp | @wxparcel-config/normal/src/index.ts:138 | as written, passing a class removes nothing |
| NormalConfig.DelPluginClassExample | @wxparcel-config/normal/src/index.ts:138 | the clean plugin survives deletion by its class as written, and goes when corrected |
| NormalConfig.CountClassRemove | @wxparcel-config/normal/src/index.ts:139 | `splice(i, 1)` lowers the count of the removed plugin's class by one |
| NormalConfig.DelPluginByClass | @wxparcel-config/normal/src/index.ts:137-140 | corrected, deleting by class removes one plugin of that class and none of another |
| NormalConfig.AddThenDelPlugin | @wxparcel-config/normal/src/index.ts:129-140 | adding a plugin of a new class and deleting it again restores the list |
| NormalConfig.Config.constructor | @wxparcel-config/normal/src/index.ts:14-67 | the configuration starts with the initial lists |
| NormalConfig.Config.Rules | @wxparcel-config/normal/src/index.ts:90-92 | reads the rules in order |
| NormalConfig.Config.SetRule | @wxparcel-config/normal/src/index.ts:107-123 | updates the lists as the source does |
| NormalConfig.Config.AddPlugin | @wxparcel-config/normal/src/index.ts:129-131 | appends the plugin and changes nothing else |
| NormalConfig.Config.DelPlugin | @wxparcel-config/normal/src/index.ts:137-140 | removes the first matching plugin, as the source matches |
| Parcel.OutputContent | @wxparcel/core/src/libs/Parcel.ts:324-335 | the output is the BOM-stripped content, with the inline source map appended exactly for source-mapped bundler and scatter chunks |
| Parcel.ChunkWrites | @wxparcel/core/src/libs/Parcel.ts:337-348 | one write per destination, each with the chunk's output |
| Parcel.StatsOf | @wxparcel/core/src/libs/Parcel.ts:341 | one stat per write, with its destination and length |
| Parcel.Flush | @wxparcel/core/src/libs/Parcel.ts:316-318 | no chunks, or an empty list, is rejected |
| Parcel.AllWritesSpec | @wxparcel/core/src/libs/Parcel.ts:320-348 | the writes are the chunks' writes, in order |
| Parcel.AllWritesUnset | @wxparcel/core/src/libs/Parcel.ts:337-340 | a chunk without destination makes the flush fail |
| Parcel.FlushContents | @wxparcel/core/src/libs/Parcel.ts:313-349 | every write belongs to one chunk and carries that chunk's output |
| Parcel.PlainChunkNoSourceMap | @wxparcel/core/src/libs/Parcel.ts:330 | bundle and entry chunks never get a source map |
| Parcel.TransformInputs | @wxparcel/core/src/libs/Parcel.ts:187 | transforms the involved files, or the file itself when there are none |
| Parcel.ClassifySpec | @wxparcel/core/src/libs/Parcel.ts:202-265 | an ignored file, the app config, a tracked file, a dependency and an untracked file are handled in that order, with the change notice for each |
| Parcel.RemoveChunkSpec | @wxparcel/core/src/libs/Parcel.ts:281-284 | unlinking removes one chunk of the file and leaves other files' counts alone |
| Parcel.CountTracked | @wxparcel/core/src/libs/Parcel.ts:281 | a file is tracked exactly when it has a chunk |
| Parcel.UnlinkForgets | @wxparcel/core/src/libs/Parcel.ts:281-284 | a file tracked once is no longer tracked after unlinking |
| Parcel.RefreshOneSpec | @wxparcel/core/src/libs/Parcel.ts:168-172 | refreshing a file changes only its contents, to the file's text |
| Parcel.RefreshedSpec | @wxparcel/core/src/libs/Parcel.ts:168-184 | refreshing several files changes only contents |
| Parcel.UniqByFileDistinct | @wxparcel/core/src/libs/Parcel.ts:149 | de-duplicated chunks have distinct files |
| Parcel.UniqByFileCovers | @wxparcel/core/src/libs/Parcel.ts:149 | every file survives de-duplication |
| Parcel.UniqByFileFirst | @wxparcel/core/src/libs/Parcel.ts:149 | the chunk kept for a file is its first |
| Parcel.DedupeSpec | @wxparcel/core/src/libs/Parcel.ts:147-149 | flattening, dropping the missing chunks and `uniqBy(file)` keeps one first chunk per file |
| Parcel.EntryList | @wxparcel/core/src/libs/Parcel.ts:437-450 | the app files, then `plugin.json` and `index.js` of the plugin root when it is set |
| Parcel.FindEntries | @wxparcel/core/src/libs/Parcel.ts:437-450 | the entry list of the found app module, or the module error |
| Parcel.EntriesFrom | @wxparcel/core/src/libs/Parcel.ts:437-450 | an entry is an app file or one of the two plugin files |
| Parcel.RunResultSpec | @wxparcel/core/src/libs/Parcel.ts:50-96 | a run never rejects once started; a missing project config fails and registers nothing; no chunks fails the flush |
| Parcel.Parcel.constructor | @wxparcel/core/src/libs/Parcel.ts:42-45 | not running, over the given registry |
| Parcel.Parcel.Run | @wxparcel/core/src/libs/Parcel.ts:50-96 | a second run is rejected; otherwise the outcome and registry are the specified ones, and running is cleared |
| Parcel.Parcel.HandleFileChanged | @wxparcel/core/src/libs/Parcel.ts:202-265 | the chosen action is the specified classification |
| Parcel.Parcel.HandleFileUnlink | @wxparcel/core/src/libs/Parcel.ts:268-285 | a tracked, non-ignored file is removed and notified; anything else changes nothing |
| Parcel.Parcel.Compile | @wxparcel/core/src/libs/Parcel.ts:155-187 | refreshes the file and the involved files, selects the transform inputs, and clears running |

## Left out

- Source maps are not modelled. `SourceNode` and the chunk's map are an opaque string. Base64 encoding is a parameter.
- The model has no UTF-8 encoding. `content.length` in the flush stats counts characters of the model's string.
- The file system, `glob`, the watcher (`chokidar`), `portscanner`, the IP lookup and the reading of the bundler prelude are parameters or sets. There is no I/O.
- Concurrency is not modelled. `Promise.all` and the plugin waterfall run in sequence.
- JSBundler.JSBundler.WrapModules: stops at the first chunk whose `remember` fails. The source's `Promise.all` over `chunks.map(wrapModule)` still runs the synchronous `remember` calls of every chunk, so after a failed bundle the source's id table may hold more entries than the model's.
- Plugin hooks (`async`, `before`, `beforeTransform`) and logging are left out. A hook that adds chunks is not modelled.
- `Chunk`, `GlobalAssets`, `GlobalParser.multiCompile`, `GlobalBundler` and `findChunkByDependent` are not part of this model. Compiling and bundling are parameter functions, and the dependents of a file are a parameter.
- JSON parsing and stringifying are parameters. Key order inside JSON objects is not modelled.
- JSBundler.SetPropSemantics: keeps keys in the order they were first set and stringifies them in that order. `JSON.stringify(dependencies)` lists integer-like keys (canonical array indices such as `"0"` or `"12"`) first, in ascending numeric order, and only then the other keys in insertion order. `dependencies['__proto__'] = id` sets the prototype and creates no own key, so the source leaves that key out of the output; the model keeps it.
- Parcel.Parcel.Run and Parcel.Parcel.Compile: neither records `stats.spendTime` (`Date.now() - startTime`, a clock reading). `Run` returns the flush stats without it. `Compile` stops at choosing the files to transform: the transform itself, the flush of its chunks and the call to `options.complete(stats)` are left out, and errors they raise are only logged by the source.
- Regular expressions and `minimatch` are abstract testers. A regular expression built from input at run time (`findModule`, `isSameOutPath`, `getTarball`) goes through an abstract compiler that may fail with the `SyntaxError` message; which sources are valid is not worked out. `escapeRegExp` is modelled on the set of characters it escapes.
- Case folding in the case-insensitive comparisons covers ASCII letters only.
- Unset `OptionManager` fields are modelled as empty strings. `OptionManager.OptionManager.Fields` and `OptionManager.OptionManager.Connect` always list all of them, whereas `mapValues(this)` called before `resolve` has run sees only `rootDir` and `execDir`.
- The options of `CleanPlugin` and the other plugins' constructors are not modelled. A plugin is a class name with an instance number.
- The `setRule` callback is a pure function.
- In the watcher, `appConfigFile` is the value read when `watch` is called, as in the source. Re-reading `app.json` after a change is `ResolveWXAppConf`.
- Error messages for an unset destination and Node's `ENOENT` text are not reproduced word for word.
- The `OptionManager` constructor calls `resolve` without waiting for it. The model calls `Resolve` explicitly.
- Object identity is not modelled. A chunk is a value, so aliasing between the registry and the chunks held elsewhere is not captured.
- The following are not part of this model: the loaders, the plugins, the CLI, the resolvers built on the generic resolver (JS, WXML, WXSS), and the `gen`/`genFileSync` helpers.
- Strings.ReplaceFirst: does not interpret the `$&`, `$1` and `$$` patterns of `String.prototype.replace` in the replacement. `Transformer.ConvertOutput`, `JSBundler` and `JsonResolver.ConvertRoot` pass it a destination path or `''`; a destination containing `$` would be rewritten by the source and is kept verbatim here.
- Paths.Relative: does not resolve its arguments against the working directory first, as `path.relative` does. When exactly one argument is absolute, its answer differs from Node's.
- PackageManager.GetTarball: the compiled pattern is an abstract parameter. Which names a `^tarball` pattern accepts once `.`, `+` or `(` keep their regular-expression meaning is not worked out. `FirstMatchingLiteral` states the literal case only.
- Parcel.Parcel.HandleFileChanged: returns the action it takes but does not run the compile it schedules. `Compile` is a separate method.

## Findings

| source | as written | input that shows it | evidently intended | confidence | as-written member | corrected member |
|---|---|---|---|---|---|---|
| @wxparcel/create-wxapp/src/utils/pm.ts:41-43 | the error message interpolates `project`, which is undefined at that point | `@a/x` with an empty template folder fails with `该模板不存在undefined` | the message names the missing tarball | not executed | PackageManager.GetTarball (PackageManager.GetTarballEmptyDirectory) | PackageManager.GetTarballNamed (PackageManager.GetTarballNamedTellsApart) |
| @wxparcel-config/normal/src/index.ts:110-112 | `rules` aliases `jsRules`, so `splice(0)` empties it before `callback(rules)` runs | an identity callback on a non-empty `jsRules` leaves `jsRules` empty | the callback receives the current rules | not executed | NormalConfig.SetRuleIgnoresCurrent | NormalConfig.SetRuleIntendedSpec |
| @wxparcel-config/normal/src/index.ts:138 | for a class argument it compares each plugin instance with the class itself, which never holds | `[CleanPlugin instance]` with `CleanPlugin` passed stays unchanged | compare `item.constructor` with the class | not executed | NormalConfig.DelPluginClassIsNoOp | NormalConfig.DelPluginByClass |
| @wxparcel-transformer/base/src/Transformer.ts:82-100 | `waterfall` passes the previous task's result ahead of the callback, but every task takes the callback as its only parameter | an alias with patterns `a/*` and `b/*` and the file only under `b/`: the second task calls `undefined` and the promise never settles | after a miss, go on to the next pattern | not executed; assumes the tasks are compiled to plain functions, since `async` would call native async functions without a callback | Transformer.AliasChainAsWritten (Transformer.AliasChainSecondPattern) | Transformer.AliasChain (Transformer.AliasChainFound) |
