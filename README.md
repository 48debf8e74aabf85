# entoj-sass in Dafny: documentation extraction and bundle building

This project models two parts of entoj-sass, the stylesheet plugin of the entoj
design-system toolkit.

**The documentation extractor of `SassParser`.** `parseNode` walks the children of a
stylesheet syntax-tree node once, in order, and keeps a single pending comment. A
multiline comment becomes the pending comment. The next construct consumes it:

- a variable declaration yields a variable entity named `$name`;
- a ruleset yields one class entity per selector, named `.class`;
- a mixin or function yields a callable entity. Its parameters are extended by the
  `$`-prefixed argument variables, each name listed once.

An at-rule is walked by a recursive call seeded with the current pending comment. Its
entities are spliced into the output in place, and the outer pending comment is left as
it was. `parse` turns text into a tree through an analyzer and returns no entities when
no tree comes back.

**The bundle building of `CompileSassTask`.** `generateFilesForEntities` writes, for each
css group, a stylesheet of `@import` lines. To do so it:

- follows the site's `extends` chain from the root down;
- sorts the entities by category position;
- keeps the stylesheets of each chain site that are not `_` partials;
- collects them per group in a dictionary;
- writes the settings file first, then every collected file that is not an excluded
  settings file.

`prepareParameters` fills the task's parameter defaults in place. `compileFile` turns one
bundle into css.

Files:

- `wrappers.dfy`: `Option` and `Result`.
- `sass_syntax.dfy`: syntax-tree nodes and the accessors the extractor uses (`first`,
  children of a type, descendants of a type).
- `documentation.dfy`: drafts returned by the comment classifier, and the documented
  entities.
- `sass_parser.dfy`: the extractor. The specification is the functions `Visit` (one child),
  `Walk` (a left fold of `Step` over the children) and `Extract`. The methods `ParseNode`, `VisitToken`,
  `DocumentRuleset`, `DocumentMixin`, `CollectParameters` and `Parse` do the work step by
  step, with loops over the children, and are proved equal to the functions.
- `sass_parser_properties.dfy`: what each node type does to the pending comment and the
  output, and properties of whole walks.
- `strings.dfy`: JavaScript `startsWith`, `indexOf` and first-occurrence `replace`.
- `compile_sass_task.dfy`: sites, entities, files and the task's operations. It contains
  the in-place sort of an `array`, the dictionary of groups (`map`), the content loop, a
  `class` for the parameters object, and `CompileFile`.
- `compile_sass_task_properties.dfy`: properties of the chain, the ordering, the groups,
  the bundle text, the parameters and compiling.

External code is passed in as function-valued parameters:

- the comment classifier, `DocBlockParser.parse` (`Classifier`);
- the syntax analyzer, `gonzales.parse`;
- `trimMultiline`;
- the path helpers `pathes.normalize`, `pathes.trimLeadingSlash` and
  `urls.normalizePathSeparators`;
- the bundle namer, `templateString`;
- `pathesConfiguration.resolve`;
- the compiler, `sass.renderSync`.

The source throws in two cases, and the model returns an `Err` for both:

- an accessor chain such as `selector.first('class').first('ident')` reaches a missing
  child;
- the classifier throws. This is modelled as the draft `Rejected`.

### Behaviour of the code worth noting

- **Unlisted node types.** The `default: break;` of the `switch` keeps the pending
  comment for any node type it does not list (`SassParserProperties.InertKeepsPending`).
- **Empty content in `parse`.** The guard for empty or blank content builds a resolved
  promise and drops it, since it has no `return`. The analyzer therefore runs on every
  content (`SassParser.Parse`).
- **A callable without an argument list.** The entity keeps the parameters the classifier
  put in the draft. It does not get an empty list (`SassParserProperties.CallableConsumesComment`).
- **Comment carry-over across an at-rule.** After an at-rule, the pending comment is the
  one from before it. A comment in front of an at-rule such as `@media` can therefore
  still document the construct after the at-rule's block
  (`SassParserProperties.AtruleKeepsOuterPending`).
- **`sassConfiguration.defaultGroup`.** `SassConfiguration` defines no such property. An
  entity without `groups.css` therefore lands under the key `"undefined"`.
- **The `compileFile` guard.** `!file || !file.isNull` reads the method `isNull` without
  calling it, and a method is always truthy. So only a missing file is skipped.
- **The `.scss` rename in `compileFile`.** `replace(/\.scss/, '.css')` renames the first
  `.scss` anywhere in the path, not the extension
  (`CompileSassTaskProperties.CssPathFirstOccurrence`).

## Model

| member | source | states |
|---|---|---|
| SassParser.ParseNode | source/parser/documentation/SassParser.js:55-165 | the loop over `node.content` returns exactly `Extract(node, comment)`, the left-fold specification; an error stops it with that error |
| SassParser.VisitToken | source/parser/documentation/SassParser.js:67-158 | one turn of the `switch` for a non-at-rule child equals `Visit`: comment replaced, consumed by a declaration, ruleset or callable when truthy, cleared by `;`, kept otherwise |
| SassParser.DocumentRuleset | source/parser/documentation/SassParser.js:91-110 | the loop over the selector children equals `DocumentSelectors` on the `selector` children of the ruleset |
| SassParser.DocumentMixin | source/parser/documentation/SassParser.js:112-141 | the mixin/function case equals `DocumentCallable`: a callable draft becomes one entity named by the ident, parameters extended from the argument list when present |
| SassParser.Listed | source/parser/documentation/SassParser.js:130 | the `find` over the parameters is true exactly when one of them has the name |
| SassParser.CollectParameters | source/parser/documentation/SassParser.js:123-137 | the `traverseByTypes` loop with its `find` check equals `ArgumentParameters`: names `'$' + ident` added in order unless already listed |
| SassParser.Parse | source/parser/documentation/SassParser.js:173-208 | the analyzer is always consulted (the empty guard has no effect); no tree gives `Ok([])`; a tree gives the extraction of its children with no pending comment |
| SassParser.WalkErrorPersists | source/parser/documentation/SassParser.js:58-162 | once a child fails, the whole pass fails with that error |
| SassParser.SelectorsErrorPersists | source/parser/documentation/SassParser.js:95-107 | once a selector fails, the ruleset fails with that error |
| SassParser.NamesErrorPersists | source/parser/documentation/SassParser.js:127-136 | once an argument variable lacks an ident, collecting the parameters fails |
| SassSyntax.FirstIndex | source/parser/documentation/SassParser.js:82 | the least index of a child of the kind, or none when no child has it |
| SassSyntax.First | source/parser/documentation/SassParser.js:82 | `first(type)`: a child of that kind, or none exactly when no child has the kind |
| SassSyntax.FirstIsFirst | source/parser/documentation/SassParser.js:82 | what `first(type)` returns is a child of the kind with no child of the kind before it |
| SassSyntax.ChildrenOfKind | source/parser/documentation/SassParser.js:94 | `content.filter(type == kind)`: exactly the children of the kind, each of the kind |
| SassSyntax.ChildrenOfKindSingle | source/parser/documentation/SassParser.js:94 | a single child is kept once when it has the type and dropped otherwise |
| SassSyntax.ChildrenOfKindConcat | source/parser/documentation/SassParser.js:94 | filtering `a + b` gives the filtered `a` followed by the filtered `b`; with `ChildrenOfKindSingle`, each child of the type is kept once, in order |
| SassSyntax.Descendants | source/parser/documentation/SassParser.js:126-127 | `traverseByTypes`: every node returned has the kind |
| SassSyntax.DescendantsExact | source/parser/documentation/SassParser.js:126-127 | a node is returned iff it lies in the subtree (the node itself included) and has the kind |
| SassParserProperties.CommentReplacesPending | source/parser/documentation/SassParser.js:69-71 | a multiline comment makes `'/*' + content + '*/'` pending, whatever was pending, and emits nothing |
| SassParserProperties.NothingDocumentedWithoutComment | source/parser/documentation/SassParser.js:73-149 | with no pending comment, every child other than a comment or an at-rule leaves the frame unchanged |
| SassParserProperties.InertKeepsPending | source/parser/documentation/SassParser.js:144-157 | every type without a case of its own (`space`, `ident`, `selector`, `arguments` and the other query types, and every other type) leaves pending comment and output unchanged |
| SassParserProperties.DelimiterDiscardsComment | source/parser/documentation/SassParser.js:147-149 | `declarationDelimiter` clears the pending comment without emitting |
| SassParserProperties.DeclarationConsumesComment | source/parser/documentation/SassParser.js:73-89 | a declaration after a comment: a variable draft appends one entity named `'$' + ident`, tagged; any other draft appends nothing; the comment is cleared either way; a rejected comment or missing ident is an error |
| SassParserProperties.SelectorsDocumented | source/parser/documentation/SassParser.js:91-110 | success iff there are no selectors or the comment is not rejected and, for a class draft, every selector has a class ident; drafts other than a class give no entities |
| SassParserProperties.SelectorsNamed | source/parser/documentation/SassParser.js:95-107 | a class draft gives one class entity per selector, in selector order, named `'.' + class` and tagged |
| SassParserProperties.RulesetConsumesComment | source/parser/documentation/SassParser.js:91-110 | a ruleset after a comment appends what `SelectorsDocumented` and `SelectorsNamed` describe and clears the comment once |
| SassParserProperties.CallableConsumesComment | source/parser/documentation/SassParser.js:112-141 | a mixin or function after a comment succeeds iff the comment is not rejected and, for a callable draft, the ident exists and every argument variable has an ident; it clears the comment and appends at most one entity, exactly when the draft is callable, named by the ident, tagged, with the draft's parameters extended by the argument variables |
| SassParserProperties.AtruleKeepsOuterPending | source/parser/documentation/SassParser.js:151-154 | an at-rule appends the entities of the recursion seeded with the pending comment, and the outer pending comment stays as it was |
| SassParserProperties.WalkConcat | source/parser/documentation/SassParser.js:61-161 | walking `xs + ys` emits the entities of `xs`, then those of `ys` walked from the comment `xs` left pending: output follows traversal order |
| SassParserProperties.ExtractWellFormed | source/parser/documentation/SassParser.js:79-80 | every entity `parseNode` returns has content type SASS and kind CSS; variable names start with `$`, class names with `.` |
| SassParserProperties.WalkWellFormed | source/parser/documentation/SassParser.js:61-161 | the same, for every prefix of the children |
| SassParserProperties.VisitWellFormed | source/parser/documentation/SassParser.js:73-142 | the same, for the entities one child emits |
| SassParserProperties.SelectorsWellFormed | source/parser/documentation/SassParser.js:100-105 | ruleset entities are tagged class entities named with a leading `.` |
| SassParserProperties.CommentFreeEmitsNothing | source/parser/documentation/SassParser.js:61-161 | a tree without any multiline comment, at-rules included, yields no entities and no error, whatever the classifier |
| SassParserProperties.CommentFreeWalkEmitsNothing | source/parser/documentation/SassParser.js:65-159 | the same for a sequence of children walked with no pending comment; nothing becomes pending |
| SassParserProperties.InertChildrenIgnored | source/parser/documentation/SassParser.js:144-157 | removing every child whose type has no case of its own changes neither the output nor the pending comment |
| SassParserProperties.AddParameterListed | source/parser/documentation/SassParser.js:130-135 | a listed name leaves the parameters unchanged, a new one is appended without metadata; a name is listed afterwards iff it was before or is the added one |
| SassParserProperties.AddParametersExtends | source/parser/documentation/SassParser.js:127-136 | adding argument names keeps the listed parameters first and unchanged; each added one has no metadata, is among the names and was not listed before |
| SassParserProperties.AddParametersNames | source/parser/documentation/SassParser.js:127-136 | a name is listed afterwards iff it was listed before or is among the argument names |
| SassParserProperties.AddParametersOrder | source/parser/documentation/SassParser.js:127-136 | the added parameters come in the order in which their names are first met |
| SassParserProperties.AddParametersUnique | source/parser/documentation/SassParser.js:127-136 | no name is added twice, so parameters with unique names keep unique names |
| Strings.IndexOf | source/task/CompileSassTask.js:229 | `indexOf`: the least index where the pattern occurs, or none when it does not occur |
| Strings.ReplaceFirst | source/task/CompileSassTask.js:229 | `replace(pattern, replacement)`: the first occurrence replaced and the rest kept; no occurrence, no change |
| Strings.ExtensionRenamed | source/task/CompileSassTask.js:336 | in a stem without `.scss`, then `.scss`, then anything, that `.scss` is the one replaced, and what follows it is kept |
| Strings.ReplacePrefix | source/task/CompileSassTask.js:229 | a pattern at the start of the text is the occurrence replaced, and the rest is kept |
| CompileSassTask.SettingsFile | source/task/CompileSassTask.js:166-170 | the site's settings when truthy, else the parent's; truthy iff one of the two is |
| CompileSassTask.ExcludedFiles | source/task/CompileSassTask.js:171-175 | the settings file first, then the parent's settings when truthy, and nothing else |
| CompileSassTask.GroupOf | source/task/CompileSassTask.js:192-193 | the entity's `groups.css` when set; the key `"undefined"` exactly when it is unset or is that string |
| CompileSassTask.CompileIncludes | source/task/CompileSassTask.js:327-332 | the sites root first, then the prepared include paths in order, then the option's path when truthy, and nothing else |
| CompileSassTask.CssPath | source/task/CompileSassTask.js:336 | empty iff the path is; unchanged without `.scss`; otherwise one shorter, with `.css` at the first `.scss` and the rest kept |
| CompileSassTask.SiteChain | source/task/CompileSassTask.js:178-184 | the `while`/`unshift` loop returns `Ancestry(site)`, the chain from the root ancestor to the site |
| CompileSassTask.SortByPosition | source/task/CompileSassTask.js:187 | sorting the array in place leaves `ByPosition` of its old contents |
| CompileSassTask.InsertLast | source/task/CompileSassTask.js:187 | one step of the in-place sort inserts the next entity after every entity of no greater position |
| CompileSassTask.CollectSourceFiles | source/task/CompileSassTask.js:190-209 | the dictionary has exactly the first-seen group keys, and each key maps to the group's eligible files in entity order |
| CompileSassTask.AddEntityFiles | source/task/CompileSassTask.js:195-208 | the loop over the chain appends, site by site, the entity's eligible files to its group's list and changes no other group |
| CompileSassTask.BucketOfUnseen | source/task/CompileSassTask.js:194 | a group not met yet starts with an empty list |
| CompileSassTask.BundleContent | source/task/CompileSassTask.js:221-235 | the content is the import lines of the truthy settings file and then of every non-excluded include path, in order |
| CompileSassTask.WriteBundles | source/task/CompileSassTask.js:212-243 | one bundle per group key, in key order, named by the template and holding that group's text |
| CompileSassTask.GenerateFilesForEntities | source/task/CompileSassTask.js:160-245 | entities end sorted; exactly one bundle per group, each named by the template and holding the group's imports |
| CompileSassTask.Resolved | source/task/CompileSassTask.js:143-148 | each configured include path resolved, same count, configuration order |
| CompileSassTask.TaskParameters.Prepare | source/task/CompileSassTask.js:123-153 | the fields become `Prepared` of their old values: query defaults to `*`, a falsy template takes the configured one, one path becomes a one-element list, a falsy value the resolved configured paths |
| CompileSassTask.CompileFile | source/task/CompileSassTask.js:313-384 | nothing for a missing file and only then; empty data gives empty css; for non-empty data, an error naming the file exactly when the compiler fails on the data and `CompileIncludes`, else the compiler's css; the css file's path is the renamed path |
| CompileSassTaskProperties.ChainFromRoot | source/task/CompileSassTask.js:178-184 | the chain starts at a site without parent and ends at the site; each site's parent is the one before it; the site at index i has i ancestors |
| CompileSassTaskProperties.ChainDistinct | source/task/CompileSassTask.js:178-184 | no site appears twice in the chain |
| CompileSassTaskProperties.InsertSorted | source/task/CompileSassTask.js:187 | inserting into a sequence ascending by position keeps it ascending |
| CompileSassTaskProperties.InsertPermutes | source/task/CompileSassTask.js:187 | inserting adds exactly that entity and keeps the others |
| CompileSassTaskProperties.ByPositionSorted | source/task/CompileSassTask.js:187 | the sorted entities ascend by category position and are a permutation of the given ones |
| CompileSassTaskProperties.InsertStable | source/task/CompileSassTask.js:187 | inserting puts the new entity after the entities of equal position |
| CompileSassTaskProperties.ByPositionStable | source/task/CompileSassTask.js:187 | entities of equal position keep their relative order |
| CompileSassTaskProperties.GroupsAreKeys | source/task/CompileSassTask.js:191-194 | the group keys are exactly the groups of the entities, each once |
| CompileSassTaskProperties.FilesOfSiteMembers | source/task/CompileSassTask.js:197-203 | the filter keeps exactly the files that are SASS, not `_` partials, and of the site |
| CompileSassTaskProperties.EntityFilesMembers | source/task/CompileSassTask.js:195-208 | an entity contributes exactly its files eligible for some chain site |
| CompileSassTaskProperties.BucketMembers | source/task/CompileSassTask.js:191-209 | a file is in a group's list iff an entity of that group has it and it is eligible for some chain site |
| CompileSassTaskProperties.OneLinePerImport | source/task/CompileSassTask.js:221-235 | the bundle text has one line break per import when no path holds a line break |
| CompileSassTaskProperties.TextConcat | source/task/CompileSassTask.js:221-235 | the text of two import lists is the text of the first followed by that of the second |
| CompileSassTaskProperties.SettingsImportedFirst | source/task/CompileSassTask.js:222-225 | a truthy settings file's import is the first line of the bundle |
| CompileSassTaskProperties.KeptPathsMembers | source/task/CompileSassTask.js:226-235 | a path is imported iff some collected file yields it and it is not excluded |
| CompileSassTaskProperties.SettingsNotRepeated | source/task/CompileSassTask.js:171-175 | the settings file is never imported a second time as a source |
| CompileSassTaskProperties.PreparedIdempotent | source/task/CompileSassTask.js:129-150 | preparing already prepared parameters changes nothing |
| CompileSassTaskProperties.EmptyDataSkipsCompiler | source/task/CompileSassTask.js:354-361 | with empty data the outcome does not depend on the compiler |
| CompileSassTaskProperties.CompilerInputs | source/task/CompileSassTask.js:327-376 | the include paths the compiler gets, case by case: the sites root, then the resolved configured paths when the parameters give none, the one given path, or the given list; then the option's path when truthy |
| CompileSassTaskProperties.IncludePathUnderRoot | source/task/CompileSassTask.js:228-230 | a file whose normalised path is the normalised sites root followed by `relative` is imported by `relative`, leading slash trimmed and separators normalised |
| CompileSassTaskProperties.CssPathRenamesExtension | source/task/CompileSassTask.js:336 | a path ending in its only `.scss` gets `.css` instead |
| CompileSassTaskProperties.CssPathFirstOccurrence | source/task/CompileSassTask.js:336 | only the first `.scss` is renamed: what follows it, a later `.scss` included, is kept |

## Left out

- Promises, `co` generators and `ErrorHandler.handler`: the operations are sequential
  methods and functions, and a thrown error is an `Err` result.
- Logging and the CLI work-group calls.
- `gonzales.parse`, `DocBlockParser.parse` and `trimMultiline`: function parameters. The
  classifier is a function of the comment text, so it gives the same draft each time a
  ruleset classifies the same comment. The source gets a fresh object per call.
- The order in which `traverseByTypes` visits nodes: gonzales-pe is not part of this
  model. `Descendants` takes pre-order.
- The documentation object's `parameters` array is extended in place in the source. The
  model extends a value.
- `node-sass` itself, `VinylFile`/`Buffer`, the `through2` streams, `compileFiles`,
  `stream`, and the repository lookups in `generateFiles`: I/O and foreign calls.
- The `outputStyle` and `sourceMap` options passed to the compiler: the model's compiler
  receives only the data and the include paths.
- `templateString`, `pathes.normalize`, `pathes.trimLeadingSlash` and
  `urls.normalizePathSeparators`: function parameters.
- `isEqualTo` on sites is not part of this model. `SameSite` compares site names.
- Cyclic `extends` chains: a `Site` is a value whose parent is a smaller value, so a site
  cannot extend itself, directly or through others. On such a chain the `while` loop that
  collects the sites would not end; `SiteChain` and `ChainDistinct` rely on chains being
  finite and acyclic.
- Key order of the group dictionary: JavaScript enumerates integer-like keys first, in
  ascending order. The model keeps insertion order for every key.
- Prototype keys of the group dictionary: `sourceFiles` is a plain object, so a group
  naming an `Object.prototype` member (`constructor`, `toString`, `__proto__`) reads the
  inherited value in `sourceFiles[group] || []`, and the later `push` throws. The model's
  map gives such a group its own list and bundle.
- `super.prepareParameters` of the base task is not part of this model. Parameters start
  from the values given.
- `scope.className` in the compile error is taken to be the class's `className`,
  `task/CompileSassTask`.
- CompileFile: the task option `includePathes` is modelled as one optional path. An array
  there would be pushed as one nested element.
- SortByPosition: positions are integers, so a position that is not a number is not
  modelled. Stability, proved here, holds for a stable engine sort (required since
  ECMAScript 2019).
- Property values such as `sass.settings` are modelled as optional strings. Other value
  types are not modelled.
- The other files of the repository are not part of this model: the postcss
  post-processing task, the bundle task, the command, the route, the linters, the
  configuration class, the nunjucks filter, and the plugin and registration wiring.
