/**
 * The bundle-building and compiling task: for each css group of a site it writes a
 * stylesheet made of `@import` lines (the settings file first, then the sources of
 * the entities of that group, site by site along the `extends` chain), and it turns
 * one such stylesheet into css through a compiler given as a parameter.
 */
module CompileSassTask {
  import opened Wrappers
  import opened Strings
  import Documentation

  // ---------------------------------------------------------------------------
  // Data.

  /** A site: its `sass.settings` property (`None` when unset) and the site it extends. */
  datatype Site = Site(name: string, settings: Option<string>, parent: Option<Site>)

  /** A file of an entity: its full path, its base name, its content type and its site. */
  datatype SourceFile = SourceFile(filename: string, basename: string, contentType: Documentation.ContentType, site: Site)

  /** An entity: the position of its category, its `groups.css` property and its files. */
  datatype Entity = Entity(id: string, position: int, cssGroup: Option<string>, files: seq<SourceFile>)

  /** A generated file: its path and its text. */
  datatype Bundle = Bundle(path: string, content: string)

  /** The path helpers the task uses: `pathes.normalize`, `pathes.trimLeadingSlash`, `urls.normalizePathSeparators`. */
  datatype PathHelpers = PathHelpers(
    normalize: string -> string,
    trimLeadingSlash: string -> string,
    normalizeSeparators: string -> string)

  /** `templateString(bundleTemplate, {site, group})`: the path of a group's bundle. */
  type BundleNamer = (string, Site, string) -> string

  /** The group of an entity without a `groups.css` property: the configured default is undefined, and JavaScript turns the key into this text. */
  const UndefinedGroup: string := "undefined"

  const ClassName: string := "task/CompileSassTask"

  // ---------------------------------------------------------------------------
  // Settings file and exclusions.

  /** The settings file imported first: the site's own, else (when that is falsy) its parent's. */
  function SettingsFile(site: Site): (r: Option<string>)
    ensures r == site.settings || (site.parent.Some? && r == site.parent.value.settings)
    ensures Truthy(site.settings) ==> r == site.settings
    ensures Truthy(r) <==> Truthy(site.settings) || (site.parent.Some? && Truthy(site.parent.value.settings))
  {
    if !Truthy(site.settings) && site.parent.Some? then site.parent.value.settings else site.settings
  }

  /** Paths never imported as sources: the settings file, and the parent's own settings when truthy. */
  function ExcludedFiles(site: Site): (r: seq<Option<string>>)
    ensures |r| > 0 && r[0] == SettingsFile(site)
    ensures site.parent.Some? && Truthy(site.parent.value.settings) ==> site.parent.value.settings in r
    ensures forall x :: x in r ==> x == SettingsFile(site) || (site.parent.Some? && x == site.parent.value.settings)
  {
    [SettingsFile(site)] +
    if site.parent.Some? && Truthy(site.parent.value.settings) then [site.parent.value.settings] else []
  }

  // ---------------------------------------------------------------------------
  // The `extends` chain.

  /** The sites from the root ancestor down to `s` itself. */
  function Ancestry(s: Option<Site>): seq<Site>
    decreases s
  {
    match s
    case None => []
    case Some(site) => Ancestry(site.parent) + [site]
  }

  /** Follows `extends` from `site`, putting each site in front: the chain from the root to `site`. */
  method SiteChain(site: Site) returns (sites: seq<Site>)
    ensures sites == Ancestry(Some(site))
  {
    sites := [];
    var current := Some(site);
    while current.Some?
      invariant Ancestry(Some(site)) == Ancestry(current) + sites
      decreases current
    {
      sites := [current.value] + sites;
      current := current.value.parent;
    }
  }

  // ---------------------------------------------------------------------------
  // Ordering entities by category position.

  /** `x` placed into `sorted` after every entity whose position is not greater. */
  function Insert(sorted: seq<Entity>, x: Entity): seq<Entity>
    decreases |sorted|
  {
    if sorted == [] || sorted[|sorted| - 1].position <= x.position then sorted + [x]
    else Insert(sorted[..|sorted| - 1], x) + [sorted[|sorted| - 1]]
  }

  /** The entities in ascending category position, entities of equal position in their given order. */
  function ByPosition(s: seq<Entity>): seq<Entity> {
    if s == [] then [] else Insert(ByPosition(s[..|s| - 1]), s[|s| - 1])
  }

  /** `sorted` with `x` standing at index `j`. */
  function Placed(sorted: seq<Entity>, x: Entity, j: nat): seq<Entity>
    requires j <= |sorted|
  {
    sorted[..j] + [x] + sorted[j..]
  }

  lemma PlacedSwap(sorted: seq<Entity>, x: Entity, j: nat, rest: seq<Entity>)
    requires 0 < j <= |sorted|
    ensures (Placed(sorted, x, j) + rest)[j - 1 := x][j := sorted[j - 1]] == Placed(sorted, x, j - 1) + rest
  {
    var s := (Placed(sorted, x, j) + rest)[j - 1 := x][j := sorted[j - 1]];
    var t := Placed(sorted, x, j - 1) + rest;
    assert |s| == |t|;
    forall k | 0 <= k < |s|
      ensures s[k] == t[k]
    {
      if k < j - 1 {
      } else if k == j - 1 || k == j {
      } else if k <= |sorted| {
        assert s[k] == sorted[k - 1];
      } else {
        assert s[k] == rest[k - |sorted| - 1];
      }
    }
  }

  /** `x` is inserted at `j` when the entities from `j` on are greater and the one before `j` is not. */
  lemma {:induction false} InsertPlaced(sorted: seq<Entity>, x: Entity, j: nat)
    requires j <= |sorted|
    requires forall k :: j <= k < |sorted| ==> sorted[k].position > x.position
    requires j == 0 || sorted[j - 1].position <= x.position
    ensures Insert(sorted, x) == Placed(sorted, x, j)
    decreases |sorted|
  {
    if j < |sorted| {
      var n := |sorted| - 1;
      InsertPlaced(sorted[..n], x, j);
      assert sorted[..n][..j] == sorted[..j];
      assert sorted[..n][j..] + [sorted[n]] == sorted[j..];
    } else {
      assert sorted[..j] == sorted && sorted[j..] == [];
    }
  }

  /** Exchanges `a[j - 1]` and `a[j]`. */
  method Swap(a: array<Entity>, j: nat)
    requires 0 < j < a.Length
    modifies a
    ensures a[..] == old(a[..])[j - 1 := old(a[j])][j := old(a[j - 1])]
  {
    a[j - 1], a[j] := a[j], a[j - 1];
  }

  /** Moves `a[i]` left past every greater entity before it: one step of the sort. */
  method InsertLast(a: array<Entity>, i: nat)
    requires i < a.Length
    modifies a
    ensures a[..i + 1] == Insert(old(a[..i]), old(a[i]))
    ensures a[i + 1..] == old(a[i + 1..])
  {
    ghost var sorted := a[..i];
    ghost var x := a[i];
    ghost var rest := a[i + 1..];
    var j := i;
    assert a[..] == Placed(sorted, x, j) + rest;
    while j > 0 && a[j - 1].position > a[j].position
      invariant 0 <= j <= i
      invariant a[..] == Placed(sorted, x, j) + rest
      invariant forall k :: j <= k < i ==> sorted[k].position > x.position
    {
      assert a[j - 1] == sorted[j - 1] && a[j] == x;
      PlacedSwap(sorted, x, j, rest);
      Swap(a, j);
      j := j - 1;
    }
    if j > 0 {
      assert a[j - 1] == sorted[j - 1] && a[j] == x;
    }
    InsertPlaced(sorted, x, j);
    assert a[..i + 1] == (Placed(sorted, x, j) + rest)[..i + 1];
  }

  /** `entities.sort((a, b) => a.position - b.position)`, in place. */
  method SortByPosition(a: array<Entity>)
    modifies a
    ensures a[..] == ByPosition(old(a[..]))
  {
    ghost var original := a[..];
    var i := 0;
    while i < a.Length
      invariant 0 <= i <= a.Length
      invariant a[..i] == ByPosition(original[..i])
      invariant a[i..] == original[i..]
    {
      assert a[i] == original[i];
      InsertLast(a, i);
      assert original[..i + 1][..i] == original[..i];
      assert a[i + 1..] == original[i + 1..];
      i := i + 1;
    }
    assert a[..a.Length] == a[..];
    assert original[..a.Length] == original;
  }

  // ---------------------------------------------------------------------------
  // Source files of each group.

  /** The group key of an entity: its `groups.css` property, else the undefined default. */
  function GroupOf(e: Entity): (r: string)
    ensures e.cssGroup.Some? ==> r == e.cssGroup.value
    ensures r == UndefinedGroup <==> e.cssGroup.None? || e.cssGroup == Some(UndefinedGroup)
  {
    e.cssGroup.GetOr(UndefinedGroup)
  }

  /** `file.site.isEqualTo(s)`: sites are compared by name. */
  predicate SameSite(a: Site, b: Site) {
    a.name == b.name
  }

  /** A file goes into a bundle for `s`: a stylesheet, not a partial, of the site `s`. */
  predicate Eligible(f: SourceFile, s: Site) {
    f.contentType == Documentation.SassContent && !StartsWith(f.basename, "_") && SameSite(f.site, s)
  }

  /** `entity.files.filter(...)` for one site of the chain. */
  function FilesOfSite(files: seq<SourceFile>, s: Site): seq<SourceFile> {
    if files == [] then []
    else FilesOfSite(files[..|files| - 1], s) + if Eligible(files[|files| - 1], s) then [files[|files| - 1]] else []
  }

  /** The files an entity contributes: those of each site of the chain in turn. */
  function EntityFiles(e: Entity, sites: seq<Site>): seq<SourceFile> {
    if sites == [] then []
    else EntityFiles(e, sites[..|sites| - 1]) + FilesOfSite(e.files, sites[|sites| - 1])
  }

  /** The group keys in the order they are first met. */
  function Groups(entities: seq<Entity>): seq<string> {
    if entities == [] then []
    else
      var groups := Groups(entities[..|entities| - 1]);
      var g := GroupOf(entities[|entities| - 1]);
      if g in groups then groups else groups + [g]
  }

  /** The files collected for group `g`: those of its entities, in entity order. */
  function BucketOf(entities: seq<Entity>, sites: seq<Site>, g: string): seq<SourceFile> {
    if entities == [] then []
    else
      var e := entities[|entities| - 1];
      BucketOf(entities[..|entities| - 1], sites, g) + if GroupOf(e) == g then EntityFiles(e, sites) else []
  }

  /** A group not met yet has nothing collected. */
  lemma {:induction false} BucketOfUnseen(entities: seq<Entity>, sites: seq<Site>, g: string)
    requires g !in Groups(entities)
    ensures BucketOf(entities, sites, g) == []
    decreases |entities|
  {
    if entities != [] {
      var init := entities[..|entities| - 1];
      assert g !in Groups(init);
      BucketOfUnseen(init, sites, g);
    }
  }

  /** Pushes an entity's files, site by site, onto its group's list. */
  method AddEntityFiles(buckets: map<string, seq<SourceFile>>, g: string, e: Entity, sites: seq<Site>)
    returns (r: map<string, seq<SourceFile>>)
    requires g in buckets
    ensures r == buckets[g := buckets[g] + EntityFiles(e, sites)]
  {
    r := buckets;
    assert sites[..0] == [] && buckets[g] + [] == buckets[g];
    for k := 0 to |sites|
      invariant g in r && r == buckets[g := r[g]]
      invariant r[g] == buckets[g] + EntityFiles(e, sites[..k])
    {
      assert sites[..k + 1][..k] == sites[..k];
      assert EntityFiles(e, sites[..k + 1]) == EntityFiles(e, sites[..k]) + FilesOfSite(e.files, sites[k]);
      r := r[g := r[g] + FilesOfSite(e.files, sites[k])];
    }
    assert sites[..|sites|] == sites;
  }

  /** Fills `sourceFiles`: for each entity in order, its group's list grows by its files. */
  method CollectSourceFiles(entities: seq<Entity>, sites: seq<Site>)
    returns (groups: seq<string>, buckets: map<string, seq<SourceFile>>)
    ensures groups == Groups(entities)
    ensures buckets.Keys == set g | g in groups
    ensures forall g :: g in buckets ==> buckets[g] == BucketOf(entities, sites, g)
  {
    groups := [];
    buckets := map[];
    for i := 0 to |entities|
      invariant groups == Groups(entities[..i])
      invariant buckets.Keys == set g | g in groups
      invariant forall g :: g in buckets ==> buckets[g] == BucketOf(entities[..i], sites, g)
    {
      var e := entities[i];
      var g := GroupOf(e);
      assert entities[..i + 1][..i] == entities[..i];
      if g !in buckets {
        BucketOfUnseen(entities[..i], sites, g);
        buckets := buckets[g := []];
        groups := groups + [g];
      }
      buckets := AddEntityFiles(buckets, g, e, sites);
    }
    assert entities[..|entities|] == entities;
  }

  // ---------------------------------------------------------------------------
  // Bundle text.

  /** One line of a bundle. */
  function ImportLine(path: string): string {
    "@import '" + path + "';\n"
  }

  /** The bundle text importing `paths` in order. */
  function Text(paths: seq<string>): string {
    if paths == [] then "" else Text(paths[..|paths| - 1]) + ImportLine(paths[|paths| - 1])
  }

  /** The path a file is imported by: normalised, the normalised sites root removed, no leading slash, `/` separators. */
  function IncludePath(h: PathHelpers, sitesRoot: string, filename: string): string {
    h.normalizeSeparators(h.trimLeadingSlash(ReplaceFirst(h.normalize(filename), h.normalize(sitesRoot), "")))
  }

  /** The import paths of `files`, those in `excluded` skipped. */
  function KeptPaths(h: PathHelpers, sitesRoot: string, excluded: seq<Option<string>>, files: seq<SourceFile>): seq<string> {
    if files == [] then []
    else
      var p := IncludePath(h, sitesRoot, files[|files| - 1].filename);
      KeptPaths(h, sitesRoot, excluded, files[..|files| - 1]) + if Some(p) in excluded then [] else [p]
  }

  /** Everything a bundle imports: the settings file when truthy, then the kept sources. */
  function ImportedPaths(settings: Option<string>, excluded: seq<Option<string>>, h: PathHelpers, sitesRoot: string, files: seq<SourceFile>): seq<string> {
    (if Truthy(settings) then [settings.value] else []) + KeptPaths(h, sitesRoot, excluded, files)
  }

  lemma TextSnoc(paths: seq<string>, p: string)
    ensures Text(paths + [p]) == Text(paths) + ImportLine(p)
  {
    assert (paths + [p])[..|paths|] == paths;
  }

  lemma KeptPathsStep(h: PathHelpers, sitesRoot: string, excluded: seq<Option<string>>, files: seq<SourceFile>, i: nat)
    requires i < |files|
    ensures KeptPaths(h, sitesRoot, excluded, files[..i + 1]) ==
      var p := IncludePath(h, sitesRoot, files[i].filename);
      KeptPaths(h, sitesRoot, excluded, files[..i]) + if Some(p) in excluded then [] else [p]
  {
    assert files[..i + 1][..i] == files[..i];
  }

  /** The imports after one more file: its path is added unless it is excluded. */
  lemma ImportedStep(h: PathHelpers, sitesRoot: string, excluded: seq<Option<string>>, files: seq<SourceFile>, i: nat,
                     head: seq<string>, imported: seq<string>, p: string)
    requires i < |files| && p == IncludePath(h, sitesRoot, files[i].filename)
    requires imported == head + KeptPaths(h, sitesRoot, excluded, files[..i])
    ensures Some(p) in excluded ==> imported == head + KeptPaths(h, sitesRoot, excluded, files[..i + 1])
    ensures Some(p) !in excluded ==> imported + [p] == head + KeptPaths(h, sitesRoot, excluded, files[..i + 1])
  {
    KeptPathsStep(h, sitesRoot, excluded, files, i);
  }

  /** Builds one bundle's `content` line by line. */
  method BundleContent(settings: Option<string>, excluded: seq<Option<string>>, h: PathHelpers, sitesRoot: string, files: seq<SourceFile>)
    returns (content: string)
    ensures content == Text(ImportedPaths(settings, excluded, h, sitesRoot, files))
  {
    ghost var head: seq<string> := if Truthy(settings) then [settings.value] else [];
    ghost var imported := head;
    content := "";
    if Truthy(settings) {
      content := content + ImportLine(settings.value);
      TextSnoc([], settings.value);
    }
    assert files[..0] == [] && head + [] == head;
    for i := 0 to |files|
      invariant imported == head + KeptPaths(h, sitesRoot, excluded, files[..i])
      invariant content == Text(imported)
    {
      var includePath := IncludePath(h, sitesRoot, files[i].filename);
      ImportedStep(h, sitesRoot, excluded, files, i, head, imported, includePath);
      if Some(includePath) !in excluded {
        TextSnoc(imported, includePath);
        imported := imported + [includePath];
        content := content + ImportLine(includePath);
      }
    }
    assert files[..|files|] == files;
  }

  // ---------------------------------------------------------------------------
  // Generating the bundles of a site.

  /** The bundle of group `g` for `site`, whose entities are `entities` in order. */
  function BundleFor(site: Site, entities: seq<Entity>, template: string, name: BundleNamer, h: PathHelpers, sitesRoot: string, g: string): Bundle {
    Bundle(
      name(template, site, g),
      Text(ImportedPaths(SettingsFile(site), ExcludedFiles(site), h, sitesRoot, BucketOf(entities, Ancestry(Some(site)), g))))
  }

  /**
   * `generateFilesForEntities`: sorts `entities` by category position, then writes one
   * bundle per group, in the order the groups are first met.
   */
  method GenerateFilesForEntities(site: Site, entities: array<Entity>, template: string, name: BundleNamer, h: PathHelpers, sitesRoot: string)
    returns (files: seq<Bundle>)
    modifies entities
    ensures entities[..] == ByPosition(old(entities[..]))
    ensures |files| == |Groups(entities[..])|
    ensures forall k :: 0 <= k < |files| ==>
      files[k] == BundleFor(site, entities[..], template, name, h, sitesRoot, Groups(entities[..])[k])
  {
    var sites := SiteChain(site);
    SortByPosition(entities);
    var groups, sourceFiles := CollectSourceFiles(entities[..], sites);
    files := WriteBundles(site, entities[..], template, name, h, sitesRoot, groups, sourceFiles);
  }

  /** The loop over `sourceFiles`: one bundle per group, its name from the template, its text from the group's files. */
  method WriteBundles(site: Site, entities: seq<Entity>, template: string, name: BundleNamer, h: PathHelpers, sitesRoot: string,
                      groups: seq<string>, sourceFiles: map<string, seq<SourceFile>>)
    returns (files: seq<Bundle>)
    requires forall g :: g in groups ==> g in sourceFiles && sourceFiles[g] == BucketOf(entities, Ancestry(Some(site)), g)
    ensures |files| == |groups|
    ensures forall k :: 0 <= k < |files| ==> files[k] == BundleFor(site, entities, template, name, h, sitesRoot, groups[k])
  {
    var settingsFile := SettingsFile(site);
    var excludeFiles := ExcludedFiles(site);
    files := [];
    for i := 0 to |groups|
      invariant |files| == i
      invariant forall k :: 0 <= k < i ==> files[k] == BundleFor(site, entities, template, name, h, sitesRoot, groups[k])
    {
      var group := groups[i];
      var content := BundleContent(settingsFile, excludeFiles, h, sitesRoot, sourceFiles[group]);
      files := files + [Bundle(name(template, site, group), content)];
    }
  }

  // ---------------------------------------------------------------------------
  // Task parameters.

  /** `params.includePathes`: unset, one path, or a list of paths. */
  datatype IncludeSetting = Unset | OnePath(path: string) | PathList(paths: seq<string>)

  datatype Parameters = Parameters(query: Option<string>, bundleTemplate: Option<string>, includePathes: IncludeSetting)

  /** What the task reads from the sass configuration: the bundle template and the include paths. */
  datatype SassSettings = SassSettings(bundleTemplate: Option<string>, includePathes: seq<string>)

  /** `pathesConfiguration.resolve`. */
  type Resolver = string -> string

  /** JavaScript truthiness of `includePathes`: an array always, a path when not empty. */
  predicate IncludeTruthy(v: IncludeSetting) {
    v.PathList? || (v.OnePath? && v.path != "")
  }

  /** Each configured path resolved, in configuration order. */
  function Resolved(paths: seq<string>, resolve: Resolver): (r: seq<string>)
    ensures |r| == |paths|
    ensures forall i :: 0 <= i < |paths| ==> r[i] == resolve(paths[i])
  {
    if paths == [] then [] else Resolved(paths[..|paths| - 1], resolve) + [resolve(paths[|paths| - 1])]
  }

  /** The parameters as `prepareParameters` leaves them. */
  function Prepared(p: Parameters, config: SassSettings, resolve: Resolver): Parameters {
    Parameters(
      if Truthy(p.query) then p.query else Some("*"),
      if Truthy(p.bundleTemplate) then p.bundleTemplate else config.bundleTemplate,
      if !IncludeTruthy(p.includePathes) then PathList(Resolved(config.includePathes, resolve))
      else if p.includePathes.OnePath? then PathList([p.includePathes.path])
      else p.includePathes)
  }

  /** The task's `params` object, whose fields `prepareParameters` fills in place. */
  class TaskParameters {
    var query: Option<string>
    var bundleTemplate: Option<string>
    var includePathes: IncludeSetting

    constructor(p: Parameters)
      ensures Value() == p
    {
      query := p.query;
      bundleTemplate := p.bundleTemplate;
      includePathes := p.includePathes;
    }

    function Value(): Parameters
      reads this
    {
      Parameters(query, bundleTemplate, includePathes)
    }

    /** `prepareParameters`: defaults for the query and template, include paths made a list. */
    method Prepare(config: SassSettings, resolve: Resolver)
      modifies this
      ensures Value() == Prepared(old(Value()), config, resolve)
    {
      query := if Truthy(query) then query else Some("*");
      if !Truthy(bundleTemplate) {
        bundleTemplate := config.bundleTemplate;
      }
      if IncludeTruthy(includePathes) {
        if includePathes.OnePath? {
          includePathes := PathList([includePathes.path]);
        }
      } else {
        var configured := config.includePathes;
        includePathes := PathList([]);
        assert configured[..0] == [];
        ghost var prepared := Value();
        for i := 0 to |configured|
          invariant query == prepared.query && bundleTemplate == prepared.bundleTemplate
          invariant includePathes == PathList(Resolved(configured[..i], resolve))
        {
          assert configured[..i + 1][..i] == configured[..i];
          includePathes := PathList(includePathes.paths + [resolve(configured[i])]);
        }
        assert configured[..|configured|] == configured;
      }
    }
  }

  // ---------------------------------------------------------------------------
  // Compiling one bundle.

  /** `sass.renderSync` on the data and include paths: the css, or `None` when it throws. */
  type Compiler = (string, seq<string>) -> Option<string>

  /** What `compileFile` resolves to: nothing for a missing file, else the css file. */
  datatype Compiled = NothingToCompile | CssFile(path: string, css: string)

  /** The path of the compiled file: the first `.scss` turned into `.css`; an empty path stays empty. */
  function CssPath(path: string): (r: string)
    ensures r == "" <==> path == ""
    ensures IndexOf(path, ".scss").None? ==> r == path
    ensures IndexOf(path, ".scss").Some? ==>
      var i := IndexOf(path, ".scss").value;
      |r| == |path| - 1 && r[..i] == path[..i] && r[i..i + 4] == ".css" && r[i + 4..] == path[i + 5..]
  {
    if path == "" then "" else ReplaceFirst(path, ".scss", ".css")
  }

  /** The include paths handed to the compiler: the sites root, the parameters' paths, then the task option's. */
  function CompileIncludes(sitesRoot: string, prepared: IncludeSetting, option: Option<string>): (r: seq<string>)
    ensures |r| > 0 && r[0] == sitesRoot
    ensures var n := if prepared.PathList? then |prepared.paths| else 0;
      |r| == 1 + n + (if Truthy(option) then 1 else 0) &&
      (prepared.PathList? ==> r[1..1 + n] == prepared.paths) &&
      (Truthy(option) ==> r[1 + n] == option.value)
  {
    [sitesRoot] + (if prepared.PathList? then prepared.paths else []) + if Truthy(option) then [option.value] else []
  }

  function CompileError(path: string): string {
    ClassName + "::compileFile - could not compile file " + path
  }

  /**
   * `compileFile`: a missing file gives nothing; empty data gives empty css without the
   * compiler; otherwise the compiler's css, or an error naming the file when it fails.
   */
  function CompileFile(file: Option<Bundle>, sitesRoot: string, parameters: Parameters, config: SassSettings,
                       resolve: Resolver, option: Option<string>, compile: Compiler): (r: Result<Compiled, string>)
    ensures file.None? <==> r == Ok(NothingToCompile)
    ensures r.Ok? && file.Some? ==> r.value.CssFile? && r.value.path == CssPath(file.value.path)
    ensures r.Err? ==> file.Some? && file.value.content != "" && r.error == CompileError(file.value.path)
    ensures file.Some? && file.value.content == "" ==> r == Ok(CssFile(CssPath(file.value.path), ""))
    ensures file.Some? && file.value.content != "" ==>
      var includes := CompileIncludes(sitesRoot, Prepared(parameters, config, resolve).includePathes, option);
      (r.Err? <==> compile(file.value.content, includes).None?) &&
      (r.Ok? ==> r.value.css == compile(file.value.content, includes).value)
  {
    match file
    case None => Ok(NothingToCompile)
    case Some(f) =>
      var params := Prepared(parameters, config, resolve);
      var includes := CompileIncludes(sitesRoot, params.includePathes, option);
      if f.content == "" then Ok(CssFile(CssPath(f.path), ""))
      else
        match compile(f.content, includes)
        case None => Err(CompileError(f.path))
        case Some(css) => Ok(CssFile(CssPath(f.path), css))
  }
}
