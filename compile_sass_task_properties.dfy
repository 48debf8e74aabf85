/**
 * What the bundle-building task promises: the site chain runs from the root to the
 * site with each site once, entities are ordered by position stably, every group gets
 * exactly the eligible files of its entities, a bundle has one line per import, the
 * parameter defaults settle after one pass, and compiling renames the extension.
 */
module CompileSassTaskProperties {
  import opened Wrappers
  import opened Strings
  import opened CompileSassTask

  // ---------------------------------------------------------------------------
  // The `extends` chain.

  /** How many ancestors a site has. */
  function Depth(s: Site): nat {
    match s.parent
    case None => 0
    case Some(p) => Depth(p) + 1
  }

  /**
   * The chain starts at a site without parent, ends at the site itself, each site's
   * parent is the one before it, and the site at index `i` has `i` ancestors.
   */
  lemma {:induction false} ChainFromRoot(site: Site)
    ensures |Ancestry(Some(site))| == Depth(site) + 1
    ensures Ancestry(Some(site))[Depth(site)] == site
    ensures Ancestry(Some(site))[0].parent.None?
    ensures forall i :: 0 < i < |Ancestry(Some(site))| ==> Ancestry(Some(site))[i].parent == Some(Ancestry(Some(site))[i - 1])
    ensures forall i :: 0 <= i < |Ancestry(Some(site))| ==> Depth(Ancestry(Some(site))[i]) == i
    decreases site
  {
    match site.parent
    case None =>
      assert Ancestry(Some(site)) == Ancestry(None) + [site] == [site];
    case Some(p) =>
      ChainFromRoot(p);
      var c := Ancestry(Some(site));
      assert c == Ancestry(Some(p)) + [site];
  }

  /** No site appears twice in the chain. */
  lemma ChainDistinct(site: Site)
    ensures forall i, j :: 0 <= i < j < |Ancestry(Some(site))| ==> Ancestry(Some(site))[i] != Ancestry(Some(site))[j]
  {
    ChainFromRoot(site);
  }

  // ---------------------------------------------------------------------------
  // Ordering by position.

  predicate SortedByPosition(s: seq<Entity>) {
    forall i, j :: 0 <= i < j < |s| ==> s[i].position <= s[j].position
  }

  lemma SortedSnoc(s: seq<Entity>, x: Entity)
    requires SortedByPosition(s)
    requires forall e :: e in s ==> e.position <= x.position
    ensures SortedByPosition(s + [x])
  {
    forall i, j | 0 <= i < j < |s| + 1
      ensures (s + [x])[i].position <= (s + [x])[j].position
    {
      if j == |s| {
        assert s[i] in s;
      }
    }
  }

  /** Inserting adds exactly the inserted entity. */
  lemma {:induction false} InsertPermutes(s: seq<Entity>, x: Entity)
    ensures multiset(Insert(s, x)) == multiset(s) + multiset{x}
    decreases |s|
  {
    if s != [] && s[|s| - 1].position > x.position {
      var init := s[..|s| - 1];
      assert s == init + [s[|s| - 1]];
      InsertPermutes(init, x);
    }
  }

  /** Inserting into an ascending sequence keeps it ascending. */
  lemma {:induction false} InsertSorted(s: seq<Entity>, x: Entity)
    requires SortedByPosition(s)
    ensures SortedByPosition(Insert(s, x))
    decreases |s|
  {
    if s == [] || s[|s| - 1].position <= x.position {
      forall e | e in s
        ensures e.position <= x.position
      {
        var i :| 0 <= i < |s| && s[i] == e;
      }
      SortedSnoc(s, x);
    } else {
      var init := s[..|s| - 1];
      var last := s[|s| - 1];
      InsertSorted(init, x);
      InsertPermutes(init, x);
      var r := Insert(init, x);
      forall e | e in r
        ensures e.position <= last.position
      {
        assert e in multiset(r);
        if e != x {
          assert e in multiset(init);
          var i :| 0 <= i < |init| && init[i] == e;
          assert s[i] == e;
        }
      }
      SortedSnoc(r, last);
    }
  }

  /** The ordering is ascending and keeps exactly the given entities. */
  lemma {:induction false} ByPositionSorted(s: seq<Entity>)
    ensures SortedByPosition(ByPosition(s))
    ensures multiset(ByPosition(s)) == multiset(s)
    decreases |s|
  {
    if s != [] {
      var init := s[..|s| - 1];
      ByPositionSorted(init);
      InsertSorted(ByPosition(init), s[|s| - 1]);
      InsertPermutes(ByPosition(init), s[|s| - 1]);
      assert s == init + [s[|s| - 1]];
    }
  }

  /** The entities at position `p`, in order. */
  function AtPosition(s: seq<Entity>, p: int): seq<Entity> {
    if s == [] then []
    else AtPosition(s[..|s| - 1], p) + if s[|s| - 1].position == p then [s[|s| - 1]] else []
  }

  lemma AtPositionSnoc(s: seq<Entity>, e: Entity, p: int)
    ensures AtPosition(s + [e], p) == AtPosition(s, p) + if e.position == p then [e] else []
  {
    assert (s + [e])[..|s|] == s;
  }

  lemma {:induction false} InsertStable(s: seq<Entity>, x: Entity, p: int)
    ensures AtPosition(Insert(s, x), p) == AtPosition(s, p) + if x.position == p then [x] else []
    decreases |s|
  {
    if s == [] || s[|s| - 1].position <= x.position {
      AtPositionSnoc(s, x, p);
    } else {
      var init := s[..|s| - 1];
      var last := s[|s| - 1];
      assert s == init + [last];
      InsertStable(init, x, p);
      AtPositionSnoc(Insert(init, x), last, p);
      AtPositionSnoc(init, last, p);
    }
  }

  /** Entities of equal position keep their relative order (the comparison only ever moves strictly greater ones). */
  lemma {:induction false} ByPositionStable(s: seq<Entity>, p: int)
    ensures AtPosition(ByPosition(s), p) == AtPosition(s, p)
    decreases |s|
  {
    if s != [] {
      var init := s[..|s| - 1];
      ByPositionStable(init, p);
      InsertStable(ByPosition(init), s[|s| - 1], p);
    }
  }

  // ---------------------------------------------------------------------------
  // Groups and their files.

  /** The group keys are exactly the groups of the entities, each once. */
  lemma {:induction false} GroupsAreKeys(entities: seq<Entity>)
    ensures forall g :: g in Groups(entities) <==> exists i :: 0 <= i < |entities| && GroupOf(entities[i]) == g
    ensures forall i, j :: 0 <= i < j < |Groups(entities)| ==> Groups(entities)[i] != Groups(entities)[j]
    decreases |entities|
  {
    if entities != [] {
      var init := entities[..|entities| - 1];
      GroupsAreKeys(init);
      forall g | g in Groups(entities)
        ensures exists i :: 0 <= i < |entities| && GroupOf(entities[i]) == g
      {
        if g in Groups(init) {
          var i :| 0 <= i < |init| && GroupOf(init[i]) == g;
          assert entities[i] == init[i];
        } else {
          assert GroupOf(entities[|entities| - 1]) == g;
        }
      }
      forall g | exists i :: 0 <= i < |entities| && GroupOf(entities[i]) == g
        ensures g in Groups(entities)
      {
        var i :| 0 <= i < |entities| && GroupOf(entities[i]) == g;
        if i < |init| {
          assert GroupOf(init[i]) == g;
        }
      }
    }
  }

  lemma {:induction false} FilesOfSiteMembers(files: seq<SourceFile>, s: Site)
    ensures forall f :: f in FilesOfSite(files, s) <==> f in files && Eligible(f, s)
    decreases |files|
  {
    if files != [] {
      var init := files[..|files| - 1];
      FilesOfSiteMembers(init, s);
      assert files == init + [files[|files| - 1]];
    }
  }

  /** The file is eligible for one of the chain's sites. */
  predicate ForSomeSite(f: SourceFile, sites: seq<Site>) {
    exists k :: 0 <= k < |sites| && Eligible(f, sites[k])
  }

  lemma {:induction false} EntityFilesMembers(e: Entity, sites: seq<Site>)
    ensures forall f :: f in EntityFiles(e, sites) <==> f in e.files && ForSomeSite(f, sites)
    decreases |sites|
  {
    if sites != [] {
      var init := sites[..|sites| - 1];
      var last := sites[|sites| - 1];
      EntityFilesMembers(e, init);
      FilesOfSiteMembers(e.files, last);
      forall f | f in e.files && exists k :: 0 <= k < |sites| && Eligible(f, sites[k])
        ensures f in EntityFiles(e, sites)
      {
        var k :| 0 <= k < |sites| && Eligible(f, sites[k]);
        if k < |init| {
          assert Eligible(f, init[k]);
        }
      }
      forall f | f in EntityFiles(e, sites)
        ensures exists k :: 0 <= k < |sites| && Eligible(f, sites[k])
      {
        if f in EntityFiles(e, init) {
          var k :| 0 <= k < |init| && Eligible(f, init[k]);
          assert sites[k] == init[k];
        } else {
          assert Eligible(f, sites[|sites| - 1]);
        }
      }
    }
  }

  /** Entity `e` of group `g` has the file `f`, a stylesheet of one of the chain's sites. */
  predicate Contributes(e: Entity, g: string, f: SourceFile, sites: seq<Site>) {
    GroupOf(e) == g && f in e.files && ForSomeSite(f, sites)
  }

  /**
   * A file is in group `g`'s list exactly when some entity of group `g` has it and it
   * is a stylesheet, not a partial, of one of the chain's sites.
   */
  lemma {:induction false} BucketMembers(entities: seq<Entity>, sites: seq<Site>, g: string)
    ensures forall f :: f in BucketOf(entities, sites, g) <==>
      exists i :: 0 <= i < |entities| && Contributes(entities[i], g, f, sites)
    decreases |entities|
  {
    if entities != [] {
      var n := |entities| - 1;
      var init := entities[..n];
      BucketMembers(init, sites, g);
      EntityFilesMembers(entities[n], sites);
      assert forall i :: 0 <= i < n ==> init[i] == entities[i];
      forall f
        ensures f in BucketOf(entities, sites, g) <==> exists i :: 0 <= i < |entities| && Contributes(entities[i], g, f, sites)
      {
        BucketMember(entities, sites, g, f);
      }
    }
  }

  /** The inductive step of `BucketMembers` for one file. */
  lemma BucketMember(entities: seq<Entity>, sites: seq<Site>, g: string, f: SourceFile)
    requires entities != []
    requires f in BucketOf(entities[..|entities| - 1], sites, g) <==>
      exists i :: 0 <= i < |entities| - 1 && Contributes(entities[i], g, f, sites)
    requires f in EntityFiles(entities[|entities| - 1], sites) <==>
      f in entities[|entities| - 1].files && ForSomeSite(f, sites)
    ensures f in BucketOf(entities, sites, g) <==> exists i :: 0 <= i < |entities| && Contributes(entities[i], g, f, sites)
  {
    var n := |entities| - 1;
    var extra := if GroupOf(entities[n]) == g then EntityFiles(entities[n], sites) else [];
    assert BucketOf(entities, sites, g) == BucketOf(entities[..n], sites, g) + extra;
    assert f in extra <==> Contributes(entities[n], g, f, sites);
  }

  // ---------------------------------------------------------------------------
  // Bundle text.

  /** How many line breaks `s` holds. */
  function LineBreaks(s: string): nat {
    if s == [] then 0 else LineBreaks(s[..|s| - 1]) + if s[|s| - 1] == '\n' then 1 else 0
  }

  lemma {:induction false} LineBreaksConcat(a: string, b: string)
    ensures LineBreaks(a + b) == LineBreaks(a) + LineBreaks(b)
    decreases |b|
  {
    if b == [] {
      assert a + b == a;
    } else {
      var init := b[..|b| - 1];
      LineBreaksConcat(a, init);
      assert (a + b)[..|a + b| - 1] == a + init;
    }
  }

  lemma {:induction false} NoLineBreaks(s: string)
    requires '\n' !in s
    ensures LineBreaks(s) == 0
    decreases |s|
  {
    if s != [] {
      NoLineBreaks(s[..|s| - 1]);
    }
  }

  /** A bundle has one line per import: as many line breaks as imported paths, when no path holds one. */
  lemma {:induction false} OneLinePerImport(paths: seq<string>)
    requires forall i :: 0 <= i < |paths| ==> '\n' !in paths[i]
    ensures LineBreaks(Text(paths)) == |paths|
    decreases |paths|
  {
    if paths != [] {
      var p := paths[|paths| - 1];
      OneLinePerImport(paths[..|paths| - 1]);
      var body := "@import '" + p + "';";
      assert '\n' !in body;
      NoLineBreaks(body);
      assert ImportLine(p) == body + ['\n'];
      assert (body + ['\n'])[..|body|] == body;
      LineBreaksConcat(Text(paths[..|paths| - 1]), ImportLine(p));
    }
  }

  lemma {:induction false} TextConcat(xs: seq<string>, ys: seq<string>)
    ensures Text(xs + ys) == Text(xs) + Text(ys)
    decreases |ys|
  {
    if ys == [] {
      assert xs + ys == xs;
    } else {
      var init := ys[..|ys| - 1];
      TextConcat(xs, init);
      assert (xs + ys)[..|xs + ys| - 1] == xs + init;
    }
  }

  /** When the settings file is truthy, the bundle text starts with its import. */
  lemma SettingsImportedFirst(settings: Option<string>, excluded: seq<Option<string>>, h: PathHelpers, sitesRoot: string, files: seq<SourceFile>)
    requires Truthy(settings)
    ensures StartsWith(Text(ImportedPaths(settings, excluded, h, sitesRoot, files)), ImportLine(settings.value))
  {
    var rest := KeptPaths(h, sitesRoot, excluded, files);
    TextConcat([settings.value], rest);
    assert [settings.value][..0] == [];
    var t := Text(ImportedPaths(settings, excluded, h, sitesRoot, files));
    assert t == ImportLine(settings.value) + Text(rest);
    assert t[..|ImportLine(settings.value)|] == ImportLine(settings.value);
  }

  /** A path is imported from the files exactly when one of them yields it and it is not excluded. */
  lemma {:induction false} KeptPathsMembers(h: PathHelpers, sitesRoot: string, excluded: seq<Option<string>>, files: seq<SourceFile>)
    ensures forall p :: p in KeptPaths(h, sitesRoot, excluded, files) <==>
      Some(p) !in excluded && exists i :: 0 <= i < |files| && IncludePath(h, sitesRoot, files[i].filename) == p
    decreases |files|
  {
    if files != [] {
      var init := files[..|files| - 1];
      KeptPathsMembers(h, sitesRoot, excluded, init);
      forall p | Some(p) !in excluded && exists i :: 0 <= i < |files| && IncludePath(h, sitesRoot, files[i].filename) == p
        ensures p in KeptPaths(h, sitesRoot, excluded, files)
      {
        var i :| 0 <= i < |files| && IncludePath(h, sitesRoot, files[i].filename) == p;
        if i < |init| {
          assert init[i] == files[i];
        }
      }
      forall p | p in KeptPaths(h, sitesRoot, excluded, files)
        ensures exists i :: 0 <= i < |files| && IncludePath(h, sitesRoot, files[i].filename) == p
      {
        if p in KeptPaths(h, sitesRoot, excluded, init) {
          var i :| 0 <= i < |init| && IncludePath(h, sitesRoot, init[i].filename) == p;
          assert files[i] == init[i];
        }
      }
    }
  }

  /** The settings file of a site is never imported again as a source. */
  lemma SettingsNotRepeated(site: Site, h: PathHelpers, sitesRoot: string, files: seq<SourceFile>)
    requires SettingsFile(site).Some?
    ensures SettingsFile(site).value !in KeptPaths(h, sitesRoot, ExcludedFiles(site), files)
  {
    KeptPathsMembers(h, sitesRoot, ExcludedFiles(site), files);
  }

  // ---------------------------------------------------------------------------
  // Parameters.

  /** Preparing prepared parameters changes nothing. */
  lemma PreparedIdempotent(p: Parameters, config: SassSettings, resolve: Resolver)
    ensures Prepared(Prepared(p, config, resolve), config, resolve) == Prepared(p, config, resolve)
  {
  }

  // ---------------------------------------------------------------------------
  // Compiling.

  /** Empty data never reaches the compiler: any two compilers give the same outcome. */
  lemma EmptyDataSkipsCompiler(file: Bundle, sitesRoot: string, parameters: Parameters, config: SassSettings,
                               resolve: Resolver, option: Option<string>, c1: Compiler, c2: Compiler)
    requires file.content == ""
    ensures CompileFile(Some(file), sitesRoot, parameters, config, resolve, option, c1) ==
            CompileFile(Some(file), sitesRoot, parameters, config, resolve, option, c2)
  {
  }

  /** The outcome `r` of compiling `file` is the compiler's verdict on `includes`. */
  predicate CompiledWith(file: Bundle, r: Result<Compiled, string>, compile: Compiler, includes: seq<string>) {
    (r.Err? <==> compile(file.content, includes).None?) &&
    (r.Ok? ==> r.value == CssFile(CssPath(file.path), compile(file.content, includes).value))
  }

  /**
   * Non-empty data is compiled with the sites root first, then the include paths of the
   * parameters (the configured ones resolved, when the parameters give none), then the
   * task option's path; the css is the compiler's, and its failure is the error.
   */
  lemma CompilerInputs(file: Bundle, sitesRoot: string, parameters: Parameters, config: SassSettings,
                       resolve: Resolver, option: Option<string>, compile: Compiler)
    requires file.content != ""
    ensures var r := CompileFile(Some(file), sitesRoot, parameters, config, resolve, option, compile);
      var extra := if Truthy(option) then [option.value] else [];
      (!IncludeTruthy(parameters.includePathes) ==>
        CompiledWith(file, r, compile, [sitesRoot] + Resolved(config.includePathes, resolve) + extra)) &&
      (parameters.includePathes.OnePath? && parameters.includePathes.path != "" ==>
        CompiledWith(file, r, compile, [sitesRoot, parameters.includePathes.path] + extra)) &&
      (parameters.includePathes.PathList? ==>
        CompiledWith(file, r, compile, [sitesRoot] + parameters.includePathes.paths + extra))
  {
    if parameters.includePathes.OnePath? && parameters.includePathes.path != "" {
      var extra := if Truthy(option) then [option.value] else [];
      assert [sitesRoot] + [parameters.includePathes.path] + extra == [sitesRoot, parameters.includePathes.path] + extra;
    }
  }

  /** A file under the sites root is imported by its path relative to the root. */
  lemma IncludePathUnderRoot(h: PathHelpers, sitesRoot: string, filename: string, relative: string)
    requires h.normalize(filename) == h.normalize(sitesRoot) + relative
    ensures IncludePath(h, sitesRoot, filename) == h.normalizeSeparators(h.trimLeadingSlash(relative))
  {
    ReplacePrefix(h.normalize(sitesRoot), relative, "");
    assert "" + relative == relative;
  }

  /** A path ending in `.scss`, with no other `.scss` in it, gets the extension `.css`. */
  lemma CssPathRenamesExtension(stem: string)
    requires IndexOf(stem, ".scss").None?
    ensures CssPath(stem + ".scss") == stem + ".css"
  {
    ExtensionRenamed(stem, "");
    assert stem + ".scss" + "" == stem + ".scss";
    assert stem + ".css" + "" == stem + ".css";
  }

  /**
   * Only the first `.scss` is renamed: whatever follows it, a later `.scss` included,
   * is kept as it is.
   */
  lemma CssPathFirstOccurrence(stem: string, rest: string)
    requires IndexOf(stem, ".scss").None?
    ensures CssPath(stem + ".scss" + rest) == stem + ".css" + rest
  {
    ExtensionRenamed(stem, rest);
  }
}
