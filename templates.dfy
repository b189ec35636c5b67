/**
 * The template cache of the web application: every page template is parsed
 * together with all layout and partial templates into one named unit, and the
 * units are kept in a map keyed by the page's file name.
 */
module Templates {
  import opened Wrappers
  import DateFormat
  import FilePath

  /** A Go `error` value, carried through unchanged. */
  datatype Error = Error(message: string)

  /**
   * `templateData`: what a handler hands to a page when it is rendered. The
   * user, snippet and form records belong to packages outside this model;
   * `None` stands for nil.
   */
  datatype TemplateData<User, Snippet, Form> = TemplateData(
    csrfToken: string,
    authenticatedUser: Option<User>,
    snippet: Option<Snippet>,
    snippets: seq<Snippet>,
    currentYear: int,
    form: Option<Form>,
    flash: string)

  /** `functions`: the function map registered on every page before it is parsed. */
  const FUNCTIONS: map<string, DateFormat.Time --> string> := map["humanDate" := DateFormat.HumanDate]

  const PAGE_PATTERN := "*.page.tmpl"
  const LAYOUT_PATTERN := "*.layout.tmpl"
  const PARTIAL_PATTERN := "*.partial.tmpl"

  /**
   * The filesystem and `html/template` calls the builder makes, each of which
   * may fail; `T` is the parsed template tree.
   *  - glob(pattern): `filepath.Glob(pattern)`
   *  - parseFiles(name, funcs, file): `template.New(name).Funcs(funcs).ParseFiles(file)`
   *  - parseGlob(tree, pattern): `tree.ParseGlob(pattern)`, which adds every matching file to the tree
   */
  datatype Env<!T> = Env(
    glob: string -> Result<seq<string>, Error>,
    parseFiles: (string, map<string, DateFormat.Time --> string>, string) -> Result<T, Error>,
    parseGlob: (T, string) -> Result<T, Error>)

  /** A `*template.Template`: its name and the tree parsed into it. */
  datatype Unit<T> = Unit(name: string, tree: T)

  /**
   * The unit built for one page: named after the page's base name, parsed from
   * the page, then merged with the layouts, then with the partials; the first
   * step that fails decides the error and the later steps are not taken.
   */
  function CompilePage<T>(env: Env<T>, dir: string, page: string): (r: Result<Unit<T>, Error>)
    ensures r.Success? ==> r.value.name == FilePath.Base(page)
  {
    var name := FilePath.Base(page);
    match env.parseFiles(name, FUNCTIONS, page)
    case Failure(e) => Failure(e)
    case Success(parsed) =>
      match env.parseGlob(parsed, FilePath.Join(dir, LAYOUT_PATTERN))
      case Failure(e) => Failure(e)
      case Success(withLayouts) =>
        match env.parseGlob(withLayouts, FilePath.Join(dir, PARTIAL_PATTERN))
        case Failure(e) => Failure(e)
        case Success(withPartials) => Success(Unit(name, withPartials))
  }

  /**
   * `unit` is named after the base name of `page` and its tree is what the
   * page parse, then the layout merge, then the partial merge produced.
   */
  ghost predicate BuiltInOrder<T>(env: Env<T>, dir: string, page: string, unit: Unit<T>) {
    && unit.name == FilePath.Base(page)
    && var parsed := env.parseFiles(unit.name, FUNCTIONS, page);
       && parsed.Success?
       && var withLayouts := env.parseGlob(parsed.value, FilePath.Join(dir, LAYOUT_PATTERN));
          && withLayouts.Success?
          && env.parseGlob(withLayouts.value, FilePath.Join(dir, PARTIAL_PATTERN)) == Success(unit.tree)
  }

  /** The cache after the pages are processed in order, or the first page's error. */
  function BuildCache<T>(env: Env<T>, dir: string, pages: seq<string>): (r: Result<map<string, Unit<T>>, Error>)
    decreases |pages|
  {
    if pages == [] then Success(map[])
    else
      match BuildCache(env, dir, pages[..|pages| - 1])
      case Failure(e) => Failure(e)
      case Success(cache) =>
        match CompilePage(env, dir, pages[|pages| - 1])
        case Failure(e) => Failure(e)
        case Success(unit) => Success(cache[unit.name := unit])
  }

  /** What `newTemplateCache(dir)` returns. */
  function TemplateCacheOf<T>(env: Env<T>, dir: string): (r: Result<map<string, Unit<T>>, Error>) {
    match env.glob(FilePath.Join(dir, PAGE_PATTERN))
    case Failure(e) => Failure(e)
    case Success(pages) => BuildCache(env, dir, pages)
  }

  function BaseNames(pages: seq<string>): (r: set<string>) {
    set p | p in pages :: FilePath.Base(p)
  }

  /** `newTemplateCache(dir)`. */
  method NewTemplateCache<T>(env: Env<T>, dir: string) returns (r: Result<map<string, Unit<T>>, Error>)
    ensures r == TemplateCacheOf(env, dir)
    ensures env.glob(FilePath.Join(dir, PAGE_PATTERN)).Failure? ==> r == Failure(env.glob(FilePath.Join(dir, PAGE_PATTERN)).error)
    ensures r.Success? ==> r.value.Keys == BaseNames(env.glob(FilePath.Join(dir, PAGE_PATTERN)).value)
    ensures r.Success? ==> forall name :: name in r.value ==> r.value[name].name == name
  {
    var cache: map<string, Unit<T>> := map[];
    var globbed := env.glob(FilePath.Join(dir, PAGE_PATTERN));
    if globbed.Failure? {
      return Failure(globbed.error);
    }
    var pages := globbed.value;
    for i := 0 to |pages|
      invariant BuildCache(env, dir, pages[..i]) == Success(cache)
    {
      var page := pages[i];
      var name := FilePath.Base(page);
      var ts := env.parseFiles(name, FUNCTIONS, page);
      if ts.Failure? {
        assert CompilePage(env, dir, page) == Failure(ts.error);
        StopsAt(env, dir, pages, i);
        return Failure(ts.error);
      }
      ts := env.parseGlob(ts.value, FilePath.Join(dir, LAYOUT_PATTERN));
      if ts.Failure? {
        assert CompilePage(env, dir, page) == Failure(ts.error);
        StopsAt(env, dir, pages, i);
        return Failure(ts.error);
      }
      ts := env.parseGlob(ts.value, FilePath.Join(dir, PARTIAL_PATTERN));
      if ts.Failure? {
        assert CompilePage(env, dir, page) == Failure(ts.error);
        StopsAt(env, dir, pages, i);
        return Failure(ts.error);
      }
      assert CompilePage(env, dir, page) == Success(Unit(name, ts.value));
      GrowsBy(env, dir, pages, i);
      cache := cache[name := Unit(name, ts.value)];
    }
    assert pages[..|pages|] == pages;
    BuildCacheKeys(env, dir, pages);
    return Success(cache);
  }

  /** A page that does not compile after a successful prefix decides the whole build. */
  lemma StopsAt<T>(env: Env<T>, dir: string, pages: seq<string>, i: nat)
    requires i < |pages|
    requires BuildCache(env, dir, pages[..i]).Success?
    requires CompilePage(env, dir, pages[i]).Failure?
    ensures BuildCache(env, dir, pages) == Failure(CompilePage(env, dir, pages[i]).error)
  {
    assert pages[..i + 1][..i] == pages[..i];
    FailureSticks(env, dir, pages, i + 1);
  }

  /** A page that compiles after a successful prefix adds its unit under its base name. */
  lemma GrowsBy<T>(env: Env<T>, dir: string, pages: seq<string>, i: nat)
    requires i < |pages|
    requires BuildCache(env, dir, pages[..i]).Success?
    requires CompilePage(env, dir, pages[i]).Success?
    ensures BuildCache(env, dir, pages[..i + 1])
         == Success(BuildCache(env, dir, pages[..i]).value[FilePath.Base(pages[i]) := CompilePage(env, dir, pages[i]).value])
  {
    assert pages[..i + 1][..i] == pages[..i];
  }

  /** Once a prefix of the pages fails, the whole build fails with the same error. */
  lemma {:induction false} FailureSticks<T>(env: Env<T>, dir: string, pages: seq<string>, k: nat)
    requires k <= |pages|
    requires BuildCache(env, dir, pages[..k]).Failure?
    ensures BuildCache(env, dir, pages) == BuildCache(env, dir, pages[..k])
    decreases |pages|
  {
    if k < |pages| {
      var init := pages[..|pages| - 1];
      assert init[..k] == pages[..k];
      FailureSticks(env, dir, init, k);
    } else {
      assert pages[..k] == pages;
    }
  }

  /** All or nothing: the build succeeds exactly when every page compiles. */
  lemma BuildCacheSucceedsIff<T>(env: Env<T>, dir: string, pages: seq<string>)
    ensures BuildCache(env, dir, pages).Success?
        <==> forall i :: 0 <= i < |pages| ==> CompilePage(env, dir, pages[i]).Success?
  {
    if BuildCache(env, dir, pages).Success? {
      forall i | 0 <= i < |pages| ensures CompilePage(env, dir, pages[i]).Success? {
        SuccessCompilesEach(env, dir, pages, i);
      }
    } else {
      var i := FailureHasCulprit(env, dir, pages);
    }
  }

  lemma {:induction false} SuccessCompilesEach<T>(env: Env<T>, dir: string, pages: seq<string>, i: nat)
    requires BuildCache(env, dir, pages).Success?
    requires i < |pages|
    ensures CompilePage(env, dir, pages[i]).Success?
    decreases |pages|
  {
    var init := pages[..|pages| - 1];
    if i < |init| {
      SuccessCompilesEach(env, dir, init, i);
      assert pages[i] == init[i];
    }
  }

  lemma {:induction false} FailureHasCulprit<T>(env: Env<T>, dir: string, pages: seq<string>) returns (i: nat)
    requires BuildCache(env, dir, pages).Failure?
    ensures i < |pages| && CompilePage(env, dir, pages[i]).Failure?
    decreases |pages|
  {
    var init := pages[..|pages| - 1];
    if BuildCache(env, dir, init).Failure? {
      i := FailureHasCulprit(env, dir, init);
      assert pages[i] == init[i];
    } else {
      i := |pages| - 1;
    }
  }

  /** On failure the error is that of the first page that does not compile. */
  lemma {:induction false} BuildCacheFirstError<T>(env: Env<T>, dir: string, pages: seq<string>, j: nat)
    requires j < |pages| && CompilePage(env, dir, pages[j]).Failure?
    requires forall i :: 0 <= i < j ==> CompilePage(env, dir, pages[i]).Success?
    ensures BuildCache(env, dir, pages) == Failure(CompilePage(env, dir, pages[j]).error)
    decreases |pages|
  {
    var init := pages[..|pages| - 1];
    if j < |pages| - 1 {
      BuildCacheFirstError(env, dir, init, j);
    } else {
      BuildCacheSucceedsIff(env, dir, init);
    }
  }

  /** A successful build has exactly the base names of the pages as keys, each naming its unit. */
  lemma {:induction false} BuildCacheKeys<T>(env: Env<T>, dir: string, pages: seq<string>)
    requires BuildCache(env, dir, pages).Success?
    ensures BuildCache(env, dir, pages).value.Keys == BaseNames(pages)
    ensures forall name :: name in BuildCache(env, dir, pages).value ==>
              BuildCache(env, dir, pages).value[name].name == name
    decreases |pages|
  {
    if pages != [] {
      var init := pages[..|pages| - 1];
      var last := pages[|pages| - 1];
      BuildCacheKeys(env, dir, init);
      var before := BuildCache(env, dir, init).value;
      var unit := CompilePage(env, dir, last).value;
      var after := before[unit.name := unit];
      assert unit.name == FilePath.Base(last);
      assert BuildCache(env, dir, pages) == Success(after);
      assert after.Keys == before.Keys + {unit.name};
      assert init + [last] == pages;
      BaseNamesSnoc(init, last);
    }
  }

  lemma BaseNamesSnoc(pages: seq<string>, page: string)
    ensures BaseNames(pages + [page]) == BaseNames(pages) + {FilePath.Base(page)}
  {
    var all := pages + [page];
    forall p | p in all ensures p in pages || p == page {
      var i :| 0 <= i < |all| && all[i] == p;
      if i < |pages| {
        assert all[i] == pages[i];
      }
    }
    assert forall p :: p in pages ==> p in all;
  }

  /**
   * Every page whose base name does not recur later is cached under that name
   * as the unit built from it; a later page with the same base name overwrites it.
   */
  lemma {:induction false} BuildCacheLastWins<T>(env: Env<T>, dir: string, pages: seq<string>, j: nat)
    requires BuildCache(env, dir, pages).Success?
    requires j < |pages|
    requires forall i :: j < i < |pages| ==> FilePath.Base(pages[i]) != FilePath.Base(pages[j])
    ensures FilePath.Base(pages[j]) in BuildCache(env, dir, pages).value
    ensures CompilePage(env, dir, pages[j]) == Success(BuildCache(env, dir, pages).value[FilePath.Base(pages[j])])
    decreases |pages|
  {
    var init := pages[..|pages| - 1];
    if j < |pages| - 1 {
      BuildCacheLastWins(env, dir, init, j);
    }
  }

  /** An empty page list gives an empty cache, not an error. */
  lemma NoPagesEmptyCache<T>(env: Env<T>, dir: string)
    requires env.glob(FilePath.Join(dir, PAGE_PATTERN)) == Success([])
    ensures TemplateCacheOf(env, dir) == Success(map[])
  {
  }

  /**
   * When the pages cannot be enumerated the result is that error, whatever the
   * template parser would do: no page is parsed.
   */
  lemma GlobFailureParsesNothing<T>(env: Env<T>, other: Env<T>, dir: string)
    requires env.glob(FilePath.Join(dir, PAGE_PATTERN)).Failure?
    requires other.glob == env.glob
    ensures TemplateCacheOf(env, dir) == TemplateCacheOf(other, dir)
              == Failure(env.glob(FilePath.Join(dir, PAGE_PATTERN)).error)
  {
  }

  /** A successful build never holds more units than there are pages, and holds one per page when base names are distinct. */
  lemma {:induction false} BuildCacheSize<T>(env: Env<T>, dir: string, pages: seq<string>)
    requires BuildCache(env, dir, pages).Success?
    ensures |BuildCache(env, dir, pages).value| <= |pages|
    ensures (forall i, j :: 0 <= i < j < |pages| ==> FilePath.Base(pages[i]) != FilePath.Base(pages[j]))
              ==> |BuildCache(env, dir, pages).value| == |pages|
    decreases |pages|
  {
    if pages != [] {
      var init := pages[..|pages| - 1];
      var last := pages[|pages| - 1];
      BuildCacheSize(env, dir, init);
      BuildCacheKeys(env, dir, init);
      var m := BuildCache(env, dir, init).value;
      var unit := CompilePage(env, dir, last).value;
      assert unit.name == FilePath.Base(last);
      if forall i, j :: 0 <= i < j < |pages| ==> FilePath.Base(pages[i]) != FilePath.Base(pages[j]) {
        assert FilePath.Base(last) !in m;
      }
    }
  }

  /**
   * When the enumeration yields files of one directory `globDir` (written
   * however the glob spells it, for instance cleaned of a leading "./"), the
   * cache is keyed by exactly those file names.
   */
  lemma CacheKeysAreFileNames<T>(env: Env<T>, dir: string, globDir: string, files: seq<string>)
    requires globDir == [] || globDir[|globDir| - 1] == FilePath.SEPARATOR
    requires forall f :: f in files ==> f != "" && FilePath.SEPARATOR !in f
    requires env.glob(FilePath.Join(dir, PAGE_PATTERN)) == Success(seq(|files|, i requires 0 <= i < |files| => globDir + files[i]))
    requires TemplateCacheOf(env, dir).Success?
    ensures TemplateCacheOf(env, dir).value.Keys == set f | f in files
  {
    var pages := seq(|files|, i requires 0 <= i < |files| => globDir + files[i]);
    BuildCacheKeys(env, dir, pages);
    forall f | f in files ensures f in BaseNames(pages) {
      var i :| 0 <= i < |files| && files[i] == f;
      FilePath.BaseInDirectory(globDir, f);
      assert FilePath.Base(pages[i]) == f;
    }
    forall k | k in BaseNames(pages) ensures k in files {
      var p :| p in pages && FilePath.Base(p) == k;
      var i :| 0 <= i < |pages| && pages[i] == p;
      assert files[i] in files;
      FilePath.BaseInDirectory(globDir, files[i]);
    }
  }

  /**
   * A page whose parse fails yields that error, whatever the layout and
   * partial merges would do: neither merge is taken.
   */
  lemma PageParseFailureStops<T>(env: Env<T>, other: Env<T>, dir: string, page: string)
    requires env.parseFiles(FilePath.Base(page), FUNCTIONS, page).Failure?
    requires other.parseFiles(FilePath.Base(page), FUNCTIONS, page) == env.parseFiles(FilePath.Base(page), FUNCTIONS, page)
    ensures CompilePage(env, dir, page) == CompilePage(other, dir, page)
         == Failure(env.parseFiles(FilePath.Base(page), FUNCTIONS, page).error)
  {
  }

  /**
   * A page whose layout merge fails yields that error, whatever the partial
   * merge would do: the partial merge is not taken.
   */
  lemma LayoutMergeFailureStops<T>(env: Env<T>, other: Env<T>, dir: string, page: string)
    requires env.parseFiles(FilePath.Base(page), FUNCTIONS, page).Success?
    requires other.parseFiles(FilePath.Base(page), FUNCTIONS, page) == env.parseFiles(FilePath.Base(page), FUNCTIONS, page)
    requires var parsed := env.parseFiles(FilePath.Base(page), FUNCTIONS, page).value;
      && env.parseGlob(parsed, FilePath.Join(dir, LAYOUT_PATTERN)).Failure?
      && other.parseGlob(parsed, FilePath.Join(dir, LAYOUT_PATTERN)) == env.parseGlob(parsed, FilePath.Join(dir, LAYOUT_PATTERN))
    ensures CompilePage(env, dir, page) == CompilePage(other, dir, page)
         == Failure(env.parseGlob(env.parseFiles(FilePath.Base(page), FUNCTIONS, page).value,
                                  FilePath.Join(dir, LAYOUT_PATTERN)).error)
  {
  }

  /** The index of the last page whose base name is `name`, or -1 when there is none. */
  function LastWith(pages: seq<string>, name: string): (j: int)
    ensures -1 <= j < |pages|
    ensures j >= 0 ==> FilePath.Base(pages[j]) == name
    ensures forall i :: j < i < |pages| ==> FilePath.Base(pages[i]) != name
  {
    if pages == [] then -1
    else if FilePath.Base(pages[|pages| - 1]) == name then |pages| - 1
    else
      var init := pages[..|pages| - 1];
      var j := LastWith(init, name);
      assert forall i :: 0 <= i < |init| ==> init[i] == pages[i];
      j
  }

  /**
   * Every cached unit comes from the last page with its key, by the three
   * steps in order.
   */
  lemma CachedUnitProvenance<T>(env: Env<T>, dir: string, pages: seq<string>, name: string)
    requires BuildCache(env, dir, pages).Success?
    requires name in BuildCache(env, dir, pages).value
    ensures LastWith(pages, name) >= 0
    ensures BuiltInOrder(env, dir, pages[LastWith(pages, name)], BuildCache(env, dir, pages).value[name])
  {
    BuildCacheKeys(env, dir, pages);
    var j := LastWith(pages, name);
    var p :| p in pages && FilePath.Base(p) == name;
    var k :| 0 <= k < |pages| && pages[k] == p;
    assert k <= j;
    BuildCacheLastWins(env, dir, pages, j);
    var unit := BuildCache(env, dir, pages).value[name];
    assert CompilePage(env, dir, pages[j]) == Success(unit);
  }
}
