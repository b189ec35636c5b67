# SnippetBox template layer, modelled in Dafny

SnippetBox is a Go web application that renders HTML pages from templates
held in an in-memory cache. This project models the template layer in
`cmd/web/templates.go` and proves properties of it:

- `humanDate`, the template function that shows a time in UTC with Go's
  layout `"02 Jan 2006 at 15:04"`, or the empty string for the zero time
  (module `DateFormat`);
- `newTemplateCache`, which globs the `*.page.tmpl` files of a directory and,
  for each page, builds a template named after the page's base name by
  parsing the page, then merging every `*.layout.tmpl`, then every
  `*.partial.tmpl`, and stores it in a map; any error aborts the whole build
  (module `Templates`, method `NewTemplateCache`);
- `templateData`, the record every page is rendered with (datatype
  `Templates.TemplateData`);
- the `functions` map that registers `humanDate` (constant `Templates.FUNCTIONS`).

Module `FilePath` models `filepath.Base` and `filepath.Join`. The third
`path/filepath` call, `filepath.Glob`, is the opaque `Env.glob` described
below. `Wrappers` holds `Option` and `Result`.

How the model is built:

- A time is given by its UTC calendar fields (`DateFormat.Time`). Go's
  `IsZero` holds exactly for the instant 0001-01-01 00:00:00.000000000 UTC,
  so `Time.IsZero` is defined on those fields. `Time.Valid` states the field
  ranges every Go time has.
- Go's formatting of the numeric fields (`appendInt`) is `PadInt`: the
  decimal digits padded on the left with zeros to the field width. A negative
  year is written as `-` followed by its magnitude padded to four digits.
  Years above 9999 are written with all their digits.
- `ParseHumanDate` is an independent reader of the output. It is the
  partner that the round-trip lemma connects to `HumanDate`.
- The filesystem glob and the three `html/template` calls are function-valued
  fields of `Templates.Env`. Each may fail. The template tree is the type
  parameter `T`, and a `*template.Template` is `Unit(name, tree)`.
- `nil, err` is `Failure(err)`. A returned map is `Success(map)`.
- `CompilePage` is one pass of the loop body: the parse and the two merges,
  each with its early return.
- `BuildCache` is a prefix-recursive specification of the loop.
  `NewTemplateCache` runs the loop over the pages and reassigns a local `map`
  variable once per page. Its contract ties its result to `TemplateCacheOf`.
  The lemmas beside it prove what that function promises.

What the code does not do:

- It does not detect block-name collisions.
- It promises nothing about merge order. The layouts and partials are
  merged in whatever order the opaque `parseGlob` uses.
- It does not reject two pages with the same base name. The later one
  overwrites the earlier entry (`BuildCacheLastWins`).

## Model

| member | source | states |
|---|---|---|
| `DateFormat.HumanDate` | cmd/web/templates.go:22-27 | the result is the empty string exactly when the time is the zero time |
| `DateFormat.HumanDateLayout` | cmd/web/templates.go:26 | for a non-zero time the text has these parts in order: the two-digit day (tens and units), a space, the three-letter month abbreviation, a space, the year, " at ", the two-digit hour, ":" and the two-digit minute |
| `DateFormat.HumanDateRoundTrip` | cmd/web/templates.go:26 | the text of a non-zero time reads back as exactly its UTC year, month, day, hour and minute |
| `DateFormat.HumanDateSameIff` | cmd/web/templates.go:26 | two non-zero times give the same text if and only if they agree on year, month, day, hour and minute, so seconds and nanoseconds never affect it |
| `DateFormat.PadInt` | cmd/web/templates.go:26 | a numeric field is written only with decimal digits, at least one of them and at least the field width |
| `DateFormat.PadIntLength` | cmd/web/templates.go:26 | a value below 10^width gets exactly width characters |
| `DateFormat.ParseNatPadInt` | cmd/web/templates.go:26 | a padded numeric field reads back as its value, so the padding loses nothing |
| `DateFormat.PadIntNoLeadingZero` | cmd/web/templates.go:26 | a value too wide for its field is written in full, with no leading zero |
| `DateFormat.PadTwoDigits` | cmd/web/templates.go:26 | the "02", "15" and "04" fields of a value below 100 are its tens digit then its units digit |
| `DateFormat.YearText` | cmd/web/templates.go:26 | the "2006" field is at least four characters long |
| `DateFormat.YearFourDigits` | cmd/web/templates.go:26 | a year from 0 to 9999 is written as exactly its four digits |
| `DateFormat.YearNegativeDigits` | cmd/web/templates.go:26 | a year from -9999 to -1 is written as '-' followed by the four zero-padded digits of its magnitude |
| `DateFormat.ParseYearText` | cmd/web/templates.go:26 | every year, negative ones included, reads back from its "2006" field |
| `DateFormat.MonthNumber` | cmd/web/templates.go:26 | a "Jan" field names exactly one month from 1 to 12, and any other text names none |
| `FilePath.Base` | cmd/web/templates.go:43 | the base name is never empty, contains no separator unless it is "/", and is "." for the empty path |
| `FilePath.BaseIgnoresTrailingSeparator` | cmd/web/templates.go:43 | a trailing separator does not change the base name of a non-empty path, so "a/b/" has base name "b" |
| `FilePath.BaseRootIff` | cmd/web/templates.go:43 | the base name is "/" if and only if the path is non-empty and made only of separators |
| `FilePath.BaseInDirectory` | cmd/web/templates.go:43 | a separator-free name directly inside a directory, as the glob returns it, has that name as its base name |
| `FilePath.BaseOfPlain` | cmd/web/templates.go:43 | a path with no separator is its own base name |
| `FilePath.Join` | cmd/web/templates.go:36-52 | the joined path ends with the element that was joined on, as the three `filepath.Join` calls use it |
| `FilePath.BaseOfJoin` | cmd/web/templates.go:36-43 | the base name of a plain file name (not "." or "..", no separator) joined onto a directory is that file name |
| `Templates.CompilePage` | cmd/web/templates.go:43-55 | a page that compiles yields a unit named after the page's base name |
| `Templates.NewTemplateCache` | cmd/web/templates.go:33-61 | the loop returns exactly the value the page-by-page specification gives; a glob failure returns that error; on success the keys are the base names of the globbed pages and each unit is named after its key |
| `Templates.GrowsBy` | cmd/web/templates.go:43-57 | after a successful prefix, a page that compiles adds its unit under its base name and leaves every other entry as it was; this is the loop invariant's step |
| `Templates.StopsAt` | cmd/web/templates.go:44-55 | after a successful prefix, a page that does not compile makes the whole build return that page's error |
| `Templates.SuccessCompilesEach` | cmd/web/templates.go:41-58 | when the build returns a cache, every page compiled |
| `Templates.FailureHasCulprit` | cmd/web/templates.go:44-55 | when the build fails, some page failed to compile |
| `Templates.FailureSticks` | cmd/web/templates.go:44-55 | once a prefix of the pages fails, the whole build fails with the same error, so no later page changes the outcome |
| `Templates.BuildCacheSucceedsIff` | cmd/web/templates.go:41-58 | the build returns a cache if and only if every page's parse, layout merge and partial merge succeed |
| `Templates.BuildCacheFirstError` | cmd/web/templates.go:44-55 | a failed build returns the error of the first page that fails, at the step that failed |
| `Templates.BuildCacheKeys` | cmd/web/templates.go:41-58 | a built cache's key set is exactly the set of base names of the pages, and each unit carries its key as its name |
| `Templates.BuildCacheLastWins` | cmd/web/templates.go:57 | a page whose base name does not recur later is stored under that name as the unit built from it, so a later page with the same name overwrites an earlier one |
| `Templates.PageParseFailureStops` | cmd/web/templates.go:44-47 | when parsing a page fails, the page gives that error whatever the layout and partial merges would do, so neither is attempted |
| `Templates.LayoutMergeFailureStops` | cmd/web/templates.go:48-51 | when merging the layouts fails, the page gives that error whatever the partial merge would do, so it is not attempted |
| `Templates.CachedUnitProvenance` | cmd/web/templates.go:41-58 | every cached unit was built, by the three steps in order, from the last page with its key |
| `Templates.NoPagesEmptyCache` | cmd/web/templates.go:35-60 | an empty page list yields an empty cache, not an error |
| `Templates.GlobFailureParsesNothing` | cmd/web/templates.go:36-39 | when the page glob fails, the result is that error whatever the template parser would do, so no page is parsed |
| `Templates.BuildCacheSize` | cmd/web/templates.go:41-58 | a built cache holds at most one unit per page, and exactly one per page when base names are distinct |
| `Templates.CacheKeysAreFileNames` | cmd/web/templates.go:36-43 | when the glob yields separator-free file names inside one directory, however the glob spells that directory (for "./ui/html/" it yields "ui/html/" + name), the cache keys are exactly those file names |

## Left out

- `cmd/web/main.go` is not part of this model. It only wires things together: flag parsing, loggers, the MySQL connection, the session settings and the TLS server. The `application` struct is a set of dependencies with no logic.
- Filesystem globbing and the `html/template` library (parsing, function registration, execution) are foreign code. They appear as the opaque, possibly failing functions of `Templates.Env`.
- The time-zone conversion `t.UTC()` and the internals of `time.Time` are not modelled. A time is given by its UTC fields.
- `FilePath.Join` does not model the lexical clean-up (`filepath.Clean`) that Go's `Join` applies, and `FilePath.Base` does not model Windows volume names. Only '/' is a separator.
- `Templates.TemplateData` is generic in the user, snippet and form records, because `pkg/models` and `pkg/forms` are not part of this model. A nil record is `None`, and the difference between a nil and an empty snippet slice is not kept.
- Sessions, CSRF tokens, flash messages and the authenticated-user context are handled by code outside `templates.go`. None of them is modelled.
- Concurrent reads of the built cache are a runtime concern and are not modelled.
