# Music catalog service — a verified model

A Dafny model of the music catalog served by `atvdd.js`, a small Express
service. The model covers the following:

- The process-wide state: the ordered list `musicas`, seeded with five tracks,
  and the id counter `nextId`, starting at 6. It is `Catalog.Store`, a class
  whose fields the bulk insert updates in place.
- The read-only routes, each a function of the current `musicas`:
  - `/musicas/filtro/genero/:genero`;
  - `/musicas/filtro/duracao/:max`;
  - `/musicas/filtro/autor/:autor`;
  - `/musicas/quantidade`, `/musicas/primeira` and `/musicas/ultima`.
- The bulk insert `POST /musicas/multiplas`:
  - The body is refused when it is not an array or is an empty array.
  - Each entry is checked for a truthy `titulo`, `autor` and `duracao`.
  - An accepted entry gets `nextId++`. It is stored with the genre default
    `"Desconhecido"` and the current year as the year default.
  - A refused entry is reported with its index.
  - The `invalidas` field is absent when nothing was refused.
- The statistics route `GET /musicas/estatisticas`:
  - the sum and mean of the durations;
  - the first longest and first shortest record, as a left `reduce` finds them;
  - the genre distribution;
  - the oldest and newest year, and the span between them.

Module layout:

| module | file | holds |
|---|---|---|
| `Tracks` | `tracks.dfy` | the records, the raw bulk-insert entries, JavaScript truthiness, the seed |
| `Seqs` | `seqs.dfy` | `Array.prototype.filter` and its laws |
| `Text` | `text.dfy` | ASCII `toLowerCase` and `String.prototype.includes` |
| `Queries` | `queries.dfy` | the read-only routes |
| `Statistics` | `statistics.dfy` | the statistics route, including the genre tally loop as a method |
| `Catalog` | `catalog.dfy` | the store class, the bulk insert and its validation loop |

Conventions of the model:

- Durations are exact reals.
- The `:max` path segment is what `parseFloat` yields, one of:
  - `NaN`;
  - `Infinity` or `-Infinity`;
  - a finite number.
- Errors are a `Result` value:
  - `NotFound` echoes the lower-cased genre when one was searched;
  - `InvalidArgument` carries its cause.
- The current year is a parameter, because the source reads it from the clock.

Two behaviours of the bulk insert worth knowing:

- The genre default is `"Desconhecido"` (atvdd.js:119).
- A `null` entry in a bulk-insert array is not a per-record rejection
  (atvdd.js:112-113). Reading `musica.titulo` throws a `TypeError` that
  escapes the handler. By then every acceptable record before it has been
  appended and numbered. `Catalog.Store.BulkInsert` models this as
  `Failure(UncaughtTypeError(i))` with the partially updated state.

## Model

| member | source | states |
|---|---|---|
| Tracks.Admit | atvdd.js:113-121 | an accepted entry becomes a record with the given id, non-empty title, artist and genre, and a non-zero duration |
| Tracks.Acceptable | atvdd.js:113 | only an object entry with a title, an artist and a duration can pass the truthiness test |
| Tracks.AdmitDefaults | atvdd.js:114-121 | the record keeps the entry's title, artist and duration; a truthy genre or year is stored as given; it takes "Desconhecido" exactly when the entry's genre is falsy (or already that), and the current year exactly when the entry's year is falsy (or already that) |
| Seqs.Filter | atvdd.js:47 | `filter` returns only elements that pass the test, never more than the input holds; with the laws below, exactly the passing elements in input order |
| Seqs.FilterMembers | atvdd.js:21 | `filter` keeps an element exactly when it occurs in the input and passes the test |
| Seqs.FilterMultiplicity | atvdd.js:47 | `filter` keeps each passing element as often as it occurs, and each failing one never |
| Seqs.FilterAppend | atvdd.js:179-181 | filtering a concatenation is the concatenation of the filtered parts (storage order is kept) |
| Seqs.FilterAll | atvdd.js:47 | when every element passes, `filter` returns the input unchanged |
| Seqs.FilterMonotone | atvdd.js:47 | a test that every passing element also passes keeps at least as many elements |
| Text.Lower | atvdd.js:20 | lower-casing keeps the length and maps each character through the ASCII lower-case mapping |
| Text.LowerIdempotent | atvdd.js:20 | lower-casing a lower-cased string changes nothing |
| Text.Includes | atvdd.js:180 | `hay.includes(needle)`: the empty needle is in every string, a needle longer than the haystack never is, and a needle at position 0 always is; IncludesIff pins it at every position |
| Text.IncludesIff | atvdd.js:180 | `includes` holds exactly when the needle occurs at some position of the haystack |
| Text.IncludesEmpty | atvdd.js:180 | the empty needle is included in every string |
| Queries.FilterByGenre | atvdd.js:19-35 | the route fails exactly when no stored genre equals the query case-insensitively, echoing the lower-cased query in the NotFound; otherwise it reports the lower-cased query and the non-empty filtered list in storage order with its length, holding exactly the records whose lower-cased genre matches |
| Queries.FilterByDuration | atvdd.js:38-54 | the route refuses a threshold exactly when it is NaN, -Infinity or a number <= 0; otherwise it reports the threshold and the records of duration <= threshold in storage order with their count, an empty list included |
| Queries.FilterByArtist | atvdd.js:177-188 | the route never fails; it reports the lower-cased query and exactly the records whose lower-cased artist includes it, in storage order, with their count |
| Queries.Count | atvdd.js:57-62 | the quantity is the number of stored records, zero exactly for the empty catalog |
| Queries.First | atvdd.js:65-76 | NotFound exactly when the catalog is empty; otherwise the record at position 0 |
| Queries.Last | atvdd.js:79-90 | NotFound exactly when the catalog is empty; otherwise the record at position n-1 |
| Queries.GenreMultiplicity | atvdd.js:21 | a genre report holds each matching record exactly as often as storage does, and no other |
| Queries.GenreEchoRequery | atvdd.js:20-26 | querying with the lower-cased genre the route echoes gives the same outcome as the original query |
| Queries.DurationMonotone | atvdd.js:41-47 | every positive threshold is accepted, and a larger one never reports fewer records |
| Queries.DurationInfinityKeepsAll | atvdd.js:39-47 | the threshold `Infinity` reports the whole catalog |
| Queries.ArtistMatchesOccurrence | atvdd.js:179-181 | a record is reported exactly when the lower-cased query occurs at some position of its lower-cased artist |
| Queries.ArtistEmptyFragmentIsCount | atvdd.js:177-188 | the empty query reports the whole catalog, with the quantity route's count |
| Queries.ArtistAfterAppend | atvdd.js:179-181 | after an append, the artist route reports the earlier matches followed by the new ones |
| Queries.CountAgreesWithEnds | atvdd.js:57-90 | the count is 0 exactly when the first and last routes report NotFound; with one record both return the same one |
| Queries.FirstStableUnderAppend | atvdd.js:65-76 | appending never changes the first record of a non-empty catalog |
| Queries.LastAfterAppend | atvdd.js:79-90 | after a non-empty append, the last record is the last one appended |
| Queries.SeedUpToFourMinutes | atvdd.js:38-54 | on the seed catalog, threshold 4 reports tracks 1, 3 and 5 in that order, quantity 3 |
| Statistics.SumDuration | atvdd.js:145 | the reduce starts from 0, and a single record sums to its own duration; its bounds and additivity are the lemmas below |
| Statistics.SumDurationAppend | atvdd.js:145 | the duration sum of a concatenation is the sum of the parts' sums |
| Statistics.LongestIndex | atvdd.js:149 | the reduce returns the first record of greatest duration (ties keep the earliest) |
| Statistics.ShortestIndex | atvdd.js:150 | the reduce returns the first record of least duration (ties keep the earliest) |
| Statistics.SumAtMost | atvdd.js:145 | a sum of n durations none above hi is at most n * hi |
| Statistics.SumAtLeast | atvdd.js:145 | a sum of n durations none below lo is at least n * lo |
| Statistics.MeanWithin | atvdd.js:146 | when every duration lies in [lo, hi], so does the mean |
| Statistics.MeanBetweenExtremes | atvdd.js:146-150 | the mean lies between the shortest and the longest duration |
| Statistics.OldestYear | atvdd.js:159-160 | `Math.min` of the years is at most every year and is some record's year |
| Statistics.NewestYear | atvdd.js:159-161 | `Math.max` of the years is at least every year and is some record's year |
| Statistics.CountGenrePositive | atvdd.js:153-156 | a genre's count is positive exactly when some record has it |
| Statistics.DistributionCounts | atvdd.js:153-156 | the distribution's keys are exactly the genres that occur, each mapped to the number of records having it |
| Statistics.DistributionTotal | atvdd.js:153-156 | the distribution's counts add up to the number of records |
| Statistics.GenreTally | atvdd.js:153-156 | the tally loop builds the distribution: keys are the genres that occur, each with its positive count, and the counts add up to the total |
| Statistics.Compute | atvdd.js:137-174 | an empty catalog gives only `total: 0`. Otherwise: the total; the sum; mean = sum / total, between the shortest and longest durations; the first longest and first shortest records; the distribution and its total; the min and max year, bounding every year and each attained; span = max - min >= 0 |
| Statistics.SeedDistribution | atvdd.js:153-156 | on the seed catalog the distribution is R&B: 2, Rock: 2, Pop: 1 |
| Statistics.ObjectTally | atvdd.js:153-156 | the tally as written, through a plain object: at most one own property per record |
| Statistics.ObjectTallyAgrees | atvdd.js:153-156 | for a genre not named after an `Object.prototype` member, the object holds the same count as the distribution |
| Statistics.ProtoGenreNeverTallied | atvdd.js:155 | a genre named `__proto__` never appears in the object |
| Statistics.InheritedGenreMangled | atvdd.js:155 | a genre named after an inherited member appears exactly when it occurs, always holding a string and never a count |
| Statistics.ConstructorGenreCounterexample | atvdd.js:153-156 | one track of genre "constructor": the distribution holds 1, the object holds a string |
| Catalog.FirstNull | atvdd.js:112-113 | the index of the first `null` entry (or the length): no entry before it is `null` |
| Catalog.Visit | atvdd.js:113-126 | one turn of the loop adds exactly one entry to either the stored or the refused list |
| Catalog.Process | atvdd.js:108-127 | after visiting `count` entries, stored plus refused entries number `count` |
| Catalog.ProcessIds | atvdd.js:115 | the stored records carry consecutive ids from the counter's starting value |
| Catalog.ProcessRejections | atvdd.js:125 | every reported rejection carries a visited index, the entry at that index and that entry is not acceptable; indices strictly increase |
| Catalog.RejectedExactly | atvdd.js:113-126 | a visited entry is reported as refused exactly when it is not acceptable |
| Catalog.RefusedReported | atvdd.js:124-126 | every visited entry that is not acceptable is reported |
| Catalog.AcceptedInOrder | atvdd.js:112-127 | the stored records are the acceptable visited entries in input order, each admitted with the next id; the refused ones number the rest |
| Catalog.FreshIdsKeepInvariant | atvdd.js:115-122 | appending records numbered from the counter keeps every id distinct and below the advanced counter |
| Catalog.Store.constructor | atvdd.js:8-16 | the store starts with the five seed records and counter 6, with ids distinct and below the counter |
| Catalog.Store.BulkInsert | atvdd.js:93-134 | A non-array or empty body is refused without changing the state. Otherwise the accepted entries up to the first `null` are appended in order and the counter advances by their number. With no `null` the result is a success: the stored list, plus the rejections only if there are any. With a `null` the result is the uncaught TypeError at that index. Ids stay distinct and below the counter. |
| Catalog.Store.Ingest | atvdd.js:108-127 | the validation loop appends each accepted entry at once and stops at the first `null`; its lists equal `Process` over the visited entries |
| Catalog.SingleEntryScenario | atvdd.js:113-121 | posting one complete entry stores one record with the counter's id, genre "Desconhecido" and the current year, and refuses nothing |
| Catalog.ZeroDurationRefused | atvdd.js:113 | an entry with duration 0 is refused, not stored |

## Left out

- The HTTP layer is left out. This covers Express routing, status codes, JSON serialisation, `app.listen` and the route self-test helper. Routes are functions or methods returning `Result` values.
- The human-readable `mensagem` and `erro` strings are not modelled. The route outcomes carry only the data fields.
- `converterDuracaoParaMinutos` (atvdd.js:191-199) is left out. It is never called by any route.
- `parseFloat` of the `:max` path segment is left out. The model takes its outcome as a `JsNumber` (NaN, ±Infinity, or a finite number).
- Tracks.Admit: does not model `parseFloat(musica.duracao) || musica.duracao` on a string duration. The model's raw entries carry durations that are already numbers, for which that expression is the identity.
- Tracks.RawTrack: entries whose fields have other JSON types are not modelled. This covers a numeric `titulo`, an object `genero` and so on. Text fields are strings or missing, durations are numbers or missing, and years are whole numbers or missing (a fractional `ano` is not modelled).
- Queries.FilterByGenre: the `toLowerCase` of a stored genre that is not a string (which would throw) is not modelled. Stored genres are always strings here.
- Text.Lower: only ASCII letters are lower-cased. Unicode case mapping is not modelled.
- Statistics.Compute: reports the exact sum and mean. The `toFixed(2)` rounding of the response is not modelled.
- Statistics.Compute: the genre distribution is modelled as intended, by the corrected tally; the source's object-based tally is described under Findings.
- Statistics.Compute: JavaScript object key order in `distribuicaoGeneros` is not modelled.
- Statistics.Compute: the argument-count limit of `Math.min(...anos)` on very large catalogs is not modelled.
- Catalog.Store.BulkInsert: the current year comes from the clock (`new Date().getFullYear()`) and is passed in as a parameter.
- JavaScript number limits are not modelled, because durations are exact reals and ids are unbounded integers. `JSON.parse` turns a `duracao` of `1e400` into `Infinity`, which is truthy, so such an entry is stored (atvdd.js:113-118). A `duracao` of `1e-400` becomes 0, which is falsy, so that entry is refused. Past 2^53, `nextId++` (atvdd.js:115) stops producing distinct ids.
- Concurrency is not modelled. The service runs one handler to completion at a time.

## Findings

| source | as written | input that shows it | evidently intended | confidence | as-written member | corrected member |
|---|---|---|---|---|---|---|
| atvdd.js:153-156 | the genre tally uses a plain object `{}`. A genre named after a member inherited from `Object.prototype` reads a function, so `(generos[g] \|\| 0) + 1` concatenates a string. A genre named `__proto__` is silently dropped. | the catalog holding one track with genre `"constructor"` | each genre maps to its number of records (`{constructor: 1}`) | high (reasoned from JavaScript semantics, not executed) | Statistics.ObjectTally / Statistics.ConstructorGenreCounterexample | Statistics.GenreTally |
