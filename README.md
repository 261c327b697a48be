# Movie catalog core in Dafny

A model of the core of a small movie-showtime catalog (a React front end over a
remote REST service), with proofs about it. The model covers four parts:

- **The collection state manager** (`useMovies`). It holds the whole
  collection, the filtered view, a loading flag, an error message and four
  filter criteria: title, type, location and year. It loads, creates, updates
  and deletes records through the service client. It merges and clears the
  criteria. The view is always recomputed from the collection and the criteria.
  It is modelled as the class `UseMovies.MoviesStore`. The invariant
  `Valid()` (`filteredMovies == ApplyFilters(movies, filters)`) is kept by
  every method.
- **The filter engine** (`applyFilters`, `updateFilters`, `clearFilters`),
  modelled as pure functions in `FilterEngine`:
  - The title and location criteria are case-insensitive substring tests.
  - The type criterion is a case-insensitive equality test.
  - The year criterion is a case-sensitive substring test.
  - An empty criterion is skipped.
- **The service client** (`movieService`), in `MovieService`:
  - The request each operation sends: method, URL and body.
  - The two lookups `getUniqueTypes` and `getUniqueLocations`. Each gives the
    distinct non-empty values in order of first appearance, and `[]` when the
    fetch fails.
- **The record validator** (`MovieForm`): the form state `formData` and
  `errors`, its set-up for a new or an edited movie, `validateForm`,
  `handleSubmit` and `handleChange`. It is modelled as the class
  `MovieForm.MovieFormState`. The error map it computes is specified by the
  function `FormErrors`.

Supporting modules:

- `Text` holds the JavaScript string operations the core relies on: `trim`
  with the exact ECMAScript white-space set, `toLowerCase`, `includes`, `\d`,
  and the decimal rendering of `Date.now()`.
- `Sequences` holds `Array.filter` and the insertion order of a `Set`.
- `Movies` holds the record type and the outcomes of an awaited service call.

Every awaited service call is a parameter holding its settled outcome (`Fetch` or
`Mutation`), so each hook operation is one sequential step. A ghost field
`sent` logs the requests the store issues.

## Model

| member | source | states |
|---|---|---|
| `UseMovies.MoviesStore.constructor` | src/hooks/useMovies.js:5-14 | empty collection and view, not loading, no error, every criterion '', nothing sent yet; the view invariant holds |
| `UseMovies.MoviesStore.Refilter` | src/hooks/useMovies.js:22-24 | after the effect runs, the view is `ApplyFilters` of the collection and the criteria |
| `UseMovies.MoviesStore.LoadMovies` | src/hooks/useMovies.js:26-38 | on success the collection is the fetched list and the error is cleared; on failure the collection is kept and the load message is set; `loading` ends false; the criteria are unchanged; exactly one list request is sent; the view invariant is kept |
| `UseMovies.MoviesStore.Mutate` | src/hooks/useMovies.js:83-96 | the shared try/catch/finally: the result is true exactly when the request settled; the collection only ever becomes a reloaded list; the operation message on failure, otherwise the reload's outcome; the request, then a reload only on success, are sent |
| `UseMovies.MoviesStore.CreateMovie` | src/hooks/useMovies.js:83-96 | POST of the whole record to the base URL, then the reload; result, collection, error message "Error al crear la película", `loading`, criteria and request log as for `Mutate` |
| `UseMovies.MoviesStore.UpdateMovie` | src/hooks/useMovies.js:98-111 | PUT of the record to the item URL of `imdbID`, then the reload; error message "Error al actualizar la película" |
| `UseMovies.MoviesStore.DeleteMovie` | src/hooks/useMovies.js:113-126 | DELETE of the item URL of `imdbID`, then the reload; error message "Error al eliminar la película" |
| `UseMovies.MoviesStore.UpdateFilters` | src/hooks/useMovies.js:70-72 | the criteria become the merge of the old ones with the supplied fields; the view is recomputed |
| `UseMovies.MoviesStore.ClearFilters` | src/hooks/useMovies.js:74-81 | every criterion is ''; the view is then the whole collection, in order |
| `FilterEngine.ApplyFilters` | src/hooks/useMovies.js:40-68 | no contract; characterised by `ApplyFiltersIsOneFilter`, `FilteredViewSelects` and `FilteredMembership` |
| `FilterEngine.ApplyFiltersIsOneFilter` | src/hooks/useMovies.js:40-68 | the chain of up to four filters equals one filter by the conjunction of the non-empty criteria |
| `FilterEngine.FilteredViewSelects` | src/hooks/useMovies.js:40-68 | the view is an order-preserving subsequence of the collection that holds position i exactly when movie i meets every non-empty criterion |
| `FilterEngine.FilteredMembership` | src/hooks/useMovies.js:40-68 | a movie is in the view iff it is in the collection and meets every non-empty criterion |
| `FilterEngine.MatchesIffSatisfies` | src/hooks/useMovies.js:43-65 | the four tests hold exactly when the lowercased query occurs in the lowercased title and location at some position, the lowercased types are equal and the year query occurs in the year; each applies only when its criterion is non-empty |
| `FilterEngine.NarrowByTitle` | src/hooks/useMovies.js:43-47 | narrowing by the title criterion adds that criterion to the conjunction, and a '' criterion leaves the list as it is |
| `FilterEngine.NarrowByType` | src/hooks/useMovies.js:49-53 | the same for the type criterion |
| `FilterEngine.NarrowByLocation` | src/hooks/useMovies.js:55-59 | the same for the location criterion |
| `FilterEngine.NarrowByYear` | src/hooks/useMovies.js:61-65 | the same for the year criterion |
| `FilterEngine.NoFiltersIsIdentity` | src/hooks/useMovies.js:41 | with every criterion empty, the view is the collection unchanged |
| `FilterEngine.ConjunctionOfSingleCriteria` | src/hooks/useMovies.js:40-68 | AND composition: a movie is in the view for several criteria iff it is in the view for each criterion alone |
| `FilterEngine.CaseInsensitive` | src/hooks/useMovies.js:45-57 | criteria that lowercase alike, with the same year, give the same view |
| `FilterEngine.TypeIsExactTitleIsSubstring` | src/hooks/useMovies.js:44-52 | "Com" does not select the type "Comedy" but does select the title "Comedy Night" |
| `FilterEngine.TitleIgnoresCase` | src/hooks/useMovies.js:44-46 | the title query "dune" keeps the movie titled "Dune" |
| `FilterEngine.TypeScenario` | src/hooks/useMovies.js:49-53 | the type query "Sci-Fi" keeps the Sci-Fi movie and drops the Drama one |
| `FilterEngine.Merge` | src/hooks/useMovies.js:71 | no contract; characterised by `MergeOverwritesExactlySupplied`, `MergeFullPatch` and `MergeEmptyPatch` |
| `FilterEngine.MergeOverwritesExactlySupplied` | src/hooks/useMovies.js:71 | after the merge, each supplied field has the new value and each absent field keeps the old one |

| `FilterEngine.MergeFullPatch` | src/hooks/useMovies.js:71 | a patch with all four fields replaces the criteria outright |
| `FilterEngine.MergeEmptyPatch` | src/hooks/useMovies.js:71 | an empty patch changes nothing |
| `MovieService.ListUrl` | src/services/movieService.js:9 | no contract; characterised by `ListUrlRoundTrip`, `ListUrlCutsAtAmpersand`, `ListUrlNotInjective` and `ListAndItemUrlsDiffer` |
| `MovieService.GetAllMovies` | src/services/movieService.js:7-15 | no contract; a GET of `ListUrl(title, ubication)`; see `GetAllMoviesDefault` |
| `MovieService.ItemUrl` | src/services/movieService.js:20 | no contract; characterised by `ItemUrlRoundTrip`, `ItemUrlCutsAtAmpersand`, `ItemUrlInjective` and `ListAndItemUrlsDiffer` |
| `MovieService.GetMovieById` | src/services/movieService.js:18-26 | no contract; a GET of `ItemUrl(imdbID)` |
| `MovieService.CreateMovie` | src/services/movieService.js:29-37 | no contract; a POST of the whole record to the base URL, as logged by `MoviesStore.CreateMovie` |
| `MovieService.UpdateMovie` | src/services/movieService.js:40-48 | no contract; a PUT of the record to `ItemUrl(imdbID)`, as logged by `MoviesStore.UpdateMovie` |
| `MovieService.DeleteMovie` | src/services/movieService.js:51-59 | no contract; a DELETE of `ItemUrl(imdbID)`, as logged by `MoviesStore.DeleteMovie` |
| `MovieService.GetAllMoviesDefault` | src/services/movieService.js:7-9 | `getAllMovies()` with its defaults is a GET of the base URL with `?title=&ubication=` |
| `MovieService.ListUrlRoundTrip` | src/services/movieService.js:9 | a title and a location without `&` are read back unchanged from the list URL, where each value ends at the next `&` |
| `MovieService.ListUrlCutsAtAmpersand` | src/services/movieService.js:9 | the location is not escaped: "b&imdbID=c" is read back from its list URL as "b" |
| `MovieService.ListUrlNotInjective` | src/services/movieService.js:9 | the values are not escaped, so two different (title, location) pairs give the same list URL |
| `MovieService.ItemUrlRoundTrip` | src/services/movieService.js:20 | an identifier without `&` is read back whole from the item URL, where the value ends at the first `&` as the list URL's values do |
| `MovieService.ItemUrlCutsAtAmpersand` | src/services/movieService.js:20 | the identifier is not escaped: "x&title=y" is read back from its item URL as "x" |
| `MovieService.ItemUrlInjective` | src/services/movieService.js:42-53 | different identifiers give different item URL strings |
| `MovieService.ListAndItemUrlsDiffer` | src/services/movieService.js:9-20 | read by position, a list URL never parses as an item URL and an item URL never parses as a list URL, because the first query key differs |
| `MovieService.UniqueTypes` | src/services/movieService.js:62-71 | no contract; characterised by `UniqueTypesSpec` |
| `MovieService.UniqueLocations` | src/services/movieService.js:74-83 | no contract; characterised by `UniqueLocationsSpec` |
| `MovieService.UniqueNonEmptySpec` | src/services/movieService.js:65-66 | `[...new Set(values)].filter(v => v)` has no '', no repeats, only values from the input, every non-empty input value, and keeps order of first occurrence |
| `MovieService.DistinctNonEmptyInOrderUnique` | src/services/movieService.js:65-66 | those properties determine the list: two lists that have them are equal |
| `MovieService.UniqueTypesSpec` | src/services/movieService.js:62-71 | `[]` when the fetch throws; otherwise the distinct non-empty types in order of first appearance, where x is listed iff x is non-empty and some movie has type x |
| `MovieService.UniqueLocationsSpec` | src/services/movieService.js:74-83 | the same for locations |
| `MovieForm.MovieFormState.constructor` | src/components/MovieForm.jsx:282-304 | an edit form holds the given movie; a new form holds the blank record (`Estado` true) with identifier "IMDB" + timestamp; there are no errors |
| `MovieForm.MovieFormState.MovieChanged` | src/components/MovieForm.jsx:294-304 | a given movie replaces the form data; otherwise only the identifier is renewed |
| `MovieForm.NewId` | src/components/MovieForm.jsx:301 | no contract; characterised by `NewIdShape` and `NewIdAddressable` |
| `MovieForm.NewIdAddressable` | src/components/MovieForm.jsx:301 | a new identifier holds no `&`, so it is read back whole from its item URL and the later update or delete addresses that record |
| `MovieForm.NewIdShape` | src/components/MovieForm.jsx:301 | a new identifier is "IMDB" followed by one or more digits, and different timestamps give different identifiers |
| `MovieForm.MovieFormState.ValidateForm` | src/components/MovieForm.jsx:306-333 | the stored error map is `FormErrors` of the form data, and the result is true iff that map is empty |
| `MovieForm.FormErrors` | src/components/MovieForm.jsx:306-331 | no contract; the error map recorded field by field in the order of the checks; characterised by `FormErrorsAt` and `ValidIff` |
| `MovieForm.FormErrorsAt` | src/components/MovieForm.jsx:306-329 | a field is in the error map iff its check fails, and its entry is that check's message |
| `MovieForm.ValidIff` | src/components/MovieForm.jsx:306-333 | the form is valid iff title, type, description and location are non-blank and the year is non-blank and exactly four ASCII digits |
| `MovieForm.YearMessages` | src/components/MovieForm.jsx:313-317 | a blank year gets "El año es requerido"; a non-blank year that is not four digits gets "El año debe tener 4 dígitos"; a four-digit year gets no entry |
| `MovieForm.UntrimmedYearRejected` | src/components/MovieForm.jsx:315 | the digit test reads the untrimmed text, so " 2024" gets the format message |
| `MovieForm.UncheckedFieldsNeverFail` | src/components/MovieForm.jsx:306-329 | the poster, the active flag and the identifier never get an entry, and changing them never changes the error map |
| `MovieForm.MovieFormState.HandleSubmit` | src/components/MovieForm.jsx:335-340 | validates; hands the form data on, unchanged, exactly when the error map is empty |
| `MovieForm.MovieFormState.HandleChange` | src/components/MovieForm.jsx:342-348 | the one field takes the new value; an error message for that field is cleared to '' and every other entry is kept |
| `MovieForm.Set` | src/components/MovieForm.jsx:343 | no contract; characterised by `SetChangesOnlyThatField` |
| `MovieForm.SetChangesOnlyThatField` | src/components/MovieForm.jsx:343 | the spread update sets the named field to the value and leaves every other field as it was |
| `Text.Trim` | src/components/MovieForm.jsx:309-327 | no contract; characterised by `TrimSpec` and `BlankIffAllWhiteSpace` |
| `Text.Lower` | src/hooks/useMovies.js:45-57 | the result has the input's length and each character is `LowerChar` of the input's, which leaves no ASCII capital and keeps digits digits |
| `Text.Includes` | src/hooks/useMovies.js:45-63 | no contract; characterised by `IncludesIff` |
| `Text.Decimal` | src/components/MovieForm.jsx:301 | the text is one or more ASCII digits; characterised by `DecimalRoundTrip` |
| `Text.BlankIffAllWhiteSpace` | src/components/MovieForm.jsx:309 | `!s.trim()` holds iff every character of s is ECMAScript white space or a line terminator |
| `Text.TrimSpec` | src/components/MovieForm.jsx:309-327 | trimming keeps a slice of the text with only white space outside it, and the slice neither starts nor ends with white space |
| `Text.IncludesIff` | src/hooks/useMovies.js:45 | `s.includes(t)` holds iff t occurs in s at some position |
| `Text.DecimalRoundTrip` | src/components/MovieForm.jsx:301 | the decimal text of a timestamp reads back as that timestamp |
| `Sequences.Filter` | src/hooks/useMovies.js:44-62 | no longer than the input; holds only passing elements of the input and every passing element; characterised by `FilterSelects` |
| `Sequences.Distinct` | src/services/movieService.js:65 | no contract; characterised by `DistinctFromOrdered` and `UniqueNonEmptySpec` |
| `Sequences.FilterSelects` | src/hooks/useMovies.js:44 | `Array.filter` gives the order-preserving subsequence of exactly the passing elements |
| `Sequences.DistinctFromOrdered` | src/services/movieService.js:65 | `[...new Set(values)]` has no repeats and lists values in order of first occurrence |

## Left out

- The HTTP transport (axios), JSON decoding, `console.error` and response bodies.
  An awaited call is a settled outcome given as a parameter. Responses of
  create, update and delete are ignored by the hook as well.
- Concurrency. Two operations in flight at once, and React's batching and
  scheduling of state updates, are not modelled. Each operation runs to
  completion, and the effect that re-runs `applyFilters` is `Refilter`,
  called right after each change to the collection or the criteria.
- The mount effect (src/hooks/useMovies.js:17-19) is one `LoadMovies` call
  after the constructor.
- Intermediate states. During a create, update or delete, the nested
  `loadMovies` resets `loading` to false before the outer `finally` runs.
  Only the states at the end of each operation are modelled.
- `Date.now()` is a parameter `now: nat` of the form's set-up.
- `toLowerCase` covers ASCII and the Latin-1 capitals (U+00C0 to U+00DE
  except U+00D7). Full Unicode case mapping is not modelled.
- `Year` is text throughout. A numeric `Year` from the service, on which
  `toString()` and `trim()` would behave differently, is not modelled.
  Records are assumed to carry every field as a string, except `Estado`.
- `getAllMovies(title, ubication)` interpolates its arguments without URL
  escaping; the model does the same. `ListUrlNotInjective` shows the effect.
  No caller in the app passes arguments.
- Item URLs are not escaped either (`getMovieById`, `updateMovie`,
  `deleteMovie`). An identifier holding `&` is not read back as itself
  (`ItemUrlCutsAtAmpersand`). Only identifiers without `&`, which include every
  identifier a new form generates (`NewIdAddressable`), are proved to be read
  back whole.
- `ListQuery`, `ItemQuery`, `ListUrlRoundTrip`, `ItemUrlRoundTrip` and
  `ListAndItemUrlsDiffer` read the raw query text by position: the keys are
  expected in the order the client writes them, and a repeated or extra key
  (a title holding `&imdbID=`) is ignored. No percent-decoding (`%`, `+`) and
  no fragment stripping (`#`) is modelled. The round trips are proved only in
  this raw reading, so a value holding `#`, `%` or `+` is read back unchanged
  here but not by a real server.
- `getMovieById` is modelled only as the request it sends (`GetMovieById`).
  No core operation awaits it.
- The presentational components, the app shell and the form's markup,
  overlay and cancel handling are not part of this model.
- The unique lookups return an ordered array. They are proved to hold the
  same elements as a set, with no repeats, in first-seen order; the code's
  order is kept rather than an unordered set.
