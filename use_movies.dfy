/**
 * The collection state manager (the `useMovies` hook) as an object with the
 * hook's five state fields. Each awaited service call is taken as an
 * argument holding its settled outcome, so every operation is one atomic,
 * sequential step. The effect that re-runs `applyFilters` after every change
 * to `movies` or `filters` is `Refilter`, called right after each such change.
 */
module UseMovies {
  import opened Wrappers
  import opened Movies
  import opened FilterEngine
  import MovieService

  const LoadError: string := "Error al cargar las películas"
  const CreateError: string := "Error al crear la película"
  const UpdateError: string := "Error al actualizar la película"
  const DeleteError: string := "Error al eliminar la película"

  class MoviesStore {
    /** The whole collection, as last fetched (`allMovies` to callers). */
    var movies: seq<Movie>
    /** The visible subset (`movies` to callers). */
    var filteredMovies: seq<Movie>
    var loading: bool
    /** `null` is `None`. */
    var error: Option<string>
    var filters: Filters
    /** The requests issued to the service, oldest first. */
    ghost var sent: seq<MovieService.Request>

    /** The filtered view is always derived from the collection and the criteria. */
    ghost predicate Valid()
      reads this
    {
      filteredMovies == ApplyFilters(movies, filters)
    }

    /** The hook's initial state, before the mount effect runs `LoadMovies`. */
    constructor ()
      ensures Valid()
      ensures movies == [] && filteredMovies == [] && !loading && error == None
      ensures filters == NoFilters && sent == []
    {
      movies := [];
      filteredMovies := [];
      loading := false;
      error := None;
      filters := NoFilters;
      sent := [];
    }

    /** The effect at the top of the hook: `applyFilters` and `setFilteredMovies`. */
    method Refilter()
      modifies this`filteredMovies
      ensures Valid()
    {
      filteredMovies := ApplyFilters(movies, filters);
    }

    /** `loadMovies`, given what awaiting `getAllMovies()` gave. On success the
        collection is the fetched list and the error is cleared; on failure the
        collection is kept and the load message is shown; either way `loading`
        ends false. */
    method LoadMovies(fetched: Fetch)
      requires Valid()
      modifies this
      ensures Valid()
      ensures movies == (if fetched.Fetched? then fetched.data else old(movies))
      ensures error == (if fetched.Fetched? then None else Some(LoadError))
      ensures !loading
      ensures filters == old(filters)
      ensures sent == old(sent) + [MovieService.GetAllMoviesDefault()]
    {
      loading := true;
      error := None;
      sent := sent + [MovieService.GetAllMoviesDefault()];
      match fetched {
        case Fetched(data) =>
          movies := data;
          Refilter();
        case FetchFailed =>
          error := Some(LoadError);
      }
      loading := false;
    }

    /** The body shared by `createMovie`, `updateMovie` and `deleteMovie`:
        send `request`; if it settles, reload the list (whose own failure
        `LoadMovies` absorbs) and report success; if it throws, show
        `failure` and report failure without touching the collection. */
    method Mutate(request: MovieService.Request, outcome: Mutation, reloaded: Fetch, failure: string)
      returns (ok: bool)
      requires Valid()
      modifies this
      ensures Valid()
      ensures ok == outcome.Done?
      ensures movies == (if outcome.Done? && reloaded.Fetched? then reloaded.data else old(movies))
      ensures error == (if outcome.MutationFailed? then Some(failure)
                        else if reloaded.Fetched? then None else Some(LoadError))
      ensures !loading
      ensures filters == old(filters)
      ensures sent == old(sent) + [request] + (if outcome.Done? then [MovieService.GetAllMoviesDefault()] else [])
    {
      loading := true;
      sent := sent + [request];
      match outcome {
        case Done =>
          LoadMovies(reloaded);
          ok := true;
        case MutationFailed =>
          error := Some(failure);
          ok := false;
      }
      loading := false;
    }

    /** `createMovie(movieData)`: returns true exactly when the POST settled,
        even if the reload then failed; the collection only ever becomes the
        reloaded list, never a locally patched one. */
    method CreateMovie(movieData: Movie, outcome: Mutation, reloaded: Fetch) returns (ok: bool)
      requires Valid()
      modifies this
      ensures Valid()
      ensures ok == outcome.Done?
      ensures movies == (if outcome.Done? && reloaded.Fetched? then reloaded.data else old(movies))
      ensures error == (if outcome.MutationFailed? then Some(CreateError)
                        else if reloaded.Fetched? then None else Some(LoadError))
      ensures !loading
      ensures filters == old(filters)
      ensures sent == old(sent) + [MovieService.CreateMovie(movieData)]
                      + (if outcome.Done? then [MovieService.GetAllMoviesDefault()] else [])
    {
      ok := Mutate(MovieService.CreateMovie(movieData), outcome, reloaded, CreateError);
    }

    /** `updateMovie(imdbID, movieData)`: as `CreateMovie`, with a PUT to the item URL. */
    method UpdateMovie(imdbID: string, movieData: Movie, outcome: Mutation, reloaded: Fetch) returns (ok: bool)
      requires Valid()
      modifies this
      ensures Valid()
      ensures ok == outcome.Done?
      ensures movies == (if outcome.Done? && reloaded.Fetched? then reloaded.data else old(movies))
      ensures error == (if outcome.MutationFailed? then Some(UpdateError)
                        else if reloaded.Fetched? then None else Some(LoadError))
      ensures !loading
      ensures filters == old(filters)
      ensures sent == old(sent) + [MovieService.UpdateMovie(imdbID, movieData)]
                      + (if outcome.Done? then [MovieService.GetAllMoviesDefault()] else [])
    {
      ok := Mutate(MovieService.UpdateMovie(imdbID, movieData), outcome, reloaded, UpdateError);
    }

    /** `deleteMovie(imdbID)`: as `CreateMovie`, with a DELETE to the item URL. */
    method DeleteMovie(imdbID: string, outcome: Mutation, reloaded: Fetch) returns (ok: bool)
      requires Valid()
      modifies this
      ensures Valid()
      ensures ok == outcome.Done?
      ensures movies == (if outcome.Done? && reloaded.Fetched? then reloaded.data else old(movies))
      ensures error == (if outcome.MutationFailed? then Some(DeleteError)
                        else if reloaded.Fetched? then None else Some(LoadError))
      ensures !loading
      ensures filters == old(filters)
      ensures sent == old(sent) + [MovieService.DeleteMovie(imdbID)]
                      + (if outcome.Done? then [MovieService.GetAllMoviesDefault()] else [])
    {
      ok := Mutate(MovieService.DeleteMovie(imdbID), outcome, reloaded, DeleteError);
    }

    /** `updateFilters(patch)`: merge the supplied fields; no request is sent. */
    method UpdateFilters(patch: FilterPatch)
      requires Valid()
      modifies this`filters, this`filteredMovies
      ensures Valid()
      ensures filters == Merge(old(filters), patch)
    {
      filters := Merge(filters, patch);
      Refilter();
    }

    /** `clearFilters()`: every criterion back to ''; the view is then the whole collection. */
    method ClearFilters()
      requires Valid()
      modifies this`filters, this`filteredMovies
      ensures Valid()
      ensures filters == NoFilters
      ensures filteredMovies == movies
    {
      filters := NoFilters;
      Refilter();
      NoFiltersIsIdentity(movies);
    }
  }
}
