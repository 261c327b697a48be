/**
 * The movie record the catalog stores, and the two outcomes an awaited
 * service call can have once the network round trip is over.
 */
module Movies {

  /** A movie (or showtime) record, with the field names the remote service uses.
      `imdbID` identifies it; `Year` is text; `Estado` marks it active. */
  datatype Movie = Movie(
    imdbID: string,
    Title: string,
    Year: string,
    Type: string,
    Poster: string,
    Estado: bool,
    description: string,
    Ubication: string)

  /** What awaiting a list fetch gives: the fetched records, or a thrown error. */
  datatype Fetch = Fetched(data: seq<Movie>) | FetchFailed

  /** What awaiting a create, update or delete gives: it settled, or it threw.
      The hook never looks at the response body. */
  datatype Mutation = Done | MutationFailed
}
