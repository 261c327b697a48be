/**
 * The service client: the request each remote operation sends (method, URL
 * and body), and the two advisory lookups computed from a full list fetch.
 * The transport itself is not modelled; an awaited fetch is a `Fetch` value.
 */
module MovieService {
  import opened Wrappers
  import opened Movies
  import opened Sequences

  const BaseUrl: string := "https://movie.azurewebsites.net/api/cartelera"

  /** One HTTP request of the client: GET, POST, PUT or DELETE with its URL,
      and for POST and PUT the movie record sent as the JSON body. */
  datatype Request =
    | Get(url: string)
    | Post(url: string, body: Movie)
    | Put(url: string, body: Movie)
    | Delete(url: string)

  /** The list URL: both query values are interpolated as they are, unescaped. */
  function ListUrl(title: string, ubication: string): string {
    BaseUrl + "?title=" + title + "&ubication=" + ubication
  }

  /** The URL that addresses one record by its identifier. */
  function ItemUrl(imdbID: string): string {
    BaseUrl + "?imdbID=" + imdbID
  }

  /** `getAllMovies(title, ubication)`; the app only calls it with none, so both default to ''. */
  function GetAllMovies(title: string, ubication: string): Request {
    Get(ListUrl(title, ubication))
  }

  /** `getAllMovies()` with both arguments left to their defaults. */
  function GetAllMoviesDefault(): (r: Request)
    ensures r == Get(BaseUrl + "?title=&ubication=")
  {
    assert ListUrl("", "") == BaseUrl + "?title=&ubication=";
    GetAllMovies("", "")
  }

  function GetMovieById(imdbID: string): Request {
    Get(ItemUrl(imdbID))
  }

  /** `createMovie(movieData)` posts the whole record, client-assigned id included, to the base path. */
  function CreateMovie(movieData: Movie): Request {
    Post(BaseUrl, movieData)
  }

  function UpdateMovie(imdbID: string, movieData: Movie): Request {
    Put(ItemUrl(imdbID), movieData)
  }

  function DeleteMovie(imdbID: string): Request {
    Delete(ItemUrl(imdbID))
  }

  // ---------------------------------------------------------------------
  // Reading a URL back: what a server sees in the query string.

  const ListPrefix: string := BaseUrl + "?title="
  const UbicationKey: string := "&ubication="
  const ItemPrefix: string := BaseUrl + "?imdbID="

  predicate StartsWith(s: string, prefix: string) {
    |prefix| <= |s| && s[..|prefix|] == prefix
  }

  /** Position of the first `c` in `s`, or `|s|` when there is none. */
  function IndexOf(s: string, c: char): (i: nat)
    ensures i <= |s| && c !in s[..i]
    ensures i < |s| ==> s[i] == c
  {
    if s == [] then 0 else if s[0] == c then 0 else 1 + IndexOf(s[1..], c)
  }

  /** The `title` and `ubication` values of a list URL, read from the raw
      query text by position: `title` runs up to the first `&`, which must
      begin `&ubication=`, and `ubication` runs up to the next `&`. */
  function ListQuery(url: string): Option<(string, string)> {
    if StartsWith(url, ListPrefix) then
      var rest := url[|ListPrefix|..];
      var k := IndexOf(rest, '&');
      var tail := rest[k..];
      if StartsWith(tail, UbicationKey) then
        var u := tail[|UbicationKey|..];
        Some((rest[..k], u[..IndexOf(u, '&')]))
      else None
    else None
  }

  /** The `imdbID` value of an item URL: it runs up to the first `&`, as
      the values of a list URL do. */
  function ItemQuery(url: string): Option<string> {
    if StartsWith(url, ItemPrefix) then
      var rest := url[|ItemPrefix|..];
      Some(rest[..IndexOf(rest, '&')])
    else None
  }

  /** A title and a location without `&` are read back from the list URL. */
  lemma ListUrlRoundTrip(title: string, ubication: string)
    requires '&' !in title && '&' !in ubication
    ensures ListQuery(ListUrl(title, ubication)) == Some((title, ubication))
  {
    var url := ListUrl(title, ubication);
    assert url == ListPrefix + title + UbicationKey + ubication;
    assert StartsWith(url, ListPrefix);
    var rest := url[|ListPrefix|..];
    assert rest == title + UbicationKey + ubication;
    assert rest[..|title|] == title;
    assert rest[|title|] == '&';
    IndexOfFirst(rest, '&', |title|);
    assert rest[|title|..] == UbicationKey + ubication;
    IndexOfAbsent(ubication, '&');
    assert ubication[..|ubication|] == ubication;
  }

  /** A location holding `&` is cut there: the rest reads as another key. */
  lemma ListUrlCutsAtAmpersand()
    ensures ListQuery(ListUrl("a", "b&imdbID=c")) == Some(("a", "b"))
  {
    var url := ListUrl("a", "b&imdbID=c");
    assert url == ListPrefix + "a" + UbicationKey + "b&imdbID=c";
    assert StartsWith(url, ListPrefix);
    var rest := url[|ListPrefix|..];
    assert rest == "a" + UbicationKey + "b&imdbID=c";
    assert rest[..1] == "a";
    IndexOfFirst(rest, '&', 1);
    var u := rest[1..][|UbicationKey|..];
    assert u == "b&imdbID=c";
    assert u[..1] == "b";
    IndexOfFirst(u, '&', 1);
  }

  lemma {:induction false} IndexOfFirst(s: string, c: char, k: nat)
    requires k < |s| && s[k] == c && c !in s[..k]
    ensures IndexOf(s, c) == k
  {
    if k > 0 {
      assert s[0] in s[..k];
      assert s[1..][..k - 1] == s[1..k];
      assert forall x :: x in s[1..k] ==> x in s[..k];
      IndexOfFirst(s[1..], c, k - 1);
    }
  }

  /** Because the values are not escaped, two different (title, ubication)
      pairs can produce the same list URL as soon as the title holds `&`. */
  lemma ListUrlNotInjective()
    ensures ListUrl("a&ubication=b", "") == ListUrl("a", "b&ubication=")
  {
  }

  /** An identifier without `&` is read back whole from the item URL. */
  lemma ItemUrlRoundTrip(imdbID: string)
    requires '&' !in imdbID
    ensures ItemQuery(ItemUrl(imdbID)) == Some(imdbID)
  {
    assert ItemUrl(imdbID) == ItemPrefix + imdbID;
    assert StartsWith(ItemUrl(imdbID), ItemPrefix);
    assert ItemUrl(imdbID)[|ItemPrefix|..] == imdbID;
    IndexOfAbsent(imdbID, '&');
    assert imdbID[..|imdbID|] == imdbID;
  }

  lemma {:induction false} IndexOfAbsent(s: string, c: char)
    requires c !in s
    ensures IndexOf(s, c) == |s|
  {
    if s != [] {
      assert forall x :: x in s[1..] ==> x in s;
      IndexOfAbsent(s[1..], c);
    }
  }

  /** The identifier is not escaped either: one holding `&` is cut short
      where the query string reads it, and addresses another record. */
  lemma ItemUrlCutsAtAmpersand()
    ensures ItemQuery(ItemUrl("x&title=y")) == Some("x")
  {
    var url := ItemUrl("x&title=y");
    assert url == ItemPrefix + "x&title=y";
    assert StartsWith(url, ItemPrefix);
    var rest := url[|ItemPrefix|..];
    assert rest == "x&title=y";
    assert rest[..1] == "x";
    IndexOfFirst(rest, '&', 1);
  }

  /** The item URL strings of different identifiers differ. */
  lemma ItemUrlInjective(a: string, b: string)
    ensures ItemUrl(a) == ItemUrl(b) ==> a == b
  {
    assert ItemUrl(a)[|ItemPrefix|..] == a;
    assert ItemUrl(b)[|ItemPrefix|..] == b;
  }

  /** Read by position, a list URL never parses as an item URL, nor the other
      way round: the first key of the query differs. A title or location
      holding `&imdbID=` still adds a second `imdbID` key to the query text,
      which these positional readers ignore. */
  lemma ListAndItemUrlsDiffer(title: string, ubication: string, imdbID: string)
    ensures ItemQuery(ListUrl(title, ubication)) == None
    ensures ListQuery(ItemUrl(imdbID)) == None
  {
    var l, i := ListUrl(title, ubication), ItemUrl(imdbID);
    assert l[|BaseUrl| + 1] == 't';
    assert i[|BaseUrl| + 1] == 'i';
    assert ItemPrefix[|BaseUrl| + 1] == 'i';
    assert ListPrefix[|BaseUrl| + 1] == 't';
  }

  // ---------------------------------------------------------------------
  // getUniqueTypes / getUniqueLocations

  /** `movies.map(movie => movie.Type)` */
  function Types(movies: seq<Movie>): (r: seq<string>)
    ensures |r| == |movies| && forall i :: 0 <= i < |movies| ==> r[i] == movies[i].Type
  {
    seq(|movies|, i requires 0 <= i < |movies| => movies[i].Type)
  }

  /** `movies.map(movie => movie.Ubication)` */
  function Locations(movies: seq<Movie>): (r: seq<string>)
    ensures |r| == |movies| && forall i :: 0 <= i < |movies| ==> r[i] == movies[i].Ubication
  {
    seq(|movies|, i requires 0 <= i < |movies| => movies[i].Ubication)
  }

  /** A string is truthy in JavaScript exactly when it is not empty. */
  predicate Truthy(v: string) {
    v != ""
  }

  /** `[...new Set(values)].filter(v => v)` */
  function UniqueNonEmpty(values: seq<string>): seq<string> {
    Filter(Distinct(values), Truthy)
  }

  /** `getUniqueTypes()` once its list fetch has settled: `[]` if it threw. */
  function UniqueTypes(fetched: Fetch): seq<string> {
    match fetched
    case Fetched(movies) => UniqueNonEmpty(Types(movies))
    case FetchFailed => []
  }

  /** `getUniqueLocations()` once its list fetch has settled: `[]` if it threw. */
  function UniqueLocations(fetched: Fetch): seq<string> {
    match fetched
    case Fetched(movies) => UniqueNonEmpty(Locations(movies))
    case FetchFailed => []
  }

  /** Every element of `r` occurs in `values`, and `r` is strictly ordered by
      the position of each element's first occurrence there. */
  ghost predicate OrderedByFirst(values: seq<string>, r: seq<string>) {
    && (forall x :: x in r ==> x in values)
    && (forall i, j :: 0 <= i < j < |r| ==> FirstIndex(values, r[i]) < FirstIndex(values, r[j]))
  }

  /** `r` lists the distinct non-empty strings of `values`, each once, in the
      order in which they first occur there. */
  ghost predicate DistinctNonEmptyInOrder(values: seq<string>, r: seq<string>) {
    && "" !in r
    && NoDuplicates(r)
    && (forall x :: x in values && x != "" ==> x in r)
    && OrderedByFirst(values, r)
  }

  lemma UniqueNonEmptySpec(values: seq<string>)
    ensures DistinctNonEmptyInOrder(values, UniqueNonEmpty(values))
  {
    var d := Distinct(values);
    DistinctFromOrdered(values, {});
    var idx := FilterSelects(d, Truthy);
    SelectedKeepsOrder(d, Filter(d, Truthy), idx, Truthy, values);
  }

  /** The order of first occurrence, with no repeats and the right elements,
      leaves only one possible list. */
  lemma {:induction false} DistinctNonEmptyInOrderUnique(values: seq<string>, r1: seq<string>, r2: seq<string>)
    requires DistinctNonEmptyInOrder(values, r1) && DistinctNonEmptyInOrder(values, r2)
    ensures r1 == r2
  {
    OrderedBySameKeys(values, r1, r2);
  }

  /** Dropping the head keeps the order, and the head does not recur. */
  lemma OrderedTail(values: seq<string>, r: seq<string>)
    requires r != [] && OrderedByFirst(values, r)
    ensures OrderedByFirst(values, r[1..]) && r[0] !in r[1..]
  {
    forall i, j | 0 <= i < j < |r[1..]|
      ensures FirstIndex(values, r[1..][i]) < FirstIndex(values, r[1..][j])
    {
      assert r[1..][i] == r[i + 1] && r[1..][j] == r[j + 1];
    }
  }

  /** Two non-empty ordered lists with the same elements start alike: each
      head is the element of the earliest first occurrence. */
  lemma OrderedHeadsAgree(values: seq<string>, r1: seq<string>, r2: seq<string>)
    requires r1 != [] && r2 != []
    requires OrderedByFirst(values, r1) && OrderedByFirst(values, r2)
    requires forall x :: x in r1 <==> x in r2
    ensures r1[0] == r2[0]
  {
    assert r1[0] in r1;
    assert r2[0] in r2;
    var j :| 0 <= j < |r2| && r2[j] == r1[0];
    var i :| 0 <= i < |r1| && r1[i] == r2[0];
    if i > 0 && j > 0 {
      assert false;
    }
  }

  /** Two ordered lists holding the same elements are equal. */
  lemma {:induction false} OrderedBySameKeys(values: seq<string>, r1: seq<string>, r2: seq<string>)
    requires OrderedByFirst(values, r1) && OrderedByFirst(values, r2)
    requires forall x :: x in r1 <==> x in r2
    ensures r1 == r2
    decreases |r1| + |r2|
  {
    if r1 != [] {
      assert r1[0] in r1;
    }
    if r2 != [] {
      assert r2[0] in r2;
    }
    if r1 != [] && r2 != [] {
      OrderedHeadsAgree(values, r1, r2);
      OrderedTail(values, r1);
      OrderedTail(values, r2);
      forall x ensures x in r1[1..] <==> x in r2[1..] {
        assert x in r1 <==> x in r1[1..] || x == r1[0] by {
          assert r1 == [r1[0]] + r1[1..];
        }
        assert x in r2 <==> x in r2[1..] || x == r2[0] by {
          assert r2 == [r2[0]] + r2[1..];
        }
      }
      OrderedBySameKeys(values, r1[1..], r2[1..]);
      assert r1 == [r1[0]] + r1[1..];
      assert r2 == [r2[0]] + r2[1..];
    }
  }

  /** `getUniqueTypes`: the distinct non-empty genres of the fetched movies,
      each the `Type` of some movie, in order of first appearance; `[]` when
      the fetch failed. */
  lemma UniqueTypesSpec(fetched: Fetch)
    ensures fetched.FetchFailed? ==> UniqueTypes(fetched) == []
    ensures fetched.Fetched? ==> DistinctNonEmptyInOrder(Types(fetched.data), UniqueTypes(fetched))
    ensures fetched.Fetched? ==> forall x :: x in UniqueTypes(fetched) <==>
              x != "" && exists m :: m in fetched.data && m.Type == x
  {
    if fetched.Fetched? {
      var ms := fetched.data;
      UniqueNonEmptySpec(Types(ms));
      forall x ensures x in Types(ms) <==> exists m :: m in ms && m.Type == x {
        if x in Types(ms) {
          var i :| 0 <= i < |ms| && Types(ms)[i] == x;
          assert ms[i] in ms;
        }
        if exists m :: m in ms && m.Type == x {
          var m :| m in ms && m.Type == x;
          var i :| 0 <= i < |ms| && ms[i] == m;
          assert Types(ms)[i] == x;
        }
      }
    }
  }

  /** `getUniqueLocations`: the same four facts over `Ubication`. */
  lemma UniqueLocationsSpec(fetched: Fetch)
    ensures fetched.FetchFailed? ==> UniqueLocations(fetched) == []
    ensures fetched.Fetched? ==> DistinctNonEmptyInOrder(Locations(fetched.data), UniqueLocations(fetched))
    ensures fetched.Fetched? ==> forall x :: x in UniqueLocations(fetched) <==>
              x != "" && exists m :: m in fetched.data && m.Ubication == x
  {
    if fetched.Fetched? {
      var ms := fetched.data;
      UniqueNonEmptySpec(Locations(ms));
      forall x ensures x in Locations(ms) <==> exists m :: m in ms && m.Ubication == x {
        if x in Locations(ms) {
          var i :| 0 <= i < |ms| && Locations(ms)[i] == x;
          assert ms[i] in ms;
        }
        if exists m :: m in ms && m.Ubication == x {
          var m :| m in ms && m.Ubication == x;
          var i :| 0 <= i < |ms| && ms[i] == m;
          assert Locations(ms)[i] == x;
        }
      }
    }
  }
}
