/** The movie catalog (`MovieController` over the `movies` table): add, list,
    update-by-title and delete-by-title. The showtime registry resolves movie
    ids and titles through it. */
module Movies {
  import opened Common

  /** The request body of `addMovie` and `updateMovie`. */
  datatype MovieRequest = MovieRequest(
    title: string, genre: string, duration: int, rating: Float64, releaseYear: int)

  /** A row of the `movies` table. */
  datatype Movie = Movie(
    id: MovieId, title: string, genre: string, duration: int, rating: Float64, releaseYear: int)

  /** The row that saving `req` under identity `id` produces. */
  function Stored(id: MovieId, req: MovieRequest): Movie {
    Movie(id, req.title, req.genre, req.duration, req.rating, req.releaseYear)
  }

  /** Every row is filed under its own id. */
  predicate KeyedById(movies: map<MovieId, Movie>) {
    forall id :: id in movies ==> movies[id].id == id
  }

  /** The `unique = true` constraint on the title column. */
  predicate TitlesUnique(movies: map<MovieId, Movie>) {
    forall a, b :: a in movies && b in movies && movies[a].title == movies[b].title ==> a == b
  }

  /** The rows `findByTitle(title)` selects. */
  function Titled(movies: map<MovieId, Movie>, title: string): set<MovieId> {
    set id | id in movies && movies[id].title == title
  }

  /** Some stored movie carries `title`: `findByTitle(title)` is present. */
  predicate HasTitle(movies: map<MovieId, Movie>, title: string) {
    exists id :: id in movies && movies[id].title == title
  }

  /** With unique titles, a lookup by title selects at most one movie, and
      it is present exactly when it selects one. */
  lemma AtMostOneTitled(movies: map<MovieId, Movie>, title: string)
    requires TitlesUnique(movies)
    ensures |Titled(movies, title)| <= 1
    ensures HasTitle(movies, title) <==> |Titled(movies, title)| == 1
  {
    var found := Titled(movies, title);
    if HasTitle(movies, title) {
      var id :| id in movies && movies[id].title == title;
      assert forall other :: other in found <==> other == id;
      assert found == {id};
    } else {
      assert forall other :: other !in found;
      EmptyIfNoElement(found);
    }
  }

  /** The rows `findAll()` returns. */
  function Listing(movies: map<MovieId, Movie>): set<Movie> {
    set id | id in movies :: movies[id]
  }

  /** Listing the catalog yields exactly the stored movies. */
  lemma ListingMembers(movies: map<MovieId, Movie>)
    requires KeyedById(movies)
    ensures forall m :: m in Listing(movies) <==> m.id in movies && movies[m.id] == m
  {
    forall m | m in Listing(movies)
      ensures m.id in movies && movies[m.id] == m
    {
      var k :| k in movies && movies[k] == m;
    }
  }

  /** Listing the catalog yields one entry per stored movie. */
  lemma {:induction false} ListingSize(movies: map<MovieId, Movie>)
    requires KeyedById(movies)
    ensures |Listing(movies)| == |movies|
  {
    if movies != map[] {
      EmptyIfNoElement(movies.Keys);
      var id :| id in movies;
      var rest := movies - {id};
      ListingSize(rest);
      ListingMembers(rest);
      assert forall m :: m in Listing(movies) <==> m in Listing(rest) || m == movies[id];
      assert Listing(movies) == Listing(rest) + {movies[id]};
      assert rest.Keys == movies.Keys - {id};
    }
  }

  /** The `movies` table. */
  class MovieCatalog {
    var movies: map<MovieId, Movie>
    /** The identity the next insert receives (an IDENTITY column). */
    var nextId: MovieId

    ghost predicate Valid()
      reads this
    {
      && KeyedById(movies)
      && (forall id :: id in movies ==> id < nextId)
      && TitlesUnique(movies)
    }

    constructor ()
      ensures Valid() && movies == map[]
    {
      movies := map[];
      nextId := 1;
    }

    /** `addMovie`: saves the request as a new row. The title column's
        uniqueness constraint refuses a title already in the catalog. */
    method AddMovie(req: MovieRequest) returns (r: Response<Movie>)
      requires Valid()
      modifies this
      ensures Valid()
      ensures HasTitle(old(movies), req.title) ==> r == Err(DuplicateTitle) && movies == old(movies)
      ensures !HasTitle(old(movies), req.title) ==>
        && r.Ok? && r.value.id !in old(movies)
        && r.value == Stored(r.value.id, req)
        && movies == old(movies)[r.value.id := r.value]
    {
      if HasTitle(movies, req.title) {
        return Err(DuplicateTitle);
      }
      var movie := Stored(nextId, req);
      movies := movies[nextId := movie];
      nextId := nextId + 1;
      r := Ok(movie);
    }

    /** `getAllMovies`: every stored movie, each exactly once. */
    function GetAllMovies(): (all: set<Movie>)
      reads this
      requires Valid()
      ensures forall m :: m in all <==> m.id in movies && movies[m.id] == m
      ensures |all| == |movies|
    {
      ListingMembers(movies);
      ListingSize(movies);
      Listing(movies)
    }

    /** `updateMovie`: the movie titled `movieTitle` keeps its id and takes all
        five fields of the request; no other movie changes. */
    method UpdateMovie(movieTitle: string, req: MovieRequest) returns (r: Response<Movie>)
      requires Valid()
      modifies this
      ensures Valid() && nextId == old(nextId)
      ensures !HasTitle(old(movies), movieTitle) ==> r == Err(NotFound) && movies == old(movies)
      ensures forall id :: id in old(movies) && old(movies)[id].title == movieTitle ==>
        if !HasTitle(old(movies) - {id}, req.title) then
          r == Ok(Stored(id, req)) && movies == old(movies)[id := Stored(id, req)]
        else
          r == Err(DuplicateTitle) && movies == old(movies)
    {
      if !HasTitle(movies, movieTitle) {
        return Err(NotFound);
      }
      var id :| id in movies && movies[id].title == movieTitle;
      if HasTitle(movies - {id}, req.title) {
        return Err(DuplicateTitle);
      }
      assert forall other :: other in movies && other != id ==> other in movies - {id};
      var movie := Stored(id, req);
      movies := movies[id := movie];
      r := Ok(movie);
    }

    /** `deleteMovie`: removes exactly the movie titled `movieTitle`. */
    method DeleteMovie(movieTitle: string) returns (r: Response<()>)
      requires Valid()
      modifies this
      ensures Valid() && nextId == old(nextId)
      ensures !HasTitle(old(movies), movieTitle) ==> r == Err(NotFound) && movies == old(movies)
      ensures forall id :: id in old(movies) && old(movies)[id].title == movieTitle ==>
        r == Ok(()) && movies == old(movies) - {id}
      ensures !HasTitle(movies, movieTitle)
    {
      if !HasTitle(movies, movieTitle) {
        return Err(NotFound);
      }
      var id :| id in movies && movies[id].title == movieTitle;
      movies := movies - {id};
      r := Ok(());
    }
  }
}
