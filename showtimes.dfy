/** The showtime registry (`ShowtimeController` over the `showtimes` table):
    admission of new and changed showtimes under the rule that no two
    showtimes of one theater overlap, lookup by id, and the two deletes. */
module Showtimes {
  import opened Common
  import Movies

  /** The request body of `addShowtime` and `updateShowtime`. */
  datatype ShowtimeRequest = ShowtimeRequest(
    movieId: MovieId, price: Float64, theater: string, startTime: Instant, endTime: Instant)

  /** A row of the `showtimes` table; `movieId` is the `movie_id` join column. */
  datatype Showtime = Showtime(
    id: ShowtimeId, movieId: MovieId, price: Float64, theater: string,
    startTime: Instant, endTime: Instant)

  /** The row that saving `req` under identity `id` produces. */
  function Stored(id: ShowtimeId, req: ShowtimeRequest): Showtime {
    Showtime(id, req.movieId, req.price, req.theater, req.startTime, req.endTime)
  }

  /** The theater column's not-blank constraint: Java's `trim` removes every
      character up to U+0020, so a name is blank when it has no other character. */
  predicate Blank(theater: string) {
    forall i :: 0 <= i < |theater| ==> theater[i] <= ' '
  }

  /** Every stored showtime names a theater that is not blank. */
  predicate TheatersNamed(showtimes: map<ShowtimeId, Showtime>) {
    forall id :: id in showtimes ==> !Blank(showtimes[id].theater)
  }

  /** Every row is filed under its own id. */
  predicate KeyedById(showtimes: map<ShowtimeId, Showtime>) {
    forall id :: id in showtimes ==> showtimes[id].id == id
  }

  /** The controller's overlap test: the requested interval starts before `s`
      ends and ends after `s` starts. Both comparisons are strict. */
  predicate Overlaps(start: Instant, end: Instant, s: Showtime) {
    start < s.endTime && end > s.startTime
  }

  /** Stored showtime `id` makes the scan reject a request for `theater` over
      [start, end): it is in that theater, it is not the showtime being
      updated (`skip`), and it overlaps. */
  predicate Blocks(
    showtimes: map<ShowtimeId, Showtime>, id: ShowtimeId,
    theater: string, start: Instant, end: Instant, skip: Option<ShowtimeId>)
  {
    && id in showtimes
    && showtimes[id].theater == theater
    && skip != Some(id)
    && Overlaps(start, end, showtimes[id])
  }

  /** Some stored showtime blocks the request. */
  ghost predicate Clashes(
    showtimes: map<ShowtimeId, Showtime>,
    theater: string, start: Instant, end: Instant, skip: Option<ShowtimeId>)
  {
    exists id :: Blocks(showtimes, id, theater, start, end, skip)
  }

  /** The registry's invariant: no two showtimes of one theater overlap. */
  predicate NoOverlap(showtimes: map<ShowtimeId, Showtime>) {
    forall a, b ::
      a in showtimes && b in showtimes && a != b && showtimes[a].theater == showtimes[b].theater
      ==> !Overlaps(showtimes[a].startTime, showtimes[a].endTime, showtimes[b])
  }

  /** The rows `findByTheater(theater)` returns. */
  function ByTheater(showtimes: map<ShowtimeId, Showtime>, theater: string): set<ShowtimeId> {
    set id | id in showtimes && showtimes[id].theater == theater
  }

  /** Stored showtime `id` is a row `findByMovieAndTheaterAndStartTime` selects. */
  predicate Matches(
    showtimes: map<ShowtimeId, Showtime>, id: ShowtimeId,
    movieId: MovieId, theater: string, start: Instant)
  {
    && id in showtimes
    && showtimes[id].movieId == movieId
    && showtimes[id].theater == theater
    && showtimes[id].startTime == start
  }

  /** Every showtime ends strictly after it starts. The controllers never
      check this; it is what makes a start time identify a showtime. */
  predicate Proper(showtimes: map<ShowtimeId, Showtime>) {
    forall id :: id in showtimes ==> showtimes[id].startTime < showtimes[id].endTime
  }

  /** The overlap scan of `addShowtime` and `updateShowtime`: walks the
      theater's showtimes in no particular order and stops at the first one
      that blocks the request. */
  method FindClash(
    showtimes: map<ShowtimeId, Showtime>,
    theater: string, start: Instant, end: Instant, skip: Option<ShowtimeId>)
    returns (clash: bool)
    ensures clash == Clashes(showtimes, theater, start, end, skip)
  {
    var pending := ByTheater(showtimes, theater);
    while pending != {}
      invariant forall id :: id in pending ==> id in showtimes && showtimes[id].theater == theater
      invariant forall id ::
        id in showtimes && showtimes[id].theater == theater && id !in pending
        ==> !Blocks(showtimes, id, theater, start, end, skip)
      decreases pending
    {
      EmptyIfNoElement(pending);
      var id :| id in pending;
      if skip != Some(id) && Overlaps(start, end, showtimes[id]) {
        assert Blocks(showtimes, id, theater, start, end, skip);
        return true;
      }
      pending := pending - {id};
    }
    return false;
  }

  /** Overlap does not depend on which showtime is the new one. */
  lemma OverlapsSymmetric(a: Showtime, b: Showtime)
    ensures Overlaps(a.startTime, a.endTime, b) <==> Overlaps(b.startTime, b.endTime, a)
  {
  }

  /** A request that only touches a stored showtime at an endpoint does not overlap it. */
  lemma TouchingIsNotOverlap(start: Instant, end: Instant, s: Showtime)
    requires end == s.startTime || start == s.endTime
    ensures !Overlaps(start, end, s)
  {
  }

  /** Showtimes of other theaters never block a request: adding or removing
      one leaves the outcome of the scan as it was. */
  lemma OtherTheatersNeverClash(
    showtimes: map<ShowtimeId, Showtime>, s: Showtime,
    theater: string, start: Instant, end: Instant, skip: Option<ShowtimeId>)
    requires s.theater != theater
    ensures Clashes(showtimes[s.id := s], theater, start, end, skip)
        <==> Clashes(showtimes - {s.id}, theater, start, end, skip)
  {
    var with, without := showtimes[s.id := s], showtimes - {s.id};
    if Clashes(with, theater, start, end, skip) {
      var id :| Blocks(with, id, theater, start, end, skip);
      assert Blocks(without, id, theater, start, end, skip);
    }
    if Clashes(without, theater, start, end, skip) {
      var id :| Blocks(without, id, theater, start, end, skip);
      assert Blocks(with, id, theater, start, end, skip);
    }
  }

  /** A scan that skips an id rejects no more than one that skips nothing. */
  lemma SkipOnlyNarrowsClash(
    showtimes: map<ShowtimeId, Showtime>,
    theater: string, start: Instant, end: Instant, skip: Option<ShowtimeId>)
    ensures Clashes(showtimes, theater, start, end, skip) ==> Clashes(showtimes, theater, start, end, None)
  {
    if Clashes(showtimes, theater, start, end, skip) {
      var id :| Blocks(showtimes, id, theater, start, end, skip);
      assert Blocks(showtimes, id, theater, start, end, None);
    }
  }

  /** Writing `s` under its own id after a scan that skipped that id found no
      clash keeps the invariant: this covers both an insert under a fresh id
      and the replacement of an existing showtime. */
  lemma AdmitKeepsNoOverlap(showtimes: map<ShowtimeId, Showtime>, s: Showtime)
    requires NoOverlap(showtimes)
    requires !Clashes(showtimes, s.theater, s.startTime, s.endTime, Some(s.id))
    ensures NoOverlap(showtimes[s.id := s])
  {
    var after := showtimes[s.id := s];
    forall a, b | a in after && b in after && a != b && after[a].theater == after[b].theater
      ensures !Overlaps(after[a].startTime, after[a].endTime, after[b])
    {
      if a == s.id {
        assert !Blocks(showtimes, b, s.theater, s.startTime, s.endTime, Some(s.id));
      } else if b == s.id {
        assert !Blocks(showtimes, a, s.theater, s.startTime, s.endTime, Some(s.id));
        OverlapsSymmetric(after[a], s);
      }
    }
  }

  /** Removing showtimes keeps the invariant. */
  lemma RemoveKeepsNoOverlap(showtimes: map<ShowtimeId, Showtime>, id: ShowtimeId)
    requires NoOverlap(showtimes)
    ensures NoOverlap(showtimes - {id})
  {
  }

  /** When every showtime is proper and none overlap, the lookup by movie,
      theater and start time matches at most one showtime. */
  lemma AtMostOneMatch(
    showtimes: map<ShowtimeId, Showtime>, a: ShowtimeId, b: ShowtimeId,
    movieId: MovieId, theater: string, start: Instant)
    requires NoOverlap(showtimes) && Proper(showtimes)
    requires Matches(showtimes, a, movieId, theater, start)
    requires Matches(showtimes, b, movieId, theater, start)
    ensures a == b
  {
    if a != b {
      assert Overlaps(showtimes[a].startTime, showtimes[a].endTime, showtimes[b]);
    }
  }

  /** Without a start-before-end check the registry admits a zero-length
      showtime at the start of another one of the same movie and theater;
      the lookup by movie, theater and start time then matches both. */
  lemma ZeroLengthShowtimeSharesStart(price: Float64)
    ensures var first := Showtime(1, 7, price, "Theater 1", 10, 12);
            var request := ShowtimeRequest(7, price, "Theater 1", 10, 10);
            var showtimes := map[1 := first, 2 := Stored(2, request)];
            && !Clashes(map[1 := first], "Theater 1", 10, 10, None)
            && NoOverlap(showtimes)
            && Matches(showtimes, 1, 7, "Theater 1", 10)
            && Matches(showtimes, 2, 7, "Theater 1", 10)
  {
    var first := Showtime(1, 7, price, "Theater 1", 10, 12);
    assert forall id :: !Blocks(map[1 := first], id, "Theater 1", 10, 10, None);
  }

  /** The `showtimes` table. */
  class ShowtimeRegistry {
    var showtimes: map<ShowtimeId, Showtime>
    /** The identity the next insert receives (an IDENTITY column). */
    var nextId: ShowtimeId

    ghost predicate Valid()
      reads this
    {
      && KeyedById(showtimes)
      && (forall id :: id in showtimes ==> id < nextId)
      && TheatersNamed(showtimes)
    }

    constructor ()
      ensures Valid() && showtimes == map[]
    {
      showtimes := map[];
      nextId := 1;
    }

    /** `addShowtime`: the movie must resolve, then no showtime of the
        theater may overlap; an admitted request is saved under a fresh id,
        unless the save refuses a blank theater. */
    method AddShowtime(catalog: Movies.MovieCatalog, req: ShowtimeRequest) returns (r: Response<Showtime>)
      requires Valid()
      modifies this
      ensures Valid()
      ensures req.movieId !in catalog.movies ==> r == Err(InvalidMovie) && showtimes == old(showtimes)
      ensures req.movieId in catalog.movies && Clashes(old(showtimes), req.theater, req.startTime, req.endTime, None) ==>
        r == Err(Overlap) && showtimes == old(showtimes)
      ensures req.movieId in catalog.movies && !Clashes(old(showtimes), req.theater, req.startTime, req.endTime, None) ==>
        if Blank(req.theater) then
          r == Err(BlankTheater) && showtimes == old(showtimes)
        else
          && r.Ok? && r.value.id !in old(showtimes)
          && r.value == Stored(r.value.id, req)
          && showtimes == old(showtimes)[r.value.id := r.value]
      ensures NoOverlap(old(showtimes)) ==> NoOverlap(showtimes)
    {
      if req.movieId !in catalog.movies {
        return Err(InvalidMovie);
      }
      var clash := FindClash(showtimes, req.theater, req.startTime, req.endTime, None);
      if clash {
        return Err(Overlap);
      }
      if Blank(req.theater) {
        return Err(BlankTheater);
      }
      var showtime := Stored(nextId, req);
      if NoOverlap(showtimes) {
        SkipOnlyNarrowsClash(showtimes, req.theater, req.startTime, req.endTime, Some(nextId));
        AdmitKeepsNoOverlap(showtimes, showtime);
      }
      showtimes := showtimes[nextId := showtime];
      nextId := nextId + 1;
      r := Ok(showtime);
    }

    /** `getShowtime`: the stored showtime with this id, or NotFound. */
    function GetShowtime(id: ShowtimeId): (r: Response<Showtime>)
      reads this
      requires Valid()
      ensures r.Ok? <==> id in showtimes
      ensures r.Ok? ==> r.value.id == id && r.value == showtimes[id]
      ensures r.Err? ==> r.error == NotFound
    {
      if id in showtimes then Ok(showtimes[id]) else Err(NotFound)
    }

    /** `updateShowtime`: the id must exist; then the overlap scan over the
        target theater, skipping this id; only then the movie check. An
        admitted request replaces all five fields and keeps the id, unless
        the save refuses a blank theater. */
    method UpdateShowtime(catalog: Movies.MovieCatalog, id: ShowtimeId, req: ShowtimeRequest)
      returns (r: Response<Showtime>)
      requires Valid()
      modifies this
      ensures Valid() && nextId == old(nextId)
      ensures id !in old(showtimes) ==> r == Err(NotFound) && showtimes == old(showtimes)
      ensures id in old(showtimes) && Clashes(old(showtimes), req.theater, req.startTime, req.endTime, Some(id)) ==>
        r == Err(Overlap) && showtimes == old(showtimes)
      ensures id in old(showtimes) && !Clashes(old(showtimes), req.theater, req.startTime, req.endTime, Some(id)) ==>
        if req.movieId !in catalog.movies then
          r == Err(InvalidMovie) && showtimes == old(showtimes)
        else if Blank(req.theater) then
          r == Err(BlankTheater) && showtimes == old(showtimes)
        else
          r == Ok(Stored(id, req)) && showtimes == old(showtimes)[id := Stored(id, req)]
      ensures NoOverlap(old(showtimes)) ==> NoOverlap(showtimes)
    {
      if id !in showtimes {
        return Err(NotFound);
      }
      var clash := FindClash(showtimes, req.theater, req.startTime, req.endTime, Some(id));
      if clash {
        return Err(Overlap);
      }
      if req.movieId !in catalog.movies {
        return Err(InvalidMovie);
      }
      if Blank(req.theater) {
        return Err(BlankTheater);
      }
      var showtime := Stored(id, req);
      if NoOverlap(showtimes) {
        AdmitKeepsNoOverlap(showtimes, showtime);
      }
      showtimes := showtimes[id := showtime];
      r := Ok(showtime);
    }

    /** `deleteShowtime`: removes exactly this id, after which a lookup of it
        finds nothing. Bookings of the showtime are left in place. */
    method DeleteShowtime(id: ShowtimeId) returns (r: Response<()>)
      requires Valid()
      modifies this
      ensures Valid() && nextId == old(nextId)
      ensures id !in old(showtimes) ==> r == Err(NotFound) && showtimes == old(showtimes)
      ensures id in old(showtimes) ==> r == Ok(()) && showtimes == old(showtimes) - {id}
      ensures GetShowtime(id) == Err(NotFound)
      ensures NoOverlap(old(showtimes)) ==> NoOverlap(showtimes)
    {
      if id !in showtimes {
        return Err(NotFound);
      }
      if NoOverlap(showtimes) {
        RemoveKeepsNoOverlap(showtimes, id);
      }
      showtimes := showtimes - {id};
      r := Ok(());
    }

    /** `deleteShowtimeByDetails`: first the start time must parse, then the
        title must name a movie, then exactly one showtime of that movie in
        that theater must start at that instant; that one is removed. A
        lookup matching several rows fails as the repository query does. */
    method DeleteShowtimeByDetails(
      catalog: Movies.MovieCatalog, movieTitle: string, theater: string,
      startTime: string, parse: string -> Option<Instant>)
      returns (r: Response<()>)
      requires Valid() && catalog.Valid()
      modifies this
      ensures Valid() && nextId == old(nextId)
      ensures parse(startTime).None? ==> r == Err(InvalidTime) && showtimes == old(showtimes)
      ensures parse(startTime).Some? && !Movies.HasTitle(catalog.movies, movieTitle) ==>
        r == Err(MovieNotFound) && showtimes == old(showtimes)
      ensures forall movieId ::
        parse(startTime).Some? && movieId in catalog.movies && catalog.movies[movieId].title == movieTitle ==>
        var start := parse(startTime).value;
        && (!(exists id :: Matches(old(showtimes), id, movieId, theater, start)) ==>
              r == Err(NotFound) && showtimes == old(showtimes))
        && ((exists a, b :: a != b && Matches(old(showtimes), a, movieId, theater, start)
                                   && Matches(old(showtimes), b, movieId, theater, start)) ==>
              r == Err(NonUniqueResult) && showtimes == old(showtimes))
        && (forall id ::
              Matches(old(showtimes), id, movieId, theater, start)
              && (forall other :: Matches(old(showtimes), other, movieId, theater, start) ==> other == id) ==>
              r == Ok(()) && showtimes == old(showtimes) - {id})
      ensures NoOverlap(old(showtimes)) ==> NoOverlap(showtimes)
    {
      var parsed := parse(startTime);
      if parsed.None? {
        return Err(InvalidTime);
      }
      var start := parsed.value;
      if !Movies.HasTitle(catalog.movies, movieTitle) {
        return Err(MovieNotFound);
      }
      var movieId :| movieId in catalog.movies && catalog.movies[movieId].title == movieTitle;
      if !exists id :: id in showtimes && Matches(showtimes, id, movieId, theater, start) {
        return Err(NotFound);
      }
      if exists a, b :: a in showtimes && b in showtimes && a != b
                        && Matches(showtimes, a, movieId, theater, start)
                        && Matches(showtimes, b, movieId, theater, start) {
        return Err(NonUniqueResult);
      }
      var id :| id in showtimes && Matches(showtimes, id, movieId, theater, start);
      if NoOverlap(showtimes) {
        RemoveKeepsNoOverlap(showtimes, id);
      }
      showtimes := showtimes - {id};
      r := Ok(());
    }
  }
}
