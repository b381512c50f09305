/** The integration tests of the application replayed against the model,
    plus one boundary scenario of the overlap test (`BackToBackShowtimes`):
    each method drives fresh stores through the controllers' operations and
    asserts the expected outcomes, using only the operations' contracts. `start` stands for the test's "now plus one day"; instants are
    minutes. */
module Scenarios {
  import opened Common
  import Movies
  import Showtimes
  import Bookings

  const Inception := Movies.MovieRequest("Inception", "Sci-Fi", 148, Float64(0), 2010)
  const Matrix := Movies.MovieRequest("Matrix", "Sci-Fi", 136, Float64(1), 1999)

  /** The theater names the tests use are not blank, so the save accepts them. */
  lemma TheatersNotBlank()
    ensures !Showtimes.Blank("Theater 1") && !Showtimes.Blank("Theater 2")
  {
    assert "Theater 1"[0] > ' ' && "Theater 2"[0] > ' ';
  }

  /** Adding two movies and listing the catalog shows both, and only them. */
  method AddMultipleMoviesAndList() {
    var catalog := new Movies.MovieCatalog();
    var first := catalog.AddMovie(Inception);
    assert !Movies.HasTitle(catalog.movies, "Matrix");
    var second := catalog.AddMovie(Matrix);
    var all := catalog.GetAllMovies();
    assert |all| == 2;
    assert first.value in all && second.value in all;
  }

  /** Updating or deleting a title the catalog does not hold is NotFound. */
  method UpdateOrDeleteUnknownMovie() {
    var catalog := new Movies.MovieCatalog();
    var updated := catalog.UpdateMovie("NonExistent", Movies.MovieRequest("NonExistent Updated", "Drama", 120, Float64(2), 2005));
    assert updated == Err(NotFound);
    var deleted := catalog.DeleteMovie("UnknownMovie");
    assert deleted == Err(NotFound);
  }

  /** Add, get, update to another theater, delete, and get again. */
  method ShowtimeLifecycle(start: Instant, price: Float64, newPrice: Float64) {
    var catalog := new Movies.MovieCatalog();
    var movie := catalog.AddMovie(Inception);
    var registry := new Showtimes.ShowtimeRegistry();
    TheatersNotBlank();
    var added := registry.AddShowtime(catalog, Showtimes.ShowtimeRequest(movie.value.id, price, "Theater 1", start, start + 120));
    var id := added.value.id;
    assert registry.GetShowtime(id).value.theater == "Theater 1";
    var newStart := start + 1440;
    assert !Showtimes.Blocks(registry.showtimes, id, "Theater 2", newStart, newStart + 120, Some(id));
    var updated := registry.UpdateShowtime(catalog, id, Showtimes.ShowtimeRequest(movie.value.id, newPrice, "Theater 2", newStart, newStart + 120));
    assert updated.Ok? && updated.value.theater == "Theater 2" && updated.value.price == newPrice;
    var deleted := registry.DeleteShowtime(id);
    assert deleted == Ok(());
    assert registry.GetShowtime(id) == Err(NotFound);
  }

  /** A second showtime overlapping the first in the same theater is refused. */
  method OverlappingShowtime(start: Instant, price: Float64) {
    var catalog := new Movies.MovieCatalog();
    var movie := catalog.AddMovie(Inception);
    var registry := new Showtimes.ShowtimeRegistry();
    TheatersNotBlank();
    var first := registry.AddShowtime(catalog, Showtimes.ShowtimeRequest(movie.value.id, price, "Theater 1", start, start + 120));
    assert Showtimes.Blocks(registry.showtimes, first.value.id, "Theater 1", start + 30, start + 180, None);
    var second := registry.AddShowtime(catalog, Showtimes.ShowtimeRequest(movie.value.id, price, "Theater 1", start + 30, start + 180));
    assert second == Err(Overlap);
  }

  /** Not one of the integration tests: a boundary case of the strict overlap
      test, where a showtime starting exactly when another ends in the same
      theater is accepted. */
  method BackToBackShowtimes(start: Instant, price: Float64) {
    var catalog := new Movies.MovieCatalog();
    var movie := catalog.AddMovie(Inception);
    var registry := new Showtimes.ShowtimeRegistry();
    TheatersNotBlank();
    var first := registry.AddShowtime(catalog, Showtimes.ShowtimeRequest(movie.value.id, price, "Theater 1", start, start + 120));
    assert forall id :: id in registry.showtimes ==> !Showtimes.Blocks(registry.showtimes, id, "Theater 1", start + 120, start + 180, None);
    var second := registry.AddShowtime(catalog, Showtimes.ShowtimeRequest(movie.value.id, price, "Theater 1", start + 120, start + 180));
    assert second.Ok?;
  }

  /** Delete by details: a malformed start time, then an unknown title, then a
      match that is removed. `stamp` is the start time's text. */
  method DeleteShowtimeByDetailsEdgeCases(start: Instant, price: Float64, stamp: string) {
    var parse := (text: string) => if text == stamp then Some(start) else None;
    var catalog := new Movies.MovieCatalog();
    var movie := catalog.AddMovie(Inception);
    var registry := new Showtimes.ShowtimeRegistry();
    TheatersNotBlank();
    var added := registry.AddShowtime(catalog, Showtimes.ShowtimeRequest(movie.value.id, price, "Theater 1", start, start + 120));
    var malformed := registry.DeleteShowtimeByDetails(catalog, "Inception", "Theater 1", stamp + "!", parse);
    assert malformed == Err(InvalidTime);
    var unknown := registry.DeleteShowtimeByDetails(catalog, "NonExistent", "Theater 1", stamp, parse);
    assert !Movies.HasTitle(catalog.movies, "NonExistent");
    assert unknown == Err(MovieNotFound);
    var id := added.value.id;
    assert catalog.movies[movie.value.id].title == "Inception";
    assert Showtimes.Matches(registry.showtimes, id, movie.value.id, "Theater 1", start);
    assert forall other :: Showtimes.Matches(registry.showtimes, other, movie.value.id, "Theater 1", start) ==> other == id;
    var deleted := registry.DeleteShowtimeByDetails(catalog, "Inception", "Theater 1", stamp, parse);
    assert deleted == Ok(());
    assert registry.showtimes == map[];
  }

  /** Seat 10 books once, is refused the second time, and seat 11 still books. */
  method BookSeatsOfOneShowtime(start: Instant, price: Float64) {
    var catalog := new Movies.MovieCatalog();
    var movie := catalog.AddMovie(Inception);
    var registry := new Showtimes.ShowtimeRegistry();
    TheatersNotBlank();
    var added := registry.AddShowtime(catalog, Showtimes.ShowtimeRequest(movie.value.id, price, "Theater 1", start, start + 120));
    var id := added.value.id;
    var ledger := new Bookings.BookingLedger();
    var first := ledger.BookTicket(registry, Bookings.BookingRequest(id, 10, "user-123"));
    assert first.Ok? && ledger.bookings[0] == first.value;
    var again := ledger.BookTicket(registry, Bookings.BookingRequest(id, 10, "user-123"));
    assert again == Err(SeatTaken);
    assert ledger.bookings == [] + [first.value];
    assert !Bookings.SeatBooked([], id, 11);
    Bookings.SeatBookedAfterAppend([], first.value, id, 11);
    var other := ledger.BookTicket(registry, Bookings.BookingRequest(id, 11, "user-456"));
    assert other.Ok?;
  }

  /** A booking for a showtime id that does not exist is refused. */
  method BookUnknownShowtime() {
    var registry := new Showtimes.ShowtimeRegistry();
    var ledger := new Bookings.BookingLedger();
    var booking := ledger.BookTicket(registry, Bookings.BookingRequest(9999, 10, "user-123"));
    assert booking == Err(InvalidShowtime);
  }
}
