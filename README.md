# Popcorn Palace admission control, modelled in Dafny

Popcorn Palace is a Spring Boot service for a cinema. It keeps a movie catalog, a schedule of showtimes and a ledger of seat bookings. Its controllers check every write request against the current store. Then they either commit the change or answer with a rejection. This project models that check-then-act logic and proves the rules it enforces:

- **No two showtimes of one theater overlap.** Two showtimes overlap when the new one starts before the stored one ends and ends after the stored one starts. Both comparisons are strict, so back-to-back showtimes are allowed.
- **No two bookings of one showtime hold the same seat.**
- **Movie titles are unique.**
- **Each endpoint checks in a fixed order, and every rejection leaves the stores unchanged.**

Files:

- `common.dfy` (module `Common`): identities, instants, the opaque `double` values, the `Error` kinds and the `Response` datatype.
- `movies.dfy` (module `Movies`): the `movies` table as class `MovieCatalog`, with the four endpoints of `MovieController`.
- `showtimes.dfy` (module `Showtimes`): the overlap test, the overlap scan `FindClash`, the invariant `NoOverlap` with its lemmas, and the `showtimes` table as class `ShowtimeRegistry`, with the five endpoints of `ShowtimeController`.
- `bookings.dfy` (module `Bookings`): the seat test, the invariant `SeatsUnique` with its lemmas, and the `bookings` table as class `BookingLedger`, with `bookTicket`.
- `scenarios.dfy` (module `Scenarios`): the application's integration tests, replayed as client methods, plus `BackToBackShowtimes`. That one is not among the tests: it is a boundary scenario for the strict overlap test of `controller/ShowtimeController.java:47-48`. All assertions follow from the operations' contracts alone.

Each table is a class with a `map` or `seq` field. Each endpoint that writes is a method on its table; the two that only read (`getAllMovies`, `getShowtime`) are functions on theirs. A method takes the tables it only reads as parameters: the catalog for the showtime endpoints, and the registry for `bookTicket`. Generated identities come from a counter field. For the IDENTITY columns this is what the database does. For the booking UUID, any value not already in the ledger would do. Every method states the outcome and the new table for each branch. Where an invariant is meant to hold, the method also states that it is preserved.

Modelling decisions that go beyond the controllers' own code:

- **Unique titles.** The controllers never check title uniqueness. The `unique = true` column constraint (`model/Movie.java:31-33`) makes the database refuse a save that would duplicate a title. The model reports that refusal as `DuplicateTitle` and changes nothing, so `TitlesUnique` is part of `MovieCatalog.Valid()`.
- **Lookup that finds several showtimes.** `findByMovieAndTheaterAndStartTime` returns an `Optional`. The repository layer fails when more than one row matches, and the model reports that as `NonUniqueResult`. This cannot happen while every showtime ends after it starts (`AtMostOneMatch`). However, the code never checks that a showtime ends after it starts. `ZeroLengthShowtimeSharesStart` exhibits a zero-length showtime that the overlap test admits at the start of another showtime of the same movie. The lookup then matches both.
- **Blank theater names.** The request type only requires a theater to be present (`dto/ShowtimeRequest.java:15-16`). The not-blank constraint sits on the `showtimes` column (`model/Showtime.java:42-43`) and is enforced when the row is saved. So a blank theater passes the movie check and the overlap scan, and only the save refuses it. `AddShowtime` and `UpdateShowtime` report that as `BlankTheater` with nothing stored, and `TheatersNamed` is part of `ShowtimeRegistry.Valid()`.
- **What the code does not check.** The code has no start-before-end check. Seat numbers and user ids are not validated beyond being present. Deleting a showtime does not delete its bookings.

## Model

| member | source | states |
|---|---|---|
| Movies.AtMostOneTitled | src/main/java/com/att/tdp/popcorn_palace/model/Movie.java:31-33 | with unique titles, a lookup by title selects at most one movie, and the lookup is present exactly when it selects one |
| Movies.ListingMembers | src/main/java/com/att/tdp/popcorn_palace/controller/MovieController.java:36-44 | the catalog listing contains exactly the stored movies |
| Movies.ListingSize | src/test/java/com/att/tdp/popcorn_palace/PopcornPalaceApplicationTests.java:166-177 | the catalog listing has one entry per stored movie, so two added movies list as two |
| Movies.MovieCatalog.AddMovie | src/main/java/com/att/tdp/popcorn_palace/controller/MovieController.java:52-58 | a title already in the catalog is refused with nothing changed; otherwise the request is stored under a fresh id and no other movie changes; titles stay unique |
| Movies.MovieCatalog.GetAllMovies | src/main/java/com/att/tdp/popcorn_palace/controller/MovieController.java:36-44 | returns every stored movie and nothing else, one entry per movie |
| Movies.MovieCatalog.UpdateMovie | src/main/java/com/att/tdp/popcorn_palace/controller/MovieController.java:73-91 | an unknown title gives NotFound with nothing changed; otherwise the found movie keeps its id and takes all five fields of the request, no other movie changes, and a title held by another movie is refused |
| Movies.MovieCatalog.DeleteMovie | src/main/java/com/att/tdp/popcorn_palace/controller/MovieController.java:104-115 | an unknown title gives NotFound with nothing changed; otherwise exactly the movie with that title is removed |
| Showtimes.FindClash | src/main/java/com/att/tdp/popcorn_palace/controller/ShowtimeController.java:45-52 | the scan over the theater's showtimes reports a clash if and only if some showtime of that theater, other than the skipped id, satisfies the strict overlap test |
| Showtimes.OverlapsSymmetric | src/main/java/com/att/tdp/popcorn_palace/controller/ShowtimeController.java:47-48 | the overlap test gives the same answer with the two showtimes swapped |
| Showtimes.TouchingIsNotOverlap | src/main/java/com/att/tdp/popcorn_palace/controller/ShowtimeController.java:47-48 | a request that meets a stored showtime only at an endpoint does not overlap it |
| Showtimes.OtherTheatersNeverClash | src/main/java/com/att/tdp/popcorn_palace/controller/ShowtimeController.java:45-48 | adding or removing a showtime of another theater never changes whether a request clashes |
| Showtimes.SkipOnlyNarrowsClash | src/main/java/com/att/tdp/popcorn_palace/controller/ShowtimeController.java:99-102 | skipping the showtime's own id can only remove clashes, never add one |
| Showtimes.AdmitKeepsNoOverlap | src/main/java/com/att/tdp/popcorn_palace/controller/ShowtimeController.java:98-120 | writing a showtime that the scan, skipping its own id, admitted keeps the table free of same-theater overlaps |
| Showtimes.RemoveKeepsNoOverlap | src/main/java/com/att/tdp/popcorn_palace/controller/ShowtimeController.java:137-141 | removing a showtime keeps the table free of same-theater overlaps |
| Showtimes.AtMostOneMatch | src/main/java/com/att/tdp/popcorn_palace/controller/ShowtimeController.java:180-184 | when no two showtimes overlap and each ends after it starts, at most one showtime has a given movie, theater and start |
| Showtimes.ZeroLengthShowtimeSharesStart | src/main/java/com/att/tdp/popcorn_palace/controller/ShowtimeController.java:44-63 | a zero-length showtime at the start of another one in the same theater passes the overlap scan, and the lookup by movie, theater and start then matches both |
| Showtimes.ShowtimeRegistry.AddShowtime | src/main/java/com/att/tdp/popcorn_palace/controller/ShowtimeController.java:36-66 | an unknown movie id is refused first; then an overlap in the same theater is refused; both leave the table unchanged; then a blank theater is refused by the save; all three leave the table unchanged; otherwise the request is stored under a fresh id and no other showtime changes; the no-overlap invariant and non-blank theaters are preserved |
| Showtimes.ShowtimeRegistry.GetShowtime | src/main/java/com/att/tdp/popcorn_palace/controller/ShowtimeController.java:74-80 | succeeds exactly when the id is stored and returns the showtime with that id; otherwise NotFound |
| Showtimes.ShowtimeRegistry.UpdateShowtime | src/main/java/com/att/tdp/popcorn_palace/controller/ShowtimeController.java:89-126 | an absent id gives NotFound; then an overlap with another showtime of the target theater is refused, before the movie check; then an unknown movie is refused; then a blank theater is refused by the save; all rejections leave the table unchanged; success keeps the id, replaces all five fields, and changes no other showtime; the no-overlap invariant and non-blank theaters are preserved |
| Showtimes.ShowtimeRegistry.DeleteShowtime | src/main/java/com/att/tdp/popcorn_palace/controller/ShowtimeController.java:134-143 | an absent id gives NotFound with nothing changed; otherwise exactly that id is removed and a later lookup of it gives NotFound |
| Showtimes.ShowtimeRegistry.DeleteShowtimeByDetails | src/main/java/com/att/tdp/popcorn_palace/controller/ShowtimeController.java:158-189 | an unparseable start time is refused before any lookup; then an unknown title; then NotFound when no showtime has that movie, theater and exact start; the single matching showtime is removed; several matches are refused; rejections change nothing |
| Bookings.SeatBookedAfterAppend | src/main/java/com/att/tdp/popcorn_palace/repository/BookingRepository.java:9 | after an append, a (showtime, seat) pair is taken exactly when it was taken before or is the new booking's own pair, so seat conflicts are scoped per showtime |
| Bookings.AppendKeepsSeatsUnique | src/main/java/com/att/tdp/popcorn_palace/controller/BookingController.java:53-66 | appending a booking whose seat is free for its showtime keeps seats unique per showtime |
| Bookings.BookingLedger.BookTicket | src/main/java/com/att/tdp/popcorn_palace/controller/BookingController.java:41-70 | an unknown showtime id is refused first, then a seat already booked for that showtime; both leave the ledger unchanged; otherwise exactly one booking with the request's showtime, seat and user is appended under an id no booking carries; seat uniqueness is preserved |

## Left out

- HTTP routing, status codes, response text and JSON serialisation. Each outcome is an `Error` constructor or `Ok`.
- The console logging of the controllers, and the logging loop of `getAllMovies`.
- The greeting endpoint `getGreet`.
- The request checks of `@Valid` (`@NotNull` on every request field, and all the constraints of `Movie`, whose entity is itself the request body). Spring rejects such requests before a controller method runs, so the model takes every request as it arrives. The one entity constraint checked later, at save, is the not-blank theater, which is modelled (see above).
- `LocalDateTime.parse` is a library call. It is a parameter `parse: string -> Option<Instant>` of `DeleteShowtimeByDetails`. Instants are integers, because the code only compares them.
- Prices and ratings are Java `double`s that are only copied. They are kept as raw 64-bit patterns.
- Foreign keys. The schema's foreign keys would make the database refuse to delete a movie that still has showtimes, or a showtime that still has bookings. The model removes the row and leaves the rows that refer to it in place.
- Generated identities are counters. A 64-bit overflow of the `Long` ids is not modelled. A random UUID is stood for by a value that no stored booking carries.
- Movies.MovieCatalog.GetAllMovies: returns a set, not a list, because the repository gives no order.
- `addMovie` with an `id` in the request body: the request type has no id, so the model does not cover how the repository treats a client-supplied id.
- Concurrency. Each endpoint is one atomic step, so races between the check and the save are not modelled.
- The derived queries `findByTheater` and `findByMovieAndTheaterAndStartTime` (`repository/ShowtimeRepository.java:12-13`) and `existsByShowtimeAndSeatNumber` (`repository/BookingRepository.java:9`) are modelled as filters over the stored rows: `Showtimes.ByTheater`, `Showtimes.Matches` and `Bookings.SeatBooked`.
- `repository/MovieRepository.java` is not part of this model. Its `findById`, `findByTitle`, `findAll`, `save` and `delete` are taken as the plain map operations their names describe.
