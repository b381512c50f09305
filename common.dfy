/** Shared vocabulary of the three controllers: identifiers, instants, the
    opaque floating-point values they only copy, and the outcome of a request. */
module Common {

  /** Database identities (the `Long` ids of movies and showtimes, the booking UUID). */
  type MovieId = int
  type ShowtimeId = int
  type BookingId = int

  /** A `LocalDateTime`. The controllers only compare instants with
      `isBefore`/`isAfter`/`equals`, so an integer timeline suffices. */
  type Instant = int

  /** A Java `double` (ticket price, movie rating): stored and copied, never
      computed with, so it is kept as its raw bit pattern. */
  datatype Float64 = Float64(bits: bv64)

  datatype Option<T> = None | Some(value: T)

  /** Every rejection a controller can report. Each one leaves the stores unchanged. */
  datatype Error =
    | InvalidMovie       // "Invalid movieId"
    | Overlap            // "Showtime overlaps with an existing showtime in the same theater."
    | NotFound           // 404 Not Found
    | InvalidTime        // "Invalid startTime format. ..."
    | MovieNotFound      // "Movie not found for given title"
    | InvalidShowtime    // "Invalid showtimeId: Showtime does not exist."
    | SeatTaken          // "Seat already booked for this showtime. ..."
    | DuplicateTitle     // the unique constraint on the movie title refuses the save
    | NonUniqueResult    // a single-result repository query matched several rows
    | BlankTheater       // the theater column's not-blank constraint refuses the save

  /** The body of a controller's response: the saved entity, or the rejection. */
  datatype Response<T> = Ok(value: T) | Err(error: Error)

  /** A set with no element is the empty set; callers use it to pick an
      element of a set of identities known to be non-empty. */
  lemma EmptyIfNoElement(s: set<int>)
    ensures (forall x :: x !in s) ==> s == {}
  {
    if forall x :: x !in s {
      assert s == {};
    }
  }
}
