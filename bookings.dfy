/** The booking ledger (`BookingController` over the `bookings` table): a
    booking is admitted only for an existing showtime and a seat that no
    booking of that showtime holds yet. Bookings are only ever appended. */
module Bookings {
  import opened Common
  import Showtimes

  /** The request body of `bookTicket`. */
  datatype BookingRequest = BookingRequest(showtimeId: ShowtimeId, seatNumber: int, userId: string)

  /** A row of the `bookings` table; `showtimeId` is the `showtime_id` join column. */
  datatype Booking = Booking(bookingId: BookingId, showtimeId: ShowtimeId, seatNumber: int, userId: string)

  /** `existsByShowtimeAndSeatNumber`: some booking of this showtime holds this seat. */
  predicate SeatBooked(bookings: seq<Booking>, showtimeId: ShowtimeId, seatNumber: int) {
    exists i :: 0 <= i < |bookings| && bookings[i].showtimeId == showtimeId && bookings[i].seatNumber == seatNumber
  }

  /** The ledger's invariant: no two bookings of one showtime share a seat. */
  predicate SeatsUnique(bookings: seq<Booking>) {
    forall i, j ::
      0 <= i < j < |bookings| && bookings[i].showtimeId == bookings[j].showtimeId
      ==> bookings[i].seatNumber != bookings[j].seatNumber
  }

  /** No booking in the ledger carries this id. */
  predicate FreshBookingId(bookings: seq<Booking>, id: BookingId) {
    forall i :: 0 <= i < |bookings| ==> bookings[i].bookingId != id
  }

  /** Appending a booking makes exactly its own (showtime, seat) pair taken
      in addition to those taken before: the same seat of another showtime,
      or another seat of the same showtime, stays free. */
  lemma SeatBookedAfterAppend(bookings: seq<Booking>, b: Booking, showtimeId: ShowtimeId, seatNumber: int)
    ensures SeatBooked(bookings + [b], showtimeId, seatNumber)
        <==> SeatBooked(bookings, showtimeId, seatNumber) || (b.showtimeId == showtimeId && b.seatNumber == seatNumber)
  {
    var after := bookings + [b];
    if SeatBooked(after, showtimeId, seatNumber) {
      var i :| 0 <= i < |after| && after[i].showtimeId == showtimeId && after[i].seatNumber == seatNumber;
      if i < |bookings| {
        assert bookings[i] == after[i];
      }
    }
    if SeatBooked(bookings, showtimeId, seatNumber) {
      var i :| 0 <= i < |bookings| && bookings[i].showtimeId == showtimeId && bookings[i].seatNumber == seatNumber;
      assert after[i] == bookings[i];
    }
    if b.showtimeId == showtimeId && b.seatNumber == seatNumber {
      assert after[|bookings|] == b;
    }
  }

  /** Appending a booking whose seat is free for its showtime keeps the invariant. */
  lemma AppendKeepsSeatsUnique(bookings: seq<Booking>, b: Booking)
    requires SeatsUnique(bookings)
    requires !SeatBooked(bookings, b.showtimeId, b.seatNumber)
    ensures SeatsUnique(bookings + [b])
  {
    var after := bookings + [b];
    forall i, j | 0 <= i < j < |after| && after[i].showtimeId == after[j].showtimeId
      ensures after[i].seatNumber != after[j].seatNumber
    {
      if j == |bookings| {
        assert after[i] == bookings[i];
      } else {
        assert after[i] == bookings[i] && after[j] == bookings[j];
      }
    }
  }

  /** The `bookings` table. */
  class BookingLedger {
    var bookings: seq<Booking>
    /** A booking id no stored booking carries (stands for the generated UUID). */
    var nextId: BookingId

    ghost predicate Valid()
      reads this
    {
      forall i :: 0 <= i < |bookings| ==> bookings[i].bookingId < nextId
    }

    constructor ()
      ensures Valid() && bookings == []
    {
      bookings := [];
      nextId := 0;
    }

    /** `bookTicket`: the showtime must exist, then the seat must be free for
        that showtime; an admitted request is appended under a fresh id. */
    method BookTicket(registry: Showtimes.ShowtimeRegistry, req: BookingRequest) returns (r: Response<Booking>)
      requires Valid()
      modifies this
      ensures Valid()
      ensures req.showtimeId !in registry.showtimes ==> r == Err(InvalidShowtime) && bookings == old(bookings)
      ensures req.showtimeId in registry.showtimes && SeatBooked(old(bookings), req.showtimeId, req.seatNumber) ==>
        r == Err(SeatTaken) && bookings == old(bookings)
      ensures req.showtimeId in registry.showtimes && !SeatBooked(old(bookings), req.showtimeId, req.seatNumber) ==>
        && r.Ok? && FreshBookingId(old(bookings), r.value.bookingId)
        && r.value == Booking(r.value.bookingId, req.showtimeId, req.seatNumber, req.userId)
        && bookings == old(bookings) + [r.value]
      ensures SeatsUnique(old(bookings)) ==> SeatsUnique(bookings)
    {
      if req.showtimeId !in registry.showtimes {
        return Err(InvalidShowtime);
      }
      if SeatBooked(bookings, req.showtimeId, req.seatNumber) {
        return Err(SeatTaken);
      }
      var booking := Booking(nextId, req.showtimeId, req.seatNumber, req.userId);
      if SeatsUnique(bookings) {
        AppendKeepsSeatsUnique(bookings, booking);
      }
      bookings := bookings + [booking];
      nextId := nextId + 1;
      r := Ok(booking);
    }
  }
}
