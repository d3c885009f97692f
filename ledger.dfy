/**
 * The state of `CinemaBookingSystem` as a value, and the effect of each of
 * its engine operations on that value.
 *
 * The registry keeps three fixed arrays (`movies[50]`, `screenings[100]`,
 * `bookings[200]`), each with a count of live entries. Entries at and beyond
 * a count are dead but keep whatever was last copied into them. A
 * `Screening::movie` pointer is the movie slot it points at, and a
 * `Booking::screening` pointer the screening slot; both are read through the
 * arrays as they are at the time of the read, so a pointer whose slot was
 * shifted sees the entry that moved into it.
 *
 * Every operation is a function from the old state to the new state and the
 * exception thrown, if any; the class in module CinemaSystem is proved to
 * implement exactly these functions, and the lemmas below prove what the
 * functions guarantee.
 */
module Ledger {
  import opened SeatMap

  const MaxMovies: nat := 50
  const MaxScreenings: nat := 100
  const MaxBookings: nat := 200

  /** A `RegularUser*`: stored in a booking and never dereferenced by the engine. */
  type UserRef = nat

  datatype Option<T> = None | Some(value: T)

  /** The `InputException`s the engine throws; `Message` gives each one's text. */
  datatype Error =
    | MovieLimitReached
    | MovieNotFound
    | ScreeningLimitReached
    | MovieNotFoundForScreening
    | ScreeningNotFound
    | BookingLimitReached
    | SeatsUnavailable
    | ModifiedSeatsUnavailable

  function Message(e: Error): string {
    match e
    case MovieLimitReached => "Movie limit reached."
    case MovieNotFound => "Movie not found."
    case ScreeningLimitReached => "Screening limit reached."
    case MovieNotFoundForScreening => "Movie not found for screening."
    case ScreeningNotFound => "Screening not found."
    case BookingLimitReached => "Booking limit reached."
    case SeatsUnavailable => "Some seats are already booked or invalid."
    case ModifiedSeatsUnavailable => "Failed to book requested seats for modified booking."
  }

  /** A movie; `cost` is the per-seat price, stored but never computed with here. */
  datatype Movie = Movie(id: int, name: string, genre: string, duration: int, cost: real)

  /** The default-constructed movie that fills unused slots. */
  const NoMovie := Movie(0, "", "", 0, 0.0)

  /** A screening slot; `movie` is the movie slot its `Movie*` points at
      (slot 0 stands for the null pointer of a never-used slot). */
  datatype ScreeningRec = ScreeningRec(id: int, movie: nat, datetime: string, hall: string, seats: seq<bool>)

  /** A booking; `screening` is the screening slot its `Screening*` points at,
      and `seats` is `seatNumbers[0..seatCount]`. */
  datatype Booking = Booking(id: int, user: UserRef, screening: nat, seats: seq<int>)

  /** The default-constructed booking that fills unused slots. */
  const NoBooking := Booking(0, 0, 0, [])

  datatype State = State(
    movies: seq<Movie>, movieCount: nat,
    screenings: seq<ScreeningRec>, screeningCount: nat,
    bookings: seq<Booking>, bookingCount: nat)

  /** The shape every reachable state has: arrays of the fixed sizes, counts
      within them, 30-seat maps, and pointers into the arrays. */
  predicate WellFormed(st: State) {
    && |st.movies| == MaxMovies && st.movieCount <= MaxMovies
    && |st.screenings| == MaxScreenings && st.screeningCount <= MaxScreenings
    && |st.bookings| == MaxBookings && st.bookingCount <= MaxBookings
    && (forall k :: 0 <= k < MaxScreenings ==>
          |st.screenings[k].seats| == MaxSeats && st.screenings[k].movie < MaxMovies)
    && (forall k :: 0 <= k < MaxBookings ==>
          st.bookings[k].screening < MaxScreenings && |st.bookings[k].seats| <= MaxSeats)
  }

  /** The state `CinemaBookingSystem()` starts in. */
  function Initial(): (st: State)
    ensures WellFormed(st) && st.movieCount == 0 && st.screeningCount == 0 && st.bookingCount == 0
  {
    State(seq(MaxMovies, _ => NoMovie), 0,
          seq(MaxScreenings, _ => ScreeningRec(0, 0, "", "", AllSeatsFree())), 0,
          seq(MaxBookings, _ => NoBooking), 0)
  }

  function LiveMovies(st: State): seq<Movie>
    requires WellFormed(st)
  {
    st.movies[..st.movieCount]
  }

  function LiveScreenings(st: State): seq<ScreeningRec>
    requires WellFormed(st)
  {
    st.screenings[..st.screeningCount]
  }

  function LiveBookings(st: State): seq<Booking>
    requires WellFormed(st)
  {
    st.bookings[..st.bookingCount]
  }

  function MovieIds(st: State): seq<int>
    requires WellFormed(st)
  {
    seq(st.movieCount, k requires 0 <= k < st.movieCount => st.movies[k].id)
  }

  function ScreeningIds(st: State): seq<int>
    requires WellFormed(st)
  {
    seq(st.screeningCount, k requires 0 <= k < st.screeningCount => st.screenings[k].id)
  }

  function BookingIds(st: State): seq<int>
    requires WellFormed(st)
  {
    seq(st.bookingCount, k requires 0 <= k < st.bookingCount => st.bookings[k].id)
  }

  /** The id seen through a `Screening*` to each screening slot, dead slots included. */
  function SlotIds(st: State): seq<int>
    requires WellFormed(st)
  {
    seq(MaxScreenings, k requires 0 <= k < MaxScreenings => st.screenings[k].id)
  }

  /** The id seen through `getScreening()->getMovie()->getId()` for a booking
      pointing at each screening slot. */
  function SlotMovieIds(st: State): seq<int>
    requires WellFormed(st)
  {
    seq(MaxScreenings, k requires 0 <= k < MaxScreenings => st.movies[st.screenings[k].movie].id)
  }

  /** The linear `find*ById` scans: the first index holding `id`. */
  function FirstIndexOf(ids: seq<int>, id: int): (r: Option<nat>)
    ensures r.Some? ==> r.value < |ids| && ids[r.value] == id
    ensures r.Some? ==> forall j :: 0 <= j < r.value ==> ids[j] != id
    ensures r.None? ==> forall j :: 0 <= j < |ids| ==> ids[j] != id
    decreases |ids|
  {
    if |ids| == 0 then None
    else if ids[0] == id then Some(0)
    else match FirstIndexOf(ids[1..], id)
      case None => None
      case Some(k) => Some(k + 1)
  }

  /** The order-preserving compaction `for (i = idx; i < count - 1; i++) a[i] = a[i + 1];`. */
  function ShiftLeft<T>(s: seq<T>, idx: nat, count: nat): (r: seq<T>)
    requires idx < count <= |s|
    ensures |r| == |s|
    ensures forall k :: 0 <= k < |s| ==> r[k] == if idx <= k < count - 1 then s[k + 1] else s[k]
    ensures r[..count - 1] == s[..idx] + s[idx + 1..count]
  {
    s[..idx] + s[idx + 1..count] + s[count - 1..]
  }

  /** Two states with the same movies and the same screening slots apart from
      seat maps, and the same movie and screening counts. */
  predicate SameCatalog(a: State, b: State) {
    && a.movies == b.movies && a.movieCount == b.movieCount
    && a.screeningCount == b.screeningCount && |a.screenings| == |b.screenings|
    && forall k :: 0 <= k < |a.screenings| ==>
         && a.screenings[k].id == b.screenings[k].id && a.screenings[k].movie == b.screenings[k].movie
         && a.screenings[k].datetime == b.screenings[k].datetime && a.screenings[k].hall == b.screenings[k].hall
  }

  /** `st` with the seat map of screening slot `slot` replaced. */
  function WithSeats(st: State, slot: nat, seats: seq<bool>): (r: State)
    requires slot < |st.screenings|
    ensures WellFormed(st) && |seats| == MaxSeats ==> WellFormed(r) && SameCatalog(st, r)
  {
    st.(screenings := st.screenings[slot := st.screenings[slot].(seats := seats)])
  }

  // ---------------------------------------------------------------- movies

  /** `addMovie`. */
  function AddMovie(st: State, name: string, genre: string, duration: int, cost: real): (r: (State, Option<Error>))
    requires WellFormed(st)
    ensures WellFormed(r.0)
  {
    if st.movieCount >= MaxMovies then (st, Some(MovieLimitReached))
    else
      var m := Movie(st.movieCount + 1, name, genre, duration, cost);
      (st.(movies := st.movies[st.movieCount := m], movieCount := st.movieCount + 1), None)
  }

  /** `editMovie`: the first live movie with the id gets the new fields and keeps its id. */
  function EditMovie(st: State, id: int, name: string, genre: string, duration: int, cost: real): (r: (State, Option<Error>))
    requires WellFormed(st)
    ensures WellFormed(r.0)
  {
    match FirstIndexOf(MovieIds(st), id)
    case None => (st, Some(MovieNotFound))
    case Some(k) =>
      (st.(movies := st.movies[k := st.movies[k].(name := name, genre := genre, duration := duration, cost := cost)]), None)
  }

  /** The screening loop of `deleteMovie`: `for (i = 0; i < screeningCount;)`
      deletes, by id, each screening whose movie pointer reads `id`, and
      advances `i` only past the screenings it keeps. */
  function PurgeScreenings(st: State, id: int, i: nat): (r: State)
    requires WellFormed(st) && i <= st.screeningCount
    ensures WellFormed(r) && r.movies == st.movies && r.movieCount == st.movieCount
    ensures r.screeningCount <= st.screeningCount
    decreases st.screeningCount - i
  {
    if i == st.screeningCount then st
    else if st.movies[st.screenings[i].movie].id == id then
      assert ScreeningIds(st)[i] == st.screenings[i].id;
      PurgeScreenings(DeleteScreening(st, st.screenings[i].id).0, id, i)
    else PurgeScreenings(st, id, i + 1)
  }

  /** `deleteMovie` of the later variant: the cascade runs first, then the
      movie is removed by the left shift. */
  function DeleteMovie(st: State, id: int): (r: (State, Option<Error>))
    requires WellFormed(st)
    ensures WellFormed(r.0)
    ensures r.1.None? <==> exists k :: 0 <= k < st.movieCount && st.movies[k].id == id
    ensures r.1.Some? ==> r == (st, Some(MovieNotFound))
    ensures r.1.None? ==> r.0.movieCount == st.movieCount - 1
  {
    assert forall k :: 0 <= k < st.movieCount ==> MovieIds(st)[k] == st.movies[k].id;
    match FirstIndexOf(MovieIds(st), id)
    case None => (st, Some(MovieNotFound))
    case Some(idx) =>
      assert MovieIds(st)[idx] == st.movies[idx].id;
      (RemoveMovieAt(st, id, idx), None)
  }

  /** The part of `deleteMovie` (later variant) after the lookup found live
      slot `idx`: the screening loop, then the left shift of the movie array. */
  function RemoveMovieAt(st: State, id: int, idx: nat): (r: State)
    requires WellFormed(st) && idx < st.movieCount
    ensures WellFormed(r) && r.movieCount == st.movieCount - 1
  {
    DropMovie(PurgeScreenings(st, id, 0), idx)
  }

  /** The left shift of the movie array over live slot `idx`. */
  function DropMovie(st: State, idx: nat): (r: State)
    requires WellFormed(st) && idx < st.movieCount
    ensures WellFormed(r) && r.movieCount == st.movieCount - 1
    ensures r.screenings == st.screenings && r.bookings == st.bookings
  {
    st.(movies := ShiftLeft(st.movies, idx, st.movieCount), movieCount := st.movieCount - 1)
  }

  /** `deleteMovie` of the earlier variant: the movie is removed by the left
      shift first, and the cascade then reads movie ids through the shifted array. */
  function DeleteMovieCompactFirst(st: State, id: int): (r: (State, Option<Error>))
    requires WellFormed(st)
    ensures WellFormed(r.0)
    ensures r.1.None? <==> exists k :: 0 <= k < st.movieCount && st.movies[k].id == id
    ensures r.1.Some? ==> r == (st, Some(MovieNotFound))
    ensures r.1.None? ==> r.0.movieCount == st.movieCount - 1
  {
    assert forall k :: 0 <= k < st.movieCount ==> MovieIds(st)[k] == st.movies[k].id;
    match FirstIndexOf(MovieIds(st), id)
    case None => (st, Some(MovieNotFound))
    case Some(idx) =>
      assert MovieIds(st)[idx] == st.movies[idx].id;
      (PurgeScreenings(DropMovie(st, idx), id, 0), None)
  }

  // ------------------------------------------------------------ screenings

  /** `addScreening`: the limit is checked first, then the movie id. */
  function AddScreening(st: State, movieId: int, datetime: string, hall: string): (r: (State, Option<Error>))
    requires WellFormed(st)
    ensures WellFormed(r.0)
  {
    if st.screeningCount >= MaxScreenings then (st, Some(ScreeningLimitReached))
    else match FirstIndexOf(MovieIds(st), movieId)
      case None => (st, Some(MovieNotFoundForScreening))
      case Some(m) =>
        var s := ScreeningRec(st.screeningCount + 1, m, datetime, hall, AllSeatsFree());
        (st.(screenings := st.screenings[st.screeningCount := s], screeningCount := st.screeningCount + 1), None)
  }

  /** `editScreening`: `*s = Screening(id, m, datetime, hall)` rebuilds the slot
      with the same id, the new movie and an all-free seat map. */
  function EditScreening(st: State, id: int, movieId: int, datetime: string, hall: string): (r: (State, Option<Error>))
    requires WellFormed(st)
    ensures WellFormed(r.0)
  {
    match FirstIndexOf(ScreeningIds(st), id)
    case None => (st, Some(ScreeningNotFound))
    case Some(s) =>
      match FirstIndexOf(MovieIds(st), movieId)
      case None => (st, Some(MovieNotFoundForScreening))
      case Some(m) =>
        (st.(screenings := st.screenings[s := ScreeningRec(id, m, datetime, hall, AllSeatsFree())]), None)
  }

  /** The booking loop of `deleteScreening`: `for (i = 0; i < bookingCount;)`
      cancels each booking whose screening pointer reads `id` and advances `i`
      only past the bookings it keeps. */
  function PurgeBookings(st: State, id: int, i: nat): (r: State)
    requires WellFormed(st) && i <= st.bookingCount
    ensures WellFormed(r) && SameCatalog(st, r) && r.bookingCount <= st.bookingCount
    ensures forall k :: 0 <= k < MaxScreenings && st.screenings[k].id != id ==> r.screenings[k] == st.screenings[k]
    decreases st.bookingCount - i
  {
    if i == st.bookingCount then st
    else if st.screenings[st.bookings[i].screening].id == id then PurgeBookings(CancelBookingAt(st, i), id, i)
    else PurgeBookings(st, id, i + 1)
  }

  /** `deleteScreening`: find the first live slot with the id, cancel the
      bookings, then remove the slot by the left shift. */
  function DeleteScreening(st: State, id: int): (r: (State, Option<Error>))
    requires WellFormed(st)
    ensures WellFormed(r.0)
    ensures r.1.None? <==> exists k :: 0 <= k < st.screeningCount && st.screenings[k].id == id
    ensures r.1.Some? ==> r == (st, Some(ScreeningNotFound))
    ensures r.1.None? ==> r.0.screeningCount == st.screeningCount - 1
    ensures r.0.movies == st.movies && r.0.movieCount == st.movieCount
  {
    assert forall k :: 0 <= k < st.screeningCount ==> ScreeningIds(st)[k] == st.screenings[k].id;
    match FirstIndexOf(ScreeningIds(st), id)
    case None => (st, Some(ScreeningNotFound))
    case Some(idx) =>
      assert ScreeningIds(st)[idx] == st.screenings[idx].id;
      (RemoveScreeningAt(st, id, idx), None)
  }

  /** The part of `deleteScreening` after the lookup found live slot `idx`:
      the booking loop, then the left shift of the screening array. */
  function RemoveScreeningAt(st: State, id: int, idx: nat): (r: State)
    requires WellFormed(st) && idx < st.screeningCount
    ensures WellFormed(r) && r.movies == st.movies && r.movieCount == st.movieCount
    ensures r.screeningCount == st.screeningCount - 1
  {
    var p := PurgeBookings(st, id, 0);
    p.(screenings := ShiftLeft(p.screenings, idx, p.screeningCount), screeningCount := p.screeningCount - 1)
  }

  // -------------------------------------------------------------- bookings

  /** `addBooking`: the limit is checked first, then `bookSeats` on the screening. */
  function AddBooking(st: State, user: UserRef, slot: nat, seats: seq<int>): (r: (State, Option<Error>))
    requires WellFormed(st) && slot < MaxScreenings && |seats| <= MaxSeats
    ensures WellFormed(r.0)
  {
    if st.bookingCount >= MaxBookings then (st, Some(BookingLimitReached))
    else if !AllFree(st.screenings[slot].seats, seats) then (st, Some(SeatsUnavailable))
    else
      var b := Booking(st.bookingCount + 1, user, slot, seats);
      var claimed := WithSeats(st, slot, Claimed(st.screenings[slot].seats, seats));
      (claimed.(bookings := st.bookings[st.bookingCount := b], bookingCount := st.bookingCount + 1), None)
  }

  /** `cancelBookingByIndex`: release the booking's seats on the screening it
      points at, then remove it by the left shift. */
  function CancelBookingAt(st: State, i: nat): (r: State)
    requires WellFormed(st) && i < st.bookingCount
    ensures WellFormed(r) && SameCatalog(st, r) && r.bookingCount == st.bookingCount - 1
  {
    var b := st.bookings[i];
    DropBooking(WithSeats(st, b.screening, Released(st.screenings[b.screening].seats, b.seats)), i)
  }

  /** The left shift of the booking array over live slot `i`. */
  function DropBooking(st: State, i: nat): (r: State)
    requires WellFormed(st) && i < st.bookingCount
    ensures WellFormed(r) && SameCatalog(st, r) && r.screenings == st.screenings
    ensures r.bookingCount == st.bookingCount - 1
  {
    st.(bookings := ShiftLeft(st.bookings, i, st.bookingCount), bookingCount := st.bookingCount - 1)
  }

  /** `findBookingIndexById`: the first live booking slot with the id, or -1. */
  function FindBookingIndex(st: State, id: int): (r: int)
    requires WellFormed(st)
    ensures -1 <= r < st.bookingCount
    ensures r == -1 <==> forall k :: 0 <= k < st.bookingCount ==> st.bookings[k].id != id
    ensures r >= 0 ==> st.bookings[r].id == id && forall k :: 0 <= k < r ==> st.bookings[k].id != id
  {
    assert forall k :: 0 <= k < st.bookingCount ==> BookingIds(st)[k] == st.bookings[k].id;
    match FirstIndexOf(BookingIds(st), id)
    case None => -1
    case Some(k) => k
  }

  /** `Booking::changeBooking` applied to booking slot `b`: claim the new seats
      on the new screening; only if that succeeds, release the old seats on
      the old screening and install the new screening and seat list. */
  function ChangeBooking(st: State, b: nat, newSlot: nat, newSeats: seq<int>): (r: (State, Option<Error>))
    requires WellFormed(st) && b < MaxBookings && newSlot < MaxScreenings && |newSeats| <= MaxSeats
    ensures WellFormed(r.0)
  {
    if !AllFree(st.screenings[newSlot].seats, newSeats) then (st, Some(ModifiedSeatsUnavailable))
    else
      var claimed := WithSeats(st, newSlot, Claimed(st.screenings[newSlot].seats, newSeats));
      var bk := st.bookings[b];
      var released := WithSeats(claimed, bk.screening, Released(claimed.screenings[bk.screening].seats, bk.seats));
      (Rebook(released, b, newSlot, newSeats), None)
  }

  /** Booking slot `b` pointed at screening slot `slot` with seat list `seats`. */
  function Rebook(st: State, b: nat, slot: nat, seats: seq<int>): (r: State)
    requires WellFormed(st) && b < MaxBookings && slot < MaxScreenings && |seats| <= MaxSeats
    ensures WellFormed(r) && SameCatalog(st, r) && r.screenings == st.screenings
  {
    st.(bookings := st.bookings[b := st.bookings[b].(screening := slot, seats := seats)])
  }

  // ---------------------------------------------------------------- report

  predicate PointsBelow(bs: seq<Booking>, n: nat) {
    forall k :: 0 <= k < |bs| ==> bs[k].screening < n
  }

  /** The accumulation `totalBooked += seatCount` over `bs` in order, for the
      bookings whose screening slot reads movie id `movieId` in `slotMovie`. */
  function SeatsFor(bs: seq<Booking>, slotMovie: seq<int>, movieId: int): (total: int)
    requires PointsBelow(bs, |slotMovie|)
    ensures 0 <= total
    decreases |bs|
  {
    if |bs| == 0 then 0
    else
      var last := bs[|bs| - 1];
      SeatsFor(bs[..|bs| - 1], slotMovie, movieId) + (if slotMovie[last.screening] == movieId then |last.seats| else 0)
  }

  /** The booked-seat figure `generateMovieReport` prints for a movie id. */
  function BookedSeats(st: State, movieId: int): int
    requires WellFormed(st)
  {
    SeatsFor(LiveBookings(st), SlotMovieIds(st), movieId)
  }
}
