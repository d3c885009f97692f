/**
 * `CinemaBookingSystem` as an object: three fixed arrays and their counts,
 * updated in place. The screening array holds one `Screening` object per
 * slot for the whole life of the registry, as the C++ array of values does;
 * shifting a screening down is a copy of its fields and seat buffer into
 * the object of the slot below. Every operation is proved to have exactly
 * the effect of its function in module Ledger on the abstract state `Abs()`.
 */
module CinemaSystem {
  import opened SeatMap
  import opened Ledger
  import opened Screenings
  import LedgerFacts

  class CinemaBookingSystem {
    const movies: array<Movie>
    var movieCount: nat
    const screenings: array<Screening>
    var screeningCount: nat
    const bookings: array<Booking>
    var bookingCount: nat

    /** The screening objects, one per slot, and their seat buffers: fixed
        when the registry is built, as the C++ array of values is. */
    ghost const slotObjects: set<Screening>
    ghost const seatBuffers: set<array<bool>>

    /** Every slot holds one of the registry's screening objects, whose seat
        buffer is one of the registry's buffers. */
    ghost predicate Owned()
      reads screenings
    {
      && screenings.Length == MaxScreenings
      && forall k :: 0 <= k < MaxScreenings ==>
           screenings[k] in slotObjects && screenings[k].seats in seatBuffers
    }

    /** The screening slots as values. */
    ghost function Recs(): seq<ScreeningRec>
      requires Owned()
      reads screenings, slotObjects, seatBuffers
    {
      seq(MaxScreenings, k requires 0 <= k < MaxScreenings && screenings[k] in slotObjects && screenings[k].seats in seatBuffers
            reads screenings, slotObjects, seatBuffers => screenings[k].Rec())
    }

    /** The registry as a value. */
    ghost function Abs(): State
      requires Owned()
      reads this, movies, bookings, screenings, slotObjects, seatBuffers
    {
      State(movies[..], movieCount, Recs(), screeningCount, bookings[..], bookingCount)
    }

    /** One distinct screening object and seat buffer per slot, each of the
        fixed capacity. */
    ghost predicate SlotsDistinct()
      reads screenings, slotObjects
    {
      && Owned()
      && (forall j, k :: 0 <= j < MaxScreenings && 0 <= k < MaxScreenings && j != k ==>
            screenings[j] != screenings[k] && screenings[j].seats != screenings[k].seats)
      && (forall k :: 0 <= k < MaxScreenings ==> screenings[k].Valid())
    }

    /** Fixed array sizes, distinct screening objects, and a well-formed
        abstract state. */
    ghost predicate Valid()
      reads this, movies, bookings, screenings, slotObjects, seatBuffers
    {
      && movies.Length == MaxMovies && bookings.Length == MaxBookings
      && SlotsDistinct()
      && WellFormed(Abs())
    }

    /** `CinemaBookingSystem()`: empty registry; every array slot holds a
        default-constructed entry. */
    constructor ()
      ensures Valid() && Abs() == Initial()
    {
      var slots, objSet, seatSet := NewSlots();
      var ms := NewMovies();
      var bs := NewBookings();
      screenings := slots;
      slotObjects := objSet;
      seatBuffers := seatSet;
      movies := ms;
      bookings := bs;
      movieCount := 0;
      screeningCount := 0;
      bookingCount := 0;
      new;
      ghost var init := Initial();
      assert forall k :: 0 <= k < MaxScreenings ==> Recs()[k] == init.screenings[k];
      assert Recs() == init.screenings;
      assert Abs() == init;
    }

    /** The movie array, every slot default-constructed. */
    static method NewMovies() returns (a: array<Movie>)
      ensures fresh(a) && a[..] == Initial().movies
    {
      a := new Movie[MaxMovies](_ => NoMovie);
      assert forall k :: 0 <= k < MaxMovies ==> a[k] == Initial().movies[k];
    }

    /** The booking array, every slot default-constructed. */
    static method NewBookings() returns (a: array<Booking>)
      ensures fresh(a) && a[..] == Initial().bookings
    {
      a := new Booking[MaxBookings](_ => NoBooking);
      assert forall k :: 0 <= k < MaxBookings ==> a[k] == Initial().bookings[k];
    }

    /** The 100 default-constructed screenings of the registry's array. */
    static method NewSlots() returns (a: array<Screening>, objSet: set<Screening>, seatSet: set<array<bool>>)
      ensures fresh(a) && a.Length == MaxScreenings
      ensures forall k :: 0 <= k < MaxScreenings ==>
        && a[k] in objSet && a[k].seats in seatSet && a[k].Valid()
        && a[k].Rec() == ScreeningRec(0, 0, "", "", AllSeatsFree())
      ensures forall j, k :: 0 <= j < MaxScreenings && 0 <= k < MaxScreenings && j != k ==>
        a[j] != a[k] && a[j].seats != a[k].seats
    {
      var objs: seq<Screening> := [];
      objSet, seatSet := {}, {};
      while |objs| < MaxScreenings
        invariant |objs| <= MaxScreenings
        invariant forall k :: 0 <= k < |objs| ==>
          && objs[k] in objSet && objs[k].seats in seatSet && objs[k].Valid()
          && objs[k].Rec() == ScreeningRec(0, 0, "", "", AllSeatsFree())
        invariant forall j, k :: 0 <= j < |objs| && 0 <= k < |objs| && j != k ==>
          objs[j] != objs[k] && objs[j].seats != objs[k].seats
      {
        var sc := new Screening();
        objs := objs + [sc];
        objSet, seatSet := objSet + {sc}, seatSet + {sc.seats};
      }
      a := new Screening[MaxScreenings](k requires 0 <= k < MaxScreenings => objs[k]);
      assert forall k :: 0 <= k < MaxScreenings ==> a[k] == objs[k];
    }

    // ---------------------------------------------------------------- lookups

    /** `findMovieById`: the first live movie slot holding the id, or none
        (the null pointer). */
    method FindMovieById(id: int) returns (r: Option<nat>)
      requires Valid()
      ensures r == FirstIndexOf(MovieIds(Abs()), id)
      ensures r.Some? ==> r.value < movieCount && movies[r.value].id == id
      ensures r.None? <==> forall k :: 0 <= k < movieCount ==> movies[k].id != id
    {
      ghost var ids := MovieIds(Abs());
      assert forall k :: 0 <= k < movieCount ==> ids[k] == movies[k].id;
      var i := 0;
      while i < movieCount
        invariant 0 <= i <= movieCount
        invariant forall j :: 0 <= j < i ==> movies[j].id != id
      {
        if movies[i].id == id {
          LedgerFacts.FirstIndexOfIsFirst(ids, id, i);
          return Some(i);
        }
        i := i + 1;
      }
      return None;
    }

    /** `findScreeningById`: the first live screening slot holding the id, or none. */
    method FindScreeningById(id: int) returns (r: Option<nat>)
      requires Valid()
      ensures r == FirstIndexOf(ScreeningIds(Abs()), id)
      ensures r.Some? ==> r.value < screeningCount && screenings[r.value].id == id
      ensures r.None? <==> forall k :: 0 <= k < screeningCount ==> screenings[k].id != id
    {
      ghost var ids := ScreeningIds(Abs());
      assert forall k :: 0 <= k < screeningCount ==> ids[k] == Recs()[k].id == screenings[k].id;
      var i := 0;
      while i < screeningCount
        invariant 0 <= i <= screeningCount
        invariant forall j :: 0 <= j < i ==> screenings[j].id != id
      {
        if screenings[i].id == id {
          LedgerFacts.FirstIndexOfIsFirst(ids, id, i);
          return Some(i);
        }
        i := i + 1;
      }
      return None;
    }

    /** `findBookingIndexById`: the first live booking slot holding the id, or -1. */
    method FindBookingIndexById(id: int) returns (r: int)
      requires Valid()
      ensures r == FindBookingIndex(Abs(), id)
      ensures r == -1 <==> forall k :: 0 <= k < bookingCount ==> bookings[k].id != id
      ensures r != -1 ==> 0 <= r < bookingCount && bookings[r].id == id
    {
      var i := 0;
      while i < bookingCount
        invariant 0 <= i <= bookingCount
        invariant forall j :: 0 <= j < i ==> bookings[j].id != id
      {
        if bookings[i].id == id {
          return i;
        }
        i := i + 1;
      }
      return -1;
    }

    /** `findBookingById`: the same scan, returning the slot (the `Booking*`) or none. */
    method FindBookingById(id: int) returns (r: Option<nat>)
      requires Valid()
      ensures r.None? <==> FindBookingIndex(Abs(), id) == -1
      ensures r.Some? ==> r.value == FindBookingIndex(Abs(), id) && bookings[r.value].id == id
    {
      var i := 0;
      while i < bookingCount
        invariant 0 <= i <= bookingCount
        invariant forall j :: 0 <= j < i ==> bookings[j].id != id
      {
        if bookings[i].id == id {
          return Some(i);
        }
        i := i + 1;
      }
      return None;
    }

    // ----------------------------------------------------------------- movies

    /** `addMovie`. */
    method AddMovie(name: string, genre: string, duration: int, cost: real) returns (err: Option<Error>)
      requires Valid()
      modifies this, movies
      ensures Valid()
      ensures (Abs(), err) == Ledger.AddMovie(old(Abs()), name, genre, duration, cost)
    {
      if movieCount >= movies.Length {
        return Some(MovieLimitReached);
      }
      movies[movieCount] := Movie(movieCount + 1, name, genre, duration, cost);
      movieCount := movieCount + 1;
      assert Recs() == old(Recs());
      return None;
    }

    /** `editMovie`: the setters rewrite the movie found in place. */
    method EditMovie(id: int, name: string, genre: string, duration: int, cost: real) returns (err: Option<Error>)
      requires Valid()
      modifies movies
      ensures Valid()
      ensures (Abs(), err) == Ledger.EditMovie(old(Abs()), id, name, genre, duration, cost)
    {
      var m := FindMovieById(id);
      assert movies[..] == old(movies[..]);
      assert Recs() == old(Recs());
      assert Abs() == old(Abs());
      assert m == FirstIndexOf(MovieIds(old(Abs())), id);
      if m.None? {
        return Some(MovieNotFound);
      }
      var k := m.value;
      movies[k] := movies[k].(name := name, genre := genre, duration := duration, cost := cost);
      assert Recs() == old(Recs());
      return None;
    }

    // ----------------------------------------------------------------- report

    /** `generateMovieReport`: for each live movie in order, the sum of the
        seat counts of the live bookings whose screening's movie reads its id. */
    method GenerateMovieReport() returns (totals: seq<int>)
      requires Valid()
      ensures |totals| == movieCount
      ensures forall i :: 0 <= i < movieCount ==> totals[i] == BookedSeats(Abs(), movies[i].id)
    {
      ghost var st := Abs();
      totals := [];
      var i := 0;
      while i < movieCount
        invariant 0 <= i <= movieCount && |totals| == i
        invariant forall k :: 0 <= k < i ==> totals[k] == BookedSeats(st, movies[k].id)
      {
        ReportView();
        var total := BookedSeatsOf(movies[i].id, LiveBookings(Abs()), SlotMovieIds(Abs()));
        totals := totals + [total];
        i := i + 1;
      }
      assert Recs() == st.screenings;
      assert Abs() == st;
    }

    /** The inner loop of `generateMovieReport`: `totalBooked` for one movie
        id, given the live bookings and the movie id each screening slot reads. */
    method BookedSeatsOf(movieId: int, ghost live: seq<Booking>, ghost slotMovie: seq<int>) returns (total: int)
      requires movies.Length == MaxMovies && screenings.Length == MaxScreenings
      requires |live| == bookingCount <= bookings.Length && |slotMovie| == MaxScreenings
      requires PointsBelow(live, MaxScreenings)
      requires forall k :: 0 <= k < bookingCount ==> bookings[k] == live[k]
      requires forall k :: 0 <= k < MaxScreenings ==>
        screenings[k].movie < MaxMovies && movies[screenings[k].movie].id == slotMovie[k]
      ensures total == SeatsFor(live, slotMovie, movieId)
    {
      assert live[..0] == [];
      total := 0;
      var j := 0;
      while j < bookingCount
        invariant 0 <= j <= bookingCount
        invariant PointsBelow(live[..j], |slotMovie|)
        invariant total == SeatsFor(live[..j], slotMovie, movieId)
      {
        var b := bookings[j];
        var m := screenings[b.screening].movie;
        LedgerFacts.SeatsForStep(live, j, slotMovie, movieId);
        if movies[m].id == movieId {
          total := total + |b.seats|;
        }
        j := j + 1;
      }
      assert live[..bookingCount] == live;
    }

    /** What the report loop reads through the arrays, as the abstract state
        sees it. */
    lemma ReportView()
      requires Valid()
      ensures |LiveBookings(Abs())| == bookingCount && |SlotMovieIds(Abs())| == MaxScreenings
      ensures PointsBelow(LiveBookings(Abs()), MaxScreenings)
      ensures forall k :: 0 <= k < bookingCount ==> bookings[k] == LiveBookings(Abs())[k]
      ensures forall k :: 0 <= k < MaxScreenings ==>
        screenings[k].movie < MaxMovies && movies[screenings[k].movie].id == SlotMovieIds(Abs())[k]
    {
      assert forall k :: 0 <= k < MaxScreenings ==> Recs()[k] == screenings[k].Rec();
    }

    // --------------------------------------------------------------- bookings

    /** `addBooking`: the limit is checked first, then `bookSeats` runs on
        the screening; only a successful claim appends the booking. */
    method AddBooking(user: UserRef, slot: nat, seats: seq<int>) returns (err: Option<Error>)
      requires Valid() && slot < MaxScreenings && |seats| <= MaxSeats
      modifies this, bookings, seatBuffers
      ensures Valid()
      ensures (Abs(), err) == Ledger.AddBooking(old(Abs()), user, slot, seats)
    {
      if bookingCount >= bookings.Length {
        return Some(BookingLimitReached);
      }
      var ok := ClaimOn(slot, seats);
      if !ok {
        return Some(SeatsUnavailable);
      }
      AppendBooking(user, slot, seats);
      return None;
    }

    /** The booking with id count + 1 stored at the count, then `bookingCount++`. */
    method AppendBooking(user: UserRef, slot: nat, seats: seq<int>)
      requires Valid() && bookingCount < MaxBookings && slot < MaxScreenings && |seats| <= MaxSeats
      modifies this, bookings
      ensures Valid()
      ensures Abs() == old(Abs()).(
        bookings := old(bookings[..])[old(bookingCount) := Booking(old(bookingCount) + 1, user, slot, seats)],
        bookingCount := old(bookingCount) + 1)
    {
      bookings[bookingCount] := Booking(bookingCount + 1, user, slot, seats);
      bookingCount := bookingCount + 1;
      assert Recs() == old(Recs());
    }

    /** `cancelBookingByIndex`: release the booking's seats on the screening
        it points at, then remove the entry by the left shift. */
    method CancelBookingByIndex(index: nat)
      requires Valid() && index < bookingCount
      modifies this, bookings, seatBuffers
      ensures Valid()
      ensures Abs() == CancelBookingAt(old(Abs()), index)
    {
      var b := bookings[index];
      ReleaseOn(b.screening, b.seats);
      CompactBookings(index);
    }

    /** The left shift of the booking array over slot `index`, then `bookingCount--`. */
    method CompactBookings(index: nat)
      requires Valid() && index < bookingCount
      modifies this, bookings
      ensures Valid()
      ensures Abs() == DropBooking(old(Abs()), index)
    {
      ShiftBookings(index);
      bookingCount := bookingCount - 1;
      assert Recs() == old(Recs());
      assert Abs() == DropBooking(old(Abs()), index);
    }

    /** `Booking::changeBooking` on the booking in slot `b`: claim the new
        seats on the new screening first; only when that succeeds release
        the old seats on the booking's screening and install the new
        screening and seat list. */
    method ChangeBooking(b: nat, newSlot: nat, newSeats: seq<int>) returns (err: Option<Error>)
      requires Valid() && b < MaxBookings && newSlot < MaxScreenings && |newSeats| <= MaxSeats
      modifies bookings, seatBuffers
      ensures Valid()
      ensures (Abs(), err) == Ledger.ChangeBooking(old(Abs()), b, newSlot, newSeats)
    {
      var ok := ClaimOn(newSlot, newSeats);
      if !ok {
        return Some(ModifiedSeatsUnavailable);
      }
      var bk := bookings[b];
      ReleaseOn(bk.screening, bk.seats);
      StoreRebooked(b, newSlot, newSeats);
      return None;
    }

    /** `screening = newScreening; seatCount = newCount; seatNumbers = ...` on booking slot `b`. */
    method StoreRebooked(b: nat, slot: nat, seats: seq<int>)
      requires Valid() && b < MaxBookings && slot < MaxScreenings && |seats| <= MaxSeats
      modifies bookings
      ensures Valid()
      ensures Abs() == Rebook(old(Abs()), b, slot, seats)
    {
      bookings[b] := bookings[b].(screening := slot, seats := seats);
      assert Recs() == old(Recs());
      assert Abs() == Rebook(old(Abs()), b, slot, seats);
    }

    /** `bookSeats` on the screening object of slot `slot`. */
    method ClaimOn(slot: nat, req: seq<int>) returns (ok: bool)
      requires Valid() && slot < MaxScreenings
      modifies seatBuffers
      ensures Valid()
      ensures ok <==> AllFree(old(Abs()).screenings[slot].seats, req)
      ensures Abs() == if ok then WithSeats(old(Abs()), slot, Claimed(old(Abs()).screenings[slot].seats, req)) else old(Abs())
    {
      var sc := screenings[slot];
      ok := sc.BookSeats(req);
      assert forall k :: 0 <= k < MaxScreenings && k != slot ==> screenings[k].Rec() == old(screenings[k].Rec());
      assert Recs() == if ok then old(Recs())[slot := old(Recs())[slot].(seats := Claimed(old(sc.seats[..]), req))] else old(Recs());
    }

    /** `cancelSeats` on the screening object of slot `slot`. */
    method ReleaseOn(slot: nat, req: seq<int>)
      requires Valid() && slot < MaxScreenings
      modifies seatBuffers
      ensures Valid()
      ensures Abs() == WithSeats(old(Abs()), slot, Released(old(Abs()).screenings[slot].seats, req))
    {
      var sc := screenings[slot];
      sc.CancelSeats(req);
      assert forall k :: 0 <= k < MaxScreenings && k != slot ==> screenings[k].Rec() == old(screenings[k].Rec());
      assert Recs() == old(Recs())[slot := old(Recs())[slot].(seats := Released(old(sc.seats[..]), req))];
    }

    /** `for (i = index; i < bookingCount - 1; i++) bookings[i] = bookings[i + 1];` */
    method ShiftBookings(index: nat)
      requires bookings.Length == MaxBookings && index < bookingCount <= MaxBookings
      modifies bookings
      ensures bookings[..] == ShiftLeft(old(bookings[..]), index, bookingCount)
    {
      ghost var before := bookings[..];
      var i := index;
      while i < bookingCount - 1
        invariant index <= i <= bookingCount - 1
        invariant forall k {:trigger bookings[k]} :: 0 <= k < MaxBookings ==>
          bookings[k] == if index <= k < i then before[k + 1] else before[k]
      {
        bookings[i] := bookings[i + 1];
        i := i + 1;
      }
      ghost var shifted := ShiftLeft(before, index, bookingCount);
      assert forall k :: 0 <= k < MaxBookings ==> bookings[k] == shifted[k];
      assert bookings[..] == shifted;
    }

    // ------------------------------------------------------------- screenings

    /** `addScreening`: the limit is checked first, then the movie id; the
        slot at the count is rebuilt with the next id and all seats free. */
    method AddScreening(movieId: int, datetime: string, hall: string) returns (err: Option<Error>)
      requires Valid()
      modifies this, slotObjects, seatBuffers
      ensures Valid()
      ensures (Abs(), err) == Ledger.AddScreening(old(Abs()), movieId, datetime, hall)
    {
      if screeningCount >= screenings.Length {
        return Some(ScreeningLimitReached);
      }
      var m := FindMovieById(movieId);
      assert Recs() == old(Recs());
      if m.None? {
        return Some(MovieNotFoundForScreening);
      }
      AppendSlot(m.value, datetime, hall);
      return None;
    }

    /** The slot at the count rebuilt as screening count + 1, then `screeningCount++`. */
    method AppendSlot(m: nat, datetime: string, hall: string)
      requires Valid() && screeningCount < MaxScreenings && m < MaxMovies
      modifies this, slotObjects, seatBuffers
      ensures Valid()
      ensures Abs() == old(Abs()).(
        screenings := old(Recs())[old(screeningCount) := ScreeningRec(old(screeningCount) + 1, m, datetime, hall, AllSeatsFree())],
        screeningCount := old(screeningCount) + 1)
    {
      RebuildSlot(screeningCount, screeningCount + 1, m, datetime, hall);
      ghost var rebuilt := Abs();
      screeningCount := screeningCount + 1;
      assert Recs() == rebuilt.screenings;
    }

    /** `editScreening`: the screening id is looked up first, then the movie
        id; the slot found is rebuilt with its id, the new movie and all
        seats free. */
    method EditScreening(id: int, movieId: int, datetime: string, hall: string) returns (err: Option<Error>)
      requires Valid()
      modifies slotObjects, seatBuffers
      ensures Valid()
      ensures (Abs(), err) == Ledger.EditScreening(old(Abs()), id, movieId, datetime, hall)
    {
      var s := FindScreeningById(id);
      assert Recs() == old(Recs());
      if s.None? {
        return Some(ScreeningNotFound);
      }
      var m := FindMovieById(movieId);
      assert Recs() == old(Recs());
      if m.None? {
        return Some(MovieNotFoundForScreening);
      }
      RebuildSlot(s.value, id, m.value, datetime, hall);
      return None;
    }

    /** `*s = Screening(id, m, datetime, hall)` on slot `slot`. */
    method RebuildSlot(slot: nat, id: int, m: nat, datetime: string, hall: string)
      requires Valid() && slot < MaxScreenings && m < MaxMovies
      modifies slotObjects, seatBuffers
      ensures Valid()
      ensures Abs() == old(Abs()).(screenings := old(Recs())[slot := ScreeningRec(id, m, datetime, hall, AllSeatsFree())])
    {
      var sc := screenings[slot];
      sc.Reinitialize(id, m, datetime, hall);
      assert forall k :: 0 <= k < MaxScreenings && k != slot ==> screenings[k].Rec() == old(screenings[k].Rec());
      assert Recs() == old(Recs())[slot := ScreeningRec(id, m, datetime, hall, AllSeatsFree())];
    }

    /** The booking loop of `deleteScreening`: cancel, by index, every live
        booking whose screening pointer reads the id, re-examining the same
        index after each cancellation. */
    method CancelBookingsOf(id: int)
      requires Valid()
      modifies this, bookings, seatBuffers
      ensures Valid() && Abs() == PurgeBookings(old(Abs()), id, 0)
    {
      var i := 0;
      while i < bookingCount
        invariant Valid() && i <= bookingCount
        invariant PurgeBookings(Abs(), id, i) == PurgeBookings(old(Abs()), id, 0)
        decreases bookingCount - i
      {
        var b := bookings[i];
        assert Recs()[b.screening] == screenings[b.screening].Rec();
        if screenings[b.screening].id == id {
          ghost var before := Abs();
          CancelBookingByIndex(i);
          assert PurgeBookings(before, id, i) == PurgeBookings(Abs(), id, i);
        } else {
          assert PurgeBookings(Abs(), id, i) == PurgeBookings(Abs(), id, i + 1);
          i := i + 1;
        }
      }
    }

    /** `for (i = idx; i < screeningCount - 1; i++) screenings[i] = screenings[i + 1];`
        with each assignment a copy of fields and seat buffer. */
    method ShiftScreenings(idx: nat)
      requires SlotsDistinct() && idx < screeningCount <= MaxScreenings
      modifies slotObjects, seatBuffers
      ensures SlotsDistinct()
      ensures Recs() == ShiftLeft(old(Recs()), idx, screeningCount)
    {
      ghost var before := Recs();
      var i := idx;
      while i < screeningCount - 1
        invariant idx <= i <= screeningCount - 1
        invariant SlotsDistinct()
        invariant forall k {:trigger screenings[k]} :: 0 <= k < MaxScreenings ==>
          screenings[k].Rec() == if idx <= k < i then before[k + 1] else before[k]
      {
        screenings[i].CopyFrom(screenings[i + 1]);
        i := i + 1;
      }
      ghost var shifted := ShiftLeft(before, idx, screeningCount);
      assert forall k :: 0 <= k < MaxScreenings ==> Recs()[k] == shifted[k];
      assert Recs() == shifted;
    }

    /** `deleteScreening`: find the first live slot with the id, cancel its
        bookings, then remove the slot by the left shift. */
    method DeleteScreening(id: int) returns (err: Option<Error>)
      requires Valid()
      modifies this, bookings, slotObjects, seatBuffers
      ensures Valid()
      ensures (Abs(), err) == Ledger.DeleteScreening(old(Abs()), id)
    {
      var idx := FindScreeningById(id);
      assert Recs() == old(Recs());
      if idx.None? {
        return Some(ScreeningNotFound);
      }
      RemoveScreening(id, idx.value);
      assert Ledger.DeleteScreening(old(Abs()), id) == (Abs(), None);
      return None;
    }

    /** The part of `deleteScreening` after the lookup found slot `idx`. */
    method RemoveScreening(id: int, idx: nat)
      requires Valid() && idx < screeningCount
      modifies this, bookings, slotObjects, seatBuffers
      ensures Valid()
      ensures Abs() == RemoveScreeningAt(old(Abs()), id, idx)
    {
      ghost var target := RemoveScreeningAt(old(Abs()), id, idx);
      CancelBookingsOf(id);
      ghost var p := Abs();
      ShiftScreenings(idx);
      screeningCount := screeningCount - 1;
      assert Recs() == ShiftLeft(p.screenings, idx, p.screeningCount) == target.screenings;
      assert bookings[..] == p.bookings == target.bookings;
      assert movies[..] == p.movies == target.movies;
      assert Abs() == target;
    }

    // ---------------------------------------------------------- movie delete

    /** `for (i = idx; i < movieCount - 1; i++) movies[i] = movies[i + 1];` */
    method ShiftMovies(idx: nat)
      requires movies.Length == MaxMovies && idx < movieCount <= MaxMovies
      modifies movies
      ensures movies[..] == ShiftLeft(old(movies[..]), idx, movieCount)
    {
      ghost var before := movies[..];
      var i := idx;
      while i < movieCount - 1
        invariant idx <= i <= movieCount - 1
        invariant forall k {:trigger movies[k]} :: 0 <= k < MaxMovies ==>
          movies[k] == if idx <= k < i then before[k + 1] else before[k]
      {
        movies[i] := movies[i + 1];
        i := i + 1;
      }
      ghost var shifted := ShiftLeft(before, idx, movieCount);
      assert forall k :: 0 <= k < MaxMovies ==> movies[k] == shifted[k];
      assert movies[..] == shifted;
    }

    /** The screening loop of `deleteMovie`: delete, by id, every live
        screening whose movie pointer reads the movie id, re-examining the
        same index after each delete. */
    method DeleteScreeningsOf(id: int)
      requires Valid()
      modifies this, bookings, slotObjects, seatBuffers
      ensures Valid() && Abs() == PurgeScreenings(old(Abs()), id, 0)
    {
      var i := 0;
      while i < screeningCount
        invariant Valid() && i <= screeningCount
        invariant PurgeScreenings(Abs(), id, i) == PurgeScreenings(old(Abs()), id, 0)
        decreases screeningCount - i
      {
        var sc := screenings[i];
        assert Recs()[i] == sc.Rec();
        if movies[sc.movie].id == id {
          ghost var before := Abs();
          assert before.screenings[i].id == sc.id;
          var _ := DeleteScreening(sc.id);
          assert PurgeScreenings(before, id, i) == PurgeScreenings(Abs(), id, i);
        } else {
          assert PurgeScreenings(Abs(), id, i) == PurgeScreenings(Abs(), id, i + 1);
          i := i + 1;
        }
      }
    }

    /** `deleteMovie` of the later variant: look the movie up, delete its
        screenings (and their bookings), then remove it by the left shift. */
    method DeleteMovie(id: int) returns (err: Option<Error>)
      requires Valid()
      modifies this, movies, bookings, slotObjects, seatBuffers
      ensures Valid()
      ensures (Abs(), err) == Ledger.DeleteMovie(old(Abs()), id)
    {
      var idx := FindMovieById(id);
      assert Recs() == old(Recs());
      if idx.None? {
        return Some(MovieNotFound);
      }
      RemoveMovie(id, idx.value);
      assert Ledger.DeleteMovie(old(Abs()), id) == (Abs(), None);
      return None;
    }

    /** The part of `deleteMovie` (later variant) after the lookup found slot `idx`. */
    method RemoveMovie(id: int, idx: nat)
      requires Valid() && idx < movieCount
      modifies this, movies, bookings, slotObjects, seatBuffers
      ensures Valid()
      ensures Abs() == RemoveMovieAt(old(Abs()), id, idx)
    {
      DeleteScreeningsOf(id);
      CompactMovies(idx);
    }

    /** The left shift of the movie array over slot `idx`, then `movieCount--`. */
    method CompactMovies(idx: nat)
      requires Valid() && idx < movieCount
      modifies this, movies
      ensures Valid()
      ensures Abs() == DropMovie(old(Abs()), idx)
    {
      ShiftMovies(idx);
      movieCount := movieCount - 1;
      assert Recs() == old(Recs());
      assert Abs() == DropMovie(old(Abs()), idx);
    }

    /** `deleteMovie` of the earlier variant: the movie is removed by the left
        shift first, and the screening loop then reads movie ids through the
        shifted array. */
    method DeleteMovieCompactFirst(id: int) returns (err: Option<Error>)
      requires Valid()
      modifies this, movies, bookings, slotObjects, seatBuffers
      ensures Valid()
      ensures (Abs(), err) == Ledger.DeleteMovieCompactFirst(old(Abs()), id)
    {
      var idx := FindMovieById(id);
      assert Recs() == old(Recs());
      if idx.None? {
        return Some(MovieNotFound);
      }
      CompactMovies(idx.value);
      DeleteScreeningsOf(id);
      return None;
    }
  }
}
