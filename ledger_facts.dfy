/**
 * What the engine's operations guarantee, proved about the value-level
 * functions of module Ledger: the all-or-nothing seat claim under every
 * booking operation, the claim-before-release order of a booking change,
 * the cascades of the two deletes, the report figure, and the places where
 * the code behaves in ways a caller might not expect (ids that repeat, the
 * earlier variant's delete order, an edit that frees held seats).
 */
module LedgerFacts {
  import opened SeatMap
  import opened Ledger

  /** Any index that holds `id` with no earlier index holding it is the one
      the linear scan returns. */
  lemma FirstIndexOfIsFirst(ids: seq<int>, id: int, k: nat)
    requires k < |ids| && ids[k] == id
    requires forall j :: 0 <= j < k ==> ids[j] != id
    ensures FirstIndexOf(ids, id) == Some(k)
  {
  }

  // ---------------------------------------------------------------- movies

  /** `addMovie` throws "Movie limit reached." exactly at the limit and then
      changes nothing; otherwise it appends one movie whose id is the old
      count plus one, and a later lookup of that id succeeds. */
  lemma AddMovieAppends(st: State, name: string, genre: string, duration: int, cost: real)
    requires WellFormed(st)
    ensures var r := AddMovie(st, name, genre, duration, cost);
      && (r.1.Some? <==> st.movieCount >= MaxMovies)
      && (r.1.Some? ==> r == (st, Some(MovieLimitReached)))
      && (r.1.None? ==>
            && LiveMovies(r.0) == LiveMovies(st) + [Movie(st.movieCount + 1, name, genre, duration, cost)]
            && r.0.screenings == st.screenings && r.0.bookings == st.bookings
            && r.0.screeningCount == st.screeningCount && r.0.bookingCount == st.bookingCount
            && FirstIndexOf(MovieIds(r.0), st.movieCount + 1).Some?)
  {
    var r := AddMovie(st, name, genre, duration, cost);
    if r.1.None? {
      assert MovieIds(r.0)[st.movieCount] == st.movieCount + 1;
    }
  }

  /** Ids are the count plus one at the time of the append, so they repeat
      after a delete: from an empty catalogue, adding two movies, deleting the
      first and adding a third leaves two live movies that both have id 2. */
  lemma MovieIdsCanRepeat(st: State)
    requires WellFormed(st) && st.movieCount == 0 && st.screeningCount == 0
    ensures var s1 := AddMovie(st, "A", "", 90, 5.0).0;
            var s2 := AddMovie(s1, "B", "", 90, 5.0).0;
            var s3 := DeleteMovie(s2, 1).0;
            var s4 := AddMovie(s3, "C", "", 90, 5.0).0;
            s4.movieCount == 2 && s4.movies[0].id == 2 && s4.movies[1].id == 2
  {
    var s1 := AddMovie(st, "A", "", 90, 5.0).0;
    var s2 := AddMovie(s1, "B", "", 90, 5.0).0;
    assert MovieIds(s2)[0] == 1;
    FirstIndexOfIsFirst(MovieIds(s2), 1, 0);
    var s3 := DeleteMovie(s2, 1).0;
    assert PurgeScreenings(s2, 1, 0) == s2;
    assert s3.movieCount == 1 && s3.movies[0].id == 2;
  }

  /** `editMovie` throws "Movie not found." when no live movie has the id;
      otherwise it rewrites the first such movie in place, keeping its id, and
      no other slot and no id changes. */
  lemma EditMovieKeepsIdentity(st: State, id: int, name: string, genre: string, duration: int, cost: real)
    requires WellFormed(st)
    ensures var r := EditMovie(st, id, name, genre, duration, cost);
      && (r.1.Some? <==> forall k :: 0 <= k < st.movieCount ==> st.movies[k].id != id)
      && (r.1.Some? ==> r == (st, Some(MovieNotFound)))
      && (r.1.None? ==>
            var k := FirstIndexOf(MovieIds(st), id).value;
            && r.0.movies == st.movies[k := Movie(id, name, genre, duration, cost)]
            && MovieIds(r.0) == MovieIds(st)
            && r.0.movieCount == st.movieCount && r.0.screenings == st.screenings && r.0.bookings == st.bookings
            && r.0.screeningCount == st.screeningCount && r.0.bookingCount == st.bookingCount)
  {
    assert forall k :: 0 <= k < st.movieCount ==> MovieIds(st)[k] == st.movies[k].id;
  }

  /** Id stability of `deleteMovie` (later variant): the live movies after a
      successful delete are the live movies before with exactly the first
      one holding the id taken out, in the same order. */
  lemma DeleteMovieRemovesOne(st: State, id: int)
    requires WellFormed(st)
    ensures var r := DeleteMovie(st, id);
      r.1.None? ==>
        var k := FirstIndexOf(MovieIds(st), id).value;
        LiveMovies(r.0) == LiveMovies(st)[..k] + LiveMovies(st)[k + 1..]
  {
  }

  /** `deleteMovie` of the earlier variant removes the same movie: the live
      movies after a successful delete are the live movies before with the
      first one holding the id taken out, in the same order. */
  lemma DeleteMovieCompactFirstRemovesOne(st: State, id: int)
    requires WellFormed(st)
    ensures var r := DeleteMovieCompactFirst(st, id);
      r.1.None? ==>
        var k := FirstIndexOf(MovieIds(st), id).value;
        LiveMovies(r.0) == LiveMovies(st)[..k] + LiveMovies(st)[k + 1..]
  {
  }

  /** The live screening ids are pairwise different. */
  predicate DistinctScreeningIds(st: State)
    requires WellFormed(st)
  {
    forall j, k :: 0 <= j < k < st.screeningCount ==> st.screenings[j].id != st.screenings[k].id
  }

  /** How a successful `deleteScreening` moves the screening slots: the slot
      found is dropped, the live slots after it move down by one, and each
      slot keeps the id and movie pointer of the entry now in it. */
  lemma DeleteScreeningShifts(st: State, id: int, idx: nat)
    requires WellFormed(st) && FirstIndexOf(ScreeningIds(st), id) == Some(idx)
    ensures var next := DeleteScreening(st, id).0;
      && next.screeningCount == st.screeningCount - 1 && idx < st.screeningCount
      && forall k :: 0 <= k < MaxScreenings ==>
           var from := if idx <= k < st.screeningCount - 1 then k + 1 else k;
           next.screenings[k].id == st.screenings[from].id && next.screenings[k].movie == st.screenings[from].movie
  {
    assert DeleteScreening(st, id).0 == RemoveScreeningAt(st, id, idx);
    RemoveScreeningAtShifts(st, id, idx);
  }

  /** The slot movement of `deleteScreening` once the lookup found slot `idx`. */
  lemma RemoveScreeningAtShifts(st: State, id: int, idx: nat)
    requires WellFormed(st) && idx < st.screeningCount
    ensures forall k :: 0 <= k < MaxScreenings ==>
      var next, from := RemoveScreeningAt(st, id, idx), if idx <= k < st.screeningCount - 1 then k + 1 else k;
      next.screenings[k].id == st.screenings[from].id && next.screenings[k].movie == st.screenings[from].movie
  {
    var p := PurgeBookings(st, id, 0);
    var next := RemoveScreeningAt(st, id, idx);
    forall k | 0 <= k < MaxScreenings
      ensures var from := if idx <= k < st.screeningCount - 1 then k + 1 else k;
        next.screenings[k].id == st.screenings[from].id && next.screenings[k].movie == st.screenings[from].movie
    {
      var from := if idx <= k < st.screeningCount - 1 then k + 1 else k;
      assert next.screenings[k] == p.screenings[from];
    }
  }

  /** No live screening of `st` has a movie pointer that reads `id` in `movies`. */
  predicate NoScreeningOf(movies: seq<Movie>, st: State, id: int)
    requires WellFormed(st) && |movies| == MaxMovies
  {
    forall k :: 0 <= k < st.screeningCount ==> movies[st.screenings[k].movie].id != id
  }

  /** The screening loop of `deleteMovie` re-examines slot `i` after each
      delete, so when the live screening ids are distinct it leaves no live
      screening whose movie pointer reads the deleted id. */
  lemma {:induction false} PurgeScreeningsComplete(st: State, id: int, i: nat)
    requires WellFormed(st) && i <= st.screeningCount && DistinctScreeningIds(st)
    requires forall k :: 0 <= k < i ==> st.movies[st.screenings[k].movie].id != id
    ensures NoScreeningOf(st.movies, PurgeScreenings(st, id, i), id)
    decreases st.screeningCount - i
  {
    if i == st.screeningCount {
    } else if st.movies[st.screenings[i].movie].id == id {
      var next := DeleteScreening(st, st.screenings[i].id).0;
      PurgeScreeningsDeleteStep(st, id, i);
      PurgeScreeningsComplete(next, id, i);
    } else {
      assert PurgeScreenings(st, id, i) == PurgeScreenings(st, id, i + 1);
      PurgeScreeningsComplete(st, id, i + 1);
    }
  }

  /** One step of the screening loop that deletes screening `i`: with
      distinct ids the lookup finds slot `i` itself, so the slots before it,
      the movies and the distinctness of the ids are kept. */
  lemma PurgeScreeningsDeleteStep(st: State, id: int, i: nat)
    requires WellFormed(st) && i < st.screeningCount && DistinctScreeningIds(st)
    requires st.movies[st.screenings[i].movie].id == id
    requires forall k :: 0 <= k < i ==> st.movies[st.screenings[k].movie].id != id
    ensures var next := DeleteScreening(st, st.screenings[i].id).0;
      && i <= next.screeningCount && next.movies == st.movies
      && PurgeScreenings(st, id, i) == PurgeScreenings(next, id, i)
      && DistinctScreeningIds(next)
      && forall k :: 0 <= k < i ==> next.movies[next.screenings[k].movie].id != id
  {
    var sid := st.screenings[i].id;
    assert forall k :: 0 <= k < st.screeningCount ==> ScreeningIds(st)[k] == st.screenings[k].id;
    FirstIndexOfIsFirst(ScreeningIds(st), sid, i);
    DeleteKeepsDistinct(st, sid, i);
    DeleteScreeningShifts(st, sid, i);
    var next := DeleteScreening(st, sid).0;
    forall k | 0 <= k < i
      ensures next.movies[next.screenings[k].movie].id != id
    {
      assert next.screenings[k].movie == st.screenings[k].movie;
    }
  }

  /** Deleting a screening keeps the live screening ids distinct. */
  lemma DeleteKeepsDistinct(st: State, sid: int, idx: nat)
    requires WellFormed(st) && FirstIndexOf(ScreeningIds(st), sid) == Some(idx) && DistinctScreeningIds(st)
    ensures DistinctScreeningIds(DeleteScreening(st, sid).0)
  {
    var next := DeleteScreening(st, sid).0;
    DeleteScreeningShifts(st, sid, idx);
    forall j, k | 0 <= j < k < next.screeningCount
      ensures next.screenings[j].id != next.screenings[k].id
    {
      var fj := if idx <= j < st.screeningCount - 1 then j + 1 else j;
      var fk := if idx <= k < st.screeningCount - 1 then k + 1 else k;
      assert fj < fk < st.screeningCount;
      assert next.screenings[j].id == st.screenings[fj].id;
      assert next.screenings[k].id == st.screenings[fk].id;
    }
  }

  /** `deleteMovie` (later variant) throws "Movie not found." with nothing
      changed when no live movie has the id; otherwise, when the live
      screening ids are distinct, no live screening is left whose movie
      pointer read the deleted id. */
  lemma DeleteMovieCascadeComplete(st: State, id: int)
    requires WellFormed(st) && DistinctScreeningIds(st)
    ensures var r := DeleteMovie(st, id);
      && (r.1.Some? <==> forall k :: 0 <= k < st.movieCount ==> st.movies[k].id != id)
      && (r.1.Some? ==> r.0 == st)
      && (r.1.None? ==> NoScreeningOf(st.movies, r.0, id))
  {
    PurgeScreeningsComplete(st, id, 0);
    var r := DeleteMovie(st, id);
    if r.1.None? {
      assert r.0.screenings == PurgeScreenings(st, id, 0).screenings;
      assert r.0.screeningCount == PurgeScreenings(st, id, 0).screeningCount;
    }
  }

  /** Every movie pointer of `ss` names a slot of `movies`. */
  predicate PointsIntoMovies(ss: seq<ScreeningRec>, movies: seq<Movie>) {
    forall k :: 0 <= k < |ss| ==> ss[k].movie < |movies|
  }

  /** The screenings kept by the screening loop of `deleteMovie`: those whose
      movie pointer does not read `id` in `movies`, in their original order. */
  function KeepScreenings(ss: seq<ScreeningRec>, movies: seq<Movie>, id: int): (r: seq<ScreeningRec>)
    requires PointsIntoMovies(ss, movies)
    ensures PointsIntoMovies(r, movies) && |r| <= |ss|
    decreases |ss|
  {
    if |ss| == 0 then []
    else if movies[ss[0].movie].id == id then KeepScreenings(ss[1..], movies, id)
    else [ss[0]] + KeepScreenings(ss[1..], movies, id)
  }

  /** `KeepScreenings` keeps exactly the screenings whose movie pointer does
      not read `id`. */
  lemma {:induction false} KeepScreeningsMembers(ss: seq<ScreeningRec>, movies: seq<Movie>, id: int)
    requires PointsIntoMovies(ss, movies)
    ensures forall s :: s in KeepScreenings(ss, movies, id) <==> s in ss && movies[s.movie].id != id
    decreases |ss|
  {
    if |ss| > 0 {
      KeepScreeningsMembers(ss[1..], movies, id);
      assert ss == [ss[0]] + ss[1..];
    }
  }

  /** With distinct ids, a successful `deleteScreening` of the screening in
      live slot `idx` leaves every other live screening record exactly as it
      was, in order: the seat releases of its booking loop land only on slots
      that read the deleted id. */
  lemma DeleteScreeningLive(st: State, sid: int, idx: nat)
    requires WellFormed(st) && FirstIndexOf(ScreeningIds(st), sid) == Some(idx) && DistinctScreeningIds(st)
    ensures LiveScreenings(DeleteScreening(st, sid).0) == LiveScreenings(st)[..idx] + LiveScreenings(st)[idx + 1..]
  {
    assert DeleteScreening(st, sid).0 == RemoveScreeningAt(st, sid, idx);
    var p := PurgeBookings(st, sid, 0);
    var next := RemoveScreeningAt(st, sid, idx);
    assert ScreeningIds(st)[idx] == st.screenings[idx].id;
    var a, b := LiveScreenings(next), LiveScreenings(st);
    forall k | 0 <= k < |a|
      ensures a[k] == b[if k < idx then k else k + 1]
    {
      var from := if k < idx then k else k + 1;
      assert st.screenings[from].id != sid;
      assert a[k] == p.screenings[from];
    }
    RemovedAt(a, b, idx);
  }

  /** A head the loop deletes drops out of the filter. */
  lemma KeepScreeningsDropHead(live: seq<ScreeningRec>, movies: seq<Movie>, id: int, i: nat)
    requires i < |live| && PointsIntoMovies(live, movies) && movies[live[i].movie].id == id
    ensures PointsIntoMovies(live[i..], movies) && PointsIntoMovies(live[i + 1..], movies)
    ensures KeepScreenings(live[i..], movies, id) == KeepScreenings(live[i + 1..], movies, id)
  {
    assert live[i..][1..] == live[i + 1..];
  }

  /** Moving a kept head from the filtered part to the prefix changes nothing. */
  lemma KeepScreeningsKeepsHead(live: seq<ScreeningRec>, movies: seq<Movie>, id: int, i: nat)
    requires i < |live| && PointsIntoMovies(live, movies) && movies[live[i].movie].id != id
    ensures PointsIntoMovies(live[i..], movies) && PointsIntoMovies(live[i + 1..], movies)
    ensures live[..i + 1] + KeepScreenings(live[i + 1..], movies, id) == live[..i] + KeepScreenings(live[i..], movies, id)
  {
    assert live[i..][1..] == live[i + 1..];
    assert live[..i + 1] == live[..i] + [live[i]];
  }

  /** The screening loop of `deleteMovie`, from any `i` with a clean prefix:
      when the live screening ids are distinct, the screenings before `i`
      stay, and of the rest exactly those of other movies stay, each record
      unchanged and in order. */
  lemma {:induction false} PurgeScreeningsFilters(st: State, id: int, i: nat)
    requires WellFormed(st) && i <= st.screeningCount && DistinctScreeningIds(st)
    requires forall k :: 0 <= k < i ==> st.movies[st.screenings[k].movie].id != id
    ensures PointsIntoMovies(LiveScreenings(st)[i..], st.movies)
    ensures LiveScreenings(PurgeScreenings(st, id, i))
         == LiveScreenings(st)[..i] + KeepScreenings(LiveScreenings(st)[i..], st.movies, id)
    decreases st.screeningCount - i
  {
    var live := LiveScreenings(st);
    assert PointsIntoMovies(live, st.movies);
    if i == st.screeningCount {
      assert live[i..] == [];
    } else if st.movies[st.screenings[i].movie].id == id {
      var sid := st.screenings[i].id;
      var next := DeleteScreening(st, sid).0;
      assert forall k :: 0 <= k < st.screeningCount ==> ScreeningIds(st)[k] == st.screenings[k].id;
      FirstIndexOfIsFirst(ScreeningIds(st), sid, i);
      PurgeScreeningsDeleteStep(st, id, i);
      DeleteScreeningLive(st, sid, i);
      PurgeScreeningsFilters(next, id, i);
      var nlive := LiveScreenings(next);
      assert nlive == live[..i] + live[i + 1..];
      assert nlive[..i] == live[..i] && nlive[i..] == live[i + 1..];
      KeepScreeningsDropHead(live, st.movies, id, i);
    } else {
      assert PurgeScreenings(st, id, i) == PurgeScreenings(st, id, i + 1);
      PurgeScreeningsFilters(st, id, i + 1);
      KeepScreeningsKeepsHead(live, st.movies, id, i);
    }
  }

  /** `deleteMovie` (later variant), the other half of its cascade: when the
      live screening ids are distinct, a successful delete leaves exactly the
      live screenings whose movie pointer did not read the id, each record
      (id, movie slot, date-time, hall, seat map) unchanged and in order. The
      movie slot is read through the shifted movie array afterwards, so a
      kept screening of a movie stored after the deleted one reads the movie
      that moved into its slot. */
  lemma DeleteMovieKeepsOthers(st: State, id: int)
    requires WellFormed(st) && DistinctScreeningIds(st)
    ensures PointsIntoMovies(LiveScreenings(st), st.movies)
    ensures var r := DeleteMovie(st, id);
      r.1.None? ==>
        && LiveScreenings(r.0) == KeepScreenings(LiveScreenings(st), st.movies, id)
        && forall k :: 0 <= k < st.screeningCount && st.movies[st.screenings[k].movie].id != id ==>
             st.screenings[k] in LiveScreenings(r.0)
  {
    PurgeScreeningsFilters(st, id, 0);
    var live := LiveScreenings(st);
    assert live[..0] == [] && live[0..] == live;
    KeepScreeningsMembers(live, st.movies, id);
    var r := DeleteMovie(st, id);
    if r.1.None? {
      assert r.0.screenings == PurgeScreenings(st, id, 0).screenings;
      assert r.0.screeningCount == PurgeScreenings(st, id, 0).screeningCount;
      forall k | 0 <= k < st.screeningCount && st.movies[st.screenings[k].movie].id != id
        ensures st.screenings[k] in LiveScreenings(r.0)
      {
        assert live[k] == st.screenings[k];
      }
    }
  }

  /** Two movies, ids 1 and 2, and one screening (id 1) of the first; no bookings. */
  function TwoMoviesOneScreening(): (st: State)
    ensures WellFormed(st) && st.movieCount == 2 && st.screeningCount == 1 && st.bookingCount == 0
  {
    State(seq(MaxMovies, k => if k == 0 then Movie(1, "A", "", 90, 5.0) else if k == 1 then Movie(2, "B", "", 90, 5.0) else NoMovie), 2,
          seq(MaxScreenings, k => ScreeningRec(if k == 0 then 1 else 0, 0, "", "", AllSeatsFree())), 1,
          seq(MaxBookings, _ => NoBooking), 0)
  }

  /** The earlier variant's `deleteMovie` shifts the movies before the
      cascade, so the cascade reads movie 2 through the pointer of movie 1's
      screening: deleting movie 1 succeeds and leaves its screening live. The
      later variant deletes that screening. */
  lemma CompactFirstKeepsDeletedMoviesScreening()
    ensures var st := TwoMoviesOneScreening();
      var r := DeleteMovieCompactFirst(st, 1);
      && r.1 == None && r.0.screeningCount == 1 && st.movies[r.0.screenings[0].movie].id == 1
      && DeleteMovie(st, 1).0.screeningCount == 0
  {
    var st := TwoMoviesOneScreening();
    assert MovieIds(st)[0] == 1;
    FirstIndexOfIsFirst(MovieIds(st), 1, 0);
    var c := DropMovie(st, 0);
    assert c.movies[0].id == 2;
    assert PurgeScreenings(c, 1, 1) == c;
    assert DeleteMovieCompactFirst(st, 1).0 == PurgeScreenings(c, 1, 0);
    DeleteMovieCascadeComplete(st, 1);
  }

  // ------------------------------------------------------------ screenings

  /** `addScreening` checks the limit first and the movie id second, and
      either check failing changes nothing; on success the screening appended
      at the old count has id count + 1, points at the first live movie with
      the id, and has every seat free. */
  lemma AddScreeningAppends(st: State, movieId: int, datetime: string, hall: string)
    requires WellFormed(st)
    ensures var r := AddScreening(st, movieId, datetime, hall);
      && (r.1 == Some(ScreeningLimitReached) <==> st.screeningCount >= MaxScreenings)
      && (r.1 == Some(MovieNotFoundForScreening) <==>
            st.screeningCount < MaxScreenings && forall k :: 0 <= k < st.movieCount ==> st.movies[k].id != movieId)
      && (r.1.Some? ==> r.0 == st)
      && (r.1.None? ==>
            var m := r.0.screenings[st.screeningCount].movie;
            && r.0.screeningCount == st.screeningCount + 1
            && r.0.screenings == st.screenings[st.screeningCount := ScreeningRec(st.screeningCount + 1, m, datetime, hall, AllSeatsFree())]
            && m < st.movieCount && st.movies[m].id == movieId
            && (forall n :: InRange(n) ==> IsFree(r.0.screenings[st.screeningCount].seats, n)))
  {
    assert forall k :: 0 <= k < st.movieCount ==> MovieIds(st)[k] == st.movies[k].id;
  }

  /** `editScreening` checks the screening id before the movie id, and either
      failing changes nothing. On success the first live slot with the id is
      rebuilt with the same id, the first live movie with `movieId`, the new
      date-time and hall, and every seat free again, including seats that live
      bookings of that slot still list as theirs. */
  lemma EditScreeningFreesHeldSeats(st: State, id: int, movieId: int, datetime: string, hall: string)
    requires WellFormed(st)
    ensures var r := EditScreening(st, id, movieId, datetime, hall);
      && (r.1 == Some(ScreeningNotFound) <==> forall k :: 0 <= k < st.screeningCount ==> st.screenings[k].id != id)
      && (r.1 == Some(MovieNotFoundForScreening) <==>
            && (exists k :: 0 <= k < st.screeningCount && st.screenings[k].id == id)
            && forall k :: 0 <= k < st.movieCount ==> st.movies[k].id != movieId)
      && (r.1.Some? ==> r.0 == st)
      && (r.1.None? ==>
            var s := FirstIndexOf(ScreeningIds(st), id).value;
            var m := FirstIndexOf(MovieIds(st), movieId).value;
            && s < st.screeningCount && st.screenings[s].id == id
            && (forall k :: 0 <= k < s ==> st.screenings[k].id != id)
            && m < st.movieCount && st.movies[m].id == movieId
            && (forall k :: 0 <= k < m ==> st.movies[k].id != movieId)
            && r.0.screenings[s] == ScreeningRec(id, m, datetime, hall, AllSeatsFree())
            && (forall k :: 0 <= k < MaxScreenings && k != s ==> r.0.screenings[k] == st.screenings[k])
            && r.0.movies == st.movies && r.0.movieCount == st.movieCount
            && r.0.screeningCount == st.screeningCount
            && r.0.bookings == st.bookings && r.0.bookingCount == st.bookingCount
            && (forall k :: 0 <= k < st.bookingCount && st.bookings[k].screening == s ==>
                  forall j :: 0 <= j < |st.bookings[k].seats| && InRange(st.bookings[k].seats[j]) ==>
                    IsFree(r.0.screenings[s].seats, st.bookings[k].seats[j])))
  {
    assert forall k :: 0 <= k < st.screeningCount ==> ScreeningIds(st)[k] == st.screenings[k].id;
    assert forall k :: 0 <= k < st.movieCount ==> MovieIds(st)[k] == st.movies[k].id;
    match FirstIndexOf(ScreeningIds(st), id)
    case None =>
    case Some(s) => assert st.screenings[s].id == id;
  }

  /** The bookings kept by the booking loop of `deleteScreening`: those whose
      screening pointer does not read `id`, in their original order. */
  function KeepOff(bs: seq<Booking>, slotIds: seq<int>, id: int): (r: seq<Booking>)
    requires PointsBelow(bs, |slotIds|)
    ensures PointsBelow(r, |slotIds|) && |r| <= |bs|
    decreases |bs|
  {
    if |bs| == 0 then []
    else if slotIds[bs[0].screening] == id then KeepOff(bs[1..], slotIds, id)
    else [bs[0]] + KeepOff(bs[1..], slotIds, id)
  }

  /** `KeepOff` keeps exactly the bookings that point at a slot whose id is
      not `id`. */
  lemma {:induction false} KeepOffMembers(bs: seq<Booking>, slotIds: seq<int>, id: int)
    requires PointsBelow(bs, |slotIds|)
    ensures forall b :: b in KeepOff(bs, slotIds, id) <==> b in bs && slotIds[b.screening] != id
    decreases |bs|
  {
    if |bs| > 0 {
      KeepOffMembers(bs[1..], slotIds, id);
      assert bs == [bs[0]] + bs[1..];
    }
  }

  /** Cancelling live booking `i` removes exactly that entry from the live
      bookings and leaves every screening slot's id alone. */
  lemma CancelBookingAtRemoves(st: State, i: nat)
    requires WellFormed(st) && i < st.bookingCount
    ensures LiveBookings(CancelBookingAt(st, i)) == LiveBookings(st)[..i] + LiveBookings(st)[i + 1..]
    ensures SlotIds(CancelBookingAt(st, i)) == SlotIds(st)
  {
    var r := CancelBookingAt(st, i);
    assert r.bookings == ShiftLeft(st.bookings, i, st.bookingCount);
  }

  /** Unfolding of `KeepOff` at the head of a slice. */
  lemma KeepOffStep(live: seq<Booking>, slotIds: seq<int>, id: int, i: nat)
    requires i < |live| && PointsBelow(live, |slotIds|)
    ensures PointsBelow(live[i..], |slotIds|) && PointsBelow(live[i + 1..], |slotIds|)
    ensures KeepOff(live[i..], slotIds, id)
         == (if slotIds[live[i].screening] == id then [] else [live[i]]) + KeepOff(live[i + 1..], slotIds, id)
  {
    assert live[i..][0] == live[i];
    assert live[i..][1..] == live[i + 1..];
  }

  /** One step of the booking loop that cancels booking `i`. */
  lemma PurgeBookingsDropStep(st: State, id: int, i: nat)
    requires WellFormed(st) && i < st.bookingCount && st.screenings[st.bookings[i].screening].id == id
    requires var next := CancelBookingAt(st, i);
      LiveBookings(PurgeBookings(next, id, i))
        == LiveBookings(next)[..i] + KeepOff(LiveBookings(next)[i..], SlotIds(next), id)
    ensures PointsBelow(LiveBookings(st)[i..], |SlotIds(st)|)
    ensures LiveBookings(PurgeBookings(st, id, i)) == LiveBookings(st)[..i] + KeepOff(LiveBookings(st)[i..], SlotIds(st), id)
  {
    var live := LiveBookings(st);
    var ids := SlotIds(st);
    var next := CancelBookingAt(st, i);
    CancelBookingAtRemoves(st, i);
    KeepOffStep(live, ids, id, i);
    assert ids[live[i].screening] == id;
    calc {
      LiveBookings(PurgeBookings(st, id, i));
      LiveBookings(PurgeBookings(next, id, i));
      LiveBookings(next)[..i] + KeepOff(LiveBookings(next)[i..], ids, id);
      { assert LiveBookings(next)[..i] == live[..i];
        assert LiveBookings(next)[i..] == live[i + 1..]; }
      live[..i] + KeepOff(live[i + 1..], ids, id);
      { assert [] + KeepOff(live[i + 1..], ids, id) == KeepOff(live[i + 1..], ids, id); }
      live[..i] + KeepOff(live[i..], ids, id);
    }
  }

  /** One step of the booking loop that keeps booking `i`. */
  lemma PurgeBookingsKeepStep(st: State, id: int, i: nat)
    requires WellFormed(st) && i < st.bookingCount && st.screenings[st.bookings[i].screening].id != id
    requires LiveBookings(PurgeBookings(st, id, i + 1))
        == LiveBookings(st)[..i + 1] + KeepOff(LiveBookings(st)[i + 1..], SlotIds(st), id)
    ensures LiveBookings(PurgeBookings(st, id, i)) == LiveBookings(st)[..i] + KeepOff(LiveBookings(st)[i..], SlotIds(st), id)
  {
    var live := LiveBookings(st);
    var ids := SlotIds(st);
    assert ids[live[i].screening] != id;
    assert PurgeBookings(st, id, i) == PurgeBookings(st, id, i + 1);
    KeepOffKeepsHead(live, ids, id, i);
  }

  /** Moving a kept head from the filtered part to the prefix changes nothing. */
  lemma KeepOffKeepsHead(live: seq<Booking>, slotIds: seq<int>, id: int, i: nat)
    requires i < |live| && PointsBelow(live, |slotIds|) && slotIds[live[i].screening] != id
    ensures PointsBelow(live[i..], |slotIds|) && PointsBelow(live[i + 1..], |slotIds|)
    ensures live[..i + 1] + KeepOff(live[i + 1..], slotIds, id) == live[..i] + KeepOff(live[i..], slotIds, id)
  {
    KeepOffStep(live, slotIds, id, i);
    calc {
      live[..i + 1] + KeepOff(live[i + 1..], slotIds, id);
      { assert live[..i + 1] == live[..i] + [live[i]]; }
      live[..i] + ([live[i]] + KeepOff(live[i + 1..], slotIds, id));
      live[..i] + KeepOff(live[i..], slotIds, id);
    }
  }

  /** The booking loop, from any `i`: the bookings before `i` stay, and of the
      rest exactly those not on the screening stay, in order. */
  lemma {:induction false} PurgeBookingsFilters(st: State, id: int, i: nat)
    requires WellFormed(st) && i <= st.bookingCount
    ensures PointsBelow(LiveBookings(st)[i..], |SlotIds(st)|)
    ensures LiveBookings(PurgeBookings(st, id, i)) == LiveBookings(st)[..i] + KeepOff(LiveBookings(st)[i..], SlotIds(st), id)
    decreases st.bookingCount - i
  {
    var live := LiveBookings(st);
    if i == st.bookingCount {
      assert live[..i] == live && live[i..] == [];
    } else if st.screenings[st.bookings[i].screening].id == id {
      PurgeBookingsFilters(CancelBookingAt(st, i), id, i);
      PurgeBookingsDropStep(st, id, i);
    } else {
      PurgeBookingsFilters(st, id, i + 1);
      PurgeBookingsKeepStep(st, id, i);
    }
  }

  /** `deleteScreening` throws "Screening not found." with nothing changed when
      no live screening has the id. Otherwise no live booking is left whose
      screening pointer read the id, the kept bookings are the old ones in
      order, and the first live slot with the id is removed from the live
      screenings by the order-preserving shift. */
  lemma DeleteScreeningCascade(st: State, id: int)
    requires WellFormed(st)
    ensures PointsBelow(LiveBookings(st), |SlotIds(st)|)
    ensures var r := DeleteScreening(st, id);
      && (r.1.Some? <==> forall k :: 0 <= k < st.screeningCount ==> st.screenings[k].id != id)
      && (r.1.Some? ==> r.0 == st)
      && (r.1.None? ==>
            var idx := FirstIndexOf(ScreeningIds(st), id).value;
            && LiveBookings(r.0) == KeepOff(LiveBookings(st), SlotIds(st), id)
            && (forall k :: 0 <= k < r.0.bookingCount ==> SlotIds(st)[r.0.bookings[k].screening] != id)
            && ScreeningIds(r.0) == ScreeningIds(st)[..idx] + ScreeningIds(st)[idx + 1..]
            && r.0.screeningCount == st.screeningCount - 1)
  {
    var r := DeleteScreening(st, id);
    assert PointsBelow(LiveBookings(st), |SlotIds(st)|);
    if r.1.None? {
      var idx := FirstIndexOf(ScreeningIds(st), id).value;
      DeleteScreeningKeepsBookings(st, id);
      DeleteScreeningIds(st, id, idx);
    }
  }

  /** The bookings part of a successful `deleteScreening`. */
  lemma DeleteScreeningKeepsBookings(st: State, id: int)
    requires WellFormed(st) && DeleteScreening(st, id).1.None?
    ensures PointsBelow(LiveBookings(st), |SlotIds(st)|)
    ensures var r := DeleteScreening(st, id).0;
      && LiveBookings(r) == KeepOff(LiveBookings(st), SlotIds(st), id)
      && (forall k :: 0 <= k < r.bookingCount ==> SlotIds(st)[r.bookings[k].screening] != id)
  {
    PurgeBookingsFilters(st, id, 0);
    assert LiveBookings(st)[0..] == LiveBookings(st) && LiveBookings(st)[..0] == [];
    var r := DeleteScreening(st, id).0;
    var p := PurgeBookings(st, id, 0);
    assert r.bookings == p.bookings && r.bookingCount == p.bookingCount;
    assert LiveBookings(r) == LiveBookings(p);
    KeepOffMembers(LiveBookings(st), SlotIds(st), id);
    forall k | 0 <= k < r.bookingCount
      ensures SlotIds(st)[r.bookings[k].screening] != id
    {
      assert r.bookings[k] == LiveBookings(r)[k] && LiveBookings(r)[k] in LiveBookings(r);
    }
  }

  /** The screening-id part of a successful `deleteScreening`. */
  lemma DeleteScreeningIds(st: State, id: int, idx: nat)
    requires WellFormed(st) && FirstIndexOf(ScreeningIds(st), id) == Some(idx)
    ensures ScreeningIds(DeleteScreening(st, id).0) == ScreeningIds(st)[..idx] + ScreeningIds(st)[idx + 1..]
  {
    var r := DeleteScreening(st, id).0;
    DeleteScreeningShifts(st, id, idx);
    var after, before := ScreeningIds(r), ScreeningIds(st);
    forall k | 0 <= k < |after|
      ensures after[k] == before[if k < idx then k else k + 1]
    {
      var from := if idx <= k < st.screeningCount - 1 then k + 1 else k;
      assert after[k] == r.screenings[k].id == st.screenings[from].id;
    }
    RemovedAt(after, before, idx);
  }

  /** A sequence that reads `b` with the entry at `idx` skipped is `b` with
      that entry removed. */
  lemma RemovedAt<T>(a: seq<T>, b: seq<T>, idx: nat)
    requires idx < |b| && |a| == |b| - 1
    requires forall k :: 0 <= k < |a| ==> a[k] == b[if k < idx then k else k + 1]
    ensures a == b[..idx] + b[idx + 1..]
  {
    var want := b[..idx] + b[idx + 1..];
    forall k | 0 <= k < |a|
      ensures a[k] == want[k]
    {
      if k < idx {
        assert want[k] == b[k];
      } else {
        assert want[k] == b[k + 1];
      }
    }
  }

  // -------------------------------------------------------------- bookings

  /** `addBooking` throws "Booking limit reached." at the limit and "Some seats
      are already booked or invalid." when the claim fails, and then changes
      nothing. Otherwise the booking with id count + 1 and the given seats is
      appended, every requested seat is booked on its screening, and no other
      seat or booking changes. */
  lemma AddBookingClaims(st: State, user: UserRef, slot: nat, seats: seq<int>)
    requires WellFormed(st) && slot < MaxScreenings && |seats| <= MaxSeats
    ensures var r := AddBooking(st, user, slot, seats);
      && (r.1 == Some(BookingLimitReached) <==> st.bookingCount >= MaxBookings)
      && (r.1 == Some(SeatsUnavailable) <==> st.bookingCount < MaxBookings && !AllFree(st.screenings[slot].seats, seats))
      && (r.1.Some? ==> r.0 == st)
      && (r.1.None? ==>
            && LiveBookings(r.0) == LiveBookings(st) + [Booking(st.bookingCount + 1, user, slot, seats)]
            && r.0.screenings[slot].seats == Claimed(st.screenings[slot].seats, seats)
            && (forall j :: 0 <= j < |seats| ==> !IsFree(r.0.screenings[slot].seats, seats[j]))
            && (forall k :: 0 <= k < MaxScreenings && k != slot ==> r.0.screenings[k] == st.screenings[k])
            && SameCatalog(st, r.0))
  {
  }

  /** `cancelBookingByIndex` releases every seat of the booking on the
      screening it points at, touches no other screening, and removes exactly
      that entry, keeping the order of the others. */
  lemma CancelBookingFrees(st: State, i: nat)
    requires WellFormed(st) && i < st.bookingCount
    ensures var r := CancelBookingAt(st, i); var b := st.bookings[i];
      && LiveBookings(r) == LiveBookings(st)[..i] + LiveBookings(st)[i + 1..]
      && r.screenings[b.screening].seats == Released(st.screenings[b.screening].seats, b.seats)
      && (forall j :: 0 <= j < |b.seats| && InRange(b.seats[j]) ==> IsFree(r.screenings[b.screening].seats, b.seats[j]))
      && (forall k :: 0 <= k < MaxScreenings && k != b.screening ==> r.screenings[k] == st.screenings[k])
  {
  }

  /** `changeBooking` claims before it releases. When the claim on the new
      screening fails it throws and nothing changes: the old seats stay
      booked and the booking keeps its screening and seats. When it succeeds
      the new seats are claimed on the new screening, the old seats are then
      released on the old one, and the booking holds exactly the new
      screening and seat list with its id and owner unchanged. */
  lemma ChangeBookingClaimsBeforeRelease(st: State, b: nat, newSlot: nat, newSeats: seq<int>)
    requires WellFormed(st) && b < MaxBookings && newSlot < MaxScreenings && |newSeats| <= MaxSeats
    ensures var r := ChangeBooking(st, b, newSlot, newSeats); var bk := st.bookings[b]; var from := bk.screening;
      && (r.1.None? <==> AllFree(st.screenings[newSlot].seats, newSeats))
      && (r.1.Some? ==> r == (st, Some(ModifiedSeatsUnavailable)))
      && (r.1.None? ==>
            && r.0.bookings == st.bookings[b := Booking(bk.id, bk.user, newSlot, newSeats)]
            && r.0.bookingCount == st.bookingCount && SameCatalog(st, r.0)
            && (forall k :: 0 <= k < MaxScreenings && k != newSlot && k != from ==> r.0.screenings[k] == st.screenings[k])
            && (newSlot != from ==>
                  && r.0.screenings[newSlot].seats == Claimed(st.screenings[newSlot].seats, newSeats)
                  && r.0.screenings[from].seats == Released(st.screenings[from].seats, bk.seats))
            && (newSlot == from ==>
                  r.0.screenings[from].seats == Released(Claimed(st.screenings[from].seats, newSeats), bk.seats)))
  {
  }

  /** When the booking holds its old seats, a successful change loses none of
      the newly requested seats, even on the same screening: each new seat is
      booked afterwards, and each old seat is free unless it was requested
      again on the same screening. */
  lemma ChangeBookingKeepsNewSeats(st: State, b: nat, newSlot: nat, newSeats: seq<int>)
    requires WellFormed(st) && b < MaxBookings && newSlot < MaxScreenings && |newSeats| <= MaxSeats
    requires var bk := st.bookings[b];
      forall j :: 0 <= j < |bk.seats| ==> !IsFree(st.screenings[bk.screening].seats, bk.seats[j])
    requires AllFree(st.screenings[newSlot].seats, newSeats)
    ensures var r := ChangeBooking(st, b, newSlot, newSeats).0; var bk := st.bookings[b];
      && (forall j :: 0 <= j < |newSeats| ==> !IsFree(r.screenings[newSlot].seats, newSeats[j]))
      && (forall j :: 0 <= j < |bk.seats| && InRange(bk.seats[j]) && (newSlot != bk.screening || bk.seats[j] !in newSeats) ==>
            IsFree(r.screenings[bk.screening].seats, bk.seats[j]))
  {
    var r := ChangeBooking(st, b, newSlot, newSeats).0;
    var bk := st.bookings[b];
    var s := st.screenings[newSlot].seats;
    forall j | 0 <= j < |newSeats|
      ensures !IsFree(r.screenings[newSlot].seats, newSeats[j])
    {
      assert IsFree(s, newSeats[j]);
    }
  }

  // ---------------------------------------------------------------- report

  /** The report accumulation splits over a concatenation. */
  lemma {:induction false} SeatsForAppend(a: seq<Booking>, b: seq<Booking>, slotMovie: seq<int>, movieId: int)
    requires PointsBelow(a, |slotMovie|) && PointsBelow(b, |slotMovie|)
    ensures PointsBelow(a + b, |slotMovie|)
    ensures SeatsFor(a + b, slotMovie, movieId) == SeatsFor(a, slotMovie, movieId) + SeatsFor(b, slotMovie, movieId)
    decreases |b|
  {
    assert PointsBelow(a + b, |slotMovie|);
    if |b| == 0 {
      assert a + b == a;
    } else {
      SeatsForAppend(a, b[..|b| - 1], slotMovie, movieId);
      assert (a + b)[..|a + b| - 1] == a + b[..|b| - 1];
    }
  }

  /** The report's accumulation is 0 when no booking's screening reads the
      movie id, and is at least the seat count of each booking that does. */
  lemma {:induction false} SeatsForCounts(bs: seq<Booking>, slotMovie: seq<int>, movieId: int)
    requires PointsBelow(bs, |slotMovie|)
    ensures (forall k :: 0 <= k < |bs| ==> slotMovie[bs[k].screening] != movieId) ==> SeatsFor(bs, slotMovie, movieId) == 0
    ensures forall k :: 0 <= k < |bs| && slotMovie[bs[k].screening] == movieId ==> |bs[k].seats| <= SeatsFor(bs, slotMovie, movieId)
    decreases |bs|
  {
    if |bs| > 0 {
      var init := bs[..|bs| - 1];
      assert forall k :: 0 <= k < |init| ==> init[k] == bs[k];
      SeatsForCounts(init, slotMovie, movieId);
    }
  }

  /** The figure `generateMovieReport` prints for a movie is 0 when no live
      booking is of that movie, and is at least the seat count of each live
      booking that is. */
  lemma BookedSeatsCounts(st: State, movieId: int)
    requires WellFormed(st)
    ensures (forall k :: 0 <= k < st.bookingCount ==> st.movies[st.screenings[st.bookings[k].screening].movie].id != movieId)
      ==> BookedSeats(st, movieId) == 0
    ensures forall k :: 0 <= k < st.bookingCount && st.movies[st.screenings[st.bookings[k].screening].movie].id == movieId ==>
      |st.bookings[k].seats| <= BookedSeats(st, movieId)
  {
    assert forall k :: 0 <= k < st.bookingCount ==> LiveBookings(st)[k] == st.bookings[k];
    assert forall k :: 0 <= k < MaxScreenings ==> SlotMovieIds(st)[k] == st.movies[st.screenings[k].movie].id;
    SeatsForCounts(LiveBookings(st), SlotMovieIds(st), movieId);
  }

  /** One more booking of the accumulation, taken from a longer sequence. */
  lemma SeatsForStep(bs: seq<Booking>, j: nat, slotMovie: seq<int>, movieId: int)
    requires PointsBelow(bs, |slotMovie|) && j < |bs|
    ensures PointsBelow(bs[..j], |slotMovie|) && PointsBelow(bs[..j + 1], |slotMovie|)
    ensures SeatsFor(bs[..j + 1], slotMovie, movieId)
         == SeatsFor(bs[..j], slotMovie, movieId) + (if slotMovie[bs[j].screening] == movieId then |bs[j].seats| else 0)
  {
    assert bs[..j + 1][..j] == bs[..j];
  }

  /** Each booking adds between 0 and 30 seats to the figure. */
  lemma {:induction false} SeatsForBounded(bs: seq<Booking>, slotMovie: seq<int>, movieId: int)
    requires PointsBelow(bs, |slotMovie|)
    requires forall k :: 0 <= k < |bs| ==> |bs[k].seats| <= MaxSeats
    ensures 0 <= SeatsFor(bs, slotMovie, movieId) <= MaxSeats * |bs|
    decreases |bs|
  {
    if |bs| > 0 {
      SeatsForBounded(bs[..|bs| - 1], slotMovie, movieId);
    }
  }

  /** The report figure is at most 30 * 200 = 6000, so the C++ `int`
      accumulator cannot overflow. */
  lemma BookedSeatsFitsInt(st: State, movieId: int)
    requires WellFormed(st)
    ensures 0 <= BookedSeats(st, movieId) <= MaxSeats * MaxBookings
  {
    SeatsForBounded(LiveBookings(st), SlotMovieIds(st), movieId);
  }

  /** A successful `addBooking` raises the figure of the movie its screening
      reads by the number of seats booked, and no other movie's figure. */
  lemma AddBookingRaisesReport(st: State, user: UserRef, slot: nat, seats: seq<int>, movieId: int)
    requires WellFormed(st) && slot < MaxScreenings && |seats| <= MaxSeats
    requires AddBooking(st, user, slot, seats).1.None?
    ensures BookedSeats(AddBooking(st, user, slot, seats).0, movieId)
         == BookedSeats(st, movieId) + (if SlotMovieIds(st)[slot] == movieId then |seats| else 0)
  {
    var r := AddBooking(st, user, slot, seats).0;
    var live := LiveBookings(st);
    assert LiveBookings(r) == live + [Booking(st.bookingCount + 1, user, slot, seats)];
    assert SlotMovieIds(r) == SlotMovieIds(st);
    assert (live + [Booking(st.bookingCount + 1, user, slot, seats)])[..|live|] == live;
  }

  /** `cancelBookingByIndex` lowers the figure of the movie the booking's
      screening reads by the booking's seat count, and no other movie's figure. */
  lemma CancelBookingLowersReport(st: State, i: nat, movieId: int)
    requires WellFormed(st) && i < st.bookingCount
    ensures var b := st.bookings[i];
      BookedSeats(CancelBookingAt(st, i), movieId)
        == BookedSeats(st, movieId) - (if SlotMovieIds(st)[b.screening] == movieId then |b.seats| else 0)
  {
    var r := CancelBookingAt(st, i);
    var live := LiveBookings(st);
    var sm := SlotMovieIds(st);
    assert SlotMovieIds(r) == sm;
    assert LiveBookings(r) == live[..i] + live[i + 1..];
    assert PointsBelow(live, |sm|);
    SeatsForRemove(live, i, sm, movieId);
  }

  /** Dropping entry `i` from the accumulation subtracts that entry's share. */
  lemma SeatsForRemove(bs: seq<Booking>, i: nat, slotMovie: seq<int>, movieId: int)
    requires PointsBelow(bs, |slotMovie|) && i < |bs|
    ensures PointsBelow(bs[..i] + bs[i + 1..], |slotMovie|)
    ensures SeatsFor(bs[..i] + bs[i + 1..], slotMovie, movieId)
         == SeatsFor(bs, slotMovie, movieId) - (if slotMovie[bs[i].screening] == movieId then |bs[i].seats| else 0)
  {
    var a, b, x := bs[..i], bs[i + 1..], bs[i];
    var c := a + [x];
    assert c + b == bs;
    SeatsForAppend(a, [x], slotMovie, movieId);
    assert [x][..0] == [];
    assert SeatsFor([x], slotMovie, movieId) == if slotMovie[x.screening] == movieId then |x.seats| else 0;
    SeatsForAppend(c, b, slotMovie, movieId);
    SeatsForAppend(a, b, slotMovie, movieId);
  }
}
