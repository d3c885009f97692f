/**
 * `Screening` as an object: its id, movie pointer, date-time and hall are
 * fields, and its seat map is the fixed buffer `bool seats[MAX_SEATS]`, an
 * array that the seat operations update in place. Each method is proved to
 * have the effect the value-level functions of module SeatMap describe.
 */
module Screenings {
  import opened SeatMap
  import opened Ledger

  class Screening {
    var id: int
    /** The movie slot the `Movie*` points at (0 for the null pointer of a never-used slot). */
    var movie: nat
    var datetime: string
    var hall: string
    /** `seats[n - 1]` is true when seat n is booked. */
    const seats: array<bool>

    /** The seat buffer has the fixed capacity and the movie pointer names a movie slot. */
    ghost predicate Valid()
      reads this
    {
      seats.Length == MaxSeats && movie < MaxMovies
    }

    /** The screening as a value. */
    ghost function Rec(): ScreeningRec
      reads this, seats
    {
      ScreeningRec(id, movie, datetime, hall, seats[..])
    }

    /** `Screening()`: id 0, a null movie pointer, empty strings, every seat free. */
    constructor ()
      ensures Valid() && fresh(seats)
      ensures Rec() == ScreeningRec(0, 0, "", "", AllSeatsFree())
    {
      id := 0;
      movie := 0;
      datetime := "";
      hall := "";
      var a := new bool[MaxSeats];
      var i := 0;
      while i < MaxSeats
        invariant 0 <= i <= MaxSeats
        invariant forall k :: 0 <= k < i ==> !a[k]
      {
        a[i] := false;
        i := i + 1;
      }
      seats := a;
      new;
      assert seats[..] == AllSeatsFree();
    }

    /** `isSeatAvailable`: the seat number is in range and that seat is not booked. */
    method IsSeatAvailable(n: int) returns (r: bool)
      requires Valid()
      ensures r == IsFree(seats[..], n)
      ensures r ==> 1 <= n <= MaxSeats && !seats[n - 1]
    {
      if n < 1 || n > seats.Length {
        return false;
      }
      return !seats[n - 1];
    }

    /** `bookSeats`: a validation pass over every requested number, then a
        commit pass that marks them all booked. Either every requested seat
        is booked or, when one of them is out of range or already booked,
        nothing changes. */
    method BookSeats(req: seq<int>) returns (ok: bool)
      requires Valid()
      modifies seats
      ensures ok <==> AllFree(old(seats[..]), req)
      ensures seats[..] == if ok then Claimed(old(seats[..]), req) else old(seats[..])
    {
      var i := 0;
      while i < |req|
        invariant 0 <= i <= |req|
        invariant forall j :: 0 <= j < i ==> IsFree(seats[..], req[j])
      {
        var s := req[i];
        if s < 1 || s > seats.Length || seats[s - 1] {
          return false;
        }
        i := i + 1;
      }
      ghost var before := seats[..];
      i := 0;
      while i < |req|
        invariant 0 <= i <= |req|
        invariant forall k :: 0 <= k < MaxSeats ==> seats[k] == (before[k] || k + 1 in req[..i])
      {
        assert IsFree(before, req[i]);
        seats[req[i] - 1] := true;
        assert req[..i + 1] == req[..i] + [req[i]];
        i := i + 1;
      }
      assert req[..|req|] == req;
      ok := true;
    }

    /** `cancelSeats`: every requested seat in range is marked free; numbers
        outside the range are skipped. */
    method CancelSeats(req: seq<int>)
      requires Valid()
      modifies seats
      ensures seats[..] == Released(old(seats[..]), req)
    {
      ghost var before := seats[..];
      var i := 0;
      while i < |req|
        invariant 0 <= i <= |req|
        invariant forall k :: 0 <= k < MaxSeats ==> seats[k] == (if k + 1 in req[..i] then false else before[k])
      {
        var s := req[i];
        if s >= 1 && s <= seats.Length {
          seats[s - 1] := false;
        }
        assert req[..i + 1] == req[..i] + [req[i]];
        i := i + 1;
      }
      assert req[..|req|] == req;
    }

    /** The implicit copy assignment `*this = other`: every field and the
        whole seat buffer are copied, so afterwards this screening equals
        what `other` was, and `other` is unchanged. */
    method CopyFrom(other: Screening)
      requires Valid() && other.Valid() && other.seats != seats
      modifies this, seats
      ensures Valid() && Rec() == old(other.Rec()) && other.Rec() == old(other.Rec())
    {
      id := other.id;
      movie := other.movie;
      datetime := other.datetime;
      hall := other.hall;
      forall k | 0 <= k < seats.Length {
        seats[k] := other.seats[k];
      }
    }

    /** `*this = Screening(id, m, datetime, hall)`: the slot is rebuilt with the
        given fields and its constructor frees every seat. */
    method Reinitialize(newId: int, m: nat, dt: string, ch: string)
      requires Valid() && m < MaxMovies
      modifies this, seats
      ensures Valid() && Rec() == ScreeningRec(newId, m, dt, ch, AllSeatsFree())
    {
      var i := 0;
      while i < seats.Length
        invariant 0 <= i <= seats.Length
        invariant forall k :: 0 <= k < i ==> !seats[k]
      {
        seats[i] := false;
        i := i + 1;
      }
      assert seats[..] == AllSeatsFree();
      id := newId;
      movie := m;
      datetime := dt;
      hall := ch;
    }
  }
}
