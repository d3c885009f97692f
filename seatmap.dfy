/**
 * The seat map of one screening, as values. A screening owns `bool
 * seats[MAX_SEATS]` in which `true` means booked; seat numbers are 1-based
 * and seat n is stored at index n - 1. This module gives the meaning of the
 * three seat operations (`isSeatAvailable`, `bookSeats`, `cancelSeats`) on a
 * sequence of booleans, and proves what callers rely on.
 */
module SeatMap {

  /** MAX_SEATS, which is also every screening's seat capacity. */
  const MaxSeats: nat := 30

  /** A seat number that names a seat of a screening. */
  predicate InRange(n: int) {
    1 <= n <= MaxSeats
  }

  /** The seat map of a freshly constructed screening. */
  function AllSeatsFree(): (s: seq<bool>)
    ensures |s| == MaxSeats
    ensures forall n :: InRange(n) ==> !s[n - 1]
  {
    seq(MaxSeats, _ => false)
  }

  /** Seat n can be sold: it is in range and not marked booked. */
  predicate IsFree(seats: seq<bool>, n: int)
    requires |seats| == MaxSeats
  {
    InRange(n) && !seats[n - 1]
  }

  /** The validation pass of `bookSeats`: every requested number is in range
      and free in the map as it was before the call. Repeated numbers are not
      looked for. */
  predicate AllFree(seats: seq<bool>, req: seq<int>)
    requires |seats| == MaxSeats
  {
    forall i :: 0 <= i < |req| ==> IsFree(seats, req[i])
  }

  /** The map after the commit pass of `bookSeats`: every requested seat marked booked. */
  function Claimed(seats: seq<bool>, req: seq<int>): seq<bool> {
    seq(|seats|, k requires 0 <= k < |seats| => if k + 1 in req then true else seats[k])
  }

  /** The map after `cancelSeats`: every requested seat that names an index is
      marked free; numbers outside 1..|seats| name no index and change nothing. */
  function Released(seats: seq<bool>, req: seq<int>): seq<bool> {
    seq(|seats|, k requires 0 <= k < |seats| => if k + 1 in req then false else seats[k])
  }

  /** A single seat passes the validation pass exactly when `isSeatAvailable` says it is free. */
  lemma SingleSeatClaimable(seats: seq<bool>, n: int)
    requires |seats| == MaxSeats
    ensures AllFree(seats, [n]) <==> IsFree(seats, n)
  {
    assert [n][0] == n;
  }

  /** A successful claim books exactly the requested seats: afterwards a seat
      is free iff it was free before and was not requested. */
  lemma ClaimBooksExactlyRequested(seats: seq<bool>, req: seq<int>, n: int)
    requires |seats| == MaxSeats && AllFree(seats, req)
    ensures |Claimed(seats, req)| == MaxSeats
    ensures IsFree(Claimed(seats, req), n) <==> IsFree(seats, n) && n !in req
  {
  }

  /** Releasing frees every requested seat and leaves every other seat as it was. */
  lemma ReleaseFreesRequested(seats: seq<bool>, req: seq<int>, n: int)
    requires |seats| == MaxSeats && InRange(n)
    ensures |Released(seats, req)| == MaxSeats
    ensures IsFree(Released(seats, req), n) <==> IsFree(seats, n) || n in req
  {
  }

  /** Releasing the same seats twice is releasing them once. */
  lemma ReleaseIdempotent(seats: seq<bool>, req: seq<int>)
    ensures Released(Released(seats, req), req) == Released(seats, req)
  {
  }

  /** Releasing what a successful claim booked restores the map: a claim that
      is undone leaves no seat stuck as booked and frees no seat it did not take. */
  lemma ReleaseUndoesClaim(seats: seq<bool>, req: seq<int>)
    requires |seats| == MaxSeats && AllFree(seats, req)
    ensures Released(Claimed(seats, req), req) == seats
  {
    forall k | 0 <= k < MaxSeats
      ensures Released(Claimed(seats, req), req)[k] == seats[k]
    {
      if k + 1 in req {
        var i :| 0 <= i < |req| && req[i] == k + 1;
        assert IsFree(seats, req[i]);
      }
    }
  }

  /** A request that names the same free seat twice is accepted, and books
      that seat once. */
  lemma DuplicateSeatsAccepted(seats: seq<bool>, n: int)
    requires |seats| == MaxSeats && IsFree(seats, n)
    ensures AllFree(seats, [n, n])
    ensures Claimed(seats, [n, n]) == Claimed(seats, [n])
    ensures !IsFree(Claimed(seats, [n, n]), n)
  {
  }
}
