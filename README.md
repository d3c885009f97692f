# Cinema booking engine — a verified model

This project models the seat inventory and reservation engine of a console
cinema-booking program written in C++. The program exists in two variants:
`INTEPROG-FINALS-CINEMA_BOOKING_SYSTEM.cpp` (the later one) and
`SYSTEMTRY.cpp` (the earlier one). The model follows the later variant. Where
the earlier one behaves differently (`isNumber`, the order of work in
`deleteMovie`), both behaviours are modelled.

The engine consists of these parts:

- **Seat map.** Each `Screening` owns a fixed buffer `bool seats[30]`, where
  `true` means booked. Seat numbers are 1-based.
  - `isSeatAvailable` tests one seat.
  - `bookSeats` validates every requested number, then commits them all, or
    fails and changes nothing.
  - `cancelSeats` frees the requested seats that are in range.
- **Booking change.** `Booking::changeBooking` claims the new seats on the new
  screening first. Only after that succeeds does it release the old seats and
  repoint the booking.
- **Registry.** `CinemaBookingSystem` keeps three fixed arrays (50 movies, 100
  screenings, 200 bookings), each with a count of live entries.
  - Ids are `count + 1`.
  - Lookups are linear scans by id.
  - Deletes compact the array by a left shift.
  - Deleting a screening cancels its bookings. Deleting a movie deletes its
    screenings.
  - `generateMovieReport` sums the booked seats of each movie.
- **Input helpers.** `isNumber`, which the front end calls on every id,
  count, seat number and duration it reads, and `toUpperStr`, which the program defines but never calls.

## How the model is organised

| module | file | what it holds |
|---|---|---|
| `Text` | `text.dfy` | `isNumber` in both variants and `toUpperStr`, as loops proved against predicates |
| `SeatMap` | `seatmap.dfy` | what the seat operations mean on a `seq<bool>`, and lemmas about claim and release |
| `Ledger` | `ledger.dfy` | the registry's whole state as a value, with one function per engine operation |
| `LedgerFacts` | `ledger_facts.dfy` | lemmas about those functions: error cases, cascades, claim-before-release, the report |
| `Screenings` | `screening.dfy` | class `Screening`, whose `array<bool>` seat buffer its methods update in place |
| `CinemaSystem` | `system.dfy` | class `CinemaBookingSystem`, with the three arrays and the counts |

Each state-changing method of `CinemaBookingSystem` is proved to have exactly
the effect of its `Ledger` function on the abstract state `Abs()`. The
`LedgerFacts` lemmas then say what those functions guarantee.

How the C++ pointers are modelled:

- A pointer into an array is the index of the slot it points at.
  - `Screening::movie` is a movie slot. The null pointer of a never-used
    screening is slot 0.
  - `Booking::screening` is a screening slot.
- A pointer is read through the array as the array is at the time of the read.
  So, as in the C++, a pointer whose slot has been shifted sees the entry that
  moved into that slot.
- Dead slots (at or past a count) keep their last contents, because stale
  pointers can still read them.
- Shifting the movie array does not update the screenings' movie pointers. So
  after `deleteMovie`, a kept screening of a movie stored after the deleted
  one reads the movie that moved into its slot. Likewise, after a screening
  is deleted, a booking of a later screening reads the screening that moved
  into its slot, so a later cascade over that movie can cancel it. The model
  reproduces both (`LedgerFacts.DeleteMovieKeepsOthers` states the first).
- Screenings are stored by value. `screenings[i] = screenings[i + 1]` is a
  field-by-field copy into slot `i`'s own object (`Screening.CopyFrom`), so no
  two slots ever share a seat buffer.

## Model

Cited lines are from `INTEPROG-FINALS-CINEMA_BOOKING_SYSTEM.cpp` unless the
cell names `SYSTEMTRY.cpp`.

| member | source | states |
|---|---|---|
| Text.IsNumber | INTEPROG-FINALS-CINEMA_BOOKING_SYSTEM.cpp:28-34 | true exactly when the line is non-empty and every character is a digit |
| Text.IsNumberAcceptingEmpty | SYSTEMTRY.cpp:20-25 | true exactly when every character is a digit; the empty line is accepted |
| Text.ToUpper | INTEPROG-FINALS-CINEMA_BOOKING_SYSTEM.cpp:39 | the result is never a lower-case letter; only lower-case letters change; a letter maps to its upper-case form, 32 code points lower |
| Text.ToUpperStr | INTEPROG-FINALS-CINEMA_BOOKING_SYSTEM.cpp:36-42 | the in-place loop returns a string of the same length, upper-cased character by character |
| Text.UpperCasedIdempotent | INTEPROG-FINALS-CINEMA_BOOKING_SYSTEM.cpp:36-42 | upper-casing twice gives the same string as upper-casing once |
| SeatMap.AllSeatsFree | INTEPROG-FINALS-CINEMA_BOOKING_SYSTEM.cpp:121-129 | a constructed screening has 30 seats and every one of them is free |
| SeatMap.SingleSeatClaimable | INTEPROG-FINALS-CINEMA_BOOKING_SYSTEM.cpp:137-151 | a one-seat request passes the validation pass of `bookSeats` exactly when `isSeatAvailable` reports the seat free |
| SeatMap.ClaimBooksExactlyRequested | INTEPROG-FINALS-CINEMA_BOOKING_SYSTEM.cpp:142-151 | after a successful claim, a seat is free exactly when it was free before and was not requested |
| SeatMap.ReleaseFreesRequested | INTEPROG-FINALS-CINEMA_BOOKING_SYSTEM.cpp:153-158 | after a release, a seat is free exactly when it was free before or was requested |
| SeatMap.ReleaseIdempotent | INTEPROG-FINALS-CINEMA_BOOKING_SYSTEM.cpp:153-158 | releasing the same seats twice gives the same map as releasing them once |
| SeatMap.ReleaseUndoesClaim | INTEPROG-FINALS-CINEMA_BOOKING_SYSTEM.cpp:142-158 | releasing the seats of a successful claim restores the map exactly |
| SeatMap.DuplicateSeatsAccepted | INTEPROG-FINALS-CINEMA_BOOKING_SYSTEM.cpp:142-151 | a request naming one free seat twice passes validation and books that seat once |
| Screenings.Screening.constructor | INTEPROG-FINALS-CINEMA_BOOKING_SYSTEM.cpp:121-124 | the default screening has id 0, the null movie, empty strings and 30 free seats in a fresh buffer |
| Screenings.Screening.IsSeatAvailable | INTEPROG-FINALS-CINEMA_BOOKING_SYSTEM.cpp:137-140 | true exactly when the number is in 1..30 and that seat is not booked |
| Screenings.Screening.BookSeats | INTEPROG-FINALS-CINEMA_BOOKING_SYSTEM.cpp:142-151 | succeeds exactly when every requested seat is in range and free; on success the buffer is the claimed map, on failure it is unchanged |
| Screenings.Screening.CancelSeats | INTEPROG-FINALS-CINEMA_BOOKING_SYSTEM.cpp:153-158 | the buffer becomes the released map; out-of-range numbers change nothing |
| Screenings.Screening.CopyFrom | INTEPROG-FINALS-CINEMA_BOOKING_SYSTEM.cpp:404-406 | the copy assignment used by the shift: this slot becomes equal to the source slot, and the source is unchanged |
| Screenings.Screening.Reinitialize | INTEPROG-FINALS-CINEMA_BOOKING_SYSTEM.cpp:383 | the slot is rebuilt with the given id, movie, date-time and hall, and every seat is free |
| Ledger.Initial | INTEPROG-FINALS-CINEMA_BOOKING_SYSTEM.cpp:281 | the starting state is well formed, with all three counts zero |
| Ledger.FirstIndexOf | INTEPROG-FINALS-CINEMA_BOOKING_SYSTEM.cpp:363-368 | a found index holds the id and no earlier index does; not found means no index holds it |
| Ledger.ShiftLeft | INTEPROG-FINALS-CINEMA_BOOKING_SYSTEM.cpp:404-407 | the compaction moves every slot from idx to count-2 down by one; the live prefix becomes the old one without idx; the other slots are untouched |
| Ledger.AddMovie | INTEPROG-FINALS-CINEMA_BOOKING_SYSTEM.cpp:314-318 | the new state stays well formed: fixed array sizes, counts within them, pointers into the arrays; what it appends and when it throws is in LedgerFacts.AddMovieAppends |
| Ledger.EditMovie | INTEPROG-FINALS-CINEMA_BOOKING_SYSTEM.cpp:320-327 | the new state stays well formed; the error iff and what changes are in LedgerFacts.EditMovieKeepsIdentity |
| Ledger.DeleteMovie | INTEPROG-FINALS-CINEMA_BOOKING_SYSTEM.cpp:329-351 | succeeds exactly when a live movie has the id, and then removes one movie; otherwise it throws "Movie not found." and changes nothing |
| Ledger.DeleteMovieCompactFirst | SYSTEMTRY.cpp:312-333 | the earlier order succeeds exactly when a live movie has the id, and then removes one movie; otherwise it throws "Movie not found." and changes nothing; which movie goes is in LedgerFacts.DeleteMovieCompactFirstRemovesOne |
| Ledger.PurgeScreenings | INTEPROG-FINALS-CINEMA_BOOKING_SYSTEM.cpp:339-345 | the screening loop keeps the movies, the movie count and well-formedness, and never adds screenings |
| Ledger.DeleteScreening | INTEPROG-FINALS-CINEMA_BOOKING_SYSTEM.cpp:386-408 | succeeds exactly when a live screening has the id, and then removes one screening; otherwise it throws "Screening not found." and changes nothing; the movies are never touched |
| Ledger.AddScreening | INTEPROG-FINALS-CINEMA_BOOKING_SYSTEM.cpp:370-376 | the new state stays well formed; both errors and the appended slot are in LedgerFacts.AddScreeningAppends |
| Ledger.EditScreening | INTEPROG-FINALS-CINEMA_BOOKING_SYSTEM.cpp:378-384 | the new state stays well formed; both errors and the rebuilt slot are in LedgerFacts.EditScreeningFreesHeldSeats |
| Ledger.PurgeBookings | INTEPROG-FINALS-CINEMA_BOOKING_SYSTEM.cpp:396-402 | the booking loop never adds bookings, keeps the catalogue, and leaves the seat maps of other screenings' slots unchanged |
| Ledger.CancelBookingAt | INTEPROG-FINALS-CINEMA_BOOKING_SYSTEM.cpp:460-466 | a cancel keeps the catalogue and lowers the booking count by one |
| Ledger.AddBooking | INTEPROG-FINALS-CINEMA_BOOKING_SYSTEM.cpp:439-444 | the new state stays well formed; both errors and the claim are in LedgerFacts.AddBookingClaims |
| Ledger.ChangeBooking | INTEPROG-FINALS-CINEMA_BOOKING_SYSTEM.cpp:231-240 | the new state stays well formed; the error iff and the claim-then-release are in LedgerFacts.ChangeBookingClaimsBeforeRelease |
| Ledger.FindBookingIndex | INTEPROG-FINALS-CINEMA_BOOKING_SYSTEM.cpp:453-458 | -1 exactly when no live booking has the id; otherwise the first live index that holds it |
| Ledger.SeatsFor | INTEPROG-FINALS-CINEMA_BOOKING_SYSTEM.cpp:497-502 | the accumulated total is never negative; its other bounds are in LedgerFacts.SeatsForCounts |
| LedgerFacts.FirstIndexOfIsFirst | INTEPROG-FINALS-CINEMA_BOOKING_SYSTEM.cpp:363-368 | an index holding the id with no earlier index holding it is the one the scan returns |
| LedgerFacts.AddMovieAppends | INTEPROG-FINALS-CINEMA_BOOKING_SYSTEM.cpp:314-318 | fails with "Movie limit reached." exactly at 50 movies, changing nothing; otherwise appends the movie with id count+1, which a lookup then finds, and leaves the screenings, the bookings and their counts unchanged |
| LedgerFacts.MovieIdsCanRepeat | INTEPROG-FINALS-CINEMA_BOOKING_SYSTEM.cpp:316 | add, add, delete the first, add: two live movies then share id 2 |
| LedgerFacts.EditMovieKeepsIdentity | INTEPROG-FINALS-CINEMA_BOOKING_SYSTEM.cpp:320-327 | fails with "Movie not found." exactly when no live movie has the id; otherwise only the first match's name, genre, duration and cost change; every movie id, the movie count, the screenings, the bookings and their counts stay the same |
| LedgerFacts.DeleteMovieRemovesOne | INTEPROG-FINALS-CINEMA_BOOKING_SYSTEM.cpp:347-350 | a successful delete leaves the live movies that were there, in order, without the first match |
| LedgerFacts.DeleteMovieCompactFirstRemovesOne | SYSTEMTRY.cpp:321-324 | a successful delete in the earlier order leaves the live movies that were there, in order, without the first match |
| LedgerFacts.DeleteMovieKeepsOthers | INTEPROG-FINALS-CINEMA_BOOKING_SYSTEM.cpp:329-351 | when live screening ids are distinct, a successful delete leaves exactly the live screenings whose movie is not the deleted one, in order; each keeps its id, movie slot, date-time, hall and seat map, so every other movie's screening survives |
| LedgerFacts.PurgeScreeningsFilters | INTEPROG-FINALS-CINEMA_BOOKING_SYSTEM.cpp:339-345 | when ids are distinct, the screening loop from index i keeps the screenings before i and, of the rest, exactly those of other movies, records unchanged and in order |
| LedgerFacts.KeepScreeningsMembers | INTEPROG-FINALS-CINEMA_BOOKING_SYSTEM.cpp:339-345 | the screening filter keeps exactly the screenings whose movie pointer does not read the id |
| LedgerFacts.DeleteScreeningLive | INTEPROG-FINALS-CINEMA_BOOKING_SYSTEM.cpp:386-408 | when ids are distinct, deleting the screening in live slot idx leaves every other live screening record exactly as it was, in order |
| LedgerFacts.DeleteMovieCascadeComplete | INTEPROG-FINALS-CINEMA_BOOKING_SYSTEM.cpp:329-351 | when live screening ids are distinct, a successful delete leaves no live screening of the deleted movie; a failed one changes nothing |
| LedgerFacts.PurgeScreeningsComplete | INTEPROG-FINALS-CINEMA_BOOKING_SYSTEM.cpp:339-345 | when ids are distinct, the screening loop removes every live screening whose movie reads the id, from any starting index with a clean prefix |
| LedgerFacts.DeleteKeepsDistinct | INTEPROG-FINALS-CINEMA_BOOKING_SYSTEM.cpp:386-408 | deleting a screening keeps the remaining live screening ids distinct |
| LedgerFacts.CompactFirstKeepsDeletedMoviesScreening | SYSTEMTRY.cpp:312-333 | in a two-movie state, the earlier order leaves movie 1's screening live, while the later order deletes it |
| LedgerFacts.AddScreeningAppends | INTEPROG-FINALS-CINEMA_BOOKING_SYSTEM.cpp:370-376 | "Screening limit reached." is thrown exactly at 100 screenings, then "Movie not found for screening." exactly when the movie is missing; success appends id count+1 pointing at that movie, with every seat free |
| LedgerFacts.EditScreeningFreesHeldSeats | INTEPROG-FINALS-CINEMA_BOOKING_SYSTEM.cpp:378-384 | "Screening not found." exactly when no live screening has the id; "Movie not found for screening." exactly when one does but no live movie has the movie id; either error changes nothing; on success the first matching slot becomes the record with the same id, the first live movie with the movie id, the new date-time and hall, and every seat free, including seats live bookings still hold; nothing else changes |
| LedgerFacts.KeepOffMembers | INTEPROG-FINALS-CINEMA_BOOKING_SYSTEM.cpp:396-402 | the filter keeps exactly those bookings whose screening does not read the id |
| LedgerFacts.PurgeBookingsFilters | INTEPROG-FINALS-CINEMA_BOOKING_SYSTEM.cpp:396-402 | the booking loop, from index i, keeps the prefix and filters the rest, in order |
| LedgerFacts.DeleteScreeningCascade | INTEPROG-FINALS-CINEMA_BOOKING_SYSTEM.cpp:386-408 | not found exactly when no live screening has the id, changing nothing; on success the live bookings are the old ones, in order, without every booking of that screening, and the live ids lose exactly the first match |
| LedgerFacts.DeleteScreeningKeepsBookings | INTEPROG-FINALS-CINEMA_BOOKING_SYSTEM.cpp:396-402 | after a successful delete, no live booking points at a slot that read the deleted id, and every other booking survives |
| LedgerFacts.DeleteScreeningIds | INTEPROG-FINALS-CINEMA_BOOKING_SYSTEM.cpp:404-407 | the live screening ids after a delete are the old ones without the first match |
| LedgerFacts.CancelBookingAtRemoves | INTEPROG-FINALS-CINEMA_BOOKING_SYSTEM.cpp:460-466 | cancelling index i removes exactly booking i from the live bookings, and leaves the screening ids unchanged |
| LedgerFacts.CancelBookingFrees | INTEPROG-FINALS-CINEMA_BOOKING_SYSTEM.cpp:460-466 | a cancel releases the booking's seats on its screening, frees each of them that is in range, and leaves every other screening unchanged |
| LedgerFacts.AddBookingClaims | INTEPROG-FINALS-CINEMA_BOOKING_SYSTEM.cpp:439-444 | "Booking limit reached." is thrown exactly at 200 bookings, then "Some seats are already booked or invalid." exactly when a seat is unavailable, changing nothing; success appends booking count+1 and books its seats on that screening only |
| LedgerFacts.ChangeBookingClaimsBeforeRelease | INTEPROG-FINALS-CINEMA_BOOKING_SYSTEM.cpp:231-240 | fails, changing nothing, exactly when the new seats are not all free; success claims on the new screening, then releases on the old, including when both are the same screening, and repoints only that booking |
| LedgerFacts.ChangeBookingKeepsNewSeats | INTEPROG-FINALS-CINEMA_BOOKING_SYSTEM.cpp:231-240 | after a successful change every new seat is booked, and an old in-range seat is free unless the same screening's new request asks for it |
| LedgerFacts.SeatsForCounts | INTEPROG-FINALS-CINEMA_BOOKING_SYSTEM.cpp:497-502 | the accumulation is 0 when no booking's screening reads the movie id, and is at least the seat count of each booking that does |
| LedgerFacts.BookedSeatsCounts | INTEPROG-FINALS-CINEMA_BOOKING_SYSTEM.cpp:494-505 | a movie's reported total is 0 when no live booking is of that movie, and is at least the seat count of each live booking that is |
| LedgerFacts.BookedSeatsFitsInt | INTEPROG-FINALS-CINEMA_BOOKING_SYSTEM.cpp:497-501 | a movie's reported total lies between 0 and 6000, so the `int` accumulator cannot overflow |
| LedgerFacts.AddBookingRaisesReport | INTEPROG-FINALS-CINEMA_BOOKING_SYSTEM.cpp:439-444 | a successful booking raises its movie's total by its seat count and leaves every other movie's total unchanged |
| LedgerFacts.CancelBookingLowersReport | INTEPROG-FINALS-CINEMA_BOOKING_SYSTEM.cpp:460-466 | a cancel lowers its movie's total by its seat count and leaves every other movie's total unchanged |
| CinemaSystem.CinemaBookingSystem.constructor | INTEPROG-FINALS-CINEMA_BOOKING_SYSTEM.cpp:264-285 | the registry starts empty: every slot holds a default entry and all counts are zero |
| CinemaSystem.CinemaBookingSystem.FindMovieById | INTEPROG-FINALS-CINEMA_BOOKING_SYSTEM.cpp:363-368 | the first live movie slot with the id, or none exactly when no live movie has it |
| CinemaSystem.CinemaBookingSystem.FindScreeningById | INTEPROG-FINALS-CINEMA_BOOKING_SYSTEM.cpp:420-425 | the first live screening slot with the id, or none exactly when no live screening has it |
| CinemaSystem.CinemaBookingSystem.FindBookingIndexById | INTEPROG-FINALS-CINEMA_BOOKING_SYSTEM.cpp:453-458 | -1 exactly when no live booking has the id; otherwise a live index holding it, the one `Ledger.FindBookingIndex` gives |
| CinemaSystem.CinemaBookingSystem.FindBookingById | INTEPROG-FINALS-CINEMA_BOOKING_SYSTEM.cpp:446-451 | the slot of the first live booking with the id, or none exactly when the index lookup gives -1 |
| CinemaSystem.CinemaBookingSystem.AddMovie | INTEPROG-FINALS-CINEMA_BOOKING_SYSTEM.cpp:314-318 | the new state and the error are those of `Ledger.AddMovie` |
| CinemaSystem.CinemaBookingSystem.EditMovie | INTEPROG-FINALS-CINEMA_BOOKING_SYSTEM.cpp:320-327 | the new state and the error are those of `Ledger.EditMovie` |
| CinemaSystem.CinemaBookingSystem.GenerateMovieReport | INTEPROG-FINALS-CINEMA_BOOKING_SYSTEM.cpp:494-505 | one total per live movie, in order; each is `Ledger.BookedSeats` for that movie's id |
| CinemaSystem.CinemaBookingSystem.BookedSeatsOf | INTEPROG-FINALS-CINEMA_BOOKING_SYSTEM.cpp:497-502 | the inner loop's total is the sum of the seat counts of the bookings whose screening's movie reads the id |
| CinemaSystem.CinemaBookingSystem.AddBooking | INTEPROG-FINALS-CINEMA_BOOKING_SYSTEM.cpp:439-444 | the new state and the error are those of `Ledger.AddBooking` |
| CinemaSystem.CinemaBookingSystem.ClaimOn | INTEPROG-FINALS-CINEMA_BOOKING_SYSTEM.cpp:441 | the claim succeeds exactly when every requested seat of the slot is free, and then only that slot's seat map changes, to the claimed map |
| CinemaSystem.CinemaBookingSystem.ReleaseOn | INTEPROG-FINALS-CINEMA_BOOKING_SYSTEM.cpp:461 | only that slot's seat map changes, to the released map |
| CinemaSystem.CinemaBookingSystem.CancelBookingByIndex | INTEPROG-FINALS-CINEMA_BOOKING_SYSTEM.cpp:460-466 | the new state is that of `Ledger.CancelBookingAt` |
| CinemaSystem.CinemaBookingSystem.ShiftBookings | INTEPROG-FINALS-CINEMA_BOOKING_SYSTEM.cpp:462-464 | the booking array becomes its left shift over the index |
| CinemaSystem.CinemaBookingSystem.ChangeBooking | INTEPROG-FINALS-CINEMA_BOOKING_SYSTEM.cpp:231-240 | the new state and the error are those of `Ledger.ChangeBooking` |
| CinemaSystem.CinemaBookingSystem.AddScreening | INTEPROG-FINALS-CINEMA_BOOKING_SYSTEM.cpp:370-376 | the new state and the error are those of `Ledger.AddScreening` |
| CinemaSystem.CinemaBookingSystem.EditScreening | INTEPROG-FINALS-CINEMA_BOOKING_SYSTEM.cpp:378-384 | the new state and the error are those of `Ledger.EditScreening` |
| CinemaSystem.CinemaBookingSystem.CancelBookingsOf | INTEPROG-FINALS-CINEMA_BOOKING_SYSTEM.cpp:396-402 | the new state is that of the booking loop `Ledger.PurgeBookings` from index 0 |
| CinemaSystem.CinemaBookingSystem.ShiftScreenings | INTEPROG-FINALS-CINEMA_BOOKING_SYSTEM.cpp:404-406 | the screening slots, read as values, become their left shift over the index; every slot keeps its own object and buffer |
| CinemaSystem.CinemaBookingSystem.DeleteScreening | INTEPROG-FINALS-CINEMA_BOOKING_SYSTEM.cpp:386-408 | the new state and the error are those of `Ledger.DeleteScreening` |
| CinemaSystem.CinemaBookingSystem.ShiftMovies | INTEPROG-FINALS-CINEMA_BOOKING_SYSTEM.cpp:347-349 | the movie array becomes its left shift over the index |
| CinemaSystem.CinemaBookingSystem.DeleteScreeningsOf | INTEPROG-FINALS-CINEMA_BOOKING_SYSTEM.cpp:339-345 | the new state is that of the screening loop `Ledger.PurgeScreenings` from index 0 |
| CinemaSystem.CinemaBookingSystem.DeleteMovie | INTEPROG-FINALS-CINEMA_BOOKING_SYSTEM.cpp:329-351 | the new state and the error are those of `Ledger.DeleteMovie` |
| CinemaSystem.CinemaBookingSystem.DeleteMovieCompactFirst | SYSTEMTRY.cpp:312-333 | the new state and the error are those of `Ledger.DeleteMovieCompactFirst` |

## Left out

- Console I/O is left out: menus, prompts, `display*` tables, `clearInput`, and
  the `InputException` handlers. The engine's exceptions become the returned
  `Error`, whose texts are in `Ledger.Message`.
- `GenerateMovieReport` returns the totals as a sequence instead of printing
  them, and leaves out the movie names in its output.
- Users are left out: `RegularUser`, `Admin`, credentials, `validateAdmin`, the
  admin setters, `addUser` and `findUserByUsername`. The `RegularUser*` a
  booking stores becomes an opaque number (`UserRef`) that the engine never
  dereferences.
- Ownership checks in the booking menus are left out. They belong to the
  front end, not to the engine.
- `generateRevenueReport` is left out. It computes with `double`.
- `strncpy` truncation of names, genres, date-times and halls is left out:
  strings are stored whole.
- The singleton `getInstance`, the destructor, `new`/`delete`, and the
  `IBookingModificationStrategy` dispatch are left out. The booking change is
  reached directly.
- CinemaSystem.CinemaBookingSystem.ChangeBooking: `Booking::changeBooking` is a
  member of `Booking`. Here it is a registry method that takes the booking's
  slot, because a booking is a value stored in the registry's array.
- Integer width is not modelled. Ids and counts are unbounded.
  `LedgerFacts.BookedSeatsFitsInt` shows that no report total exceeds 6000, so
  the C++ `int` never overflows there.
- Seat numbers are C++ `int`s, modelled as unbounded integers. Negative and
  oversized numbers take the out-of-range branches, as in the source.
- CinemaSystem.CinemaBookingSystem.CancelBookingByIndex requires a live index.
  The C++ does no bounds check, and its only callers pass one.
- CinemaSystem.CinemaBookingSystem.AddBooking, ChangeBooking and the Ledger
  booking functions take a screening slot below 100 and at most 30 seats. The
  C++ receives a `Screening*` that the front end found by lookup. The front
  end also rejects any seat count above the screening's capacity of 30
  (`INTEPROG-FINALS-CINEMA_BOOKING_SYSTEM.cpp` lines 562-566 and 721-725).
- LedgerFacts.DeleteMovieCascadeComplete and LedgerFacts.DeleteMovieKeepsOthers
  require distinct live screening ids.
  Ids are `count + 1`, so after a delete they can repeat
  (`LedgerFacts.MovieIdsCanRepeat` shows this for movies). Then the cascade can
  delete another screening with the same id, or leave one behind. The
  function `Ledger.DeleteMovie` models that behaviour exactly; only the two
  cascade lemmas are narrowed.
- Repeated seat numbers in one request are accepted, as in the source
  (`SeatMap.DuplicateSeatsAccepted`). No lemma claims that they are rejected.
- `editScreening` frees every seat of the slot while its bookings stay
  live. The model keeps that behaviour and states it
  (`LedgerFacts.EditScreeningFreesHeldSeats`). It does not claim that the
  holds survive.
- No invariant relates the seat maps to the union of the bookings' seat lists.
  The source does not keep one: `editScreening` and a stale
  `Booking::screening` pointer both break it.

## Findings

| source | as written | input that shows it | evidently intended | confidence | as-written member | corrected member |
|---|---|---|---|---|---|---|
| SYSTEMTRY.cpp:312-333 | `deleteMovie` shifts the movie array and decrements `movieCount` before the screening loop. The loop reads `getMovie()->getId()` through pointers into the shifted array, so the deleted movie's screenings now read the id of the movie that moved into its slot. | Movies with ids 1 and 2, and one screening of movie 1 in slot 0. `deleteMovie(1)` returns normally and leaves that screening live, pointing at a slot that now holds movie 2. | Delete every screening of the deleted movie, as the later variant does by running the loop before the shift. | not executed | Ledger.DeleteMovieCompactFirst (with LedgerFacts.CompactFirstKeepsDeletedMoviesScreening) | Ledger.DeleteMovie (with LedgerFacts.DeleteMovieCascadeComplete) |
