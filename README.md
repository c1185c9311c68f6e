# Hotel reservation server: reservation book and Lamport mutual exclusion

This project models two sequential components of a distributed hotel
reservation server written in Go, and proves properties of the model in Dafny.

- **The reservation book** (`hotel.dfy`, module `HotelBook`). A hotel holds a
  table of reservations per room (`map<int, seq<Reservation>>`), a number of
  days `maxDays` and a number of rooms `maxRooms`. It has three range checks
  (day, room, night count) and a closed-interval overlap test with early
  return (`IsAlreadyBooked`). `BookRoom` appends a reservation in place.
  `GetFreeRoom` looks for the first free room. `GetRoomsList` gives a per-room
  status listing. The book's invariant is `WellFormed`: every stored
  reservation lies inside the book and belongs to its room, and no two
  reservations of one room overlap. `BookRoom` keeps it.
- **The Lamport mutual-exclusion manager** (`mutex_manager.dfy`, module
  `LamportMutex`). This is the per-server half of Lamport's 1978 algorithm.
  It holds a logical clock `h`, a fixed-size ledger `t` with the last known
  message of every server, and the grant flag `agreedSC`. The handlers
  `SyncStamp`, `Req`, `Ack`, `Rel` and `VerifySC` are methods of the class
  `MutexManager` and update the manager in place. Each method's postcondition
  ties the new state (`View()`) to a function on `ManagerState` values
  (`Sync`, `OnReq`, `OnAck`, `OnRel`, `Verify`). The lemmas about handler
  sequences are stated over those functions (`Step`, `Run`).

Modelling choices:

- Error returns are a `Result` whose error is a `HotelError` kind.
- The listing returned by `GetRoomsList` is a sequence of
  `RoomLine(room, status)` lines followed by `End`. It is not the formatted
  string.
- The message type `MessageLamport` and its kinds are declared in another
  file of the Go program. They are rebuilt here from their field uses as
  `Message(kind, senderId, h)` with `Kind = Request | Acknowledge | Release`.
- The number of servers is the length of the ledger, fixed when the manager
  is built (at least 1).
- The initial ledger is a constructor parameter. The Go struct starts from
  zero values, and which kind the zero value denotes is declared in another
  file of the Go program.
- A handler needs `0 <= msg.senderId < t.Length`. An index outside the array
  makes the Go code panic.

Where the source differs from Lamport's algorithm as usually described, the
model follows the source:

- `req` hands the incoming request to `ack` when this server is not itself
  requesting. It does not send an acknowledgement.
- Nothing ever clears `agreedSC`.
- `verifySC` skips ledger entries by their `SenderID` field, not by their
  index.

## Model

| member | source | states |
|---|---|---|
| HotelBook.ValidateIdRoom | server/logic/hotel.go:103-108 | accepts exactly the rooms `1 .. maxRooms`, and otherwise fails with the invalid-room error |
| HotelBook.ValidateDay | server/logic/hotel.go:111-116 | accepts exactly the days `1 .. maxDays`, and otherwise fails with the invalid-day error |
| HotelBook.ValidateNbNights | server/logic/hotel.go:119-124 | accepts exactly a positive night count whose last night is at most `maxDays`, and otherwise fails with the invalid-nights error (on unbounded integers) |
| HotelBook.StayWithinBook | server/logic/hotel.go:111-124 | a stay whose day and night count both pass the checks has every night inside `1 .. maxDays` |
| HotelBook.Wrap64 | server/logic/hotel.go:120 | 64-bit two's-complement wrap-around: the result is a 64-bit value congruent to the input modulo 2^64, and equal to the input when the input already is one |
| HotelBook.ValidateNbNightsInt64 | server/logic/hotel.go:119-124 | the night-count check as evaluated on 64-bit `int`, with `day+nbNights-1` wrapping: it only ever fails with the invalid-nights error, and it agrees with the unbounded check whenever neither intermediate sum leaves the 64-bit range |
| HotelBook.NbNightsOverflowAccepted | server/logic/hotel.go:120 | day 2 with 2^63-1 nights passes the 64-bit check in a 30-day book, but fails the unbounded one |
| HotelBook.Overlaps | server/logic/hotel.go:19-26 | the four-way test as written; for non-empty stays it holds exactly when the two closed intervals intersect |
| HotelBook.OverlapsSymmetric | server/logic/hotel.go:26 | for non-empty stays the test gives the same answer whichever of the two stays is the request |
| HotelBook.FirstOverlapIndex | server/logic/hotel.go:24-30 | the position of the first reservation in list order that overlaps the stay: every earlier one does not overlap, and it is the list length when none overlaps |
| HotelBook.FirstOverlapIndexIsEndIffFree | server/logic/hotel.go:24-30 | the search reaches the end of the list exactly when no reservation overlaps |
| HotelBook.Hotel.IsAlreadyBooked | server/logic/hotel.go:18-31 | reports a booking exactly when some reservation of the room overlaps the stay; it returns the first such reservation in list order, or the zero reservation when there is none |
| HotelBook.BookPreservesWellFormed | server/logic/hotel.go:36-53 | appending a reservation that passed every check keeps all stays inside the book and each room's reservations pairwise non-overlapping |
| HotelBook.Hotel.BookRoom | server/logic/hotel.go:34-54 | the checks run in the order day, room, nights, overlap, each with its own error; any error leaves the reservations unchanged; success appends exactly `Reservation(idRoom, client, day, nbNights)` to that room's list and changes no other room; it keeps the invariant |
| HotelBook.CoveringReservationUnique | server/logic/hotel.go:36-52 | in a well-formed book, at most one reservation of a room holds any one night |
| HotelBook.StatusOf | server/logic/hotel.go:68-77 | a room is LIBRE exactly when no reservation overlaps the one night `day`, and RESERVE exactly when one does and the first such reservation in list order is the asking client's; OCCUPE otherwise |
| HotelBook.StatusOfMeaning | server/logic/hotel.go:67-77 | in a well-formed book, a room is LIBRE exactly when no reservation holds the night, RESERVE exactly when the asking client's reservation holds it, and OCCUPE exactly when someone else's does |
| HotelBook.Hotel.GetRoomsList | server/logic/hotel.go:57-82 | an invalid day is an error; otherwise one line per room `1 .. maxRooms` in order, each with the status of its first reservation holding the night, then `END`; nothing is modified |
| HotelBook.Hotel.GetFreeRoom | server/logic/hotel.go:85-100 | day errors come first, then night-count errors; otherwise it returns the smallest room in `1 .. maxRooms` that no reservation overlaps, or a no-room error exactly when every room has an overlap; nothing is modified |
| HotelBook.Hotel.constructor | server/logic/hotel.go:10-14 | a book with the given bounds, empty and well formed |
| LamportMutex.Before | server/lamport/mutexManager.go:58 | for distinct identifiers, one entry comes before another exactly when the source's "not oldest" test at this line fails |
| LamportMutex.Oldest | server/lamport/mutexManager.go:53-62 | the own entry is the oldest exactly when no entry from another sender passes the source's "not oldest" test, i.e. when the loop ends with `oldest` still true |
| LamportMutex.BeforeIsStrictTotalOrder | server/lamport/mutexManager.go:58 | the (timestamp, identifier) order is irreflexive, asymmetric, transitive and total on distinct pairs |
| LamportMutex.TieBreakExclusive | server/lamport/mutexManager.go:49-65 | two servers whose ledgers hold the same two requests cannot both judge their own request the oldest, even with equal timestamps |
| LamportMutex.Sync | server/lamport/mutexManager.go:22-24 | the clock becomes the least value greater than both the old clock and the incoming stamp; nothing else changes |
| LamportMutex.Verify | server/lamport/mutexManager.go:49-66 | without an own request nothing changes; otherwise the grant is set exactly when the own request precedes, in (timestamp, identifier) order, every entry sent by another server; a grant is never withdrawn, and only the grant changes |
| LamportMutex.VerifyIdempotent | server/lamport/mutexManager.go:49-66 | re-evaluating the grant a second time changes nothing |
| LamportMutex.OnAck | server/lamport/mutexManager.go:35-41 | the sender's slot is overwritten only when it does not hold a request, so a recorded request is never replaced by an ack; every other slot is unchanged; the clock rises above both stamps; the grant is kept, and it is on afterwards exactly when it was on before or the updated own entry is a request that precedes every entry from another server |
| LamportMutex.OnReq | server/lamport/mutexManager.go:26-33 | the sender's slot ends holding the request, every other slot is unchanged, the clock rises above both stamps, and the grant is kept; it is on afterwards exactly when it was on before or the updated own entry is a request that precedes every entry from another server |
| LamportMutex.ReqClock | server/lamport/mutexManager.go:26-31 | after a request the clock is `max(msg.h, h) + 1` when the own entry is then a request, and `max(msg.h, h) + 2` otherwise, because the message is merged a second time by `ack` |
| LamportMutex.OnRel | server/lamport/mutexManager.go:43-47 | the sender's slot is overwritten unconditionally, every other slot is unchanged, the clock rises above both stamps, and the grant is kept; it is on afterwards exactly when it was on before or the own entry, after the release is recorded, is a request that precedes every entry from another server, so a release from the blocking server lets a waiting one in |
| LamportMutex.Step | server/lamport/mutexManager.go:26-47 | any single handler keeps the own identifier and the ledger size, strictly raises the clock, and never withdraws the grant |
| LamportMutex.Run | server/lamport/mutexManager.go:22-66 | across any sequence of handled messages the clock rises by at least one per message, and a grant once set stays set |
| LamportMutex.RecordedRequestPersists | server/lamport/mutexManager.go:37-39 | a request on record for a server stays in its slot through any sequence of handled messages in which that server sends only acknowledgements |
| LamportMutex.ReqOnValueReceiver | server/lamport/mutexManager.go:26-33 | `req` as written, on a copy: for every input the caller's clock stays below the one the in-place handler reaches, and a request not already in the sender's slot is not recorded |
| LamportMutex.ValueReceiverDropsRequest | server/lamport/mutexManager.go:26-28 | through the value receiver, a handled request is not recorded in the caller's ledger; the in-place handler does record it |
| LamportMutex.MutexManager.constructor | server/lamport/mutexManager.go:8-13 | a manager for a valid own identifier, with the clock at zero, no grant, and the given ledger |
| LamportMutex.MutexManager.SyncStamp | server/lamport/mutexManager.go:22-24 | updates the clock in place as `Sync` describes |
| LamportMutex.MutexManager.Req | server/lamport/mutexManager.go:26-33 | updates the manager in place as `OnReq` describes |
| LamportMutex.MutexManager.Ack | server/lamport/mutexManager.go:35-41 | updates the manager in place as `OnAck` describes |
| LamportMutex.MutexManager.Rel | server/lamport/mutexManager.go:43-47 | updates the manager in place as `OnRel` describes |
| LamportMutex.MutexManager.VerifySC | server/lamport/mutexManager.go:49-66 | the loop with early exit sets the grant exactly as `Verify` describes |

## Left out

- `start()` and the intended channel loop (server/lamport/mutexManager.go:15-20) are left out. The function is empty, and its purpose is concurrency.
- Sending requests, acknowledgements and releases, and `acquire`/`release`, are left out. The modelled code sends nothing and has no such operations.
- Safety across servers ("at most one server granted") is left out. It needs a model of several processes and a network. `TieBreakExclusive` states only the two-ledger core of it.
- `math.Max` converts through `float64` (server/lamport/mutexManager.go:23). The model uses integer `Max`; stamps above 2^53 would round in Go.
- Clocks and stamps are unbounded integers. Go's 64-bit `int` overflow of `H` is not modelled.
- The French text of messages and `strconv.Itoa` formatting are abstracted as error kinds and `RoomLine` entries.
- The configuration package, networking and process bootstrap are not part of this model.
- The record types `Reservation` and `MessageLamport` and the constant `NB_SERVER` are declared in other files of the Go program. The first two are rebuilt here from their field uses; `NB_SERVER` is the ledger length given to the constructor.
- Writing into a nil `Reservations` map panics in Go. The model's map always exists.
- The book uses unbounded integers for days, rooms and nights. The 64-bit night-count overflow is modelled only in `ValidateNbNightsInt64` (see Findings).

## Findings

| source | as written | input that shows it | evidently intended | confidence | as-written member | corrected member |
|---|---|---|---|---|---|---|
| server/logic/hotel.go:120 | `day+nbNights-1 > MaxDays` on 64-bit `int` wraps for very large night counts | `MaxDays = 30`, `day = 2`, `nbNights = 2^63-1`: the sum wraps to `-2^63`, so the check passes | refuse every stay that runs past `MaxDays` | medium, not executed (assumes a 64-bit `int`) | HotelBook.NbNightsOverflowAccepted | HotelBook.StayWithinBook |
| server/lamport/mutexManager.go:22-47 | every handler has a value receiver, so its writes to `H`, `T` and `AgreedSC` go to a copy and are discarded; `req` (lines 26-33) is modelled as written, and `syncStamp`, `ack`, `rel` and `verifySC` lose their writes the same way | a ledger of two `Release` entries and `req(Request from 1 at stamp 5)`: the caller's `T[1]` is still the release | update the one manager in place | high, not executed | LamportMutex.ReqOnValueReceiver | LamportMutex.OnReq |
