# Cinema booking: a verified model

This project models the rule-bearing core of a cinema ticket-booking web
application. The application has halls with a grid of seats and sessions
(screenings) in those halls. A session has one session seat per hall seat.
Users hold a wallet balance, and booking a session seat creates an order.

The model covers:

- **Seat generation** (`Signals`). When a hall is first saved, one seat is
  written per (row, seat) position of its rows × seats-per-row grid, in
  row-major order.
- **Session scheduling** (`Managers`, `Forms`, `Api`). The session date must
  lie in the validity window. A new session conflicts with a stored one when
  its start or its end falls, inclusively, inside a stored session of the
  same hall on the same date.
- **Hall and price validators** (`Forms`, `Api`). Counts and prices must be
  positive. Hall names must be unique ignoring case. On an API update the
  hall being updated is excluded from the name check.
- **Booking engine** (`Booking`). This covers the affordability predicate,
  the "already booked?" scan, and `create_order` as a method of a `Store`
  class that holds the session-seat and order tables.
- **Wallet** (`CoreModels`). The user is a class with a `money` field. The
  first save grants 200.00. `buy_ticket` debits with no floor. `TotalSpent`
  sums the user's order prices.

Representation choices:

- Money is whole cents (`int`), so 200.00 is `20000`.
- Times of day are seconds since midnight, and dates are day numbers.
- A value that is missing, or not a date or time, is `None` of an `Option`.
- The database is the `Store` class, whose tables are a `map` of session
  seats and a `seq` of orders. Read-only querysets (halls, sessions) are
  passed to the validators as sequences.

Behaviour the model keeps exactly as the code has it:

- The conflict rule is point-in-interval, not interval overlap. A new
  session that strictly encloses a stored one is accepted
  (`Forms.EnclosingSessionAccepted`).
- `create_order` places one order per selected seat at the session price.
  It does not place one order for the total.
- `create_order` does not check affordability. That check is the separate
  `is_buying`.
- The hall record puts no bound on `rows` or `seats_per_row`. Only the
  validators require them to be positive.

## Model

| member | source | states |
|---|---|---|
| CinemaModels.NewSessionSeat | cinemaProject/cinema/models.py:139-143 | a new session seat references its session and seat, is not booked and has no order |
| CinemaModels.DisplayName | cinemaProject/cinema/models.py:11-12 | a person's display string is the name, one space, then the surname |
| CinemaModels.DisplayNameRoundTrip | cinemaProject/cinema/models.py:11-12 | for a name without a space, splitting the display string at its first space gives back the name and the surname |
| CoreModels.User.constructor | cinemaProject/core/models.py:11-13 | an unsaved user has no primary key and keeps whatever balance was supplied |
| CoreModels.User.Save | cinemaProject/core/models.py:19-26 | the first save sets the balance to 200.00 whatever was supplied; saves of an existing user keep the balance |
| CoreModels.User.BuyTicket | cinemaProject/core/models.py:28-30 | a saved user's balance drops by exactly the price, with no lower bound; the user stays saved |
| CoreModels.BuyTwoTickets | cinemaProject/core/models.py:28-30 | debiting p and then q leaves the balance one debit of p + q would leave |
| CoreModels.TotalSpent | cinemaProject/core/models.py:32-33 | the sum of the user's order prices; 0 when the user has no order, and non-negative when no price is negative |
| CoreModels.TotalSpentAppend | cinemaProject/core/models.py:32-33 | the total over two lists of orders is the sum of the two totals |
| CoreModels.TotalSpentRepeat | cinemaProject/core/models.py:32-33 | n orders of one user at one price add n × price to that user's total and nothing to anyone else's |
| Signals.CreateSeatsForHall | cinemaProject/cinema/signals.py:6-13 | on creation the written seats are exactly the row-major grid of the hall, all referencing it, rows × seats_per_row of them for positive counts; on a later save nothing is written |
| Signals.GridSize | cinemaProject/cinema/signals.py:10-13 | the grid has rows × seats_per_row seats when both are positive and is empty otherwise |
| Signals.GridMembership | cinemaProject/cinema/signals.py:10-12 | a seat is in the grid iff it references the hall and 1 ≤ row ≤ rows and 1 ≤ seat ≤ seats_per_row |
| Signals.GridRowMajor | cinemaProject/cinema/signals.py:10-12 | the grid is ordered by row ascending and, within a row, by seat ascending |
| Signals.GridNoDuplicates | cinemaProject/cinema/signals.py:10-12 | no (row, seat) position appears twice |
| Managers.ExistsSessionByTime | cinemaProject/cinema/managers.py:6-11 | true iff some stored session of the hall on the date has time_start ≤ t ≤ time_end; false on an empty table; no session is skipped |
| Managers.QueryMonotone | cinemaProject/cinema/managers.py:7-11 | adding sessions to the table can only turn a miss into a hit |
| Managers.QueryOnlySeesHallAndDate | cinemaProject/cinema/managers.py:9-10 | two tables that agree on the hall's sessions for that date give the same answer; other halls and dates never matter |
| Managers.QueryBoundsInclusive | cinemaProject/cinema/managers.py:8 | a stored session's own start and end both count as hits |
| Forms.MessagesDistinct | cinemaProject/api/serializers.py:119-124 | each validation error code has its own message text, so the message identifies the error |
| Forms.CleanCount | cinemaProject/cinema/forms.py:29-47 | rows and seats per row are accepted unchanged iff positive, otherwise refused with invalid_count |
| Forms.ValidatedHallGridSize | cinemaProject/cinema/forms.py:29-47 | a hall whose counts pass the form gets a non-empty grid of exactly rows × seats_per_row seats |
| Forms.SameIgnoringCaseIsEquivalence | cinemaProject/cinema/forms.py:51 | equality ignoring case is reflexive, symmetric and transitive |
| Forms.NameTaken | cinemaProject/cinema/forms.py:51 | the case-insensitive name query hits iff a stored hall other than the excluded one has the name up to case |
| Forms.CleanName | cinemaProject/cinema/forms.py:49-56 | a name is refused with name_exists iff some stored hall has it up to case; otherwise it is returned unchanged |
| Forms.CleanNameRefusesStoredName | cinemaProject/cinema/forms.py:49-56 | the form refuses any stored hall's name in any casing, its own included |
| Forms.CleanNameKeepsHallsUnique | cinemaProject/cinema/forms.py:49-56 | adding a hall whose name passed the form keeps stored names unique ignoring case |
| Forms.CleanPrice | cinemaProject/cinema/forms.py:97-103 | a price ≤ 0 is refused with invalid_price; on success nothing is returned, not the price |
| Forms.CleanSession | cinemaProject/cinema/forms.py:105-135 | with a date missing nothing is checked; an out-of-window date is refused before any time check; a missing time makes the ORM raise; otherwise refused with invalid_session iff a same-hall same-date session contains the new end or start |
| Forms.ConflictIsOverlap | cinemaProject/cinema/forms.py:119-131 | every refused conflict is a real overlap of the two time spans |
| Forms.EnclosingSessionAccepted | cinemaProject/cinema/forms.py:119-129 | a new session strictly enclosing every stored session of its hall and date is accepted |
| Forms.OverlappingExampleRefused | cinemaProject/cinema/tests/test_views.py:184-203 | 19:00–20:00 against a stored 18:20–19:20 is refused with invalid_session |
| Forms.LaterExampleAccepted | cinemaProject/cinema/tests/test_views.py:122-140 | 20:00–21:00 against a stored 18:20–19:20 is accepted |
| Forms.EarlyDateExampleRefused | cinemaProject/cinema/tests/test_views.py:142-161 | a session date four days before the window opens is refused with invalid_date |
| Api.ValidateCount | cinemaProject/api/serializers.py:77-85 | rows and seats per row are returned unchanged iff positive, otherwise refused |
| Api.ValidateName | cinemaProject/api/serializers.py:87-96 | on create refused iff any hall has the name up to case; on update refused iff another hall has it; under any other action returned unchecked |
| Api.UpdateMayKeepOwnName | cinemaProject/api/serializers.py:92-95 | with unique names, an update may keep or re-case the hall's own name |
| Api.ValidatePrice | cinemaProject/api/serializers.py:140-146 | a price is returned unchanged iff positive, otherwise refused with invalid_price |
| Api.PriceValidatorsAgree | cinemaProject/api/serializers.py:140-146 | the serializer and the form refuse exactly the non-positive prices with invalid_price; only the serializer returns the price |
| Api.IsSessionDateBetween | cinemaProject/api/serializers.py:148-155 | true when all three dates are present and in range; invalid_date when present and out of range; falsy when any is missing |
| Api.ValidateTime | cinemaProject/api/serializers.py:157-164 | with both times present, refused iff a same-hall same-date session contains the new end or start; never refuses otherwise |
| Api.Validate | cinemaProject/api/serializers.py:166-185 | data without a hall raises the KeyError of the hall lookup before any check; otherwise returns the input unchanged unless invalid_date (dates present, out of window), invalid_time (update, window ok, a time missing) or invalid_session (create or update, times present, conflict), and raises no other error |
| Api.SerializerAgreesWithForm | cinemaProject/api/serializers.py:174-176 | on create with both times and a hall, the serializer accepts exactly what the form accepts |
| Api.UpdateKeepingOwnSlotRefused | cinemaProject/api/serializers.py:177-179 | the search skips no session, so an update that keeps a session's own slot conflicts with its stored row |
| Booking.IsBuyingIffBalanceCoversOrder | cinemaProject/cinema/utils.py:32-35 | is_buying (count × price ≤ money) holds iff the balance covers what an order of count seats at the session price adds to the user's total spent |
| Booking.NewSeatsLinked | cinemaProject/cinema/models.py:139-143 | session seats as created (not booked, no order) are consistent with any order table |
| Booking.Store.Opened | cinemaProject/cinema/models.py:139-143 | tables of fresh session seats and no orders satisfy the store invariant |
| Booking.BookedAmongMembers | cinemaProject/cinema/utils.py:18-29 | a key is reported iff it is selected and its seat is booked; the report is empty iff no selected seat is booked |
| Booking.LinkLeavesOthers | cinemaProject/cinema/utils.py:9-13 | booking leaves every unselected session seat as it was |
| Booking.LinkFirstOccurrence | cinemaProject/cinema/utils.py:9-13 | a selected seat becomes booked and linked to the order created at its first position in the selection, keeping its session and seat |
| Booking.LinkBooksSelection | cinemaProject/cinema/utils.py:11-13 | every selected seat ends booked and linked to one of the orders just created |
| Booking.LinkKeepsLinked | cinemaProject/cinema/models.py:142-143 | booking keeps the tables consistent: only booked seats carry an order, every linked order exists, no order is linked to two seats |
| Booking.BookingTotals | cinemaProject/cinema/utils.py:9-10 | n orders at the session price add n × price to the buyer's total spent and nothing to other users' totals |
| Booking.Store.IsBooked | cinemaProject/cinema/utils.py:18-29 | scans every selected seat without early exit, reports each booked one in order, is true iff one is booked, changes nothing |
| Booking.Store.CreateOrder | cinemaProject/cinema/utils.py:5-15 | if a selected seat is booked nothing changes; otherwise one order per selected key at the session price, every selected seat booked and linked, others unchanged, the balance down by count × price (non-negative afterwards iff is_buying held before), balance plus total spent conserved, the store invariant kept |

## Left out

- Views, routing, templates, flash messages and pagination are not modelled. The session lists read the wall clock.
- Authentication, the session and token middleware, the API viewsets, permission classes, login and logout are not modelled.
- `last_request` time-zone handling and `update_last_request` are not modelled. They depend on the clock.
- The API filters, the user registration form, factories, tests, admin registration and migrations are not modelled. The tests serve only as examples for the lemmas.
- The movie catalogue (movies, genres, actors, directors) is not modelled beyond the person display string. `Movie.rating` is floating point, and images are media.
- The model methods `create_session_seats`, `delete_session_seats`, `delete_seats_and_session_seats`, `update_seats_for_hall`, `is_updateble_hall`, `get_available_seats` and `MovieHall.create_seats_for_hall` are called but not defined in the files modelled. They are not part of this model, and neither are the serializer `create`/`update` methods that call them.
- Api.ValidateTime: modelled as the manager query without excluding the session being updated. As written, serializers.py:160 passes a session key to a manager method that takes no such argument, and `Session` does not install that manager. The model does not capture the exceptions this would raise.
- Booking.Store.IsBooked: reports the key of each booked session seat rather than the message text with its row and seat number.
- Booking.Store.CreateOrder: requires every selected key to exist, because the lookup of an unknown key raises. It also requires the user to be saved, as the booking user always is.
- Booking.Store.CreateOrder: runs as one sequential step. The source has no transaction or locking, so concurrent bookings are not modelled.
- Booking.Store.CreateOrder: the source's bulk update inside the loop is modelled by its cumulative effect. For a repeated key, only the first entry is applied.
- Forms.NameTaken: case folding covers ASCII letters only, as in SQLite's case-insensitive match. Unicode case folding is not modelled.
- Forms.CleanPrice: what the framework does with the empty cleaned price later is not modelled.
- Forms.CleanSession: the framework's own field and uniqueness validation done by `super().clean()` is not modelled.
- The decimal fields' digit limits (10 digits, 2 places) are not modelled; money is an unbounded integer of cents.
- The 0.00 defaults of `Session.price` and `Order.purchase_price` are not modelled: every session and order in the model carries an explicit price.
- The one-hall-per-seat and one-session-one-seat references are captured by the record types' single fields, not by a contract.
