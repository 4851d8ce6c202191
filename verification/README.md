# Slot inventory, reservations and package pricing

A Dafny model of the booking backend's two cores and of three smaller parts beside them, with proofs about
whole runs, not only about single calls.

- **Slot inventory and reservation lifecycle.** A table of slot rows keyed by space, date, start and end, over
  a forest of spaces. `Inventory` gives every table update as a function of the table before it;
  `InventoryService` and `BookingService` are classes whose methods update their fields step by step, as the
  service functions do, and are proved equal to those functions. `Booking` makes a state machine of the
  service calls, the commits of the TTL sweep included; `Runs`, `Lifecycle`, `Limits` and `Holds` prove what
  every run keeps. `SlotOutcomes` and `Outcomes` state each operation a second time, by the rows, statuses and
  times before and after it and without the functions it is written with, and prove that both agree.
- **Package pricing computed twice.** `Wizard` is the quote wizard's pricing, `OrderBlocks`, `OrderTable` and
  `DetailTable` the "Detalle de Espacios" table. They group, merge, decompose, round and add up independently.
  `WizardFacts` and `TableFacts` state what their results show of the cart. `Tariffs` finds
  for which tariffs both charge the same, `Alignment` proves the equality for whole carts, `PartHours` does it
  to the minute.
- **Beside them.** The relationship table with its cycle check (`Relationships`), the three readings of the
  calendar (`Availability`, `InventoryService`, with Python's `int` in `PythonInt`), the merger of the event summary (`Blocks`), the discount
  split (`Discounts`), the document hash chain (`Expediente`) and the date-range loop of the front end
  (`DateRange`).

`dafny verify dfyconfig.toml` checks everything.

## What the code does and its documentation does not say

For each of these the exact condition is proved, on all inputs, and beside it an input or a run that shows the
failure.

- **Releasing a child never unlocks its parent.** The sibling query of
  `release_relationship_blocks_for_reservation_slot` runs before the freed row is flushed, and the session is
  created with `autoflush=False` (src/backend/app/db/session.py:20). The query therefore still finds the row
  being released. `Config.autoflush` stands for that setting; `Hierarchy.ReleaseUnlocksParentIff` and
  `Runs.ShadowsExactInEveryRunIff` say what follows for each of its values, `Runs.CancelLeavesParentBlocked` is
  the run. The safety results (exclusion, agreement, no overlap) do not depend on it.
- **Three levels of spaces are the most.** A claim on a space that has a parent does not mark its own
  children, so in a chain of four the second and the fourth can be booked together
  (`Runs.ExclusiveInEveryRunIff`, `Runs.FourLevelsAreTooMany`).
- **Parent and children are compared only at the very same start and end.** Overlapping slots with different
  ends exclude each other only between a root and its child (`Runs.ApartAcrossSlotsInEveryRunIff`, with the run
  of `Runs.LooseRun`).
- **A soft hold can be laid across a reserved slot.** It looks only at its own rows, not at overlapping ones
  (`Holds.HoldAcrossReserved`). Taken slots stay disjoint throughout a run exactly when every hold was clear of
  them when it was placed (`Holds.ApartThroughoutIff`).
- **The sweep reports every id it finds**, also those a user action closed or moved to review in the meantime
  (`Lifecycle.SweepCountIsExactIff`, `Runs.SweepOvercounts`).
- **Wizard and table agree only for some tariffs.** Tariffs may have four decimals
  (src/backend/app/modules/pricing/schemas.py:9); the wizard rounds to cents at the end, the table rounds each
  tariff to pesos first. On whole hours they agree exactly when no combination of packs and hours of one day
  drifts by more than half a cent from the tariffs in pesos (`Tariffs.TariffsAlign`, `Alignment.CartsAlignIff`).
  Whole pesos always do; so does an hourly rate of 100.0001 beside packs in whole pesos. Of the tariffs in whole
  cents only whole pesos do. To the minute they agree exactly when besides the hourly rate rounds to zero or a
  hundred pesos, and with a six-hour pack is close enough to it (`PartHours.MinutesAlign`,
  `PartHours.AllBlocksAlignIff`).
- **The last reservation of an event can be given a negative discount** when few cents are split over many
  reservations (`Discounts.NoSurchargeIff`, `Discounts.FiveCentsOverNine`).
- **Two documents added in one transaction can fork the hash chain.** `created_at` is the transaction's time
  (src/backend/app/modules/expediente/models.py:46-48), so the query for the last link may answer with either
  (`Expediente.AppendKeepsChainIff`, `Expediente.SameTransactionForks`).
- **The front end's date loop steps over one day**, the 29th of February of the year 0, because JavaScript takes
  the years 0 to 99 for 1900 to 1999 (`DateRange.GetDateRangeInclusive`).

## Assumptions

- Each service call is atomic, as the row locks intend (src/backend/app/modules/inventory/services.py:136).
- Each space has at most one parent (the code takes the first), and the hierarchy, the booking rules and the
  TTLs do not change during a run. `Relationships.AcyclicTableGivesForest` connects the relationship table to
  the hierarchy.
- Reservation, group and relationship ids are fresh when generated: a step with an id that is in use by a
  reservation or an event does nothing. Dates are proleptic Gregorian ordinals; times of day have microseconds in
  the inventory and whole minutes in the pricing.
- Money and durations are exact integers: tariffs in ten-thousandths of a peso, wizard durations in hundredths
  of an hour, table quantities in sixtieths of a unit. `round` and `quantize` are `RoundHalfEven`. On whole
  minutes the tolerance `EPS` of the table's decomposition decides nothing.
- One tenant's inventory. The relationship table and the documents keep their tenant.

## Model

| member | source | states |
|---|---|---|
| InventoryService.InventorySession.GetOrCreate | src/backend/app/modules/inventory/services.py:88-119 | returns the row of the slot, adding it as AVAILABLE when missing; no other row changes |
| InventoryService.InventorySession.Claim | src/backend/app/modules/inventory/services.py:139-247 | succeeds exactly when start, duration, row, overlaps, parent and children allow it, each said of the rows; then the row is TTL_BLOCKED, its neighbours shadowed and no other row changed, and otherwise no row has changed its content |
| InventoryService.InventorySession.CheckParent | src/backend/app/modules/inventory/services.py:199-210 | accepts exactly a parent that is free or blocked by a child, and changes no content |
| InventoryService.InventorySession.CheckChildren | src/backend/app/modules/inventory/services.py:212-224 | accepts exactly when no child is hard-blocked or blocked by a child of its own, stopping at the first that is |
| InventoryService.InventorySession.Mark | src/backend/app/modules/inventory/services.py:226-247 | the writes of a claim give the claimed table: own row, then parent or, for a root, all children |
| SlotOutcomes.ClaimSucceedsIff | src/backend/app/modules/inventory/services.py:144-224 | a claim succeeds exactly for a listed start, at least the minimum duration, a free row, no other row taken in the space at that time, a parent free or blocked by a child, and children free or blocked by their parent |
| SlotOutcomes.EmptyTableAcceptsIff | src/backend/app/modules/inventory/services.py:144-152 | in an empty inventory a slot is accepted exactly if its start is listed and it is long enough |
| SlotOutcomes.DefaultRuleFitsIff | src/backend/app/modules/inventory/services.py:542-553 | without a rule of its own a space takes the full hours from 09:00 to 20:00, for an hour or more |
| SlotOutcomes.ClaimWrites | src/backend/app/modules/inventory/services.py:226-247 | after a claim the row is TTL_BLOCKED for the reservation, a free parent BLOCKED_BY_CHILD, the children of a root BLOCKED_BY_PARENT, and every other row as it was |
| SlotOutcomes.FreeWrites | src/backend/app/modules/inventory/services.py:280-322 | after a reserved row is freed it is AVAILABLE, the parent unlocked if the session flushes first and no sibling is held, reserved or soft-held, the children of a root unlocked, and every other row as it was |
| InventoryService.InventorySession.ReleaseBlocks | src/backend/app/modules/inventory/services.py:280-323 | the table after a release, the sibling query reading flushed or stored rows according to the session setting |
| InventoryService.InventorySession.Free | src/backend/app/modules/booking/services.py:193-203 | freeing a row and releasing its shadow blocks gives the freed table |
| InventoryService.InventorySession.PlaceHold | src/backend/app/modules/inventory/services.py:469-511 | all the slots are soft-held or none; it succeeds exactly for distinct free slots |
| InventoryService.InventorySession.DropHold | src/backend/app/modules/inventory/services.py:514-525 | afterwards no row carries the quote; the rows that did are AVAILABLE, every other row is unchanged, and no row appears or disappears |
| SlotOutcomes.HoldSucceedsIff | src/backend/app/modules/inventory/services.py:484-511 | a hold succeeds exactly for different slots free of status, reservation and quote, and makes exactly these SOFT_HOLD for the quote |
| SlotOutcomes.DropWrites | src/backend/app/modules/inventory/services.py:516-525 | dropping a hold makes the rows of the quote AVAILABLE without quote and leaves every other row |
| InventoryInvariants.ClaimKeepsSound | src/backend/app/modules/inventory/services.py:152-245 | a successful claim keeps the shape of rows, the shadow blocks of every held slot, no overlap within a space, and no overlap between a root and its child |
| InventoryInvariants.FreeKeepsSound | src/backend/app/modules/inventory/services.py:280-322 | freeing a held row keeps all of that, with or without autoflush |
| InventoryInvariants.FreeKeepsOthers | src/backend/app/modules/inventory/services.py:306-322 | freeing a row leaves every other row with a reservation as it is |
| InventoryInvariants.HoldKeepsSound | src/backend/app/modules/inventory/services.py:501-510 | soft holds keep the table sound |
| InventoryInvariants.DropHoldKeepsSound | src/backend/app/modules/inventory/services.py:516-525 | releasing a soft hold keeps the table sound |
| InventoryInvariants.ConfirmKeepsSound | src/backend/app/modules/booking/services.py:175-177 | TTL_BLOCKED to RESERVED keeps the table sound |
| Hierarchy.GuardedPairsExclude | src/backend/app/modules/inventory/services.py:196-245 | with the shadow blocks in place, a space and its parent, or a root and its grandchild, are never both held |
| Hierarchy.SoundIsExclusive | src/backend/app/modules/inventory/services.py:196-245 | in a forest of at most three levels no space and none of its ancestors are both held for one slot |
| Hierarchy.ShadowsAreExact | src/backend/app/modules/inventory/services.py:229-245 | without stale shadows, BLOCKED_BY_CHILD means exactly a held child and BLOCKED_BY_PARENT exactly a held root above |
| Hierarchy.ClaimLeavesNoStaleShadow | src/backend/app/modules/inventory/services.py:229-245 | every shadow block a claim leaves has its cause |
| Hierarchy.FreeLeavesNoStaleShadow | src/backend/app/modules/inventory/services.py:280-322 | with flushed reads and no soft holds, a release leaves no shadow block without a cause |
| Hierarchy.ReleaseUnlocksParentIff | src/backend/app/modules/inventory/services.py:281-313 | releasing a held child unlocks its parent if and only if the session flushes before the sibling query and no other child occupies the slot |
| Hierarchy.ClaimFreeIsIdentityIff | src/backend/app/modules/inventory/services.py:226-323 | claim then release gives every row back if and only if the neighbours' states allow it |
| Hierarchy.ExactShadowsUndo | src/backend/app/modules/inventory/services.py:226-323 | with exact shadows, flushed reads and no soft holds every claim can be undone |
| BookingInvariants.NextKeepsInv | src/backend/app/modules/booking/services.py:65-293 | every step of the state machine keeps the table sound and reservations and rows in agreement |
| BookingInvariants.RunKeepsInv | src/backend/app/modules/booking/services.py:65-293 | every run from an empty inventory keeps them |
| Runs.ReservationsAgreeWithRows | src/backend/app/modules/booking/services.py:65-293 | in every run an active reservation owns exactly one row, TTL_BLOCKED at its key, a confirmed one exactly one RESERVED, a terminal one none; every reservation id in a row exists; no row has both a reservation and a quote |
| Runs.HeldRowsNeverOverlap | src/backend/app/modules/inventory/services.py:162-176 | in every run two held rows of one space and date never overlap, whatever their start and end |
| Outcomes.HeldSlotsFitRule | src/backend/app/modules/inventory/services.py:144-150 | in every run a held slot starts at a start its space lists and lasts at least the minimum of its space |
| Runs.ExclusiveInEveryRunIff | src/backend/app/modules/inventory/services.py:196-245 | exclusion along the hierarchy holds in every run if and only if every bookable pair is parent and child or grandchild and root |
| Runs.ThreeLevelsAlwaysExclusive | src/backend/app/modules/inventory/services.py:196-245 | three levels suffice in every run, soft holds and sweeps included |
| Runs.FourLevelsAreTooMany | src/backend/app/modules/inventory/services.py:230-245 | in a chain of four levels booking the second space and then the fourth leaves both held |
| Runs.ApartAcrossSlotsInEveryRunIff | src/backend/app/modules/inventory/services.py:162-224 | exclusion of overlapping slots with different ends holds in every run if and only if every such bookable pair is a root and its child |
| Runs.ShadowsExactInEveryRunIff | src/backend/app/modules/inventory/services.py:250-323 | without soft holds the shadow blocks are exact in every run if and only if the session flushes or no child can be booked |
| Runs.CancelLeavesParentBlocked | src/backend/app/modules/booking/services.py:241-260 | with autoflush off, booking a child and cancelling it leaves the parent BLOCKED_BY_CHILD and nothing held |
| Runs.CreateThenCancelRestores | src/backend/app/modules/booking/services.py:241-260 | with autoflush, in every such run, create then cancel gives every row back |
| Holds.HoldKeepsTakenApartIff | src/backend/app/modules/inventory/services.py:469-511 | placing a hold keeps the reserved and soft-held rows of each space disjoint if and only if no slot of it overlaps one of them or another slot of it |
| Holds.HoldThenDrop | src/backend/app/modules/inventory/services.py:469-525 | placing a hold for a quote that held nothing and dropping it gives every row back |
| Holds.ApartThroughoutIff | src/backend/app/modules/inventory/services.py:469-525 | in every run reserved and soft-held rows stay disjoint throughout if and only if every hold was clear when it was placed |
| Holds.HoldAcrossReserved | src/backend/app/modules/inventory/services.py:484-511 | a hold over a reserved slot with another start or end is not refused |
| Runs.SweepOvercounts | src/backend/app/modules/booking/tasks.py:41-67 | a reservation cancelled between the snapshot and its visit: the sweep reports one expired and none is |
| BookingService.BookingSession.CreateReservation | src/backend/app/modules/booking/services.py:65-105 | succeeds exactly when the slot can be claimed; then there is one more open reservation and its claimed row |
| BookingService.BookingSession.CheckAntiHoarding | src/backend/app/modules/booking/anti_hoarding.py:46-64 | accepts staff, and others exactly as long as no three of their active reservations are of different events or of none |
| BookingService.BookingSession.PostReservation | src/backend/app/modules/booking/router.py:109-148 | one step: limit, then creation, or nothing; keeps the invariant |
| BookingService.BookingSession.PostEvent | src/backend/app/modules/booking/services.py:108-138 | one step: every item of the event is claimed in order or nothing has changed |
| BookingService.BookingSession.PostGenerateSlip | src/backend/app/modules/booking/services.py:141-144 | one step: PENDING_SLIP becomes AWAITING_PAYMENT, any other status stays |
| BookingService.BookingSession.PostUploadSlip | src/backend/app/modules/booking/services.py:147-151 | one step: AWAITING_PAYMENT becomes PAYMENT_UNDER_REVIEW and frozen, any other status stays |
| BookingService.BookingSession.PostConfirm | src/backend/app/modules/booking/services.py:165-179 | one step: only from review; CONFIRMED and its row RESERVED, nothing else changed |
| BookingService.BookingSession.PostReject | src/backend/app/modules/booking/services.py:189-205 | one step: only from review; EXPIRED, its row AVAILABLE, no row left to it and no other reservation or its row changed |
| BookingService.BookingSession.ReleaseInventory | src/backend/app/modules/booking/services.py:270-293 | frees one row linked to the reservation unless it is RESERVED, unlocks at most the neighbours of its slot, and does nothing without such a row |
| BookingService.TerminalHasNoRow | src/backend/app/modules/booking/services.py:270-293 | in every reachable state the defensive cleanup finds nothing to release |
| BookingService.BookingSession.PostCancel | src/backend/app/modules/booking/router.py:956-1040 | one step: a single reservation or, for an event, all its members or none |
| BookingService.BookingSession.StartSweep | src/backend/app/modules/booking/tasks.py:27-40 | the snapshot has exactly the reservations that are PENDING_SLIP or AWAITING_PAYMENT, not frozen, and past their TTL |
| BookingService.BookingSession.StepSweep | src/backend/app/modules/booking/tasks.py:42-63 | one commit of the sweep is one step of the state machine |
| BookingService.BookingSession.ExpireReservationsTtl | src/backend/app/modules/booking/tasks.py:20-67 | uninterrupted, exactly the open, unfrozen reservations past their TTL expire and are counted; none is overdue afterwards, no row is left to an expired one, and every other reservation is as it was |
| BookingService.BookingSession.PostHold | src/backend/app/modules/inventory/services.py:469-511 | one step: all the slots of the quote or none; keeps the invariant |
| BookingService.BookingSession.PostDropHold | src/backend/app/modules/inventory/services.py:514-525 | one step: the hold of the quote ends; keeps the invariant |
| Outcomes.NextHasOutcome | src/backend/app/modules/booking/services.py:65-293 | in every reachable state every step has its outcome, said of statuses, fields and rows |
| Outcomes.EveryStepHasOutcome | src/backend/app/modules/booking/services.py:65-293 | so has every step of every run |
| Outcomes.CreateHappens | src/backend/app/modules/booking/router.py:109-148 | accepted exactly below the limit, with a new id and a slot that can be claimed: then one PENDING_SLIP reservation of the user with the TTL of its space from now, and its claimed slot; otherwise nothing changes |
| Outcomes.CreateEventHappens | src/backend/app/modules/booking/services.py:108-138 | below the limit every item is booked one after the other, or nothing changes because some item cannot be booked after those before it |
| Outcomes.ConfirmHappens | src/backend/app/modules/booking/services.py:154-186 | from review the reservation is CONFIRMED and its row RESERVED; from any other status nothing changes |
| Outcomes.RejectHappens | src/backend/app/modules/booking/services.py:189-205 | from review the reservation is EXPIRED, its row AVAILABLE, no row names it, and every other reservation and its row are as they were; from any other status nothing changes |
| Outcomes.CancelHappens | src/backend/app/modules/booking/router.py:956-1040 | by staff or the owning customer and nobody else: a single open reservation is closed; an event, if none of it is under review or confirmed, has its open reservations CANCELLED, their slots free and everything else as it was; otherwise nothing changes |
| Outcomes.SweepHappens | src/backend/app/modules/booking/tasks.py:41-67 | a visit takes the id off the list, counts it if it exists, and closes it as EXPIRED exactly if it is PENDING_SLIP or AWAITING_PAYMENT |
| Outcomes.OthersHappen | src/backend/app/modules/booking/services.py:141-151 | the outcomes of slip, voucher, snapshot and soft holds |
| Lifecycle.StepsFollowTransitions | src/backend/app/modules/booking/services.py:31-46 | every step changes a status only by ALLOWED_TRANSITIONS, or from open to EXPIRED by the sweep, and nothing else of a reservation but the freeze on entering review |
| Lifecycle.NewReservationsAreOpen | src/backend/app/modules/booking/services.py:82-95 | reservations appear only by an allowed creation, as PENDING_SLIP and unfrozen |
| Lifecycle.FrozenIffReviewed | src/backend/app/modules/booking/services.py:147-151 | in every run ttl_frozen holds exactly for reservations that were under review at some point |
| Lifecycle.SweepExpiresOnlyOverdueOpen | src/backend/app/modules/booking/tasks.py:27-63 | in every interleaving a sweep step expires only its own id, and only if open, overdue at the snapshot and never under review |
| Lifecycle.SweepCountIsExactIff | src/backend/app/modules/booking/tasks.py:41-67 | the count rises at every visit; it matches the expirations exactly when the visited reservation was still open |
| Limits.SeparateGrowByOne | src/backend/app/modules/booking/anti_hoarding.py:20-43 | a step leaves a user at most one more active reservation of a different event than before, and none more unless it is a creation below the limit |
| Limits.CustomersHoldAtMostThree | src/backend/app/modules/booking/anti_hoarding.py:17-64 | in every run of a user who creates nothing as staff, any active reservations of the user no two of which share an event are at most three |
| Limits.LimitIsThreeIff | src/backend/app/modules/booking/anti_hoarding.py:20-64 | a user other than staff is refused exactly when three active reservations exist no two of which share an event |
| Lifecycle.CancelEachClosesEvent | src/backend/app/modules/booking/router.py:1006-1026 | after cancelling the members each is CANCELLED or EXPIRED and no row points at any of them |
| Lifecycle.CancelEachSparesOthers | src/backend/app/modules/booking/router.py:1006-1026 | rows owned by other reservations are untouched, shadow releases included |
| Lifecycle.GroupCancelIsAllOrNothing | src/backend/app/modules/booking/router.py:978-1030 | with a member under review or confirmed nothing changes; otherwise the event is closed and everything else spared |
| Availability.ClaimIffCheck | src/backend/app/modules/inventory/services.py:642-711 | a claim succeeds exactly when the check accepts, nothing overlaps and the far side of the hierarchy is clear |
| Availability.ClaimIffCheckInTwoLevels | src/backend/app/modules/inventory/services.py:642-711 | in two levels, in every reachable state, claim and check differ only by the overlap check |
| Availability.ClaimedIsUnavailable | src/backend/app/modules/inventory/services.py:28-85 | after a claim the check refuses the slot on the space, its parent and every child |
| SlotOutcomes.CheckAnswers | src/backend/app/modules/inventory/services.py:642-711 | INVALID_SLOT_GRANULARITY exactly for slots not listed or too short; otherwise TTL_PENDING, BLOCKED or available by the status of the row and, for a free row, of parent and children |
| SlotOutcomes.CellReads | src/backend/app/modules/inventory/services.py:602-628 | a cell reads by the status of its row and neighbours as the check does, and MAINTENANCE to the superadmin alone |
| SlotOutcomes.StartGivesCell | src/backend/app/modules/inventory/services.py:596-600 | a cell exists exactly if hour and minute, as `int` reads them before and after the first colon, are a time and the end stays in the day; then its times are these |
| PythonInt.ReadsDecimal | src/backend/app/modules/inventory/services.py:598-599 | a decimal number is read with any spaces around it and a sign before it |
| PythonInt.Underscores | src/backend/app/modules/inventory/services.py:598-599 | single underscores between digits are read, others not |
| Availability.EventRefinesGroupCheck | src/backend/app/modules/inventory/services.py:714-743 | an event can be booked only if the group check, asked before, accepted every item |
| Availability.CalendarAgreesWithCheckIff | src/backend/app/modules/inventory/services.py:596-635 | for every start the calendar generates a cell for, signs and spaces included, the direct check accepts the cell exactly when it reads AVAILABLE and the canonical spelling of the start is allowed |
| Availability.SignedStart | src/backend/app/modules/inventory/services.py:596-600 | the start "+9:00" gives the cell of 09:00 though its canonical spelling is another string |
| InventoryService.InventorySession.CheckGroup | src/backend/app/modules/inventory/services.py:714-743 | lists the refused items in order, each with its public status |
| InventoryService.NoneRefusedIff | src/backend/app/modules/inventory/services.py:723-743 | no conflict is reported exactly when every item is available |
| InventoryService.RefusedInOrder | src/backend/app/modules/inventory/services.py:723-743 | each refused item is reported after those refused before it, with its space and status |
| InventoryService.RefusedOnce | src/backend/app/modules/inventory/services.py:723-743 | there are as many conflicts as refused items |
| InventoryService.InventorySession.IndexRows | src/backend/app/modules/inventory/services.py:574-587 | the index holds exactly the month's rows of the space |
| InventoryService.InventorySession.DaysBetween | src/backend/app/modules/inventory/services.py:591-637 | every day between the bounds appears once with its cells, unless `int` or `time` raises on some start |
| InventoryService.InventorySession.MonthAvailability | src/backend/app/modules/inventory/services.py:556-639 | every day of the month appears exactly once with its cells; it raises exactly on impossible months and starts on which `int` or `time` raises |
| InventoryService.CalendarCellsAgreeWithCheck | src/backend/app/modules/inventory/services.py:591-637 | each cell of each day agrees with the direct check of its slot |
| InventoryService.DefaultCalendarAgrees | src/backend/app/modules/inventory/services.py:543-553 | for a space without a rule of its own the calendar never raises and agrees with the check outright |
| Relationships.Search | src/backend/app/modules/inventory/services.py:353-365 | the breadth-first search terminates and finds the parent exactly when it is reachable |
| Relationships.RelationshipTable.WouldCreateCycle | src/backend/app/modules/inventory/services.py:326-365 | terminates and answers True exactly when the spaces are equal or the parent is reachable from the child |
| Relationships.AddedEdgeKeepsAcyclicIff | src/backend/app/modules/inventory/services.py:332-365 | a new edge keeps an acyclic graph acyclic if and only if that answer is False |
| Relationships.RelationshipTable.CreateRelationship | src/backend/app/modules/inventory/router.py:232-256 | one step: refused when it would create a cycle, rolled back when the pair exists |
| Relationships.RelationshipTable.DeleteRelationship | src/backend/app/modules/inventory/router.py:263-276 | one step: the relationship is gone and all others stay |
| Relationships.StepOutcome | src/backend/app/modules/inventory/router.py:232-276 | a relationship is refused exactly when its spaces are the same, the child already leads down to the parent, or the pair or id exists, and is otherwise there beside all others; a deleted one is gone and all others stay |
| Relationships.EveryRunIsAcyclic | src/backend/app/modules/inventory/router.py:232-276 | every run of create and delete requests keeps each tenant's graph acyclic |
| Relationships.AcyclicTableGivesForest | src/backend/app/modules/inventory/services.py:179-197 | a parent map read off an acyclic table is the acyclic hierarchy the inventory needs |
| Packages.PackagePriceForDuration | src/backend/app/modules/crm/public_service.py:93-118 | the price of the greedy split, and the error for a duration that is not positive |
| WizardFacts.PackagePriceIff | src/backend/app/modules/crm/public_service.py:93-118 | the price is that of the most twelve-hour packs, then the most six-hour packs, then loose time rounded to cents, the sum rounded to cents, and no other |
| Packages.GreedyIsCheapestIff | src/backend/app/modules/crm/public_service.py:105-118 | for every rule the greedy split is the cheapest of all splits of every duration into offered packs if and only if no offered pack costs more than the smaller units it replaces |
| Packages.ChargedPriceIsCheapest | src/backend/app/modules/crm/public_service.py:116-118 | with an hourly rate without fractions of a cent also the rounded charge is the least |
| Packages.FractionsMayCostMore | src/backend/app/modules/crm/public_service.py:116-118 | with a fraction of a cent it need not be: rounding the loose hours apart can make the pack dearer by a cent |
| Wizard.AllocateTotals | src/backend/app/modules/crm/public_service.py:73-90 | the shares: rounded proportional parts, the last taking the rest, zeros without weight |
| Rounding.SharesConserve | src/backend/app/modules/crm/public_service.py:73-90 | shares add up exactly to the total, or to nothing without weight |
| Rounding.SharesAreClose | src/backend/app/modules/crm/public_service.py:83-89 | each share but the last is within half a unit of its proportion, the last of n within (n - 1) / 2 |
| Rounding.RoundsToNearestIff | src/backend/app/modules/crm/public_service.py:83-89 | rounding gives the nearest integer, of two the even one, and no other |
| Wizard.SplitBlocks | src/backend/app/modules/crm/public_service.py:156-166 | the blocks are the maximal chains of the sorted slots |
| Wizard.PriceGroup | src/backend/app/modules/crm/public_service.py:149-179 | every block of the group has its shares written at its indices, other groups' prices are untouched, and the prices grow by the blocks' package prices |
| Wizard.PriceWizardItems | src/backend/app/modules/crm/public_service.py:121-181 | it fails exactly when a group has no rule or a block does not end after it starts; otherwise every slot has its share and, for positive slots, the prices add up to the blocks' package prices, in any input order |
| Wizard.AllocationIsClose | src/backend/app/modules/crm/public_service.py:173-179 | the error bound for the prices of a block |
| WizardFacts.EverySlotIsPriced | src/backend/app/modules/crm/public_service.py:142-181 | every slot of a priced cart is in a block of touching slots of its space and date whose prices add up to the package price of its length; each is within half a cent of its share by duration, the last within half a cent for every other |
| Blocks.MergePartitions | src/backend/app/modules/booking/event_summary.py:51-75 | merging sorted slots partitions them in order into maximal runs, each as long as its slots together |
| Blocks.BlocksOfDisjointSlots | src/backend/app/modules/booking/event_summary.py:51-75 | for slots that do not overlap, the blocks cover the same minutes and neither overlap nor touch |
| Blocks.SortedView | src/backend/app/modules/booking/event_summary.py:58-58 | whatever order slots arrive in and however ties are broken, the sorted slots are the same |
| Blocks.MergeConsecutiveSlots | src/backend/app/modules/booking/event_summary.py:51-75 | in whatever order the rows arrive its blocks are those of their slots, each with the ids of its chain, the rows taken by slot and then by id |
| OrderBlocks.MergeDay | src/backend/app/modules/booking/order_table_rows.py:106-130 | the same blocks for one date, each with the sum of the prices of its own slots |
| OrderBlocks.MergeContiguousBlocks | src/backend/app/modules/booking/order_table_rows.py:100-133 | exactly the blocks of every date, sorted by date and start, charged what the items of each date are charged |
| Packages.DecomposeIntoPackages | src/backend/app/modules/booking/order_table_rows.py:136-169 | months (at most eleven), weeks, twelve and six hours, then the rest by the hour if that has a price |
| Packages.DecomposeByTimeOnly | src/backend/app/modules/booking/order_table_rows.py:172-185 | the same without months, weeks and prices |
| Packages.PackagesAccountForAllTime | src/backend/app/modules/booking/order_table_rows.py:136-169 | when loose hours have a price the segments account for every minute |
| Packages.DaysAccountForAllTime | src/backend/app/modules/booking/order_table_rows.py:172-185 | the decomposition by time accounts for every minute |
| TableFacts.SegmentsByPackages | src/backend/app/modules/booking/order_table_rows.py:136-169 | where packs of hours have a price each pack is taken as often as it fits, largest first and months at most eleven times, and the rest by the hour if that has a price; an hour or more when that would be none |
| TableFacts.SegmentsByTime | src/backend/app/modules/booking/order_table_rows.py:172-185 | elsewhere twelve and six hours as often as they fit and the rest by the hour, and one hour for a block without length |
| TableFacts.UnitPriceIsNearest | src/backend/app/modules/booking/order_table_rows.py:205-224 | the unit price is the nearest peso to the price of the pack, or without one to that of its hours |
| TableFacts.SegmentPesosIsNearest | src/backend/app/modules/booking/order_table_rows.py:302-312 | the charge of a priced segment is the nearest peso to quantity times unit price |
| TableFacts.SegmentQtyIsNearest | src/backend/app/modules/booking/order_table_rows.py:327-328 | the quantity of a segment is the nearest hundredth of its units |
| OrderTable.AllocateTotalsMxn | src/backend/app/modules/booking/order_table_rows.py:188-202 | the same shares, in whole pesos |
| OrderTable.SegmentCharges | src/backend/app/modules/booking/order_table_rows.py:302-312 | the charge of each segment; together they are the package price of the block, or exactly the price of its slots |
| OrderTable.AddSegment | src/backend/app/modules/booking/order_table_rows.py:334-356 | a new row, or the one row of the key with both columns added, the mean price and the earlier date; no other row changes and keys stay distinct |
| OrderTable.AddBlock | src/backend/app/modules/booking/order_table_rows.py:284-356 | the rows go on aggregating the segments: each key has one row, with the quantity, total, first date and mean or only unit price of all segments of that key; in all the total grows by the charge of the block (what a segment shows: TableFacts.SegmentQtyIsNearest, UnitPriceIsNearest) |
| OrderTable.SpaceRows | src/backend/app/modules/booking/order_table_rows.py:276-378 | the rows of a space have distinct keys, are sorted by first date and kind of package, and each is the quantity, total, first date and unit price of the segments of its key over the merged blocks; in all they add up to the charges of its dates |
| TableFacts.SpaceTableShowsHours | src/backend/app/modules/booking/order_table_rows.py:276-378 | for whole-hour slots, where hours have a price or no pack of hours has one, the quantities of the rows of a space times the hours of their units add up to the lengths of its slots |
| TableFacts.SpaceTableReads | src/backend/app/modules/booking/order_table_rows.py:313-356 | each row shows a date of the slots, an hourly row that one date alone; for whole-hour slots of a priced space the unit price is that of the catalog and times the quantity it is the total; without prices it is the mean |
| TableFacts.SpaceTableInOrder | src/backend/app/modules/booking/order_table_rows.py:358-378 | rows are shown by first date and on one date months, weeks, twelve hours, six hours and hours in this order |
| TableFacts.UnpricedSpaceTotal | src/backend/app/modules/booking/order_table_rows.py:302-312 | without prices the totals of the rows of a space add up to the prices of its slots |
| DetailTable.BuildOrderTableRows | src/backend/app/modules/booking/order_table_rows.py:269-380 | the tables of the spaces of the cart, each space once and by its place in the order of names; the rows read as in SpaceTableReads, no pack kind has two rows at one unit price, quantities add up to the hours of a whole-hour cart and totals to the charges of all blocks, in any item order |
| DetailTable.DetailShowsHours | src/backend/app/modules/booking/order_table_rows.py:269-380 | for every whole-hour cart whose spaces have no prices, or a price by the hour, or no packs of hours, the whole table shows exactly the hours of the cart |
| DetailTable.DetailReads | src/backend/app/modules/booking/order_table_rows.py:269-380 | what each row of the whole table shows |
| OrderBlocks.ItemsPesosPermutation | src/backend/app/modules/booking/order_table_rows.py:249-256 | what a date is charged does not depend on the order of its items |
| Packages.WizardChargesWholePesos | src/backend/app/modules/crm/public_service.py:105-118 | whole hours at whole-peso tariffs cost the exact sum of packs and hours |
| Packages.TableChargesWholePesos | src/backend/app/modules/booking/order_table_rows.py:288-310 | and the same in the table, also where it counts packs nobody offers |
| Tariffs.WizardChargesHours | src/backend/app/modules/crm/public_service.py:105-118 | for any tariffs whole hours cost the tariffs in pesos and the rounded drift of the split |
| Tariffs.TableChargesPacks | src/backend/app/modules/booking/order_table_rows.py:288-310 | where packs are offered the table charges the tariffs of the same split, each rounded to pesos |
| Tariffs.TableChargesTime | src/backend/app/modules/booking/order_table_rows.py:288-310 | where none is offered it charges twelve and six hours at the rounded multiple of the hourly rate |
| Tariffs.BlocksAlignIff | src/backend/app/modules/booking/order_table_rows.py:205-224 | for every rule both charge the same for all blocks of whole hours of a day if and only if no combination of packs and hours drifts by more than half a cent from its tariffs in pesos |
| Tariffs.WholeCentsNeedPesos | src/backend/app/modules/booking/order_table_rows.py:205-224 | of the tariffs in whole cents exactly those in whole pesos align |
| Alignment.WizardAgreesWithTable | src/backend/app/modules/crm/public_service.py:126-131 | for every cart of whole-hour slots whose rules align, zero tariffs included, the wizard's prices add up to the table's subtotal |
| Alignment.WholePesosAgree | src/backend/app/modules/crm/public_service.py:126-131 | so they do for every cart of whole-hour slots with whole-peso rules |
| Alignment.PriceAndTabulate | src/backend/app/modules/booking/order_table_rows.py:269-380 | running both on one cart: where the rules align the wizard prices every slot, and the prices it returns add up in cents to the totals of the rows in pesos; every slot has its fair share of the package price of its block |
| Alignment.CartsAlignIff | src/backend/app/modules/booking/order_table_rows.py:269-380 | for every rule the two agree on all carts of whole-hour slots of a space if and only if its tariffs align |
| PartHours.AllBlocksAlignIff | src/backend/app/modules/crm/public_service.py:60-66 | for every rule they agree on every block of a day to the minute if and only if its tariffs align, the hourly rate rounds to zero or a hundred pesos, and with a six-hour pack the longest rest still rounds to it |
| Discounts.SplitDiscount | src/backend/app/modules/booking/router.py:209-216 | every reservation of the event gets the code and its share of the discount |
| Discounts.EqualPartsAndRest | src/backend/app/modules/booking/router.py:210-216 | all but the last get the nearest cents to an equal part, the last one the rest |
| Discounts.SplitConservesDiscount | src/backend/app/modules/booking/router.py:210-216 | the shares add up to the discount, with the same error bound |
| Discounts.NoSurchargeIff | src/backend/app/modules/booking/router.py:213-213 | no share is negative if and only if the equal part is rounded down or quotient and remainder together reach one less than the number of reservations |
| Discounts.FiveCentsOverNine | src/backend/app/modules/booking/router.py:210-216 | five cents over nine reservations give the last one a share of minus three cents |
| Expediente.TamperEvident | src/backend/app/modules/expediente/services.py:18-28 | two valid chains with the same last link are the same, unless two strings hashed in them collide |
| Expediente.EmptyDigestIsAmbiguous | src/backend/app/modules/expediente/services.py:23-28 | with an empty digest two different chains would share their last link |
| Expediente.OnlyCoveredFieldsMatter | src/backend/app/modules/expediente/services.py:87-96 | validity depends on digest, previous link and link alone: type and location are not covered |
| Expediente.DocumentStore.GetLastChain | src/backend/app/modules/expediente/services.py:31-62 | answers the link of a newest document of the dossier, any of several equally new ones |
| Expediente.DocumentStore.AppendDocument | src/backend/app/modules/expediente/services.py:65-99 | refuses unless exactly one owner is given; otherwise adds one document linked to that answer |
| Expediente.AppendHasOutcome | src/backend/app/modules/expediente/services.py:65-99 | a call without exactly one owner changes nothing; any other adds one document with the fields of the call, linked by the hash of its digest after the link of a newest document of that owner, if there is one |
| Expediente.LinksAreDistinct | src/backend/app/modules/expediente/services.py:18-28 | no two documents of a valid chain have the same link |
| Expediente.AppendKeepsChainIff | src/backend/app/modules/expediente/services.py:46-47 | every answer the query may give keeps the chain valid if and only if the last document is strictly newer than the others |
| Expediente.SameTransactionForks | src/backend/app/modules/expediente/services.py:46-62 | three documents, two added in one transaction: the query may answer so that the dossier is no longer a chain |
| Expediente.EveryRunKeepsChains | src/backend/app/modules/expediente/services.py:65-99 | in every run at increasing times every dossier of every owner is a valid chain |
| DateRange.GetDateRangeInclusive | src/frontend/lib/dateUtils.ts:55-78 | terminates; from any valid start it lists exactly the dates up to the bound, if and only if it need not pass the 29th of February of the year 0 |
| DateRange.RangeIsComplete | src/frontend/lib/dateUtils.ts:64-77 | the list ascends strictly and, between valid bounds, starts and ends at them |
| DateRange.RangeLength | src/frontend/lib/dateUtils.ts:64-77 | between valid ordered bounds its length is the difference of the day numbers plus one |
| Gregorian.MonthLengths | src/frontend/lib/dateUtils.ts:66-75 | the lengths of the twelve months, and which years are leap |
| Gregorian.OrdinalAnchors | src/frontend/lib/dateUtils.ts:66-75 | day 1 is the first of January of the year 1, and day 719163 that of 1970 |
| Gregorian.NextDayIsNextOrdinal | src/frontend/lib/dateUtils.ts:66-75 | the day after a date has the next day number, across months and leap years |
| Gregorian.BeforeIffSmallerOrdinal | src/frontend/lib/dateUtils.ts:64-64 | comparing year, month and day is comparing day numbers |

## Left out

- DetailTable.BuildOrderTableRows: the place of a space by name and id is a parameter; labels and date texts are not modelled.
- OrderTable.BlockSegments: floating-point quantities are modelled exactly, in sixtieths.
- DateRange.GetDateRangeInclusive: says nothing for starts that are not dates; parsing and printing are not modelled, so neither are inputs that are not `YYYY-MM-DD` nor years below 1000, which are printed without leading zeros.
- PythonInt.PyInt: digits and spaces are those of ASCII, and the limit of 4300 digits is left out.
- Blocks.MergeConsecutiveSlots: slots have whole minutes, where the source compares seconds; the hours property of a merged block is not modelled.
- Simultaneous transactions: lost updates and rows inserted between a check and its write are below this model.
- The block endpoints (`block_parent_and_children`, `block_child_and_parent`) overwrite statuses without looking at reservations, so they are not steps of a run.
- Spaces and relationships changing during a run, and several parents for one space.
- Messages, `motivo` texts, `allowed_blocks` and the internal statuses shown to privileged roles.
- HTTP, authentication, tenants' row security, rate limits, audit log, e-mails, PDF and QR files, KYC purge and synchronisation.
- Which pricing rule applies on a date, discount validation, and CRM quotes with their frozen prices: rules and discount are parameters.
- Migrations, metrics, labels, permission sets and other members with nothing to prove beyond their text.
