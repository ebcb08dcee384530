/** The rows the timesheet protocol works on, and the write-time guards the database puts on them. */
module Tables {

  datatype Option<+T> = None | Some(value: T)

  type UserId = int
  type EntryId = nat
  type Instant = int  // microseconds since an arbitrary epoch

  const HOUR: int := 3_600_000_000
  const DAY: int := 24 * HOUR

  /** A (year, week) pair as it is written in a URL token; it need not name a week of any calendar. */
  datatype Week = Week(isoYear: int, isoWeek: int)

  /** What the CHECK on timesheet_periods.iso_week admits. */
  predicate OnCalendar(w: Week) {
    1 <= w.isoWeek <= 53
  }

  type IsoWeek = w: Week | OnCalendar(w) witness Week(2026, 1)

  /** The ISO week of an instant in its owner's (fixed) time zone. */
  type WeekOf = (UserId, Instant) -> IsoWeek

  datatype Status = Running | Draft | Submitted | ManagerApproved | FinalApproved | Rejected

  /** One row of time_entry_state_history. */
  datatype Transition = Transition(fromStatus: Status, toStatus: Status, actor: UserId, reason: Option<string>)

  /** A row of time_entries, with its history rows in insertion order: the foreign key's cascade
      makes them live and die with the entry. */
  datatype Entry = Entry(
    user: UserId,
    project: int,
    task: Option<int>,
    notes: Option<string>,
    startAt: Instant,
    endAt: Option<Instant>,
    status: Status,
    billable: bool,
    mood: Option<int>,
    key: Option<string>,  // idempotency_key
    updatedAt: Instant,
    log: seq<Transition>)

  type Entries = map<EntryId, Entry>

  datatype PeriodStatus = Open | PSubmitted | PManagerApproved | PFinalApproved | PRejected

  datatype Period = Period(
    status: PeriodStatus,
    submittedAt: Option<Instant>,
    submittedBy: Option<UserId>,
    managerApprovedAt: Option<Instant>,
    finalApprovedAt: Option<Instant>,
    reopenedAt: Option<Instant>)

  datatype PeriodKey = PeriodKey(user: UserId, week: Week)

  type Periods = map<PeriodKey, Period>

  /** A timer request's body after schema parsing; two bodies hash alike iff they are equal. */
  datatype Body = Body(project: int, task: Option<int>, notes: Option<string>, mood: Option<int>)

  datatype TimerBody = StartBody(body: Body) | StopBody(notes: Option<string>)

  datatype Reply = Row(id: EntryId, entry: Entry) | NoTimer

  /** A row of idempotency_keys. */
  datatype Cached = Cached(body: TimerBody, reply: Reply)

  datatype CacheKey = CacheKey(user: UserId, key: string)

  datatype Db = Db(entries: Entries, periods: Periods, cache: map<CacheKey, Cached>, nextId: EntryId)

  // --- statuses ----------------------------------------------------------------------------

  predicate LockedStatus(s: Status) {
    s.Submitted? || s.ManagerApproved? || s.FinalApproved?
  }

  predicate LockedPeriod(s: PeriodStatus) {
    s.PSubmitted? || s.PManagerApproved? || s.PFinalApproved?
  }

  predicate IsLocked(periods: Periods, k: PeriodKey) {
    k in periods && LockedPeriod(periods[k].status)
  }

  /** How far an entry has come: draft 0, submitted 1, manager_approved 2, final_approved 3. */
  function Stage(s: Status): int {
    match s
    case Submitted => 1
    case ManagerApproved => 2
    case FinalApproved => 3
    case _ => 0
  }

  function PeriodStage(s: PeriodStatus): int {
    match s
    case PSubmitted => 1
    case PManagerApproved => 2
    case PFinalApproved => 3
    case _ => 0
  }

  // --- weeks -------------------------------------------------------------------------------

  function KeyOf(weekOf: WeekOf, e: Entry): PeriodKey {
    PeriodKey(e.user, weekOf(e.user, e.startAt))
  }

  /** The week of `k` holds an entry in status `st`. */
  predicate Has(weekOf: WeekOf, entries: Entries, k: PeriodKey, st: Status) {
    exists id :: id in entries && KeyOf(weekOf, entries[id]) == k && entries[id].status == st
  }

  // --- write-time guards of time_entries ---------------------------------------------------

  /** te_end_at_matches_status. */
  predicate EndMatchesStatus(e: Entry) {
    e.status.Running? <==> e.endAt.None?
  }

  /** tstzrange(start_at, end_at) refuses a lower bound above the upper one. */
  predicate RangeWellFormed(e: Entry) {
    e.endAt.Some? ==> e.startAt <= e.endAt.value
  }

  /** Two closed, non-empty half-open ranges of one user meet. */
  predicate Overlap(a: Entry, b: Entry) {
    && a.user == b.user && a.endAt.Some? && b.endAt.Some?
    && a.startAt < a.endAt.value && b.startAt < b.endAt.value
    && a.startAt < b.endAt.value && b.startAt < a.endAt.value
  }

  /** te_no_overlap. */
  predicate NoOverlap(entries: Entries) {
    forall i, j :: i in entries && j in entries && i != j ==> !Overlap(entries[i], entries[j])
  }

  /** te_one_running_per_user. */
  predicate OneRunning(entries: Entries) {
    forall i, j :: i in entries && j in entries && i != j
      && entries[i].status.Running? && entries[j].status.Running?
      ==> entries[i].user != entries[j].user
  }

  /** te_idempotency_unique. */
  predicate KeysUnique(entries: Entries) {
    forall i, j :: i in entries && j in entries && i != j
      && entries[i].key.Some? && entries[i].key == entries[j].key
      ==> entries[i].user != entries[j].user
  }

  predicate RowsWellFormed(entries: Entries) {
    forall id :: id in entries ==> EndMatchesStatus(entries[id]) && RangeWellFormed(entries[id])
  }

  predicate Constraints(entries: Entries) {
    RowsWellFormed(entries) && NoOverlap(entries) && OneRunning(entries) && KeysUnique(entries)
  }
}
