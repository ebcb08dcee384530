/** The schedule dashboard: one shaded block for every in-scope user and working day, overrides before templates. */
module ScheduleGrid {
  import opened Tables
  import IsoWeeks

  type Date = IsoWeeks.Day

  /** A time of day in minutes; the column admits 24:00. */
  type Minutes = m: nat | m <= 1440

  datatype Shift = Shift(start: Minutes, end: Minutes, lunchStart: Option<Minutes>, lunchEnd: Option<Minutes>)

  /** Whom an override is for; the table's CHECK ties the target to the scope. */
  datatype Scope = UserScope(user: int) | ProjectScope(project: int) | OrgScope

  datatype Override = Override(
    scope: Scope, from: Date, to: Date,
    start: Option<Minutes>, end: Option<Minutes>, lunchStart: Option<Minutes>, lunchEnd: Option<Minutes>,
    reason: Option<string>)

  /** A user with the columns of the schedule template, all absent when there is no template. */
  datatype User = User(
    id: int, name: string, active: bool, days: Option<seq<int>>,
    start: Option<Minutes>, end: Option<Minutes>, lunchStart: Option<Minutes>, lunchEnd: Option<Minutes>)

  datatype Source = FromTemplate | FromUser | FromOrg

  /** Hours are in hundredths, as the reply prints them. */
  datatype Block = Block(user: int, name: string, date: Date, start: Minutes, end: Minutes, hours: nat, source: Source,
    reason: Option<string>)

  /** The tab asked for; `Individual` with the user asked for, if any. */
  datatype Tab = Company | Team | Individual(user: Option<int>) | OtherTab

  /** Who asks: whether as admin or finance manager, and which users they may see, all if unrestricted. */
  datatype Requester = Requester(id: int, privileged: bool, visible: Option<set<int>>)

  datatype Reply = Invalid | Forbidden | Grid(blocks: seq<Block>)

  // --- pure helpers ------------------------------------------------------------------------

  /** Sunday is numbered 0 first, as getUTCDay does, and then 7. */
  function IsoWeekday(d: Date): int {
    var dow := (d + 1) % 7;
    if dow == 0 then 7 else dow
  }

  /** The weekday counts the days since the Monday of the date's week. */
  lemma IsoWeekdayIs(d: Date)
    ensures 1 <= IsoWeekday(d) <= 7
    ensures IsoWeeks.MondayOf(d) + IsoWeekday(d) - 1 == d
  {
  }

  predicate CoversDate(o: Override, d: Date) {
    o.from <= d <= o.to
  }

  function MaxZero(n: int): nat {
    if n < 0 then 0 else n
  }

  /** The shift less its lunch, each clipped at zero. */
  function WorkedMinutes(s: Shift): nat {
    var lunch := if s.lunchStart.Some? && s.lunchEnd.Some? then MaxZero(s.lunchEnd.value - s.lunchStart.value) else 0;
    MaxZero(s.end - s.start - lunch)
  }

  /** Minutes as hundredths of an hour, rounded to the nearest. */
  function ComputeHours(s: Shift): nat {
    (10 * WorkedMinutes(s) + 3) / 6
  }

  /** Hours lie in 0..24 and stand for the worked minutes to within a third of a hundredth; a tie cannot arise. A shift
      that holds its lunch is worth the part before it and the part after it. */
  lemma HoursInRange(s: Shift)
    ensures ComputeHours(s) <= 2400
    ensures -1 <= 3 * ComputeHours(s) - 5 * WorkedMinutes(s) <= 1
    ensures s.end <= s.start ==> ComputeHours(s) == 0
    ensures s.lunchStart.Some? && s.lunchEnd.Some? && s.start <= s.lunchStart.value <= s.lunchEnd.value <= s.end ==>
      WorkedMinutes(s) == (s.lunchStart.value - s.start) + (s.end - s.lunchEnd.value)
  {
  }

  function Or<T>(value: Option<T>, default: T): T {
    if value.Some? then value.value else default
  }

  predicate Works(u: User, d: Date) {
    IsoWeekday(d) in Or(u.days, [1, 2, 3, 4, 5])
  }

  /** The date is one of the user's working days, numbered from Monday 1, or without a template Monday to Friday. */
  predicate OnDuty(u: User, d: Date) {
    var sinceMonday := d - IsoWeeks.MondayOf(d);
    if u.days.Some? then sinceMonday + 1 in u.days.value else sinceMonday <= 4
  }

  lemma WorksIff(u: User, d: Date)
    ensures Works(u, d) <==> OnDuty(u, d)
  {
    IsoWeekdayIs(d);
  }

  /** The shift of a day: the override's when it has both times, none when it has not, else the template's. */
  function ShiftFor(u: User, chosen: Option<Override>): Shift {
    match chosen
    case None => Shift(Or(u.start, 480), Or(u.end, 1020), u.lunchStart, u.lunchEnd)
    case Some(o) =>
      if o.start.Some? && o.end.Some? then Shift(o.start.value, o.end.value, o.lunchStart, o.lunchEnd)
      else Shift(0, 0, None, None)
  }

  function BlockFor(u: User, d: Date, chosen: Option<Override>): Block {
    var s := ShiftFor(u, chosen);
    Block(u.id, u.name, d, s.start, s.end, ComputeHours(s),
          if chosen.None? then FromTemplate else if chosen.value.scope.OrgScope? then FromOrg else FromUser,
          if chosen.None? then None else chosen.value.reason)
  }

  /** The hours stand for this many minutes, up to rounding. */
  predicate StandsFor(hours: nat, minutes: int) {
    -1 <= 3 * hours - 5 * minutes <= 1
  }

  /** Four times in the order of a day: the shift, with lunch inside it. */
  predicate DayInOrder(start: Option<Minutes>, lunchStart: Option<Minutes>, lunchEnd: Option<Minutes>,
                       end: Option<Minutes>) {
    && start.Some? && lunchStart.Some? && lunchEnd.Some? && end.Some?
    && start.value <= lunchStart.value <= lunchEnd.value <= end.value
  }

  /** Under an override a block's times and hours are the override's alone, lunch included, whatever the template:
      none at all if it lacks a time. */
  lemma OverrideReplacesTemplate(u: User, v: User, d: Date, o: Override)
    ensures var a, b := BlockFor(u, d, Some(o)), BlockFor(v, d, Some(o));
      && a.start == b.start && a.end == b.end && a.hours == b.hours
      && (a.user, a.name, a.date, a.reason) == (u.id, u.name, d, o.reason)
      && a.source == (if o.scope.OrgScope? then FromOrg else FromUser)
      && (o.start.None? || o.end.None? ==> a.hours == 0 && a.start == a.end == 0)
      && (o.start.Some? && o.end.Some? ==> a.start == o.start.value && a.end == o.end.value)
      && (o.start.Some? && o.end.Some? && o.lunchStart.None? && o.start.value <= o.end.value ==>
            StandsFor(a.hours, o.end.value - o.start.value))
      && (DayInOrder(o.start, o.lunchStart, o.lunchEnd, o.end) ==>
            StandsFor(a.hours, o.lunchStart.value - o.start.value + o.end.value - o.lunchEnd.value))
  {
  }

  /** Without one they are the template's, and nine hours from eight if there is none. */
  lemma TemplateStands(u: User, d: Date)
    ensures var a := BlockFor(u, d, None);
      && (a.user, a.name, a.date, a.reason, a.source) == (u.id, u.name, d, None, FromTemplate)
      && (u.start.Some? ==> a.start == u.start.value) && (u.end.Some? ==> a.end == u.end.value)
      && (DayInOrder(u.start, u.lunchStart, u.lunchEnd, u.end) ==>
            StandsFor(a.hours, u.lunchStart.value - u.start.value + u.end.value - u.lunchEnd.value))
      && (u.start.None? && u.end.None? && u.lunchStart.None? ==>
           a.start == 8 * 60 && a.end == 17 * 60 && a.hours == 900)
  {
  }

  // --- choosing an override ----------------------------------------------------------------

  /** The overrides of one scope, in order. */
  function OfScope(os: seq<Override>, scope: Scope): seq<Override> {
    if os == [] then []
    else OfScope(os[..|os| - 1], scope) + if os[|os| - 1].scope == scope then [os[|os| - 1]] else []
  }

  lemma {:induction false} OfScopeHolds(os: seq<Override>, scope: Scope)
    ensures forall o :: o in OfScope(os, scope) <==> o in os && o.scope == scope
  {
    if os != [] {
      OfScopeHolds(os[..|os| - 1], scope);
      assert os == os[..|os| - 1] + [os[|os| - 1]];
    }
  }

  lemma OneMore(os: seq<Override>, i: nat, scope: Scope)
    requires i < |os|
    ensures OfScope(os[..i + 1], scope) == OfScope(os[..i], scope) + if os[i].scope == scope then [os[i]] else []
  {
    assert os[..i + 1][..i] == os[..i];
  }

  /** `find`: the first override in the list that covers the date. */
  function FirstCovering(os: seq<Override>, d: Date): Option<Override> {
    if os == [] then None else if CoversDate(os[0], d) then Some(os[0]) else FirstCovering(os[1..], d)
  }

  lemma {:induction false} FirstCoveringIs(os: seq<Override>, d: Date)
    ensures var r := FirstCovering(os, d);
      && (r.None? ==> forall o :: o in os ==> !CoversDate(o, d))
      && (r.Some? ==> r.value in os && CoversDate(r.value, d))
  {
    if os != [] && !CoversDate(os[0], d) {
      FirstCoveringIs(os[1..], d);
      assert os == [os[0]] + os[1..];
    }
  }

  function Chosen(fetched: seq<Override>, user: int, d: Date): Option<Override> {
    var own := FirstCovering(OfScope(fetched, UserScope(user)), d);
    if own.Some? then own else FirstCovering(OfScope(fetched, OrgScope), d)
  }

  /** The overrides query's WHERE. */
  predicate Selected(stored: seq<Override>, from: Date, to: Date, filter: Option<set<int>>, o: Override) {
    && o in stored && o.from <= to && o.to >= from
    && (o.scope.OrgScope? || (o.scope.UserScope? && (filter.None? || o.scope.user in filter.value)))
  }

  /** The rows the overrides query selects, whatever order it gives them in. */
  ghost predicate Fetches(stored: seq<Override>, from: Date, to: Date, filter: Option<set<int>>,
                          fetched: seq<Override>) {
    forall o :: o in fetched <==> Selected(stored, from, to, filter, o)
  }

  /** The constraint so_no_overlap: windows of one scope and target share no date. */
  predicate NoOverlap(stored: seq<Override>) {
    forall i, j :: 0 <= i < j < |stored| && stored[i].scope == stored[j].scope ==>
      stored[i].to < stored[j].from || stored[j].to < stored[i].from
  }

  predicate Applies(stored: seq<Override>, scope: Scope, d: Date, o: Override) {
    o in stored && o.scope == scope && CoversDate(o, d)
  }

  /** The promised precedence, over the stored table: user before org before none. */
  ghost predicate Prevails(stored: seq<Override>, user: int, d: Date, chosen: Option<Override>) {
    match chosen
    case Some(o) =>
      || Applies(stored, UserScope(user), d, o)
      || (Applies(stored, OrgScope, d, o) && forall p :: !Applies(stored, UserScope(user), d, p))
    case None => forall p :: !Applies(stored, UserScope(user), d, p) && !Applies(stored, OrgScope, d, p)
  }

  lemma ChosenPrevails(stored: seq<Override>, from: Date, to: Date, filter: Option<set<int>>, fetched: seq<Override>,
                       user: int, d: Date)
    requires Fetches(stored, from, to, filter, fetched)
    requires from <= d <= to && (filter.None? || user in filter.value)
    ensures Prevails(stored, user, d, Chosen(fetched, user, d))
  {
    OfScopeHolds(fetched, UserScope(user));
    OfScopeHolds(fetched, OrgScope);
    FirstCoveringIs(OfScope(fetched, UserScope(user)), d);
    FirstCoveringIs(OfScope(fetched, OrgScope), d);
    forall p, scope | Applies(stored, scope, d, p) && (scope == UserScope(user) || scope == OrgScope)
      ensures p in fetched
    {
      assert Selected(stored, from, to, filter, p);
    }
  }

  lemma OnePrevails(stored: seq<Override>, user: int, d: Date, a: Option<Override>, b: Option<Override>)
    requires NoOverlap(stored) && Prevails(stored, user, d, a) && Prevails(stored, user, d, b)
    ensures a == b
  {
    if a.Some? && b.Some? {
      assert a.value.scope == b.value.scope;
      var i :| 0 <= i < |stored| && stored[i] == a.value;
      var j :| 0 <= j < |stored| && stored[j] == b.value;
    }
  }

  // --- the grid ----------------------------------------------------------------------------

  /** One user's blocks of one day: one, or none if the user does not work on it. */
  function DayBlocks(u: User, d: Date, fetched: seq<Override>): seq<Block> {
    if Works(u, d) then [BlockFor(u, d, Chosen(fetched, u.id, d))] else []
  }

  /** Day by day, over the first `n` days from `from`. */
  function Collect(daily: Date -> seq<Block>, from: Date, n: nat): seq<Block> {
    if n == 0 then [] else Collect(daily, from, n - 1) + daily(from + n - 1)
  }

  function Daily(u: User, fetched: seq<Override>): Date -> seq<Block> {
    d => DayBlocks(u, d, fetched)
  }

  /** One user's blocks over the range. */
  function UserBlocks(u: User, from: Date, n: nat, fetched: seq<Override>): seq<Block> {
    Collect(Daily(u, fetched), from, n)
  }

  function Blocks(users: seq<User>, from: Date, n: nat, fetched: seq<Override>): seq<Block> {
    if users == [] then []
    else Blocks(users[..|users| - 1], from, n, fetched) + UserBlocks(users[|users| - 1], from, n, fetched)
  }

  /** The users query: active and, unless unrestricted, in the filter. */
  function InScope(users: seq<User>, filter: Option<set<int>>): seq<User> {
    if users == [] then []
    else
      var u := users[|users| - 1];
      InScope(users[..|users| - 1], filter) + if Visible(u, filter) then [u] else []
  }

  predicate Visible(u: User, filter: Option<set<int>>) {
    u.active && (filter.None? || u.id in filter.value)
  }

  lemma {:induction false} InScopeHolds(users: seq<User>, filter: Option<set<int>>)
    ensures forall u :: u in InScope(users, filter) <==> u in users && Visible(u, filter)
  {
    if users != [] {
      InScopeHolds(users[..|users| - 1], filter);
      assert users == users[..|users| - 1] + [users[|users| - 1]];
    }
  }

  lemma {:induction false} InScopeOfNone(users: seq<User>, filter: Option<set<int>>)
    requires filter == Some({})
    ensures InScope(users, filter) == []
  {
    if users != [] { InScopeOfNone(users[..|users| - 1], filter); }
  }

  method EnumerateDates(from: Date, to: Date) returns (days: seq<Date>)
    ensures |days| == MaxZero(to - from + 1) && forall i :: 0 <= i < |days| ==> days[i] == from + i
  {
    days := [];
    var d := from;
    while d <= to
      invariant d == from + |days| && |days| <= MaxZero(to - from + 1)
      invariant forall i :: 0 <= i < |days| ==> days[i] == from + i
    {
      days := days + [d];
      d := d + 1;
    }
  }

  function ListOf(byUser: map<int, seq<Override>>, user: int): seq<Override> {
    if user in byUser then byUser[user] else []
  }

  /** The overrides split by user, and those of the organisation. */
  method Index(fetched: seq<Override>) returns (byUser: map<int, seq<Override>>, org: seq<Override>)
    requires forall o :: o in fetched ==> !o.scope.ProjectScope?
    ensures org == OfScope(fetched, OrgScope)
    ensures forall u :: ListOf(byUser, u) == OfScope(fetched, UserScope(u))
  {
    byUser, org := map[], [];
    for i := 0 to |fetched|
      invariant org == OfScope(fetched[..i], OrgScope)
      invariant forall u :: ListOf(byUser, u) == OfScope(fetched[..i], UserScope(u))
    {
      var o := fetched[i];
      assert o in fetched;
      forall scope
        ensures OfScope(fetched[..i + 1], scope) == OfScope(fetched[..i], scope) + if o.scope == scope then [o] else []
      {
        OneMore(fetched, i, scope);
      }
      if o.scope.OrgScope? {
        org := org + [o];
      } else {
        byUser := byUser[o.scope.user := ListOf(byUser, o.scope.user) + [o]];
      }
    }
    assert fetched[..|fetched|] == fetched;
  }

  /** The inner loop: one user's days. */
  method BlocksOf(u: User, from: Date, days: seq<Date>, own: seq<Override>, org: seq<Override>,
                  ghost fetched: seq<Override>)
    returns (blocks: seq<Block>)
    requires forall i :: 0 <= i < |days| ==> days[i] == from + i
    requires own == OfScope(fetched, UserScope(u.id)) && org == OfScope(fetched, OrgScope)
    ensures blocks == UserBlocks(u, from, |days|, fetched)
  {
    blocks := [];
    for j := 0 to |days|
      invariant blocks == UserBlocks(u, from, j, fetched)
    {
      var d := days[j];
      if IsoWeekday(d) in Or(u.days, [1, 2, 3, 4, 5]) {
        var covering := FirstCovering(own, d);
        if covering.None? { covering := FirstCovering(org, d); }
        blocks := blocks + [BlockFor(u, d, covering)];
      }
    }
  }

  /** The outer loop, over the users the query gave. */
  method Compose(rows: seq<User>, from: Date, days: seq<Date>, fetched: seq<Override>) returns (blocks: seq<Block>)
    requires forall o :: o in fetched ==> !o.scope.ProjectScope?
    requires forall i :: 0 <= i < |days| ==> days[i] == from + i
    ensures blocks == Blocks(rows, from, |days|, fetched)
  {
    var byUser, org := Index(fetched);
    blocks := [];
    for i := 0 to |rows|
      invariant blocks == Blocks(rows[..i], from, |days|, fetched)
    {
      assert rows[..i + 1][..i] == rows[..i];
      var more := BlocksOf(rows[i], from, days, ListOf(byUser, rows[i].id), org, fetched);
      blocks := blocks + more;
    }
    assert rows[..|rows|] == rows;
  }

  datatype Filter = Users(ids: Option<set<int>>) | Refused(reply: Reply)

  /** The users a tab is for; no set stands for all. */
  function FilterFor(tab: Tab, who: Requester): Filter {
    match tab
    case Company => if who.privileged then Users(None) else Refused(Forbidden)
    case Team => Users(who.visible)
    case Individual(user) =>
      if user.None? then Refused(Invalid)
      else if user.value != who.id && who.visible.Some? && user.value !in who.visible.value then Refused(Forbidden)
      else Users(Some({user.value}))
    case OtherTab => Refused(Invalid)
  }

  lemma {:induction false} CollectedOn(daily: Date -> seq<Block>, from: Date, n: nat, b: Block) returns (d: Date)
    requires b in Collect(daily, from, n)
    ensures from <= d < from + n && b in daily(d)
  {
    if b in daily(from + n - 1) { d := from + n - 1; } else { d := CollectedOn(daily, from, n - 1, b); }
  }

  /** A grid shows, besides the requester, only users the requester may see, unless an admin or finance manager asks for
      the company. */
  lemma GridShowsVisible(tab: Tab, who: Requester, users: seq<User>, from: Date, n: nat, fetched: seq<Override>,
                         b: Block)
    requires FilterFor(tab, who).Users? && b in Blocks(InScope(users, FilterFor(tab, who).ids), from, n, fetched)
    ensures b.user == who.id || who.visible.None? || b.user in who.visible.value || (tab.Company? && who.privileged)
  {
    InScopeHolds(users, FilterFor(tab, who).ids);
    BlocksAreOf(InScope(users, FilterFor(tab, who).ids), from, n, fetched, b);
  }

  lemma {:induction false} BlocksAreOf(users: seq<User>, from: Date, n: nat, fetched: seq<Override>, b: Block)
    requires b in Blocks(users, from, n, fetched)
    ensures exists u :: u in users && u.id == b.user
  {
    var front, u := users[..|users| - 1], users[|users| - 1];
    if b in Blocks(front, from, n, fetched) {
      BlocksAreOf(front, from, n, fetched, b);
      var v :| v in front && v.id == b.user;
      assert v in users;
    } else {
      var d := CollectedOn(Daily(u, fetched), from, n, b);
      assert u in users && u.id == b.user;
    }
  }

  // --- what the grid holds -----------------------------------------------------------------

  /** How many blocks the reply has for a user and a date. */
  function CountOf(blocks: seq<Block>, user: int, d: Date): nat {
    if blocks == [] then 0
    else CountOf(blocks[..|blocks| - 1], user, d)
         + if blocks[|blocks| - 1].user == user && blocks[|blocks| - 1].date == d then 1 else 0
  }

  lemma {:induction false} CountJoin(a: seq<Block>, b: seq<Block>, user: int, d: Date)
    ensures CountOf(a + b, user, d) == CountOf(a, user, d) + CountOf(b, user, d)
  {
    if b == [] { assert a + b == a; }
    else {
      CountJoin(a, b[..|b| - 1], user, d);
      assert (a + b)[..|a + b| - 1] == a + b[..|b| - 1];
    }
  }

  lemma DayBlocksCount(u: User, day: Date, fetched: seq<Override>, user: int, d: Date)
    ensures CountOf(DayBlocks(u, day, fetched), user, d) == if u.id == user && day == d && OnDuty(u, d) then 1 else 0
  {
    WorksIff(u, day);
    if Works(u, day) {
      var b := BlockFor(u, day, Chosen(fetched, u.id, day));
      assert DayBlocks(u, day, fetched) == [b] && [b][..0] == [];
      assert CountOf([b], user, d) == CountOf([b][..0], user, d) + if b.user == user && b.date == d then 1 else 0;
    }
  }

  lemma {:induction false} CollectCount(daily: Date -> seq<Block>, from: Date, n: nat, user: int, d: Date)
    requires forall day :: day != d ==> CountOf(daily(day), user, d) == 0
    ensures CountOf(Collect(daily, from, n), user, d) == if from <= d < from + n then CountOf(daily(d), user, d) else 0
  {
    if n > 0 {
      CollectCount(daily, from, n - 1, user, d);
      CountJoin(Collect(daily, from, n - 1), daily(from + n - 1), user, d);
    }
  }

  lemma UserBlocksCount(u: User, from: Date, n: nat, fetched: seq<Override>, user: int, d: Date)
    ensures CountOf(UserBlocks(u, from, n, fetched), user, d)
      == if u.id == user && from <= d < from + n && OnDuty(u, d) then 1 else 0
  {
    forall day
      ensures CountOf(Daily(u, fetched)(day), user, d) == if u.id == user && day == d && OnDuty(u, d) then 1 else 0
    {
      DayBlocksCount(u, day, fetched, user, d);
    }
    CollectCount(Daily(u, fetched), from, n, user, d);
  }

  predicate DistinctUsers(users: seq<User>) {
    forall i, j :: 0 <= i < j < |users| ==> users[i].id != users[j].id
  }

  /** A block is due when some user with that id is on duty on that day of the range. */
  ghost predicate Due(users: seq<User>, from: Date, n: nat, user: int, d: Date) {
    from <= d < from + n && exists u :: u in users && u.id == user && OnDuty(u, d)
  }

  lemma DueOneMore(users: seq<User>, from: Date, n: nat, user: int, d: Date)
    requires users != [] && DistinctUsers(users)
    ensures var front, u := users[..|users| - 1], users[|users| - 1];
      var last := u.id == user && from <= d < from + n && OnDuty(u, d);
      && (Due(users, from, n, user, d) <==> Due(front, from, n, user, d) || last)
      && !(Due(front, from, n, user, d) && last)
  {
    var front, u := users[..|users| - 1], users[|users| - 1];
    assert users == front + [u];
    if Due(front, from, n, user, d) {
      var v :| v in front && v.id == user && OnDuty(v, d);
      var i :| 0 <= i < |front| && front[i] == v;
      assert users[i] == v && users[i].id != users[|users| - 1].id;
    }
  }

  /** Exactly one block for every user and working day of the range, none for any other day, none repeated. */
  lemma {:induction false} OneBlockEach(users: seq<User>, from: Date, n: nat, fetched: seq<Override>, user: int,
                                        d: Date)
    requires DistinctUsers(users)
    ensures CountOf(Blocks(users, from, n, fetched), user, d) == if Due(users, from, n, user, d) then 1 else 0
  {
    if users != [] {
      var front, u := users[..|users| - 1], users[|users| - 1];
      OneBlockEach(front, from, n, fetched, user, d);
      UserBlocksCount(u, from, n, fetched, user, d);
      CountJoin(Blocks(front, from, n, fetched), UserBlocks(u, from, n, fetched), user, d);
      DueOneMore(users, from, n, user, d);
    }
  }

  /** What one block may say, by the stored overrides alone. */
  ghost predicate Rightful(stored: seq<Override>, users: seq<User>, b: Block) {
    exists u, chosen :: u in users && Prevails(stored, u.id, b.date, chosen) && b == BlockFor(u, b.date, chosen)
  }

  lemma DayBlocksRightful(u: User, d: Date, from: Date, to: Date, stored: seq<Override>, filter: Option<set<int>>,
                          fetched: seq<Override>, users: seq<User>)
    requires Fetches(stored, from, to, filter, fetched) && from <= d <= to
    requires u in users && (filter.None? || u.id in filter.value)
    ensures forall b :: b in DayBlocks(u, d, fetched) ==> Rightful(stored, users, b)
  {
    ChosenPrevails(stored, from, to, filter, fetched, u.id, d);
    assert Rightful(stored, users, BlockFor(u, d, Chosen(fetched, u.id, d)));
  }

  lemma UserBlocksRightful(u: User, from: Date, n: nat, to: Date, stored: seq<Override>, filter: Option<set<int>>,
                           fetched: seq<Override>, users: seq<User>)
    requires Fetches(stored, from, to, filter, fetched) && from + n <= to + 1
    requires u in users && (filter.None? || u.id in filter.value)
    ensures forall b :: b in UserBlocks(u, from, n, fetched) ==> Rightful(stored, users, b)
  {
    forall b | b in UserBlocks(u, from, n, fetched) ensures Rightful(stored, users, b) {
      var d := CollectedOn(Daily(u, fetched), from, n, b);
      DayBlocksRightful(u, d, from, to, stored, filter, fetched, users);
    }
  }

  lemma {:induction false} BlocksRightful(part: seq<User>, users: seq<User>, from: Date, to: Date,
                                          stored: seq<Override>,
                                          filter: Option<set<int>>, fetched: seq<Override>)
    requires Fetches(stored, from, to, filter, fetched) && from <= to
    requires forall u :: u in part ==> u in users && (filter.None? || u.id in filter.value)
    ensures forall b :: b in Blocks(part, from, to - from + 1, fetched) ==> Rightful(stored, users, b)
  {
    if part != [] {
      var front, u := part[..|part| - 1], part[|part| - 1];
      assert u in part;
      forall v | v in front ensures v in part { }
      BlocksRightful(front, users, from, to, stored, filter, fetched);
      UserBlocksRightful(u, from, to - from + 1, to, stored, filter, fetched, users);
    }
  }

  /** Every block shows the override that prevails for its user and date, user before org before template, with
      hours in 0..24. */
  lemma GridShowsPrevailing(users: seq<User>, from: Date, to: Date, stored: seq<Override>, filter: Option<set<int>>,
                            fetched: seq<Override>)
    requires Fetches(stored, from, to, filter, fetched) && from <= to
    ensures forall b :: b in Blocks(InScope(users, filter), from, to - from + 1, fetched) ==>
      Rightful(stored, InScope(users, filter), b) && b.hours <= 2400
  {
    var part := InScope(users, filter);
    InScopeHolds(users, filter);
    BlocksRightful(part, part, from, to, stored, filter, fetched);
    forall b | b in Blocks(part, from, to - from + 1, fetched) ensures b.hours <= 2400 {
      assert Rightful(stored, part, b);
      var u, chosen :| u in part && Prevails(stored, u.id, b.date, chosen) && b == BlockFor(u, b.date, chosen);
      HoursInRange(ShiftFor(u, chosen));
    }
  }

  lemma ChoiceIgnoresOrder(stored: seq<Override>, from: Date, to: Date, filter: Option<set<int>>, a: seq<Override>,
                           b: seq<Override>,
                           user: int, d: Date)
    requires NoOverlap(stored) && from <= d <= to && (filter.None? || user in filter.value)
    requires Fetches(stored, from, to, filter, a) && Fetches(stored, from, to, filter, b)
    ensures Chosen(a, user, d) == Chosen(b, user, d)
  {
    ChosenPrevails(stored, from, to, filter, a, user, d);
    ChosenPrevails(stored, from, to, filter, b, user, d);
    OnePrevails(stored, user, d, Chosen(a, user, d), Chosen(b, user, d));
  }

  lemma {:induction false} CollectSame(one: Date -> seq<Block>, other: Date -> seq<Block>, from: Date, n: nat)
    requires forall d :: from <= d < from + n ==> one(d) == other(d)
    ensures Collect(one, from, n) == Collect(other, from, n)
  {
    if n > 0 { CollectSame(one, other, from, n - 1); }
  }

  lemma UserBlocksIgnoreOrder(u: User, from: Date, n: nat, to: Date, stored: seq<Override>, filter: Option<set<int>>,
                              a: seq<Override>, b: seq<Override>)
    requires NoOverlap(stored) && from + n <= to + 1 && (filter.None? || u.id in filter.value)
    requires Fetches(stored, from, to, filter, a) && Fetches(stored, from, to, filter, b)
    ensures UserBlocks(u, from, n, a) == UserBlocks(u, from, n, b)
  {
    forall d | from <= d < from + n ensures Daily(u, a)(d) == Daily(u, b)(d) {
      ChoiceIgnoresOrder(stored, from, to, filter, a, b, u.id, d);
    }
    CollectSame(Daily(u, a), Daily(u, b), from, n);
  }

  predicate AllIn(users: seq<User>, filter: Option<set<int>>) {
    forall i :: 0 <= i < |users| ==> filter.None? || users[i].id in filter.value
  }

  lemma InScopeAllIn(users: seq<User>, filter: Option<set<int>>)
    ensures AllIn(InScope(users, filter), filter)
  {
    InScopeHolds(users, filter);
    var part := InScope(users, filter);
    forall i | 0 <= i < |part| ensures filter.None? || part[i].id in filter.value { assert part[i] in part; }
  }

  lemma {:induction false} BlocksIgnoreOrder(part: seq<User>, from: Date, n: nat, to: Date, stored: seq<Override>,
                                             filter: Option<set<int>>, a: seq<Override>, b: seq<Override>)
    requires NoOverlap(stored) && from + n <= to + 1 && AllIn(part, filter)
    requires Fetches(stored, from, to, filter, a) && Fetches(stored, from, to, filter, b)
    ensures Blocks(part, from, n, a) == Blocks(part, from, n, b)
  {
    if part != [] {
      BlocksIgnoreOrder(part[..|part| - 1], from, n, to, stored, filter, a, b);
      UserBlocksIgnoreOrder(part[|part| - 1], from, n, to, stored, filter, a, b);
    }
  }

  /** While same-scope windows do not overlap, the grid does not depend on the order the overrides come back in. */
  lemma GridIgnoresOverrideOrder(users: seq<User>, from: Date, to: Date, stored: seq<Override>,
                                 filter: Option<set<int>>,
                                 a: seq<Override>, b: seq<Override>)
    requires NoOverlap(stored) && from <= to
    requires Fetches(stored, from, to, filter, a) && Fetches(stored, from, to, filter, b)
    ensures Blocks(InScope(users, filter), from, to - from + 1, a)
        == Blocks(InScope(users, filter), from, to - from + 1, b)
  {
    InScopeAllIn(users, filter);
    BlocksIgnoreOrder(InScope(users, filter), from, to - from + 1, to, stored, filter, a, b);
  }

  lemma OneOverlap(u: User, d: Date, a: Override, b: Override)
    requires a.scope == UserScope(u.id) && b.scope == UserScope(u.id) && CoversDate(a, d) && Works(u, d)
    ensures Blocks([u], d, 1, [a, b]) == [BlockFor(u, d, Some(a))]
  {
    OneMore([a, b], 0, UserScope(u.id));
    OneMore([a, b], 1, UserScope(u.id));
    assert [a, b][..2] == [a, b];
    assert OfScope([a, b], UserScope(u.id)) == [a, b];
    assert Blocks([u][..0], d, 1, [a, b]) == [];
    assert Collect(Daily(u, [a, b]), d, 0) == [];
    assert UserBlocks(u, d, 1, [a, b]) == Daily(u, [a, b])(d + 1 - 1);
  }

  /** Without the constraint the order shows: two windows of one user over one day, listed both ways round. */
  lemma OverlapShowsOrder(u: User, d: Date, a: Override, b: Override)
    requires a.scope == UserScope(u.id) && b.scope == UserScope(u.id) && CoversDate(a, d) && CoversDate(b, d)
    requires Works(u, d)
    ensures Blocks([u], d, 1, [a, b]) == [BlockFor(u, d, Some(a))]
    ensures Blocks([u], d, 1, [b, a]) == [BlockFor(u, d, Some(b))]
  {
    OneOverlap(u, d, a, b);
    OneOverlap(u, d, b, a);
  }

  // --- the reply, told from the query ------------------------------------------------------

  /** The minutes of a shift less those of its lunch, if it has both lunch times. */
  function Paid(start: int, end: int, lunchStart: Option<Minutes>, lunchEnd: Option<Minutes>): int {
    var lunch := if lunchStart.Some? && lunchEnd.Some? && lunchStart.value < lunchEnd.value
                 then lunchEnd.value - lunchStart.value else 0;
    if end - start > lunch then end - start - lunch else 0
  }

  /** What a block says of a user's day under the override chosen for it, if any. */
  predicate Says(b: Block, u: User, d: Date, chosen: Option<Override>) {
    && b.user == u.id && b.name == u.name && b.date == d
    && match chosen
       case None =>
         && b.start == (if u.start.Some? then u.start.value else 8 * 60)
         && b.end == (if u.end.Some? then u.end.value else 17 * 60)
         && b.source == FromTemplate && b.reason == None
         && StandsFor(b.hours, Paid(b.start, b.end, u.lunchStart, u.lunchEnd))
       case Some(o) =>
         && b.source == (if o.scope == OrgScope then FromOrg else FromUser) && b.reason == o.reason
         && if o.start.Some? && o.end.Some?
            then && b.start == o.start.value && b.end == o.end.value
                 && StandsFor(b.hours, Paid(b.start, b.end, o.lunchStart, o.lunchEnd))
            else b.start == b.end == b.hours == 0
  }

  /** Row `i` is the first of its scope that covers the date. */
  predicate FirstOf(fetched: seq<Override>, scope: Scope, d: Date, i: int) {
    && 0 <= i < |fetched| && fetched[i].scope == scope && fetched[i].from <= d <= fetched[i].to
    && forall j :: 0 <= j < i && fetched[j].scope == scope ==> !(fetched[j].from <= d <= fetched[j].to)
  }

  predicate NoneOf(fetched: seq<Override>, scope: Scope, d: Date) {
    forall j :: 0 <= j < |fetched| && fetched[j].scope == scope ==> !(fetched[j].from <= d <= fetched[j].to)
  }

  /** The override for a user's day: the first of the user's own that covers it, else the organisation's first. */
  predicate Chooses(fetched: seq<Override>, user: int, d: Date, chosen: Option<Override>) {
    match chosen
    case None => NoneOf(fetched, UserScope(user), d) && NoneOf(fetched, OrgScope, d)
    case Some(o) =>
      || (exists i :: 0 <= i < |fetched| && FirstOf(fetched, UserScope(user), d, i) && fetched[i] == o)
      || (&& NoneOf(fetched, UserScope(user), d)
          && exists i :: 0 <= i < |fetched| && FirstOf(fetched, OrgScope, d, i) && fetched[i] == o)
  }

  lemma {:induction false} FirstCoveringSplits(a: seq<Override>, b: seq<Override>, d: Date)
    ensures FirstCovering(a + b, d) == if FirstCovering(a, d).Some? then FirstCovering(a, d) else FirstCovering(b, d)
  {
    if a == [] {
      assert a + b == b;
    } else {
      FirstCoveringSplits(a[1..], b, d);
      assert (a + b)[1..] == a[1..] + b;
    }
  }

  /** Filtering by scope and then finding is finding the first of the scope. */
  lemma {:induction false} FirstOfIs(fetched: seq<Override>, scope: Scope, d: Date)
    ensures var r := FirstCovering(OfScope(fetched, scope), d);
      && (r.None? <==> NoneOf(fetched, scope, d))
      && (r.Some? ==> exists i :: 0 <= i < |fetched| && FirstOf(fetched, scope, d, i) && fetched[i] == r.value)
  {
    if fetched != [] {
      var front, n := fetched[..|fetched| - 1], |fetched| - 1;
      var o := fetched[n];
      FirstOfIs(front, scope, d);
      FirstCoveringSplits(OfScope(front, scope), if o.scope == scope then [o] else [], d);
      forall i | 0 <= i < n ensures front[i] == fetched[i] { }
      if FirstCovering(OfScope(front, scope), d).Some? {
        var i :| 0 <= i < n && FirstOf(front, scope, d, i) && front[i] == FirstCovering(OfScope(front, scope), d).value;
        assert FirstOf(fetched, scope, d, i);
      } else if o.scope == scope && CoversDate(o, d) {
        assert FirstOf(fetched, scope, d, n);
      }
    }
  }

  lemma ChosenIs(fetched: seq<Override>, user: int, d: Date)
    ensures Chooses(fetched, user, d, Chosen(fetched, user, d))
  {
    FirstOfIs(fetched, UserScope(user), d);
    FirstOfIs(fetched, OrgScope, d);
  }

  lemma BlockSays(u: User, d: Date, chosen: Option<Override>)
    ensures Says(BlockFor(u, d, chosen), u, d, chosen)
  {
    HoursInRange(ShiftFor(u, chosen));
  }

  /** The tab shows the user to the requester. */
  predicate Shown(u: User, tab: Tab, who: Requester) {
    u.active && match tab
                case Company => true
                case Team => who.visible.None? || u.id in who.visible.value
                case Individual(user) => user == Some(u.id)
                case OtherTab => false
  }

  /** Every block is of a user the tab shows, on a day of the range they are on duty, and says what it should. */
  ghost predicate Right(b: Block, tab: Tab, who: Requester, from: Date, to: Date, users: seq<User>,
                        fetched: seq<Override>) {
    exists u, chosen :: u in users && Shown(u, tab, who) && OnDuty(u, b.date) && from <= b.date <= to
      && Chooses(fetched, u.id, b.date, chosen) && Says(b, u, b.date, chosen)
  }

  /** User by user in the order of the list, and day by day. */
  ghost predicate InOrder(blocks: seq<Block>, users: seq<User>) {
    forall i, j, p, q ::
      0 <= i < j < |blocks| && IsOf(blocks[i], users, p) && IsOf(blocks[j], users, q) ==>
        p < q || (p == q && blocks[i].date < blocks[j].date)
  }

  /** The block is of the `p`-th user. */
  predicate IsOf(b: Block, users: seq<User>, p: int) {
    0 <= p < |users| && users[p].id == b.user
  }

  ghost predicate AllOf(blocks: seq<Block>, users: seq<User>) {
    forall b :: b in blocks ==> exists p :: IsOf(b, users, p)
  }

  /** The users of a tab, in order. */
  ghost predicate ShownAre(part: seq<User>, users: seq<User>, tab: Tab, who: Requester) {
    forall u :: u in part <==> u in users && Shown(u, tab, who)
  }

  lemma BlockIsRight(part: seq<User>, users: seq<User>, tab: Tab, who: Requester, from: Date, n: nat,
                     fetched: seq<Override>, u: User, b: Block)
    requires ShownAre(part, users, tab, who) && u in part && b in UserBlocks(u, from, n, fetched)
    ensures Right(b, tab, who, from, from + n - 1, users, fetched)
  {
    var d := CollectedOn(Daily(u, fetched), from, n, b);
    WorksIff(u, d);
    ChosenIs(fetched, u.id, d);
    BlockSays(u, d, Chosen(fetched, u.id, d));
  }

  lemma {:induction false} BlocksAreRight(part: seq<User>, all: seq<User>, users: seq<User>, tab: Tab, who: Requester,
                                          from: Date, n: nat, fetched: seq<Override>)
    requires ShownAre(all, users, tab, who) && forall u :: u in part ==> u in all
    ensures forall b :: b in Blocks(part, from, n, fetched) ==> Right(b, tab, who, from, from + n - 1, users, fetched)
  {
    if part != [] {
      var front, u := part[..|part| - 1], part[|part| - 1];
      assert forall v :: v in front ==> v in part;
      BlocksAreRight(front, all, users, tab, who, from, n, fetched);
      forall b | b in UserBlocks(u, from, n, fetched)
        ensures Right(b, tab, who, from, from + n - 1, users, fetched)
      {
        BlockIsRight(all, users, tab, who, from, n, fetched, u, b);
      }
    }
  }

  lemma UsersDays(u: User, from: Date, n: nat, fetched: seq<Override>, b: Block)
    requires b in UserBlocks(u, from, n, fetched)
    ensures b.user == u.id && from <= b.date < from + n
  {
    var d := CollectedOn(Daily(u, fetched), from, n, b);
  }

  /** One user's blocks come day after day. */
  lemma {:induction false} DaysAscend(u: User, from: Date, n: nat, fetched: seq<Override>)
    ensures var blocks := UserBlocks(u, from, n, fetched);
      forall i, j :: 0 <= i < j < |blocks| ==> blocks[i].date < blocks[j].date
  {
    if n > 0 {
      DaysAscend(u, from, n - 1, fetched);
      var front, last := UserBlocks(u, from, n - 1, fetched), DayBlocks(u, from + n - 1, fetched);
      assert UserBlocks(u, from, n, fetched) == front + last;
      forall i | 0 <= i < |front| ensures front[i].date < from + n - 1 { UsersDays(u, from, n - 1, fetched, front[i]); }
    }
  }

  lemma OrderJoins(front: seq<Block>, more: seq<Block>, users: seq<User>)
    requires users != [] && DistinctUsers(users) && InOrder(front, users[..|users| - 1])
    requires AllOf(front, users[..|users| - 1])
    requires forall b :: b in more ==> b.user == users[|users| - 1].id
    requires forall i, j :: 0 <= i < j < |more| ==> more[i].date < more[j].date
    ensures InOrder(front + more, users)
  {
    var blocks, last, before := front + more, |users| - 1, users[..|users| - 1];
    forall i, j, p, q | 0 <= i < j < |blocks| && IsOf(blocks[i], users, p) && IsOf(blocks[j], users, q)
      ensures p < q || (p == q && blocks[i].date < blocks[j].date)
    {
      if i < |front| {
        assert blocks[i] in front;
        var x :| IsOf(blocks[i], before, x);
        assert users[x].id == users[p].id && p == x;
        if j < |front| {
          assert blocks[j] in front;
          var y :| IsOf(blocks[j], before, y);
          assert users[y].id == users[q].id && q == y;
          assert IsOf(front[i], before, p) && IsOf(front[j], before, q);
        } else {
          assert blocks[j] in more;
          assert users[last].id == users[q].id && q == last;
        }
      } else {
        assert blocks[i] in more && blocks[j] in more;
        assert users[last].id == users[p].id && p == last;
        assert users[last].id == users[q].id && q == last;
      }
    }
  }

  lemma {:induction false} GridInOrder(users: seq<User>, filter: Option<set<int>>, from: Date, n: nat,
                                       fetched: seq<Override>)
    requires DistinctUsers(users)
    ensures InOrder(Blocks(InScope(users, filter), from, n, fetched), users)
    ensures AllOf(Blocks(InScope(users, filter), from, n, fetched), users)
  {
    if users != [] {
      var front, u := users[..|users| - 1], users[|users| - 1];
      GridInOrder(front, filter, from, n, fetched);
      var before := Blocks(InScope(front, filter), from, n, fetched);
      var more := if Visible(u, filter) then UserBlocks(u, from, n, fetched) else [];
      assert Blocks(InScope(users, filter), from, n, fetched) == before + more by {
        var part := InScope(front, filter);
        if Visible(u, filter) { assert (part + [u])[..|part|] == part; }
        else { assert part + [] == part && before + [] == before; }
      }
      DaysAscend(u, from, n, fetched);
      forall b | b in more ensures b.user == u.id { UsersDays(u, from, n, fetched, b); }
      OrderJoins(before, more, users);
      forall b | b in before + more ensures exists p :: IsOf(b, users, p) {
        if b in before { var p :| IsOf(b, front, p); assert IsOf(b, users, p); }
        else { assert IsOf(b, users, |users| - 1); }
      }
    }
  }

  lemma {:induction false} InScopeDistinct(users: seq<User>, filter: Option<set<int>>)
    requires DistinctUsers(users)
    ensures DistinctUsers(InScope(users, filter))
  {
    if users != [] {
      var front, u := users[..|users| - 1], users[|users| - 1];
      InScopeDistinct(front, filter);
      InScopeHolds(front, filter);
      var part := InScope(front, filter);
      forall i | 0 <= i < |part| ensures part[i].id != u.id {
        assert part[i] in part;
        var j :| 0 <= j < |front| && front[j] == part[i];
        assert users[j].id != users[|users| - 1].id;
      }
    }
  }

  /** The grid of the query: right blocks only, in order, exactly one for each user and day that is due. */
  ghost predicate IsGrid(blocks: seq<Block>, tab: Tab, who: Requester, from: Date, to: Date, users: seq<User>,
                         fetched: seq<Override>) {
    && (forall b :: b in blocks ==> Right(b, tab, who, from, to, users, fetched))
    && InOrder(blocks, users)
    && forall u, d :: u in users ==>
         CountOf(blocks, u.id, d) == if Shown(u, tab, who) && OnDuty(u, d) && from <= d <= to then 1 else 0
  }

  lemma GridIs(tab: Tab, who: Requester, from: Date, to: Date, users: seq<User>, filter: Option<set<int>>,
               fetched: seq<Override>)
    requires DistinctUsers(users) && from <= to + 1
    requires forall u :: u in users ==> (Visible(u, filter) <==> Shown(u, tab, who))
    ensures IsGrid(Blocks(InScope(users, filter), from, to - from + 1, fetched), tab, who, from, to, users, fetched)
  {
    var part, n := InScope(users, filter), to - from + 1;
    InScopeHolds(users, filter);
    BlocksAreRight(part, part, users, tab, who, from, n, fetched);
    GridInOrder(users, filter, from, n, fetched);
    InScopeDistinct(users, filter);
    forall u, d | u in users
      ensures CountOf(Blocks(part, from, n, fetched), u.id, d)
        == if Shown(u, tab, who) && OnDuty(u, d) && from <= d <= to then 1 else 0
    {
      OneBlockEach(part, from, n, fetched, u.id, d);
      SameUser(users, u);
    }
  }

  lemma SameUser(users: seq<User>, u: User)
    requires DistinctUsers(users) && u in users
    ensures forall v :: v in users && v.id == u.id ==> v == u
  {
    forall v | v in users && v.id == u.id ensures v == u {
      var i :| 0 <= i < |users| && users[i] == u;
      var j :| 0 <= j < |users| && users[j] == v;
    }
  }

  /** The tab is not for the requester. */
  predicate Barred(tab: Tab, who: Requester) {
    match tab
    case Company => !who.privileged
    case Individual(Some(user)) => user != who.id && who.visible.Some? && user !in who.visible.value
    case _ => false
  }

  /** GET dashboard. `fetched` are the rows the overrides query gives. An unknown tab, a range that is not one or is
      longer than 366 days, and an individual tab without a user are invalid; the company tab is for the privileged, a
      user the requester may not see is refused; otherwise the reply is the grid. */
  method Dashboard(tab: Tab, who: Requester, from: Date, to: Date, users: seq<User>, fetched: seq<Override>)
    returns (reply: Reply)
    requires forall o :: o in fetched ==> !o.scope.ProjectScope?
    ensures reply == if tab.OtherTab? || to < from || to - from >= 366 then Invalid
                     else match FilterFor(tab, who)
                          case Refused(refusal) => refusal
                          case Users(ids) => Grid(Blocks(InScope(users, ids), from, to - from + 1, fetched))
    ensures reply == Invalid <==> tab == OtherTab || to < from || to - from + 1 > 366 || tab == Individual(None)
    ensures reply == Forbidden <==> reply != Invalid && Barred(tab, who)
    ensures reply.Grid? && DistinctUsers(users) ==> IsGrid(reply.blocks, tab, who, from, to, users, fetched)
  {
    if tab.OtherTab? || to < from { return Invalid; }
    var days := EnumerateDates(from, to);
    if |days| > 366 { return Invalid; }
    var filter := FilterFor(tab, who);
    if filter.Refused? { return filter.reply; }
    if DistinctUsers(users) { GridIs(tab, who, from, to, users, filter.ids, fetched); }
    if filter.ids.Some? && |filter.ids.value| == 0 {
      InScopeOfNone(users, filter.ids);
      return Grid([]);
    }
    var blocks := Compose(InScope(users, filter.ids), from, days, fetched);
    reply := Grid(blocks);
  }
}
