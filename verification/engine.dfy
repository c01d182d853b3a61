/**
 * The duty-assignment engine: a greedy, slot-by-slot selection over the roster.
 *
 * For each slot the roster is filtered down to the people who may take it (not
 * at the primary cap for AM/PM, not blocked on the day, not already on duty
 * that day) and the one with the smallest `points + assigned` is chosen, the
 * earliest in roster order among equals. The month walks its days in order
 * and fills six slots a day: AM, PM, two AM reserves, two PM reserves.
 *
 * The specification functions work on the values of the records
 * (`PersonState`); the methods update the `Person` objects in place and are
 * proved to leave them as the functions say.
 */
module Engine {
  import opened Wrappers
  import opened Calendar
  import opened BlockedDates
  import opened Roster

  /** The four kinds of duty; a day has one AM, one PM, and up to two of each reserve. */
  datatype Slot = AM | PM | AMR | PMR

  predicate IsPrimary(slot: Slot) {
    slot == AM || slot == PM
  }

  /** What a slot adds to the taker's `assigned` count: 1 for a primary slot, 0 for a reserve. */
  function DutyPoints(slot: Slot): int {
    if IsPrimary(slot) then 1 else 0
  }

  /** One day of the assignment table: who holds AM, PM and the reserve slots. */
  datatype DayEntry = DayEntry(am: string, pm: string, amr: seq<string>, pmr: seq<string>)

  /** The entry a day gets when its first slot is filled. */
  const EmptyEntry := DayEntry("", "", [], [])

  type DutyTable = map<Day, DayEntry>

  /** The entry of `date`, or the empty entry when nothing was assigned that day. */
  function EntryOf(table: DutyTable, date: Day): DayEntry {
    if date in table then table[date] else EmptyEntry
  }

  /**
   * Whether a person may take `slot` on `date`. Taking an AM/PM slot never
   * carries an eligible person past the cap; for a reserve the count plays no part.
   */
  predicate Eligible(p: PersonState, blocked: BlockedTable, date: Day, slot: Slot): (r: bool)
    ensures r && IsPrimary(slot) ==> p.assignedCount + DutyPoints(slot) <= MaxDutyPoints
    ensures !IsPrimary(slot) ==> (r <==> !IsBlocked(blocked, p.name, date) && date !in p.schedule)
  {
    && !(p.assignedCount >= MaxDutyPoints && IsPrimary(slot))
    && !IsBlocked(blocked, p.name, date)
    && date !in p.schedule
  }

  /** The sort key of the selection. */
  function Load(p: PersonState): real {
    p.points + p.assignedCount as real
  }

  /** The indices among the first `n` records of the people eligible for the slot, in roster order. */
  function Candidates(people: seq<PersonState>, blocked: BlockedTable, date: Day, slot: Slot, n: nat): (cs: seq<nat>)
    requires n <= |people|
    ensures forall k :: 0 <= k < |cs| ==> cs[k] < n
  {
    if n == 0 then []
    else
      Candidates(people, blocked, date, slot, n - 1)
        + if Eligible(people[n - 1], blocked, date, slot) then [n - 1] else []
  }

  /**
   * The first of `cs[..n]` with the smallest load: a later candidate replaces the
   * best so far only when strictly lighter, as in a stable sort by load.
   */
  function Lightest(people: seq<PersonState>, cs: seq<nat>, n: nat): (k: nat)
    requires 0 < n <= |cs|
    requires forall j :: 0 <= j < |cs| ==> cs[j] < |people|
    ensures k < |people|
  {
    if n == 1 then cs[0]
    else
      var best := Lightest(people, cs, n - 1);
      if Load(people[cs[n - 1]]) < Load(people[best]) then cs[n - 1] else best
  }

  /** The index of the person the slot goes to, if anyone may take it. */
  function Pick(people: seq<PersonState>, blocked: BlockedTable, date: Day, slot: Slot): Option<nat> {
    var cs := Candidates(people, blocked, date, slot, |people|);
    if cs == [] then None else Some(Lightest(people, cs, |cs|))
  }

  /** The entry with `name` put in `slot`: AM and PM are set, reserves are appended. */
  function Put(e: DayEntry, slot: Slot, name: string): DayEntry {
    match slot
    case AM => e.(am := name)
    case PM => e.(pm := name)
    case AMR => e.(amr := e.amr + [name])
    case PMR => e.(pmr := e.pmr + [name])
  }

  /** The table with `name` put in `slot` of `date`. */
  function Place(table: DutyTable, date: Day, slot: Slot, name: string): DutyTable {
    table[date := Put(EntryOf(table, date), slot, name)]
  }

  /** The records and the table between two selection steps. */
  datatype EngineState = EngineState(people: seq<PersonState>, table: DutyTable)

  /** The record of a person after taking `slot` on `date`. */
  function Take(p: PersonState, date: Day, slot: Slot): PersonState {
    p.(assignedCount := p.assignedCount + DutyPoints(slot), schedule := p.schedule + [date])
  }

  /** One selection step: the new state and the name of the person chosen ("" when nobody may take the slot). */
  function Assign(st: EngineState, blocked: BlockedTable, date: Day, slot: Slot): (EngineState, string) {
    match Pick(st.people, blocked, date, slot)
    case None => (st, "")
    case Some(k) =>
      var p := st.people[k];
      (EngineState(st.people[k := Take(p, date, slot)], Place(st.table, date, slot, p.name)), p.name)
  }

  /** The slots of a day, in the order they are filled. */
  const DaySlots: seq<Slot> := [AM, PM, AMR, AMR, PMR, PMR]

  /** The state after filling `slots` on `date` in order. */
  function RunSlots(st: EngineState, blocked: BlockedTable, date: Day, slots: seq<Slot>): EngineState {
    if slots == [] then st
    else Assign(RunSlots(st, blocked, date, slots[..|slots| - 1]), blocked, date, slots[|slots| - 1]).0
  }

  function RunDay(st: EngineState, blocked: BlockedTable, date: Day): EngineState {
    RunSlots(st, blocked, date, DaySlots)
  }

  /** A day is its six selection steps, one after the other. */
  lemma RunDayInSteps(st: EngineState, blocked: BlockedTable, date: Day)
    ensures RunDay(st, blocked, date)
      == var s1 := Assign(st, blocked, date, AM).0;
         var s2 := Assign(s1, blocked, date, PM).0;
         var s3 := Assign(s2, blocked, date, AMR).0;
         var s4 := Assign(s3, blocked, date, AMR).0;
         var s5 := Assign(s4, blocked, date, PMR).0;
         Assign(s5, blocked, date, PMR).0
  {
    var s1 := Assign(st, blocked, date, AM).0;
    var s2 := Assign(s1, blocked, date, PM).0;
    var s3 := Assign(s2, blocked, date, AMR).0;
    var s4 := Assign(s3, blocked, date, AMR).0;
    var s5 := Assign(s4, blocked, date, PMR).0;
    assert [AM][..0] == [];
    assert RunSlots(st, blocked, date, [AM]) == s1;
    assert [AM, PM][..1] == [AM];
    assert RunSlots(st, blocked, date, [AM, PM]) == s2;
    assert [AM, PM, AMR][..2] == [AM, PM];
    assert RunSlots(st, blocked, date, [AM, PM, AMR]) == s3;
    assert [AM, PM, AMR, AMR][..3] == [AM, PM, AMR];
    assert RunSlots(st, blocked, date, [AM, PM, AMR, AMR]) == s4;
    assert [AM, PM, AMR, AMR, PMR][..4] == [AM, PM, AMR, AMR];
    assert RunSlots(st, blocked, date, [AM, PM, AMR, AMR, PMR]) == s5;
    assert DaySlots[..5] == [AM, PM, AMR, AMR, PMR];
  }

  /** The state after filling the days `dates` in order. */
  function RunDays(st: EngineState, blocked: BlockedTable, dates: seq<Day>): EngineState {
    if dates == [] then st
    else RunDay(RunDays(st, blocked, dates[..|dates| - 1]), blocked, dates[|dates| - 1])
  }

  /** The days of the month, first to last. */
  function MonthDays(year: int, month: Month): (ds: seq<Day>)
    ensures |ds| == DaysInMonth(year, month)
  {
    seq(DaysInMonth(year, month), i requires 0 <= i < DaysInMonth(year, month) => DayOf(year, month, i + 1))
  }

  /** One row of the exported schedule. */
  datatype Row = Row(
    date: Day, weekday: string,
    am: string, pm: string,
    amReserve1: string, amReserve2: string,
    pmReserve1: string, pmReserve2: string)

  /** The `i`-th element of a list of names, or "" when there is none. */
  function NameAt(names: seq<string>, i: nat): string {
    if i < |names| then names[i] else ""
  }

  function RowOf(table: DutyTable, date: Day): Row {
    var e := EntryOf(table, date);
    Row(date, WeekdayLabel(date), e.am, e.pm, NameAt(e.amr, 0), NameAt(e.amr, 1), NameAt(e.pmr, 0), NameAt(e.pmr, 1))
  }

  /** One row per day of the month, in date order. */
  function Rows(table: DutyTable, year: int, month: Month): seq<Row> {
    var days := MonthDays(year, month);
    seq(|days|, i requires 0 <= i < |days| => RowOf(table, days[i]))
  }

  // ---------------------------------------------------------------------------
  // The engine on the roster objects
  // ---------------------------------------------------------------------------

  /** The per-day assignment table the month loop fills in. */
  class DayTable {
    var entries: DutyTable

    constructor ()
      ensures entries == map[]
    {
      entries := map[];
    }
  }

  /** The filter step: the indices of the people eligible for the slot, in roster order. */
  method EligibleIndices(roster: array<Person>, blocked: BlockedTable, date: Day, slot: Slot)
    returns (eligible: seq<nat>)
    ensures eligible == Candidates(States(roster), blocked, date, slot, roster.Length)
  {
    eligible := [];
    for i := 0 to roster.Length
      invariant eligible == Candidates(States(roster), blocked, date, slot, i)
    {
      if Eligible(roster[i].State(), blocked, date, slot) {
        eligible := eligible + [i];
      }
    }
  }

  /** The sort step: the first of the candidates with the smallest load. */
  method LightestIndex(roster: array<Person>, eligible: seq<nat>) returns (best: nat)
    requires eligible != []
    requires forall j :: 0 <= j < |eligible| ==> eligible[j] < roster.Length
    ensures best == Lightest(States(roster), eligible, |eligible|)
  {
    best := eligible[0];
    for j := 1 to |eligible|
      invariant best == Lightest(States(roster), eligible, j)
    {
      var c := eligible[j];
      if Load(roster[c].State()) < Load(roster[best].State()) {
        best := c;
      }
    }
  }

  /** Records the duty on person `k` and puts their name in the slot of the day. */
  method RecordDuty(roster: array<Person>, k: nat, date: Day, slot: Slot, table: DayTable) returns (name: string)
    requires Distinct(roster) && k < roster.Length
    modifies roster[k], table
    ensures States(roster) == old(States(roster))[k := Take(old(roster[k].State()), date, slot)]
    ensures table.entries == Place(old(table.entries), date, slot, old(roster[k].name))
    ensures name == old(roster[k].name)
  {
    var selected := roster[k];
    selected.TakeDuty(date, DutyPoints(slot));
    table.entries := Place(table.entries, date, slot, selected.name);
    name := selected.name;
    assert forall i :: 0 <= i < roster.Length && i != k ==> roster[i] != selected;
  }

  /**
   * Fills one slot: chooses the lightest eligible person (the earliest in roster
   * order among equals), records the duty on that person and in the table, and
   * returns the name; returns "" and changes nothing when nobody is eligible.
   */
  method AssignDuty(roster: array<Person>, blocked: BlockedTable, date: Day, slot: Slot, table: DayTable)
    returns (chosen: string)
    requires Distinct(roster)
    modifies roster[..], table
    ensures unchanged(roster) && roster[..] == old(roster[..])
    ensures var step := Assign(EngineState(old(States(roster)), old(table.entries)), blocked, date, slot);
      States(roster) == step.0.people && table.entries == step.0.table && chosen == step.1
  {
    ghost var people := States(roster);
    var eligible := EligibleIndices(roster, blocked, date, slot);
    if eligible == [] {
      assert Pick(people, blocked, date, slot) == None;
      return "";
    }
    var best := LightestIndex(roster, eligible);
    assert Pick(people, blocked, date, slot) == Some(best);
    chosen := RecordDuty(roster, best, date, slot, table);
  }

  /** The six calls of one day: AM, PM, two AM reserves, two PM reserves. */
  method FillDay(roster: array<Person>, blocked: BlockedTable, date: Day, table: DayTable)
    requires Distinct(roster)
    modifies roster[..], table
    ensures EngineState(States(roster), table.entries)
      == RunDay(EngineState(old(States(roster)), old(table.entries)), blocked, date)
  {
    ghost var s0 := EngineState(States(roster), table.entries);
    var _ := AssignDuty(roster, blocked, date, AM, table);
    var _ := AssignDuty(roster, blocked, date, PM, table);
    var _ := AssignDuty(roster, blocked, date, AMR, table);
    var _ := AssignDuty(roster, blocked, date, AMR, table);
    var _ := AssignDuty(roster, blocked, date, PMR, table);
    var _ := AssignDuty(roster, blocked, date, PMR, table);
    RunDayInSteps(s0, blocked, date);
  }

  /** Fills the six slots of each of `dates`, day by day. */
  method FillDays(roster: array<Person>, blocked: BlockedTable, dates: seq<Day>, table: DayTable)
    requires Distinct(roster)
    modifies roster[..], table
    ensures EngineState(States(roster), table.entries)
      == RunDays(EngineState(old(States(roster)), old(table.entries)), blocked, dates)
  {
    ghost var start := EngineState(States(roster), table.entries);
    for i := 0 to |dates|
      invariant EngineState(States(roster), table.entries) == RunDays(start, blocked, dates[..i])
    {
      assert dates[..i + 1][..i] == dates[..i];
      FillDay(roster, blocked, dates[i], table);
    }
    assert dates[..|dates|] == dates;
  }

  /**
   * Fills the six slots of every day of the month, day by day, then flattens the
   * table into one row per day. The records keep the load they end the month with.
   */
  method GenerateSchedule(roster: array<Person>, blocked: BlockedTable, year: int, month: Month)
    returns (rows: seq<Row>)
    requires Distinct(roster)
    modifies roster[..]
    ensures var final := RunDays(EngineState(old(States(roster)), map[]), blocked, MonthDays(year, month));
      States(roster) == final.people && rows == Rows(final.table, year, month)
  {
    var assignments := new DayTable();
    FillDays(roster, blocked, MonthDays(year, month), assignments);
    rows := BuildRows(assignments.entries, year, month);
  }

  /**
   * Clears the records' load before filling the month, so that the result does
   * not depend on an earlier generation.
   */
  method GenerateFreshSchedule(roster: array<Person>, blocked: BlockedTable, year: int, month: Month)
    returns (rows: seq<Row>)
    requires Distinct(roster)
    modifies roster[..]
    ensures var final := RunDays(EngineState(Cleared(old(States(roster))), map[]), blocked, MonthDays(year, month));
      States(roster) == final.people && rows == Rows(final.table, year, month)
  {
    ClearLoads(roster);
    rows := GenerateSchedule(roster, blocked, year, month);
  }

  /** Flattens the table into one row per day of the month, a missing slot shown as "". */
  method BuildRows(table: DutyTable, year: int, month: Month) returns (rows: seq<Row>)
    ensures rows == Rows(table, year, month)
  {
    var daysInMonth := DaysInMonth(year, month);
    rows := [];
    for i := 1 to daysInMonth + 1
      invariant rows == Rows(table, year, month)[..i - 1]
    {
      rows := rows + [RowOf(table, DayOf(year, month, i))];
    }
  }
}
