/**
 * The roster: one record per person, read from the pasted points table, whose
 * load fields the scheduler updates in place.
 */
module Roster {
  import opened Calendar
  import opened Names

  /** The cap on primary (AM/PM) duties per person and month. */
  const MaxDutyPoints: int := 7

  /** The value of a person record at one moment. */
  datatype PersonState = PersonState(name: string, points: real, assignedCount: int, schedule: seq<Day>)

  /** A roster record: name and carried-in points, plus the load of the month being built. */
  class Person {
    var name: string
    var points: real
    var assignedCount: int      // primary duties taken this month (`assigned`)
    var schedule: seq<Day>      // one entry per duty taken, in the order taken

    constructor (name: string, points: real)
      ensures this.name == name && this.points == points
      ensures assignedCount == 0 && schedule == []
    {
      this.name := name;
      this.points := points;
      assignedCount := 0;
      schedule := [];
    }

    function State(): PersonState
      reads this
    {
      PersonState(name, points, assignedCount, schedule)
    }

    /** Records one more duty on `date`, worth `dutyPoints` towards the primary cap. */
    method TakeDuty(date: Day, dutyPoints: int)
      modifies this
      ensures State() == old(State()).(assignedCount := old(assignedCount) + dutyPoints, schedule := old(schedule) + [date])
    {
      assignedCount := assignedCount + dutyPoints;
      schedule := schedule + [date];
    }

    /** Forgets the duties of the month: no count, no schedule. */
    method ClearDuties()
      modifies this
      ensures State() == old(State()).(assignedCount := 0, schedule := [])
    {
      assignedCount := 0;
      schedule := [];
    }
  }

  /** The records with their load cleared, as the points table gives them. */
  function Cleared(people: seq<PersonState>): seq<PersonState> {
    seq(|people|, i requires 0 <= i < |people| => people[i].(assignedCount := 0, schedule := []))
  }

  /** No record appears twice in the roster. */
  ghost predicate Distinct(roster: array<Person>)
    reads roster
  {
    forall i, j :: 0 <= i < j < roster.Length ==> roster[i] != roster[j]
  }

  /** The values of all records, in roster order. */
  ghost function States(roster: array<Person>): (r: seq<PersonState>)
    reads roster, roster[..]
    ensures |r| == roster.Length
    ensures forall i :: 0 <= i < roster.Length ==> r[i] == roster[i].State()
  {
    seq(roster.Length, i requires 0 <= i < roster.Length reads roster, roster[..] => roster[i].State())
  }

  predicate IsComma(c: char) {
    c == ','
  }

  /** The record a line `name,points` of the points table stands for, with no load yet. */
  function RecordOf(line: string, readNumber: string -> real): PersonState {
    var name := Trim(Before(line, IsComma));
    var points := readNumber(Trim(Before(After(line, IsComma), IsComma)));
    PersonState(name, points, 0, [])
  }

  /**
   * A line `a,b` or `a,b,…`: the name is `a` trimmed and the points are what the
   * trimmed `b` reads as; columns after the second are ignored.
   */
  lemma RecordOfLine(a: string, b: string, rest: string, readNumber: string -> real)
    requires forall i :: 0 <= i < |a| ==> a[i] != ','
    requires forall i :: 0 <= i < |b| ==> b[i] != ','
    requires rest == [] || rest[0] == ','
    ensures var r := RecordOf(a + [','] + b + rest, readNumber);
      r.name == Trim(a) && r.points == readNumber(Trim(b)) && r.assignedCount == 0 && r.schedule == []
  {
    assert a + [','] + b + rest == a + [','] + (b + rest);
    SplitAtFirst(a, ',', b + rest, IsComma);
    if rest == [] {
      assert b + rest == b;
      BeforeWithoutSeparator(b, IsComma);
    } else {
      assert b + rest == b + [','] + rest[1..];
      SplitAtFirst(b, ',', rest[1..], IsComma);
    }
  }

  /** The roster a points table stands for: the header line is dropped, every other line is one record. */
  function InitialRoster(lines: seq<string>, readNumber: string -> real): (r: seq<PersonState>)
    ensures |r| == if lines == [] then 0 else |lines| - 1
    ensures forall i :: 0 <= i < |r| ==> r[i] == RecordOf(lines[i + 1], readNumber)
  {
    if |lines| <= 1 then []
    else seq(|lines| - 1, i requires 0 <= i < |lines| - 1 => RecordOf(lines[i + 1], readNumber))
  }

  /**
   * Builds the roster from the non-empty lines of the points table; `readNumber`
   * is the number reading of the points column.
   */
  method ParsePoints(lines: seq<string>, readNumber: string -> real) returns (roster: array<Person>)
    ensures fresh(roster) && Distinct(roster)
    ensures forall i :: 0 <= i < roster.Length ==> fresh(roster[i])
    ensures States(roster) == InitialRoster(lines, readNumber)
  {
    var records := NewRecords(lines, readNumber);
    var n := |records|;
    roster := new Person[n](i requires 0 <= i < n reads records => records[i]);
    assert forall k :: 0 <= k < n ==> roster[k] == records[k];
    assert forall k :: 0 <= k < n ==> States(roster)[k] == InitialRoster(lines, readNumber)[k];
  }

  /** One fresh record per line after the header, in line order. */
  method NewRecords(lines: seq<string>, readNumber: string -> real) returns (records: seq<Person>)
    ensures |records| == |InitialRoster(lines, readNumber)|
    ensures forall k :: 0 <= k < |records| ==> fresh(records[k])
    ensures forall k, l :: 0 <= k < l < |records| ==> records[k] != records[l]
    ensures forall k :: 0 <= k < |records| ==> records[k].State() == InitialRoster(lines, readNumber)[k]
  {
    var n := if lines == [] then 0 else |lines| - 1;
    records := [];
    for i := 0 to n
      invariant |records| == i
      invariant forall k :: 0 <= k < i ==> fresh(records[k])
      invariant forall k, l :: 0 <= k < l < i ==> records[k] != records[l]
      invariant forall k :: 0 <= k < i ==> records[k].State() == RecordOf(lines[k + 1], readNumber)
    {
      var r := RecordOf(lines[i + 1], readNumber);
      var p := new Person(r.name, r.points);
      records := records + [p];
    }
  }

  /** Clears the load of every record. */
  method ClearLoads(roster: array<Person>)
    requires Distinct(roster)
    modifies roster[..]
    ensures States(roster) == Cleared(old(States(roster)))
  {
    ghost var before := States(roster);
    for i := 0 to roster.Length
      invariant forall j :: 0 <= j < i ==> roster[j].State() == before[j].(assignedCount := 0, schedule := [])
      invariant forall j :: i <= j < roster.Length ==> roster[j].State() == before[j]
    {
      roster[i].ClearDuties();
    }
  }
}
