/**
 * What the duty-assignment engine promises: whom a selection step picks and
 * what it changes, the invariants a month of selection steps keeps (the cap on
 * primary duties, no duty on a blocked day, at most one slot per person and
 * day, loads that agree with the table), and how the table becomes rows.
 */
module EngineFacts {
  import opened Wrappers
  import opened Calendar
  import opened Names
  import opened BlockedDates
  import opened BlockedDatesFacts
  import opened Roster
  import opened Engine

  // ---------------------------------------------------------------------------
  // One selection step
  // ---------------------------------------------------------------------------

  /** Strictly increasing: roster indices in roster order, or days in date order. */
  predicate Ascending(s: seq<int>) {
    forall i, j :: 0 <= i < j < |s| ==> s[i] < s[j]
  }

  /** The filter lists indices in increasing roster order. */
  lemma {:induction false} CandidatesIncrease(people: seq<PersonState>, blocked: BlockedTable, date: Day, slot: Slot, n: nat)
    requires n <= |people|
    ensures Ascending(Candidates(people, blocked, date, slot, n))
  {
    if n > 0 {
      CandidatesIncrease(people, blocked, date, slot, n - 1);
      var prev := Candidates(people, blocked, date, slot, n - 1);
      var tail: seq<nat> := if Eligible(people[n - 1], blocked, date, slot) then [n - 1] else [];
      var cs := prev + tail;
      assert Candidates(people, blocked, date, slot, n) == cs;
      forall j, l | 0 <= j < l < |cs|
        ensures cs[j] < cs[l]
      {
        if l < |prev| {
          assert cs[j] == prev[j] && cs[l] == prev[l] && prev[j] < prev[l];
        } else {
          assert cs[j] == prev[j] && prev[j] < n - 1 && cs[l] == n - 1;
        }
      }
    }
  }

  /** The filter keeps exactly the eligible people among the first `n`. */
  lemma {:induction false} CandidatesMembers(people: seq<PersonState>, blocked: BlockedTable, date: Day, slot: Slot, n: nat)
    requires n <= |people|
    ensures var cs := Candidates(people, blocked, date, slot, n);
      forall i :: 0 <= i < n ==> (i in cs <==> Eligible(people[i], blocked, date, slot))
  {
    if n > 0 {
      CandidatesMembers(people, blocked, date, slot, n - 1);
      var prev := Candidates(people, blocked, date, slot, n - 1);
      var tail: seq<nat> := if Eligible(people[n - 1], blocked, date, slot) then [n - 1] else [];
      var cs := prev + tail;
      assert Candidates(people, blocked, date, slot, n) == cs;
      forall i | 0 <= i < n
        ensures i in cs <==> Eligible(people[i], blocked, date, slot)
      {
        assert i in cs <==> i in prev || i in tail;
        if i == n - 1 {
          assert i !in prev;
        }
      }
    }
  }

  /** The filter keeps exactly the eligible people, in increasing roster order. */
  lemma CandidatesAreEligible(people: seq<PersonState>, blocked: BlockedTable, date: Day, slot: Slot, n: nat)
    requires n <= |people|
    ensures var cs := Candidates(people, blocked, date, slot, n);
      && Ascending(cs)
      && (forall i :: 0 <= i < n ==> (i in cs <==> Eligible(people[i], blocked, date, slot)))
  {
    CandidatesIncrease(people, blocked, date, slot, n);
    CandidatesMembers(people, blocked, date, slot, n);
  }

  /**
   * The selection among `cs[..n]` lands on a candidate at some position `p`
   * whose load is no larger than any candidate's and strictly smaller than that
   * of every candidate before position `p`.
   */
  lemma {:induction false} LightestIsFirstMinimum(people: seq<PersonState>, cs: seq<nat>, n: nat)
    requires 0 < n <= |cs|
    requires forall j :: 0 <= j < |cs| ==> cs[j] < |people|
    ensures var k := Lightest(people, cs, n);
      exists p :: 0 <= p < n && cs[p] == k
        && (forall j :: 0 <= j < n ==> Load(people[k]) <= Load(people[cs[j]]))
        && (forall j :: 0 <= j < p ==> Load(people[k]) < Load(people[cs[j]]))
  {
    var k := Lightest(people, cs, n);
    if n == 1 {
      assert cs[0] == k;
    } else {
      LightestIsFirstMinimum(people, cs, n - 1);
      var best := Lightest(people, cs, n - 1);
      var p0 :| 0 <= p0 < n - 1 && cs[p0] == best
        && (forall j :: 0 <= j < n - 1 ==> Load(people[best]) <= Load(people[cs[j]]))
        && (forall j :: 0 <= j < p0 ==> Load(people[best]) < Load(people[cs[j]]));
      if Load(people[cs[n - 1]]) < Load(people[best]) {
        assert cs[n - 1] == k;
      } else {
        assert cs[p0] == k;
      }
    }
  }

  /**
   * `k` is the person a slot should go to: eligible, no eligible person has a
   * smaller load, and every eligible person earlier in the roster has a larger
   * one (ties go to the earliest, as in a stable sort by load).
   */
  predicate Fairest(people: seq<PersonState>, blocked: BlockedTable, date: Day, slot: Slot, k: nat) {
    && k < |people| && Eligible(people[k], blocked, date, slot)
    && (forall i :: 0 <= i < |people| && Eligible(people[i], blocked, date, slot) ==> Load(people[k]) <= Load(people[i]))
    && (forall i :: 0 <= i < k && Eligible(people[i], blocked, date, slot) ==> Load(people[k]) < Load(people[i]))
  }

  /** At most one person is the fairest choice. */
  lemma FairestIsUnique(people: seq<PersonState>, blocked: BlockedTable, date: Day, slot: Slot, k1: nat, k2: nat)
    requires Fairest(people, blocked, date, slot, k1) && Fairest(people, blocked, date, slot, k2)
    ensures k1 == k2
  {
  }

  /**
   * In an increasing list of candidates, the first lightest one is no heavier
   * than any candidate `i`, and lighter than those before it in roster order.
   */
  lemma LightestBeatsMember(people: seq<PersonState>, cs: seq<nat>, i: nat)
    requires cs != [] && forall j :: 0 <= j < |cs| ==> cs[j] < |people|
    requires Ascending(cs) && i in cs
    ensures var k := Lightest(people, cs, |cs|);
      Load(people[k]) <= Load(people[i]) && (i < k ==> Load(people[k]) < Load(people[i]))
  {
    var k := Lightest(people, cs, |cs|);
    LightestIsFirstMinimum(people, cs, |cs|);
    var p :| 0 <= p < |cs| && cs[p] == k
      && (forall j :: 0 <= j < |cs| ==> Load(people[k]) <= Load(people[cs[j]]))
      && (forall j :: 0 <= j < p ==> Load(people[k]) < Load(people[cs[j]]));
    var j :| 0 <= j < |cs| && cs[j] == i;
    assert Load(people[k]) <= Load(people[cs[j]]);
    if i < k {
      assert j < p;
    }
  }

  /** The first lightest candidate is no heavier than any eligible person, and lighter than those before it. */
  lemma LightestBeats(people: seq<PersonState>, blocked: BlockedTable, date: Day, slot: Slot, i: nat)
    requires Candidates(people, blocked, date, slot, |people|) != []
    requires i < |people| && Eligible(people[i], blocked, date, slot)
    ensures var cs := Candidates(people, blocked, date, slot, |people|);
      var k := Lightest(people, cs, |cs|);
      Load(people[k]) <= Load(people[i]) && (i < k ==> Load(people[k]) < Load(people[i]))
  {
    var cs := Candidates(people, blocked, date, slot, |people|);
    CandidatesAreEligible(people, blocked, date, slot, |people|);
    LightestBeatsMember(people, cs, i);
  }

  /** When someone is eligible, the first lightest candidate is the fairest choice. */
  lemma LightestIsFairest(people: seq<PersonState>, blocked: BlockedTable, date: Day, slot: Slot)
    requires Candidates(people, blocked, date, slot, |people|) != []
    ensures var cs := Candidates(people, blocked, date, slot, |people|);
      Fairest(people, blocked, date, slot, Lightest(people, cs, |cs|))
  {
    var cs := Candidates(people, blocked, date, slot, |people|);
    CandidatesAreEligible(people, blocked, date, slot, |people|);
    var k := Lightest(people, cs, |cs|);
    LightestIsFirstMinimum(people, cs, |cs|);
    assert k in cs;
    forall i | 0 <= i < |people| && Eligible(people[i], blocked, date, slot)
      ensures Load(people[k]) <= Load(people[i])
    {
      LightestBeats(people, blocked, date, slot, i);
    }
    forall i | 0 <= i < k && Eligible(people[i], blocked, date, slot)
      ensures Load(people[k]) < Load(people[i])
    {
      LightestBeats(people, blocked, date, slot, i);
    }
  }

  /**
   * The selection picks nobody exactly when nobody is eligible, and otherwise
   * picks exactly the fairest person: the lightest eligible one, the earliest in
   * roster order among equals.
   */
  lemma PickIsFairest(people: seq<PersonState>, blocked: BlockedTable, date: Day, slot: Slot)
    ensures Pick(people, blocked, date, slot) == None
      <==> forall i :: 0 <= i < |people| ==> !Eligible(people[i], blocked, date, slot)
    ensures forall k: nat :: Pick(people, blocked, date, slot) == Some(k) <==> Fairest(people, blocked, date, slot, k)
  {
    var cs := Candidates(people, blocked, date, slot, |people|);
    CandidatesAreEligible(people, blocked, date, slot, |people|);
    if cs == [] {
      forall i | 0 <= i < |people|
        ensures !Eligible(people[i], blocked, date, slot)
      {
        assert i !in cs;
      }
    } else {
      LightestIsFairest(people, blocked, date, slot);
      var k := Lightest(people, cs, |cs|);
      assert Pick(people, blocked, date, slot) == Some(k);
      forall k2: nat | Fairest(people, blocked, date, slot, k2)
        ensures k2 == k
      {
        FairestIsUnique(people, blocked, date, slot, k, k2);
      }
      assert k in cs;
    }
  }

  /** Taking a slot raises the taker's sort key by the slot's weight: 1 for AM or PM, nothing for a reserve. */
  lemma TakeRaisesLoad(p: PersonState, date: Day, slot: Slot)
    ensures Load(Take(p, date, slot)) == Load(p) + (if IsPrimary(slot) then 1.0 else 0.0)
  {
  }

  /** Same people in the same order: names and points unchanged, only the load may differ. */
  predicate SameNames(a: seq<PersonState>, b: seq<PersonState>) {
    |a| == |b| && forall i :: 0 <= i < |a| ==> a[i].name == b[i].name && a[i].points == b[i].points
  }

  /**
   * What one selection step does. When nobody is eligible nothing changes and
   * the name returned is "". Otherwise the fairest person `k` gets the slot: the
   * day is appended to `k`'s schedule, `k`'s count grows by one for AM or PM and
   * not for a reserve, every other record is unchanged, the table records `k`'s
   * name in the slot of the day, and `k`'s name is returned.
   */
  lemma AssignEffect(st: EngineState, blocked: BlockedTable, date: Day, slot: Slot)
    ensures var step := Assign(st, blocked, date, slot);
      (forall i :: 0 <= i < |st.people| ==> !Eligible(st.people[i], blocked, date, slot)) ==>
        step.0 == st && step.1 == ""
    ensures var step := Assign(st, blocked, date, slot);
      var next := step.0;
      (exists i :: 0 <= i < |st.people| && Eligible(st.people[i], blocked, date, slot)) ==>
        exists k: nat :: Fairest(st.people, blocked, date, slot, k)
          && step.1 == st.people[k].name
          && SameNames(st.people, next.people)
          && next.people[k].schedule == st.people[k].schedule + [date]
          && next.people[k].assignedCount == st.people[k].assignedCount + (if IsPrimary(slot) then 1 else 0)
          && (forall i :: 0 <= i < |st.people| && i != k ==> next.people[i] == st.people[i])
          && next.table == Place(st.table, date, slot, st.people[k].name)
  {
    PickIsFairest(st.people, blocked, date, slot);
    match Pick(st.people, blocked, date, slot)
    case None =>
    case Some(k) =>
      assert Fairest(st.people, blocked, date, slot, k);
  }

  /**
   * A step changes only the entry of its day, and in it only the slot's own
   * field; a reserve list grows by at most one name.
   */
  lemma AssignTouchesOneField(st: EngineState, blocked: BlockedTable, date: Day, slot: Slot)
    ensures var e, e2 := EntryOf(st.table, date), EntryOf(Assign(st, blocked, date, slot).0.table, date);
      && (slot != AM ==> e2.am == e.am) && (slot != PM ==> e2.pm == e.pm)
      && (slot != AMR ==> e2.amr == e.amr) && (slot != PMR ==> e2.pmr == e.pmr)
      && |e2.amr| <= |e.amr| + 1 && |e2.pmr| <= |e.pmr| + 1
    ensures forall d :: d != date ==> EntryOf(Assign(st, blocked, date, slot).0.table, d) == EntryOf(st.table, d)
    ensures forall d :: d in Assign(st, blocked, date, slot).0.table ==> d in st.table || d == date
    ensures SameNames(st.people, Assign(st, blocked, date, slot).0.people)
  {
  }

  // ---------------------------------------------------------------------------
  // Invariants every step keeps
  // ---------------------------------------------------------------------------

  predicate NoRepeats(s: seq<Day>) {
    forall i, j :: 0 <= i < j < |s| ==> s[i] != s[j]
  }

  /** A record within the rules: at most 7 primary duties, no day twice, no blocked day. */
  predicate SoundRecord(p: PersonState, blocked: BlockedTable) {
    && 0 <= p.assignedCount <= MaxDutyPoints
    && NoRepeats(p.schedule)
    && forall d :: d in p.schedule ==> !IsBlocked(blocked, p.name, d)
  }

  predicate Sound(people: seq<PersonState>, blocked: BlockedTable) {
    forall i :: 0 <= i < |people| ==> SoundRecord(people[i], blocked)
  }

  /** A step keeps every record within the rules. */
  lemma AssignKeepsSound(st: EngineState, blocked: BlockedTable, date: Day, slot: Slot)
    requires Sound(st.people, blocked)
    ensures Sound(Assign(st, blocked, date, slot).0.people, blocked)
  {
    match Pick(st.people, blocked, date, slot)
    case None =>
    case Some(k) =>
      PickIsFairest(st.people, blocked, date, slot);
      assert Fairest(st.people, blocked, date, slot, k);
      var p := st.people[k];
      var q := Take(p, date, slot);
      assert q.schedule == p.schedule + [date];
      assert SoundRecord(q, blocked);
  }

  /** A day of six steps keeps every record within the rules. */
  lemma DayKeepsSound(st: EngineState, blocked: BlockedTable, date: Day)
    requires Sound(st.people, blocked)
    ensures Sound(RunDay(st, blocked, date).people, blocked)
  {
    RunDayInSteps(st, blocked, date);
    var s1 := Assign(st, blocked, date, AM).0;
    var s2 := Assign(s1, blocked, date, PM).0;
    var s3 := Assign(s2, blocked, date, AMR).0;
    var s4 := Assign(s3, blocked, date, AMR).0;
    var s5 := Assign(s4, blocked, date, PMR).0;
    AssignKeepsSound(st, blocked, date, AM);
    AssignKeepsSound(s1, blocked, date, PM);
    AssignKeepsSound(s2, blocked, date, AMR);
    AssignKeepsSound(s3, blocked, date, AMR);
    AssignKeepsSound(s4, blocked, date, PMR);
    AssignKeepsSound(s5, blocked, date, PMR);
  }

  /**
   * However many days are filled, every record stays within the rules: nobody
   * passes the cap of 7 primary duties, has a day twice, or has a day on which
   * they are blocked.
   */
  lemma {:induction false} DaysKeepSound(st: EngineState, blocked: BlockedTable, dates: seq<Day>)
    requires Sound(st.people, blocked)
    ensures Sound(RunDays(st, blocked, dates).people, blocked)
  {
    if dates != [] {
      DaysKeepSound(st, blocked, dates[..|dates| - 1]);
      DayKeepsSound(RunDays(st, blocked, dates[..|dates| - 1]), blocked, dates[|dates| - 1]);
    }
  }

  // ---------------------------------------------------------------------------
  // The records agree with the table
  // ---------------------------------------------------------------------------

  /** How many AM/PM slots of a day's entry hold `name`. */
  function PrimaryOcc(e: DayEntry, name: string): nat {
    (if e.am == name then 1 else 0) + (if e.pm == name then 1 else 0)
  }

  /** How many slots of a day's entry, primary or reserve, hold `name`. */
  function Occ(e: DayEntry, name: string): nat {
    PrimaryOcc(e, name) + multiset(e.amr)[name] + multiset(e.pmr)[name]
  }

  /** The AM/PM slots `name` holds on the days `dates`, added up. */
  function PrimaryHeld(table: DutyTable, name: string, dates: seq<Day>): nat {
    if dates == [] then 0
    else PrimaryHeld(table, name, dates[..|dates| - 1]) + PrimaryOcc(EntryOf(table, dates[|dates| - 1]), name)
  }

  /** Names tell the people apart, and none is the empty name an unfilled slot shows. */
  predicate UniqueNames(people: seq<PersonState>) {
    && (forall i :: 0 <= i < |people| ==> people[i].name != "")
    && (forall i, j :: 0 <= i < j < |people| ==> people[i].name != people[j].name)
  }

  /** A person holds exactly one slot on each day of their schedule and none on any other day. */
  ghost predicate SlotsAgree(st: EngineState) {
    forall i, d :: 0 <= i < |st.people| ==>
      Occ(EntryOf(st.table, d), st.people[i].name) == if d in st.people[i].schedule then 1 else 0
  }

  /** A person's count is the number of AM/PM slots they hold on the days of their schedule. */
  predicate CountsAgree(st: EngineState) {
    forall i :: 0 <= i < |st.people| ==>
      st.people[i].assignedCount == PrimaryHeld(st.table, st.people[i].name, st.people[i].schedule)
  }

  /** The records agree with the table. */
  ghost predicate Ledger(st: EngineState) {
    SlotsAgree(st) && CountsAgree(st)
  }

  /** The slot about to be filled is still empty (reserve lists are appended to). */
  predicate OpenFor(e: DayEntry, slot: Slot) {
    (slot == AM ==> e.am == "") && (slot == PM ==> e.pm == "")
  }

  /** Tables that agree on the AM/PM slots of `name` on `dates` give the same sum. */
  lemma {:induction false} PrimaryHeldFrame(t1: DutyTable, t2: DutyTable, name: string, dates: seq<Day>)
    requires forall j :: 0 <= j < |dates| ==>
      PrimaryOcc(EntryOf(t1, dates[j]), name) == PrimaryOcc(EntryOf(t2, dates[j]), name)
    ensures PrimaryHeld(t1, name, dates) == PrimaryHeld(t2, name, dates)
  {
    if dates != [] {
      PrimaryHeldFrame(t1, t2, name, dates[..|dates| - 1]);
    }
  }

  /** Putting `name` in an open slot of an entry adds one slot for `name` and none for any other non-empty name. */
  lemma PutCounts(e: DayEntry, slot: Slot, name: string, x: string)
    requires OpenFor(e, slot) && x != ""
    ensures Occ(Put(e, slot, name), x) == Occ(e, x) + (if x == name then 1 else 0)
    ensures PrimaryOcc(Put(e, slot, name), x) == PrimaryOcc(e, x) + (if x == name && IsPrimary(slot) then 1 else 0)
  {
    if slot == AMR {
      assert multiset(e.amr + [name]) == multiset(e.amr) + multiset{name};
    } else if slot == PMR {
      assert multiset(e.pmr + [name]) == multiset(e.pmr) + multiset{name};
    }
  }

  /** Putting `name` in an open slot adds one slot for `name` and none for any other non-empty name. */
  lemma PlaceCounts(table: DutyTable, date: Day, slot: Slot, name: string, x: string)
    requires OpenFor(EntryOf(table, date), slot) && x != ""
    ensures var e, e2 := EntryOf(table, date), EntryOf(Place(table, date, slot, name), date);
      && Occ(e2, x) == Occ(e, x) + (if x == name then 1 else 0)
      && PrimaryOcc(e2, x) == PrimaryOcc(e, x) + (if x == name && IsPrimary(slot) then 1 else 0)
  {
    PutCounts(EntryOf(table, date), slot, name, x);
  }

  /** The state after person `k` takes the slot. */
  function TakeStep(st: EngineState, date: Day, slot: Slot, k: nat): EngineState
    requires k < |st.people|
  {
    var p := st.people[k];
    EngineState(st.people[k := Take(p, date, slot)], Place(st.table, date, slot, p.name))
  }

  lemma TakeKeepsSlots(st: EngineState, date: Day, slot: Slot, k: nat)
    requires UniqueNames(st.people) && SlotsAgree(st) && OpenFor(EntryOf(st.table, date), slot)
    requires k < |st.people| && date !in st.people[k].schedule
    ensures SlotsAgree(TakeStep(st, date, slot, k))
  {
    var people := st.people;
    var p := people[k];
    var next := TakeStep(st, date, slot, k);
    forall i, d | 0 <= i < |people|
      ensures Occ(EntryOf(next.table, d), next.people[i].name) == if d in next.people[i].schedule then 1 else 0
    {
      var q := people[i];
      assert next.people[i].name == q.name;
      assert next.people[i].schedule == if i == k then q.schedule + [date] else q.schedule;
      if d == date {
        PlaceCounts(st.table, date, slot, p.name, q.name);
        assert Occ(EntryOf(st.table, d), q.name) == if d in q.schedule then 1 else 0;
      } else {
        assert EntryOf(next.table, d) == EntryOf(st.table, d);
        assert Occ(EntryOf(st.table, d), q.name) == if d in q.schedule then 1 else 0;
      }
    }
  }

  /** Placing `name` leaves the AM/PM slots another name holds on any days unchanged. */
  lemma {:induction false} PlaceKeepsOtherHeld(table: DutyTable, date: Day, slot: Slot, name: string, x: string, days: seq<Day>)
    requires OpenFor(EntryOf(table, date), slot) && x != "" && x != name
    ensures PrimaryHeld(Place(table, date, slot, name), x, days) == PrimaryHeld(table, x, days)
  {
    if days != [] {
      PlaceKeepsOtherHeld(table, date, slot, name, x, days[..|days| - 1]);
      PlaceCounts(table, date, slot, name, x);
    }
  }

  /**
   * Placing `name` on a day outside its schedule `days`, where it holds no slot
   * yet, adds the slot's weight to the AM/PM slots it holds on `days + [date]`.
   */
  lemma PlaceAddsOwnHeld(table: DutyTable, date: Day, slot: Slot, name: string, days: seq<Day>)
    requires OpenFor(EntryOf(table, date), slot) && name != ""
    requires date !in days && Occ(EntryOf(table, date), name) == 0
    ensures PrimaryHeld(Place(table, date, slot, name), name, days + [date]) == PrimaryHeld(table, name, days) + DutyPoints(slot)
  {
    var t2 := Place(table, date, slot, name);
    assert (days + [date])[..|days|] == days;
    assert PrimaryHeld(t2, name, days + [date]) == PrimaryHeld(t2, name, days) + PrimaryOcc(EntryOf(t2, date), name);
    PlaceCounts(table, date, slot, name, name);
    forall j | 0 <= j < |days|
      ensures PrimaryOcc(EntryOf(table, days[j]), name) == PrimaryOcc(EntryOf(t2, days[j]), name)
    {
      assert days[j] != date;
    }
    PrimaryHeldFrame(table, t2, name, days);
  }

  lemma TakeKeepsCountOf(st: EngineState, date: Day, slot: Slot, k: nat, i: nat)
    requires UniqueNames(st.people) && SlotsAgree(st) && CountsAgree(st) && OpenFor(EntryOf(st.table, date), slot)
    requires k < |st.people| && date !in st.people[k].schedule && i < |st.people|
    ensures var next := TakeStep(st, date, slot, k);
      next.people[i].assignedCount == PrimaryHeld(next.table, next.people[i].name, next.people[i].schedule)
  {
    var p := st.people[k];
    var q := st.people[i];
    if i == k {
      assert Occ(EntryOf(st.table, date), p.name) == if date in p.schedule then 1 else 0;
      PlaceAddsOwnHeld(st.table, date, slot, p.name, p.schedule);
    } else {
      PlaceKeepsOtherHeld(st.table, date, slot, p.name, q.name, q.schedule);
    }
  }

  lemma TakeKeepsCounts(st: EngineState, date: Day, slot: Slot, k: nat)
    requires UniqueNames(st.people) && SlotsAgree(st) && CountsAgree(st) && OpenFor(EntryOf(st.table, date), slot)
    requires k < |st.people| && date !in st.people[k].schedule
    ensures CountsAgree(TakeStep(st, date, slot, k))
  {
    var next := TakeStep(st, date, slot, k);
    forall i | 0 <= i < |next.people|
      ensures next.people[i].assignedCount == PrimaryHeld(next.table, next.people[i].name, next.people[i].schedule)
    {
      TakeKeepsCountOf(st, date, slot, k, i);
    }
  }

  /** A step into an open slot keeps the records in agreement with the table. */
  lemma AssignKeepsLedger(st: EngineState, blocked: BlockedTable, date: Day, slot: Slot)
    requires UniqueNames(st.people) && Ledger(st) && OpenFor(EntryOf(st.table, date), slot)
    ensures Ledger(Assign(st, blocked, date, slot).0)
  {
    match Pick(st.people, blocked, date, slot)
    case None =>
    case Some(k) =>
      PickIsFairest(st.people, blocked, date, slot);
      assert Fairest(st.people, blocked, date, slot, k);
      assert Assign(st, blocked, date, slot).0 == TakeStep(st, date, slot, k);
      TakeKeepsSlots(st, date, slot, k);
      TakeKeepsCounts(st, date, slot, k);
  }

  /** Every day of the table has at most two names in each reserve list. */
  predicate ReservesBounded(table: DutyTable) {
    forall d :: d in table ==> |table[d].amr| <= 2 && |table[d].pmr| <= 2
  }

  /** What holds of state `s` part-way through filling `date`, starting from `st`. */
  ghost predicate DayProgress(st: EngineState, s: EngineState, date: Day) {
    && UniqueNames(s.people) && SameNames(st.people, s.people)
    && (forall d :: d != date ==> EntryOf(s.table, d) == EntryOf(st.table, d))
    && (forall d :: d in s.table ==> d in st.table || d == date)
  }

  lemma StepKeepsProgress(st: EngineState, s: EngineState, blocked: BlockedTable, date: Day, slot: Slot)
    requires DayProgress(st, s, date) && OpenFor(EntryOf(s.table, date), slot)
    ensures DayProgress(st, Assign(s, blocked, date, slot).0, date)
    ensures var e, e2 := EntryOf(s.table, date), EntryOf(Assign(s, blocked, date, slot).0.table, date);
      && (slot != AM ==> e2.am == e.am) && (slot != PM ==> e2.pm == e.pm)
      && (slot != AMR ==> e2.amr == e.amr) && (slot != PMR ==> e2.pmr == e.pmr)
      && |e2.amr| <= |e.amr| + 1 && |e2.pmr| <= |e.pmr| + 1
  {
    var next := Assign(s, blocked, date, slot).0;
    AssignTouchesOneField(s, blocked, date, slot);
    assert SameNames(st.people, next.people) by {
      assert forall i :: 0 <= i < |s.people| ==> next.people[i].name == s.people[i].name == st.people[i].name;
    }
    assert UniqueNames(next.people) by {
      assert forall i :: 0 <= i < |s.people| ==> next.people[i].name == s.people[i].name;
    }
  }

  /**
   * A day filled from scratch keeps the records in agreement with the table,
   * leaves at most two names in each of the day's reserve lists, and changes no
   * other day.
   */
  lemma DayKeepsLedger(st: EngineState, blocked: BlockedTable, date: Day)
    requires UniqueNames(st.people) && Ledger(st) && date !in st.table
    ensures var fin := RunDay(st, blocked, date);
      && SameNames(st.people, fin.people) && Ledger(fin)
      && |EntryOf(fin.table, date).amr| <= 2 && |EntryOf(fin.table, date).pmr| <= 2
      && (forall d :: d != date ==> EntryOf(fin.table, d) == EntryOf(st.table, d))
      && (forall d :: d in fin.table ==> d in st.table || d == date)
  {
    RunDayInSteps(st, blocked, date);
    var s1 := Assign(st, blocked, date, AM).0;
    var s2 := Assign(s1, blocked, date, PM).0;
    var s3 := Assign(s2, blocked, date, AMR).0;
    var s4 := Assign(s3, blocked, date, AMR).0;
    var s5 := Assign(s4, blocked, date, PMR).0;
    var s6 := Assign(s5, blocked, date, PMR).0;
    assert DayProgress(st, st, date);
    StepKeepsProgress(st, st, blocked, date, AM);
    AssignKeepsLedger(st, blocked, date, AM);
    StepKeepsProgress(st, s1, blocked, date, PM);
    AssignKeepsLedger(s1, blocked, date, PM);
    StepKeepsProgress(st, s2, blocked, date, AMR);
    AssignKeepsLedger(s2, blocked, date, AMR);
    StepKeepsProgress(st, s3, blocked, date, AMR);
    AssignKeepsLedger(s3, blocked, date, AMR);
    StepKeepsProgress(st, s4, blocked, date, PMR);
    AssignKeepsLedger(s4, blocked, date, PMR);
    StepKeepsProgress(st, s5, blocked, date, PMR);
    AssignKeepsLedger(s5, blocked, date, PMR);
    assert DayProgress(st, s6, date);
  }

  /**
   * Filling days that are all different, none of them in the table yet, keeps
   * the records in agreement with the table and at most two names in every
   * reserve list, and adds no day other than those filled.
   */
  lemma {:induction false} DaysKeepLedger(st: EngineState, blocked: BlockedTable, dates: seq<Day>)
    requires UniqueNames(st.people) && Ledger(st) && ReservesBounded(st.table) && NoRepeats(dates)
    requires forall d :: d in st.table ==> d !in dates
    ensures var fin := RunDays(st, blocked, dates);
      && SameNames(st.people, fin.people) && Ledger(fin) && ReservesBounded(fin.table)
      && (forall d :: d in fin.table ==> d in st.table || d in dates)
  {
    if dates != [] {
      var init, last := dates[..|dates| - 1], dates[|dates| - 1];
      assert forall j :: 0 <= j < |init| ==> init[j] == dates[j];
      DaysKeepLedger(st, blocked, init);
      var mid := RunDays(st, blocked, init);
      assert last !in init;
      DayKeepsLedger(mid, blocked, last);
      var fin := RunDays(st, blocked, dates);
      assert fin == RunDay(mid, blocked, last);
      forall d | d in fin.table
        ensures |fin.table[d].amr| <= 2 && |fin.table[d].pmr| <= 2
      {
        assert EntryOf(fin.table, d) == fin.table[d];
      }
    }
  }

  // ---------------------------------------------------------------------------
  // Nobody is on duty on a blocked day
  // ---------------------------------------------------------------------------

  /** Every non-empty name in the table stands on a day its holder is not blocked on. */
  ghost predicate TableRespects(table: DutyTable, blocked: BlockedTable) {
    forall d, x :: x != "" && Occ(EntryOf(table, d), x) != 0 ==> !IsBlocked(blocked, x, d)
  }

  /** Putting `name` in a slot never adds a slot for another name (an AM or PM name it replaces loses one). */
  lemma PutAddsNoOther(e: DayEntry, slot: Slot, name: string, x: string)
    requires x != name
    ensures Occ(Put(e, slot, name), x) <= Occ(e, x)
  {
    if slot == AMR {
      assert multiset(e.amr + [name]) == multiset(e.amr) + multiset{name};
    } else if slot == PMR {
      assert multiset(e.pmr + [name]) == multiset(e.pmr) + multiset{name};
    }
  }

  /** A step only ever writes the name of someone not blocked on the day. */
  lemma AssignKeepsRespects(st: EngineState, blocked: BlockedTable, date: Day, slot: Slot)
    requires TableRespects(st.table, blocked)
    ensures TableRespects(Assign(st, blocked, date, slot).0.table, blocked)
  {
    match Pick(st.people, blocked, date, slot)
    case None =>
    case Some(k) =>
      PickIsFairest(st.people, blocked, date, slot);
      assert Fairest(st.people, blocked, date, slot, k);
      var name := st.people[k].name;
      var t2 := Place(st.table, date, slot, name);
      assert Assign(st, blocked, date, slot).0.table == t2;
      forall d, x | x != "" && Occ(EntryOf(t2, d), x) != 0
        ensures !IsBlocked(blocked, x, d)
      {
        if d != date {
          assert EntryOf(t2, d) == EntryOf(st.table, d);
        } else if x != name {
          PutAddsNoOther(EntryOf(st.table, date), slot, name, x);
        }
      }
  }

  lemma DayKeepsRespects(st: EngineState, blocked: BlockedTable, date: Day)
    requires TableRespects(st.table, blocked)
    ensures TableRespects(RunDay(st, blocked, date).table, blocked)
  {
    RunDayInSteps(st, blocked, date);
    var s1 := Assign(st, blocked, date, AM).0;
    var s2 := Assign(s1, blocked, date, PM).0;
    var s3 := Assign(s2, blocked, date, AMR).0;
    var s4 := Assign(s3, blocked, date, AMR).0;
    var s5 := Assign(s4, blocked, date, PMR).0;
    AssignKeepsRespects(st, blocked, date, AM);
    AssignKeepsRespects(s1, blocked, date, PM);
    AssignKeepsRespects(s2, blocked, date, AMR);
    AssignKeepsRespects(s3, blocked, date, AMR);
    AssignKeepsRespects(s4, blocked, date, PMR);
    AssignKeepsRespects(s5, blocked, date, PMR);
  }

  /**
   * However many days are filled, and whatever duties the records already
   * carry, no name is written into a slot of a day its holder is blocked on.
   */
  lemma {:induction false} DaysKeepRespects(st: EngineState, blocked: BlockedTable, dates: seq<Day>)
    requires TableRespects(st.table, blocked)
    ensures TableRespects(RunDays(st, blocked, dates).table, blocked)
  {
    if dates != [] {
      DaysKeepRespects(st, blocked, dates[..|dates| - 1]);
      DayKeepsRespects(RunDays(st, blocked, dates[..|dates| - 1]), blocked, dates[|dates| - 1]);
    }
  }

  // ---------------------------------------------------------------------------
  // Schedules grow in date order
  // ---------------------------------------------------------------------------

  /** Every schedule is in strictly increasing date order and ends no later than `last`. */
  predicate SchedulesUpTo(people: seq<PersonState>, last: Day) {
    forall i :: 0 <= i < |people| ==>
      Ascending(people[i].schedule) && forall k :: 0 <= k < |people[i].schedule| ==> people[i].schedule[k] <= last
  }

  /** A step on `date`, with every schedule ending no later than `date`, keeps the schedules in date order. */
  lemma AssignKeepsAscending(st: EngineState, blocked: BlockedTable, date: Day, slot: Slot)
    requires SchedulesUpTo(st.people, date)
    ensures SchedulesUpTo(Assign(st, blocked, date, slot).0.people, date)
  {
    match Pick(st.people, blocked, date, slot)
    case None =>
    case Some(k) =>
      PickIsFairest(st.people, blocked, date, slot);
      assert Fairest(st.people, blocked, date, slot, k);
      var p := st.people[k];
      var s := p.schedule + [date];
      assert Take(p, date, slot).schedule == s;
      forall a, b | 0 <= a < b < |s|
        ensures s[a] < s[b]
      {
        assert s[a] == p.schedule[a];
        if b == |p.schedule| {
          assert p.schedule[a] <= date && p.schedule[a] != date;
        } else {
          assert s[b] == p.schedule[b];
        }
      }
  }

  lemma DayKeepsAscending(st: EngineState, blocked: BlockedTable, date: Day)
    requires SchedulesUpTo(st.people, date)
    ensures SchedulesUpTo(RunDay(st, blocked, date).people, date)
  {
    RunDayInSteps(st, blocked, date);
    var s1 := Assign(st, blocked, date, AM).0;
    var s2 := Assign(s1, blocked, date, PM).0;
    var s3 := Assign(s2, blocked, date, AMR).0;
    var s4 := Assign(s3, blocked, date, AMR).0;
    var s5 := Assign(s4, blocked, date, PMR).0;
    AssignKeepsAscending(st, blocked, date, AM);
    AssignKeepsAscending(s1, blocked, date, PM);
    AssignKeepsAscending(s2, blocked, date, AMR);
    AssignKeepsAscending(s3, blocked, date, AMR);
    AssignKeepsAscending(s4, blocked, date, PMR);
    AssignKeepsAscending(s5, blocked, date, PMR);
  }

  /**
   * Filling days in increasing date order, starting from schedules in date
   * order that end no later than the first day, keeps every schedule in
   * strictly increasing date order, ending no later than the last day filled.
   */
  lemma {:induction false} DaysKeepAscending(st: EngineState, blocked: BlockedTable, dates: seq<Day>, from: Day)
    requires Ascending(dates) && (dates != [] ==> from <= dates[0])
    requires SchedulesUpTo(st.people, from)
    ensures SchedulesUpTo(RunDays(st, blocked, dates).people, if dates == [] then from else dates[|dates| - 1])
  {
    if dates != [] {
      var init, last := dates[..|dates| - 1], dates[|dates| - 1];
      assert forall j :: 0 <= j < |init| ==> init[j] == dates[j];
      DaysKeepAscending(st, blocked, init, from);
      var mid := RunDays(st, blocked, init);
      var bound := if init == [] then from else init[|init| - 1];
      assert bound <= last;
      assert SchedulesUpTo(mid.people, last);
      DayKeepsAscending(mid, blocked, last);
    }
  }

  // ---------------------------------------------------------------------------
  // A month
  // ---------------------------------------------------------------------------

  /** The month's days run from its first day, one day apart, up to the day before the next month's first. */
  lemma MonthDaysInOrder(year: int, month: Month)
    ensures var ds := MonthDays(year, month);
      && (forall i :: 0 <= i < |ds| ==> ds[i] == DayOf(year, month, 1) + i)
      && (month < 12 ==> ds[|ds| - 1] + 1 == DayOf(year, month + 1, 1))
      && (month == 12 ==> ds[|ds| - 1] + 1 == DayOf(year + 1, 1, 1))
      && NoRepeats(ds) && Ascending(ds)
  {
    NextMonthFollows(year, month);
  }

  /** Records as the points table gives them: nobody has a duty yet. */
  predicate Unloaded(people: seq<PersonState>) {
    forall i :: 0 <= i < |people| ==> people[i].assignedCount == 0 && people[i].schedule == []
  }

  /** The roster read from the points table has no duties yet and is within the rules. */
  lemma ParsedRosterIsUnloaded(lines: seq<string>, readNumber: string -> real, blocked: BlockedTable)
    ensures Unloaded(InitialRoster(lines, readNumber))
    ensures Sound(InitialRoster(lines, readNumber), blocked)
  {
  }

  /**
   * A month generated for a roster without duties yet, whose names are distinct
   * and not empty: the people and their points are kept; everyone stays within
   * the cap of 7 AM/PM duties and holds at most one slot a day, and only on days
   * of the month on which they are not blocked; a person's schedule is exactly
   * the days on which they hold a slot, each once, in date order, and their
   * count is the number of AM/PM slots among them; every reserve list has at
   * most two names.
   */
  lemma GeneratedMonth(people: seq<PersonState>, blocked: BlockedTable, year: int, month: Month)
    requires UniqueNames(people) && Unloaded(people)
    ensures var fin := RunDays(EngineState(people, map[]), blocked, MonthDays(year, month));
      && SameNames(people, fin.people)
      && Sound(fin.people, blocked) && Ledger(fin) && ReservesBounded(fin.table)
      && (forall d :: d in fin.table ==> d in MonthDays(year, month))
      && (forall i, d :: 0 <= i < |people| ==> Occ(EntryOf(fin.table, d), people[i].name) <= 1)
      && (forall i, d :: 0 <= i < |people| && Occ(EntryOf(fin.table, d), people[i].name) != 0 ==>
            d in MonthDays(year, month) && !IsBlocked(blocked, people[i].name, d))
      && (forall i :: 0 <= i < |people| ==> Ascending(fin.people[i].schedule))
  {
    var st := EngineState(people, map[]);
    var ds := MonthDays(year, month);
    MonthDaysInOrder(year, month);
    assert Ledger(st);
    DaysKeepLedger(st, blocked, ds);
    DaysKeepSound(st, blocked, ds);
    var fin := RunDays(st, blocked, ds);
    HeldDaysAllowed(people, fin, blocked, ds);
    DaysKeepAscending(st, blocked, ds, ds[0]);
  }

  /**
   * When the records agree with the table, everyone holds at most one slot a
   * day, and a slot only on a day the table has and the person is not blocked on.
   */
  lemma HeldDaysAllowed(people: seq<PersonState>, fin: EngineState, blocked: BlockedTable, days: seq<Day>)
    requires UniqueNames(people) && SameNames(people, fin.people)
    requires Sound(fin.people, blocked) && SlotsAgree(fin)
    requires forall d :: d in fin.table ==> d in days
    ensures forall i, d :: 0 <= i < |people| ==> Occ(EntryOf(fin.table, d), people[i].name) <= 1
    ensures forall i, d :: 0 <= i < |people| && Occ(EntryOf(fin.table, d), people[i].name) != 0 ==>
      d in days && !IsBlocked(blocked, people[i].name, d)
  {
    forall i, d | 0 <= i < |people| && Occ(EntryOf(fin.table, d), people[i].name) != 0
      ensures d in days && !IsBlocked(blocked, people[i].name, d)
    {
      assert d in fin.people[i].schedule;
      assert SoundRecord(fin.people[i], blocked);
      assert d in fin.table;
    }
  }

  /**
   * No one is given any slot on a day a blocked-date line for them lists: a line
   * whose name part normalises to the lower-cased roster name. This holds for
   * any roster, also one whose records carry an earlier run's duties or that
   * has equal names.
   */
  lemma NoDutyOnBlockedDay(lines: seq<Line>, target: Target, people: seq<PersonState>, year: int, month: Month)
    requires Blocked(lines, target).Ok?
    ensures var fin := RunDays(EngineState(people, map[]), Blocked(lines, target).value, MonthDays(year, month));
      forall i, j, d ::
        (0 <= i < |people| && people[i].name != "" && 0 <= j < |lines|
          && LineBlocks(lines[j], ToLower(people[i].name), d, target)) ==>
        Occ(EntryOf(fin.table, d), people[i].name) == 0
  {
    var blocked := Blocked(lines, target).value;
    assert TableRespects(map[], blocked) by {
      forall d, x | x != ""
        ensures Occ(EntryOf(map[], d), x) == 0
      {
        assert EntryOf(map[], d) == EmptyEntry;
      }
    }
    DaysKeepRespects(EngineState(people, map[]), blocked, MonthDays(year, month));
    forall i, j, d | 0 <= i < |people| && 0 <= j < |lines| && LineBlocks(lines[j], ToLower(people[i].name), d, target)
      ensures IsBlocked(blocked, people[i].name, d)
    {
      LookupAfterParse(lines, target, people[i].name, d);
    }
  }

  /**
   * The rows: one per day of the month, in date order, each with its weekday,
   * the AM and PM names of the day, and its reserve lists padded with "" to two
   * names, so that no name in the table is lost when the lists have at most two.
   */
  lemma RowsShowTable(table: DutyTable, year: int, month: Month)
    requires ReservesBounded(table)
    ensures var rows := Rows(table, year, month);
      && |rows| == DaysInMonth(year, month)
      && (forall i :: 0 <= i < |rows| ==> rows[i].date == DayOf(year, month, i + 1))
      && forall i :: 0 <= i < |rows| ==>
        var e := EntryOf(table, rows[i].date);
        && rows[i].weekday == WeekdayLabel(rows[i].date)
        && rows[i].am == e.am && rows[i].pm == e.pm
        && [rows[i].amReserve1, rows[i].amReserve2] == e.amr + seq(2 - |e.amr|, _ => "")
        && [rows[i].pmReserve1, rows[i].pmReserve2] == e.pmr + seq(2 - |e.pmr|, _ => "")
  {
    var rows := Rows(table, year, month);
    forall i | 0 <= i < |rows|
      ensures var e := EntryOf(table, rows[i].date);
        && [rows[i].amReserve1, rows[i].amReserve2] == e.amr + seq(2 - |e.amr|, _ => "")
        && [rows[i].pmReserve1, rows[i].pmReserve2] == e.pmr + seq(2 - |e.pmr|, _ => "")
    {
      var e := EntryOf(table, rows[i].date);
      assert |e.amr| <= 2 && |e.pmr| <= 2;
    }
  }

  // ---------------------------------------------------------------------------
  // Generating a second time
  // ---------------------------------------------------------------------------

  /** Filling the days `a` and then the days `b` is filling `a + b`. */
  lemma {:induction false} RunDaysAppend(st: EngineState, blocked: BlockedTable, a: seq<Day>, b: seq<Day>)
    ensures RunDays(st, blocked, a + b) == RunDays(RunDays(st, blocked, a), blocked, b)
  {
    if b == [] {
      assert a + b == a;
    } else {
      assert (a + b)[..|a + b| - 1] == a + b[..|b| - 1];
      RunDaysAppend(st, blocked, a, b[..|b| - 1]);
    }
  }

  /**
   * Filling a day keeps the people and their points, changes no other day, and
   * leaves the day's AM slot as its first step set it.
   */
  lemma DayFrame(st: EngineState, blocked: BlockedTable, date: Day)
    ensures var fin := RunDay(st, blocked, date);
      && SameNames(st.people, fin.people)
      && (forall d :: d != date ==> EntryOf(fin.table, d) == EntryOf(st.table, d))
      && EntryOf(fin.table, date).am == EntryOf(Assign(st, blocked, date, AM).0.table, date).am
  {
    RunDayInSteps(st, blocked, date);
    var s1 := Assign(st, blocked, date, AM).0;
    var s2 := Assign(s1, blocked, date, PM).0;
    var s3 := Assign(s2, blocked, date, AMR).0;
    var s4 := Assign(s3, blocked, date, AMR).0;
    var s5 := Assign(s4, blocked, date, PMR).0;
    AssignTouchesOneField(st, blocked, date, AM);
    AssignTouchesOneField(s1, blocked, date, PM);
    AssignTouchesOneField(s2, blocked, date, AMR);
    AssignTouchesOneField(s3, blocked, date, AMR);
    AssignTouchesOneField(s4, blocked, date, PMR);
    AssignTouchesOneField(s5, blocked, date, PMR);
  }

  /** Filling days keeps the people and their points, and changes no day that is not filled. */
  lemma {:induction false} DaysFrame(st: EngineState, blocked: BlockedTable, dates: seq<Day>)
    ensures var fin := RunDays(st, blocked, dates);
      && SameNames(st.people, fin.people)
      && forall d :: d !in dates ==> EntryOf(fin.table, d) == EntryOf(st.table, d)
  {
    if dates != [] {
      var init := dates[..|dates| - 1];
      DaysFrame(st, blocked, init);
      DayFrame(RunDays(st, blocked, init), blocked, dates[|dates| - 1]);
      assert forall j :: 0 <= j < |init| ==> init[j] == dates[j];
    }
  }

  /** The AM slot of the month's first day, in the table a month run builds, is set by the run's very first step. */
  lemma FirstMorning(st: EngineState, blocked: BlockedTable, year: int, month: Month)
    requires st.table == map[]
    ensures var ds := MonthDays(year, month);
      EntryOf(RunDays(st, blocked, ds).table, ds[0]).am == EntryOf(Assign(st, blocked, ds[0], AM).0.table, ds[0]).am
      && Rows(RunDays(st, blocked, ds).table, year, month)[0].am == EntryOf(RunDays(st, blocked, ds).table, ds[0]).am
  {
    var ds := MonthDays(year, month);
    var d1 := ds[0];
    MonthDaysInOrder(year, month);
    assert ds == [d1] + ds[1..];
    assert d1 !in ds[1..];
    assert [d1][..0] == [];
    RunDaysAppend(st, blocked, [d1], ds[1..]);
    var a1 := RunDay(st, blocked, d1);
    assert RunDays(st, blocked, [d1]) == a1;
    DayFrame(st, blocked, d1);
    DaysFrame(a1, blocked, ds[1..]);
  }

  /** A person alone on the roster, free on the 1st and under the cap, takes its AM slot. */
  lemma LoneFirstMorning(p: PersonState, blocked: BlockedTable, year: int, month: Month)
    requires p.name != "" && p.assignedCount == 0 && p.schedule == []
    requires !IsBlocked(blocked, p.name, DayOf(year, month, 1))
    ensures var first := RunDays(EngineState([p], map[]), blocked, MonthDays(year, month));
      && EntryOf(first.table, DayOf(year, month, 1)).am == p.name
      && Rows(first.table, year, month)[0].am == p.name
  {
    MonthDaysInOrder(year, month);
    var st := EngineState([p], map[]);
    FirstMorning(st, blocked, year, month);
    assert Candidates([p], blocked, MonthDays(year, month)[0], AM, 1) == [0];
  }

  /** A person alone on the roster, unloaded and free on the 1st, takes its AM slot and has the 1st in their schedule. */
  lemma LoneFirstRun(p: PersonState, blocked: BlockedTable, year: int, month: Month)
    requires p.name != "" && p.assignedCount == 0 && p.schedule == []
    requires !IsBlocked(blocked, p.name, DayOf(year, month, 1))
    ensures var first := RunDays(EngineState([p], map[]), blocked, MonthDays(year, month));
      && Rows(first.table, year, month)[0].am == p.name
      && |first.people| == 1 && DayOf(year, month, 1) in first.people[0].schedule
  {
    var d1 := DayOf(year, month, 1);
    var first := RunDays(EngineState([p], map[]), blocked, MonthDays(year, month));
    LoneFirstMorning(p, blocked, year, month);
    LoneHeldDayScheduled(p, blocked, year, month, d1);
    assert Occ(EntryOf(first.table, d1), p.name) != 0;
  }

  /** For a person alone on the roster and unloaded, a day on which the month leaves them a slot is in their schedule. */
  lemma LoneHeldDayScheduled(p: PersonState, blocked: BlockedTable, year: int, month: Month, d: Day)
    requires p.name != "" && p.assignedCount == 0 && p.schedule == []
    ensures var fin := RunDays(EngineState([p], map[]), blocked, MonthDays(year, month));
      |fin.people| == 1 && (Occ(EntryOf(fin.table, d), p.name) != 0 ==> d in fin.people[0].schedule)
  {
    GeneratedMonth([p], blocked, year, month);
    var fin := RunDays(EngineState([p], map[]), blocked, MonthDays(year, month));
    assert SlotsAgree(fin) && fin.people[0].name == p.name;
  }

  /** A person alone on the roster who already has the 1st in their schedule leaves its AM slot empty. */
  lemma LoneRunAfterFirst(q: PersonState, blocked: BlockedTable, year: int, month: Month)
    requires DayOf(year, month, 1) in q.schedule
    ensures Rows(RunDays(EngineState([q], map[]), blocked, MonthDays(year, month)).table, year, month)[0].am == ""
  {
    var ds := MonthDays(year, month);
    MonthDaysInOrder(year, month);
    FirstMorning(EngineState([q], map[]), blocked, year, month);
    assert Candidates([q], blocked, ds[0], AM, 1) == [];
  }

  /**
   * Generating a month twice for the same one-person roster, without reading
   * the points table again in between: the first time the person takes the AM
   * slot of the 1st, the second time that slot stays empty, because the records
   * still carry the first run's schedule.
   */
  lemma RegenerationDiffers(p: PersonState, blocked: BlockedTable, year: int, month: Month)
    requires p.name != "" && p.assignedCount == 0 && p.schedule == []
    requires !IsBlocked(blocked, p.name, DayOf(year, month, 1))
    ensures var ds := MonthDays(year, month);
      var first := RunDays(EngineState([p], map[]), blocked, ds);
      var second := RunDays(EngineState(first.people, map[]), blocked, ds);
      Rows(first.table, year, month)[0].am == p.name && Rows(second.table, year, month)[0].am == ""
  {
    var first := RunDays(EngineState([p], map[]), blocked, MonthDays(year, month));
    LoneFirstRun(p, blocked, year, month);
    GeneratedMonth([p], blocked, year, month);
    assert first.people == [first.people[0]];
    LoneRunAfterFirst(first.people[0], blocked, year, month);
  }

  /**
   * Generating with the load cleared first does not depend on earlier runs:
   * running again on the records the first run leaves gives the same result.
   */
  lemma RegenerationRepeats(people: seq<PersonState>, blocked: BlockedTable, year: int, month: Month)
    ensures var ds := MonthDays(year, month);
      var first := RunDays(EngineState(Cleared(people), map[]), blocked, ds);
      RunDays(EngineState(Cleared(first.people), map[]), blocked, ds) == first
  {
    var ds := MonthDays(year, month);
    var first := RunDays(EngineState(Cleared(people), map[]), blocked, ds);
    DaysFrame(EngineState(Cleared(people), map[]), blocked, ds);
    assert Cleared(first.people) == Cleared(people);
  }
}
