/**
 * What the blocked-date parser promises: how tokens are classified and expanded,
 * that lines for the same person accumulate, when the parse fails, and what the
 * lookup answers for a parsed table.
 */
module BlockedDatesFacts {
  import opened Wrappers
  import opened Calendar
  import opened Names
  import opened BlockedDates

  // ---------------------------------------------------------------------------
  // Tokens
  // ---------------------------------------------------------------------------

  /** A range expands to every day from its start to its end, in order, and to nothing when start > end. */
  lemma {:induction false} DaySpanContents(first: Day, last: Day)
    ensures |DaySpan(first, last)| == if last < first then 0 else last - first + 1
    ensures forall i :: 0 <= i < |DaySpan(first, last)| ==> DaySpan(first, last)[i] == first + i
    ensures forall d :: d in DaySpan(first, last) <==> first <= d <= last
    decreases last - first
  {
    if first <= last {
      DaySpanContents(first, last - 1);
      var s := DaySpan(first, last);
      assert s == DaySpan(first, last - 1) + [last];
      forall d | first <= d <= last
        ensures d in s
      {
        assert s[d - first] == d;
      }
    }
  }

  lemma ShortDateHasSlash(t: string)
    requires HasShortDate(t)
    ensures exists k :: 0 <= k < |t| && t[k] == '/'
  {
    var i: nat :| i < |t| && ShortDateAt(t, i);
    if ShortDateShapeAt(t, i, 1, 1) || ShortDateShapeAt(t, i, 1, 2) {
      assert t[i + 1] == '/';
    } else {
      assert t[i + 2] == '/';
    }
  }

  /**
   * A bare number of days (digits only) resolves to that day of the target month
   * of the target year: it holds no dash and no slash, so the earlier branches do not apply.
   */
  lemma BareDayToken(t: string, target: Target)
    requires t != [] && AllDigits(t)
    ensures Classify(t) == SingleDay
    ensures ExpandToken(t, target) == Ok([DayOf(target.year, target.month, DecimalValue(t))])
  {
    if HasShortDate(t) {
      ShortDateHasSlash(t);
      assert false;
    }
    assert IsDigit(t[0]);
  }

  /**
   * A token without a dash that holds a d/M/yy date is read by the short-date
   * parse as a whole: one day when it parses, and the whole token as the invalid
   * date otherwise.
   */
  lemma ShortDateToken(t: string, target: Target)
    requires !HasDash(t) && HasShortDate(t)
    ensures ExpandToken(t, target) ==
      if target.parseShortDate(t).Some? then Ok([target.parseShortDate(t).value]) else Err(InvalidDate(t))
  {
  }

  /**
   * A token with a digit but neither a dash nor a d/M/yy date, that is not all
   * digits (`3/4`, `5th`), is no day number: it is an invalid date and aborts the parse.
   */
  lemma MalformedDayToken(t: string, target: Target)
    requires !HasDash(t) && !HasShortDate(t) && HasDigit(t) && !AllDigits(t)
    ensures ExpandToken(t, target) == Err(InvalidDate(t))
  {
  }

  /** A day and month without a year, such as `3/4`, fails the parse. */
  lemma DayMonthTokenFails(target: Target)
    ensures ExpandToken("3/4", target) == Err(InvalidDate("3/4"))
  {
    var t := "3/4";
    assert IsDigit(t[0]) && !IsDigit(t[1]) && !IsDash(t[1]);
    MalformedDayToken(t, target);
  }

  /**
   * A token `a-b` (or `a–b`) is a range from the day `a` reads as to the day `b`
   * reads as: every day in between when both read as dates, none otherwise.
   */
  lemma RangeToken(a: string, c: char, b: string, target: Target)
    requires forall i :: 0 <= i < |a| ==> !IsDash(a[i])
    requires forall i :: 0 <= i < |b| ==> !IsDash(b[i])
    requires IsDash(c)
    ensures Classify(a + [c] + b) == DayRange
    ensures var start, end := target.parseDayMonth(Trim(a)), target.parseDayMonth(Trim(b));
      ExpandToken(a + [c] + b, target)
        == if start.Some? && end.Some? then Ok(DaySpan(start.value, end.value)) else Ok([])
  {
    var t := a + [c] + b;
    assert t[|a|] == c;
    SplitAtFirst(a, c, b, IsDash);
    BeforeWithoutSeparator(b, IsDash);
  }

  predicate IsLetter(c: char) {
    'a' <= c <= 'z' || 'A' <= c <= 'Z'
  }

  /**
   * The range-end parse reads a date only from text that holds a letter, as the
   * 'd MMM yyyy' format does: its month is a name such as "Aug".
   */
  ghost predicate NeedsMonthName(target: Target) {
    forall s :: target.parseDayMonth(s).Some? ==> exists c :: c in s && IsLetter(c)
  }

  /**
   * A range token without letters, which is every range the line pattern lets
   * through, blocks no day when the range-end parse needs a month name.
   */
  lemma RangeBlocksNothing(t: string, target: Target)
    requires NeedsMonthName(target) && HasDash(t)
    requires forall c :: c in t ==> !IsLetter(c)
    ensures ExpandToken(t, target) == Ok([])
  {
    var a := Before(t, IsDash);
    var b := Before(After(t, IsDash), IsDash);
    BeforeChars(t, IsDash);
    AfterChars(t, IsDash);
    BeforeChars(After(t, IsDash), IsDash);
    TrimChars(a);
    TrimChars(b);
    assert target.parseDayMonth(RangeStart(t)).None?;
  }

  // ---------------------------------------------------------------------------
  // Lines and the merged table
  // ---------------------------------------------------------------------------

  /** The tokens of a line expand without error exactly when each token does. */
  lemma {:induction false} TokensExpandIffEach(ts: seq<string>, target: Target)
    ensures ExpandTokens(ts, target).Ok? <==> forall j :: 0 <= j < |ts| ==> ExpandToken(ts[j], target).Ok?
    ensures ExpandTokens(ts, target).Ok? ==> forall d ::
      d in ExpandTokens(ts, target).value <==> exists j :: 0 <= j < |ts| && d in ExpandToken(ts[j], target).value
  {
    if ts != [] {
      var init := ts[..|ts| - 1];
      TokensExpandIffEach(init, target);
      assert forall j :: 0 <= j < |init| ==> init[j] == ts[j];
    }
  }

  /** Every line the pattern matched expands without error. */
  predicate LinesExpand(lines: seq<Line>, target: Target) {
    forall i :: 0 <= i < |lines| && lines[i].Decl? ==> ExpandTokens(lines[i].tokens, target).Ok?
  }

  /** Some matched line declares the person key `key`. */
  predicate Declares(lines: seq<Line>, key: string) {
    exists i :: 0 <= i < |lines| && lines[i].Decl? && Key(lines[i].name) == key
  }

  /** The days of all lines whose name normalises to `key`, concatenated in line order. */
  function DatesFor(lines: seq<Line>, key: string, target: Target): seq<Day>
    requires LinesExpand(lines, target)
  {
    if lines == [] then []
    else
      var last := lines[|lines| - 1];
      DatesFor(lines[..|lines| - 1], key, target)
        + if last.Decl? && Key(last.name) == key then ExpandTokens(last.tokens, target).value else []
  }

  lemma InitExpands(lines: seq<Line>, target: Target)
    requires lines != [] && LinesExpand(lines, target)
    ensures LinesExpand(lines[..|lines| - 1], target)
  {
    assert forall i :: 0 <= i < |lines| - 1 ==> lines[..|lines| - 1][i] == lines[i];
  }

  /** A key no line declares has no days. */
  lemma {:induction false} DatesForUndeclared(lines: seq<Line>, key: string, target: Target)
    requires LinesExpand(lines, target) && !Declares(lines, key)
    ensures DatesFor(lines, key, target) == []
  {
    if lines != [] {
      var init := lines[..|lines| - 1];
      InitExpands(lines, target);
      assert forall i :: 0 <= i < |init| ==> init[i] == lines[i];
      DatesForUndeclared(init, key, target);
    }
  }

  /** Splitting off the last line: what `LinesExpand` and `Declares` say of the whole list. */
  lemma LastLine(lines: seq<Line>, target: Target)
    requires lines != []
    ensures var init, last := lines[..|lines| - 1], lines[|lines| - 1];
      && (LinesExpand(lines, target) <==>
            LinesExpand(init, target) && (last.Decl? ==> ExpandTokens(last.tokens, target).Ok?))
      && forall key :: Declares(lines, key) <==> Declares(init, key) || (last.Decl? && Key(last.name) == key)
  {
    var init, last := lines[..|lines| - 1], lines[|lines| - 1];
    assert forall i :: 0 <= i < |init| ==> init[i] == lines[i];
    forall key | Declares(lines, key)
      ensures Declares(init, key) || (last.Decl? && Key(last.name) == key)
    {
      var i :| 0 <= i < |lines| && lines[i].Decl? && Key(lines[i].name) == key;
      if i < |init| {
        assert init[i] == lines[i];
      }
    }
  }

  /**
   * The parse succeeds exactly when every matched line expands; the table then
   * has an entry for exactly the keys some line declares, and the entry of a key
   * is the concatenation of the days of all its lines: later lines add to earlier
   * ones rather than replacing them.
   */
  lemma {:induction false} BlockedMergesLines(lines: seq<Line>, target: Target)
    ensures Blocked(lines, target).Ok? <==> LinesExpand(lines, target)
    ensures Blocked(lines, target).Ok? ==> forall key ::
      && (key in Blocked(lines, target).value <==> Declares(lines, key))
      && (key in Blocked(lines, target).value ==> Blocked(lines, target).value[key] == DatesFor(lines, key, target))
  {
    if lines != [] {
      var init, last := lines[..|lines| - 1], lines[|lines| - 1];
      BlockedMergesLines(init, target);
      LastLine(lines, target);
      if Blocked(lines, target).Ok? {
        var m, m0 := Blocked(lines, target).value, Blocked(init, target).value;
        forall key
          ensures key in m <==> Declares(lines, key)
          ensures key in m ==> m[key] == DatesFor(lines, key, target)
        {
          assert DatesFor(lines, key, target) == DatesFor(init, key, target)
            + if last.Decl? && Key(last.name) == key then ExpandTokens(last.tokens, target).value else [];
          if !Declares(init, key) {
            DatesForUndeclared(init, key, target);
          }
          if last.Decl? {
            assert m == Merge(m0, Key(last.name), ExpandTokens(last.tokens, target).value);
          } else {
            assert m == m0;
          }
        }
      }
    }
  }

  /** Line `line` declares `key` and has a token standing for `d`. */
  predicate LineBlocks(line: Line, key: string, d: Day, target: Target) {
    && line.Decl? && Key(line.name) == key
    && ExpandTokens(line.tokens, target).Ok? && d in ExpandTokens(line.tokens, target).value
  }

  /** The days listed for `key` are those of the lines before the last, then those of the last line. */
  lemma DatesForLast(lines: seq<Line>, key: string, target: Target)
    requires lines != [] && LinesExpand(lines, target)
    ensures var init, last := lines[..|lines| - 1], lines[|lines| - 1];
      && LinesExpand(init, target)
      && (last.Decl? ==> ExpandTokens(last.tokens, target).Ok?)
      && DatesFor(lines, key, target) == DatesFor(init, key, target)
        + if last.Decl? && Key(last.name) == key then ExpandTokens(last.tokens, target).value else []
  {
    InitExpands(lines, target);
  }

  /** A day listed for `key` comes from a line for `key` with a token standing for it. */
  lemma {:induction false} DatesForSource(lines: seq<Line>, key: string, target: Target, d: Day) returns (i: nat)
    requires LinesExpand(lines, target) && d in DatesFor(lines, key, target)
    ensures i < |lines| && LineBlocks(lines[i], key, d, target)
  {
    var init, last := lines[..|lines| - 1], lines[|lines| - 1];
    DatesForLast(lines, key, target);
    if d in DatesFor(init, key, target) {
      i := DatesForSource(init, key, target, d);
      assert init[i] == lines[i];
    } else {
      i := |lines| - 1;
    }
  }

  /** A line for `key` with a token standing for a day puts that day in the list for `key`. */
  lemma {:induction false} DatesForListed(lines: seq<Line>, key: string, target: Target, d: Day, i: nat)
    requires LinesExpand(lines, target) && i < |lines| && LineBlocks(lines[i], key, d, target)
    ensures d in DatesFor(lines, key, target)
  {
    var init, last := lines[..|lines| - 1], lines[|lines| - 1];
    DatesForLast(lines, key, target);
    if i < |init| {
      assert init[i] == lines[i];
      DatesForListed(init, key, target, d, i);
    } else {
      assert i == |lines| - 1;
      assert LineBlocks(last, key, d, target);
    }
  }

  /** A day is listed for `key` exactly when some line for `key` has a token standing for that day. */
  lemma DatesForMembers(lines: seq<Line>, key: string, target: Target, d: Day)
    requires LinesExpand(lines, target)
    ensures d in DatesFor(lines, key, target) <==> exists i :: 0 <= i < |lines| && LineBlocks(lines[i], key, d, target)
  {
    if d in DatesFor(lines, key, target) {
      var i := DatesForSource(lines, key, target, d);
    }
    if exists i :: 0 <= i < |lines| && LineBlocks(lines[i], key, d, target) {
      var i :| 0 <= i < |lines| && LineBlocks(lines[i], key, d, target);
      DatesForListed(lines, key, target, d, i);
    }
  }

  /**
   * Looking a roster name up in a parsed table: the name is blocked on `d` exactly
   * when some line whose name part normalises to the lower-cased roster name has a
   * token standing for `d`. In particular a name with no line is never blocked,
   * and the lookup ignores the case of the roster name.
   */
  lemma LookupAfterParse(lines: seq<Line>, target: Target, name: string, d: Day)
    requires Blocked(lines, target).Ok?
    ensures IsBlocked(Blocked(lines, target).value, name, d) <==>
      exists i :: 0 <= i < |lines| && LineBlocks(lines[i], ToLower(name), d, target)
  {
    BlockedMergesLines(lines, target);
    var key := ToLower(name);
    DatesForMembers(lines, key, target, d);
    if exists i :: 0 <= i < |lines| && LineBlocks(lines[i], key, d, target) {
      var i :| 0 <= i < |lines| && LineBlocks(lines[i], key, d, target);
      assert Declares(lines, key);
    }
  }
}
