/**
 * The blocked-date parser and the blocked-date lookup.
 *
 * Each line of the free text "Name: 3, 6, 20-22" declares days on which a
 * person cannot take duty. A line is read as a name part and a list of date
 * tokens; each token is classified (a range, a d/M/yy date, a bare day number)
 * and expanded to calendar days; the days of all lines whose names normalise
 * to the same key are concatenated under that key.
 */
module BlockedDates {
  import opened Wrappers
  import opened Calendar
  import opened Names

  /** A line of blocked-date text, after the line pattern has been applied to it. */
  datatype Line =
    | Unmatched                                   // the pattern did not match: the line is skipped
    | Decl(name: string, tokens: seq<string>)     // the name part and the date tokens

  /**
   * The target month and the two date-library parses a token may go through.
   * `parseDayMonth` reads a range end point (appended with the target year) in
   * the 'd MMM yyyy' format against the target month; `parseShortDate` reads a
   * token in the 'd/M/yy' format. Either answers None for an invalid date.
   */
  datatype Target = Target(
    year: int,
    month: Month,
    parseDayMonth: string -> Option<Day>,
    parseShortDate: string -> Option<Day>)

  /** Formatting an invalid date aborts the whole parse. */
  datatype ParseError = InvalidDate(token: string)

  /** Which branch a token takes. */
  datatype TokenKind = DayRange | ShortDate | SingleDay | NoDate

  /** The person key → blocked days table the scheduler consults. */
  type BlockedTable = map<string, seq<Day>>

  predicate IsDash(c: char) {
    c == '-' || c == '–'
  }

  predicate IsDigit(c: char) {
    '0' <= c <= '9'
  }

  predicate HasDash(t: string) {
    exists i :: 0 <= i < |t| && IsDash(t[i])
  }

  predicate HasDigit(t: string) {
    exists i :: 0 <= i < |t| && IsDigit(t[i])
  }

  predicate AllDigits(t: string) {
    forall i :: 0 <= i < |t| ==> IsDigit(t[i])
  }

  /** `n` digits stand at position `i` of `t`. */
  predicate DigitsAt(t: string, i: nat, n: nat) {
    i + n <= |t| && forall k :: i <= k < i + n ==> IsDigit(t[k])
  }

  /** `a` digits, a slash, `b` digits, a slash and two digits stand at position `i`. */
  predicate ShortDateShapeAt(t: string, i: nat, a: nat, b: nat) {
    && DigitsAt(t, i, a)
    && i + a < |t| && t[i + a] == '/'
    && DigitsAt(t, i + a + 1, b)
    && i + a + 1 + b < |t| && t[i + a + 1 + b] == '/'
    && DigitsAt(t, i + a + b + 2, 2)
  }

  /** The unanchored pattern `\d{1,2}\/\d{1,2}\/\d{2,4}` matches at position `i`. */
  predicate ShortDateAt(t: string, i: nat) {
    ShortDateShapeAt(t, i, 1, 1) || ShortDateShapeAt(t, i, 1, 2)
    || ShortDateShapeAt(t, i, 2, 1) || ShortDateShapeAt(t, i, 2, 2)
  }

  predicate HasShortDate(t: string) {
    exists i: nat :: i < |t| && ShortDateAt(t, i)
  }

  lemma ShortDateHasDigit(t: string)
    requires HasShortDate(t)
    ensures HasDigit(t)
  {
    var i: nat :| i < |t| && ShortDateAt(t, i);
    assert IsDigit(t[i]);
  }

  /**
   * The branch a token takes: a dash first (even in a token that also holds a
   * d/M/yy date), then a d/M/yy date, then any digit. A token is ignored
   * exactly when it holds neither a dash nor a digit.
   */
  function Classify(t: string): (k: TokenKind)
    ensures HasDash(t) ==> k == DayRange
    ensures !HasDash(t) && HasShortDate(t) ==> k == ShortDate
    ensures !HasDash(t) && !HasShortDate(t) && HasDigit(t) ==> k == SingleDay
    ensures k == NoDate <==> !HasDash(t) && !HasDigit(t)
  {
    if HasDash(t) then DayRange
    else if HasShortDate(t) then (ShortDateHasDigit(t); ShortDate)
    else if HasDigit(t) then SingleDay
    else NoDate
  }

  /** First and second piece of a token split at its dashes, trimmed. */
  function RangeStart(t: string): string {
    Trim(Before(t, IsDash))
  }

  function RangeEnd(t: string): string {
    Trim(Before(After(t, IsDash), IsDash))
  }

  /** The decimal value of a string of digits. */
  function DecimalValue(t: string): (n: nat)
    requires AllDigits(t)
  {
    if t == [] then 0
    else DecimalValue(t[..|t| - 1]) * 10 + (t[|t| - 1] as int - '0' as int)
  }

  /** Every day from `first` to `last` inclusive, in order; nothing when `first > last`. */
  function DaySpan(first: Day, last: Day): seq<Day>
    decreases last - first
  {
    if last < first then [] else DaySpan(first, last - 1) + [last]
  }

  /**
   * The days one token stands for. Only a d/M/yy date or a bare day number can
   * fail, with the token as the invalid date; a range never aborts the parse.
   */
  function ExpandToken(t: string, target: Target): (r: Result<seq<Day>, ParseError>)
    ensures r.Err? ==> r.error == InvalidDate(t) && (Classify(t) == ShortDate || Classify(t) == SingleDay)
  {
    match Classify(t)
    case DayRange =>
      var start := target.parseDayMonth(RangeStart(t));
      var end := target.parseDayMonth(RangeEnd(t));
      if start.Some? && end.Some? then Ok(DaySpan(start.value, end.value)) else Ok([])
    case ShortDate =>
      var parsed := target.parseShortDate(t);
      if parsed.Some? then Ok([parsed.value]) else Err(InvalidDate(t))
    case SingleDay =>
      if AllDigits(t) then Ok([DayOf(target.year, target.month, DecimalValue(t))])
      else Err(InvalidDate(t))
    case NoDate =>
      Ok([])
  }

  /** The days of a line's tokens, concatenated in token order; the first invalid token fails. */
  function ExpandTokens(ts: seq<string>, target: Target): Result<seq<Day>, ParseError> {
    if ts == [] then Ok([])
    else match ExpandTokens(ts[..|ts| - 1], target)
      case Err(e) => Err(e)
      case Ok(ds) =>
        match ExpandToken(ts[|ts| - 1], target)
        case Err(e) => Err(e)
        case Ok(more) => Ok(ds + more)
  }

  /** Adds `days` to the list of `key`, after whatever earlier lines put there. */
  function Merge(table: BlockedTable, key: string, days: seq<Day>): BlockedTable {
    table[key := (if key in table then table[key] else []) + days]
  }

  /** The table built from all lines, in line order; the first invalid token fails. */
  function Blocked(lines: seq<Line>, target: Target): Result<BlockedTable, ParseError> {
    if lines == [] then Ok(map[])
    else match Blocked(lines[..|lines| - 1], target)
      case Err(e) => Err(e)
      case Ok(table) =>
        match lines[|lines| - 1]
        case Unmatched => Ok(table)
        case Decl(name, tokens) =>
          match ExpandTokens(tokens, target)
          case Err(e) => Err(e)
          case Ok(days) => Ok(Merge(table, Key(name), days))
  }

  /** Whether `name` is blocked on `date`: the lookup lower-cases the name and finds nothing for a missing key. */
  function IsBlocked(table: BlockedTable, name: string, date: Day): (r: bool)
    ensures ToLower(name) !in table ==> !r
  {
    var key := ToLower(name);
    key in table && date in table[key]
  }

  // ---------------------------------------------------------------------------
  // The parser, as the loops that build the table
  // ---------------------------------------------------------------------------

  /** Appends every day from `start` to `end` inclusive, advancing one day at a time. */
  method AppendSpan(expanded: seq<Day>, start: Day, end: Day) returns (r: seq<Day>)
    ensures r == expanded + DaySpan(start, end)
  {
    r := expanded;
    var d := start;
    while d <= end
      invariant start <= d && (d <= end + 1 || d == start)
      invariant r == expanded + DaySpan(start, d - 1)
      decreases end - d
    {
      r := r + [d];
      d := d + 1;
    }
  }

  /** Expands the tokens of one line in order; fails at the first token that yields an invalid date. */
  method ExpandLine(tokens: seq<string>, target: Target) returns (r: Result<seq<Day>, ParseError>)
    ensures r == ExpandTokens(tokens, target)
  {
    var expanded: seq<Day> := [];
    for ti := 0 to |tokens|
      invariant ExpandTokens(tokens[..ti], target) == Ok(expanded)
    {
      assert tokens[..ti + 1][..ti] == tokens[..ti];
      var t := tokens[ti];
      var kind := Classify(t);
      ghost var before := expanded;
      if kind == DayRange {
        var start := target.parseDayMonth(RangeStart(t));
        var end := target.parseDayMonth(RangeEnd(t));
        if start.Some? && end.Some? {
          expanded := AppendSpan(expanded, start.value, end.value);
          assert expanded[|before|..] == DaySpan(start.value, end.value);
        } else {
          assert expanded[|before|..] == [];
        }
      } else if kind == ShortDate {
        var parsed := target.parseShortDate(t);
        if parsed.None? {
          TokenErrorPersists(tokens, ti + 1, target);
          return Err(InvalidDate(t));
        }
        expanded := expanded + [parsed.value];
      } else if kind == SingleDay {
        if !AllDigits(t) {
          TokenErrorPersists(tokens, ti + 1, target);
          return Err(InvalidDate(t));
        }
        expanded := expanded + [DayOf(target.year, target.month, DecimalValue(t))];
      } else {
        assert expanded[|before|..] == [];
      }
      assert ExpandToken(t, target) == Ok(expanded[|before|..]);
      assert expanded == before + expanded[|before|..];
    }
    assert tokens[..|tokens|] == tokens;
    r := Ok(expanded);
  }

  /** Builds the blocked-date table line by line; fails as soon as a token yields an invalid date. */
  method ParseBlockedDates(lines: seq<Line>, target: Target) returns (r: Result<BlockedTable, ParseError>)
    ensures r == Blocked(lines, target)
  {
    var result: BlockedTable := map[];
    for li := 0 to |lines|
      invariant Blocked(lines[..li], target) == Ok(result)
    {
      assert lines[..li + 1][..li] == lines[..li];
      match lines[li]
      case Unmatched =>
      case Decl(name, tokens) =>
        var key := Key(name);
        var expanded := ExpandLine(tokens, target);
        if expanded.Err? {
          LineErrorPersists(lines, li + 1, target);
          return Err(expanded.error);
        }
        result := Merge(result, key, expanded.value);
    }
    assert lines[..|lines|] == lines;
    r := Ok(result);
  }

  /** Once a prefix of the tokens fails, the whole list fails with the same error. */
  lemma {:induction false} TokenErrorPersists(ts: seq<string>, n: nat, target: Target)
    requires n <= |ts| && ExpandTokens(ts[..n], target).Err?
    ensures ExpandTokens(ts, target) == ExpandTokens(ts[..n], target)
    decreases |ts|
  {
    if n < |ts| {
      var init := ts[..|ts| - 1];
      assert init[..n] == ts[..n];
      TokenErrorPersists(init, n, target);
    } else {
      assert ts[..n] == ts;
    }
  }

  /** Once a prefix of the lines fails, the whole text fails with the same error. */
  lemma {:induction false} LineErrorPersists(lines: seq<Line>, n: nat, target: Target)
    requires n <= |lines| && Blocked(lines[..n], target).Err?
    ensures Blocked(lines, target) == Blocked(lines[..n], target)
    decreases |lines|
  {
    if n < |lines| {
      var init := lines[..|lines| - 1];
      assert init[..n] == lines[..n];
      LineErrorPersists(init, n, target);
    } else {
      assert lines[..n] == lines;
    }
  }
}
