/** `generate_result` (cc_performance.py:38-71): the per-agent, per-date
    call summary built from a call log. */
module Report {
  import opened Wrappers
  import Sorting
  import Distinct
  import Rounding
  import Dates
  import opened Calls

  /** Why no report is produced. Either error aborts the whole report. */
  datatype Error =
    | BadTimestamp(cause: Dates.DateError)  // `to_datetime` rejects a date prefix
    | DivisionByZero                        // an average over an empty group

  /** An agent-leg row after projection and date normalisation
      (cc_performance.py:41-44). */
  datatype Entry = Entry(agent: string, date: Dates.Date, dur: nat)

  /** The four columns a date contributes to an agent's row, in column order:
      `# Calls Attempted`, `Avg Call Duration(s)`, `# CR`, `Avg CR Duration(s)`. */
  datatype Metrics = Metrics(calls: nat, avgDur: nat, cr: nat, avgCrDur: nat)

  /** One output row: the `Agent ID` and, per date, its four metrics. */
  datatype Row = Row(agent: string, cells: map<Dates.Date, Metrics>)

  /** The report: its dates in column order, and its rows. */
  datatype Table = Table(dates: seq<Dates.Date>, rows: seq<Row>)

  function AgentOf(row: Row): string {
    row.agent
  }

  /** One agent-leg row reduced to agent, date key and duration
      (cc_performance.py:41-44). */
  function Project(r: CallRecord): Result<Entry, Error> {
    var key := Dates.DateKey(r.start);
    if key.Failure? then Failure(BadTimestamp(key.error)) else Success(Entry(r.agent, key.value, r.dur))
  }

  /** A projection keeps the agent and the duration, and its date is the key
      date whose `%Y/%m/%d` text starts the timestamp; a failure names the
      timestamp's first ten characters. */
  lemma ProjectMeaning(r: CallRecord)
    ensures Project(r).Success? ==> Project(r).value.agent == r.agent && Project(r).value.dur == r.dur
    ensures Project(r).Success? ==>
      Dates.IsKeyDate(Project(r).value.date) && Dates.FormatPrefix(Project(r).value.date) == Dates.PrefixOf(r.start)
    ensures Project(r).Failure? ==>
      Project(r).error.BadTimestamp? && Project(r).error.cause.prefix == Dates.PrefixOf(r.start)
  {
    Dates.DateKeyMeaning(r.start);
  }

  /** A row whose timestamp starts with the text of a key date projects
      to that date, with its agent and duration. */
  lemma ProjectFormatted(r: CallRecord, d: Dates.Date)
    requires Dates.IsKeyDate(d) && Dates.FormatPrefix(d) == Dates.PrefixOf(r.start)
    ensures Project(r) == Success(Entry(r.agent, d, r.dur))
  {
    Dates.DateKeyOfFormatted(r.start, d);
  }

  /** Projects every row; the first row whose prefix does not parse aborts
      the whole column conversion (cc_performance.py:42-44). */
  function Normalize(legs: seq<CallRecord>): (r: Result<seq<Entry>, Error>)
    ensures r.Success? ==> |r.value| == |legs|
    ensures r.Success? ==> forall i :: 0 <= i < |legs| ==> Project(legs[i]) == Success(r.value[i])
    ensures r.Failure? ==> exists i :: 0 <= i < |legs| && Project(legs[i]) == Failure(r.error)
    decreases |legs|
  {
    if |legs| == 0 then Success([])
    else
      var first := Project(legs[0]);
      if first.Failure? then Failure(first.error)
      else
        var rest := Normalize(legs[1..]);
        assert forall i :: 1 <= i < |legs| ==> legs[i] == legs[1..][i - 1];
        if rest.Failure? then
          var j :| 0 <= j < |legs[1..]| && Project(legs[1..][j]) == Failure(rest.error);
          assert Project(legs[j + 1]) == Failure(rest.error);
          rest
        else
          var out := [first.value] + rest.value;
          assert forall i :: 1 <= i < |legs| ==> out[i] == rest.value[i - 1];
          Success(out)
  }

  function AgentsOf(es: seq<Entry>): (agents: seq<string>)
    ensures |agents| == |es| && forall i :: 0 <= i < |es| ==> agents[i] == es[i].agent
  {
    seq(|es|, i requires 0 <= i < |es| => es[i].agent)
  }

  function DatesOf(es: seq<Entry>): (dates: seq<Dates.Date>)
    ensures |dates| == |es| && forall i :: 0 <= i < |es| ==> dates[i] == es[i].date
  {
    seq(|es|, i requires 0 <= i < |es| => es[i].date)
  }

  /** Totals of the entries of one agent on one date (cc_performance.py:49-57):
      no more calls than entries, no more connected calls than calls, and
      at least 60 seconds for each connected call. */
  function EntryTally(es: seq<Entry>, agent: string, date: Dates.Date): (t: Tally)
    ensures t.calls <= |es|
    ensures t.cr <= t.calls && t.crTotal <= t.total
    ensures 60 * t.cr <= t.crTotal
    decreases |es|
  {
    if |es| == 0 then NoCalls
    else
      var rest := EntryTally(es[1..], agent, date);
      if es[0].agent == agent && es[0].date == date then TallyOf(es[0].dur).Plus(rest) else rest
  }

  /** The four metrics of a group with at least one connected call
      (cc_performance.py:56-64): the averages are Python's `round` of the
      exact quotients. */
  function MetricsOf(t: Tally): (m: Metrics)
    requires t.calls > 0 && t.cr > 0
    ensures m.calls == t.calls && m.cr == t.cr
    ensures Rounding.IsRoundHalfEven(t.total, t.calls, m.avgDur)
    ensures Rounding.IsRoundHalfEven(t.crTotal, t.cr, m.avgCrDur)
  {
    Metrics(t.calls, Rounding.RoundHalfEven(t.total, t.calls), t.cr, Rounding.RoundHalfEven(t.crTotal, t.cr))
  }

  /** One (agent, date) cell; an empty group or one without connected calls
      divides by zero (cc_performance.py:59-60). */
  function Cell(es: seq<Entry>, agent: string, date: Dates.Date): (r: Result<Metrics, Error>)
    ensures r.Success? <==> EntryTally(es, agent, date).calls > 0 && EntryTally(es, agent, date).cr > 0
    ensures r.Failure? ==> r.error == DivisionByZero
  {
    var t := EntryTally(es, agent, date);
    if t.calls == 0 then Failure(DivisionByZero)
    else if t.cr == 0 then Failure(DivisionByZero)
    else Success(MetricsOf(t))
  }

  /** The cells of one agent for every date. */
  function BuildCells(es: seq<Entry>, agent: string, dates: seq<Dates.Date>): (r: Result<map<Dates.Date, Metrics>, Error>)
    ensures r.Success? ==> forall d :: d in r.value <==> d in dates
    ensures r.Success? ==> forall d :: d in r.value ==> Cell(es, agent, d) == Success(r.value[d])
    ensures r.Failure? ==> r.error == DivisionByZero
    decreases |dates|
  {
    if |dates| == 0 then Success(map[])
    else
      var cell := Cell(es, agent, dates[0]);
      var rest := BuildCells(es, agent, dates[1..]);
      assert forall j :: 1 <= j < |dates| ==> dates[j] == dates[1..][j - 1];
      if cell.Failure? then Failure(cell.error)
      else if rest.Failure? then Failure(rest.error)
      else
        var cells := rest.value[dates[0] := cell.value];
        assert forall d :: d in cells ==> d == dates[0] || d in rest.value;
        Success(cells)
  }

  /** One row per agent, in the order of `agents` (cc_performance.py:47-69). */
  function BuildRows(es: seq<Entry>, agents: seq<string>, dates: seq<Dates.Date>): (r: Result<seq<Row>, Error>)
    ensures r.Success? ==> |r.value| == |agents|
    ensures r.Success? ==> forall i :: 0 <= i < |agents| ==> r.value[i].agent == agents[i]
    ensures r.Success? ==> forall i :: 0 <= i < |agents| ==> BuildCells(es, agents[i], dates) == Success(r.value[i].cells)
    ensures r.Failure? ==> r.error == DivisionByZero
    decreases |agents|
  {
    if |agents| == 0 then Success([])
    else
      var cells := BuildCells(es, agents[0], dates);
      var rest := BuildRows(es, agents[1..], dates);
      if cells.Failure? then Failure(cells.error)
      else if rest.Failure? then Failure(rest.error)
      else
        var out := [Row(agents[0], cells.value)] + rest.value;
        assert forall i :: 1 <= i < |agents| ==> agents[i] == agents[1..][i - 1] && out[i] == rest.value[i - 1];
        Success(out)
  }

  /** An agent's cells exist exactly when the cell of every date does. */
  lemma {:induction false} CellsExistIff(es: seq<Entry>, agent: string, dates: seq<Dates.Date>)
    ensures BuildCells(es, agent, dates).Success? <==>
      forall j :: 0 <= j < |dates| ==> Cell(es, agent, dates[j]).Success?
    decreases |dates|
  {
    if |dates| > 0 {
      var tail := dates[1..];
      CellsExistIff(es, agent, tail);
      if BuildCells(es, agent, tail).Failure? {
        var j :| 0 <= j < |tail| && Cell(es, agent, tail[j]).Failure?;
        assert tail[j] == dates[j + 1];
      } else if Cell(es, agent, dates[0]).Success? {
        forall j | 0 <= j < |dates|
          ensures Cell(es, agent, dates[j]).Success?
        {
          if j > 0 {
            assert dates[j] == tail[j - 1];
          }
        }
      }
    }
  }

  /** The rows exist exactly when every cell does. */
  lemma {:induction false} RowsExistIff(es: seq<Entry>, agents: seq<string>, dates: seq<Dates.Date>)
    ensures BuildRows(es, agents, dates).Success? <==>
      forall i, j :: 0 <= i < |agents| && 0 <= j < |dates| ==> Cell(es, agents[i], dates[j]).Success?
    decreases |agents|
  {
    if |agents| > 0 {
      var tail := agents[1..];
      RowsExistIff(es, tail, dates);
      var cells := BuildCells(es, agents[0], dates);
      var rest := BuildRows(es, tail, dates);
      CellsExistIff(es, agents[0], dates);
      if cells.Failure? {
        var j :| 0 <= j < |dates| && Cell(es, agents[0], dates[j]).Failure?;
      } else if rest.Failure? {
        var i, j :| 0 <= i < |tail| && 0 <= j < |dates| && Cell(es, tail[i], dates[j]).Failure?;
        assert tail[i] == agents[i + 1];
      } else {
        forall i, j | 0 <= i < |agents| && 0 <= j < |dates|
          ensures Cell(es, agents[i], dates[j]).Success?
        {
          if i > 0 {
            assert agents[i] == tail[i - 1];
          }
        }
      }
    }
  }

  /** `result.sort_values('Agent ID')` (cc_performance.py:70). */
  function SortRows(rows: seq<Row>): (sorted: seq<Row>)
    ensures multiset(sorted) == multiset(rows)
    ensures Sorting.Sorted(AgentOf, sorted)
  {
    Sorting.Sort(AgentOf, rows)
  }

  /** `generate_result(df)`: on success the dates have no repeats and the
      rows are in `Agent ID` order. */
  function GenerateResult(rs: seq<CallRecord>): (r: Result<Table, Error>)
    ensures r.Success? ==> Distinct.NoDuplicates(r.value.dates)
    ensures r.Success? ==> Sorting.Sorted(AgentOf, r.value.rows)
  {
    var legs := AgentLegs(SortByStart(rs));
    var es :- Normalize(legs);
    var agents := Distinct.Unique(AgentsOf(es));
    var dates := Distinct.Unique(DatesOf(es));
    var rows :- BuildRows(es, agents, dates);
    Success(Table(dates, SortRows(rows)))
  }
}
