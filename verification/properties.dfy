/** What `generate_result` promises about its output, stated against the
    input rows directly (cc_performance.py:38-71). */
module ReportProperties {
  import opened Wrappers
  import Lex
  import Sorting
  import Distinct
  import Rounding
  import Dates
  import opened Calls
  import opened Report
  import Columns

  /** The agent-leg rows after the timestamp sort: what the report groups. */
  function Legs(rs: seq<CallRecord>): seq<CallRecord> {
    AgentLegs(SortByStart(rs))
  }

  /** Usernames of the agent-leg rows. */
  function AgentSet(rs: seq<CallRecord>): set<string> {
    set r | r in rs && IsAgentLeg(r) :: r.agent
  }

  /** Date keys of the agent-leg rows whose prefix parses. */
  function DateSet(rs: seq<CallRecord>): set<Dates.Date> {
    set r | r in rs && IsAgentLeg(r) && Dates.DateKey(r.start).Success? :: Dates.DateKey(r.start).value
  }

  /** Every agent-leg row has a date key. */
  predicate AllKeysParse(rs: seq<CallRecord>) {
    forall r :: r in rs && IsAgentLeg(r) ==> Dates.DateKey(r.start).Success?
  }

  /** The report's rows are the input's agent-leg rows, reordered. */
  lemma LegsMembers(rs: seq<CallRecord>, r: CallRecord)
    ensures r in Legs(rs) <==> r in rs && IsAgentLeg(r)
  {
    var sorted := SortByStart(rs);
    assert r in sorted <==> r in multiset(sorted);
    assert r in rs <==> r in multiset(rs);
  }

  /** Entry-level group totals equal the totals of the rows they came from. */
  lemma {:induction false} EntryTallyOfProjection(legs: seq<CallRecord>, es: seq<Entry>, agent: string, date: Dates.Date)
    requires |es| == |legs|
    requires forall i :: 0 <= i < |legs| ==> IsAgentLeg(legs[i]) && Project(legs[i]) == Success(es[i])
    ensures EntryTally(es, agent, date) == GroupTally(legs, agent, date)
    decreases |legs|
  {
    if |legs| > 0 {
      assert forall i :: 1 <= i < |legs| ==> legs[1..][i - 1] == legs[i] && es[1..][i - 1] == es[i];
      EntryTallyOfProjection(legs[1..], es[1..], agent, date);
      assert InGroup(legs[0], agent, date) <==> es[0].agent == agent && es[0].date == date;
    }
  }

  /** The totals the report computes for (agent, date) are the totals of the
      agent-leg rows of that agent on that date, in whatever order they come. */
  lemma ReportTallyIsGroupTally(rs: seq<CallRecord>, es: seq<Entry>, agent: string, date: Dates.Date)
    requires Normalize(Legs(rs)) == Success(es)
    ensures EntryTally(es, agent, date) == GroupTally(rs, agent, date)
  {
    var sorted := SortByStart(rs);
    EntryTallyOfProjection(Legs(rs), es, agent, date);
    GroupTallyAgentLegs(sorted, agent, date);
    GroupTallyPermutation(sorted, rs, agent, date);
  }

  /** Date normalisation succeeds exactly when every agent-leg row has a
      date key; rows of other legs are never parsed. */
  lemma NormalizeSucceedsIff(rs: seq<CallRecord>)
    ensures Normalize(Legs(rs)).Success? <==> AllKeysParse(rs)
  {
    var legs := Legs(rs);
    if AllKeysParse(rs) {
      forall i | 0 <= i < |legs|
        ensures Project(legs[i]).Success?
      {
        LegsMembers(rs, legs[i]);
      }
    } else {
      var r :| r in rs && IsAgentLeg(r) && Dates.DateKey(r.start).Failure?;
      LegsMembers(rs, r);
      var i :| 0 <= i < |legs| && legs[i] == r;
      assert Project(legs[i]).Failure?;
    }
  }

  /** Entry i of the normalised table is agent-leg row i with its date key. */
  lemma EntryOfLeg(rs: seq<CallRecord>, es: seq<Entry>, i: nat)
    requires Normalize(Legs(rs)) == Success(es)
    requires i < |es|
    ensures |es| == |Legs(rs)|
    ensures Legs(rs)[i] in rs && IsAgentLeg(Legs(rs)[i])
    ensures Dates.DateKey(Legs(rs)[i].start).Success?
    ensures es[i] == Entry(Legs(rs)[i].agent, Dates.DateKey(Legs(rs)[i].start).value, Legs(rs)[i].dur)
  {
    LegsMembers(rs, Legs(rs)[i]);
  }

  /** Every agent-leg row of the input has an entry in the normalised table. */
  lemma LegOfRow(rs: seq<CallRecord>, es: seq<Entry>, r: CallRecord) returns (i: nat)
    requires Normalize(Legs(rs)) == Success(es)
    requires r in rs && IsAgentLeg(r)
    ensures i < |es| && Legs(rs)[i] == r
  {
    LegsMembers(rs, r);
    i :| 0 <= i < |Legs(rs)| && Legs(rs)[i] == r;
  }

  /** The agents the report finds are the usernames of the agent-leg rows. */
  lemma EntryAgents(rs: seq<CallRecord>, es: seq<Entry>)
    requires Normalize(Legs(rs)) == Success(es)
    ensures forall a :: a in AgentsOf(es) <==> a in AgentSet(rs)
  {
    forall a | a in AgentsOf(es)
      ensures a in AgentSet(rs)
    {
      var i :| 0 <= i < |es| && AgentsOf(es)[i] == a;
      EntryOfLeg(rs, es, i);
      var r := Legs(rs)[i];
      assert r in rs && IsAgentLeg(r) && r.agent == a;
    }
    forall a | a in AgentSet(rs)
      ensures a in AgentsOf(es)
    {
      var r :| r in rs && IsAgentLeg(r) && r.agent == a;
      var i := LegOfRow(rs, es, r);
      EntryOfLeg(rs, es, i);
      assert AgentsOf(es)[i] == a;
    }
  }

  /** The dates the report finds are the date keys of the agent-leg rows. */
  lemma EntryDates(rs: seq<CallRecord>, es: seq<Entry>)
    requires Normalize(Legs(rs)) == Success(es)
    ensures forall d :: d in DatesOf(es) <==> d in DateSet(rs)
  {
    forall d | d in DatesOf(es)
      ensures d in DateSet(rs)
    {
      var i :| 0 <= i < |es| && DatesOf(es)[i] == d;
      EntryOfLeg(rs, es, i);
      var r := Legs(rs)[i];
      assert r in rs && IsAgentLeg(r) && Dates.DateKey(r.start).Success?;
    }
    forall d | d in DateSet(rs)
      ensures d in DatesOf(es)
    {
      var r :| r in rs && IsAgentLeg(r) && Dates.DateKey(r.start).Success? && Dates.DateKey(r.start).value == d;
      var i := LegOfRow(rs, es, r);
      EntryOfLeg(rs, es, i);
      assert DatesOf(es)[i] == d;
    }
  }

  /** Every agent has at least one connected call on every date of the
      report: the condition under which no average divides by zero. */
  predicate EveryGroupConnected(rs: seq<CallRecord>) {
    forall a, d :: a in AgentSet(rs) && d in DateSet(rs) ==> GroupTally(rs, a, d).cr > 0
  }

  /** A cell of the report exists exactly when its group has a connected call. */
  lemma CellSucceedsIff(rs: seq<CallRecord>, es: seq<Entry>, agent: string, date: Dates.Date)
    requires Normalize(Legs(rs)) == Success(es)
    ensures Cell(es, agent, date).Success? <==> GroupTally(rs, agent, date).cr > 0
    ensures Cell(es, agent, date).Success? ==> Cell(es, agent, date).value == MetricsOf(GroupTally(rs, agent, date))
  {
    ReportTallyIsGroupTally(rs, es, agent, date);
  }

  /** The report's agents, as a set, are the usernames of the agent legs. */
  lemma ReportAgents(rs: seq<CallRecord>, es: seq<Entry>)
    requires Normalize(Legs(rs)) == Success(es)
    ensures forall a :: a in Distinct.Unique(AgentsOf(es)) <==> a in AgentSet(rs)
  {
    EntryAgents(rs, es);
    var u := Distinct.Unique(AgentsOf(es));
    forall a ensures a in u <==> a in AgentsOf(es) {
      if a in AgentsOf(es) {
        var i :| 0 <= i < |AgentsOf(es)| && AgentsOf(es)[i] == a;
      }
    }
  }

  /** The report's dates, as a set, are the date keys of the agent legs. */
  lemma ReportDates(rs: seq<CallRecord>, es: seq<Entry>)
    requires Normalize(Legs(rs)) == Success(es)
    ensures forall d :: d in Distinct.Unique(DatesOf(es)) <==> d in DateSet(rs)
  {
    EntryDates(rs, es);
    var u := Distinct.Unique(DatesOf(es));
    forall d ensures d in u <==> d in DatesOf(es) {
      if d in DatesOf(es) {
        var i :| 0 <= i < |DatesOf(es)| && DatesOf(es)[i] == d;
      }
    }
  }

  /** With every group connected, every cell of the report exists. */
  lemma AllCellsSucceed(rs: seq<CallRecord>, es: seq<Entry>)
    requires Normalize(Legs(rs)) == Success(es)
    requires EveryGroupConnected(rs)
    ensures BuildRows(es, Distinct.Unique(AgentsOf(es)), Distinct.Unique(DatesOf(es))).Success?
  {
    var agents, dates := Distinct.Unique(AgentsOf(es)), Distinct.Unique(DatesOf(es));
    forall i, j | 0 <= i < |agents| && 0 <= j < |dates|
      ensures Cell(es, agents[i], dates[j]).Success?
    {
      CellOk(rs, es, agents[i], dates[j]);
    }
    RowsExistIff(es, agents, dates);
  }

  /** One cell of the report, for an agent and a date the report lists. */
  lemma CellOk(rs: seq<CallRecord>, es: seq<Entry>, agent: string, date: Dates.Date)
    requires Normalize(Legs(rs)) == Success(es)
    requires EveryGroupConnected(rs)
    requires agent in AgentsOf(es) && date in DatesOf(es)
    ensures Cell(es, agent, date).Success?
  {
    EntryAgents(rs, es);
    EntryDates(rs, es);
    CellSucceedsIff(rs, es, agent, date);
  }

  /** A group without a connected call leaves a cell undefined. */
  lemma SomeCellFails(rs: seq<CallRecord>, es: seq<Entry>, a: string, d: Dates.Date)
    requires Normalize(Legs(rs)) == Success(es)
    requires a in AgentSet(rs) && d in DateSet(rs) && GroupTally(rs, a, d).cr == 0
    ensures BuildRows(es, Distinct.Unique(AgentsOf(es)), Distinct.Unique(DatesOf(es))).Failure?
  {
    var agents, dates := Distinct.Unique(AgentsOf(es)), Distinct.Unique(DatesOf(es));
    ReportAgents(rs, es);
    ReportDates(rs, es);
    var i :| 0 <= i < |agents| && agents[i] == a;
    var j :| 0 <= j < |dates| && dates[j] == d;
    CellSucceedsIff(rs, es, a, d);
    RowsExistIff(es, agents, dates);
  }

  /** The per-date loop finishes exactly when every group is connected. */
  lemma BuildRowsSucceedsIff(rs: seq<CallRecord>, es: seq<Entry>)
    requires Normalize(Legs(rs)) == Success(es)
    ensures BuildRows(es, Distinct.Unique(AgentsOf(es)), Distinct.Unique(DatesOf(es))).Success? <==> EveryGroupConnected(rs)
  {
    if EveryGroupConnected(rs) {
      AllCellsSucceed(rs, es);
    } else {
      var a, d :| a in AgentSet(rs) && d in DateSet(rs) && GroupTally(rs, a, d).cr == 0;
      SomeCellFails(rs, es, a, d);
    }
  }

  /** A date prefix that does not parse, on any agent-leg row, aborts the
      report; rows of other legs are never parsed. */
  lemma FailsOnBadTimestampIff(rs: seq<CallRecord>)
    ensures GenerateResult(rs).Failure? && GenerateResult(rs).error.BadTimestamp? <==> !AllKeysParse(rs)
  {
    NormalizeSucceedsIff(rs);
    var n := Normalize(Legs(rs));
    if n.Success? {
      var es := n.value;
      var r := BuildRows(es, Distinct.Unique(AgentsOf(es)), Distinct.Unique(DatesOf(es)));
      assert r.Failure? ==> r.error == DivisionByZero;
    } else {
      assert n.error.BadTimestamp?;
    }
  }

  /** With every date parsing, the report is refused exactly when some
      agent has no connected call on some date of the report. */
  lemma FailsOnDivisionByZeroIff(rs: seq<CallRecord>)
    ensures GenerateResult(rs) == Failure(DivisionByZero) <==> AllKeysParse(rs) && !EveryGroupConnected(rs)
  {
    NormalizeSucceedsIff(rs);
    var n := Normalize(Legs(rs));
    if n.Success? {
      BuildRowsSucceedsIff(rs, n.value);
    } else {
      assert n.error.BadTimestamp?;
    }
  }

  /** The report is produced exactly when every agent-leg date parses and
      every (agent, date) pair has a connected call. */
  lemma SucceedsIff(rs: seq<CallRecord>)
    ensures GenerateResult(rs).Success? <==> AllKeysParse(rs) && EveryGroupConnected(rs)
  {
    FailsOnBadTimestampIff(rs);
    FailsOnDivisionByZeroIff(rs);
  }

  /** A successful report, taken apart into the values its body computes. */
  lemma ResultParts(rs: seq<CallRecord>) returns (es: seq<Entry>, built: seq<Row>)
    requires GenerateResult(rs).Success?
    ensures Normalize(Legs(rs)) == Success(es)
    ensures BuildRows(es, Distinct.Unique(AgentsOf(es)), Distinct.Unique(DatesOf(es))) == Success(built)
    ensures GenerateResult(rs).value == Table(Distinct.Unique(DatesOf(es)), SortRows(built))
  {
    es := Normalize(Legs(rs)).value;
    built := BuildRows(es, Distinct.Unique(AgentsOf(es)), Distinct.Unique(DatesOf(es))).value;
  }

  /** Two dates of the report in column order are in chronological order. */
  lemma DatePairOrder(rs: seq<CallRecord>, es: seq<Entry>, i: nat, j: nat)
    requires Normalize(Legs(rs)) == Success(es)
    requires i < j < |Distinct.Unique(DatesOf(es))|
    ensures Dates.DateLt(Distinct.Unique(DatesOf(es))[i], Distinct.Unique(DatesOf(es))[j])
  {
    var ds := DatesOf(es);
    var u := Distinct.Unique(ds);
    Distinct.UniqueFirstSeenOrder(ds, i, j);
    var p, q := Distinct.FirstIndex(ds, u[i]), Distinct.FirstIndex(ds, u[j]);
    EntryOfLeg(rs, es, p);
    EntryOfLeg(rs, es, q);
    var legs := Legs(rs);
    AgentLegsSorted(SortByStart(rs));
    assert Lex.Le(legs[p].start, legs[q].start);
    Lex.TakeMonotone(legs[p].start, legs[q].start, 10);
    Dates.PrefixOrderIsChronological(Dates.PrefixOf(legs[p].start), Dates.PrefixOf(legs[q].start));
  }

  /** The report's dates are distinct, strictly chronological, and are
      exactly the date keys of the agent-leg rows. */
  lemma DatesOfReport(rs: seq<CallRecord>)
    requires GenerateResult(rs).Success?
    ensures Distinct.NoDuplicates(GenerateResult(rs).value.dates)
    ensures forall d :: d in GenerateResult(rs).value.dates <==> d in DateSet(rs)
    ensures forall i, j :: 0 <= i < j < |GenerateResult(rs).value.dates| ==>
      Dates.DateLt(GenerateResult(rs).value.dates[i], GenerateResult(rs).value.dates[j])
  {
    var es, built := ResultParts(rs);
    ReportDates(rs, es);
    forall i, j | 0 <= i < j < |GenerateResult(rs).value.dates|
      ensures Dates.DateLt(GenerateResult(rs).value.dates[i], GenerateResult(rs).value.dates[j])
    {
      DatePairOrder(rs, es, i, j);
    }
  }

  /** The cells built for one agent: one per date of the report, each the
      metrics of that agent's calls on that date. */
  lemma CellsOfAgent(rs: seq<CallRecord>, es: seq<Entry>, agent: string, cells: map<Dates.Date, Metrics>)
    requires Normalize(Legs(rs)) == Success(es)
    requires BuildCells(es, agent, Distinct.Unique(DatesOf(es))) == Success(cells)
    ensures forall d :: d in cells <==> d in DateSet(rs)
    ensures forall d :: d in cells ==>
      GroupTally(rs, agent, d).cr > 0 && cells[d] == MetricsOf(GroupTally(rs, agent, d))
  {
    ReportDates(rs, es);
    forall d | d in cells
      ensures GroupTally(rs, agent, d).cr > 0 && cells[d] == MetricsOf(GroupTally(rs, agent, d))
    {
      assert Cell(es, agent, d) == Success(cells[d]);
      CellSucceedsIff(rs, es, agent, d);
    }
  }

  /** What one row of the report holds, for a row as the per-agent loop
      builds it. */
  lemma BuiltRow(rs: seq<CallRecord>, es: seq<Entry>, built: seq<Row>, k: nat)
    requires Normalize(Legs(rs)) == Success(es)
    requires BuildRows(es, Distinct.Unique(AgentsOf(es)), Distinct.Unique(DatesOf(es))) == Success(built)
    requires k < |built|
    ensures built[k].agent in AgentSet(rs)
    ensures forall d :: d in built[k].cells <==> d in DateSet(rs)
    ensures forall d :: d in built[k].cells ==>
      GroupTally(rs, built[k].agent, d).cr > 0 && built[k].cells[d] == MetricsOf(GroupTally(rs, built[k].agent, d))
  {
    var agents := Distinct.Unique(AgentsOf(es));
    ReportAgents(rs, es);
    assert built[k].agent == agents[k];
    CellsOfAgent(rs, es, built[k].agent, built[k].cells);
  }

  /** In the rows the per-agent loop builds, the agent names the row. */
  lemma BuiltRowsByAgent(es: seq<Entry>, agents: seq<string>, dates: seq<Dates.Date>, built: seq<Row>, x: Row, y: Row)
    requires Distinct.NoDuplicates(agents)
    requires BuildRows(es, agents, dates) == Success(built)
    requires x in built && y in built && x.agent == y.agent
    ensures x == y
  {
    var i :| 0 <= i < |built| && built[i] == x;
    var j :| 0 <= j < |built| && built[j] == y;
    assert agents[i] == agents[j];
  }

  /** The rows of the report are strictly ordered by agent: each agent has
      exactly one row, and the final sort puts them in string order. */
  lemma RowsStrictlySorted(rs: seq<CallRecord>)
    requires GenerateResult(rs).Success?
    ensures forall i, j :: 0 <= i < j < |GenerateResult(rs).value.rows| ==>
      Lex.Lt(GenerateResult(rs).value.rows[i].agent, GenerateResult(rs).value.rows[j].agent)
  {
    var es, built := ResultParts(rs);
    var rows := SortRows(built);
    assert Distinct.NoDuplicates(built) by {
      forall i, j | 0 <= i < j < |built|
        ensures built[i] != built[j]
      {
        assert built[i].agent == Distinct.Unique(AgentsOf(es))[i];
        assert built[j].agent == Distinct.Unique(AgentsOf(es))[j];
      }
    }
    Distinct.PermutationNoDuplicates(built, rows);
    forall i, j | 0 <= i < j < |rows|
      ensures Lex.Lt(rows[i].agent, rows[j].agent)
    {
      assert Lex.Le(AgentOf(rows[i]), AgentOf(rows[j]));
      assert rows[i] in multiset(built) && rows[j] in multiset(built);
      if rows[i].agent == rows[j].agent {
        BuiltRowsByAgent(es, Distinct.Unique(AgentsOf(es)), Distinct.Unique(DatesOf(es)), built, rows[i], rows[j]);
      }
    }
  }

  /** Each row of a successful report, wherever the final sort put it. */
  lemma SortedRow(rs: seq<CallRecord>, es: seq<Entry>, built: seq<Row>, row: Row)
    requires Normalize(Legs(rs)) == Success(es)
    requires BuildRows(es, Distinct.Unique(AgentsOf(es)), Distinct.Unique(DatesOf(es))) == Success(built)
    requires row in SortRows(built)
    ensures row.agent in AgentSet(rs)
    ensures forall d :: d in row.cells <==> d in DateSet(rs)
    ensures forall d :: d in row.cells ==>
      GroupTally(rs, row.agent, d).cr > 0 && row.cells[d] == MetricsOf(GroupTally(rs, row.agent, d))
  {
    assert row in multiset(SortRows(built));
    var k :| 0 <= k < |built| && built[k] == row;
    BuiltRow(rs, es, built, k);
  }

  /** Every agent with an agent-leg row has a row of the report, and every
      row belongs to such an agent. */
  lemma AgentsOfReport(rs: seq<CallRecord>)
    requires GenerateResult(rs).Success?
    ensures forall a :: a in AgentSet(rs) <==>
      exists i :: 0 <= i < |GenerateResult(rs).value.rows| && GenerateResult(rs).value.rows[i].agent == a
  {
    var rows := GenerateResult(rs).value.rows;
    forall i | 0 <= i < |rows|
      ensures rows[i].agent in AgentSet(rs)
    {
      RowAgentKnown(rs, rows[i]);
    }
    forall a | a in AgentSet(rs)
      ensures exists i :: 0 <= i < |rows| && rows[i].agent == a
    {
      var i := AgentHasRow(rs, a);
    }
  }

  /** A row's cells are the report's dates, each holding the metrics of
      that agent's calls on that date. */
  lemma CellsOfReport(rs: seq<CallRecord>)
    requires GenerateResult(rs).Success?
    ensures forall row, d :: row in GenerateResult(rs).value.rows ==>
      (d in row.cells <==> d in GenerateResult(rs).value.dates)
    ensures forall row, d :: row in GenerateResult(rs).value.rows && d in row.cells ==>
      GroupTally(rs, row.agent, d).cr > 0 && row.cells[d] == MetricsOf(GroupTally(rs, row.agent, d))
  {
    var es, built := ResultParts(rs);
    DatesOfReport(rs);
    forall row | row in SortRows(built)
      ensures forall d :: d in row.cells <==> d in DateSet(rs)
      ensures forall d :: d in row.cells ==>
        GroupTally(rs, row.agent, d).cr > 0 && row.cells[d] == MetricsOf(GroupTally(rs, row.agent, d))
    {
      SortedRow(rs, es, built, row);
    }
  }

  /** A cell counts at least one connected call and never more connected
      calls than calls, and its connected calls average at least a minute. */
  lemma MetricsBounds(rs: seq<CallRecord>, agent: string, date: Dates.Date)
    requires GroupTally(rs, agent, date).cr > 0
    ensures 1 <= MetricsOf(GroupTally(rs, agent, date)).cr <= MetricsOf(GroupTally(rs, agent, date)).calls
    ensures MetricsOf(GroupTally(rs, agent, date)).avgCrDur >= 60
  {
    var t := GroupTally(rs, agent, date);
    Rounding.RoundedMeanAtLeast(t.crTotal, t.cr, 60);
  }

  /** Sorting the finished report by agent again changes nothing. */
  lemma ResortIsIdentity(rs: seq<CallRecord>)
    requires GenerateResult(rs).Success?
    ensures SortRows(GenerateResult(rs).value.rows) == GenerateResult(rs).value.rows
  {
    var es, built := ResultParts(rs);
    Sorting.SortSorted(AgentOf, SortRows(built));
  }

  /** The report sees only the agent-leg rows: inputs with the same
      agent-leg rows in the same order give the same report. */
  lemma SameAgentLegsSameResult(a: seq<CallRecord>, b: seq<CallRecord>)
    requires AgentLegs(a) == AgentLegs(b)
    ensures GenerateResult(a) == GenerateResult(b)
  {
    AgentLegsCommuteWithSort(a);
    AgentLegsCommuteWithSort(b);
    assert Legs(a) == Legs(b);
  }

  /** Dropping the rows of other legs first does not change the report. */
  lemma OtherLegsIgnored(rs: seq<CallRecord>)
    ensures GenerateResult(AgentLegs(rs)) == GenerateResult(rs)
  {
    AgentLegsIdempotent(rs);
    SameAgentLegsSameResult(AgentLegs(rs), rs);
  }

  /** Reordering the input rows keeps the agents and the dates. */
  lemma ReorderKeepsSets(a: seq<CallRecord>, b: seq<CallRecord>)
    requires multiset(a) == multiset(b)
    ensures AgentSet(a) == AgentSet(b) && DateSet(a) == DateSet(b)
  {
    forall r
      ensures r in a <==> r in b
    {
      assert r in a <==> r in multiset(a);
      assert r in b <==> r in multiset(b);
    }
  }

  /** Reordering the input rows keeps both conditions for a report. */
  lemma ReorderKeepsConditions(a: seq<CallRecord>, b: seq<CallRecord>)
    requires multiset(a) == multiset(b)
    ensures AllKeysParse(a) <==> AllKeysParse(b)
    ensures EveryGroupConnected(a) <==> EveryGroupConnected(b)
  {
    ReorderKeepsSets(a, b);
    forall r
      ensures r in a <==> r in b
    {
      assert r in a <==> r in multiset(a);
      assert r in b <==> r in multiset(b);
    }
    forall agent, date
      ensures GroupTally(a, agent, date) == GroupTally(b, agent, date)
    {
      GroupTallyPermutation(a, b, agent, date);
    }
  }

  /** Cell maps that both hold, for one agent, the metrics of every date of
      two reorderings of the same rows are equal. */
  lemma ReorderSameCells(a: seq<CallRecord>, b: seq<CallRecord>, agent: string, keys: set<Dates.Date>,
                         m1: map<Dates.Date, Metrics>, m2: map<Dates.Date, Metrics>)
    requires multiset(a) == multiset(b)
    requires forall d :: d in m1 <==> d in keys
    requires forall d :: d in m2 <==> d in keys
    requires forall d :: d in m1 ==> GroupTally(a, agent, d).cr > 0 && m1[d] == MetricsOf(GroupTally(a, agent, d))
    requires forall d :: d in m2 ==> GroupTally(b, agent, d).cr > 0 && m2[d] == MetricsOf(GroupTally(b, agent, d))
    ensures m1 == m2
  {
    forall d | d in m1
      ensures d in m2 && m1[d] == m2[d]
    {
      GroupTallyPermutation(a, b, agent, d);
    }
  }

  /** One row of a successful report: its cells are the report's dates,
      each the metrics of the agent's calls on that date. */
  lemma RowOfReport(rs: seq<CallRecord>, row: Row)
    requires GenerateResult(rs).Success?
    requires row in GenerateResult(rs).value.rows
    ensures forall d :: d in row.cells <==> d in DateSet(rs)
    ensures forall d :: d in row.cells ==>
      GroupTally(rs, row.agent, d).cr > 0 && row.cells[d] == MetricsOf(GroupTally(rs, row.agent, d))
  {
    var es, built := ResultParts(rs);
    SortedRow(rs, es, built, row);
  }

  /** Two successful reports over reorderings of the same rows give an
      agent the same row. */
  lemma ReorderSameRow(a: seq<CallRecord>, b: seq<CallRecord>, x: Row, y: Row)
    requires multiset(a) == multiset(b)
    requires GenerateResult(a).Success? && GenerateResult(b).Success?
    requires x in GenerateResult(a).value.rows && y in GenerateResult(b).value.rows
    requires x.agent == y.agent
    ensures x == y
  {
    RowOfReport(a, x);
    RowOfReport(b, y);
    ReorderKeepsSets(a, b);
    ReorderSameCells(a, b, x.agent, DateSet(a), x.cells, y.cells);
  }

  /** Reordering the input keeps the report's dates. */
  lemma ReorderSameDates(a: seq<CallRecord>, b: seq<CallRecord>)
    requires multiset(a) == multiset(b)
    requires GenerateResult(a).Success? && GenerateResult(b).Success?
    ensures GenerateResult(a).value.dates == GenerateResult(b).value.dates
  {
    ReorderKeepsSets(a, b);
    DatesOfReport(a);
    DatesOfReport(b);
    ChronologicalUnique(GenerateResult(a).value.dates, GenerateResult(b).value.dates);
  }

  /** Two strictly chronological sequences of the same dates are equal. */
  lemma ChronologicalUnique(s: seq<Dates.Date>, t: seq<Dates.Date>)
    requires forall i, j :: 0 <= i < j < |s| ==> Dates.DateLt(s[i], s[j])
    requires forall i, j :: 0 <= i < j < |t| ==> Dates.DateLt(t[i], t[j])
    requires forall d :: d in s <==> d in t
    ensures s == t
  {
    Sorting.StrictlyOrderedUnique((d, e) => Dates.DateLt(d, e), s, t);
  }

  /** Two sequences of rows strictly ordered by agent, with the same rows,
      are equal. */
  lemma AgentOrderedUnique(s: seq<Row>, t: seq<Row>)
    requires forall i, j :: 0 <= i < j < |s| ==> Lex.Lt(s[i].agent, s[j].agent)
    requires forall i, j :: 0 <= i < j < |t| ==> Lex.Lt(t[i].agent, t[j].agent)
    requires forall x :: x in s <==> x in t
    ensures s == t
  {
    forall x: Row, y: Row
      ensures Lex.Lt(x.agent, y.agent) ==> !Lex.Lt(y.agent, x.agent)
    {
      if Lex.Lt(x.agent, y.agent) && Lex.Lt(y.agent, x.agent) {
        Lex.Antisymmetric(x.agent, y.agent);
      }
    }
    Sorting.StrictlyOrderedUnique((x: Row, y: Row) => Lex.Lt(x.agent, y.agent), s, t);
  }

  /** A row of the report belongs to an agent with an agent-leg row. */
  lemma RowAgentKnown(rs: seq<CallRecord>, row: Row)
    requires GenerateResult(rs).Success?
    requires row in GenerateResult(rs).value.rows
    ensures row.agent in AgentSet(rs)
  {
    var es, built := ResultParts(rs);
    SortedRow(rs, es, built, row);
  }

  /** An agent with an agent-leg row has a row of the report. */
  lemma AgentHasRow(rs: seq<CallRecord>, agent: string) returns (i: nat)
    requires GenerateResult(rs).Success?
    requires agent in AgentSet(rs)
    ensures i < |GenerateResult(rs).value.rows| && GenerateResult(rs).value.rows[i].agent == agent
  {
    var es, built := ResultParts(rs);
    var k := BuiltHasAgent(rs, es, built, agent);
    assert built[k] in multiset(SortRows(built));
    i :| 0 <= i < |SortRows(built)| && SortRows(built)[i] == built[k];
  }

  /** The per-agent loop builds a row for every agent with an agent-leg row. */
  lemma BuiltHasAgent(rs: seq<CallRecord>, es: seq<Entry>, built: seq<Row>, agent: string) returns (k: nat)
    requires Normalize(Legs(rs)) == Success(es)
    requires BuildRows(es, Distinct.Unique(AgentsOf(es)), Distinct.Unique(DatesOf(es))) == Success(built)
    requires agent in AgentSet(rs)
    ensures k < |built| && built[k].agent == agent
  {
    var agents := Distinct.Unique(AgentsOf(es));
    ReportAgents(rs, es);
    k :| 0 <= k < |agents| && agents[k] == agent;
  }

  /** A row of the report over one ordering is a row of the report over
      any other. */
  lemma ReorderRowKept(a: seq<CallRecord>, b: seq<CallRecord>, x: Row)
    requires multiset(a) == multiset(b)
    requires GenerateResult(a).Success? && GenerateResult(b).Success?
    requires x in GenerateResult(a).value.rows
    ensures x in GenerateResult(b).value.rows
  {
    ReorderKeepsSets(a, b);
    RowAgentKnown(a, x);
    var j := AgentHasRow(b, x.agent);
    ReorderSameRow(a, b, x, GenerateResult(b).value.rows[j]);
  }

  /** Reordering the input keeps the report's rows. */
  lemma ReorderSameRows(a: seq<CallRecord>, b: seq<CallRecord>)
    requires multiset(a) == multiset(b)
    requires GenerateResult(a).Success? && GenerateResult(b).Success?
    ensures GenerateResult(a).value.rows == GenerateResult(b).value.rows
  {
    var ra, rb := GenerateResult(a).value.rows, GenerateResult(b).value.rows;
    RowsStrictlySorted(a);
    RowsStrictlySorted(b);
    forall x
      ensures x in ra <==> x in rb
    {
      if x in ra {
        ReorderRowKept(a, b, x);
      }
      if x in rb {
        ReorderRowKept(b, a, x);
      }
    }
    AgentOrderedUnique(ra, rb);
  }

  /** The report does not depend on the order of the input rows: it exists
      for both orders or for neither, and then is the same. Ties between
      equal timestamps, which a stable and an unstable sort break
      differently, therefore cannot show in it. */
  lemma ReorderedInputSameReport(a: seq<CallRecord>, b: seq<CallRecord>)
    requires multiset(a) == multiset(b)
    ensures GenerateResult(a).Success? <==> GenerateResult(b).Success?
    ensures GenerateResult(a).Success? ==> GenerateResult(a) == GenerateResult(b)
  {
    ReorderKeepsConditions(a, b);
    SucceedsIff(a);
    SucceedsIff(b);
    if GenerateResult(a).Success? {
      ReorderSameDates(a, b);
      ReorderSameRows(a, b);
    }
  }

  /** A refused report is refused for any order of the same rows, and for
      the same kind of reason: a bad timestamp or a division by zero. */
  lemma ReorderedInputSameFailureKind(a: seq<CallRecord>, b: seq<CallRecord>)
    requires multiset(a) == multiset(b)
    requires GenerateResult(a).Failure?
    ensures GenerateResult(b).Failure?
    ensures GenerateResult(a).error.BadTimestamp? <==> GenerateResult(b).error.BadTimestamp?
  {
    ReorderKeepsConditions(a, b);
    SucceedsIff(a);
    SucceedsIff(b);
    FailsOnBadTimestampIff(a);
    FailsOnBadTimestampIff(b);
  }

  /** The report's dates are calendar days, so each has a `%d/%m/%Y` name. */
  lemma ReportDatesAreCalendarDates(rs: seq<CallRecord>)
    requires GenerateResult(rs).Success?
    ensures Columns.AllCalendarDates(GenerateResult(rs).value.dates)
  {
    var dates := GenerateResult(rs).value.dates;
    DatesOfReport(rs);
    forall j | 0 <= j < |dates|
      ensures Dates.IsCalendarDate(dates[j])
    {
      assert dates[j] in DateSet(rs);
    }
  }

  /** The header over distinct calendar dates: distinct names, and date j's
      group of four starts at column 1 + 4j. */
  lemma HeaderOfDates(dates: seq<Dates.Date>, j: nat)
    requires Columns.AllCalendarDates(dates) && Distinct.NoDuplicates(dates)
    requires j < |dates|
    ensures Distinct.NoDuplicates(Columns.Header(Columns.DateNames(dates)))
    ensures Columns.Header(Columns.DateNames(dates))[1 + 4 * j] == Columns.DateNames(dates)[j] + ": # Calls Attempted"
  {
    var names := Columns.DateNames(dates);
    Columns.DateNamesDistinct(dates);
    Columns.HeaderDistinct(names);
  }

  /** The column names of the report are distinct, and the group of four
      columns of its j-th date starts with "D: # Calls Attempted". */
  lemma HeaderOfReport(rs: seq<CallRecord>, j: nat)
    requires GenerateResult(rs).Success?
    requires j < |GenerateResult(rs).value.dates|
    ensures Columns.AllCalendarDates(GenerateResult(rs).value.dates)
    ensures Distinct.NoDuplicates(Columns.Header(Columns.DateNames(GenerateResult(rs).value.dates)))
    ensures Columns.Header(Columns.DateNames(GenerateResult(rs).value.dates))[1 + 4 * j] ==
      Columns.DateNames(GenerateResult(rs).value.dates)[j] + ": # Calls Attempted"
  {
    ReportDatesAreCalendarDates(rs);
    DatesOfReport(rs);
    HeaderOfDates(GenerateResult(rs).value.dates, j);
  }

  /** A row of the report has a cell for every date of the report. */
  lemma RowHasEveryDate(rs: seq<CallRecord>, row: Row)
    requires GenerateResult(rs).Success?
    requires row in GenerateResult(rs).value.rows
    ensures forall d :: d in GenerateResult(rs).value.dates ==> d in row.cells
  {
    DatesOfReport(rs);
    RowOfReport(rs, row);
  }

  /** The cell of a row for one date of the report. */
  lemma RowCell(rs: seq<CallRecord>, row: Row, d: Dates.Date)
    requires GenerateResult(rs).Success?
    requires row in GenerateResult(rs).value.rows
    requires d in GenerateResult(rs).value.dates
    ensures d in row.cells
    ensures GroupTally(rs, row.agent, d).cr > 0 && row.cells[d] == MetricsOf(GroupTally(rs, row.agent, d))
  {
    RowHasEveryDate(rs, row);
    RowOfReport(rs, row);
  }

  /** A line whose cell for date j holds the metrics of g. */
  lemma LineOfCells(row: Row, dates: seq<Dates.Date>, j: nat, g: Tally)
    requires forall d :: d in dates ==> d in row.cells
    requires j < |dates|
    requires g.calls > 0 && g.cr > 0
    requires row.cells[dates[j]] == MetricsOf(g)
    ensures Columns.Line(row, dates)[1 + 4 * j .. 5 + 4 * j] ==
      [Columns.Count(g.calls), Columns.Count(Rounding.RoundHalfEven(g.total, g.calls)),
       Columns.Count(g.cr), Columns.Count(Rounding.RoundHalfEven(g.crTotal, g.cr))]
  {
    Columns.LineBlock(row, dates, j);
  }

  /** Under date j's four columns an agent's line holds the count, rounded
      mean duration, connected count and rounded mean connected duration of
      that agent's calls on that date. */
  lemma LineOfReport(rs: seq<CallRecord>, t: Table, i: nat, j: nat)
    requires GenerateResult(rs) == Success(t)
    requires i < |t.rows| && j < |t.dates|
    ensures forall k :: 0 <= k < |t.dates| ==> t.dates[k] in t.rows[i].cells
    ensures GroupTally(rs, t.rows[i].agent, t.dates[j]).cr > 0
    ensures var g := GroupTally(rs, t.rows[i].agent, t.dates[j]);
      Columns.Line(t.rows[i], t.dates)[1 + 4 * j .. 5 + 4 * j] ==
      [Columns.Count(g.calls), Columns.Count(Rounding.RoundHalfEven(g.total, g.calls)),
       Columns.Count(g.cr), Columns.Count(Rounding.RoundHalfEven(g.crTotal, g.cr))]
  {
    RowHasEveryDate(rs, t.rows[i]);
    RowCell(rs, t.rows[i], t.dates[j]);
    LineOfCells(t.rows[i], t.dates, j, GroupTally(rs, t.rows[i].agent, t.dates[j]));
  }

  /** One cell of a successful report, against the input rows: the number
      of the agent's agent-leg calls that day, the number of them longer than
      59 seconds (at least one, and never more than the calls), and the two
      averages rounded half to even, the connected one at least a minute. */
  lemma CellCounts(rs: seq<CallRecord>, row: Row, d: Dates.Date)
    requires GenerateResult(rs).Success?
    requires row in GenerateResult(rs).value.rows
    requires d in GenerateResult(rs).value.dates
    ensures d in row.cells
    ensures row.cells[d].calls == |GroupIndices(rs, row.agent, d)|
    ensures row.cells[d].cr == |ConnectedIndices(rs, row.agent, d)|
    ensures 1 <= row.cells[d].cr <= row.cells[d].calls
    ensures Rounding.IsRoundHalfEven(GroupTally(rs, row.agent, d).total, row.cells[d].calls, row.cells[d].avgDur)
    ensures Rounding.IsRoundHalfEven(GroupTally(rs, row.agent, d).crTotal, row.cells[d].cr, row.cells[d].avgCrDur)
    ensures row.cells[d].avgCrDur >= 60
  {
    RowCell(rs, row, d);
    GroupTallyCounts(rs, row.agent, d);
    MetricsBounds(rs, row.agent, d);
  }

  /** The `Agent ID` column of the report. */
  function AgentColumn(rows: seq<Row>): (ids: seq<string>)
    ensures |ids| == |rows|
  {
    seq(|rows|, i requires 0 <= i < |rows| => rows[i].agent)
  }

  /** Rows strictly ordered by agent, one for each agent of a set, have an
      `Agent ID` column without repeats listing exactly that set. */
  lemma AgentColumnOf(rows: seq<Row>, agents: set<string>)
    requires forall i, j :: 0 <= i < j < |rows| ==> Lex.Lt(rows[i].agent, rows[j].agent)
    requires forall a :: a in agents <==> exists i :: 0 <= i < |rows| && rows[i].agent == a
    ensures Distinct.NoDuplicates(AgentColumn(rows))
    ensures Distinct.Elements(AgentColumn(rows)) == agents
    ensures |rows| == |agents|
  {
    var ids := AgentColumn(rows);
    assert Distinct.NoDuplicates(ids);
    forall a
      ensures a in ids <==> a in agents
    {
      if a in agents {
        var i :| 0 <= i < |rows| && rows[i].agent == a;
        assert ids[i] == a;
      }
    }
    Distinct.NoDuplicatesCard(ids);
  }

  /** Exactly one row per agent with an agent-leg row: the `Agent ID`
      column has no repeats and lists every such agent. */
  lemma OneRowPerAgent(rs: seq<CallRecord>)
    requires GenerateResult(rs).Success?
    ensures Distinct.NoDuplicates(AgentColumn(GenerateResult(rs).value.rows))
    ensures Distinct.Elements(AgentColumn(GenerateResult(rs).value.rows)) == AgentSet(rs)
    ensures |GenerateResult(rs).value.rows| == |AgentSet(rs)|
  {
    RowsStrictlySorted(rs);
    AgentsOfReport(rs);
    AgentColumnOf(GenerateResult(rs).value.rows, AgentSet(rs));
  }
}
