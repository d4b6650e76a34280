/** The input table: one row per call leg, with the four columns the report
    reads (cc_performance.py:39-41), and the per-group totals it is built from. */
module Calls {
  import Lex
  import Sorting
  import Dates
  import opened Wrappers

  /** One row of the call log: `Agent Username`, `Call Start DT`,
      `Call Dur Full` (whole seconds) and `Dial Leg`. */
  datatype CallRecord = CallRecord(agent: string, start: string, dur: nat, leg: string)

  function StartOf(r: CallRecord): string {
    r.start
  }

  /** `df['Dial Leg'] == 'agent'`. */
  predicate IsAgentLeg(r: CallRecord) {
    r.leg == "agent"
  }

  /** A call counts as connected ("CR") when it lasted more than 59 seconds. */
  predicate IsConnected(dur: nat) {
    dur > 59
  }

  /** The agent-side rows, in their original order (cc_performance.py:40). */
  function AgentLegs(rs: seq<CallRecord>): (out: seq<CallRecord>)
    ensures forall i :: 0 <= i < |out| ==> IsAgentLeg(out[i]) && out[i] in rs
    ensures forall r :: r in rs && IsAgentLeg(r) ==> r in out
    ensures |out| <= |rs|
    decreases |rs|
  {
    if |rs| == 0 then []
    else (if IsAgentLeg(rs[0]) then [rs[0]] else []) + AgentLegs(rs[1..])
  }

  /** The filter keeps every agent-leg row as often as it occurs and drops
      every other row, so `len(agent_df)` counts repeated rows. */
  lemma {:induction false} AgentLegsCount(rs: seq<CallRecord>, r: CallRecord)
    ensures multiset(AgentLegs(rs))[r] == if IsAgentLeg(r) then multiset(rs)[r] else 0
    decreases |rs|
  {
    if |rs| > 0 {
      AgentLegsCount(rs[1..], r);
      ConsCount(rs, r);
    }
  }

  /** How often r occurs in rs and in its agent legs, one row at a time. */
  lemma ConsCount(rs: seq<CallRecord>, r: CallRecord)
    requires |rs| > 0
    ensures multiset(rs)[r] == (if rs[0] == r then 1 else 0) + multiset(rs[1..])[r]
    ensures multiset(AgentLegs(rs))[r] ==
      (if rs[0] == r && IsAgentLeg(r) then 1 else 0) + multiset(AgentLegs(rs[1..]))[r]
  {
    assert rs == [rs[0]] + rs[1..];
    assert AgentLegs(rs) == (if IsAgentLeg(rs[0]) then [rs[0]] else []) + AgentLegs(rs[1..]);
  }

  /** `df.sort_values('Call Start DT')` (cc_performance.py:39). */
  function SortByStart(rs: seq<CallRecord>): (sorted: seq<CallRecord>)
    ensures multiset(sorted) == multiset(rs)
    ensures Sorting.Sorted(StartOf, sorted)
  {
    Sorting.Sort(StartOf, rs)
  }

  lemma {:induction false} AgentLegsAppend(a: seq<CallRecord>, b: seq<CallRecord>)
    ensures AgentLegs(a + b) == AgentLegs(a) + AgentLegs(b)
    decreases |a|
  {
    if |a| == 0 {
      assert a + b == b;
    } else {
      assert (a + b)[0] == a[0];
      assert (a + b)[1..] == a[1..] + b;
      AgentLegsAppend(a[1..], b);
    }
  }

  /** Filtering twice is filtering once. */
  lemma {:induction false} AgentLegsIdempotent(rs: seq<CallRecord>)
    ensures AgentLegs(AgentLegs(rs)) == AgentLegs(rs)
    decreases |rs|
  {
    if |rs| > 0 {
      AgentLegsIdempotent(rs[1..]);
      var keep := if IsAgentLeg(rs[0]) then [rs[0]] else [];
      assert AgentLegs(rs) == keep + AgentLegs(rs[1..]);
      AgentLegsAppend(keep, AgentLegs(rs[1..]));
      if IsAgentLeg(rs[0]) {
        assert AgentLegs(keep) == [rs[0]] + AgentLegs([]);
      }
    }
  }

  /** Dropping the other legs leaves a sorted sequence sorted. */
  lemma {:induction false} AgentLegsSorted(s: seq<CallRecord>)
    requires Sorting.Sorted(StartOf, s)
    ensures Sorting.Sorted(StartOf, AgentLegs(s))
    decreases |s|
  {
    if |s| > 0 {
      var tail := s[1..];
      Sorting.SortedTail(StartOf, s);
      AgentLegsSorted(tail);
      var rest := AgentLegs(tail);
      if IsAgentLeg(s[0]) {
        forall y | y in rest
          ensures Lex.Le(StartOf(s[0]), StartOf(y))
        {
          Sorting.HeadBelowTail(StartOf, s, y);
        }
        Sorting.SortedCons(StartOf, s[0], rest);
      }
      assert AgentLegs(s) == (if IsAgentLeg(s[0]) then [s[0]] else []) + rest;
    }
  }

  /** A row of another leg inserted anywhere is filtered out again. */
  lemma {:induction false} AgentLegsInsertOther(x: CallRecord, s: seq<CallRecord>)
    requires !IsAgentLeg(x)
    ensures AgentLegs(Sorting.Insert(StartOf, x, s)) == AgentLegs(s)
    decreases |s|
  {
    if |s| > 0 && !Lex.Le(StartOf(x), StartOf(s[0])) {
      AgentLegsInsertOther(x, s[1..]);
      assert AgentLegs(s) == AgentLegs([s[0]]) + AgentLegs(s[1..]) by {
        AgentLegsAppend([s[0]], s[1..]);
        assert s == [s[0]] + s[1..];
      }
      AgentLegsAppend([s[0]], Sorting.Insert(StartOf, x, s[1..]));
    } else if |s| > 0 {
      AgentLegsAppend([x], s);
    }
  }

  /** An agent-leg row inserted into a sorted sequence lands, after
      filtering, where inserting it into the filtered sequence puts it. */
  lemma {:induction false} AgentLegsInsertAgent(x: CallRecord, s: seq<CallRecord>)
    requires IsAgentLeg(x) && Sorting.Sorted(StartOf, s)
    ensures AgentLegs(Sorting.Insert(StartOf, x, s)) == Sorting.Insert(StartOf, x, AgentLegs(s))
    decreases |s|
  {
    if |s| == 0 {
      assert AgentLegs([x]) == [x] + AgentLegs([]);
    } else if Lex.Le(StartOf(x), StartOf(s[0])) {
      InsertAgentFirst(x, s);
    } else {
      assert Sorting.Sorted(StartOf, s[1..]);
      AgentLegsInsertAgent(x, s[1..]);
      InsertAgentLater(x, s);
    }
  }

  /** AgentLegsInsertAgent when x goes in front of all of s. */
  lemma InsertAgentFirst(x: CallRecord, s: seq<CallRecord>)
    requires IsAgentLeg(x) && Sorting.Sorted(StartOf, s)
    requires |s| > 0 && Lex.Le(StartOf(x), StartOf(s[0]))
    ensures AgentLegs(Sorting.Insert(StartOf, x, s)) == Sorting.Insert(StartOf, x, AgentLegs(s))
  {
    assert Sorting.Insert(StartOf, x, s) == [x] + s;
    AgentLegsAppend([x], s);
    assert AgentLegs([x]) == [x] + AgentLegs([]);
    var t := AgentLegs(s);
    forall y | y in t
      ensures Lex.Le(StartOf(x), StartOf(y))
    {
      var k :| 0 <= k < |s| && s[k] == y;
      if k > 0 {
        Lex.Transitive(StartOf(x), StartOf(s[0]), StartOf(y));
      }
    }
    Sorting.InsertAtFront(StartOf, x, t);
  }

  /** AgentLegsInsertAgent when x goes after s[0], given the result for s[1..]. */
  lemma InsertAgentLater(x: CallRecord, s: seq<CallRecord>)
    requires |s| > 0 && !Lex.Le(StartOf(x), StartOf(s[0]))
    requires AgentLegs(Sorting.Insert(StartOf, x, s[1..])) == Sorting.Insert(StartOf, x, AgentLegs(s[1..]))
    ensures AgentLegs(Sorting.Insert(StartOf, x, s)) == Sorting.Insert(StartOf, x, AgentLegs(s))
  {
    var h := s[0];
    var inner := Sorting.Insert(StartOf, x, s[1..]);
    var l := AgentLegs(s[1..]);
    var keep := if IsAgentLeg(h) then [h] else [];
    assert Sorting.Insert(StartOf, x, s) == [h] + inner;
    assert AgentLegs([h] + inner) == keep + AgentLegs(inner);
    assert AgentLegs(s) == keep + l;
    if IsAgentLeg(h) {
      InsertAfterHead(x, h, Sorting.Insert(StartOf, x, l), l);
    } else {
      assert keep + l == l;
      assert keep + AgentLegs(inner) == AgentLegs(inner);
    }
  }

  lemma InsertAfterHead(x: CallRecord, h: CallRecord, r: seq<CallRecord>, l: seq<CallRecord>)
    requires !Lex.Le(StartOf(x), StartOf(h))
    requires r == Sorting.Insert(StartOf, x, l)
    ensures Sorting.Insert(StartOf, x, [h] + l) == [h] + r
  {
    var t := [h] + l;
    assert t[0] == h && t[1..] == l;
  }

  /** Sorting then filtering (as the report does) equals filtering then
      sorting: the other legs cannot influence the order of agent legs. */
  lemma {:induction false} AgentLegsCommuteWithSort(rs: seq<CallRecord>)
    ensures AgentLegs(SortByStart(rs)) == SortByStart(AgentLegs(rs))
    decreases |rs|
  {
    if |rs| > 0 {
      var x, rest := rs[0], rs[1..];
      AgentLegsCommuteWithSort(rest);
      var sortedRest := Sorting.Sort(StartOf, rest);
      assert SortByStart(rs) == Sorting.Insert(StartOf, x, sortedRest);
      var l := AgentLegs(rest);
      if IsAgentLeg(x) {
        assert AgentLegs(rs) == [x] + l;
        AgentLegsInsertAgent(x, sortedRest);
        var t := [x] + l;
        assert t[0] == x && t[1..] == l;
        assert Sorting.Sort(StartOf, t) == Sorting.Insert(StartOf, x, Sorting.Sort(StartOf, l));
      } else {
        assert AgentLegs(rs) == l;
        AgentLegsInsertOther(x, sortedRest);
      }
    }
  }

  /** Running totals for one (agent, date) group: number of calls, their
      summed duration, number of connected calls and their summed duration. */
  datatype Tally = Tally(calls: nat, total: nat, cr: nat, crTotal: nat) {
    function Plus(other: Tally): Tally {
      Tally(calls + other.calls, total + other.total, cr + other.cr, crTotal + other.crTotal)
    }
  }

  const NoCalls := Tally(0, 0, 0, 0)

  /** What one call of `dur` seconds adds to its group. */
  function TallyOf(dur: nat): Tally {
    if IsConnected(dur) then Tally(1, dur, 1, dur) else Tally(1, dur, 0, 0)
  }

  /** The rows of the group (agent, date): agent-leg rows of that agent
      whose timestamp prefix is that date (cc_performance.py:49, 55). */
  predicate InGroup(r: CallRecord, agent: string, date: Dates.Date) {
    IsAgentLeg(r) && r.agent == agent && Dates.DateKey(r.start) == Success(date)
  }

  /** The group totals, read directly off the input rows in any order. */
  function GroupTally(rs: seq<CallRecord>, agent: string, date: Dates.Date): (t: Tally)
    ensures t.cr <= t.calls && t.crTotal <= t.total
    ensures 60 * t.cr <= t.crTotal
    decreases |rs|
  {
    if |rs| == 0 then NoCalls
    else
      var rest := GroupTally(rs[1..], agent, date);
      if InGroup(rs[0], agent, date) then TallyOf(rs[0].dur).Plus(rest) else rest
  }

  lemma {:induction false} GroupTallyAppend(a: seq<CallRecord>, b: seq<CallRecord>, agent: string, date: Dates.Date)
    ensures GroupTally(a + b, agent, date) == GroupTally(a, agent, date).Plus(GroupTally(b, agent, date))
    decreases |a|
  {
    if |a| == 0 {
      assert a + b == b;
    } else {
      assert (a + b)[0] == a[0];
      assert (a + b)[1..] == a[1..] + b;
      GroupTallyAppend(a[1..], b, agent, date);
    }
  }

  /** Group totals do not depend on row order. */
  lemma {:induction false} GroupTallyPermutation(a: seq<CallRecord>, b: seq<CallRecord>, agent: string, date: Dates.Date)
    requires multiset(a) == multiset(b)
    ensures GroupTally(a, agent, date) == GroupTally(b, agent, date)
    decreases |a|
  {
    if |a| == 0 {
      assert |b| == |multiset(b)| == 0;
    } else {
      var x := a[0];
      assert x in multiset(b);
      var k :| 0 <= k < |b| && b[k] == x;
      var b' := b[..k] + b[k + 1..];
      assert multiset(a[1..]) == multiset(b') by {
        assert b == b[..k] + [x] + b[k + 1..];
        assert a == [x] + a[1..];
        calc {
          multiset(a[1..]);
          multiset(a) - multiset{x};
          multiset(b) - multiset{x};
          multiset(b[..k]) + multiset{x} + multiset(b[k + 1..]) - multiset{x};
          multiset(b[..k]) + multiset(b[k + 1..]);
          multiset(b');
        }
      }
      GroupTallyPermutation(a[1..], b', agent, date);
      GroupTallyRemoveAt(b, k, agent, date);
      assert a == [x] + a[1..];
      GroupTallyAppend([x], a[1..], agent, date);
    }
  }

  /** Taking one row out of a sequence takes its share out of the totals. */
  lemma GroupTallyRemoveAt(b: seq<CallRecord>, k: nat, agent: string, date: Dates.Date)
    requires k < |b|
    ensures GroupTally(b, agent, date) ==
      GroupTally([b[k]], agent, date).Plus(GroupTally(b[..k] + b[k + 1..], agent, date))
  {
    assert b == b[..k] + ([b[k]] + b[k + 1..]);
    GroupTallyAppend(b[..k], [b[k]] + b[k + 1..], agent, date);
    GroupTallyAppend([b[k]], b[k + 1..], agent, date);
    GroupTallyAppend(b[..k], b[k + 1..], agent, date);
  }

  /** Only agent-leg rows count towards a group. */
  lemma {:induction false} GroupTallyAgentLegs(rs: seq<CallRecord>, agent: string, date: Dates.Date)
    ensures GroupTally(AgentLegs(rs), agent, date) == GroupTally(rs, agent, date)
    decreases |rs|
  {
    if |rs| > 0 {
      var x, rest := rs[0], rs[1..];
      GroupTallyAgentLegs(rest, agent, date);
      var keep := if IsAgentLeg(x) then [x] else [];
      assert AgentLegs(rs) == keep + AgentLegs(rest);
      GroupTallyAppend(keep, AgentLegs(rest), agent, date);
      assert rs == [x] + rest;
      GroupTallyAppend([x], rest, agent, date);
      assert [x][1..] == [];
      if IsAgentLeg(x) {
        assert GroupTally(keep, agent, date) == GroupTally([x], agent, date);
      } else {
        assert GroupTally([x], agent, date) == NoCalls;
        assert GroupTally(keep, agent, date) == NoCalls;
      }
    }
  }

  /** Positions of the rows of the group (agent, date). */
  function GroupIndices(rs: seq<CallRecord>, agent: string, date: Dates.Date): set<nat> {
    set i: nat | i < |rs| && InGroup(rs[i], agent, date)
  }

  /** Positions of the connected calls of the group (agent, date). */
  function ConnectedIndices(rs: seq<CallRecord>, agent: string, date: Dates.Date): set<nat> {
    set i: nat | i < |rs| && InGroup(rs[i], agent, date) && IsConnected(rs[i].dur)
  }

  lemma GroupIndicesSnoc(rs: seq<CallRecord>, agent: string, date: Dates.Date)
    requires |rs| > 0
    ensures |rs| - 1 !in GroupIndices(rs[..|rs| - 1], agent, date)
    ensures GroupIndices(rs, agent, date) == GroupIndices(rs[..|rs| - 1], agent, date) +
      (if InGroup(rs[|rs| - 1], agent, date) then {|rs| - 1} else {})
  {
    var n := |rs| - 1;
    forall i: nat | i < n
      ensures rs[..n][i] == rs[i]
    {
    }
  }

  lemma ConnectedIndicesSnoc(rs: seq<CallRecord>, agent: string, date: Dates.Date)
    requires |rs| > 0
    ensures |rs| - 1 !in ConnectedIndices(rs[..|rs| - 1], agent, date)
    ensures ConnectedIndices(rs, agent, date) == ConnectedIndices(rs[..|rs| - 1], agent, date) +
      (if InGroup(rs[|rs| - 1], agent, date) && IsConnected(rs[|rs| - 1].dur) then {|rs| - 1} else {})
  {
    var n := |rs| - 1;
    forall i: nat | i < n
      ensures rs[..n][i] == rs[i]
    {
    }
  }

  /** The call count of a group is the number of its rows, and its connected
      count the number of those lasting more than 59 seconds. */
  lemma {:induction false} GroupTallyCounts(rs: seq<CallRecord>, agent: string, date: Dates.Date)
    ensures GroupTally(rs, agent, date).calls == |GroupIndices(rs, agent, date)|
    ensures GroupTally(rs, agent, date).cr == |ConnectedIndices(rs, agent, date)|
    decreases |rs|
  {
    if |rs| > 0 {
      var n := |rs| - 1;
      var init, last := rs[..n], rs[n];
      GroupTallyCounts(init, agent, date);
      GroupTallySnoc(rs, agent, date);
      GroupIndicesSnoc(rs, agent, date);
      ConnectedIndicesSnoc(rs, agent, date);
      var inGroup := InGroup(last, agent, date);
      var connected := inGroup && IsConnected(last.dur);
      assert GroupTally(rs, agent, date).calls == GroupTally(init, agent, date).calls + (if inGroup then 1 else 0);
      assert GroupTally(rs, agent, date).cr == GroupTally(init, agent, date).cr + (if connected then 1 else 0);
      assert |GroupIndices(rs, agent, date)| == |GroupIndices(init, agent, date)| + (if inGroup then 1 else 0);
      assert |ConnectedIndices(rs, agent, date)| == |ConnectedIndices(init, agent, date)| + (if connected then 1 else 0);
    }
  }

  /** The totals of a single row. */
  lemma GroupTallySingle(x: CallRecord, agent: string, date: Dates.Date)
    ensures GroupTally([x], agent, date) == if InGroup(x, agent, date) then TallyOf(x.dur) else NoCalls
  {
    assert [x][1..] == [];
  }

  /** The totals with one more row at the end. */
  lemma GroupTallySnoc(rs: seq<CallRecord>, agent: string, date: Dates.Date)
    requires |rs| > 0
    ensures GroupTally(rs, agent, date) == GroupTally(rs[..|rs| - 1], agent, date).Plus(
      if InGroup(rs[|rs| - 1], agent, date) then TallyOf(rs[|rs| - 1].dur) else NoCalls)
  {
    var n := |rs| - 1;
    assert rs == rs[..n] + [rs[n]];
    GroupTallyAppend(rs[..n], [rs[n]], agent, date);
    GroupTallySingle(rs[n], agent, date);
  }
}
