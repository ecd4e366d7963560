/** The loop that the reconciliation steps of `moobot/events.py` share: the
    rows of the event table that a step selects are visited in table order,
    and each is acted on, stored and committed, until an exception ends the
    step. */
module Sweeps {
  import opened Wrappers
  import opened Exceptions
  import opened Models
  import opened Platform
  import Db

  /** What acting on one selected row made: the platform effect, which takes
      a fresh id, and the row as it is stored afterwards. */
  datatype Made = Made(effect: Effect, row: Event)

  /** A step's action on one row, given the id the platform assigns next. */
  type RowAction = (Event, nat) -> Result<Made, Exception>

  /** The row an action stores keeps its key and stays well typed. */
  ghost predicate KeepsRows(act: RowAction) {
    forall e: Event, id: nat :: act(e, id).Ok? ==>
      act(e, id).value.row.id == e.id && (WellTyped(e) ==> WellTyped(act(e, id).value.row))
  }

  /** The event table, the effects log, the platform's next id, the commit
      count and whether an exception has ended the step. */
  datatype Run = Run(events: seq<Event>, log: seq<Effect>, nextId: nat, commits: nat, outcome: Outcome<Exception>)

  /** Row `i`'s turn: nothing after an exception or for a row that is not
      selected; otherwise the action's effect is made with the next id and
      its row is stored and committed, or its exception ends the step. */
  function Step(sel: Event -> bool, act: RowAction, run: Run, i: nat): (r: Run)
    requires i < |run.events|
    ensures |r.events| == |run.events|
  {
    if run.outcome.Fail? || !sel(run.events[i]) then run
    else match act(run.events[i], run.nextId)
      case Err(x) => run.(outcome := Fail(x))
      case Ok(made) => Run(run.events[i := made.row], run.log + [made.effect], run.nextId + 1, run.commits + 1, Pass)
  }

  /** The first `n` rows' turns, in table order. */
  function Swept(sel: Event -> bool, act: RowAction, start: Run, n: nat): (r: Run)
    requires n <= |start.events|
    ensures |r.events| == |start.events|
  {
    if n == 0 then start else Step(sel, act, Swept(sel, act, start, n - 1), n - 1)
  }

  /** How many of the first `n` rows are selected. */
  function Selected(sel: Event -> bool, events: seq<Event>, n: nat): nat
    requires n <= |events|
  {
    if n == 0 then 0 else Selected(sel, events, n - 1) + if sel(events[n - 1]) then 1 else 0
  }

  /** Rows that are not selected, and rows not yet reached, are as they were. */
  lemma {:induction false} SweptUntouched(sel: Event -> bool, act: RowAction, start: Run, n: nat)
    requires n <= |start.events|
    ensures var r := Swept(sel, act, start, n);
      && (forall j :: n <= j < |start.events| ==> r.events[j] == start.events[j])
      && (forall j :: 0 <= j < n && !sel(start.events[j]) ==> r.events[j] == start.events[j])
  {
    if n > 0 {
      SweptUntouched(sel, act, start, n - 1);
    }
  }

  /** An action that keeps keys and well-typedness keeps the table's. */
  lemma {:induction false} SweptKeepsRows(sel: Event -> bool, act: RowAction, start: Run, n: nat)
    requires n <= |start.events| && KeepsRows(act)
    ensures var r := Swept(sel, act, start, n);
      && (forall j :: 0 <= j < |start.events| ==> r.events[j].id == start.events[j].id)
      && (forall j :: 0 <= j < |start.events| && WellTyped(start.events[j]) ==> WellTyped(r.events[j]))
  {
    if n > 0 {
      SweptKeepsRows(sel, act, start, n - 1);
      SweptUntouched(sel, act, start, n - 1);
    }
  }

  /** A step that started cleanly and raised nothing took one id, one effect
      and one commit per selected row, and kept the log it started with. */
  lemma {:induction false} SweptCounts(sel: Event -> bool, act: RowAction, start: Run, n: nat)
    requires n <= |start.events| && start.outcome.Pass?
    ensures var r := Swept(sel, act, start, n);
      r.outcome.Pass? ==>
        && r.nextId == start.nextId + Selected(sel, start.events, n)
        && r.commits == start.commits + Selected(sel, start.events, n)
        && |r.log| == |start.log| + Selected(sel, start.events, n)
        && r.log[..|start.log|] == start.log
  {
    if n > 0 {
      SweptCounts(sel, act, start, n - 1);
      SweptUntouched(sel, act, start, n - 1);
      var prev := Swept(sel, act, start, n - 1);
      var r := Swept(sel, act, start, n);
      if r.outcome.Pass? && sel(start.events[n - 1]) {
        assert r.log == prev.log + [act(prev.events[n - 1], prev.nextId).value.effect];
        assert r.log[..|start.log|] == prev.log[..|start.log|];
      }
    }
  }

  /** In a step that raised nothing, a selected row `j` took the id after
      those of the selected rows before it, and holds what the action made
      of it with that id; the effect made is the log's entry for that id. */
  lemma {:induction false} SweptMade(sel: Event -> bool, act: RowAction, start: Run, n: nat, j: nat)
    requires j < n <= |start.events| && start.outcome.Pass? && sel(start.events[j])
    requires Swept(sel, act, start, n).outcome.Pass?
    ensures var r := Swept(sel, act, start, n);
      && |start.log| + Selected(sel, start.events, j) < |r.log|
      && act(start.events[j], start.nextId + Selected(sel, start.events, j))
         == Ok(Made(r.log[|start.log| + Selected(sel, start.events, j)], r.events[j]))
  {
    var prev := Swept(sel, act, start, n - 1);
    var r := Swept(sel, act, start, n);
    var k := |start.log| + Selected(sel, start.events, j);
    assert prev.outcome.Pass?;
    SweptCounts(sel, act, start, n - 1);
    if j < n - 1 {
      SweptMade(sel, act, start, n - 1, j);
      if sel(prev.events[n - 1]) {
        var made := act(prev.events[n - 1], prev.nextId).value;
        assert r.events[j] == prev.events[j];
        assert r.log == prev.log + [made.effect];
        assert r.log[k] == prev.log[k];
      }
    } else {
      SweptUntouched(sel, act, start, n - 1);
      var made := act(prev.events[n - 1], prev.nextId).value;
      assert prev.events[n - 1] == start.events[j];
      assert k == |prev.log|;
      assert r.log == prev.log + [made.effect];
      assert r.events[j] == made.row;
    }
  }

  /** An exception that ends a step is the action's, on a selected row,
      raised when that row's turn came. */
  lemma {:induction false} SweptFailure(sel: Event -> bool, act: RowAction, start: Run, n: nat)
    requires n <= |start.events| && start.outcome.Pass?
    ensures var r := Swept(sel, act, start, n);
      r.outcome.Fail? ==>
        exists j :: 0 <= j < n && sel(start.events[j])
          && act(start.events[j], start.nextId + Selected(sel, start.events, j)) == Err(r.outcome.error)
  {
    if n > 0 {
      SweptFailure(sel, act, start, n - 1);
      var prev := Swept(sel, act, start, n - 1);
      var r := Swept(sel, act, start, n);
      if r.outcome.Fail? && prev.outcome.Pass? {
        SweptUntouched(sel, act, start, n - 1);
        SweptCounts(sel, act, start, n - 1);
        assert start.events[n - 1] == prev.events[n - 1];
      }
    }
  }

  /** A step that finds nothing selected changes nothing. */
  lemma {:induction false} SweptQuiet(sel: Event -> bool, act: RowAction, start: Run, n: nat)
    requires n <= |start.events|
    requires forall j :: 0 <= j < n ==> !sel(start.events[j])
    ensures Swept(sel, act, start, n) == start
  {
    if n > 0 {
      SweptQuiet(sel, act, start, n - 1);
    }
  }

  /** When what the action stores is no longer selected, a second run of a
      step after one that raised nothing finds nothing left to do. */
  lemma SweepIdempotent(sel: Event -> bool, act: RowAction, start: Run)
    requires start.outcome.Pass?
    requires forall e: Event, id: nat :: act(e, id).Ok? ==> !sel(act(e, id).value.row)
    requires Swept(sel, act, start, |start.events|).outcome.Pass?
    ensures var r := Swept(sel, act, start, |start.events|);
      Swept(sel, act, r, |r.events|) == r
  {
    var r := Swept(sel, act, start, |start.events|);
    SweptUntouched(sel, act, start, |start.events|);
    forall j | 0 <= j < |r.events|
      ensures !sel(r.events[j])
    {
      if sel(start.events[j]) {
        SweptMade(sel, act, start, |start.events|, j);
        var id := start.nextId + Selected(sel, start.events, j);
        assert act(start.events[j], id).value.row == r.events[j];
      }
    }
    SweptQuiet(sel, act, r, |r.events|);
  }

  /** An action that always raises makes nothing: the step raises exactly
      when some row is selected, and the table and the log stay as they
      were. */
  lemma {:induction false} SweptNothingMade(sel: Event -> bool, act: RowAction, start: Run, n: nat)
    requires n <= |start.events| && start.outcome.Pass?
    requires forall e: Event, id: nat :: act(e, id).Err?
    ensures var r := Swept(sel, act, start, n);
      && r.events == start.events && r.log == start.log && r.nextId == start.nextId
      && r.commits == start.commits
      && (r.outcome.Fail? <==> exists j :: 0 <= j < n && sel(start.events[j]))
  {
    if n > 0 {
      SweptNothingMade(sel, act, start, n - 1);
      var prev := Swept(sel, act, start, n - 1);
      if prev.outcome.Pass? && sel(start.events[n - 1]) {
        assert act(prev.events[n - 1], prev.nextId).Err?;
      }
    }
  }

  /** Once an exception has ended a step, the rows after it are not visited. */
  lemma {:induction false} SweptStops(sel: Event -> bool, act: RowAction, start: Run, i: nat, n: nat)
    requires i <= n <= |start.events|
    requires Swept(sel, act, start, i).outcome.Fail?
    ensures Swept(sel, act, start, n) == Swept(sel, act, start, i)
    decreases n
  {
    if n > i {
      SweptStops(sel, act, start, i, n - 1);
    }
  }

  /** The loop itself: the selected rows one at a time in table order, each
      acted on, its effect made, its row stored and committed; an exception
      ends the step and leaves the rows after it. */
  method Sweep(s: Db.Store, c: Client, sel: Event -> bool, act: RowAction) returns (r: Outcome<Exception>)
    requires s.Valid() && KeepsRows(act)
    modifies s, c
    ensures s.Valid()
    ensures Run(s.events, c.log, c.nextId, s.commits, r)
            == Swept(sel, act, Run(old(s.events), old(c.log), old(c.nextId), old(s.commits), Pass), |old(s.events)|)
    ensures s.State() == old(s.State()).(events := s.events, commits := s.commits)
  {
    ghost var start := Run(s.events, c.log, c.nextId, s.commits, Pass);
    r := Pass;
    var i := 0;
    while i < |s.events| && r.Pass?
      invariant i <= |s.events| == |start.events|
      invariant Run(s.events, c.log, c.nextId, s.commits, r) == Swept(sel, act, start, i)
      invariant s.State() == old(s.State()).(events := s.events, commits := s.commits)
    {
      var e := s.events[i];
      if sel(e) {
        var made := act(e, c.nextId);
        if made.Err? {
          r := Fail(made.error);
        } else {
          var _ := c.NewId();
          c.Record(made.value.effect);
          s.events := s.events[i := made.value.row];
          s.commits := s.commits + 1;
        }
      }
      i := i + 1;
    }
    if i < |s.events| {
      SweptStops(sel, act, start, i, |start.events|);
    }
    SweptKeepsRows(sel, act, start, |start.events|);
  }
}
