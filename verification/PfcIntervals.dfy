/** Pause intervals from PFC logs: simulation/parser/parse_dcn_pfc_spine_balance.py
    (and the same state machine in parse_pfc_batch.py, plot_analyze_pfc.py and
    plot_analyze_pfc_fattree.py) and the totals of parse_dcn_pfc_trigger.py.  */
module PfcIntervals {
  import opened Wrappers

  /** One log line; the node type column is not used. */
  datatype Row = Row(time: nat, node: int, ifIndex: int, pfcType: int)

  datatype Port = Port(node: int, ifIndex: int)

  datatype Interval = Interval(port: Port, start: nat, end: nat)

  function PortOf(row: Row): Port {
    Port(row.node, row.ifIndex)
  }

  // ------------------------------------------------------------ stable sort by time

  predicate Chronological(rows: seq<Row>) {
    forall i, j :: 0 <= i < j < |rows| ==> rows[i].time <= rows[j].time
  }

  function InsertRow(row: Row, rows: seq<Row>): seq<Row> {
    if rows == [] || rows[|rows| - 1].time <= row.time then rows + [row]
    else InsertRow(row, rows[..|rows| - 1]) + [rows[|rows| - 1]]
  }

  function SortRows(rows: seq<Row>): seq<Row> {
    if rows == [] then [] else InsertRow(rows[|rows| - 1], SortRows(rows[..|rows| - 1]))
  }

  lemma {:induction false} InsertKeepsOrder(row: Row, rows: seq<Row>)
    requires Chronological(rows)
    ensures Chronological(InsertRow(row, rows)) && |InsertRow(row, rows)| == |rows| + 1
    ensures var r := InsertRow(row, rows);
      r[|r| - 1].time == if rows == [] || rows[|rows| - 1].time <= row.time then row.time else rows[|rows| - 1].time
  {
    if rows == [] || rows[|rows| - 1].time <= row.time {
    } else {
      InsertKeepsOrder(row, rows[..|rows| - 1]);
    }
  }

  lemma {:induction false} SortRowsSorts(rows: seq<Row>)
    ensures Chronological(SortRows(rows)) && |SortRows(rows)| == |rows|
  {
    if rows == [] {
    } else {
      SortRowsSorts(rows[..|rows| - 1]);
      InsertKeepsOrder(rows[|rows| - 1], SortRows(rows[..|rows| - 1]));
    }
  }

  // what sorting does not do: lose, invent or exchange lines

  lemma {:induction false} InsertPermutes(row: Row, rows: seq<Row>)
    ensures multiset(InsertRow(row, rows)) == multiset(rows) + multiset{row}
  {
    if rows == [] || rows[|rows| - 1].time <= row.time {
    } else {
      var before, e := rows[..|rows| - 1], rows[|rows| - 1];
      assert rows == before + [e];
      InsertPermutes(row, before);
    }
  }

  lemma {:induction false} SortPermutes(rows: seq<Row>)
    ensures multiset(SortRows(rows)) == multiset(rows)
  {
    if rows == [] {
    } else {
      var before, e := rows[..|rows| - 1], rows[|rows| - 1];
      assert rows == before + [e];
      SortPermutes(before);
      InsertPermutes(e, SortRows(before));
    }
  }

  /** The lines of one instant, in order. */
  function AtTime(rows: seq<Row>, u: int): seq<Row> {
    if rows == [] then []
    else
      var e := rows[|rows| - 1];
      AtTime(rows[..|rows| - 1], u) + (if e.time == u then [e] else [])
  }

  lemma AtTimeSnoc(rows: seq<Row>, e: Row, u: int)
    ensures AtTime(rows + [e], u) == if e.time == u then AtTime(rows, u) + [e] else AtTime(rows, u)
  {
    assert (rows + [e])[..|rows|] == rows;
  }

  lemma {:induction false} InsertIsStable(row: Row, rows: seq<Row>, u: int)
    requires Chronological(rows)
    ensures AtTime(InsertRow(row, rows), u) == AtTime(rows + [row], u)
  {
    hide AtTime;
    if rows == [] || rows[|rows| - 1].time <= row.time {
    } else {
      var before, e := rows[..|rows| - 1], rows[|rows| - 1];
      assert rows == before + [e];
      InsertIsStable(row, before, u);
      AtTimeSnoc(InsertRow(row, before), e, u);
      AtTimeSnoc(before, row, u);
      AtTimeSnoc(before, e, u);
      AtTimeSnoc(rows, row, u);
      NoneBetween(row, e, u, AtTime(before, u));
    }
  }

  lemma NoneBetween(row: Row, e: Row, u: int, q: seq<Row>)
    requires row.time < e.time
    ensures q + [] == q && (row.time != u || e.time != u)
  {
  }

  /** The sort is stable: lines of the same instant keep their order. */
  lemma {:induction false} SortIsStable(rows: seq<Row>, u: int)
    ensures AtTime(SortRows(rows), u) == AtTime(rows, u)
  {
    hide AtTime;
    if rows == [] {
    } else {
      var before, e := rows[..|rows| - 1], rows[|rows| - 1];
      assert rows == before + [e];
      SortIsStable(before, u);
      SortRowsSorts(before);
      InsertIsStable(e, SortRows(before), u);
      AtTimeSnoc(SortRows(before), e, u);
      AtTimeSnoc(before, e, u);
    }
  }

  /** Sorting puts the lines in order of time and does nothing else. */
  lemma SortMeaning(rows: seq<Row>)
    ensures Chronological(SortRows(rows)) && multiset(SortRows(rows)) == multiset(rows)
    ensures forall u: int :: AtTime(SortRows(rows), u) == AtTime(rows, u)
    ensures Chronological(rows) ==> SortRows(rows) == rows
  {
    SortRowsSorts(rows);
    SortPermutes(rows);
    forall u: int ensures AtTime(SortRows(rows), u) == AtTime(rows, u) {
      SortIsStable(rows, u);
    }
    if Chronological(rows) {
      SortedAlready(rows);
    }
  }

  lemma {:induction false} SortedAlready(rows: seq<Row>)
    requires Chronological(rows)
    ensures SortRows(rows) == rows
  {
    if rows == [] {
    } else {
      SortedAlready(rows[..|rows| - 1]);
    }
  }

  /** Time of the last line of the sorted log. */
  function EndTime(rows: seq<Row>): nat {
    var s := SortRows(rows);
    if s == [] then 0 else s[|s| - 1].time
  }

  /** That is the greatest time in the log. */
  lemma EndTimeIsLatest(rows: seq<Row>)
    ensures forall r :: r in rows ==> r.time <= EndTime(rows)
    ensures rows == [] ==> EndTime(rows) == 0
    ensures rows != [] ==> exists r :: r in rows && r.time == EndTime(rows)
  {
    var s := SortRows(rows);
    SortRowsSorts(rows);
    SortPermutes(rows);
    forall r | r in rows ensures r.time <= EndTime(rows) {
      assert r in multiset(s);
      var i :| 0 <= i < |s| && s[i] == r;
    }
    if rows != [] {
      var last := s[|s| - 1];
      assert last in multiset(s);
      assert last in rows && last.time == EndTime(rows);
    }
  }

  /** The lines of one port, in order. */
  function EventsOf(rows: seq<Row>, p: Port): seq<Row> {
    if rows == [] then []
    else
      var e := rows[|rows| - 1];
      EventsOf(rows[..|rows| - 1], p) + (if PortOf(e) == p then [e] else [])
  }

  lemma {:induction false} EventsAreRows(rows: seq<Row>, p: Port)
    requires Chronological(rows)
    ensures Chronological(EventsOf(rows, p)) && |EventsOf(rows, p)| <= |rows|
    ensures forall i :: 0 <= i < |EventsOf(rows, p)| ==>
      EventsOf(rows, p)[i].time <= rows[|rows| - 1].time && PortOf(EventsOf(rows, p)[i]) == p
  {
    if rows == [] {
    } else {
      EventsAreRows(rows[..|rows| - 1], p);
    }
  }

  lemma EventsOfSnoc(rows: seq<Row>, e: Row, p: Port)
    ensures EventsOf(rows + [e], p) == if PortOf(e) == p then EventsOf(rows, p) + [e] else EventsOf(rows, p)
  {
    assert (rows + [e])[..|rows|] == rows;
  }

  lemma InsertBelow(row: Row, rows: seq<Row>, e: Row)
    requires e.time > row.time
    ensures InsertRow(row, rows + [e]) == InsertRow(row, rows) + [e]
  {
    assert (rows + [e])[..|rows|] == rows;
  }

  lemma {:induction false} EventsOfInsert(row: Row, rows: seq<Row>, p: Port)
    requires Chronological(rows)
    ensures EventsOf(InsertRow(row, rows), p)
         == if PortOf(row) == p then InsertRow(row, EventsOf(rows, p)) else EventsOf(rows, p)
  {
    if rows == [] || rows[|rows| - 1].time <= row.time {
      EventsOfSnoc(rows, row, p);
      EventsAreRows(rows, p);
    } else {
      var before, e := rows[..|rows| - 1], rows[|rows| - 1];
      assert rows == before + [e];
      EventsOfInsert(row, before, p);
      EventsOfSnoc(InsertRow(row, before), e, p);
      EventsOfSnoc(before, e, p);
      InsertBelow(row, EventsOf(before, p), e);
    }
  }

  /** Sorting the log sorts each port's lines among themselves. */
  lemma {:induction false} EventsOfSorted(rows: seq<Row>, p: Port)
    ensures EventsOf(SortRows(rows), p) == SortRows(EventsOf(rows, p))
  {
    if rows == [] {
    } else {
      var before, e := rows[..|rows| - 1], rows[|rows| - 1];
      assert rows == before + [e];
      EventsOfSorted(before, p);
      SortRowsSorts(before);
      EventsOfInsert(e, SortRows(before), p);
      EventsOfSnoc(before, e, p);
      var es := EventsOf(before, p);
      assert (es + [e])[..|es|] == es;
    }
  }

  // ------------------------------------------------------------ the specification

  predicate AllAt(events: seq<Row>, p: Port) {
    forall i :: 0 <= i < |events| ==> PortOf(events[i]) == p
  }

  /** A line that pauses or resumes port `p`. */
  predicate Switches(r: Row, p: Port) {
    PortOf(r) == p && (r.pfcType == 0 || r.pfcType == 1)
  }

  /** Line `i` of the log is port `p`'s latest switch at or before `t`; of
      several at the same time the last one in the log counts.  */
  ghost predicate LatestSwitch(rows: seq<Row>, p: Port, t: int, i: int) {
    && 0 <= i < |rows| && Switches(rows[i], p) && rows[i].time <= t
    && forall j :: 0 <= j < |rows| && Switches(rows[j], p) && rows[j].time <= t ==>
         rows[j].time < rows[i].time || (rows[j].time == rows[i].time && j <= i)
  }

  /** The port is paused at time `t`: its latest switch is a pause. */
  ghost predicate Paused(rows: seq<Row>, p: Port, t: int) {
    exists i :: LatestSwitch(rows, p, t, i) && rows[i].pfcType == 1
  }

  /** Number of instants before `n` at which the port is paused. */
  ghost function PausedInstants(rows: seq<Row>, p: Port, n: nat): nat {
    if n == 0 then 0 else PausedInstants(rows, p, n - 1) + (if Paused(rows, p, n - 1) then 1 else 0)
  }

  /** For how many instants of the log port `p` is paused. */
  ghost function PausedPort(rows: seq<Row>, p: Port): nat {
    PausedInstants(rows, p, EndTime(rows))
  }

  /** The same on the sorted lines of one port: the last switch counts. */
  predicate PausedAt(events: seq<Row>, t: int) {
    events != [] &&
    var e := events[|events| - 1];
    if e.time <= t && e.pfcType == 1 then true
    else if e.time <= t && e.pfcType == 0 then false
    else PausedAt(events[..|events| - 1], t)
  }

  /** Some switch of the port is after `u` and not after `t`. */
  ghost predicate SwitchAfter(rows: seq<Row>, p: Port, u: int, t: int) {
    exists r :: r in rows && Switches(r, p) && u < r.time <= t
  }

  /** What one more line does to the specification ... */
  lemma PausedStep(rows: seq<Row>, e: Row, p: Port, t: int)
    ensures Paused(rows + [e], p, t)
      <==> if Switches(e, p) && e.time <= t && !SwitchAfter(rows, p, e.time, t) then e.pfcType == 1
           else Paused(rows, p, t)
  {
    var n := |rows|;
    var all := rows + [e];
    if Switches(e, p) && e.time <= t && !SwitchAfter(rows, p, e.time, t) {
      forall j | 0 <= j < |all| && Switches(all[j], p) && all[j].time <= t
        ensures all[j].time <= e.time
      {
        assert j < n ==> all[j] in rows;
      }
      assert LatestSwitch(all, p, t, n);
    } else {
      forall i: int ensures LatestSwitch(all, p, t, i) <==> LatestSwitch(rows, p, t, i) {
        LatestStep(rows, e, p, t, i);
      }
    }
  }

  lemma LatestStep(rows: seq<Row>, e: Row, p: Port, t: int, i: int)
    requires !(Switches(e, p) && e.time <= t) || SwitchAfter(rows, p, e.time, t)
    ensures LatestSwitch(rows + [e], p, t, i) <==> LatestSwitch(rows, p, t, i)
  {
    var all := rows + [e];
    assert forall j :: 0 <= j < |rows| ==> all[j] == rows[j];
    if Switches(e, p) && e.time <= t {
      var r :| r in rows && Switches(r, p) && e.time < r.time <= t;
      var k :| 0 <= k < |rows| && rows[k] == r;
      assert all[k] == r && all[|rows|] == e;
    }
  }

  /** ... and what inserting it does to the sorted lines.  */
  lemma {:induction false} PausedAtInsert(e: Row, events: seq<Row>, p: Port, t: int)
    requires Chronological(events) && AllAt(events, p) && PortOf(e) == p
    ensures PausedAt(InsertRow(e, events), t)
      <==> if Switches(e, p) && e.time <= t && !SwitchAfter(events, p, e.time, t) then e.pfcType == 1
           else PausedAt(events, t)
  {
    if events == [] || events[|events| - 1].time <= e.time {
      forall r | r in events ensures r.time <= e.time {
        var i :| 0 <= i < |events| && events[i] == r;
      }
      PausedAtSnoc(events, e, t);
    } else {
      var before, last := events[..|events| - 1], events[|events| - 1];
      assert events == before + [last];
      PausedAtInsert(e, before, p, t);
      PausedAtSnoc(InsertRow(e, before), last, t);
      PausedAtSnoc(before, last, t);
      SwitchAfterSnoc(before, last, p, e.time, t);
    }
  }

  lemma PausedAtSnoc(events: seq<Row>, e: Row, t: int)
    ensures PausedAt(events + [e], t)
      <==> if e.time <= t && (e.pfcType == 0 || e.pfcType == 1) then e.pfcType == 1 else PausedAt(events, t)
  {
    assert (events + [e])[..|events|] == events;
  }

  lemma SwitchAfterSnoc(rows: seq<Row>, e: Row, p: Port, u: int, t: int)
    ensures SwitchAfter(rows + [e], p, u, t)
      <==> SwitchAfter(rows, p, u, t) || (Switches(e, p) && u < e.time <= t)
  {
    assert e in rows + [e];
    if r :| r in rows && Switches(r, p) && u < r.time <= t {
      assert r in rows + [e];
    }
  }

  /** Only the port's own lines matter, in whatever order. */
  lemma {:induction false} SwitchAfterOwn(rows: seq<Row>, p: Port, u: int, t: int)
    ensures SwitchAfter(EventsOf(rows, p), p, u, t) <==> SwitchAfter(rows, p, u, t)
  {
    hide SwitchAfter;
    if rows == [] {
    } else {
      var before, e := rows[..|rows| - 1], rows[|rows| - 1];
      assert rows == before + [e];
      SwitchAfterOwn(before, p, u, t);
      EventsOfSnoc(before, e, p);
      SwitchAfterSnoc(before, e, p, u, t);
      SwitchAfterSnoc(EventsOf(before, p), e, p, u, t);
    }
  }

  lemma SwitchAfterSorted(rows: seq<Row>, p: Port, u: int, t: int)
    ensures SwitchAfter(SortRows(rows), p, u, t) <==> SwitchAfter(rows, p, u, t)
  {
    SortPermutes(rows);
    forall r: Row ensures r in SortRows(rows) <==> r in rows {
      assert r in multiset(SortRows(rows)) <==> r in multiset(rows);
    }
  }

  /** The latest switch in the log is the last one in the port's sorted lines. */
  lemma {:induction false} SortedLinesTell(rows: seq<Row>, p: Port, t: int)
    ensures PausedAt(EventsOf(SortRows(rows), p), t) <==> Paused(rows, p, t)
  {
    EventsOfSorted(rows, p);
    if rows == [] {
    } else {
      var before, e := rows[..|rows| - 1], rows[|rows| - 1];
      assert rows == before + [e];
      SortedLinesTell(before, p, t);
      EventsOfSorted(before, p);
      EventsOfSnoc(before, e, p);
      PausedStep(before, e, p, t);
      if PortOf(e) == p {
        SortOneMore(before, e, p, t);
      }
    }
  }

  lemma SortOneMore(before: seq<Row>, e: Row, p: Port, t: int)
    requires PortOf(e) == p
    ensures PausedAt(SortRows(EventsOf(before, p) + [e]), t)
      <==> if Switches(e, p) && e.time <= t && !SwitchAfter(before, p, e.time, t) then e.pfcType == 1
           else PausedAt(SortRows(EventsOf(before, p)), t)
  {
    hide PausedAt, SwitchAfter, InsertRow;
    var q := EventsOf(before, p);
    assert (q + [e])[..|q|] == q;
    SortRowsSorts(q);
    SortedAt(before, p);
    PausedAtInsert(e, SortRows(q), p, t);
    SwitchAfterSorted(q, p, e.time, t);
    SwitchAfterOwn(before, p, e.time, t);
  }

  lemma SortedAt(rows: seq<Row>, p: Port)
    ensures AllAt(SortRows(EventsOf(rows, p)), p)
  {
    EventsOfSorted(rows, p);
    SortRowsSorts(rows);
    EventsAreRows(SortRows(rows), p);
  }

  predicate Covered(ivs: seq<Interval>, t: int) {
    exists i :: 0 <= i < |ivs| && ivs[i].start <= t < ivs[i].end
  }

  /** In order, not overlapping, and none after `limit`. */
  predicate Disjoint(ivs: seq<Interval>, limit: nat) {
    && (forall i :: 0 <= i < |ivs| ==> ivs[i].start <= ivs[i].end <= limit)
    && (forall i, j :: 0 <= i < j < |ivs| ==> ivs[i].end <= ivs[j].start)
  }

  function Duration(ivs: seq<Interval>): int {
    if ivs == [] then 0
    else Duration(ivs[..|ivs| - 1]) + (ivs[|ivs| - 1].end - ivs[|ivs| - 1].start)
  }

  // ------------------------------------------------------------ the state machine

  datatype Scan = Scan(open: Option<nat>, done: seq<Interval>)

  function Step(s: Scan, e: Row): Scan {
    if e.pfcType == 1 then
      if s.open.None? then s.(open := Some(e.time)) else s
    else if e.pfcType == 0 then
      if s.open.Some? then Scan(None, s.done + [Interval(PortOf(e), s.open.value, e.time)]) else s
    else s
  }

  function ScanAll(events: seq<Row>): Scan {
    if events == [] then Scan(None, [])
    else Step(ScanAll(events[..|events| - 1]), events[|events| - 1])
  }

  /** A pause still open at the end of the log lasts until the end. */
  function Close(s: Scan, p: Port, end: nat): seq<Interval> {
    if s.open.Some? then s.done + [Interval(p, s.open.value, end)] else s.done
  }

  function PortIntervals(rows: seq<Row>, p: Port): seq<Interval> {
    Close(ScanAll(EventsOf(SortRows(rows), p)), p, EndTime(rows))
  }

  /** The machine has closed exactly the past pauses and knows the current one. */
  ghost predicate ScanOk(events: seq<Row>, s: Scan, now: nat) {
    && Disjoint(s.done, now)
    && (s.open.Some? ==> s.open.value <= now && forall i :: 0 <= i < |s.done| ==> s.done[i].end <= s.open.value)
    && forall t: int :: PausedAt(events, t) <==> Covered(s.done, t) || (s.open.Some? && s.open.value <= t)
  }

  lemma StepOk(events: seq<Row>, s: Scan, e: Row, now: nat)
    requires ScanOk(events, s, now) && now <= e.time
    ensures ScanOk(events + [e], Step(s, e), e.time)
  {
    var u := Step(s, e);
    var es := events + [e];
    assert es[..|es| - 1] == events;
    forall t: int ensures PausedAt(es, t) <==> Covered(u.done, t) || (u.open.Some? && u.open.value <= t) {
      assert PausedAt(events, t) <==> Covered(s.done, t) || (s.open.Some? && s.open.value <= t);
      CoveredStep(s, e, t);
    }
  }

  lemma CoveredStep(s: Scan, e: Row, t: int)
    ensures Covered(Step(s, e).done, t) <==>
      Covered(s.done, t) || (e.pfcType == 0 && s.open.Some? && s.open.value <= t < e.time)
  {
    var d := Step(s, e).done;
    if Covered(s.done, t) {
      var i :| 0 <= i < |s.done| && s.done[i].start <= t < s.done[i].end;
      assert d[i] == s.done[i];
    }
    if |d| > |s.done| && s.open.value <= t < e.time {
      assert d[|s.done|].start <= t < d[|s.done|].end;
    }
  }

  lemma {:induction false} ScanAllOk(events: seq<Row>)
    requires Chronological(events)
    ensures ScanOk(events, ScanAll(events), if events == [] then 0 else events[|events| - 1].time)
  {
    if events == [] {
    } else {
      var n := |events| - 1;
      ScanAllOk(events[..n]);
      StepOk(events[..n], ScanAll(events[..n]), events[n], if n == 0 then 0 else events[n - 1].time);
      assert events == events[..n] + [events[n]];
    }
  }

  /** The intervals of a port are ordered and disjoint, and an instant before
      the end of the log is covered exactly if the port is paused then.  */
  lemma IntervalsMeanPaused(rows: seq<Row>, p: Port)
    ensures Disjoint(PortIntervals(rows, p), EndTime(rows))
    ensures forall t: int :: t < EndTime(rows) ==> (Covered(PortIntervals(rows, p), t) <==> Paused(rows, p, t))
    ensures forall i :: 0 <= i < |PortIntervals(rows, p)| ==> PortIntervals(rows, p)[i].port == p
  {
    var sorted := SortRows(rows);
    var events := EventsOf(sorted, p);
    SortRowsSorts(rows);
    EventsAreRows(sorted, p);
    ScanAllOk(events);
    LabelsOk(events, p);
    var s := ScanAll(events);
    var ivs := PortIntervals(rows, p);
    forall t: int | t < EndTime(rows) ensures Covered(ivs, t) <==> Paused(rows, p, t) {
      SortedLinesTell(rows, p, t);
      assert PausedAt(events, t) <==> Covered(s.done, t) || (s.open.Some? && s.open.value <= t);
      CoveredClose(s, p, EndTime(rows), t);
    }
  }

  lemma CoveredClose(s: Scan, p: Port, end: nat, t: int)
    ensures Covered(Close(s, p, end), t) <==> Covered(s.done, t) || (s.open.Some? && s.open.value <= t < end)
  {
    var d := Close(s, p, end);
    if Covered(s.done, t) {
      var i :| 0 <= i < |s.done| && s.done[i].start <= t < s.done[i].end;
      assert d[i] == s.done[i];
    }
    if s.open.Some? && s.open.value <= t < end {
      assert d[|s.done|].start <= t < d[|s.done|].end;
    }
  }

  lemma {:induction false} LabelsOk(events: seq<Row>, p: Port)
    requires forall i :: 0 <= i < |events| ==> PortOf(events[i]) == p
    ensures forall i :: 0 <= i < |ScanAll(events).done| ==> ScanAll(events).done[i].port == p
  {
    if events == [] {
    } else {
      LabelsOk(events[..|events| - 1], p);
    }
  }

  // ------------------------------------------------------------ totals

  function CoveredInstants(ivs: seq<Interval>, n: nat): nat {
    if n == 0 then 0 else CoveredInstants(ivs, n - 1) + (if Covered(ivs, n - 1) then 1 else 0)
  }

  function Clamp(x: int, hi: int): int {
    if x < 0 then 0 else if x > hi then hi else x
  }

  lemma {:induction false} OneMoreInterval(ivs: seq<Interval>, iv: Interval, n: nat)
    requires iv.start <= iv.end && forall i :: 0 <= i < |ivs| ==> ivs[i].end <= iv.start
    ensures CoveredInstants(ivs + [iv], n)
         == CoveredInstants(ivs, if n <= iv.start then n else iv.start) + Clamp(n - iv.start, iv.end - iv.start)
  {
    if n == 0 {
    } else {
      OneMoreInterval(ivs, iv, n - 1);
      var t := n - 1;
      var all := ivs + [iv];
      if Covered(ivs, t) {
        var i :| 0 <= i < |ivs| && ivs[i].start <= t < ivs[i].end;
        assert all[i] == ivs[i];
      }
      if iv.start <= t < iv.end {
        assert all[|ivs|] == iv;
      }
    }
  }

  /** Disjoint intervals last as long as the instants they cover are many. */
  lemma {:induction false} DurationCounts(ivs: seq<Interval>, n: nat)
    requires Disjoint(ivs, n)
    ensures Duration(ivs) == CoveredInstants(ivs, n)
  {
    if ivs == [] {
      NothingCovered(n);
    } else {
      var k := |ivs| - 1;
      assert ivs == ivs[..k] + [ivs[k]];
      DurationCounts(ivs[..k], ivs[k].start);
      OneMoreInterval(ivs[..k], ivs[k], n);
    }
  }

  lemma {:induction false} NothingCovered(n: nat)
    ensures CoveredInstants([], n) == 0
  {
    if n == 0 {
    } else {
      NothingCovered(n - 1);
    }
  }

  lemma {:induction false} SameInstants(ivs: seq<Interval>, rows: seq<Row>, p: Port, n: nat)
    requires forall t: int :: t < n ==> (Covered(ivs, t) <==> Paused(rows, p, t))
    ensures CoveredInstants(ivs, n) == PausedInstants(rows, p, n)
  {
    if n == 0 {
    } else {
      SameInstants(ivs, rows, p, n - 1);
    }
  }

  /** A port's total pause time is the number of instants at which it is paused. */
  lemma TotalIsPausedTime(rows: seq<Row>, p: Port)
    ensures Duration(PortIntervals(rows, p)) == PausedPort(rows, p)
  {
    IntervalsMeanPaused(rows, p);
    DurationCounts(PortIntervals(rows, p), EndTime(rows));
    SameInstants(PortIntervals(rows, p), rows, p, EndTime(rows));
  }

  /** Other ports' lines, and how they interleave, do not matter. */
  lemma InterleavingIrrelevant(a: seq<Row>, b: seq<Row>, p: Port)
    requires EventsOf(a, p) == EventsOf(b, p) && EndTime(a) == EndTime(b)
    ensures PortIntervals(a, p) == PortIntervals(b, p)
  {
    EventsOfSorted(a, p);
    EventsOfSorted(b, p);
  }

  // ------------------------------------------------------------ the parsers' loops

  /** The inner loop over one port's events. */
  method ScanPort(events: seq<Row>, p: Port, simEnd: nat) returns (intervals: seq<Interval>)
    requires AllAt(events, p)
    ensures intervals == Close(ScanAll(events), p, simEnd)
    ensures forall i :: 0 <= i < |intervals| ==> intervals[i].port == p
  {
    intervals := [];
    var lastPauseStart := None;
    for i := 0 to |events|
      invariant ScanAll(events[..i]) == Scan(lastPauseStart, intervals)
      invariant forall k :: 0 <= k < |intervals| ==> intervals[k].port == p
    {
      var row := events[i];
      assert events[..i + 1][..i] == events[..i];
      if row.pfcType == 1 {
        if lastPauseStart.None? {
          lastPauseStart := Some(row.time);
        }
      } else if row.pfcType == 0 {
        if lastPauseStart.Some? {
          intervals := intervals + [Interval(p, lastPauseStart.value, row.time)];
          lastPauseStart := None;
        }
      }
    }
    assert events[..|events|] == events;
    if lastPauseStart.Some? {
      intervals := intervals + [Interval(p, lastPauseStart.value, simEnd)];
    }
  }

  /** The ports in order of their first line. */
  function PortsOf(rows: seq<Row>): seq<Port> {
    if rows == [] then []
    else
      var ps := PortsOf(rows[..|rows| - 1]);
      var p := PortOf(rows[|rows| - 1]);
      if p in ps then ps else ps + [p]
  }

  predicate Distinct(ps: seq<Port>) {
    forall i, j :: 0 <= i < j < |ps| ==> ps[i] != ps[j]
  }

  /** The first line of port `p` is line `i`. */
  predicate FirstLine(rows: seq<Row>, p: Port, i: int) {
    0 <= i < |rows| && PortOf(rows[i]) == p && forall j :: 0 <= j < i ==> PortOf(rows[j]) != p
  }

  /** Ports are listed in the order of their first lines. */
  lemma {:induction false} PortsByFirstLine(rows: seq<Row>, a: nat, b: nat) returns (i: int, j: int)
    requires a < b < |PortsOf(rows)|
    ensures FirstLine(rows, PortsOf(rows)[a], i) && FirstLine(rows, PortsOf(rows)[b], j) && i < j
  {
    var n := |rows| - 1;
    var before := PortsOf(rows[..n]);
    if b < |before| {
      i, j := PortsByFirstLine(rows[..n], a, b);
    } else {
      i := FirstLineOf(rows[..n], a);
      j := n;
      forall k | 0 <= k < n ensures PortOf(rows[k]) != PortOf(rows[n]) {
        assert rows[..n][k] == rows[k];
        PortIsListed(rows[..n], k);
      }
    }
  }

  lemma {:induction false} FirstLineOf(rows: seq<Row>, a: nat) returns (i: int)
    requires a < |PortsOf(rows)|
    ensures FirstLine(rows, PortsOf(rows)[a], i)
  {
    var n := |rows| - 1;
    if a < |PortsOf(rows[..n])| {
      i := FirstLineOf(rows[..n], a);
    } else {
      i := n;
      forall k | 0 <= k < n ensures PortOf(rows[k]) != PortOf(rows[n]) {
        assert rows[..n][k] == rows[k];
        PortIsListed(rows[..n], k);
      }
    }
  }

  lemma {:induction false} PortIsListed(rows: seq<Row>, k: nat)
    requires k < |rows|
    ensures PortOf(rows[k]) in PortsOf(rows)
  {
    var n := |rows| - 1;
    if k == n {
    } else {
      PortIsListed(rows[..n], k);
    }
  }

  lemma {:induction false} PortsAreDistinct(rows: seq<Row>)
    ensures Distinct(PortsOf(rows))
  {
    if rows == [] {
    } else {
      PortsAreDistinct(rows[..|rows| - 1]);
    }
  }

  /** A port that is not listed has no lines. */
  lemma {:induction false} UnlistedPort(rows: seq<Row>, p: Port)
    requires p !in PortsOf(rows)
    ensures EventsOf(rows, p) == []
  {
    if rows == [] {
    } else {
      UnlistedPort(rows[..|rows| - 1], p);
    }
  }

  /** Intervals of several ports, one port after the other. */
  function AllIntervals(rows: seq<Row>, ps: seq<Port>): seq<Interval> {
    if ps == [] then [] else AllIntervals(rows, ps[..|ps| - 1]) + PortIntervals(rows, ps[|ps| - 1])
  }

  lemma NoPorts()
    ensures PortsOf(SortRows([])) == []
  {
  }

  /** `process_pfc_log` on the parsed lines. */
  method ProcessLog(rows: seq<Row>) returns (intervals: seq<Interval>)
    ensures intervals == AllIntervals(rows, PortsOf(SortRows(rows)))
  {
    hide SortRows, PortsOf, EventsOf, ScanAll, Close;
    intervals := [];
    if rows == [] {
      NoPorts();
      return;
    }
    SortRowsSorts(rows);
    var sorted := SortRows(rows);
    var end := sorted[|sorted| - 1].time;
    var order, events := GroupByPort(sorted);
    for i := 0 to |order|
      invariant intervals == AllIntervals(rows, order[..i])
    {
      var p := order[i];
      EventsAreRows(sorted, p);
      var found := ScanPort(events[p], p, end);
      intervals := intervals + found;
      assert order[..i + 1][..i] == order[..i];
    }
    assert order[..|order|] == order;
  }

  method GroupByPort(rows: seq<Row>) returns (order: seq<Port>, events: map<Port, seq<Row>>)
    ensures order == PortsOf(rows)
    ensures forall p :: p in events <==> p in order
    ensures forall p :: p in events ==> events[p] == EventsOf(rows, p)
  {
    order, events := [], map[];
    for i := 0 to |rows|
      invariant order == PortsOf(rows[..i])
      invariant forall p :: p in events <==> p in order
      invariant forall p :: p in events ==> events[p] == EventsOf(rows[..i], p)
    {
      var p := PortOf(rows[i]);
      assert rows[..i + 1][..i] == rows[..i];
      if p !in events {
        UnlistedPort(rows[..i], p);
        order := order + [p];
        events := events[p := []];
      }
      events := events[p := events[p] + [rows[i]]];
    }
    assert rows[..|rows|] == rows;
  }

  function ForPort(ivs: seq<Interval>, p: Port): seq<Interval> {
    if ivs == [] then []
    else ForPort(ivs[..|ivs| - 1], p) + (if ivs[|ivs| - 1].port == p then [ivs[|ivs| - 1]] else [])
  }

  lemma {:induction false} ForPortAppend(a: seq<Interval>, b: seq<Interval>, p: Port)
    ensures ForPort(a + b, p) == ForPort(a, p) + ForPort(b, p)
  {
    if b == [] {
      assert a + b == a;
    } else {
      ForPortAppend(a, b[..|b| - 1], p);
      assert (a + b)[..|a + b| - 1] == a + b[..|b| - 1];
    }
  }

  lemma {:induction false} ForPortUniform(ivs: seq<Interval>, p: Port, q: Port)
    requires forall i :: 0 <= i < |ivs| ==> ivs[i].port == q
    ensures ForPort(ivs, p) == if p == q then ivs else []
  {
    if ivs == [] {
    } else {
      ForPortUniform(ivs[..|ivs| - 1], p, q);
    }
  }

  lemma IntervalsOfPort(rows: seq<Row>, p: Port)
    ensures forall i :: 0 <= i < |PortIntervals(rows, p)| ==> PortIntervals(rows, p)[i].port == p
  {
    IntervalsMeanPaused(rows, p);
  }

  lemma {:induction false} ForPortAll(rows: seq<Row>, ps: seq<Port>, p: Port)
    requires Distinct(ps)
    ensures ForPort(AllIntervals(rows, ps), p) == if p in ps then PortIntervals(rows, p) else []
  {
    if ps == [] {
    } else {
      hide PortIntervals, ForPort;
      var n := |ps| - 1;
      ForPortAll(rows, ps[..n], p);
      ForPortAppend(AllIntervals(rows, ps[..n]), PortIntervals(rows, ps[n]), p);
      IntervalsOfPort(rows, ps[n]);
      ForPortUniform(PortIntervals(rows, ps[n]), p, ps[n]);
    }
  }

  /** The log's intervals at a port are that port's intervals, whatever the
      other ports do.  */
  lemma LogIntervalsAtPort(rows: seq<Row>, p: Port)
    ensures ForPort(AllIntervals(rows, PortsOf(SortRows(rows))), p) == PortIntervals(rows, p)
  {
    PortsAreDistinct(SortRows(rows));
    ForPortAll(rows, PortsOf(SortRows(rows)), p);
    if p !in PortsOf(SortRows(rows)) {
      UnlistedPort(SortRows(rows), p);
      assert ScanAll(EventsOf(SortRows(rows), p)) == Scan(None, []);
    }
  }

  // ------------------------------------------------------------ totals over ports

  /** Paused instants summed over ports. */
  ghost function PausedTime(rows: seq<Row>, ps: seq<Port>): int {
    if ps == [] then 0
    else PausedTime(rows, ps[..|ps| - 1]) + PausedPort(rows, ps[|ps| - 1])
  }

  lemma {:induction false} DurationAppend(a: seq<Interval>, b: seq<Interval>)
    ensures Duration(a + b) == Duration(a) + Duration(b)
  {
    if b == [] {
      assert a + b == a;
    } else {
      DurationAppend(a, b[..|b| - 1]);
      assert (a + b)[..|a + b| - 1] == a + b[..|b| - 1];
    }
  }

  lemma {:induction false} PausedTimeAppend(rows: seq<Row>, a: seq<Port>, b: seq<Port>)
    ensures PausedTime(rows, a + b) == PausedTime(rows, a) + PausedTime(rows, b)
  {
    if b == [] {
      assert a + b == a;
    } else {
      PausedTimeAppend(rows, a, b[..|b| - 1]);
      assert (a + b)[..|a + b| - 1] == a + b[..|b| - 1];
    }
  }

  function Members(ps: seq<Port>): set<Port> {
    set p | p in ps
  }

  lemma {:induction false} DistinctSize(ps: seq<Port>)
    requires Distinct(ps)
    ensures |Members(ps)| == |ps|
  {
    if ps == [] {
    } else {
      var n := |ps| - 1;
      DistinctSize(ps[..n]);
      assert Members(ps) == Members(ps[..n]) + {ps[n]};
    }
  }

  /** The order in which ports are visited does not change the total. */
  lemma {:induction false} PortOrderIrrelevant(rows: seq<Row>, a: seq<Port>, b: seq<Port>)
    requires Distinct(a) && Distinct(b) && Members(a) == Members(b)
    ensures PausedTime(rows, a) == PausedTime(rows, b)
    decreases |a|
  {
    if a == [] {
      DistinctSize(a);
      DistinctSize(b);
    } else {
      var n := |a| - 1;
      assert a[n] in Members(b);
      var j :| 0 <= j < |b| && b[j] == a[n];
      hide PausedTime;
      WithoutOne(a, n);
      WithoutOne(b, j);
      assert a[..n] + a[n + 1..] == a[..n];
      PortOrderIrrelevant(rows, a[..n], b[..j] + b[j + 1..]);
      TakeOut(rows, a, n);
      TakeOut(rows, b, j);
    }
  }

  /** A list of distinct ports without its entry `j`. */
  lemma WithoutOne(ps: seq<Port>, j: nat)
    requires Distinct(ps) && j < |ps|
    ensures Distinct(ps[..j] + ps[j + 1..])
    ensures Members(ps[..j] + ps[j + 1..]) == Members(ps) - {ps[j]}
  {
    var c := ps[..j] + ps[j + 1..];
    assert ps == (ps[..j] + [ps[j]]) + ps[j + 1..];
    forall p ensures p in c <==> p in ps && p != ps[j] {
      if p in ps && p != ps[j] {
        var i :| 0 <= i < |ps| && ps[i] == p;
        assert c[if i < j then i else i - 1] == p;
      }
    }
  }

  lemma TakeOut(rows: seq<Row>, ps: seq<Port>, j: nat)
    requires j < |ps|
    ensures PausedTime(rows, ps) == PausedTime(rows, ps[..j] + ps[j + 1..]) + PausedPort(rows, ps[j])
  {
    var one := [ps[j]];
    assert ps == (ps[..j] + one) + ps[j + 1..];
    PausedTimeAppend(rows, ps[..j] + one, ps[j + 1..]);
    PausedTimeAppend(rows, ps[..j], one);
    PausedTimeAppend(rows, ps[..j], ps[j + 1..]);
    assert one[..0] == [];
  }

  lemma {:induction false} AllDurations(rows: seq<Row>, ps: seq<Port>)
    ensures Duration(AllIntervals(rows, ps)) == PausedTime(rows, ps)
  {
    if ps == [] {
    } else {
      var n := |ps| - 1;
      AllDurations(rows, ps[..n]);
      DurationAppend(AllIntervals(rows, ps[..n]), PortIntervals(rows, ps[n]));
      TotalIsPausedTime(rows, ps[n]);
    }
  }

  /** The durations collected for one port by the trigger parser's loop. */
  method SumPort(events: seq<Row>, p: Port, end: nat) returns (total: int)
    requires AllAt(events, p)
    ensures total == Duration(Close(ScanAll(events), p, end))
  {
    total := 0;
    var lastPauseStart := None;
    ghost var done: seq<Interval> := [];
    for i := 0 to |events|
      invariant ScanAll(events[..i]) == Scan(lastPauseStart, done)
      invariant total == Duration(done)
    {
      var row := events[i];
      assert events[..i + 1][..i] == events[..i];
      if row.pfcType == 1 && lastPauseStart.None? {
        lastPauseStart := Some(row.time);
      } else if row.pfcType == 0 && lastPauseStart.Some? {
        total := total + (row.time - lastPauseStart.value);
        DurationAppend(done, [Interval(p, lastPauseStart.value, row.time)]);
        One(Interval(p, lastPauseStart.value, row.time));
        done := done + [Interval(p, lastPauseStart.value, row.time)];
        lastPauseStart := None;
      }
    }
    assert events[..|events|] == events;
    if lastPauseStart.Some? {
      DurationAppend(done, [Interval(p, lastPauseStart.value, end)]);
      One(Interval(p, lastPauseStart.value, end));
      total := total + (end - lastPauseStart.value);
    }
  }

  lemma One(iv: Interval)
    ensures Duration([iv]) == iv.end - iv.start
  {
    assert [iv][..0] == [];
  }

  /** `total_duration_ns` of the trigger parser, which visits the ports in some
      order of its own: the total length of all intervals of the log, and the
      number of (port, instant) pairs at which the port is paused.  */
  method TriggerTotal(rows: seq<Row>, groups: seq<Port>) returns (total: int)
    requires Distinct(groups) && Members(groups) == Members(PortsOf(SortRows(rows)))
    ensures total == PausedTime(rows, groups)
    ensures total == Duration(AllIntervals(rows, PortsOf(SortRows(rows))))
  {
    total := 0;
    SortRowsSorts(rows);
    var sorted := SortRows(rows);
    var end := if sorted == [] then 0 else sorted[|sorted| - 1].time;
    for i := 0 to |groups|
      invariant total == PausedTime(rows, groups[..i])
    {
      EventsAreRows(sorted, groups[i]);
      var t := SumPort(EventsOf(sorted, groups[i]), groups[i], end);
      PausedTimeStep(rows, groups, i);
      total := total + t;
    }
    assert groups[..|groups|] == groups;
    TotalsAgree(rows, groups);
  }

  lemma PausedTimeStep(rows: seq<Row>, ps: seq<Port>, i: nat)
    requires i < |ps|
    ensures PausedTime(rows, ps[..i + 1]) == PausedTime(rows, ps[..i]) + Duration(PortIntervals(rows, ps[i]))
  {
    assert ps[..i + 1][..i] == ps[..i];
    TotalIsPausedTime(rows, ps[i]);
  }

  lemma TotalsAgree(rows: seq<Row>, groups: seq<Port>)
    requires Distinct(groups) && Members(groups) == Members(PortsOf(SortRows(rows)))
    ensures PausedTime(rows, groups) == Duration(AllIntervals(rows, PortsOf(SortRows(rows))))
  {
    PortsAreDistinct(SortRows(rows));
    AllDurations(rows, PortsOf(SortRows(rows)));
    PortOrderIrrelevant(rows, groups, PortsOf(SortRows(rows)));
  }

  // ------------------------------------------------------------ spine-to-leaf grouping

  lemma ForPortStep(ivs: seq<Interval>, i: nat, p: Port)
    requires i < |ivs|
    ensures ForPort(ivs[..i + 1], p) == ForPort(ivs[..i], p) + (if ivs[i].port == p then [ivs[i]] else [])
    ensures Duration(ForPort(ivs[..i + 1], p))
         == Duration(ForPort(ivs[..i], p)) + (if ivs[i].port == p then ivs[i].end - ivs[i].start else 0)
  {
    assert ivs[..i + 1][..i] == ivs[..i];
    assert ForPort(ivs[..i], p) + [] == ForPort(ivs[..i], p);
    if ivs[i].port == p {
      DurationAppend(ForPort(ivs[..i], p), [ivs[i]]);
      One(ivs[i]);
    }
  }

  lemma NoIntervals()
    ensures Duration([]) == 0 && forall p :: ForPort([], p) == []
  {
  }

  /** Total pause per port of the nodes from `firstSpine` on. */
  method PortTotals(ivs: seq<Interval>, firstSpine: int) returns (totals: map<Port, int>)
    ensures forall p :: p in totals <==> p.node >= firstSpine && ForPort(ivs, p) != []
    ensures forall p :: p in totals ==> totals[p] == Duration(ForPort(ivs, p))
  {
    hide ForPort, Duration;
    totals := map[];
    NoIntervals();
    for i := 0 to |ivs|
      invariant forall p :: p in totals <==> p.node >= firstSpine && ForPort(ivs[..i], p) != []
      invariant forall p :: p in totals ==> totals[p] == Duration(ForPort(ivs[..i], p))
    {
      var iv := ivs[i];
      forall p {
        ForPortStep(ivs, i, p);
      }
      if iv.port.node >= firstSpine {
        var before := if iv.port in totals then totals[iv.port] else 0;
        totals := totals[iv.port := before + (iv.end - iv.start)];
      }
    }
    assert ivs[..|ivs|] == ivs;
  }

  /** Is there an entry for spine `n` in leaf `l`'s group? */
  predicate Grouped(groups: map<int, map<int, int>>, l: int, n: int) {
    l in groups && n in groups[l]
  }

  /** The entry of port `p` for the leaf that it leads to. */
  function WithEntry(groups: map<int, map<int, int>>, p: Port, nLeaf: int, total: int): map<int, map<int, int>> {
    var leaf := p.ifIndex - 1;
    if 0 <= leaf < nLeaf then
      groups[leaf := (if leaf in groups then groups[leaf] else map[])[p.node := total]]
    else groups
  }

  lemma OneMoreEntry(groups: map<int, map<int, int>>, p: Port, nLeaf: int, total: int)
    ensures forall l, n :: Grouped(WithEntry(groups, p, nLeaf, total), l, n) <==>
      Grouped(groups, l, n) || (0 <= l < nLeaf && Port(n, l + 1) == p)
    ensures forall l, n :: Grouped(WithEntry(groups, p, nLeaf, total), l, n) ==>
      WithEntry(groups, p, nLeaf, total)[l][n]
      == if 0 <= l < nLeaf && Port(n, l + 1) == p then total else groups[l][n]
  {
  }

  /** The groups hold the totals of the ports that are not left. */
  ghost predicate GroupsHold(groups: map<int, map<int, int>>, totals: map<Port, int>, left: set<Port>, nLeaf: int) {
    && (forall l, n :: Grouped(groups, l, n) <==>
          0 <= l < nLeaf && Port(n, l + 1) in totals && Port(n, l + 1) !in left)
    && forall l, n :: Grouped(groups, l, n) ==> groups[l][n] == totals[Port(n, l + 1)]
  }

  lemma EntryHolds(groups: map<int, map<int, int>>, totals: map<Port, int>, left: set<Port>, nLeaf: int, p: Port)
    requires GroupsHold(groups, totals, left, nLeaf) && left <= totals.Keys && p in left
    ensures GroupsHold(WithEntry(groups, p, nLeaf, totals[p]), totals, left - {p}, nLeaf)
  {
    hide WithEntry;
    OneMoreEntry(groups, p, nLeaf, totals[p]);
  }

  /** The grouping of `analyze_spine_to_leaf_balance`: port `l + 1` of each
      spine is taken to lead to leaf `l`.  */
  method LeafGroups(ivs: seq<Interval>, nLeaf: int, serversPerLeaf: int) returns (groups: map<int, map<int, int>>)
    ensures forall l, n :: Grouped(groups, l, n) <==>
      0 <= l < nLeaf && n >= nLeaf * serversPerLeaf + nLeaf && ForPort(ivs, Port(n, l + 1)) != []
    ensures forall l, n :: Grouped(groups, l, n) ==> groups[l][n] == Duration(ForPort(ivs, Port(n, l + 1)))
  {
    hide ForPort, Duration;
    var firstSpine := nLeaf * serversPerLeaf + nLeaf;
    var totals := PortTotals(ivs, firstSpine);
    groups := map[];
    var rest := totals.Keys;
    while rest != {}
      invariant rest <= totals.Keys && GroupsHold(groups, totals, rest, nLeaf)
    {
      hide GroupsHold;
      var p :| p in rest;
      EntryHolds(groups, totals, rest, nLeaf, p);
      rest := rest - {p};
      var leaf := p.ifIndex - 1;
      if 0 <= leaf < nLeaf {
        var group := if leaf in groups then groups[leaf] else map[];
        groups := groups[leaf := group[p.node := totals[p]]];
      }
    }
  }

  /** From the log to the groups: what spine `n` shows for leaf `l` is the
      number of instants at which its port `l + 1` is paused.  */
  method BalanceFromLog(rows: seq<Row>, nLeaf: int, serversPerLeaf: int) returns (groups: map<int, map<int, int>>)
    ensures forall l, n :: Grouped(groups, l, n) ==>
      0 <= l < nLeaf && n >= nLeaf * serversPerLeaf + nLeaf
      && groups[l][n] == PausedPort(rows, Port(n, l + 1))
    ensures forall l, n :: 0 <= l < nLeaf && n >= nLeaf * serversPerLeaf + nLeaf && !Grouped(groups, l, n) ==>
      PausedPort(rows, Port(n, l + 1)) == 0
  {
    var ivs := ProcessLog(rows);
    groups := LeafGroups(ivs, nLeaf, serversPerLeaf);
    forall p ensures Duration(ForPort(ivs, p)) == PausedPort(rows, p) {
      LogIntervalsAtPort(rows, p);
      TotalIsPausedTime(rows, p);
    }
  }
}
