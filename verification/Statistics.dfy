/** Listener statistics: amphorae and providers report deltas, the database keeps
    one row for each listener and reporter, the API adds the rows up.
 */
module Statistics {
  import opened Wrappers

  /** Listeners and amphorae share one space of ids. */
  datatype Id = Id(name: string)

  type ListenerId = Id
  type ReporterId = Id

  /** The counters that only ever grow. */
  datatype Counters = Counters(bytesIn: nat, bytesOut: nat, requestErrors: nat, totalConnections: nat)

  datatype Stats = Stats(counters: Counters, activeConnections: nat)

  const ZERO: Counters := Counters(0, 0, 0, 0)

  function Add(a: Counters, b: Counters): Counters {
    Counters(a.bytesIn + b.bytesIn, a.bytesOut + b.bytesOut,
             a.requestErrors + b.requestErrors, a.totalConnections + b.totalConnections)
  }

  /** A report; providers other than the amphora driver send none as the reporter. */
  datatype Delta = Delta(listener: ListenerId, amphora: Option<ReporterId>, stats: Stats)

  /** A missing reporter id is replaced by the listener id. */
  function ReporterOf(d: Delta): ReporterId {
    if d.amphora.None? then d.listener else d.amphora.value
  }

  type Rows = map<(ListenerId, ReporterId), Stats>

  lemma AddLaws(a: Counters, b: Counters, c: Counters)
    ensures Add(a, b) == Add(b, a) && Add(Add(a, b), c) == Add(a, Add(b, c)) && Add(a, ZERO) == a
    ensures Add(a, Add(b, c)) == Add(b, Add(a, c))
  {
  }

  // ---- sums over sets of reporters

  ghost function Sum(s: set<ReporterId>, f: ReporterId -> Counters): Counters {
    if s == {} then ZERO
    else
      var x :| x in s;
      Add(f(x), Sum(s - {x}, f))
  }

  ghost function Total(s: set<ReporterId>, f: ReporterId -> nat): nat {
    if s == {} then 0
    else
      var x :| x in s;
      f(x) + Total(s - {x}, f)
  }

  lemma {:induction false} SumTakes(s: set<ReporterId>, f: ReporterId -> Counters, x: ReporterId)
    requires x in s
    ensures Sum(s, f) == Add(f(x), Sum(s - {x}, f))
    decreases |s|
  {
    var y :| y in s && Sum(s, f) == Add(f(y), Sum(s - {y}, f));
    if y != x {
      SumTakes(s - {y}, f, x);
      SumTakes(s - {x}, f, y);
      assert s - {y} - {x} == s - {x} - {y};
      AddLaws(f(y), f(x), Sum(s - {x} - {y}, f));
    }
  }

  lemma {:induction false} TotalTakes(s: set<ReporterId>, f: ReporterId -> nat, x: ReporterId)
    requires x in s
    ensures Total(s, f) == f(x) + Total(s - {x}, f)
    decreases |s|
  {
    var y :| y in s && Total(s, f) == f(y) + Total(s - {y}, f);
    if y != x {
      TotalTakes(s - {y}, f, x);
      TotalTakes(s - {x}, f, y);
      assert s - {y} - {x} == s - {x} - {y};
    }
  }

  lemma {:induction false} SumSame(s: set<ReporterId>, f: ReporterId -> Counters, g: ReporterId -> Counters)
    requires forall x :: x in s ==> f(x) == g(x)
    ensures Sum(s, f) == Sum(s, g)
    decreases |s|
  {
    if s != {} {
      var x :| x in s;
      SumTakes(s, f, x);
      SumTakes(s, g, x);
      SumSame(s - {x}, f, g);
    }
  }

  // ---- the history of reports

  /** Everything ever reported for a listener by one reporter. */
  ghost function SentBy(log: seq<Delta>, l: ListenerId, a: ReporterId): Counters {
    if log == [] then ZERO
    else
      var d, before := log[|log| - 1], SentBy(log[..|log| - 1], l, a);
      if d.listener == l && ReporterOf(d) == a then Add(before, d.stats.counters) else before
  }

  /** Everything ever reported for a listener. */
  ghost function Sent(log: seq<Delta>, l: ListenerId): Counters {
    if log == [] then ZERO
    else
      var d, before := log[|log| - 1], Sent(log[..|log| - 1], l);
      if d.listener == l then Add(before, d.stats.counters) else before
  }

  ghost function Reporters(log: seq<Delta>, l: ListenerId): set<ReporterId> {
    if log == [] then {}
    else
      var d, before := log[|log| - 1], Reporters(log[..|log| - 1], l);
      if d.listener == l then before + {ReporterOf(d)} else before
  }

  /** The active connections in the latest report. */
  ghost function Latest(log: seq<Delta>, l: ListenerId, a: ReporterId): nat {
    if log == [] then 0
    else
      var d := log[|log| - 1];
      if d.listener == l && ReporterOf(d) == a then d.stats.activeConnections else Latest(log[..|log| - 1], l, a)
  }

  lemma {:induction false} NothingFromStrangers(log: seq<Delta>, l: ListenerId, a: ReporterId)
    requires a !in Reporters(log, l)
    ensures SentBy(log, l, a) == ZERO
  {
    if log != [] {
      NothingFromStrangers(log[..|log| - 1], l, a);
    }
  }

  /** What all reporters have sent adds up to what has been sent. */
  lemma {:induction false} SentAddsUp(log: seq<Delta>, l: ListenerId)
    ensures Sum(Reporters(log, l), CountersOf(log, l)) == Sent(log, l)
  {
    if log != [] {
      var n := |log| - 1;
      var d, init := log[n], log[..n];
      var f, g := CountersOf(log, l), CountersOf(init, l);
      var s := Reporters(init, l);
      SentAddsUp(init, l);
      if d.listener == l {
        var a := ReporterOf(d);
        SumTakes(s + {a}, f, a);
        SumSame(s - {a}, f, g);
        assert s + {a} - {a} == s - {a};
        if a in s {
          SumTakes(s, g, a);
        } else {
          assert s - {a} == s;
          NothingFromStrangers(init, l, a);
        }
      } else {
        SumSame(s, f, g);
      }
    }
  }

  // ---- the history counted one counter at a time

  /** The sum of one counter over all deltas for any of the listeners. */
  ghost function Tally(log: seq<Delta>, listeners: set<ListenerId>, counter: Counters -> nat): nat {
    if log == [] then 0
    else
      var d := log[|log| - 1];
      Tally(log[..|log| - 1], listeners, counter) + if d.listener in listeners then counter(d.stats.counters) else 0
  }

  /** Each counter holds its own sum. */
  ghost predicate Tallies(s: Counters, log: seq<Delta>, listeners: set<ListenerId>) {
    && s.bytesIn == Tally(log, listeners, (c: Counters) => c.bytesIn)
    && s.bytesOut == Tally(log, listeners, (c: Counters) => c.bytesOut)
    && s.requestErrors == Tally(log, listeners, (c: Counters) => c.requestErrors)
    && s.totalConnections == Tally(log, listeners, (c: Counters) => c.totalConnections)
  }

  lemma {:induction false} SentTallies(log: seq<Delta>, l: ListenerId)
    ensures Tallies(Sent(log, l), log, {l})
  {
    if log != [] {
      SentTallies(log[..|log| - 1], l);
    }
  }

  lemma {:induction false} MembersTally(log: seq<Delta>, listeners: seq<ListenerId>)
    ensures Tallies(SentToMembers(log, listeners), log, set l | l in listeners)
  {
    if log != [] {
      MembersTally(log[..|log| - 1], listeners);
    }
  }

  /** The latest report is the last one in the log. */
  lemma {:induction false} LatestIsLast(log: seq<Delta>, l: ListenerId, a: ReporterId, i: nat)
    requires i < |log| && log[i].listener == l && ReporterOf(log[i]) == a
    requires forall j :: i < j < |log| ==> !(log[j].listener == l && ReporterOf(log[j]) == a)
    ensures Latest(log, l, a) == log[i].stats.activeConnections
  {
    if i < |log| - 1 {
      LatestIsLast(log[..|log| - 1], l, a, i);
    }
  }

  // ---- the repository

  function IncrementRow(row: Stats, delta: Stats): Stats {
    Stats(Add(row.counters, delta.counters), delta.activeConnections)
  }

  /** The reporters whose active connections are counted. */
  function Counting(s: set<ReporterId>, l: ListenerId, allocatedIds: set<ReporterId>): set<ReporterId> {
    set a | a in s && (a in allocatedIds || a == l)
  }

  lemma CountingTakes(s: set<ReporterId>, l: ListenerId, allocatedIds: set<ReporterId>, a: ReporterId, g: ReporterId -> nat)
    requires a in s
    ensures Total(Counting(s, l, allocatedIds), g)
         == (if a in allocatedIds || a == l then g(a) else 0) + Total(Counting(s - {a}, l, allocatedIds), g)
  {
    assert Counting(s - {a}, l, allocatedIds) == Counting(s, l, allocatedIds) - {a};
    if a in allocatedIds || a == l {
      TotalTakes(Counting(s, l, allocatedIds), g, a);
    } else {
      assert Counting(s, l, allocatedIds) == Counting(s, l, allocatedIds) - {a};
    }
  }

  lemma CountingNone(l: ListenerId, allocatedIds: set<ReporterId>)
    ensures Counting({}, l, allocatedIds) == {}
  {
  }

  ghost function CountersOf(log: seq<Delta>, l: ListenerId): ReporterId -> Counters {
    a => SentBy(log, l, a)
  }

  ghost function LatestOf(log: seq<Delta>, l: ListenerId): ReporterId -> nat {
    a => Latest(log, l, a)
  }

  class StatisticsRepository {
    var rows: Rows
    ghost var log: seq<Delta>

    ghost predicate Valid()
      reads this
    {
      forall l, a :: ((l, a) in rows <==> a in Reporters(log, l)) &&
        ((l, a) in rows ==> rows[(l, a)] == Stats(SentBy(log, l, a), Latest(log, l, a)))
    }

    constructor ()
      ensures Valid() && log == []
    {
      rows := map[];
      log := [];
    }

    /** Adds the counters and overwrites the active connections; the first report makes the row. */
    method Increment(delta: Delta)
      requires Valid()
      modifies this
      ensures Valid()
      ensures log == old(log) + [delta]
      ensures var key := (delta.listener, if delta.amphora.None? then delta.listener else delta.amphora.value);
              rows == old(rows)[key := if key in old(rows) then IncrementRow(old(rows)[key], delta.stats) else delta.stats]
      ensures var key := (delta.listener, if delta.amphora.None? then delta.listener else delta.amphora.value);
              key in old(rows) ==>
                var was, now, sent := old(rows)[key].counters, rows[key].counters, delta.stats.counters;
                && now.bytesIn == was.bytesIn + sent.bytesIn && now.bytesOut == was.bytesOut + sent.bytesOut
                && now.requestErrors == was.requestErrors + sent.requestErrors
                && now.totalConnections == was.totalConnections + sent.totalConnections
                && rows[key].activeConnections == delta.stats.activeConnections
    {
      var key := (delta.listener, ReporterOf(delta));
      if key in rows {
        rows := rows[key := IncrementRow(rows[key], delta.stats)];
      } else {
        NothingFromStrangers(log, delta.listener, ReporterOf(delta));
        rows := rows[key := delta.stats];
      }
      ghost var before := log;
      log := log + [delta];
      assert log[..|log| - 1] == before;
    }

    /** The reporters of which the listener has a row. */
    function ReportersOf(l: ListenerId): set<ReporterId>
      reads this
    {
      set k | k in rows && k.0 == l :: k.1
    }

    /** Adds the rows of a listener up; only reporters that count contribute active connections. */
    method GetListenerStats(l: ListenerId, allocatedIds: set<ReporterId>) returns (s: Stats)
      requires Valid()
      ensures s.counters == Sent(log, l)
      ensures s.activeConnections == ActiveFor(log, l, allocatedIds)
      ensures Tallies(s.counters, log, {l})
      ensures s.activeConnections
           == Total((set a | a in Reporters(log, l) && (a in allocatedIds || a == l)), LatestOf(log, l))
    {
      var reporters := ReportersOf(l);
      assert reporters == Reporters(log, l);
      s := AddRows(l, reporters, allocatedIds);
      SentAddsUp(log, l);
      SentTallies(log, l);
    }

    method AddRows(l: ListenerId, reporters: set<ReporterId>, allocatedIds: set<ReporterId>) returns (s: Stats)
      requires forall a :: a in reporters ==> (l, a) in rows
      requires Valid()
      ensures s.counters == Sum(reporters, CountersOf(log, l))
      ensures s.activeConnections == Total(Counting(reporters, l, allocatedIds), LatestOf(log, l))
    {
      hide ReporterOf, Latest, SentBy, Reporters, Add, Counting;
      ghost var f, g := CountersOf(log, l), LatestOf(log, l);
      var counters, active := ZERO, 0;
      var rest := reporters;
      AddLaws(Sum(rest, f), ZERO, ZERO);
      while rest != {}
        invariant rest <= reporters
        invariant Add(counters, Sum(rest, f)) == Sum(reporters, f)
        invariant active + Total(Counting(rest, l, allocatedIds), g) == Total(Counting(reporters, l, allocatedIds), g)
        decreases rest
      {
        var a :| a in rest;
        var row := rows[(l, a)];
        SumTakes(rest, f, a);
        AddLaws(counters, row.counters, Sum(rest - {a}, f));
        CountingTakes(rest, l, allocatedIds, a, g);
        counters := Add(counters, row.counters);
        if a in allocatedIds || a == l {
          active := active + row.activeConnections;
        }
        rest := rest - {a};
      }
      AddLaws(counters, ZERO, ZERO);
      CountingNone(l, allocatedIds);
      s := Stats(counters, active);
    }

    /** The load balancer's statistics are those of its listeners, each listener counted once. */
    method GetLoadBalancerStats(listeners: seq<ListenerId>, allocatedIds: set<ReporterId>) returns (s: Stats, parts: seq<Stats>)
      requires Valid()
      ensures s.counters == SentToAll(log, listeners)
      ensures |parts| == |listeners| && s.activeConnections == ActiveOf(parts)
      ensures forall i :: 0 <= i < |listeners| ==> IsPart(log, listeners[i], allocatedIds, parts[i])
      ensures (forall i, j :: 0 <= i < j < |listeners| ==> listeners[i] != listeners[j]) ==>
                Tallies(s.counters, log, set l | l in listeners)
    {
      hide Sent, ActiveFor, Reporters, Latest, SentBy;
      var counters, active := ZERO, 0;
      parts := [];
      for i := 0 to |listeners|
        invariant counters == SentToAll(log, listeners[..i])
        invariant |parts| == i && active == ActiveOf(parts)
        invariant forall j :: 0 <= j < i ==> IsPart(log, listeners[j], allocatedIds, parts[j])
      {
        var data := GetListenerStats(listeners[i], allocatedIds);
        counters := Add(counters, data.counters);
        active := active + data.activeConnections;
        assert listeners[..i + 1][..i] == listeners[..i];
        assert (parts + [data])[..i] == parts;
        parts := parts + [data];
      }
      assert listeners[..|listeners|] == listeners;
      s := Stats(counters, active);
      if forall i, j :: 0 <= i < j < |listeners| ==> listeners[i] != listeners[j] {
        NothingIsLost(log, listeners);
        MembersTally(log, listeners);
      }
    }
  }

  ghost predicate IsPart(log: seq<Delta>, l: ListenerId, allocatedIds: set<ReporterId>, part: Stats) {
    part == Stats(Sent(log, l), ActiveFor(log, l, allocatedIds))
  }

  /** The latest reports of the reporters that count: ALLOCATED amphorae, and the listener's own row. */
  ghost function ActiveFor(log: seq<Delta>, l: ListenerId, allocatedIds: set<ReporterId>): nat {
    Total(Counting(Reporters(log, l), l, allocatedIds), LatestOf(log, l))
  }

  ghost function SentToAll(log: seq<Delta>, listeners: seq<ListenerId>): Counters {
    if listeners == [] then ZERO
    else Add(SentToAll(log, listeners[..|listeners| - 1]), Sent(log, listeners[|listeners| - 1]))
  }

  function ActiveOf(parts: seq<Stats>): nat {
    if parts == [] then 0 else ActiveOf(parts[..|parts| - 1]) + parts[|parts| - 1].activeConnections
  }

  /** Every part counts once. */
  lemma {:induction false} ActiveTakes(parts: seq<Stats>, part: Stats)
    ensures ActiveOf(parts + [part]) == ActiveOf(parts) + part.activeConnections && ActiveOf([]) == 0
  {
    assert (parts + [part])[..|parts|] == parts;
  }

  // ---- conservation

  /** What one delta adds to a load balancer: its counters if the listener belongs to it. */
  ghost function Share(d: Delta, listeners: seq<ListenerId>): Counters {
    if d.listener in listeners then d.stats.counters else ZERO
  }

  ghost function SentToMembers(log: seq<Delta>, listeners: seq<ListenerId>): Counters {
    if log == [] then ZERO
    else Add(SentToMembers(log[..|log| - 1], listeners), Share(log[|log| - 1], listeners))
  }

  lemma ShareGrows(d: Delta, listeners: seq<ListenerId>, l: ListenerId)
    requires l !in listeners
    ensures Share(d, listeners + [l]) == Add(Share(d, listeners), if d.listener == l then d.stats.counters else ZERO)
  {
    hide Add, ZERO;
    AddLaws(ZERO, d.stats.counters, ZERO);
    AddLaws(d.stats.counters, ZERO, ZERO);
    assert d.listener in listeners + [l] <==> d.listener in listeners || d.listener == l;
  }

  lemma {:induction false} OneMoreListener(log: seq<Delta>, listeners: seq<ListenerId>, l: ListenerId)
    requires l !in listeners
    ensures SentToMembers(log, listeners + [l]) == Add(SentToMembers(log, listeners), Sent(log, l))
  {
    hide Share, Add;
    if log == [] {
      AddLaws(ZERO, ZERO, ZERO);
    } else {
      var init, d := log[..|log| - 1], log[|log| - 1];
      var own := if d.listener == l then d.stats.counters else ZERO;
      OneMoreListener(init, listeners, l);
      ShareGrows(d, listeners, l);
      AddLaws(Sent(init, l), ZERO, ZERO);
      Regroup(SentToMembers(init, listeners), Sent(init, l), Share(d, listeners), own);
    }
  }

  lemma Regroup(a: Counters, b: Counters, c: Counters, d: Counters)
    ensures Add(Add(a, b), Add(c, d)) == Add(Add(a, c), Add(b, d))
  {
  }

  /** Whatever the order of the reports, the totals of a load balancer are the sum
      of all deltas ever sent for its listeners, and nothing else. */
  lemma {:induction false} NothingIsLost(log: seq<Delta>, listeners: seq<ListenerId>)
    requires forall i, j :: 0 <= i < j < |listeners| ==> listeners[i] != listeners[j]
    ensures SentToAll(log, listeners) == SentToMembers(log, listeners)
  {
    hide Sent, SentToMembers, Add;
    if listeners == [] {
      NobodyGetsNothing(log, listeners);
    } else {
      var n := |listeners| - 1;
      NothingIsLost(log, listeners[..n]);
      OneMoreListener(log, listeners[..n], listeners[n]);
      assert listeners == listeners[..n] + [listeners[n]];
    }
  }

  lemma {:induction false} NobodyGetsNothing(log: seq<Delta>, none: seq<ListenerId>)
    requires none == []
    ensures SentToMembers(log, none) == ZERO
  {
    if log != [] {
      NobodyGetsNothing(log[..|log| - 1], none);
      AddLaws(ZERO, ZERO, ZERO);
    }
  }
}
