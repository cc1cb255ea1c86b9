/** Health escalation: the stored failure counts against the history of checks. */
module Health {
  import opened Common
  import opened Tables

  const FAILURE_LIMIT: nat := 3

  /** What one check of one connection saw. */
  datatype Seen = NotUp | BadAddress | Answered | Unreachable

  /** What happens to the counts: a check of a name, or the prune that forgets
      names no connection has. */
  datatype Event = Checked(name: string, seen: Seen) | Pruned(names: set<string>)

  type Counts = map<string, nat>

  /** The new counts and whether the tunnel is reported unhealthy. */
  function Count(c: Counts, e: Event): (Counts, bool) {
    match e
    case Pruned(names) => (map n | n in c && n in names :: c[n], false)
    case Checked(name, seen) =>
      match seen
      case NotUp => (c - {name}, false)
      case BadAddress => (c, false)
      case Answered => (c - {name}, false)
      case Unreachable =>
        var failures := (if name in c then c[name] else 0) + 1;
        if failures >= FAILURE_LIMIT then (c - {name}, true) else (c[name := failures], false)
  }

  function CountsAfter(history: seq<Event>): Counts {
    if history == [] then map[] else Count(CountsAfter(history[..|history| - 1]), history[|history| - 1]).0
  }

  predicate Escalates(history: seq<Event>) {
    history != [] && Count(CountsAfter(history[..|history| - 1]), history[|history| - 1]).1
  }

  /** How many unanswered pings in a row a name has behind it: since it last
      answered, was seen not up, or was forgotten. Read off the history alone. */
  function InARow(history: seq<Event>, name: string): nat {
    if history == [] then 0
    else
      var before, e := history[..|history| - 1], history[|history| - 1];
      match e
      case Pruned(names) => if name in names then InARow(before, name) else 0
      case Checked(n, seen) =>
        if n != name || seen == BadAddress then InARow(before, name)
        else if seen == Unreachable then InARow(before, name) + 1
        else 0
  }

  function Stored(c: Counts, name: string): nat {
    if name in c then c[name] else 0
  }

  /** Every third in a row starts the count again. */
  lemma Thirds(row: nat)
    ensures (row + 1) % FAILURE_LIMIT == if row % FAILURE_LIMIT + 1 == FAILURE_LIMIT then 0 else row % FAILURE_LIMIT + 1
  {
  }

  /** The stored count is the run of unanswered pings since the last escalation,
      always below the limit; a name without one has none stored. */
  lemma {:induction false} CountIsRow(history: seq<Event>, name: string)
    ensures Stored(CountsAfter(history), name) == InARow(history, name) % FAILURE_LIMIT
    ensures name in CountsAfter(history) ==> 0 < CountsAfter(history)[name] < FAILURE_LIMIT
    decreases |history|
  {
    if history != [] {
      var before := history[..|history| - 1];
      CountIsRow(before, name);
      Thirds(InARow(before, name));
    }
  }

  /** A tunnel is reported exactly at every third unanswered ping in a row. */
  lemma EscalatesExactly(before: seq<Event>, e: Event)
    ensures Escalates(before + [e]) <==>
      e.Checked? && e.seen == Unreachable && InARow(before + [e], e.name) % FAILURE_LIMIT == 0
  {
    var history := before + [e];
    assert history[..|history| - 1] == before;
    if e.Checked? && e.seen == Unreachable {
      CountIsRow(before, e.name);
      Thirds(InARow(before, e.name));
    }
  }

  // ----- one pass over the connections

  /** What one check meets: the tunnel's state, its interface, whether the address
      parses and whether it answers. */
  datatype Observed = Observed(up: bool, iface: string, parses: bool, answers: bool)

  function SeenOf(ob: Observed): Seen {
    if !ob.up || ob.iface == "" then NotUp
    else if !ob.parses then BadAddress
    else if ob.answers then Answered
    else Unreachable
  }

  predicate IsChecked(conn: Connection) {
    conn.enabled && conn.healthIP != ""
  }

  function NamesOf(conns: seq<Connection>): set<string> {
    set conn | conn in conns :: conn.name
  }

  function Checks(conns: seq<Connection>, observe: string -> Observed): seq<Event> {
    if conns == [] then []
    else
      (if IsChecked(conns[0]) then [Checked(conns[0].name, SeenOf(observe(conns[0].name)))] else [])
      + Checks(conns[1..], observe)
  }

  /** The names reported as the events follow a history. */
  function Reported(history: seq<Event>, events: seq<Event>): seq<string>
    decreases |events|
  {
    if events == [] then []
    else
      var h := history + [events[0]];
      (if Escalates(h) && events[0].Checked? then [events[0].name] else []) + Reported(h, events[1..])
  }

  /** A name is due to be reported: its connection is enabled and has an address,
      its tunnel is up on an interface and does not answer, and it is the third
      time in a row. */
  ghost predicate DueToReport(history: seq<Event>, conns: seq<Connection>, observe: string -> Observed, n: string) {
    && (exists conn :: conn in conns && conn.name == n && conn.enabled && conn.healthIP != "")
    && (var ob := observe(n); ob.up && ob.iface != "" && ob.parses && !ob.answers)
    && (InARow(history, n) + 1) % 3 == 0
  }

  lemma RowUnaffected(history: seq<Event>, e: Event, n: string)
    requires e.Checked? && e.name != n
    ensures InARow(history + [e], n) == InARow(history, n)
  {
    assert (history + [e])[..|history|] == history;
  }

  lemma DueElsewhere(history: seq<Event>, conns: seq<Connection>, observe: string -> Observed, n: string)
    requires conns != [] && (conns[0].name != n || !IsChecked(conns[0]))
    ensures DueToReport(history, conns, observe, n) <==> DueToReport(history, conns[1..], observe, n)
  {
    hide InARow;
    assert forall conn :: conn in conns <==> conn == conns[0] || conn in conns[1..];
  }

  lemma DueFirst(history: seq<Event>, conns: seq<Connection>, observe: string -> Observed, n: string)
    requires conns != [] && conns[0].name == n && IsChecked(conns[0])
    requires forall i, j :: 0 <= i < j < |conns| ==> conns[i].name != conns[j].name
    ensures DueToReport(history, conns, observe, n) <==> SeenOf(observe(n)) == Unreachable && (InARow(history, n) + 1) % 3 == 0
    ensures forall h :: !DueToReport(h, conns[1..], observe, n)
  {
    hide InARow;
    assert conns[0] in conns;
  }

  lemma {:induction false} ChecksReport(history: seq<Event>, conns: seq<Connection>, observe: string -> Observed, n: string)
    requires forall i, j :: 0 <= i < j < |conns| ==> conns[i].name != conns[j].name
    ensures n in Reported(history, Checks(conns, observe)) <==> DueToReport(history, conns, observe, n)
    decreases |conns|
  {
    hide Escalates, InARow, SeenOf, DueToReport;
    if conns == [] {
      assert !DueToReport(history, conns, observe, n) by { NoneDue(history, observe, n); }
    } else {
      var conn, rest := conns[0], conns[1..];
      if IsChecked(conn) {
        var e := Checked(conn.name, SeenOf(observe(conn.name)));
        var events, h := Checks(conns, observe), history + [e];
        assert events[0] == e && events[1..] == Checks(rest, observe);
        ChecksReport(h, rest, observe, n);
        EscalatesExactly(history, e);
        if conn.name == n {
          DueFirst(history, conns, observe, n);
          if e.seen == Unreachable {
            OneMore(history, e);
          }
        } else {
          DueElsewhere(history, conns, observe, n);
          RowUnaffected(history, e, n);
          assert DueToReport(h, rest, observe, n) <==> DueToReport(history, rest, observe, n) by {
            SameRowDue(history, h, rest, observe, n);
          }
        }
      } else {
        assert Checks(conns, observe) == Checks(rest, observe);
        ChecksReport(history, rest, observe, n);
        DueElsewhere(history, conns, observe, n);
      }
    }
  }

  lemma NoneDue(history: seq<Event>, observe: string -> Observed, n: string)
    ensures !DueToReport(history, [], observe, n)
  {
  }

  lemma SameRowDue(h: seq<Event>, h': seq<Event>, conns: seq<Connection>, observe: string -> Observed, n: string)
    requires InARow(h, n) == InARow(h', n)
    ensures DueToReport(h, conns, observe, n) <==> DueToReport(h', conns, observe, n)
  {
    hide InARow;
  }

  lemma OneMore(history: seq<Event>, e: Event)
    requires e.Checked? && e.seen == Unreachable
    ensures InARow(history + [e], e.name) == InARow(history, e.name) + 1
  {
    assert (history + [e])[..|history|] == history;
  }

  /** A pass forgets the names no connection has and reports exactly the names
      that are due; the names that go on count from before. */
  lemma PassExact(history: seq<Event>, conns: seq<Connection>, observe: string -> Observed, n: string)
    requires forall i, j :: 0 <= i < j < |conns| ==> conns[i].name != conns[j].name
    ensures var events := [Pruned(NamesOf(conns))] + Checks(conns, observe);
      n in Reported(history, events) <==> DueToReport(history, conns, observe, n)
  {
    hide Escalates, InARow;
    var e := Pruned(NamesOf(conns));
    var events := [e] + Checks(conns, observe);
    assert events[0] == e && events[1..] == Checks(conns, observe);
    ChecksReport(history + [e], conns, observe, n);
    KnownKeeps(history, NamesOf(conns), n);
  }

  lemma KnownKeeps(history: seq<Event>, names: set<string>, n: string)
    ensures n in names ==> InARow(history + [Pruned(names)], n) == InARow(history, n)
  {
    assert (history + [Pruned(names)])[..|history|] == history;
  }

  /** The checker, with the history its counts stand for. */
  class Checker {
    var failures: Counts
    ghost var history: seq<Event>

    ghost predicate Tracks()
      reads this
    {
      failures == CountsAfter(history)
    }

    constructor ()
      ensures Tracks() && history == []
    {
      failures := map[];
      history := [];
    }

    method CountFailure(name: string) returns (n: nat)
      modifies this`failures
      ensures n == (if name in old(failures) then old(failures)[name] else 0) + 1
      ensures failures == old(failures)[name := n]
    {
      n := (if name in failures then failures[name] else 0) + 1;
      failures := failures[name := n];
    }

    method Reset(name: string)
      modifies this`failures
      ensures failures == old(failures) - {name}
    {
      failures := failures - {name};
    }

    /** One check; the tunnel is reported exactly when the history calls for it. */
    method Check(name: string, ob: Observed) returns (unhealthy: bool)
      requires Tracks()
      modifies this
      ensures Tracks() && history == old(history) + [Checked(name, SeenOf(ob))]
      ensures unhealthy <==> Escalates(history)
    {
      hide CountsAfter, Escalates;
      ghost var e := Checked(name, SeenOf(ob));
      CountMore(history, e);
      history := history + [e];
      if !ob.up || ob.iface == "" {
        Reset(name);
        return false;
      }
      if !ob.parses {
        return false;
      }
      if !ob.answers {
        var n := CountFailure(name);
        if n >= FAILURE_LIMIT {
          Reset(name);
          assert failures == old(failures) - {name};
          return true;
        }
        return false;
      }
      Reset(name);
      return false;
    }

    method PruneNames(names: set<string>)
      requires Tracks()
      modifies this
      ensures Tracks() && history == old(history) + [Pruned(names)]
    {
      hide CountsAfter;
      var rest := failures.Keys;
      while rest != {}
        invariant rest <= old(failures).Keys && history == old(history)
        invariant failures == map n | n in old(failures) && (n in rest || n in names) :: old(failures)[n]
        decreases |rest|
      {
        var n :| n in rest;
        rest := rest - {n};
        if n !in names {
          failures := failures - {n};
        }
      }
      CountMore(history, Pruned(names));
      history := history + [Pruned(names)];
    }

    /** The walk over the listing; nothing happens if there is none. */
    method CheckAll(conns: Option<seq<Connection>>, observe: string -> Observed) returns (reported: seq<string>)
      requires Tracks()
      modifies this
      ensures Tracks()
      ensures conns.None? ==> history == old(history) && reported == []
      ensures conns.Some? ==>
        && history == old(history) + ([Pruned(NamesOf(conns.value))] + Checks(conns.value, observe))
        && reported == Reported(old(history), [Pruned(NamesOf(conns.value))] + Checks(conns.value, observe))
    {
      hide Escalates, CountsAfter, Reported;
      reported := [];
      if conns.None? {
        return;
      }
      var names := NamesOf(conns.value);
      PruneNames(names);
      ghost var events := [Pruned(names)] + Checks(conns.value, observe);
      NothingReported(old(history), Pruned(names));
      for k := 0 to |conns.value|
        invariant Tracks()
        invariant history == old(history) + ([Pruned(names)] + Checks(conns.value[..k], observe))
        invariant reported == Reported(old(history), [Pruned(names)] + Checks(conns.value[..k], observe))
      {
        var conn := conns.value[k];
        ghost var before := [Pruned(names)] + Checks(conns.value[..k], observe);
        ChecksMore(conns.value, k, observe);
        if !conn.enabled || conn.healthIP == "" {
          assert [Pruned(names)] + Checks(conns.value[..k + 1], observe) == before;
          continue;
        }
        ghost var e := Checked(conn.name, SeenOf(observe(conn.name)));
        var unhealthy := Check(conn.name, observe(conn.name));
        assert history == old(history) + before + [e];
        ReportedMore(old(history), before, e);
        assert before + [e] == [Pruned(names)] + Checks(conns.value[..k + 1], observe);
        assert old(history) + before + [e] == old(history) + (before + [e]);
        if unhealthy {
          reported := reported + [conn.name];
        }
      }
      assert conns.value[..|conns.value|] == conns.value;
    }
  }

  lemma CountMore(history: seq<Event>, e: Event)
    ensures CountsAfter(history + [e]) == Count(CountsAfter(history), e).0
    ensures Escalates(history + [e]) <==> Count(CountsAfter(history), e).1
  {
    assert (history + [e])[..|history|] == history;
  }

  lemma {:induction false} ChecksMore(conns: seq<Connection>, k: nat, observe: string -> Observed)
    requires k < |conns|
    ensures Checks(conns[..k + 1], observe) == Checks(conns[..k], observe) +
      if IsChecked(conns[k]) then [Checked(conns[k].name, SeenOf(observe(conns[k].name)))] else []
  {
    hide SeenOf, IsChecked;
    if k == 0 {
      assert conns[..1] == [conns[0]] && conns[..1][1..] == [] && conns[..0] == [];
      assert Checks([], observe) == [];
    } else {
      ChecksMore(conns[1..], k - 1, observe);
      assert conns[..k + 1][1..] == conns[1..][..k] && conns[..k][1..] == conns[1..][..k - 1];
    }
  }

  lemma NothingReported(history: seq<Event>, e: Event)
    requires e.Pruned?
    ensures Reported(history, [e] + []) == []
  {
    assert ([e] + [])[1..] == [];
    assert Reported(history + [e], []) == [];
  }

  lemma {:induction false} ReportedMore(history: seq<Event>, events: seq<Event>, e: Event)
    requires e.Checked?
    ensures Reported(history, events + [e]) == Reported(history, events) +
      if Escalates(history + events + [e]) then [e.name] else []
    decreases |events|
  {
    hide Escalates, Reported;
    if events == [] {
      assert events + [e] == [e] + [] && history + events == history;
      ReportedFirst(history, e, []);
      NoneReported(history + [e]);
      NoneReported(history);
    } else {
      var first, rest := events[0], events[1..];
      ReportedMore(history + [first], rest, e);
      ReportedFirst(history, first, rest + [e]);
      ReportedFirst(history, first, rest);
      assert events + [e] == [first] + (rest + [e]) && events == [first] + rest;
      assert history + [first] + rest == history + events;
    }
  }

  lemma NoneReported(history: seq<Event>)
    ensures Reported(history, []) == []
  {
  }

  lemma ReportedFirst(history: seq<Event>, e: Event, rest: seq<Event>)
    ensures Reported(history, [e] + rest) ==
      (if Escalates(history + [e]) && e.Checked? then [e.name] else []) + Reported(history + [e], rest)
  {
    assert ([e] + rest)[1..] == rest;
  }
}
