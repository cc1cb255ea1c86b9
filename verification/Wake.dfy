/** The run loop: its sleep, its nudge channel, and when a backoff is served. */
module Wake {
  import opened Common
  import opened Text
  import opened Tables
  import opened Host
  import opened Reconciler
  import opened Agreement
  import opened Convergence
  import Daemons
  import Hooks
  import Traces

  const RETRY_TICK: nat := 5 * SECOND

  /** A tunnel with a backoff still to run. */
  predicate Pending(t: Tunnel, now: nat) {
    t.retryAt != 0 && t.retryAt > now
  }

  /** The sleep: as long as the tick allows, no longer than any pending backoff
      asks for, but at least a second. */
  ghost predicate IsWait(ts: map<string, Tunnel>, now: nat, tick: nat, wait: nat) {
    && (wait == Max(tick, SECOND) || exists n :: n in ts && Pending(ts[n], now) && wait == Max(ts[n].retryAt - now, SECOND))
    && wait <= Max(tick, SECOND)
    && forall n :: n in ts && Pending(ts[n], now) ==> wait <= Max(ts[n].retryAt - now, SECOND)
  }

  /** The sleep does not depend on the order in which the map is walked. */
  lemma WaitUnique(ts: map<string, Tunnel>, now: nat, tick: nat, a: nat, b: nat)
    requires IsWait(ts, now, tick, a) && IsWait(ts, now, tick, b)
    ensures a == b && SECOND <= a <= Max(tick, SECOND)
  {
  }

  /** `nextRetry` */
  method NextRetry(ts: map<string, Tunnel>, now: nat, tick: nat) returns (wait: nat)
    ensures IsWait(ts, now, tick, wait)
  {
    wait := tick;
    var rest := ts.Keys;
    while rest != {}
      invariant rest <= ts.Keys
      invariant wait <= tick
      invariant wait == tick || exists n :: n in ts && Pending(ts[n], now) && wait == ts[n].retryAt - now
      invariant forall n :: n in ts && n !in rest && Pending(ts[n], now) ==> wait <= ts[n].retryAt - now
      decreases |rest|
    {
      var n :| n in rest;
      rest := rest - {n};
      if !Pending(ts[n], now) {
        continue;
      }
      wait := Min(wait, ts[n].retryAt - now);
    }
    wait := Max(wait, SECOND);
  }

  lemma {:induction false} WaitExists(ts: map<string, Tunnel>, now: nat, tick: nat) returns (wait: nat)
    ensures IsWait(ts, now, tick, wait)
    decreases |ts|
  {
    if n :| n in ts && Pending(ts[n], now) {
      var rest := ts - {n};
      assert |rest| < |ts| by { assert rest.Keys == ts.Keys - {n}; }
      var w := WaitExists(rest, now, tick);
      wait := Min(w, Max(ts[n].retryAt - now, SECOND));
      forall m | m in ts && Pending(ts[m], now) ensures wait <= Max(ts[m].retryAt - now, SECOND) {
        assert m != n ==> m in rest;
      }
    } else {
      wait := Max(tick, SECOND);
    }
  }

  // ----- when commands take no time, no operation does

  lemma {:induction false} AddRoutesInstant(env: Env, w: World, iface: string, subnets: seq<string>)
    requires Instant(env)
    ensures AddRoutes(env, w, iface, subnets).0.time == w.time
    decreases |subnets|
  {
    hide Perform;
    if subnets != [] {
      AddRoutesInstant(env, Run(env, w, RouteReplace(subnets[0], iface)).0, iface, subnets[1..]);
    }
  }

  lemma {:induction false} EnsureRulesInstant(env: Env, w: World, rules: seq<Rule>)
    requires Instant(env)
    ensures EnsureRules(env, w, rules).0.time == w.time
    decreases |rules|
  {
    hide Perform;
    if rules != [] {
      EnsureRulesInstant(env, EnsureRule(env, w, rules[0]).0, rules[1..]);
    }
  }

  lemma TearDownInstant(o: Setup, w: World, iface: string, subnets: seq<string>)
    requires Instant(o.env)
    ensures TearDownIf(o, w, iface, subnets).time == w.time
  {
    hide RemoveRoutes, DeleteRules, Instant;
    RoutesInstant(o.env, w, iface, subnets);
    RulesInstant(o.env, RemoveRoutes(o.env, w, iface, subnets).0, NatRules(iface));
  }

  /** No time passed, and every backoff is cleared, runs from now, or is the one
      the tunnel had. */
  ghost predicate Carries(f: Fleet, f': Fleet) {
    && f'.world.time == f.world.time
    && forall n :: n in f'.tunnels ==>
         var r := f'.tunnels[n].retryAt;
         r == 0 || r > f.world.time || (n in f.tunnels && f.tunnels[n].retryAt == r)
  }

  lemma CarriesThen(f: Fleet, f': Fleet, f'': Fleet)
    requires Carries(f, f') && (f'' == f' || Carries(f', f''))
    ensures Carries(f, f'')
  {
  }

  lemma FailCarries(o: Setup, f: Fleet, n: string, iface: string)
    requires Instant(o.env)
    ensures Carries(f, Fail(o, f, n, iface))
    ensures n in f.tunnels ==> Fail(o, f, n, iface).tunnels[n].retryAt > f.world.time
  {
    hide TearDownIf, Instant, RedialDelay;
    if n in f.tunnels {
      TearDownInstant(o, f.world, iface, f.tunnels[n].subnets);
    }
  }

  lemma DisconnectInstant(o: Setup, w: World, t: Tunnel)
    requires Instant(o.env)
    ensures Disconnect(o, w, t).time == w.time
  {
    hide TearDownIf, Instant, Run;
    var w1 := TearDownIf(o, w, t.iface, t.subnets);
    var w2 := Run(o.env, w1, LacDisconnect(t.name)).0;
    var w3 := Run(o.env, w2, LacRemove(t.name)).0;
    TearDownInstant(o, w, t.iface, t.subnets);
    RunInstant(o.env, w1, LacDisconnect(t.name));
    RunInstant(o.env, w2, LacRemove(t.name));
    RunInstant(o.env, w3, Terminate(t.name));
  }

  lemma {:induction false} StaleInstant(o: Setup, w: World, ts: map<string, Tunnel>, names: seq<string>)
    requires Instant(o.env)
    ensures DisconnectEach(o, w, ts, names).time == w.time
    decreases |names|
  {
    hide Disconnect, Instant;
    if names != [] {
      var w' := if names[0] in ts then Disconnect(o, w, ts[names[0]]) else w;
      if names[0] in ts {
        DisconnectInstant(o, w, ts[names[0]]);
      }
      StaleInstant(o, w', ts, names[1..]);
    }
  }

  lemma WriteCarries(o: Setup, f: Fleet, conns: seq<Connection>, i: Input)
    requires Instant(o.env)
    ensures Carries(f, WriteConfigs(o, f, conns, i).0)
  {
    hide Run, DesiredTunnels, Fingerprints, ChangedTunnels, Instant;
    var desired := DesiredTunnels(conns, i);
    if desired.Some? {
      RunInstant(o.env, f.world, WriteFiles(desired.value));
      RunInstant(o.env, Run(o.env, f.world, WriteFiles(desired.value)).0, LoadAll);
    }
  }

  lemma RedefineCarries(o: Setup, f: Fleet, d: Definition)
    requires Instant(o.env)
    ensures Carries(f, Redefine(o, f, d))
  {
    hide Run, TearDownIf, Instant;
    var n, f1 := d.name, Drop(o, f, d.name);
    if n in f.tunnels {
      var t := f.tunnels[n];
      var w1 := TearDownIf(o, f.world, t.iface, t.subnets);
      var w2 := Run(o.env, w1, LacDisconnect(n)).0;
      TearDownInstant(o, f.world, t.iface, t.subnets);
      RunInstant(o.env, w1, LacDisconnect(n));
      RunInstant(o.env, w2, Terminate(n));
    }
    RunInstant(o.env, f1.world, LacRemove(n));
    RunInstant(o.env, Run(o.env, f1.world, LacRemove(n)).0, LacAdd(d));
  }

  lemma {:induction false} RedefineEachCarries(o: Setup, f: Fleet, defs: seq<Definition>)
    requires Instant(o.env)
    ensures Carries(f, RedefineEach(o, f, defs))
    decreases |defs|
  {
    hide Redefine, Instant;
    if defs != [] {
      RedefineCarries(o, f, defs[0]);
      RedefineEachCarries(o, Redefine(o, f, defs[0]), defs[1..]);
    }
  }

  lemma DialCarries(o: Setup, f: Fleet, n: string)
    requires Instant(o.env)
    ensures Carries(f, Dial(o, f, n))
  {
    hide Run, Instant, RedialDelay;
    var w1 := Run(o.env, f.world, LacDisconnect(n)).0;
    var w2 := Run(o.env, w1, Initiate(n)).0;
    RunInstant(o.env, f.world, LacDisconnect(n));
    RunInstant(o.env, w1, Initiate(n));
    RunInstant(o.env, w2, LacConnect(n));
  }

  lemma StepCarries(o: Setup, f: Fleet, conn: Connection)
    requires Instant(o.env)
    ensures Carries(f, Step(o, f, conn))
  {
    hide Dial, Fail, Instant, Carries;
    var n, t := conn.name, Refreshed(f, conn);
    var g := f.(tunnels := f.tunnels[n := t]);
    assert Carries(f, g) by { RefreshCarries(f, conn); }
    DialCarries(o, g, n);
    FailCarries(o, g, n, t.iface);
    CarriesThen(f, g, Step(o, f, conn));
  }

  lemma RefreshCarries(f: Fleet, conn: Connection)
    ensures Carries(f, f.(tunnels := f.tunnels[conn.name := Refreshed(f, conn)]))
  {
  }

  lemma {:induction false} StepEachCarries(o: Setup, f: Fleet, conns: seq<Connection>)
    requires Instant(o.env)
    ensures Carries(f, StepEach(o, f, conns))
    decreases |conns|
  {
    hide Step, Instant;
    if conns != [] {
      StepCarries(o, f, conns[0]);
      StepEachCarries(o, Step(o, f, conns[0]), conns[1..]);
    }
  }

  lemma AdvertiseCarries(o: Setup, f: Fleet, i: Input)
    requires Instant(o.env)
    ensures Carries(f, Advertise(o, f, i).0)
  {
    hide Run, Sort, Join, Instant;
    if i.routes.Some? {
      RunInstant(o.env, f.world, SetRoutes(Sort(i.routes.value)));
    }
  }

  lemma ReconcileCarries(o: Setup, f: Fleet, i: Input)
    requires Instant(o.env)
    ensures Carries(f, Reconcile(o, f, i).0)
  {
    hide WriteConfigs, RedefineEach, StepEach, Advertise, Enabled, DisconnectEach, Instant;
    if i.conns.Some? {
      var enabled := Enabled(i.conns.value);
      var f1 := RemoveStale(o, f, i.staleOrder);
      StaleInstant(o, f.world, f.tunnels, i.staleOrder);
      var (f2, changed) := WriteConfigs(o, f1, enabled, i);
      WriteCarries(o, f1, enabled, i);
      if changed.Some? {
        var f3 := RedefineEach(o, f2, changed.value);
        RedefineEachCarries(o, f2, changed.value);
        StepEachCarries(o, f3, enabled);
        AdvertiseCarries(o, StepEach(o, f3, enabled), i);
      }
    }
  }

  // ----- the loop and the fleet it drives

  datatype At = Reconciling | Sleeping(until: nat)

  datatype End = End(at: nat, ok: bool, tunnels: map<string, Tunnel>)

  /** The fleet, whose world holds the clock; where the loop is; its one-place
      nudge channel. For the record: when each Reconcile started, and whether a
      timer started it; when each ended, how, and with what tunnels; and the quiet
      tunnels, whose backoff was set by an up hook that failed. Such a hook does
      not nudge; a tunnel is quiet until a sleep takes its backoff into account
      or something else sets it. */
  datatype Loop = Loop(
    fleet: Fleet, at: At, token: bool, quiet: set<string>, starts: seq<nat>, timed: seq<bool>, ends: seq<End>)
  {
    function Now(): nat { fleet.world.time }
  }

  datatype Move =
    | Nudge
    | Outside(event: Event)
    | Finish(input: Input, retry: nat)
    | TakeNudge
    | Timer
    | Elapse(time: nat)

  /** Hooks and events happen at any moment. The clock runs only while the loop
      sleeps with an empty channel, and not past its timer. */
  ghost predicate CanMove(o: Setup, tick: nat, l: Loop, m: Move) {
    match m
    case Nudge => true
    case Outside(e) => !e.Reconciled? && !e.Ticked?
    case Finish(i, retry) =>
      l.at.Reconciling? && var f' := Reconcile(o, l.fleet, i).0; IsWait(f'.tunnels, f'.world.time, tick, retry)
    case TakeNudge => l.at.Sleeping? && l.token
    case Timer => l.at.Sleeping? && l.Now() >= l.at.until
    case Elapse(time) => l.at.Sleeping? && !l.token && l.Now() + time <= l.at.until
  }

  predicate Nudges(f: Fleet, e: Event) {
    match e
    case WentDown(name, _) => name in f.tunnels
    case FoundUnhealthy(name) => name in f.tunnels
    case CharonRestarted => true
    case XL2TPDRestarted => true
    case _ => false
  }

  function QuietAfter(o: Setup, f: Fleet, e: Event, quiet: set<string>): set<string> {
    match e
    case WentUp(name, iface) =>
      if name !in f.tunnels then quiet
      else if PPPUp(o, f, name, iface).1 then quiet - {name}
      else quiet + {name}
    case WentDown(name, _) => if name in f.tunnels then quiet - {name} else quiet
    case FoundUnhealthy(name) => if name in f.tunnels then quiet - {name} else quiet
    case _ => quiet
  }

  /** The sleep after a Reconcile: the tick, or five seconds if it failed, cut to
      the shortest pending backoff. */
  function Rested(o: Setup, tick: nat, l: Loop, i: Input, retry: nat): Loop {
    var (f', ok) := Reconcile(o, l.fleet, i);
    var now := f'.world.time;
    l.(fleet := f', at := Sleeping(now + Min(if ok then tick else RETRY_TICK, retry)),
       ends := l.ends + [End(now, ok, f'.tunnels)],
       quiet := set n | n in l.quiet && n in f'.tunnels && f'.tunnels[n].retryAt <= now)
  }

  function Moved(o: Setup, tick: nat, l: Loop, m: Move): Loop {
    match m
    case Nudge => l.(token := true)
    case Outside(e) =>
      l.(fleet := Next(o, l.fleet, e), token := l.token || Nudges(l.fleet, e),
         quiet := QuietAfter(o, l.fleet, e, l.quiet))
    case Finish(i, retry) => Rested(o, tick, l, i, retry)
    case TakeNudge => l.(at := Reconciling, token := false, starts := l.starts + [l.Now()], timed := l.timed + [false])
    case Timer => l.(at := Reconciling, starts := l.starts + [l.Now()], timed := l.timed + [true])
    case Elapse(time) => l.(fleet := l.fleet.(world := l.fleet.world.(time := l.Now() + time)))
  }

  ghost predicate Reaches(o: Setup, tick: nat, l: Loop, moves: seq<Move>, l': Loop)
    decreases |moves|
  {
    if moves == [] then l' == l
    else CanMove(o, tick, l, moves[0]) && Reaches(o, tick, Moved(o, tick, l, moves[0]), moves[1..], l')
  }

  /** The loop starts with a Reconcile of an empty fleet. */
  predicate Starts(l: Loop) {
    Initial(l.fleet) && l.at.Reconciling? && l.quiet == {} && l.starts == [l.Now()] && l.timed == [false] && l.ends == []
  }

  // ----- what an event does to the backoffs

  function Subject(e: Event): string {
    match e
    case WentUp(name, _) => name
    case WentDown(name, _) => name
    case FoundUnhealthy(name) => name
    case _ => ""
  }

  predicate Touches(f: Fleet, e: Event) {
    (e.WentUp? || e.WentDown? || e.FoundUnhealthy?) && Subject(e) in f.tunnels
  }

  lemma UpCarries(o: Setup, f: Fleet, n: string, iface: string)
    requires Instant(o.env) && n in f.tunnels
    ensures var (f', ok) := PPPUp(o, f, n, iface);
      && f'.world.time == f.world.time && f'.tunnels == f.tunnels[n := f'.tunnels[n]]
      && (if ok then f'.tunnels[n].retryAt == 0 && f'.tunnels[n].phase == Up else f'.tunnels[n].retryAt > f.world.time)
  {
    hide AddRoutes, EnsureRules, TearDownIf, Instant, RedialDelay;
    var t := f.tunnels[n];
    var w1 := AddRoutes(o.env, f.world, iface, t.subnets).0;
    AddRoutesInstant(o.env, f.world, iface, t.subnets);
    EnsureRulesInstant(o.env, w1, NatRules(iface));
    TearDownInstant(o, w1, iface, t.subnets);
    TearDownInstant(o, EnableNAT(o.env, w1, iface).0, iface, t.subnets);
  }

  lemma EventCarries(o: Setup, f: Fleet, e: Event)
    requires Instant(o.env) && !e.Reconciled? && !e.Ticked?
    ensures var f', n := Next(o, f, e), Subject(e);
      && f'.world.time == f.world.time
      && (!Touches(f, e) ==> f'.tunnels == f.tunnels)
      && (Touches(f, e) ==>
            && f'.tunnels == f.tunnels[n := f'.tunnels[n]]
            && (e.WentUp? && PPPUp(o, f, n, e.iface).1 ==> f'.tunnels[n].retryAt == 0 && f'.tunnels[n].phase == Up)
            && (!e.WentUp? || !PPPUp(o, f, n, e.iface).1 ==> f'.tunnels[n].retryAt > f.world.time))
  {
    hide PPPUp, TearDownIf, Instant, RedialDelay, FromFiles;
    match e
    case WentUp(name, iface) =>
      if name in f.tunnels {
        UpCarries(o, f, name, iface);
      } else {
        Hooks.UnknownName(o, f, name, iface);
      }
    case WentDown(name, iface) =>
      if name in f.tunnels {
        var t := f.tunnels[name];
        TearDownInstant(o, f.world, if iface == "" then t.iface else iface, t.subnets);
      }
    case FoundUnhealthy(name) =>
      if name in f.tunnels {
        FailCarries(o, f, name, f.tunnels[name].iface);
      }
    case _ =>
  }

  // ----- every backoff is served

  /** How late a backoff may be served. */
  function Slack(tick: nat, quiet: set<string>, n: string): nat {
    if n in quiet then Max(tick, SECOND) else SECOND
  }

  /** A Reconcile started when the backoff had run out, and not too late. */
  ghost predicate Served(starts: seq<nat>, retryAt: nat, slack: nat) {
    exists k :: 0 <= k < |starts| && retryAt <= starts[k] < retryAt + slack
  }

  /** It is not too late yet, and the loop will be back before it is. */
  predicate OnTime(l: Loop, retryAt: nat, slack: nat) {
    && l.Now() < retryAt + slack
    && (l.at.Reconciling? || l.token || l.at.until < retryAt + slack)
  }

  predicate Punctual(tick: nat, l: Loop) {
    && (l.at.Reconciling? ==> l.starts != [] && l.starts[|l.starts| - 1] == l.Now())
    && (l.at.Sleeping? ==> l.Now() <= l.at.until <= l.Now() + Max(tick, SECOND))
  }

  ghost predicate Attended(tick: nat, l: Loop) {
    forall n :: n in l.fleet.tunnels && l.fleet.tunnels[n].retryAt != 0 ==>
      var r, slack := l.fleet.tunnels[n].retryAt, Slack(tick, l.quiet, n);
      Served(l.starts, r, slack) || OnTime(l, r, slack)
  }

  lemma ServedMore(starts: seq<nat>, s: nat, retryAt: nat, slack: nat)
    ensures Served(starts, retryAt, slack) ==> Served(starts + [s], retryAt, slack)
  {
    if Served(starts, retryAt, slack) {
      var k :| 0 <= k < |starts| && retryAt <= starts[k] < retryAt + slack;
      assert (starts + [s])[k] == starts[k];
    }
  }

  /** The sleep is short enough for every backoff still to run. */
  lemma RestOnTime(o: Setup, tick: nat, l: Loop, i: Input, retry: nat, n: string)
    requires CanMove(o, tick, l, Finish(i, retry))
    requires var l' := Rested(o, tick, l, i, retry);
      n in l'.fleet.tunnels && l'.fleet.tunnels[n].retryAt > l'.Now()
    ensures var l' := Rested(o, tick, l, i, retry);
      OnTime(l', l'.fleet.tunnels[n].retryAt, Slack(tick, l'.quiet, n))
  {
    hide Reconcile;
    var l' := Rested(o, tick, l, i, retry);
    assert Pending(l'.fleet.tunnels[n], l'.Now());
  }

  lemma FinishAttends(o: Setup, tick: nat, l: Loop, i: Input, retry: nat)
    requires Instant(o.env) && Punctual(tick, l) && Attended(tick, l) && CanMove(o, tick, l, Finish(i, retry))
    ensures Punctual(tick, Rested(o, tick, l, i, retry)) && Attended(tick, Rested(o, tick, l, i, retry))
  {
    hide Reconcile, Instant, OnTime;
    var l' := Rested(o, tick, l, i, retry);
    ReconcileCarries(o, l.fleet, i);
    forall n | n in l'.fleet.tunnels && l'.fleet.tunnels[n].retryAt != 0
      ensures var r, slack := l'.fleet.tunnels[n].retryAt, Slack(tick, l'.quiet, n);
        Served(l'.starts, r, slack) || OnTime(l', r, slack)
    {
      var r := l'.fleet.tunnels[n].retryAt;
      if r > l'.Now() {
        RestOnTime(o, tick, l, i, retry, n);
      } else {
        assert Slack(tick, l'.quiet, n) == Slack(tick, l.quiet, n);
        StartServes(l, r, Slack(tick, l.quiet, n));
      }
    }
  }

  /** The Reconcile now running serves what has run out. */
  lemma StartServes(l: Loop, r: nat, slack: nat)
    requires l.at.Reconciling? && l.starts != [] && l.starts[|l.starts| - 1] == l.Now() && r <= l.Now()
    ensures OnTime(l, r, slack) ==> Served(l.starts, r, slack)
  {
  }

  lemma OutsideAttends(o: Setup, tick: nat, l: Loop, e: Event)
    requires Instant(o.env) && Punctual(tick, l) && Attended(tick, l) && !e.Reconciled? && !e.Ticked?
    ensures Punctual(tick, Moved(o, tick, l, Outside(e))) && Attended(tick, Moved(o, tick, l, Outside(e)))
  {
    hide Next, PPPUp, Instant, Served;
    EventCarries(o, l.fleet, e);
  }

  lemma MoveAttends(o: Setup, tick: nat, l: Loop, m: Move)
    requires Instant(o.env) && Punctual(tick, l) && Attended(tick, l) && CanMove(o, tick, l, m)
    ensures Punctual(tick, Moved(o, tick, l, m)) && Attended(tick, Moved(o, tick, l, m))
  {
    hide Next, Reconcile, Rested, QuietAfter, Nudges, Instant, Served, IsWait;
    match m
    case Finish(i, retry) => FinishAttends(o, tick, l, i, retry);
    case Outside(e) => OutsideAttends(o, tick, l, e);
    case Nudge =>
    case Elapse(_) =>
    case _ =>
      forall n | n in l.fleet.tunnels {
        ServedMore(l.starts, l.Now(), l.fleet.tunnels[n].retryAt, Slack(tick, l.quiet, n));
      }
  }

  lemma {:induction false} RunAttends(o: Setup, tick: nat, l: Loop, moves: seq<Move>, l': Loop)
    requires Instant(o.env) && Punctual(tick, l) && Attended(tick, l) && Reaches(o, tick, l, moves, l')
    ensures Punctual(tick, l') && Attended(tick, l')
    decreases |moves|
  {
    hide Instant, Punctual, Attended, CanMove, Moved;
    if moves != [] {
      MoveAttends(o, tick, l, moves[0]);
      RunAttends(o, tick, Moved(o, tick, l, moves[0]), moves[1..], l');
    }
  }

  /** In every run of the loop, whatever fails: a backoff that ran out a second
      ago was met by a Reconcile that started in that second. For one set by a
      failing up hook, which does not nudge, the second is a tick. */
  lemma BackoffsServed(o: Setup, tick: nat, l: Loop, moves: seq<Move>, l': Loop, n: string)
    requires Instant(o.env) && Starts(l) && Reaches(o, tick, l, moves, l')
    requires n in l'.fleet.tunnels && l'.fleet.tunnels[n].retryAt != 0
    ensures var r, slack := l'.fleet.tunnels[n].retryAt, Slack(tick, l'.quiet, n);
      l'.Now() >= r + slack ==> Served(l'.starts, r, slack)
  {
    hide Instant, Reaches, Served;
    RunAttends(o, tick, l, moves, l');
  }

  // ----- how long each sleep is

  /** When the next Reconcile is due after one that ended: after a tick, or after
      five seconds if it failed, but no later than the sleep the pending backoffs
      ask for. */
  function DueAfter(tick: nat, e: End, wait: nat): nat {
    e.at + Min(if e.ok then tick else 5 * SECOND, wait)
  }

  predicate InTurn(l: Loop) {
    |l.timed| == |l.starts| && |l.starts| == |l.ends| + (if l.at.Reconciling? then 1 else 0)
  }

  /** The Reconcile after this one started no later than it was due, and exactly
      then if a timer started it; or it is not due yet. */
  ghost predicate TimelyAt(tick: nat, l: Loop, k: nat, wait: nat)
    requires InTurn(l) && k < |l.ends|
  {
    var e, due := l.ends[k], DueAfter(tick, l.ends[k], wait);
    IsWait(e.tunnels, e.at, tick, wait) ==>
      if k + 1 < |l.starts| then e.at <= l.starts[k + 1] <= due && (l.timed[k + 1] ==> l.starts[k + 1] == due)
      else l.at.Sleeping? && l.at.until == due && e.at <= l.Now() <= due
  }

  ghost predicate Timely(tick: nat, l: Loop) {
    InTurn(l) && forall k: nat, wait: nat :: k < |l.ends| ==> TimelyAt(tick, l, k, wait)
  }

  lemma StartTimely(o: Setup, tick: nat, l: Loop, m: Move)
    requires Timely(tick, l) && (m.TakeNudge? || m.Timer?) && CanMove(o, tick, l, m)
    ensures Timely(tick, Moved(o, tick, l, m))
  {
    hide IsWait;
    var l' := Moved(o, tick, l, m);
    forall k: nat, wait: nat | k < |l'.ends| ensures TimelyAt(tick, l', k, wait) {
      assert TimelyAt(tick, l, k, wait);
    }
  }

  lemma FinishTimely(o: Setup, tick: nat, l: Loop, i: Input, retry: nat)
    requires Timely(tick, l) && CanMove(o, tick, l, Finish(i, retry))
    ensures Timely(tick, Rested(o, tick, l, i, retry))
  {
    hide Reconcile, IsWait;
    var l' := Rested(o, tick, l, i, retry);
    forall k: nat, wait: nat | k < |l'.ends| ensures TimelyAt(tick, l', k, wait) {
      var e := l'.ends[k];
      if k < |l.ends| {
        assert TimelyAt(tick, l, k, wait);
      } else if IsWait(e.tunnels, e.at, tick, wait) {
        WaitUnique(e.tunnels, e.at, tick, wait, retry);
      }
    }
  }

  lemma OutsideTimely(o: Setup, tick: nat, l: Loop, e: Event)
    requires Instant(o.env) && Timely(tick, l) && !e.Reconciled? && !e.Ticked?
    ensures Timely(tick, Moved(o, tick, l, Outside(e)))
  {
    hide Next, Instant, Timely, QuietAfter, Nudges;
    EventCarries(o, l.fleet, e);
    SameTimely(tick, l, Moved(o, tick, l, Outside(e)));
  }

  lemma SameTimely(tick: nat, l: Loop, l': Loop)
    requires Timely(tick, l) && l'.at == l.at && l'.starts == l.starts && l'.timed == l.timed && l'.ends == l.ends
    requires l.Now() <= l'.Now() && (l.at.Sleeping? ==> l'.Now() == l.Now() || l'.Now() <= l.at.until)
    ensures Timely(tick, l')
  {
    hide IsWait;
    forall k: nat, wait: nat | k < |l'.ends| ensures TimelyAt(tick, l', k, wait) {
      assert TimelyAt(tick, l, k, wait);
    }
  }

  lemma MoveTimely(o: Setup, tick: nat, l: Loop, m: Move)
    requires Instant(o.env) && Timely(tick, l) && CanMove(o, tick, l, m)
    ensures Timely(tick, Moved(o, tick, l, m))
  {
    hide Timely, Next, Rested, Instant, QuietAfter, Nudges, IsWait;
    match m
    case Finish(i, retry) => FinishTimely(o, tick, l, i, retry);
    case Outside(e) => OutsideTimely(o, tick, l, e);
    case TakeNudge => StartTimely(o, tick, l, m);
    case Timer => StartTimely(o, tick, l, m);
    case Nudge => SameTimely(tick, l, Moved(o, tick, l, m));
    case Elapse(_) => SameTimely(tick, l, Moved(o, tick, l, m));
  }

  lemma {:induction false} RunTimely(o: Setup, tick: nat, l: Loop, moves: seq<Move>, l': Loop)
    requires Instant(o.env) && Timely(tick, l) && Reaches(o, tick, l, moves, l')
    ensures Timely(tick, l')
    decreases |moves|
  {
    hide Instant, Timely, CanMove, Moved;
    if moves != [] {
      MoveTimely(o, tick, l, moves[0]);
      RunTimely(o, tick, Moved(o, tick, l, moves[0]), moves[1..], l');
    }
  }

  /** In every run: after a Reconcile that failed the next one starts within five
      seconds, after one that succeeded within a tick, and in both cases within
      the sleep the backoffs then pending ask for; exactly at the end of that time
      if no nudge comes first. Until it has started the time is not over. */
  lemma SleepExact(o: Setup, tick: nat, l: Loop, moves: seq<Move>, l': Loop, k: nat, wait: nat)
    requires Instant(o.env) && Starts(l) && Reaches(o, tick, l, moves, l') && k < |l'.ends|
    requires IsWait(l'.ends[k].tunnels, l'.ends[k].at, tick, wait)
    ensures |l'.timed| == |l'.starts|
    ensures var e := l'.ends[k];
      var due := e.at + Min(if e.ok then tick else 5 * SECOND, wait);
      if k + 1 < |l'.starts| then e.at <= l'.starts[k + 1] <= due && (l'.timed[k + 1] ==> l'.starts[k + 1] == due)
      else e.at <= l'.Now() <= due
  {
    hide Instant, Reaches, IsWait;
    assert Timely(tick, l);
    RunTimely(o, tick, l, moves, l');
    assert TimelyAt(tick, l', k, wait);
  }

  // ----- no tunnel is overdue

  /** The Reconcile reads its tunnels and loads its configuration. */
  ghost predicate GoesThrough(o: Setup, f: Fleet, i: Input) {
    && StaleOrdered(f, i) && i.conns.Some? && NamesDistinct(Enabled(i.conns.value))
    && Daemons.WriteOk(o, f, i)
  }

  ghost predicate AllGoThrough(o: Setup, tick: nat, l: Loop, moves: seq<Move>)
    decreases |moves|
  {
    moves == [] ||
    (&& (moves[0].Finish? ==> GoesThrough(o, l.fleet, moves[0].input))
     && AllGoThrough(o, tick, Moved(o, tick, l, moves[0]), moves[1..]))
  }

  predicate NoneOverdue(tick: nat, l: Loop) {
    forall n :: n in l.fleet.tunnels && Traces.Waiting(l.fleet.tunnels[n]) ==>
      l.fleet.tunnels[n].retryAt != 0 && OnTime(l, l.fleet.tunnels[n].retryAt, Slack(tick, l.quiet, n))
  }

  /** After a Reconcile that goes through no tunnel is due. */
  lemma NothingDueAfter(o: Setup, f: Fleet, i: Input)
    requires Instant(o.env) && o.dialTimeout > 0 && GoesThrough(o, f, i)
    ensures var f' := Reconcile(o, f, i).0;
      forall n :: n in f'.tunnels ==> !Due(o, f'.tunnels[n], f'.world.time)
  {
    hide Enabled, WriteConfigs, RedefineEach, StepEach, Due, Instant, DisconnectEach, ConnNames, Distinct,
         NamesDistinct;
    var conns := Enabled(i.conns.value);
    var f1 := RemoveStale(o, f, i.staleOrder);
    var (f2, changed) := WriteConfigs(o, f1, conns, i);
    WriteConfigsFrame(o, f1, conns, i);
    var f3 := RedefineEach(o, f2, changed.value);
    RedefineEachRecords(o, f2, changed.value);
    StepEachServes(o, f3, conns);
    StepEachRecords(o, f3, conns);
    AdvertiseFrame(o, StepEach(o, f3, conns), i);
    AdvertiseCarries(o, StepEach(o, f3, conns), i);
    assert f1.tunnels.Keys <= ConnNames(conns);
  }

  lemma MoveNoneOverdue(o: Setup, tick: nat, l: Loop, m: Move)
    requires Instant(o.env) && o.dialTimeout > 0 && Punctual(tick, l) && NoneOverdue(tick, l)
    requires CanMove(o, tick, l, m) && (m.Finish? ==> GoesThrough(o, l.fleet, m.input))
    ensures NoneOverdue(tick, Moved(o, tick, l, m))
  {
    hide Next, Reconcile, Instant, IsWait, PPPUp, GoesThrough;
    match m
    case Finish(i, retry) =>
      var l' := Moved(o, tick, l, m);
      NothingDueAfter(o, l.fleet, i);
      forall n | n in l'.fleet.tunnels && Traces.Waiting(l'.fleet.tunnels[n])
        ensures OnTime(l', l'.fleet.tunnels[n].retryAt, Slack(tick, l'.quiet, n))
      {
        assert !Due(o, l'.fleet.tunnels[n], l'.Now());
        RestOnTime(o, tick, l, i, retry, n);
      }
    case Outside(e) => EventCarries(o, l.fleet, e);
    case _ =>
  }

  lemma {:induction false} RunNoneOverdue(o: Setup, tick: nat, l: Loop, moves: seq<Move>, l': Loop)
    requires Instant(o.env) && o.dialTimeout > 0 && Punctual(tick, l) && Attended(tick, l) && NoneOverdue(tick, l)
    requires Reaches(o, tick, l, moves, l') && AllGoThrough(o, tick, l, moves)
    ensures NoneOverdue(tick, l')
    decreases |moves|
  {
    hide Instant, Punctual, Attended, NoneOverdue, CanMove, Moved, GoesThrough;
    if moves != [] {
      MoveAttends(o, tick, l, moves[0]);
      MoveNoneOverdue(o, tick, l, moves[0]);
      RunNoneOverdue(o, tick, Moved(o, tick, l, moves[0]), moves[1..], l');
    }
  }

  /** In every run whose Reconciles go through, no tunnel waits a second past its
      time; one whose up hook failed quietly, not a tick. */
  lemma NeverOverdue(o: Setup, tick: nat, l: Loop, moves: seq<Move>, l': Loop, n: string)
    requires Instant(o.env) && o.dialTimeout > 0 && Starts(l)
    requires Reaches(o, tick, l, moves, l') && AllGoThrough(o, tick, l, moves)
    requires n in l'.fleet.tunnels && Traces.Waiting(l'.fleet.tunnels[n])
    ensures l'.Now() < l'.fleet.tunnels[n].retryAt + Slack(tick, l'.quiet, n)
  {
    hide Instant, Reaches, AllGoThrough;
    RunNoneOverdue(o, tick, l, moves, l');
  }

  /** The exception is real: nothing wakes the loop for an up hook that fails
      while it sleeps. */
  lemma QuietFailureWaits(o: Setup, tick: nat, l: Loop, n: string, iface: string)
    requires Instant(o.env) && l.at.Sleeping? && !l.token && l.at.until >= l.Now() + MIN_REDIAL + SECOND
    requires n in l.fleet.tunnels && l.fleet.tunnels[n].failures == 0 && !PPPUp(o, l.fleet, n, iface).1
    ensures var moves := [Outside(WentUp(n, iface)), Elapse(l.at.until - l.Now())];
      exists l' :: Reaches(o, tick, l, moves, l') && n in l'.fleet.tunnels && l'.starts == l.starts
        && l'.Now() >= l'.fleet.tunnels[n].retryAt + SECOND && Traces.Waiting(l'.fleet.tunnels[n])
  {
    hide PPPUp, Instant;
    var e := WentUp(n, iface);
    UpCarries(o, l.fleet, n, iface);
    FirstFailure(o, l.fleet, n, iface);
    var l1 := Moved(o, tick, l, Outside(e));
    var d := Elapse(l.at.until - l.Now());
    var l2 := Moved(o, tick, l1, d);
    var moves := [Outside(e), d];
    assert moves[1..] == [d] && [d][1..] == [];
    assert Reaches(o, tick, l2, [], l2);
    assert Reaches(o, tick, l1, [d], l2);
    assert Reaches(o, tick, l, moves, l2);
  }

  lemma FirstFailure(o: Setup, f: Fleet, n: string, iface: string)
    requires Instant(o.env) && n in f.tunnels && f.tunnels[n].failures == 0 && !PPPUp(o, f, n, iface).1
    ensures var t := PPPUp(o, f, n, iface).0.tunnels[n]; t.retryAt == f.world.time + MIN_REDIAL && t.phase == Failed
  {
    hide AddRoutes, EnsureRules, TearDownIf, Instant, RedialDelay;
    var t := f.tunnels[n];
    var w1 := AddRoutes(o.env, f.world, iface, t.subnets).0;
    AddRoutesInstant(o.env, f.world, iface, t.subnets);
    EnsureRulesInstant(o.env, w1, NatRules(iface));
    TearDownInstant(o, w1, iface, t.subnets);
    TearDownInstant(o, EnableNAT(o.env, w1, iface).0, iface, t.subnets);
    assert RedialDelay(1) == MIN_REDIAL by { FirstDelay(); }
  }

  lemma FirstDelay()
    ensures RedialDelay(1) == MIN_REDIAL
  {
    BackoffExact(1);
  }

  /** A host on which only setting routes breaks. */
  const QUIET_SETUP := Setup(Env((t: seq<Entry>, c: Command) => !c.RouteReplace?, (t, c) => 0), 60 * SECOND, false)

  /** The lone tunnel is created, dialled and connecting. */
  lemma LoneDialled(f: Fleet)
    requires f == Daemons.LONE_START
    ensures var (f', ok) := Reconcile(QUIET_SETUP, f, Daemons.LoneInput(true, []));
      && ok && f'.tunnels.Keys == {"hq"} && f'.world.time == f.world.time
      && var t := f'.tunnels["hq"]; t.failures == 0 && t.retryAt == 0 && t.subnets == ["10.0.0.0/8"]
  {
    hide WriteConfigs, RedefineEach, Enabled, DesiredTunnels, Fingerprints, Perform, Instant;
    var o, i, conns := QUIET_SETUP, Daemons.LoneInput(true, []), [Daemons.LONE];
    Daemons.LoneWanted([]);
    Daemons.LoneSucceeds(o, f, []);
    assert RemoveStale(o, f, []) == f by { assert f.tunnels - (set n | n in i.staleOrder) == f.tunnels; }
    var (f2, changed) := WriteConfigs(o, f, conns, i);
    WriteConfigsFrame(o, f, conns, i);
    var f3 := RedefineEach(o, f2, changed.value);
    RedefineEachRecords(o, f2, changed.value);
    assert conns[1..] == [];
    assert StepEach(o, f3, conns) == Step(o, f3, conns[0]);
    NewlyDialled(o, f3, conns[0]);
    assert Instant(o.env) by { QuietInstant(); }
    ReconcileCarries(o, f, i);
  }

  lemma QuietInstant()
    ensures Instant(QUIET_SETUP.env)
  {
  }

  /** The first dial of a new tunnel, when it is accepted. */
  lemma NewlyDialled(o: Setup, f: Fleet, conn: Connection)
    requires conn.name !in f.tunnels
    requires forall t: seq<Entry>, c: Command :: c.Initiate? || c.LacConnect? ==> o.env.works(t, c)
    ensures var f' := Step(o, f, conn);
      && f'.tunnels.Keys == f.tunnels.Keys + {conn.name}
      && var t := f'.tunnels[conn.name]; t.failures == 0 && t.retryAt == 0 && t.subnets == conn.subnets
  {
  }

  /** Such a run from the start: one connection is dialled, the loop sleeps for a
      thirty-second tick, the up hook cannot set its route and fails, and the
      sleep goes on past the tunnel's time. */
  lemma QuietRun()
    ensures var l := Loop(Daemons.LONE_START, Reconciling, false, {}, [Daemons.LONE_START.world.time], [false], []);
      && Starts(l)
      && exists moves, l' :: Reaches(QUIET_SETUP, 30 * SECOND, l, moves, l') && l'.starts == l.starts
           && "hq" in l'.fleet.tunnels && Traces.Waiting(l'.fleet.tunnels["hq"])
           && l'.Now() >= l'.fleet.tunnels["hq"].retryAt + SECOND
  {
    hide Reconcile, PPPUp, Instant;
    var o, tick, on := QUIET_SETUP, 30 * SECOND, Daemons.LoneInput(true, []);
    var l := Loop(Daemons.LONE_START, Reconciling, false, {}, [Daemons.LONE_START.world.time], [false], []);
    QuietInstant();
    LoneDialled(l.fleet);
    var m := Finish(on, tick);
    var l1 := Moved(o, tick, l, m);
    assert CanMove(o, tick, l, m);
    assert !PPPUp(o, l1.fleet, "hq", "ppp0").1 by { CannotRoute(l1.fleet); }
    QuietFailureWaits(o, tick, l1, "hq", "ppp0");
    var rest := [Outside(WentUp("hq", "ppp0")), Elapse(l1.at.until - l1.Now())];
    var l' :| Reaches(o, tick, l1, rest, l') && "hq" in l'.fleet.tunnels && l'.starts == l1.starts
      && l'.Now() >= l'.fleet.tunnels["hq"].retryAt + SECOND && Traces.Waiting(l'.fleet.tunnels["hq"]);
    var moves := [m] + rest;
    assert moves[0] == m && moves[1..] == rest;
    assert Reaches(o, tick, l, moves, l');
  }

  lemma CannotRoute(f: Fleet)
    requires "hq" in f.tunnels && f.tunnels["hq"].subnets == ["10.0.0.0/8"]
    ensures !PPPUp(QUIET_SETUP, f, "hq", "ppp0").1
  {
  }

  // ----- a nudge is never lost

  predicate OfLoop(m: Move) {
    m.Finish? || m.TakeNudge? || m.Timer?
  }

  function LoopMoves(moves: seq<Move>): nat {
    if moves == [] then 0 else (if OfLoop(moves[0]) then 1 else 0) + LoopMoves(moves[1..])
  }

  lemma {:induction false} StartsGrow(o: Setup, tick: nat, l: Loop, moves: seq<Move>, l': Loop)
    requires Reaches(o, tick, l, moves, l')
    ensures l.starts <= l'.starts
    decreases |moves|
  {
    hide CanMove, Next, Reconcile, QuietAfter, Nudges;
    if moves != [] {
      StartsGrow(o, tick, Moved(o, tick, l, moves[0]), moves[1..], l');
    }
  }

  /** With a nudge in the channel a Reconcile starts as soon as the current one
      ends: until it does, no time passes, the nudge stays, and the loop makes no
      step but to end the current one. It starts at the time of the nudge. */
  lemma {:induction false} NudgeServed(o: Setup, tick: nat, l: Loop, moves: seq<Move>, l': Loop)
    requires Instant(o.env) && l.token && Reaches(o, tick, l, moves, l')
    ensures l.starts <= l'.starts
    ensures if |l'.starts| > |l.starts| then l'.starts[|l.starts|] == l.Now()
      else l'.token && l'.Now() == l.Now() && LoopMoves(moves) <= if l.at.Reconciling? then 1 else 0
    decreases |moves|
  {
    hide Instant, Next, Reconcile, QuietAfter, Nudges, IsWait;
    StartsGrow(o, tick, l, moves, l');
    if moves != [] {
      var m := moves[0];
      var l1 := Moved(o, tick, l, m);
      assert CanMove(o, tick, l, m);
      StartsGrow(o, tick, l1, moves[1..], l');
      match m
      case Outside(e) =>
        EventCarries(o, l.fleet, e);
        NudgeServed(o, tick, l1, moves[1..], l');
      case Finish(i, retry) =>
        ReconcileCarries(o, l.fleet, i);
        NudgeServed(o, tick, l1, moves[1..], l');
      case Nudge =>
        NudgeServed(o, tick, l1, moves[1..], l');
      case _ =>
    }
  }

  /** A down hook or a failed health check of a known tunnel, and a restart of
      either daemon, is followed by a Reconcile before any time passes. */
  lemma EventServed(o: Setup, tick: nat, l: Loop, e: Event, moves: seq<Move>, l': Loop)
    requires Instant(o.env) && Reaches(o, tick, Moved(o, tick, l, Outside(e)), moves, l')
    requires match e
      case WentDown(name, _) => name in l.fleet.tunnels
      case FoundUnhealthy(name) => name in l.fleet.tunnels
      case CharonRestarted => true
      case XL2TPDRestarted => true
      case _ => false
    ensures l'.Now() > l.Now() ==> |l'.starts| > |l.starts|
    ensures |l'.starts| > |l.starts| ==> l'.starts[|l.starts|] == l.Now()
  {
    hide Instant, Next, QuietAfter, Reaches;
    EventCarries(o, l.fleet, e);
    NudgeServed(o, tick, Moved(o, tick, l, Outside(e)), moves, l');
  }

  /** And the loop is never stuck before it: it can end its Reconcile, whatever
      that reads, or take the nudge. */
  lemma NudgeTaken(o: Setup, tick: nat, l: Loop, i: Input) returns (m: Move)
    requires l.token
    ensures OfLoop(m) && CanMove(o, tick, l, m) && (m.Finish? ==> m.input == i)
  {
    hide Reconcile;
    if l.at.Sleeping? {
      m := TakeNudge;
    } else {
      var f' := Reconcile(o, l.fleet, i).0;
      var retry := WaitExists(f'.tunnels, f'.world.time, tick);
      m := Finish(i, retry);
    }
  }
}
