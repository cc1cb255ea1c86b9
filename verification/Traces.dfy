/** What the command trace of a run shows, for every environment and every
    sequence of events, well-behaved or not: dials are spaced, and the remembered
    advertisement is the last one that went out. */
module Traces {
  import opened Common
  import opened Text
  import opened Netip
  import opened Tables
  import opened Host
  import opened Reconciler
  import opened Hooks

  /** When the tunnel was last dialled, unless its IKE SA was terminated since. */
  function LastDial(tr: seq<Entry>, n: string): Option<nat> {
    if tr == [] then None
    else
      var e := tr[|tr| - 1];
      if e.command == Initiate(n) then Some(e.at)
      else if e.command == Terminate(n) then None
      else LastDial(tr[..|tr| - 1], n)
  }

  /** Each dial is at least the minimal delay after the one before it. */
  predicate WellSpaced(tr: seq<Entry>) {
    tr == [] ||
    var before, e := tr[..|tr| - 1], tr[|tr| - 1];
    && WellSpaced(before)
    && (e.command.Initiate? && LastDial(before, e.command.name).Some? ==>
          e.at >= LastDial(before, e.command.name).value + MIN_REDIAL)
  }

  /** The route list last accepted by the tailnet. */
  function Pushed(tr: seq<Entry>): Option<seq<string>> {
    if tr == [] then None
    else
      var e := tr[|tr| - 1];
      if e.command.SetRoutes? && e.answer == Done then Some(e.command.routes) else Pushed(tr[..|tr| - 1])
  }

  /** The remembered text is that of the list last accepted. */
  ghost predicate Told(advertised: string, tr: seq<Entry>) {
    match Pushed(tr)
    case None => advertised == ""
    case Some(routes) => AllPlain(routes) && advertised == Join(routes)
  }

  predicate Waiting(t: Tunnel) {
    t.phase == Disconnected || t.phase == Failed
  }

  /** No wait is longer than the failures in a row call for, nor than five
      minutes; a tunnel that is up has a clean record. */
  predicate BackedOff(t: Tunnel, now: nat) {
    && t.retryAt <= now + MAX_REDIAL
    && (t.phase == Failed ==> t.failures >= 1 && t.retryAt <= now + Min(MIN_REDIAL * Pow2(t.failures - 1), MAX_REDIAL))
    && (t.phase == Up ==> t.failures == 0 && t.retryAt == 0)
  }

  /** A tunnel dialled and not terminated since will not be dialled too soon. */
  ghost predicate TunnelPaced(t: Tunnel, n: string, w: World) {
    && t.name == n
    && BackedOff(t, w.time)
    && (LastDial(w.trace, n).Some? ==>
          && LastDial(w.trace, n).value <= w.time
          && (Waiting(t) ==> t.retryAt >= LastDial(w.trace, n).value + MIN_REDIAL))
  }

  ghost predicate Paced(f: Fleet) {
    && WellSpaced(f.world.trace) && Told(f.advertised, f.world.trace)
    && (forall n :: n in f.tunnels ==> TunnelPaced(f.tunnels[n], n, f.world))
    && (forall n :: LastDial(f.world.trace, n).Some? ==> n in f.tunnels)
  }

  // ----- commands that neither dial nor terminate nor advertise

  predicate Hush(c: Command) {
    !c.Initiate? && !c.Terminate? && !c.SetRoutes?
  }

  ghost predicate Hushed(w: World, w': World) {
    && w.time <= w'.time
    && (WellSpaced(w.trace) ==> WellSpaced(w'.trace))
    && Pushed(w'.trace) == Pushed(w.trace)
    && forall n :: LastDial(w'.trace, n) == LastDial(w.trace, n)
  }

  lemma RunHushed(env: Env, w: World, c: Command)
    requires Hush(c)
    ensures Hushed(w, Run(env, w, c).0)
  {
    var w' := Run(env, w, c).0;
    assert w'.trace[..|w'.trace| - 1] == w.trace;
  }

  lemma HushedThen(w: World, w': World, w'': World)
    requires Hushed(w, w') && Hushed(w', w'')
    ensures Hushed(w, w'')
  {
    hide LastDial, Pushed, WellSpaced;
  }

  lemma {:induction false} AddRoutesHushed(env: Env, w: World, iface: string, subnets: seq<string>)
    ensures Hushed(w, AddRoutes(env, w, iface, subnets).0)
    decreases |subnets|
  {
    hide Run, Hushed;
    if subnets == [] {
      HushedSame(w);
    } else {
      var c := RouteReplace(subnets[0], iface);
      var (w', a) := Run(env, w, c);
      RunHushed(env, w, c);
      if a == Done {
        AddRoutesHushed(env, w', iface, subnets[1..]);
        HushedThen(w, w', AddRoutes(env, w', iface, subnets[1..]).0);
      }
    }
  }

  lemma HushedSame(w: World)
    ensures Hushed(w, w)
  {
  }

  lemma {:induction false} RemoveRoutesHushed(env: Env, w: World, iface: string, subnets: seq<string>)
    ensures Hushed(w, RemoveRoutes(env, w, iface, subnets).0)
    decreases |subnets|
  {
    hide Run, Hushed;
    if subnets == [] {
      HushedSame(w);
    } else {
      var c := RouteDel(subnets[0], iface);
      var (w', a) := Run(env, w, c);
      RunHushed(env, w, c);
      if a != Broken {
        RemoveRoutesHushed(env, w', iface, subnets[1..]);
        HushedThen(w, w', RemoveRoutes(env, w', iface, subnets[1..]).0);
      }
    }
  }

  lemma {:induction false} EnsureRulesHushed(env: Env, w: World, rules: seq<Rule>)
    ensures Hushed(w, EnsureRules(env, w, rules).0)
    decreases |rules|
  {
    hide Run, Hushed;
    if rules == [] {
      HushedSame(w);
    } else {
      var (w1, a) := Run(env, w, RuleCheck(rules[0]));
      RunHushed(env, w, RuleCheck(rules[0]));
      var (w2, ok) := EnsureRule(env, w, rules[0]);
      if a != Done {
        RunHushed(env, w1, RuleAppend(rules[0]));
        HushedThen(w, w1, w2);
      }
      if ok {
        EnsureRulesHushed(env, w2, rules[1..]);
        HushedThen(w, w2, EnsureRules(env, w2, rules[1..]).0);
      }
    }
  }

  lemma {:induction false} DeleteRulesHushed(env: Env, w: World, rules: seq<Rule>)
    ensures Hushed(w, DeleteRules(env, w, rules).0)
    decreases |rules|
  {
    hide Run, Hushed;
    if rules == [] {
      HushedSame(w);
    } else {
      var c := RuleDelete(rules[0]);
      var (w', a) := Run(env, w, c);
      RunHushed(env, w, c);
      if a != Broken {
        DeleteRulesHushed(env, w', rules[1..]);
        HushedThen(w, w', DeleteRules(env, w', rules[1..]).0);
      }
    }
  }

  lemma TearDownHushed(o: Setup, w: World, iface: string, subnets: seq<string>)
    ensures Hushed(w, TearDownIf(o, w, iface, subnets))
  {
    hide Hushed, RemoveRoutes, DeleteRules;
    HushedSame(w);
    var w1 := RemoveRoutes(o.env, w, iface, subnets).0;
    RemoveRoutesHushed(o.env, w, iface, subnets);
    DeleteRulesHushed(o.env, w1, NatRules(iface));
    HushedThen(w, w1, DeleteRules(o.env, w1, NatRules(iface)).0);
  }

  // ----- one tunnel at a time

  lemma HushedPaced(t: Tunnel, n: string, w: World, w': World)
    requires TunnelPaced(t, n, w) && Hushed(w, w')
    ensures TunnelPaced(t, n, w')
  {
    hide LastDial, Pushed, WellSpaced;
  }

  /** Replacing one tunnel's record after commands that neither dial nor
      terminate. */
  lemma ReplaceKeeps(f: Fleet, n: string, t: Tunnel, w: World)
    requires Paced(f) && Hushed(f.world, w) && TunnelPaced(t, n, w)
    ensures Paced(f.(tunnels := f.tunnels[n := t], world := w))
  {
    hide LastDial, Pushed, WellSpaced, TunnelPaced;
    forall m | m in f.tunnels ensures TunnelPaced(f.tunnels[m], m, w) {
      HushedPaced(f.tunnels[m], m, f.world, w);
    }
  }

  lemma QuietKeeps(f: Fleet, w: World)
    requires Paced(f) && Hushed(f.world, w)
    ensures Paced(f.(world := w))
  {
    hide LastDial, Pushed, WellSpaced, TunnelPaced;
    forall m | m in f.tunnels ensures TunnelPaced(f.tunnels[m], m, w) {
      HushedPaced(f.tunnels[m], m, f.world, w);
    }
  }

  lemma SameTunnelsPaced(f: Fleet, f': Fleet)
    requires Paced(f) && f'.tunnels == f.tunnels && f'.world == f.world && f'.advertised == f.advertised
    ensures Paced(f')
  {
    hide LastDial, Pushed, WellSpaced, TunnelPaced;
  }

  /** A failure recorded now waits long enough, for any time of the last dial. */
  lemma FailedPaced(t: Tunnel, n: string, w: World)
    requires t.name == n && (LastDial(w.trace, n).Some? ==> LastDial(w.trace, n).value <= w.time)
    ensures TunnelPaced(FailedAt(t, w.time), n, w)
  {
    hide LastDial, Pow2;
    BackoffExact(t.failures + 1);
  }

  lemma PastDial(f: Fleet, n: string, w: World)
    requires Paced(f) && n in f.tunnels && Hushed(f.world, w)
    ensures LastDial(w.trace, n).Some? ==> LastDial(w.trace, n).value <= w.time
    ensures f.tunnels[n].name == n && f.tunnels[n].retryAt <= w.time + MAX_REDIAL
  {
    hide LastDial, Pushed, WellSpaced;
    assert TunnelPaced(f.tunnels[n], n, f.world);
  }

  lemma FailPaced(o: Setup, f: Fleet, n: string, iface: string)
    requires Paced(f)
    ensures Paced(Fail(o, f, n, iface))
  {
    hide LastDial, Pushed, WellSpaced, TunnelPaced, TearDownIf, Hushed, Paced;
    if n in f.tunnels {
      var t := f.tunnels[n];
      var w := TearDownIf(o, f.world, iface, t.subnets);
      TearDownHushed(o, f.world, iface, t.subnets);
      PastDial(f, n, w);
      FailedPaced(t.(iface := ""), n, w);
      ReplaceKeeps(f, n, FailedAt(t.(iface := ""), w.time), w);
    }
  }

  /** After a terminate the tunnel may be dialled at once. */
  lemma TerminateEffect(env: Env, w: World, n: string)
    ensures var w' := Run(env, w, Terminate(n)).0;
      && w.time <= w'.time && (WellSpaced(w.trace) ==> WellSpaced(w'.trace))
      && LastDial(w'.trace, n) == None && Pushed(w'.trace) == Pushed(w.trace)
      && forall m :: m != n ==> LastDial(w'.trace, m) == LastDial(w.trace, m)
  {
    var w' := Run(env, w, Terminate(n)).0;
    assert w'.trace[..|w'.trace| - 1] == w.trace;
  }

  lemma TerminateKeeps(env: Env, f: Fleet, n: string, t: Tunnel)
    requires Paced(f) && t.name == n && t.retryAt == 0 && t.phase == Disconnected
    ensures var w := Run(env, f.world, Terminate(n)).0;
      && Paced(f.(tunnels := f.tunnels[n := t], world := w))
      && Paced(f.(tunnels := f.tunnels - {n}, world := w))
  {
    hide LastDial, Pushed, WellSpaced, Run;
    TerminateEffect(env, f.world, n);
  }

  lemma DropPaced(o: Setup, f: Fleet, n: string)
    requires Paced(f)
    ensures Paced(Drop(o, f, n))
  {
    hide LastDial, Pushed, WellSpaced, TunnelPaced, TearDownIf, Run, Hushed, Paced;
    if n in f.tunnels {
      var t := f.tunnels[n];
      var w1 := TearDownIf(o, f.world, t.iface, t.subnets);
      var w2 := Run(o.env, w1, LacDisconnect(n)).0;
      TearDownHushed(o, f.world, t.iface, t.subnets);
      RunHushed(o.env, w1, LacDisconnect(n));
      HushedThen(f.world, w1, w2);
      PastDial(f, n, w2);
      QuietKeeps(f, w2);
      TerminateKeeps(o.env, f.(world := w2), n, Dropped(t));
    }
  }

  lemma DisconnectPaced(o: Setup, f: Fleet, n: string)
    requires Paced(f) && n in f.tunnels
    ensures Paced(f.(tunnels := f.tunnels - {n}, world := Disconnect(o, f.world, f.tunnels[n])))
  {
    hide LastDial, Pushed, WellSpaced, TunnelPaced, TearDownIf, Run, Hushed, Paced;
    var t := f.tunnels[n];
    var w1 := TearDownIf(o, f.world, t.iface, t.subnets);
    var w2 := Run(o.env, w1, LacDisconnect(n)).0;
    var w3 := Run(o.env, w2, LacRemove(n)).0;
    TearDownHushed(o, f.world, t.iface, t.subnets);
    RunHushed(o.env, w1, LacDisconnect(n));
    RunHushed(o.env, w2, LacRemove(n));
    HushedThen(f.world, w1, w2);
    HushedThen(f.world, w2, w3);
    PastDial(f, n, w3);
    QuietKeeps(f, w3);
    TerminateKeeps(o.env, f.(world := w3), n, Dropped(t));
  }

  lemma {:induction false} StalePaced(o: Setup, f: Fleet, names: seq<string>, all: map<string, Tunnel>)
    requires Paced(f) && forall n :: n in f.tunnels ==> n in all && all[n] == f.tunnels[n]
    requires forall n :: n in names && n in all ==> n in f.tunnels
    requires forall i, j :: 0 <= i < j < |names| ==> names[i] != names[j]
    ensures Paced(f.(tunnels := f.tunnels - (set n | n in names), world := DisconnectEach(o, f.world, all, names)))
    decreases |names|
  {
    hide Paced, Disconnect;
    if names == [] {
      assert f.tunnels - (set n | n in names) == f.tunnels;
      SameTunnelsPaced(f, f.(tunnels := f.tunnels - (set n | n in names)));
    } else {
      var n := names[0];
      assert n in names;
      var rest := names[1..];
      if n in all {
        var g := f.(tunnels := f.tunnels - {n}, world := Disconnect(o, f.world, all[n]));
        DisconnectPaced(o, f, n);
        StalePaced(o, g, rest, all);
        assert f.tunnels - (set m | m in names) == g.tunnels - (set m | m in rest);
      } else {
        StalePaced(o, f, rest, all);
        assert f.tunnels - (set m | m in names) == f.tunnels - (set m | m in rest);
      }
    }
  }

  // ----- dialling

  lemma InitiateEffect(env: Env, w: World, n: string)
    requires WellSpaced(w.trace)
    requires LastDial(w.trace, n).Some? ==> w.time >= LastDial(w.trace, n).value + MIN_REDIAL
    ensures var w' := Run(env, w, Initiate(n)).0;
      && w.time <= w'.time && WellSpaced(w'.trace)
      && LastDial(w'.trace, n) == Some(w.time) && Pushed(w'.trace) == Pushed(w.trace)
      && forall m :: m != n ==> LastDial(w'.trace, m) == LastDial(w.trace, m)
  {
    var w' := Run(env, w, Initiate(n)).0;
    assert w'.trace[..|w'.trace| - 1] == w.trace;
  }

  /** The dial itself, when its time has come. */
  lemma InitiateKeeps(env: Env, f: Fleet, n: string)
    requires Paced(f) && n in f.tunnels
    requires LastDial(f.world.trace, n).Some? ==> f.world.time >= LastDial(f.world.trace, n).value + MIN_REDIAL
    ensures var w := Run(env, f.world, Initiate(n)).0;
      Paced(f.(tunnels := f.tunnels[n := FailedAt(f.tunnels[n], w.time)], world := w))
  {
    hide LastDial, Pushed, WellSpaced, Run, RedialDelay;
    InitiateEffect(env, f.world, n);
    var w := Run(env, f.world, Initiate(n)).0;
    forall m | m in f.tunnels && m != n ensures TunnelPaced(f.tunnels[m], m, w) {
      assert TunnelPaced(f.tunnels[m], m, f.world);
    }
    assert f.tunnels[n].name == n by { assert TunnelPaced(f.tunnels[n], n, f.world); }
    FailedPaced(f.tunnels[n], n, w);
  }

  lemma DialPaced(o: Setup, f: Fleet, n: string)
    requires Paced(f) && n in f.tunnels && Waiting(f.tunnels[n]) && f.world.time >= f.tunnels[n].retryAt
    ensures Paced(Dial(o, f, n))
  {
    hide LastDial, Pushed, WellSpaced, Run, Hushed, TunnelPaced, Paced, FailedAt;
    var t := f.tunnels[n];
    var w1 := Run(o.env, f.world, LacDisconnect(n)).0;
    RunHushed(o.env, f.world, LacDisconnect(n));
    QuietKeeps(f, w1);
    var g := f.(world := w1);
    TimeHasCome(f, n, w1);
    var (w2, a) := Run(o.env, w1, Initiate(n));
    InitiateKeeps(o.env, g, n);
    var g2 := g.(tunnels := g.tunnels[n := FailedAt(t, w2.time)], world := w2);
    if a == Done {
      var (w3, b) := Run(o.env, w2, LacConnect(n));
      RunHushed(o.env, w2, LacConnect(n));
      PastDial(g2, n, w3);
      FailedName(t, w2.time);
      NameOf(f, n);
      FailedPaced(t, n, w3);
      ReplaceKeeps(g2, n, FailedAt(t, w3.time), w3);
      assert f.tunnels[n := FailedAt(t, w2.time)][n := FailedAt(t, w3.time)] == f.tunnels[n := FailedAt(t, w3.time)];
      PastDial(f, n, w1);
      TimePasses(o.env, w1, Initiate(n));
      TimePasses(o.env, w2, LacConnect(n));
      var up := t.(phase := Connecting, dialedAt := w3.time);
      ConnectingPaced(g2, t, n, w1, w3);
      ReplaceKeeps(g2, n, up, w3);
      assert f.tunnels[n := FailedAt(t, w2.time)][n := up] == f.tunnels[n := up];
    }
  }

  lemma TimePasses(env: Env, w: World, c: Command)
    ensures w.time <= Run(env, w, c).0.time
  {
  }

  lemma FailedName(t: Tunnel, now: nat)
    ensures FailedAt(t, now).name == t.name
  {
  }

  lemma NameOf(f: Fleet, n: string)
    requires Paced(f) && n in f.tunnels
    ensures f.tunnels[n].name == n
  {
    assert TunnelPaced(f.tunnels[n], n, f.world);
  }

  lemma TimeHasCome(f: Fleet, n: string, w: World)
    requires Paced(f) && n in f.tunnels && Waiting(f.tunnels[n]) && f.world.time >= f.tunnels[n].retryAt
    requires Hushed(f.world, w)
    ensures LastDial(w.trace, n).Some? ==> w.time >= LastDial(w.trace, n).value + MIN_REDIAL
  {
    hide LastDial, Pushed, WellSpaced;
    assert TunnelPaced(f.tunnels[n], n, f.world);
  }

  lemma ConnectingPaced(g: Fleet, t: Tunnel, n: string, w1: World, w: World)
    requires Paced(g) && n in g.tunnels && Hushed(g.world, w) && t.name == n
    requires t.retryAt <= w1.time + MAX_REDIAL && w1.time <= w.time
    ensures TunnelPaced(t.(phase := Connecting, dialedAt := w.time), n, w)
  {
    hide LastDial, Pushed, WellSpaced;
    assert TunnelPaced(g.tunnels[n], n, g.world);
  }

  lemma RefreshPaced(f: Fleet, conn: Connection)
    requires Paced(f)
    ensures Paced(f.(tunnels := f.tunnels[conn.name := Refreshed(f, conn)]))
  {
    hide LastDial, Pushed, WellSpaced;
    assert conn.name in f.tunnels ==> TunnelPaced(f.tunnels[conn.name], conn.name, f.world);
  }

  lemma StepPaced(o: Setup, f: Fleet, conn: Connection)
    requires Paced(f)
    ensures Paced(Step(o, f, conn))
  {
    hide Paced, Dial, Fail;
    var n, t := conn.name, Refreshed(f, conn);
    var g := f.(tunnels := f.tunnels[n := t]);
    RefreshPaced(f, conn);
    FailPaced(o, g, n, t.iface);
    if Waiting(t) && f.world.time >= t.retryAt {
      DialPaced(o, g, n);
    }
  }

  lemma {:induction false} StepEachPaced(o: Setup, f: Fleet, conns: seq<Connection>)
    requires Paced(f)
    ensures Paced(StepEach(o, f, conns))
    decreases |conns|
  {
    hide Paced, Step;
    if conns != [] {
      StepPaced(o, f, conns[0]);
      StepEachPaced(o, Step(o, f, conns[0]), conns[1..]);
    }
  }

  lemma RedefinePaced(o: Setup, f: Fleet, d: Definition)
    requires Paced(f)
    ensures Paced(Redefine(o, f, d))
  {
    hide Paced, Drop, Run, Hushed;
    var f1 := Drop(o, f, d.name);
    var w2 := Run(o.env, f1.world, LacRemove(d.name)).0;
    var w3 := Run(o.env, w2, LacAdd(d)).0;
    DropPaced(o, f, d.name);
    RunHushed(o.env, f1.world, LacRemove(d.name));
    RunHushed(o.env, w2, LacAdd(d));
    HushedThen(f1.world, w2, w3);
    QuietKeeps(f1, w3);
  }

  lemma {:induction false} RedefineEachPaced(o: Setup, f: Fleet, defs: seq<Definition>)
    requires Paced(f)
    ensures Paced(RedefineEach(o, f, defs))
    decreases |defs|
  {
    hide Paced, Redefine;
    if defs != [] {
      RedefinePaced(o, f, defs[0]);
      RedefineEachPaced(o, Redefine(o, f, defs[0]), defs[1..]);
    }
  }

  lemma WritePaced(o: Setup, f: Fleet, conns: seq<Connection>, i: Input)
    requires Paced(f)
    ensures Paced(WriteConfigs(o, f, conns, i).0)
  {
    hide Paced, Run, Hushed, DesiredTunnels, Fingerprints, ChangedTunnels;
    var desired := DesiredTunnels(conns, i);
    if desired.Some? {
      var w1 := Run(o.env, f.world, WriteFiles(desired.value)).0;
      var w2 := Run(o.env, w1, LoadAll).0;
      RunHushed(o.env, f.world, WriteFiles(desired.value));
      RunHushed(o.env, w1, LoadAll);
      HushedThen(f.world, w1, w2);
      QuietKeeps(f, w1);
      QuietKeeps(f, w2);
      SameTunnelsPaced(f.(world := w2), f.(world := w2, rendered := Fingerprints(desired.value)));
    }
  }

  lemma SetRoutesEffect(env: Env, w: World, routes: seq<string>)
    ensures var (w', a) := Run(env, w, SetRoutes(routes));
      && w.time <= w'.time && (WellSpaced(w.trace) ==> WellSpaced(w'.trace))
      && (forall n :: LastDial(w'.trace, n) == LastDial(w.trace, n))
      && Pushed(w'.trace) == if a == Done then Some(routes) else Pushed(w.trace)
  {
    var w' := Run(env, w, SetRoutes(routes)).0;
    assert w'.trace[..|w'.trace| - 1] == w.trace;
  }

  lemma SortPlain(xs: seq<string>)
    requires AllPlain(xs)
    ensures AllPlain(Sort(xs))
  {
    SortSpec(xs);
    SameMembers(xs, Sort(xs));
    forall i | 0 <= i < |Sort(xs)| ensures Plain(Sort(xs)[i]) {
      assert Sort(xs)[i] in xs;
    }
  }

  lemma AdvertisePaced(o: Setup, f: Fleet, i: Input)
    requires Paced(f) && (i.routes.Some? ==> AllPlain(i.routes.value))
    ensures Paced(Advertise(o, f, i).0)
  {
    hide LastDial, Pushed, WellSpaced, Run, Sort, Join, AllPlain;
    if i.routes.Some? {
      var routes := Sort(i.routes.value);
      SortPlain(i.routes.value);
      SetRoutesEffect(o.env, f.world, routes);
      var w := Run(o.env, f.world, SetRoutes(routes)).0;
      forall m | m in f.tunnels ensures TunnelPaced(f.tunnels[m], m, w) {
        assert TunnelPaced(f.tunnels[m], m, f.world);
      }
    }
  }

  /** The environment of an event: the stale names come each once, and the
      advertised texts are canonical. */
  ghost predicate Ordinary(e: Event) {
    e.Reconciled? ==>
      && (e.input.conns.Some? ==> Distinct(e.input.staleOrder))
      && (e.input.routes.Some? ==> AllPlain(e.input.routes.value))
  }

  lemma ReconcilePaced(o: Setup, f: Fleet, i: Input)
    requires Paced(f) && Ordinary(Reconciled(i))
    ensures Paced(Reconcile(o, f, i).0)
  {
    hide Paced, WriteConfigs, RedefineEach, StepEach, Advertise, Enabled, DisconnectEach;
    if i.conns.Some? {
      var enabled := Enabled(i.conns.value);
      var f1 := RemoveStale(o, f, i.staleOrder);
      StalePaced(o, f, i.staleOrder, f.tunnels);
      var (f2, changed) := WriteConfigs(o, f1, enabled, i);
      WritePaced(o, f1, enabled, i);
      if changed.Some? {
        var f3 := RedefineEach(o, f2, changed.value);
        RedefineEachPaced(o, f2, changed.value);
        StepEachPaced(o, f3, enabled);
        AdvertisePaced(o, StepEach(o, f3, enabled), i);
      }
    }
  }

  lemma UpPaced(o: Setup, f: Fleet, n: string, iface: string)
    requires Paced(f)
    ensures Paced(PPPUp(o, f, n, iface).0)
  {
    hide Paced, Hushed, AddRoutes, EnsureRules, Fail, TunnelPaced;
    if n in f.tunnels {
      var t := f.tunnels[n];
      var (w1, routed) := AddRoutes(o.env, f.world, iface, t.subnets);
      AddRoutesHushed(o.env, f.world, iface, t.subnets);
      QuietKeeps(f, w1);
      FailPaced(o, f.(world := w1), n, iface);
      var (w2, natted) := EnableNAT(o.env, w1, iface);
      EnsureRulesHushed(o.env, w1, NatRules(iface));
      HushedThen(f.world, w1, w2);
      QuietKeeps(f, w2);
      FailPaced(o, f.(world := w2), n, iface);
      PastDial(f, n, w2);
      UpTunnelPaced(t, n, w2, iface);
      ReplaceKeeps(f, n, t.(iface := iface, phase := Up, failures := 0, retryAt := 0), w2);
    }
  }

  lemma UpTunnelPaced(t: Tunnel, n: string, w: World, iface: string)
    requires t.name == n && (LastDial(w.trace, n).Some? ==> LastDial(w.trace, n).value <= w.time)
    ensures TunnelPaced(t.(iface := iface, phase := Up, failures := 0, retryAt := 0), n, w)
  {
    hide LastDial;
  }

  lemma DownPaced(o: Setup, f: Fleet, n: string, iface: string)
    requires Paced(f)
    ensures Paced(PPPDown(o, f, n, iface).0)
  {
    hide Paced, Hushed, TearDownIf, LastDial, WellSpaced;
    if n in f.tunnels {
      var t := f.tunnels[n];
      var dev := if iface == "" then t.iface else iface;
      var w := TearDownIf(o, f.world, dev, t.subnets);
      TearDownHushed(o, f.world, dev, t.subnets);
      PastDial(f, n, w);
      ReplaceKeeps(f, n, t.(iface := "", phase := Disconnected, retryAt := w.time + MIN_REDIAL), w);
    }
  }

  lemma LaterPaced(f: Fleet, f': Fleet)
    requires Paced(f) && f'.tunnels == f.tunnels && f'.advertised == f.advertised
    requires f'.world.trace == f.world.trace && f.world.time <= f'.world.time
    ensures Paced(f')
  {
    hide LastDial, Pushed, WellSpaced;
    forall n | n in f'.tunnels ensures TunnelPaced(f'.tunnels[n], n, f'.world) {
      assert TunnelPaced(f.tunnels[n], n, f.world);
    }
  }

  lemma EventPaced(o: Setup, f: Fleet, e: Event)
    requires Paced(f) && Ordinary(e)
    ensures Paced(Next(o, f, e))
  {
    hide Paced, Reconcile, PPPUp, PPPDown, Fail, FromFiles;
    match e
    case Reconciled(i) => ReconcilePaced(o, f, i);
    case WentUp(name, iface) => UpPaced(o, f, name, iface);
    case WentDown(name, iface) => DownPaced(o, f, name, iface);
    case FoundUnhealthy(name) => FailPaced(o, f, name, if name in f.tunnels then f.tunnels[name].iface else "");
    case _ => LaterPaced(f, Next(o, f, e));
  }

  lemma {:induction false} RunPaced(o: Setup, f: Fleet, events: seq<Event>)
    requires Paced(f) && forall i :: 0 <= i < |events| ==> Ordinary(events[i])
    ensures Paced(RunAll(o, f, events))
    decreases |events|
  {
    hide Paced, Next, Ordinary;
    if events != [] {
      EventPaced(o, f, events[0]);
      RunPaced(o, Next(o, f, events[0]), events[1..]);
    }
  }

  // ----- what it says about a trace

  lemma {:induction false} LastDialAfter(tr: seq<Entry>, n: string, i: nat)
    requires i < |tr| && tr[i].command == Initiate(n) && WellSpaced(tr)
    requires forall k :: i < k < |tr| ==> tr[k].command != Terminate(n)
    ensures LastDial(tr, n).Some? && LastDial(tr, n).value >= tr[i].at
    ensures forall k :: i < k < |tr| && tr[k].command == Initiate(n) ==> tr[k].at >= tr[i].at + MIN_REDIAL
    decreases |tr|
  {
    var before, e := tr[..|tr| - 1], tr[|tr| - 1];
    if i < |tr| - 1 {
      assert before[i] == tr[i];
      forall k | i < k < |before| ensures before[k].command != Terminate(n) {
        assert before[k] == tr[k];
      }
      LastDialAfter(before, n, i);
      forall k | i < k < |tr| && tr[k].command == Initiate(n) ensures tr[k].at >= tr[i].at + MIN_REDIAL {
        if k < |before| {
          assert before[k] == tr[k];
        }
      }
    }
  }

  /** Two dials of one tunnel are at least ten seconds apart unless the tunnel
      was dropped or removed in between, which terminates its IKE SA; and no
      tunnel ever waits longer than its failures in a row call for. */
  lemma DialSpacing(o: Setup, f: Fleet, events: seq<Event>, n: string, i: nat, j: nat)
    requires Initial(f) && forall k :: 0 <= k < |events| ==> Ordinary(events[k])
    ensures var f', tr := RunAll(o, f, events), RunAll(o, f, events).world.trace;
      && (i < j < |tr| && tr[i].command == Initiate(n) && tr[j].command == Initiate(n)
          && (forall k :: i < k < j ==> tr[k].command != Terminate(n))
          ==> tr[j].at >= tr[i].at + 10 * SECOND)
      && forall m :: m in f'.tunnels ==> BackedOff(f'.tunnels[m], f'.world.time)
  {
    hide Next, Ordinary;
    var f' := RunAll(o, f, events);
    var tr := f'.world.trace;
    assert Paced(f);
    RunPaced(o, f, events);
    forall m | m in f'.tunnels ensures BackedOff(f'.tunnels[m], f'.world.time) {
      assert TunnelPaced(f'.tunnels[m], m, f'.world);
    }
    if
      && i < j < |tr| && tr[i].command == Initiate(n) && tr[j].command == Initiate(n)
      && (forall k :: i < k < j ==> tr[k].command != Terminate(n))
    {
      var upTo := tr[..j + 1];
      SpacedPrefix(tr, j + 1);
      forall k | i < k < |upTo| ensures upTo[k].command != Terminate(n) {
        assert upTo[k] == tr[k];
      }
      LastDialAfter(upTo, n, i);
      assert upTo[j] == tr[j] && upTo[i] == tr[i];
    }
  }

  lemma {:induction false} SpacedPrefix(tr: seq<Entry>, k: nat)
    requires WellSpaced(tr) && k <= |tr|
    ensures WellSpaced(tr[..k])
    decreases |tr|
  {
    if k == |tr| {
      assert tr[..k] == tr;
    } else {
      SpacedPrefix(tr[..|tr| - 1], k);
      assert tr[..|tr| - 1][..k] == tr[..k];
    }
  }

  // ----- the advertised list

  lemma {:induction false} SortOrdered(xs: seq<string>)
    requires Ordered(xs)
    ensures Sort(xs) == xs
  {
    if xs != [] {
      SortOrdered(xs[1..]);
      assert |xs| > 1 ==> Le(xs[0], xs[1]);
      assert xs == [xs[0]] + xs[1..];
    }
  }

  lemma PushedCurrent(o: Setup, f: Fleet, i: Input)
    requires Paced(f) && o.tailnet && Ordinary(Reconciled(i)) && i.routes.Some? && Ordered(i.routes.value)
    requires Reconcile(o, f, i).1
    ensures match Pushed(Reconcile(o, f, i).0.world.trace)
      case None => i.routes.value == []
      case Some(routes) => routes == i.routes.value
  {
    hide Ordinary, Sort, Join, Pushed, WellSpaced, LastDial, Enabled, RemoveStale, WriteConfigs, StepEach,
         RedefineEach, Run;
    ReconcilePaced(o, f, i);
    SortOrdered(i.routes.value);
    PlainOf(i);
    var f' := Reconcile(o, f, i).0;
    assert f'.advertised == Join(i.routes.value);
    match Pushed(f'.world.trace)
    case None => JoinEmpty(i.routes.value);
    case Some(routes) => JoinInjective(routes, i.routes.value);
  }

  /** A failed push is retried by every later Reconcile: after one that
      succeeds, the list last accepted is the current one, or nothing was ever
      pushed because there was nothing to advertise. */
  lemma AdvertisementCurrent(o: Setup, f: Fleet, events: seq<Event>, i: Input)
    requires Initial(f) && o.tailnet && forall k :: 0 <= k < |events| ==> Ordinary(events[k])
    requires Ordinary(Reconciled(i)) && i.routes.Some? && Ordered(i.routes.value)
    requires Reconcile(o, RunAll(o, f, events), i).1
    ensures match Pushed(Reconcile(o, RunAll(o, f, events), i).0.world.trace)
      case None => i.routes.value == []
      case Some(routes) => routes == i.routes.value
  {
    hide Next, Ordinary, Reconcile, Pushed, Paced;
    InitialPaced(f);
    RunPaced(o, f, events);
    PushedCurrent(o, RunAll(o, f, events), i);
  }

  lemma PlainOf(i: Input)
    requires Ordinary(Reconciled(i)) && i.routes.Some?
    ensures AllPlain(i.routes.value)
  {
  }

  lemma InitialPaced(f: Fleet)
    requires Initial(f)
    ensures Paced(f)
  {
  }
}
