/** Convergence: after a Reconcile that succeeds the fleet is what the store asks
    for, and the next one finds nothing to do until a tunnel falls due. */
module Convergence {
  import opened Common
  import opened Text
  import opened Tables
  import opened Host
  import opened Reconciler
  import opened Agreement
  import opened Configs

  /** The fleet holds exactly the enabled connections, with their current
      subnets; the daemons and the tailnet were told. */
  ghost predicate Settled(o: Setup, f: Fleet, i: Input) {
    && i.conns.Some? && i.routes.Some?
    && var conns := Enabled(i.conns.value);
    && NamesDistinct(conns)
    && DesiredTunnels(conns, i).Some?
    && f.rendered == Fingerprints(DesiredTunnels(conns, i).value)
    && f.tunnels.Keys == ConnNames(conns)
    && Adopted(f.tunnels, conns)
    && (o.tailnet ==> f.advertised == Join(Sort(i.routes.value)))
  }

  // ----- each loop's effect on the records, in any environment

  lemma StepRecord(o: Setup, f: Fleet, conn: Connection)
    ensures var n, f' := conn.name, Step(o, f, conn);
      && f'.rendered == f.rendered && f'.advertised == f.advertised
      && f'.tunnels.Keys == f.tunnels.Keys + {n}
      && f'.tunnels[n].id == conn.id && f'.tunnels[n].subnets == conn.subnets
      && f'.tunnels[n].name == Refreshed(f, conn).name && f'.tunnels[n].iface in {"", Refreshed(f, conn).iface}
      && SameBut(f.tunnels, f'.tunnels, {n})
  {
    hide Dial, Fail;
    var n, t := conn.name, Refreshed(f, conn);
    var g := f.(tunnels := f.tunnels[n := t]);
    DialFrame(o, g, n);
    FailRecord(o, g, n, t.iface);
  }

  lemma FailRecord(o: Setup, f: Fleet, n: string, iface: string)
    requires n in f.tunnels
    ensures var f', t := Fail(o, f, n, iface), f.tunnels[n];
      && f'.rendered == f.rendered && f'.advertised == f.advertised
      && f'.tunnels == f.tunnels[n := f'.tunnels[n]]
      && f'.tunnels[n].id == t.id && f'.tunnels[n].subnets == t.subnets && f'.tunnels[n].name == t.name
      && f'.tunnels[n].iface == ""
  {
    hide TearDownIf, RedialDelay;
  }

  lemma {:induction false} StepEachRecords(o: Setup, f: Fleet, conns: seq<Connection>)
    requires NamesDistinct(conns)
    ensures var f' := StepEach(o, f, conns);
      && f'.rendered == f.rendered && f'.advertised == f.advertised
      && f'.tunnels.Keys == f.tunnels.Keys + ConnNames(conns)
      && Adopted(f'.tunnels, conns) && SameBut(f.tunnels, f'.tunnels, ConnNames(conns))
    decreases |conns|
  {
    hide Step, NamesDistinct;
    if conns != [] {
      var conn, f1 := conns[0], Step(o, f, conns[0]);
      StepRecord(o, f, conn);
      RestNames(conns);
      StepEachRecords(o, f1, conns[1..]);
      assert ConnNames(conns) == {conn.name} + ConnNames(conns[1..]);
      assert forall c :: c in conns <==> c == conn || c in conns[1..];
    }
  }

  lemma RestNames(conns: seq<Connection>)
    requires conns != [] && NamesDistinct(conns)
    ensures conns[0].name !in ConnNames(conns[1..]) && NamesDistinct(conns[1..])
  {
    forall c | c in conns[1..] ensures c.name != conns[0].name {
      var k :| 0 <= k < |conns[1..]| && conns[1..][k] == c;
      assert conns[k + 1] == c;
    }
  }

  lemma {:induction false} RedefineEachRecords(o: Setup, f: Fleet, defs: seq<Definition>)
    ensures var f' := RedefineEach(o, f, defs);
      && f'.rendered == f.rendered && f'.advertised == f.advertised && f'.tunnels.Keys == f.tunnels.Keys
      && forall n :: n in f.tunnels ==>
           f'.tunnels[n] == if n in DefNames(defs) then Dropped(f.tunnels[n]) else f.tunnels[n]
    decreases |defs|
  {
    hide Run, TearDownIf;
    if defs != [] {
      RedefineEachRecords(o, Redefine(o, f, defs[0]), defs[1..]);
      assert DefNames(defs) == {defs[0].name} + DefNames(defs[1..]);
    }
  }

  /** No step gives a tunnel an interface, or a name other than its own. */
  lemma {:induction false} StepEachIfaces(o: Setup, f: Fleet, conns: seq<Connection>)
    ensures var f' := StepEach(o, f, conns);
      && (Filed(f.tunnels) ==> Filed(f'.tunnels))
      && forall n :: n in f'.tunnels && f'.tunnels[n].iface != "" ==>
           n in f.tunnels && f.tunnels[n].iface == f'.tunnels[n].iface
    decreases |conns|
  {
    hide Step;
    if conns != [] {
      StepRecord(o, f, conns[0]);
      StepEachIfaces(o, Step(o, f, conns[0]), conns[1..]);
    }
  }

  lemma WriteConfigsRecords(o: Setup, f: Fleet, conns: seq<Connection>, i: Input)
    requires NamesDistinct(conns) && WriteConfigs(o, f, conns, i).1.Some?
    ensures DesiredTunnels(conns, i).Some?
    ensures WriteConfigs(o, f, conns, i).0.rendered == Fingerprints(DesiredTunnels(conns, i).value)
  {
    hide Run, Fingerprints, ChangedTunnels, DesiredTunnels;
    var defs := DesiredTunnels(conns, i).value;
    DesiredSpec(conns, i);
    DescribesNames(conns, defs);
    SkipExact(f.rendered, defs);
  }

  /** Whatever dials failed or timed out on the way, in any environment. */
  lemma Converges(o: Setup, f: Fleet, i: Input)
    requires StaleOrdered(f, i) && i.conns.Some? && NamesDistinct(Enabled(i.conns.value))
    requires Reconcile(o, f, i).1
    ensures Settled(o, Reconcile(o, f, i).0, i)
  {
    hide WriteConfigs, RedefineEach, StepEach, Enabled, DesiredTunnels, Fingerprints, DisconnectEach, Run,
         Adopted, Sort, Join, ConnNames, Distinct;
    var conns := Enabled(i.conns.value);
    var f1 := RemoveStale(o, f, i.staleOrder);
    var (f2, changed) := WriteConfigs(o, f1, conns, i);
    WriteConfigsFrame(o, f1, conns, i);
    WriteConfigsRecords(o, f1, conns, i);
    var f3 := RedefineEach(o, f2, changed.value);
    RedefineEachRecords(o, f2, changed.value);
    StepEachRecords(o, f3, conns);
    var f4 := StepEach(o, f3, conns);
    assert f1.tunnels.Keys <= ConnNames(conns);
    AdvertiseFrame(o, f4, i);
  }

  // ----- the next Reconcile

  /** A step on an up-to-date tunnel changes the fleet exactly when it is due. */
  lemma StepIdle(o: Setup, f: Fleet, conn: Connection)
    requires conn.name in f.tunnels
    requires f.tunnels[conn.name].id == conn.id && f.tunnels[conn.name].subnets == conn.subnets
    ensures !Due(o, f.tunnels[conn.name], f.world.time) ==> Step(o, f, conn) == f
    ensures Due(o, f.tunnels[conn.name], f.world.time) ==>
      conn.name in Step(o, f, conn).tunnels && Step(o, f, conn).tunnels[conn.name] != f.tunnels[conn.name]
  {
    hide Run, TearDownIf, RedialDelay;
    var n, t := conn.name, f.tunnels[conn.name];
    assert Refreshed(f, conn) == t;
    assert f.tunnels[n := t] == f.tunnels;
    assert f.(tunnels := f.tunnels[n := t]) == f;
  }

  lemma {:induction false} StepEachIdle(o: Setup, f: Fleet, conns: seq<Connection>)
    requires NamesDistinct(conns) && Adopted(f.tunnels, conns)
    ensures StepEach(o, f, conns) == f <==>
      forall conn :: conn in conns ==> !Due(o, f.tunnels[conn.name], f.world.time)
    decreases |conns|
  {
    hide Step, Due;
    if conns != [] {
      var conn := conns[0];
      assert conn in conns;
      StepIdle(o, f, conn);
      RestNames(conns);
      var f1 := Step(o, f, conn);
      if !Due(o, f.tunnels[conn.name], f.world.time) {
        StepEachIdle(o, f, conns[1..]);
      } else {
        StepEachRecords(o, f1, conns[1..]);
      }
    }
  }

  /** A settled fleet has nothing to load, drop, remove or advertise; the next
      Reconcile changes nothing and runs nothing exactly as long as no tunnel is
      due. */
  lemma QuietUntilDue(o: Setup, f: Fleet, i: Input)
    requires Settled(o, f, i) && StaleOrdered(f, i)
    ensures Reconcile(o, f, i) == (f, true) <==>
      forall n :: n in f.tunnels ==> !Due(o, f.tunnels[n], f.world.time)
  {
    hide StepEach, Enabled, DesiredTunnels, Fingerprints, ChangedTunnels, Run, Due, Sort, Join, Adopted;
    var conns := Enabled(i.conns.value);
    assert i.staleOrder == [] by {
      SomeMember(i.staleOrder);
    }
    assert RemoveStale(o, f, i.staleOrder) == f by {
      assert f.tunnels - (set n | n in i.staleOrder) == f.tunnels;
    }
    SettledWrites(o, f, conns, i);
    StepEachIdle(o, f, conns);
    var f4 := StepEach(o, f, conns);
    StepEachRecords(o, f, conns);
    assert Advertise(o, f4, i) == (f4, true);
    assert Reconcile(o, f, i) == (f4, true) by {
      assert RedefineEach(o, f, []) == f;
    }
    DueNames(o, f, conns);
  }

  lemma DueNames(o: Setup, f: Fleet, conns: seq<Connection>)
    requires f.tunnels.Keys == ConnNames(conns)
    ensures (forall conn :: conn in conns ==> conn.name in f.tunnels)
    ensures (forall conn :: conn in conns ==> !Due(o, f.tunnels[conn.name], f.world.time)) <==>
      (forall n :: n in f.tunnels ==> !Due(o, f.tunnels[n], f.world.time))
  {
    hide Due;
    forall conn | conn in conns ensures conn.name in f.tunnels {
      assert conn.name in ConnNames(conns);
    }
    forall n | n in f.tunnels ensures exists conn :: conn in conns && conn.name == n {
      assert n in ConnNames(conns);
    }
  }

  lemma SettledWrites(o: Setup, f: Fleet, conns: seq<Connection>, i: Input)
    requires NamesDistinct(conns) && DesiredTunnels(conns, i).Some?
    requires f.rendered == Fingerprints(DesiredTunnels(conns, i).value)
    ensures WriteConfigs(o, f, conns, i) == (f, Some([]))
  {
    hide Run, Fingerprints, ChangedTunnels, DesiredTunnels;
    var defs := DesiredTunnels(conns, i).value;
    DesiredSpec(conns, i);
    DescribesNames(conns, defs);
    SkipExact(f.rendered, defs);
  }

  // ----- when commands take no time

  ghost predicate Instant(env: Env) {
    forall t: seq<Entry>, c: Command :: env.takes(t, c) == 0
  }

  lemma {:induction false} RulesInstant(env: Env, w: World, rules: seq<Rule>)
    requires Instant(env)
    ensures DeleteRules(env, w, rules).0.time == w.time
    decreases |rules|
  {
    hide Perform;
    if rules != [] {
      var (w', a) := Run(env, w, RuleDelete(rules[0]));
      RulesInstant(env, w', rules[1..]);
    }
  }

  lemma {:induction false} RoutesInstant(env: Env, w: World, iface: string, subnets: seq<string>)
    requires Instant(env)
    ensures RemoveRoutes(env, w, iface, subnets).0.time == w.time
    decreases |subnets|
  {
    hide Perform;
    if subnets != [] {
      var (w', a) := Run(env, w, RouteDel(subnets[0], iface));
      RoutesInstant(env, w', iface, subnets[1..]);
    }
  }

  lemma RunInstant(env: Env, w: World, c: Command)
    requires Instant(env)
    ensures Run(env, w, c).0.time == w.time
  {
  }

  lemma FailServes(o: Setup, f: Fleet, n: string, iface: string)
    requires Instant(o.env) && n in f.tunnels
    ensures var f' := Fail(o, f, n, iface); f'.world.time == f.world.time && !Due(o, f'.tunnels[n], f'.world.time)
  {
    hide Run, RemoveRoutes, DeleteRules, RedialDelay, Instant;
    var t := f.tunnels[n];
    RoutesInstant(o.env, f.world, iface, t.subnets);
    RulesInstant(o.env, RemoveRoutes(o.env, f.world, iface, t.subnets).0, NatRules(iface));
  }

  lemma DialServes(o: Setup, f: Fleet, n: string)
    requires Instant(o.env) && o.dialTimeout > 0 && n in f.tunnels
    ensures var f' := Dial(o, f, n); f'.world.time == f.world.time && !Due(o, f'.tunnels[n], f'.world.time)
  {
    hide Run, RedialDelay, Instant;
    var w1 := Run(o.env, f.world, LacDisconnect(n)).0;
    var w2 := Run(o.env, w1, Initiate(n)).0;
    RunInstant(o.env, f.world, LacDisconnect(n));
    RunInstant(o.env, w1, Initiate(n));
    RunInstant(o.env, w2, LacConnect(n));
  }

  /** Right after its step a tunnel is not due. */
  lemma StepServes(o: Setup, f: Fleet, conn: Connection)
    requires Instant(o.env) && o.dialTimeout > 0
    ensures var f' := Step(o, f, conn);
      && conn.name in f'.tunnels
      && f'.world.time == f.world.time && !Due(o, f'.tunnels[conn.name], f'.world.time)
  {
    hide Fail, Dial, Instant;
    var t := Refreshed(f, conn);
    var g := f.(tunnels := f.tunnels[conn.name := t]);
    StepRecord(o, f, conn);
    FailServes(o, g, conn.name, t.iface);
    DialServes(o, g, conn.name);
  }

  lemma {:induction false} StepEachServes(o: Setup, f: Fleet, conns: seq<Connection>)
    requires Instant(o.env) && o.dialTimeout > 0 && NamesDistinct(conns)
    ensures var f' := StepEach(o, f, conns);
      && f'.world.time == f.world.time
      && ConnNames(conns) <= f'.tunnels.Keys
      && forall n :: n in ConnNames(conns) ==> !Due(o, f'.tunnels[n], f'.world.time)
    decreases |conns|
  {
    hide Step, Due, Instant;
    if conns != [] {
      var conn := conns[0];
      StepServes(o, f, conn);
      StepRecord(o, f, conn);
      var f1 := Step(o, f, conn);
      RestNames(conns);
      StepEachServes(o, f1, conns[1..]);
      StepEachRecords(o, f1, conns[1..]);
      assert ConnNames(conns) == {conn.name} + ConnNames(conns[1..]);
    }
  }

  /** With instantaneous commands a second Reconcile of the same store at the
      same time does nothing at all. */
  lemma Idempotent(o: Setup, f: Fleet, i: Input, j: Input)
    requires Instant(o.env) && o.dialTimeout > 0
    requires StaleOrdered(f, i) && i.conns.Some? && NamesDistinct(Enabled(i.conns.value)) && Reconcile(o, f, i).1
    requires j == i.(staleOrder := [])
    ensures Reconcile(o, Reconcile(o, f, i).0, j) == (Reconcile(o, f, i).0, true)
  {
    hide Enabled, WriteConfigs, RedefineEach, StepEach, DesiredTunnels, Due, RemoveStale, Instant, Fingerprints,
         Adopted, Sort, Join;
    var f' := Reconcile(o, f, i).0;
    Converges(o, f, i);
    SameReads(i, j);
    assert StaleOrdered(f', j);
    assert Settled(o, f', j);
    QuietUntilDue(o, f', j);
    NothingDue(o, f, i);
  }

  lemma NothingDue(o: Setup, f: Fleet, i: Input)
    requires Instant(o.env) && o.dialTimeout > 0
    requires i.conns.Some? && NamesDistinct(Enabled(i.conns.value)) && Reconcile(o, f, i).1
    ensures var f' := Reconcile(o, f, i).0;
      forall n :: n in f'.tunnels && n in ConnNames(Enabled(i.conns.value)) ==> !Due(o, f'.tunnels[n], f'.world.time)
  {
    hide Enabled, WriteConfigs, RedefineEach, StepEach, Due, RemoveStale, Perform, Sort, Join;
    var conns := Enabled(i.conns.value);
    var (f2, changed) := WriteConfigs(o, RemoveStale(o, f, i.staleOrder), conns, i);
    var f3 := RedefineEach(o, f2, changed.value);
    StepEachServes(o, f3, conns);
    AdvertiseFrame(o, StepEach(o, f3, conns), i);
  }

  lemma SameReads(i: Input, j: Input)
    requires j == i.(staleOrder := []) && i.conns.Some?
    ensures DesiredTunnels(Enabled(j.conns.value), j) == DesiredTunnels(Enabled(i.conns.value), i)
  {
    SameDesired(Enabled(i.conns.value), i, j);
  }

  lemma {:induction false} SameDesired(conns: seq<Connection>, i: Input, j: Input)
    requires j == i.(staleOrder := [])
    ensures DesiredTunnels(conns, j) == DesiredTunnels(conns, i)
    decreases |conns|
  {
    if conns != [] {
      SameDesired(conns[1..], i, j);
    }
  }
}
