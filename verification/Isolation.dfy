/** Isolation: a Reconcile leaves a live tunnel whose connection did not change
    exactly as it was, whatever happens to the others. */
module Isolation {
  import opened Common
  import opened Text
  import opened Tables
  import opened Host
  import opened Reconciler
  import opened Agreement
  import opened Netip
  import opened Configs
  import opened Convergence
  import opened Runs
  import opened System

  /** The command names neither the tunnel, nor its interface, nor any of its
      destinations. */
  predicate Spares(c: Command, n: string, t: Tunnel) {
    match c
    case RouteReplace(subnet, dev) => subnet !in t.subnets && dev != t.iface
    case RouteDel(subnet, dev) => subnet !in t.subnets && dev != t.iface
    case RuleCheck(rule) => rule.iface != t.iface
    case RuleAppend(rule) => rule.iface != t.iface
    case RuleDelete(rule) => rule.iface != t.iface
    case Initiate(name) => name != n
    case Terminate(name) => name != n
    case LacAdd(def) => def.name != n
    case LacRemove(name) => name != n
    case LacConnect(name) => name != n
    case LacDisconnect(name) => name != n
    case WriteFiles(_) | LoadAll | SetRoutes(_) => true
  }

  /** Its routes and rules are exactly as they were, there or not. */
  ghost predicate SameLink(w: World, w': World, t: Tunnel) {
    && (forall s :: s in t.subnets ==> SameRoute(w, w', s))
    && (forall r: Rule :: r.iface == t.iface ==> w'.rules[r] == w.rules[r])
  }

  /** All commands run in between spare the tunnel, and its routes and rules are
      as they were. */
  ghost predicate Spared(w: World, w': World, n: string, t: Tunnel) {
    && w.trace <= w'.trace && SameLink(w, w', t)
    && forall i :: |w.trace| <= i < |w'.trace| ==> Spares(w'.trace[i].command, n, t)
  }

  /** Another tunnel with its own interface and its own destinations. */
  predicate ClearOf(u: Tunnel, t: Tunnel) {
    u.iface != t.iface && Disjoint(u.subnets, t.subnets)
  }

  ghost predicate AllClear(ts: map<string, Tunnel>, n: string, t: Tunnel) {
    forall m :: m in ts && m != n ==> ts[m].name == m && ClearOf(ts[m], t)
  }

  lemma SparedThen(w: World, w': World, w'': World, n: string, t: Tunnel)
    requires Spared(w, w', n, t) && Spared(w', w'', n, t)
    ensures Spared(w, w'', n, t)
  {
    hide Spares;
    assert forall s :: s in t.subnets ==> SameRoute(w, w', s) && SameRoute(w', w'', s);
    forall i | |w.trace| <= i < |w''.trace| ensures Spares(w''.trace[i].command, n, t) {
      if i < |w'.trace| {
        assert w''.trace[i] == w'.trace[i];
      }
    }
  }

  lemma PerformSpares(w: World, c: Command, n: string, t: Tunnel)
    requires Spares(c, n, t)
    ensures SameLink(w, Perform(w, c).0, t)
  {
  }

  lemma RunSpares(env: Env, w: World, c: Command, n: string, t: Tunnel)
    requires Spares(c, n, t)
    ensures Spared(w, Run(env, w, c).0, n, t)
  {
    hide Spares, Perform;
    PerformSpares(w, c, n, t);
  }

  lemma {:induction false} RemoveRoutesSpares(env: Env, w: World, iface: string, subnets: seq<string>, n: string, t: Tunnel)
    requires iface != t.iface && Disjoint(subnets, t.subnets)
    ensures Spared(w, RemoveRoutes(env, w, iface, subnets).0, n, t)
    decreases |subnets|
  {
    hide Run, Spared;
    Unmoved(w, n, t);
    if subnets != [] {
      var c := RouteDel(subnets[0], iface);
      var (w', a) := Run(env, w, c);
      assert subnets[0] in subnets;
      RunSpares(env, w, c, n, t);
      if a != Broken {
        RemoveRoutesSpares(env, w', iface, subnets[1..], n, t);
        SparedThen(w, w', RemoveRoutes(env, w', iface, subnets[1..]).0, n, t);
      }
    }
  }

  lemma {:induction false} DeleteRulesSpares(env: Env, w: World, rules: seq<Rule>, n: string, t: Tunnel)
    requires forall r :: r in rules ==> r.iface != t.iface
    ensures Spared(w, DeleteRules(env, w, rules).0, n, t)
    decreases |rules|
  {
    hide Run, Spared;
    Unmoved(w, n, t);
    if rules != [] {
      var c := RuleDelete(rules[0]);
      var (w', a) := Run(env, w, c);
      assert rules[0] in rules;
      RunSpares(env, w, c, n, t);
      if a != Broken {
        DeleteRulesSpares(env, w', rules[1..], n, t);
        SparedThen(w, w', DeleteRules(env, w', rules[1..]).0, n, t);
      }
    }
  }

  lemma TearDownSpares(o: Setup, w: World, u: Tunnel, n: string, t: Tunnel)
    requires ClearOf(u, t)
    ensures Spared(w, TearDownIf(o, w, u.iface, u.subnets), n, t)
  {
    hide RemoveRoutes, DeleteRules, Spared, Disjoint;
    Unmoved(w, n, t);
    if u.iface != "" {
      var w1 := RemoveRoutes(o.env, w, u.iface, u.subnets).0;
      RemoveRoutesSpares(o.env, w, u.iface, u.subnets, n, t);
      DeleteRulesSpares(o.env, w1, NatRules(u.iface), n, t);
      SparedThen(w, w1, DeleteRules(o.env, w1, NatRules(u.iface)).0, n, t);
    }
  }

  lemma DisconnectSpares(o: Setup, w: World, u: Tunnel, n: string, t: Tunnel)
    requires ClearOf(u, t) && u.name != n
    ensures Spared(w, Disconnect(o, w, u), n, t)
  {
    hide Run, TearDownIf, Spared, ClearOf;
    var w1 := TearDownIf(o, w, u.iface, u.subnets);
    var w2 := Run(o.env, w1, LacDisconnect(u.name)).0;
    var w3 := Run(o.env, w2, LacRemove(u.name)).0;
    var w4 := Run(o.env, w3, Terminate(u.name)).0;
    TearDownSpares(o, w, u, n, t);
    RunSpares(o.env, w1, LacDisconnect(u.name), n, t);
    RunSpares(o.env, w2, LacRemove(u.name), n, t);
    RunSpares(o.env, w3, Terminate(u.name), n, t);
    SparedThen(w, w1, w2, n, t);
    SparedThen(w, w2, w3, n, t);
    SparedThen(w, w3, w4, n, t);
  }

  lemma {:induction false} DisconnectEachSpares(o: Setup, w: World, ts: map<string, Tunnel>, names: seq<string>, n: string, t: Tunnel)
    requires AllClear(ts, n, t) && n !in names
    ensures Spared(w, DisconnectEach(o, w, ts, names), n, t)
    decreases |names|
  {
    hide Disconnect, ClearOf, Spared;
    Unmoved(w, n, t);
    if names != [] {
      assert names[0] in names;
      var w' := if names[0] in ts then Disconnect(o, w, ts[names[0]]) else w;
      if names[0] in ts {
        DisconnectSpares(o, w, ts[names[0]], n, t);
      }
      DisconnectEachSpares(o, w', ts, names[1..], n, t);
      SparedThen(w, w', DisconnectEach(o, w', ts, names[1..]), n, t);
    }
  }

  lemma DropSpares(o: Setup, f: Fleet, m: string, n: string, t: Tunnel)
    requires AllClear(f.tunnels, n, t) && m != n && t.iface != ""
    ensures Spared(f.world, Drop(o, f, m).world, n, t) && AllClear(Drop(o, f, m).tunnels, n, t)
  {
    hide Run, TearDownIf, Spared, Spares, Disjoint;
    Unmoved(f.world, n, t);
    if m in f.tunnels {
      var u := f.tunnels[m];
      var w1 := TearDownIf(o, f.world, u.iface, u.subnets);
      var w2 := Run(o.env, w1, LacDisconnect(m)).0;
      TearDownSpares(o, f.world, u, n, t);
      NamedSpares(m, n, t);
      RunSpares(o.env, w1, LacDisconnect(m), n, t);
      RunSpares(o.env, w2, Terminate(m), n, t);
      SparedThen(f.world, w1, w2, n, t);
      SparedThen(f.world, w2, Run(o.env, w2, Terminate(m)).0, n, t);
    }
  }

  lemma NamedSpares(m: string, n: string, t: Tunnel)
    requires m != n
    ensures Spares(LacDisconnect(m), n, t) && Spares(Terminate(m), n, t) && Spares(LacRemove(m), n, t)
    ensures Spares(Initiate(m), n, t) && Spares(LacConnect(m), n, t)
    ensures forall d: Definition :: d.name == m ==> Spares(LacAdd(d), n, t)
  {
  }

  lemma RedefineSpares(o: Setup, f: Fleet, d: Definition, n: string, t: Tunnel)
    requires AllClear(f.tunnels, n, t) && d.name != n && t.iface != ""
    ensures Spared(f.world, Redefine(o, f, d).world, n, t) && AllClear(Redefine(o, f, d).tunnels, n, t)
  {
    hide Drop, Run, Spared, Spares, ClearOf;
    var f1 := Drop(o, f, d.name);
    var w2 := Run(o.env, f1.world, LacRemove(d.name)).0;
    DropSpares(o, f, d.name, n, t);
    NamedSpares(d.name, n, t);
    RunSpares(o.env, f1.world, LacRemove(d.name), n, t);
    RunSpares(o.env, w2, LacAdd(d), n, t);
    SparedThen(f.world, f1.world, w2, n, t);
    SparedThen(f.world, w2, Run(o.env, w2, LacAdd(d)).0, n, t);
  }

  lemma {:induction false} RedefineEachSpares(o: Setup, f: Fleet, defs: seq<Definition>, n: string, t: Tunnel)
    requires AllClear(f.tunnels, n, t) && n !in DefNames(defs) && t.iface != ""
    ensures Spared(f.world, RedefineEach(o, f, defs).world, n, t)
    decreases |defs|
  {
    hide Redefine, ClearOf, Spared, AllClear;
    Unmoved(f.world, n, t);
    if defs != [] {
      var f1 := Redefine(o, f, defs[0]);
      assert defs[0] in defs;
      assert n !in DefNames(defs[1..]) by {
        assert forall d :: d in defs[1..] ==> d in defs;
      }
      RedefineSpares(o, f, defs[0], n, t);
      RedefineEachSpares(o, f1, defs[1..], n, t);
      SparedThen(f.world, f1.world, RedefineEach(o, f1, defs[1..]).world, n, t);
    }
  }

  lemma DialSpares(o: Setup, f: Fleet, m: string, n: string, t: Tunnel)
    requires m != n && m in f.tunnels
    ensures Spared(f.world, Dial(o, f, m).world, n, t)
  {
    hide Run, Spares, Spared;
    var w1 := Run(o.env, f.world, LacDisconnect(m)).0;
    var w2 := Run(o.env, w1, Initiate(m)).0;
    var w3 := Run(o.env, w2, LacConnect(m)).0;
    NamedSpares(m, n, t);
    RunSpares(o.env, f.world, LacDisconnect(m), n, t);
    RunSpares(o.env, w1, Initiate(m), n, t);
    RunSpares(o.env, w2, LacConnect(m), n, t);
    SparedThen(f.world, w1, w2, n, t);
    SparedThen(f.world, w2, w3, n, t);
  }

  /** A step on another tunnel, or on this one while it is up. */
  lemma StepSpares(o: Setup, f: Fleet, conn: Connection, n: string, t: Tunnel)
    requires Shape(f.tunnels) && n in f.tunnels && f.tunnels[n].iface != ""
    ensures var f' := Step(o, f, conn);
      && Shape(f'.tunnels) && n in f'.tunnels
      && Spared(f.world, f'.world, n, t)
      && f'.tunnels[n] == if conn.name == n then f.tunnels[n].(id := conn.id, subnets := conn.subnets) else f.tunnels[n]
  {
    hide Dial, Spared;
    Unmoved(f.world, n, t);
    var m, u := conn.name, Refreshed(f, conn);
    StepFrame(o, f, conn);
    assert m in f.tunnels ==> ShapeOf(m, f.tunnels[m]);
    assert ShapeOf(m, u);
    if m != n {
      DialSpares(o, f.(tunnels := f.tunnels[m := u]), m, n, t);
    }
  }

  lemma {:induction false} StepEachSpares(o: Setup, f: Fleet, conns: seq<Connection>, n: string, t: Tunnel)
    requires Shape(f.tunnels) && n in f.tunnels && f.tunnels[n].iface != ""
    requires forall conn :: conn in conns && conn.name == n ==> conn.subnets == f.tunnels[n].subnets
    ensures var f' := StepEach(o, f, conns);
      && n in f'.tunnels
      && Spared(f.world, f'.world, n, t)
      && f'.tunnels[n] == f.tunnels[n].(id := f'.tunnels[n].id)
    decreases |conns|
  {
    hide Step, Shape, Spared;
    Unmoved(f.world, n, t);
    if conns != [] {
      var f1 := Step(o, f, conns[0]);
      assert conns[0] in conns;
      StepSpares(o, f, conns[0], n, t);
      assert f1.tunnels[n] == f.tunnels[n].(id := f1.tunnels[n].id);
      StepEachSpares(o, f1, conns[1..], n, t);
      SparedThen(f.world, f1.world, StepEach(o, f1, conns[1..]).world, n, t);
    }
  }

  /** The tunnel's connection is still enabled and, if it can be read, its
      fingerprint is the rendered one. */
  ghost predicate Unedited(f: Fleet, i: Input, n: string) {
    i.conns.Some? ==>
      var conns := Enabled(i.conns.value);
      && n in ConnNames(conns)
      && (DesiredTunnels(conns, i).Some? ==>
            n in f.rendered && Lookup(Fingerprints(DesiredTunnels(conns, i).value), n) == f.rendered[n])
  }

  lemma OthersAreClear(ts: map<string, Tunnel>, n: string)
    requires Filed(ts) && OwnIfaces(ts) && Private(ts) && n in ts && ts[n].iface != ""
    ensures AllClear(ts, n, ts[n])
  {
    hide Disjoint;
  }

  lemma WriteSpares(o: Setup, f: Fleet, conns: seq<Connection>, i: Input, n: string, t: Tunnel)
    ensures Spared(f.world, WriteConfigs(o, f, conns, i).0.world, n, t)
  {
    hide Run, DesiredTunnels, Fingerprints, ChangedTunnels, Spared;
    var desired := DesiredTunnels(conns, i);
    Unmoved(f.world, n, t);
    if desired.Some? {
      var w1 := Run(o.env, f.world, WriteFiles(desired.value)).0;
      RunSpares(o.env, f.world, WriteFiles(desired.value), n, t);
      RunSpares(o.env, w1, LoadAll, n, t);
      SparedThen(f.world, w1, Run(o.env, w1, LoadAll).0, n, t);
    }
  }

  lemma Unmoved(w: World, n: string, t: Tunnel)
    ensures Spared(w, w, n, t)
  {
  }

  lemma AdvertiseSpares(o: Setup, f: Fleet, i: Input, n: string, t: Tunnel)
    ensures Spared(f.world, Advertise(o, f, i).0.world, n, t)
  {
    hide Run, Sort, Join, Spared;
    Unmoved(f.world, n, t);
    if i.routes.Some? {
      RunSpares(o.env, f.world, SetRoutes(Sort(i.routes.value)), n, t);
    }
  }

  /** A name whose fingerprint did not change is not among the changed. */
  lemma NotChanged(o: Setup, f: Fleet, conns: seq<Connection>, i: Input, n: string)
    requires GoodConns(conns) && DesiredTunnels(conns, i).Some? && WriteConfigs(o, f, conns, i).1.Some?
    requires n in f.rendered && Lookup(Fingerprints(DesiredTunnels(conns, i).value), n) == f.rendered[n]
    ensures n !in DefNames(WriteConfigs(o, f, conns, i).1.value)
  {
    hide Run, Fingerprints, ChangedTunnels, DesiredTunnels, GoodConns;
    var defs := DesiredTunnels(conns, i).value;
    var wanted := Fingerprints(defs);
    ChangedSpec(f.rendered, wanted, defs);
    var changed := WriteConfigs(o, f, conns, i).1.value;
    forall d | d in changed ensures d.name != n {
      assert d in ChangedTunnels(f.rendered, wanted, defs);
    }
  }

  lemma ShapeFiled(ts: map<string, Tunnel>)
    requires Shape(ts)
    ensures Filed(ts)
  {
    assert forall n :: n in ts ==> ShapeOf(n, ts[n]);
  }

  lemma SoundPrivate(f: Fleet)
    requires Sound(f)
    ensures Private(f.tunnels)
  {
  }

  /** In any environment, whatever breaks while the others are torn down, dropped
      or dialled: a tunnel that is up and whose connection did not change keeps
      its record but for the row id, no command names it, and its routes and rules
      in the kernel are exactly as they were. */
  lemma LiveTunnelUntouched(o: Setup, f: Fleet, i: Input, n: string)
    requires Shape(f.tunnels) && OwnIfaces(f.tunnels) && Sound(f) && GoodInput(f, i)
    requires n in f.tunnels && f.tunnels[n].phase == Up && Unedited(f, i, n)
    ensures var f', t := Reconcile(o, f, i).0, f.tunnels[n];
      && n in f'.tunnels && f'.tunnels[n] == t.(id := f'.tunnels[n].id)
      && Spared(f.world, f'.world, n, t)
  {
    hide WriteConfigs, RedefineEach, StepEach, Advertise, DisconnectEach, Enabled, DesiredTunnels, Fingerprints,
         Sound, GoodConns, Spared, AllClear, Distinct, OwnIfaces, Private, Shape, Filed;
    var t := f.tunnels[n];
    Unmoved(f.world, n, t);
    assert t.iface != "" by { UpHasIface(f.tunnels, n); }
    if i.conns.Some? {
      var conns := Enabled(i.conns.value);
      ShapeFiled(f.tunnels);
      SoundPrivate(f);
      OthersAreClear(f.tunnels, n);
      var f1 := RemoveStale(o, f, i.staleOrder);
      DisconnectEachSpares(o, f.world, f.tunnels, i.staleOrder, n, t);
      SoundSubset(f, f1);
      var (f2, changed) := WriteConfigs(o, f1, conns, i);
      WriteConfigsFrame(o, f1, conns, i);
      WriteSpares(o, f1, conns, i, n, t);
      SparedThen(f.world, f1.world, f2.world, n, t);
      if changed.Some? {
        WriteConfigsSpec(o, f1, conns, i);
        NotChanged(o, f1, conns, i, n);
        RestClear(f.tunnels, f2.tunnels, n, t);
        LoopsSpare(o, f2, changed.value, conns, i, n);
        SparedThen(f.world, f2.world, Reconcile(o, f, i).0.world, n, t);
      }
    }
  }

  lemma UpHasIface(ts: map<string, Tunnel>, n: string)
    requires Shape(ts) && n in ts && ts[n].phase == Up
    ensures ts[n].iface != ""
  {
    assert ShapeOf(n, ts[n]);
  }

  lemma RestClear(ts: map<string, Tunnel>, ts': map<string, Tunnel>, n: string, t: Tunnel)
    requires AllClear(ts, n, t) && Shape(ts) && forall m :: m in ts' ==> m in ts && ts'[m] == ts[m]
    ensures AllClear(ts', n, t) && Shape(ts')
  {
    hide ClearOf, ShapeOf;
  }

  /** The two loops and the advertisement after them. */
  lemma LoopsSpare(o: Setup, f: Fleet, changed: seq<Definition>, conns: seq<Connection>, i: Input, n: string)
    requires Shape(f.tunnels) && n in f.tunnels && f.tunnels[n].iface != "" && AllClear(f.tunnels, n, f.tunnels[n])
    requires n !in DefNames(changed)
    requires forall conn :: conn in conns && conn.name == n ==> conn.subnets == f.tunnels[n].subnets
    ensures var f', t := Advertise(o, StepEach(o, RedefineEach(o, f, changed), conns), i).0, f.tunnels[n];
      && n in f'.tunnels && f'.tunnels[n] == t.(id := f'.tunnels[n].id)
      && Spared(f.world, f'.world, n, t)
  {
    hide RedefineEach, StepEach, Advertise, Spared, AllClear, DefNames;
    var t, f3 := f.tunnels[n], RedefineEach(o, f, changed);
    RedefineEachSpares(o, f, changed, n, t);
    RedefineEachRecords(o, f, changed);
    assert Shape(f3.tunnels) by {
      assert forall m :: m in f3.tunnels ==> ShapeOf(m, f.tunnels[m]);
    }
    var f4 := StepEach(o, f3, conns);
    StepEachSpares(o, f3, conns, n, t);
    SparedThen(f.world, f3.world, f4.world, n, t);
    AdvertiseSpares(o, f4, i, n, t);
    AdvertiseFrame(o, f4, i);
    SparedThen(f.world, f4.world, Advertise(o, f4, i).0.world, n, t);
  }

  // ----- over runs

  /** In every state that store edits, Reconciles, hooks and restarts can lead to,
      in every environment, the next Reconcile leaves every unedited live tunnel
      alone. Of the hooks only the up hooks need to be well-behaved. */
  lemma AlwaysIsolated(c: Codec, o: Setup, s: Sys, acts: seq<Act>, i: Input, n: string)
    requires Faithful(c) && SysInitial(s) && HookedActs(c, o, s, acts)
    requires var s' := ActAll(c, o, s, acts); ReadFrom(s'.tables, i) && StaleOrdered(s'.fleet, i)
    requires var f := ActAll(c, o, s, acts).fleet; n in f.tunnels && f.tunnels[n].phase == Up && Unedited(f, i, n)
    ensures var f := ActAll(c, o, s, acts).fleet;
      var f', t := Reconcile(o, f, i).0, f.tunnels[n];
      && n in f'.tunnels && f'.tunnels[n] == t.(id := f'.tunnels[n].id)
      && Spared(f.world, f'.world, n, t)
  {
    hide Faithful, HookedActs, ActAll, ReadFrom, StaleOrdered, Unedited, Reconcile, Spared, Consistent, Shape,
         OwnIfaces, Sound, GoodInput;
    HookedActsTidy(c, o, s, acts);
    var s' := ActAll(c, o, s, acts);
    ReconcileInput(c, s', i);
    ConsistentSound(c, s');
    LiveTunnelUntouched(o, s'.fleet, i, n);
  }
}
