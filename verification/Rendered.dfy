/** What is rendered for the daemons is harmless: whatever sequence of edits the
    store has been through, no field of any definition on disk, loaded in charon
    or known to xl2tpd can end its line or its quotes. */
module Rendered {
  import opened Text
  import opened Netip
  import opened Host
  import opened Reconciler
  import opened Configs
  import opened System
  import opened Delivery
  import E = Edits

  /** Name, host and user are single words, the secrets are not empty, and none
      has a quote or a control character in it. The address is the resolver's. */
  predicate SafeDef(d: Definition) {
    && E.NameOk(d.name) && E.WordOk(d.host) && E.WordOk(d.user)
    && d.psk != "" && E.Harmless(d.psk) && d.password != "" && E.Harmless(d.password)
  }

  predicate SafeRow(r: T.Row) {
    && E.NameOk(r.name) && E.WordOk(r.host) && E.WordOk(r.user)
    && r.psk != "" && E.Harmless(r.psk) && r.password != "" && E.Harmless(r.password)
  }

  ghost predicate SafeRows(t: T.State) {
    forall r :: r in t.rows ==> SafeRow(r)
  }

  predicate AllSafe(defs: seq<Definition>) {
    forall k :: 0 <= k < |defs| ==> SafeDef(defs[k])
  }

  ghost predicate SafeWorld(w: World) {
    AllSafe(w.files) && AllSafe(w.loaded) && forall n :: n in w.lacs ==> SafeDef(w.lacs[n])
  }

  // ----- the store

  lemma ApplySafe(c: Codec, t: T.State, op: T.Op)
    requires Faithful(c) && O.Owned(c, t) && SafeRows(t)
    ensures SafeRows(T.Apply(c, t, op))
  {
    hide Faithful, O.Owned, T.CreateConnection, T.UpdateConnection, T.SetConnectionEnabled, T.SetHealthCheckIP,
         T.DeleteConnection, T.CreateLocalSubnet, T.SetLocalSubnetEnabled, T.DeleteLocalSubnet, E.NameOk, E.WordOk,
         E.Harmless, E.ListOk, E.AddressOk, E.RoutesFree, E.StoredAs, O.Subnets;
    var t' := T.Apply(c, t, op);
    match op
    case Create(conn, secrets) => CreateSafe(c, t, conn, secrets);
    case Update(conn, secrets) => UpdateSafe(c, t, conn, secrets);
    case Enable(id, enabled) =>
      E.EnableExact(t, id, enabled);
      SafeByIndex(t, t');
    case SetIP(id, ip) =>
      E.SetIPExact(c, t, id, ip);
      SafeByIndex(t, t');
    case Delete(id) =>
      E.DeleteExact(t, id);
      forall r | r in t'.rows ensures r in t.rows {
        assert r in multiset(t'.rows);
        assert r in multiset(t.rows);
      }
    case CreateLocal(local) => E.CreateLocalExact(c, t, local);
    case EnableLocal(id, enabled) => E.EnableLocalExact(t, id, enabled);
    case DeleteLocal(id) => E.DeleteLocalExact(t, id);
  }

  lemma CreateSafe(c: Codec, t: T.State, conn: T.Connection, s: T.Secrets)
    requires Faithful(c) && O.Owned(c, t) && SafeRows(t)
    ensures SafeRows(T.CreateConnection(c, t, conn, s).0)
  {
    hide Faithful, O.Owned, T.CreateConnection, E.NameOk, E.WordOk, E.Harmless, E.ListOk, E.AddressOk, E.RoutesFree,
         E.StoredAs, O.Subnets;
    E.CreateExact(c, t, conn, s);
    var (t', answer) := T.CreateConnection(c, t, conn, s);
    if answer.Ok? {
      assert SafeRow(t'.rows[|t.rows|]);
      assert t'.rows == t.rows + [t'.rows[|t.rows|]];
    }
  }

  lemma UpdateSafe(c: Codec, t: T.State, conn: T.Connection, s: T.Secrets)
    requires Faithful(c) && O.Owned(c, t) && SafeRows(t)
    ensures SafeRows(T.UpdateConnection(c, t, conn, s).0)
  {
    hide Faithful, O.Owned, T.UpdateConnection, E.NameOk, E.WordOk, E.Harmless, E.ListOk, E.AddressOk, E.RoutesFree,
         E.StoredAs, O.Subnets;
    E.UpdateExact(c, t, conn, s);
    SafeByIndex(t, T.UpdateConnection(c, t, conn, s).0);
  }

  lemma SafeByIndex(t: T.State, t': T.State)
    requires SafeRows(t)
    requires |t'.rows| == |t.rows| && forall k :: 0 <= k < |t.rows| ==> t.rows[k] in t.rows && (SafeRow(t.rows[k]) ==> SafeRow(t'.rows[k]))
    ensures SafeRows(t')
  {
    hide SafeRow;
  }

  // ----- the host

  /** A command that hands over nothing, or only safe definitions. */
  predicate SafeCommand(c: Command) {
    match c
    case WriteFiles(defs) => AllSafe(defs)
    case LacAdd(def) => SafeDef(def)
    case _ => true
  }

  lemma RunSafe(env: Env, w: World, c: Command)
    requires SafeWorld(w) && SafeCommand(c)
    ensures SafeWorld(Run(env, w, c).0)
  {
    hide SafeDef;
  }

  lemma SameDaemonsSafe(w: World, w': World)
    requires SafeWorld(w) && SameDaemons(w, w')
    ensures SafeWorld(w')
  {
  }

  lemma TearDownSafe(o: Setup, w: World, iface: string, subnets: seq<string>)
    requires SafeWorld(w)
    ensures SafeWorld(TearDownIf(o, w, iface, subnets))
  {
    hide SafeWorld, TearDownIf, SameDaemons;
    D.TearDownLacs(o, w, iface, subnets);
    SameDaemonsSafe(w, TearDownIf(o, w, iface, subnets));
  }

  lemma {:induction false} StaleSafe(o: Setup, w: World, ts: map<string, Tunnel>, names: seq<string>)
    requires SafeWorld(w)
    ensures SafeWorld(DisconnectEach(o, w, ts, names))
    decreases |names|
  {
    hide SafeWorld, Run, TearDownIf;
    if names != [] {
      var w' := if names[0] in ts then Disconnect(o, w, ts[names[0]]) else w;
      if names[0] in ts {
        var t := ts[names[0]];
        var w1 := TearDownIf(o, w, t.iface, t.subnets);
        var w2 := Run(o.env, w1, LacDisconnect(t.name)).0;
        var w3 := Run(o.env, w2, LacRemove(t.name)).0;
        TearDownSafe(o, w, t.iface, t.subnets);
        RunSafe(o.env, w1, LacDisconnect(t.name));
        RunSafe(o.env, w2, LacRemove(t.name));
        RunSafe(o.env, w3, Terminate(t.name));
      }
      StaleSafe(o, w', ts, names[1..]);
    }
  }

  lemma RedefineSafe(o: Setup, f: Fleet, d: Definition)
    requires SafeWorld(f.world) && SafeDef(d)
    ensures SafeWorld(Redefine(o, f, d).world)
  {
    hide SafeWorld, Run, TearDownIf, SafeDef;
    var n, f1 := d.name, Drop(o, f, d.name);
    if n in f.tunnels {
      var t := f.tunnels[n];
      var w1 := TearDownIf(o, f.world, t.iface, t.subnets);
      var w2 := Run(o.env, w1, LacDisconnect(n)).0;
      TearDownSafe(o, f.world, t.iface, t.subnets);
      RunSafe(o.env, w1, LacDisconnect(n));
      RunSafe(o.env, w2, Terminate(n));
    }
    var w3 := Run(o.env, f1.world, LacRemove(n)).0;
    RunSafe(o.env, f1.world, LacRemove(n));
    RunSafe(o.env, w3, LacAdd(d));
  }

  lemma {:induction false} RedefineEachSafe(o: Setup, f: Fleet, defs: seq<Definition>)
    requires SafeWorld(f.world) && AllSafe(defs)
    ensures SafeWorld(RedefineEach(o, f, defs).world)
    decreases |defs|
  {
    hide SafeWorld, Redefine, SafeDef;
    if defs != [] {
      RedefineSafe(o, f, defs[0]);
      RedefineEachSafe(o, Redefine(o, f, defs[0]), defs[1..]);
    }
  }

  lemma StepSafe(o: Setup, f: Fleet, conn: T.Connection)
    requires SafeWorld(f.world)
    ensures SafeWorld(Step(o, f, conn).world)
  {
    hide SafeWorld, Run, TearDownIf, RedialDelay;
    var n, t := conn.name, Refreshed(f, conn);
    var w1 := Run(o.env, f.world, LacDisconnect(n)).0;
    var w2 := Run(o.env, w1, Initiate(n)).0;
    TearDownSafe(o, f.world, t.iface, t.subnets);
    RunSafe(o.env, f.world, LacDisconnect(n));
    RunSafe(o.env, w1, Initiate(n));
    RunSafe(o.env, w2, LacConnect(n));
  }

  lemma {:induction false} StepEachSafe(o: Setup, f: Fleet, conns: seq<T.Connection>)
    requires SafeWorld(f.world)
    ensures SafeWorld(StepEach(o, f, conns).world)
    decreases |conns|
  {
    hide SafeWorld, Step;
    if conns != [] {
      StepSafe(o, f, conns[0]);
      StepEachSafe(o, Step(o, f, conns[0]), conns[1..]);
    }
  }

  lemma WriteSafe(o: Setup, f: Fleet, conns: seq<T.Connection>, i: Input)
    requires SafeWorld(f.world) && (DesiredTunnels(conns, i).Some? ==> AllSafe(DesiredTunnels(conns, i).value))
    ensures var (f', changed) := WriteConfigs(o, f, conns, i);
      SafeWorld(f'.world) && (changed.Some? ==> AllSafe(changed.value))
  {
    hide SafeWorld, Run, DesiredTunnels, Fingerprints, ChangedTunnels, SafeDef;
    var desired := DesiredTunnels(conns, i);
    if desired.Some? {
      var w1 := Run(o.env, f.world, WriteFiles(desired.value)).0;
      RunSafe(o.env, f.world, WriteFiles(desired.value));
      RunSafe(o.env, w1, LoadAll);
      var wanted := Fingerprints(desired.value);
      var changed := ChangedTunnels(f.rendered, wanted, desired.value);
      ChangedSpec(f.rendered, wanted, desired.value);
      forall k | 0 <= k < |changed| ensures SafeDef(changed[k]) {
        assert changed[k] in changed;
      }
    }
  }

  lemma ReconcileSafe(o: Setup, f: Fleet, i: Input)
    requires SafeWorld(f.world)
    requires i.conns.Some? && DesiredTunnels(Enabled(i.conns.value), i).Some? ==>
      AllSafe(DesiredTunnels(Enabled(i.conns.value), i).value)
    ensures SafeWorld(Reconcile(o, f, i).0.world)
  {
    hide SafeWorld, WriteConfigs, RedefineEach, StepEach, DisconnectEach, Enabled, DesiredTunnels, AllSafe, Run, Sort, Join;
    if i.conns.Some? {
      var conns := Enabled(i.conns.value);
      var f1 := RemoveStale(o, f, i.staleOrder);
      StaleSafe(o, f.world, f.tunnels, i.staleOrder);
      var (f2, changed) := WriteConfigs(o, f1, conns, i);
      WriteSafe(o, f1, conns, i);
      if changed.Some? {
        var f3 := RedefineEach(o, f2, changed.value);
        RedefineEachSafe(o, f2, changed.value);
        StepEachSafe(o, f3, conns);
        var f4 := StepEach(o, f3, conns);
        if i.routes.Some? {
          RunSafe(o.env, f4.world, SetRoutes(Sort(i.routes.value)));
        }
      }
    }
  }

  /** What the rows hold is what a Reconcile wants. */
  lemma DesiredSafe(c: Codec, t: T.State, i: Input)
    requires Faithful(c) && O.Owned(c, t) && ReadFrom(t, i) && SafeRows(t)
    requires i.conns.Some? && DesiredTunnels(Enabled(i.conns.value), i).Some?
    ensures AllSafe(DesiredTunnels(Enabled(i.conns.value), i).value)
  {
    hide Faithful, O.Owned, ReadFrom, DesiredTunnels, Enabled, DefsDistinct;
    var defs := DesiredTunnels(Enabled(i.conns.value), i).value;
    RowsDesired(c, t, i);
    forall k | 0 <= k < |defs| ensures SafeDef(defs[k]) {
      assert defs[k] in defs;
      var r :| IsEnabled(t, r) && DefOf(defs[k], r, i);
      assert SafeRow(r);
    }
  }

  // ----- over runs

  lemma {:induction false} FromFilesSafe(defs: seq<Definition>)
    requires AllSafe(defs)
    ensures forall n :: n in FromFiles(defs) ==> SafeDef(FromFiles(defs)[n])
  {
    hide SafeDef;
    if defs != [] {
      FromFilesSafe(defs[..|defs| - 1]);
    }
  }

  lemma EventSafe(o: Setup, f: Fleet, e: Event)
    requires SafeWorld(f.world) && !e.Reconciled?
    ensures SafeWorld(Next(o, f, e).world)
  {
    hide PPPUp, TearDownIf, FromFiles, RedialDelay, SafeDef;
    match e
    case WentUp(name, iface) =>
      D.UpWorld(o, f, name, iface);
      SameDaemonsSafe(f.world, Next(o, f, e).world);
    case WentDown(name, iface) =>
      if name in f.tunnels {
        TearDownSafe(o, f.world, if iface == "" then f.tunnels[name].iface else iface, f.tunnels[name].subnets);
      }
    case FoundUnhealthy(name) =>
      if name in f.tunnels {
        TearDownSafe(o, f.world, f.tunnels[name].iface, f.tunnels[name].subnets);
      }
    case XL2TPDRestarted => FromFilesSafe(f.world.files);
    case _ =>
  }

  lemma ActSafe(c: Codec, o: Setup, s: Sys, a: Act)
    requires Faithful(c) && Consistent(c, s) && PossibleAct(s, a) && SafeRows(s.tables) && SafeWorld(s.fleet.world)
    ensures var s' := Act1(c, o, s, a); SafeRows(s'.tables) && SafeWorld(s'.fleet.world)
  {
    hide Faithful, Consistent, SafeRows, SafeWorld, T.Apply, Reconcile, ReadFrom, StaleOrdered, T.Legal, AllSafe;
    assert O.Owned(c, s.tables) by { ConsistentFiled(c, s); }
    match a
    case Edit(op) => ApplySafe(c, s.tables, op);
    case Happen(e) =>
      if e.Reconciled? {
        if e.input.conns.Some? && DesiredTunnels(Enabled(e.input.conns.value), e.input).Some? {
          DesiredSafe(c, s.tables, e.input);
        }
        ReconcileSafe(o, s.fleet, e.input);
      } else {
        EventSafe(o, s.fleet, e);
      }
  }

  lemma {:induction false} RunSafeActs(c: Codec, o: Setup, s: Sys, acts: seq<Act>)
    requires Faithful(c) && Consistent(c, s) && PossibleActs(c, o, s, acts) && SafeRows(s.tables) && SafeWorld(s.fleet.world)
    ensures var s' := ActAll(c, o, s, acts); SafeRows(s'.tables) && SafeWorld(s'.fleet.world)
    decreases |acts|
  {
    hide Faithful, Consistent, SafeRows, SafeWorld, Act1, PossibleAct;
    if acts != [] {
      ActSafe(c, o, s, acts[0]);
      PossibleKeeps(c, o, s, acts[0]);
      RunSafeActs(c, o, Act1(c, o, s, acts[0]), acts[1..]);
    }
  }

  /** In every reachable state of store and reconciler, in every environment, every
      row and every definition on disk, loaded in charon or known to xl2tpd is
      safe, if what lay on disk before the first start was. */
  lemma AlwaysSafe(c: Codec, o: Setup, s: Sys, acts: seq<Act>)
    requires Faithful(c) && SysInitial(s) && AllSafe(s.fleet.world.files) && PossibleActs(c, o, s, acts)
    ensures var s' := ActAll(c, o, s, acts);
      && (forall r :: r in s'.tables.rows ==> SafeRow(r))
      && AllSafe(s'.fleet.world.files) && AllSafe(s'.fleet.world.loaded)
      && forall n :: n in s'.fleet.world.lacs ==> SafeDef(s'.fleet.world.lacs[n])
  {
    hide Faithful, Consistent, PossibleActs, ActAll, SafeDef, SafeRow;
    InitialConsistent(c, s);
    RunSafeActs(c, o, s, acts);
  }
}
