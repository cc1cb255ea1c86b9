/** What the two daemons run with: charon's loaded configuration and xl2tpd's LAC
    table against the fingerprints the reconciler remembers. */
module Daemons {
  import opened Common
  import opened Text
  import opened Tables
  import opened Host
  import opened Reconciler
  import opened Agreement
  import opened Configs
  import opened Runs
  import opened Hooks
  import opened Convergence

  ghost predicate Defined(w: World, n: string, text: string) {
    n in w.lacs && w.lacs[n].name == n && Fingerprint(w.lacs[n]) == text
  }

  /** charon runs with what was rendered, and xl2tpd has a matching definition of
      every rendered tunnel. */
  ghost predicate InStep(f: Fleet) {
    && (f.rendered == map[] || f.rendered == Fingerprints(f.world.loaded))
    && (forall n :: n in f.rendered ==> Defined(f.world, n, f.rendered[n]))
  }

  /** xl2tpd accepts every change to its LAC table. */
  ghost predicate LacsWork(env: Env) {
    forall t: seq<Entry>, c: Command :: c.LacAdd? || c.LacRemove? ==> env.works(t, c)
  }

  // ----- what each part does to the LAC table

  predicate OnLacs(c: Command) {
    c.LacAdd? || c.LacRemove?
  }

  lemma RunLacs(env: Env, w: World, c: Command)
    requires !OnLacs(c)
    ensures Run(env, w, c).0.lacs == w.lacs
    ensures !c.LoadAll? ==> Run(env, w, c).0.loaded == w.loaded
  {
  }

  lemma RemoveEffect(env: Env, w: World, n: string)
    requires LacsWork(env)
    ensures var w' := Run(env, w, LacRemove(n)).0; w'.lacs == w.lacs - {n} && w'.loaded == w.loaded
  {
    assert n !in w.lacs ==> w.lacs - {n} == w.lacs;
  }

  lemma AddEffect(env: Env, w: World, d: Definition)
    requires LacsWork(env) && d.name !in w.lacs
    ensures var w' := Run(env, w, LacAdd(d)).0; w'.lacs == w.lacs[d.name := d] && w'.loaded == w.loaded
  {
  }

  lemma TearDownLacs(o: Setup, w: World, iface: string, subnets: seq<string>)
    ensures SameDaemons(w, TearDownIf(o, w, iface, subnets))
  {
    hide TearDown;
    if iface != "" {
      TearDownConfined(o.env, w, iface, subnets);
    }
  }

  lemma DisconnectLacs(o: Setup, w: World, t: Tunnel)
    requires LacsWork(o.env)
    ensures var w' := Disconnect(o, w, t); w'.lacs == w.lacs - {t.name} && w'.loaded == w.loaded
  {
    hide Run, TearDownIf, LacsWork;
    var w1 := TearDownIf(o, w, t.iface, t.subnets);
    var w2 := Run(o.env, w1, LacDisconnect(t.name)).0;
    var w3 := Run(o.env, w2, LacRemove(t.name)).0;
    TearDownLacs(o, w, t.iface, t.subnets);
    RunLacs(o.env, w1, LacDisconnect(t.name));
    RemoveEffect(o.env, w2, t.name);
    RunLacs(o.env, w3, Terminate(t.name));
  }

  lemma {:induction false} DisconnectEachLacs(o: Setup, w: World, ts: map<string, Tunnel>, names: seq<string>)
    requires LacsWork(o.env)
    requires Filed(ts) && forall n :: n in names ==> n in ts
    ensures var w' := DisconnectEach(o, w, ts, names); w'.lacs == w.lacs - Set(names) && w'.loaded == w.loaded
    decreases |names|
  {
    hide Disconnect, LacsWork;
    if names == [] {
      assert w.lacs - Set(names) == w.lacs;
    } else {
      var n := names[0];
      assert n in names;
      var w' := Disconnect(o, w, ts[n]);
      DisconnectLacs(o, w, ts[n]);
      DisconnectEachLacs(o, w', ts, names[1..]);
      assert Set(names) == {n} + Set(names[1..]);
      assert w.lacs - {n} - Set(names[1..]) == w.lacs - Set(names);
    }
  }

  lemma DropLacs(o: Setup, f: Fleet, n: string)
    ensures Drop(o, f, n).world.lacs == f.world.lacs && Drop(o, f, n).world.loaded == f.world.loaded
  {
    hide Run, TearDownIf;
    if n in f.tunnels {
      var t := f.tunnels[n];
      var w1 := TearDownIf(o, f.world, t.iface, t.subnets);
      TearDownLacs(o, f.world, t.iface, t.subnets);
      RunLacs(o.env, w1, LacDisconnect(n));
      RunLacs(o.env, Run(o.env, w1, LacDisconnect(n)).0, Terminate(n));
    }
  }

  /** The old definition goes first: xl2tpd would ignore the new one otherwise. */
  lemma RedefineLacs(o: Setup, f: Fleet, d: Definition)
    requires LacsWork(o.env)
    ensures var f' := Redefine(o, f, d);
      f'.world.lacs == f.world.lacs[d.name := d] && f'.world.loaded == f.world.loaded && f'.rendered == f.rendered
  {
    hide Run, Drop, LacsWork;
    var f1 := Drop(o, f, d.name);
    DropLacs(o, f, d.name);
    DropRendered(o, f, d.name);
    var w2 := Run(o.env, f1.world, LacRemove(d.name)).0;
    RemoveEffect(o.env, f1.world, d.name);
    AddEffect(o.env, w2, d);
    assert (f.world.lacs - {d.name})[d.name := d] == f.world.lacs[d.name := d];
  }

  lemma DropRendered(o: Setup, f: Fleet, n: string)
    ensures Drop(o, f, n).rendered == f.rendered
  {
    hide Run, TearDownIf;
  }

  lemma {:induction false} RedefineEachLacs(o: Setup, f: Fleet, defs: seq<Definition>)
    requires LacsWork(o.env) && DefsDistinct(defs)
    ensures var f' := RedefineEach(o, f, defs);
      && f'.world.loaded == f.world.loaded && f'.rendered == f.rendered
      && (forall d :: d in defs ==> d.name in f'.world.lacs && f'.world.lacs[d.name] == d)
      && (forall n :: n in f.world.lacs && n !in DefNames(defs) ==> n in f'.world.lacs && f'.world.lacs[n] == f.world.lacs[n])
    decreases |defs|
  {
    hide Redefine, LacsWork;
    if defs != [] {
      var d := defs[0];
      var f1 := Redefine(o, f, d);
      RedefineLacs(o, f, d);
      RedefineEachLacs(o, f1, defs[1..]);
      assert DefNames(defs) == {d.name} + DefNames(defs[1..]);
      assert d.name !in DefNames(defs[1..]) by {
        forall e | e in defs[1..] ensures e.name != d.name {
          var k :| 0 <= k < |defs[1..]| && defs[1..][k] == e;
          assert defs[k + 1] == e;
        }
      }
    }
  }

  /** Whatever xl2tpd answers, charon is left alone. */
  lemma {:induction false} RedefineEachLoaded(o: Setup, f: Fleet, defs: seq<Definition>)
    ensures RedefineEach(o, f, defs).world.loaded == f.world.loaded
    decreases |defs|
  {
    hide Redefine;
    if defs != [] {
      RedefineLoaded(o, f, defs[0]);
      RedefineEachLoaded(o, Redefine(o, f, defs[0]), defs[1..]);
    }
  }

  lemma RedefineLoaded(o: Setup, f: Fleet, d: Definition)
    ensures Redefine(o, f, d).world.loaded == f.world.loaded
  {
    hide Drop, Perform;
    DropLacs(o, f, d.name);
    var w2 := Run(o.env, Drop(o, f, d.name).world, LacRemove(d.name)).0;
    KeepsLoaded(o.env, Drop(o, f, d.name).world, LacRemove(d.name));
    KeepsLoaded(o.env, w2, LacAdd(d));
  }

  lemma KeepsLoaded(env: Env, w: World, c: Command)
    requires OnLacs(c)
    ensures Run(env, w, c).0.loaded == w.loaded
  {
  }

  lemma StepLacs(o: Setup, f: Fleet, conn: Connection)
    ensures var f' := Step(o, f, conn); f'.world.lacs == f.world.lacs && f'.world.loaded == f.world.loaded
  {
    hide Run, TearDownIf;
    var n, t := conn.name, Refreshed(f, conn);
    var w1 := Run(o.env, f.world, LacDisconnect(n)).0;
    var w2 := Run(o.env, w1, Initiate(n)).0;
    TearDownLacs(o, f.world, t.iface, t.subnets);
    RunLacs(o.env, f.world, LacDisconnect(n));
    RunLacs(o.env, w1, Initiate(n));
    RunLacs(o.env, w2, LacConnect(n));
  }

  lemma {:induction false} StepEachLacs(o: Setup, f: Fleet, conns: seq<Connection>)
    ensures var f' := StepEach(o, f, conns); f'.world.lacs == f.world.lacs && f'.world.loaded == f.world.loaded
    decreases |conns|
  {
    hide Step;
    if conns != [] {
      StepLacs(o, f, conns[0]);
      StepEachLacs(o, Step(o, f, conns[0]), conns[1..]);
    }
  }

  lemma AdvertiseLacs(o: Setup, f: Fleet, i: Input)
    ensures var f' := Advertise(o, f, i).0; f'.world.lacs == f.world.lacs && f'.world.loaded == f.world.loaded
  {
    hide Run, Sort, Join;
    if i.routes.Some? {
      RunLacs(o.env, f.world, SetRoutes(Sort(i.routes.value)));
    }
  }

  /** A write that succeeds leaves charon running with the wanted definitions, or
      with what it already had when nothing needed loading. */
  lemma WriteLoads(o: Setup, f: Fleet, conns: seq<Connection>, i: Input)
    requires NamesDistinct(conns)
    ensures var (f', changed) := WriteConfigs(o, f, conns, i);
      && f'.world.lacs == f.world.lacs
      && (changed.None? ==> f'.rendered == f.rendered && f'.world.loaded == f.world.loaded)
      && (changed.Some? ==>
            && DesiredTunnels(conns, i).Some?
            && f'.rendered == Fingerprints(DesiredTunnels(conns, i).value)
            && changed.value == ChangedTunnels(f.rendered, f'.rendered, DesiredTunnels(conns, i).value)
            && (f'.world.loaded == DesiredTunnels(conns, i).value || (f'.rendered == f.rendered && f'.world.loaded == f.world.loaded)))
  {
    hide Fingerprints, ChangedTunnels, DesiredTunnels, NamesDistinct;
    var desired := DesiredTunnels(conns, i);
    if desired.Some? {
      DesiredSpec(conns, i);
      DescribesNames(conns, desired.value);
      SkipExact(f.rendered, desired.value);
      LoadTwo(o.env, f.world, desired.value);
    }
  }

  lemma LoadTwo(env: Env, w: World, defs: seq<Definition>)
    ensures var (w1, a) := Run(env, w, WriteFiles(defs));
      var (w2, b) := Run(env, w1, LoadAll);
      && w1.lacs == w.lacs && w1.loaded == w.loaded && w2.lacs == w.lacs
      && (b == Done ==> w2.loaded == w1.files) && (b != Done ==> w2.loaded == w.loaded)
      && (a == Done ==> w1.files == defs)
  {
  }

  predicate WriteOk(o: Setup, f: Fleet, i: Input) {
    i.conns.Some? ==> WriteConfigs(o, RemoveStale(o, f, i.staleOrder), Enabled(i.conns.value), i).1.Some?
  }

  /** A Reconcile keeps the daemons in step exactly when its write succeeds or no
      stale tunnel was among the rendered ones. A failed write keeps the old
      fingerprints although the stale tunnels' definitions are already gone. */
  lemma ReconcileInStep(o: Setup, f: Fleet, i: Input)
    requires LacsWork(o.env) && Filed(f.tunnels) && ProperInput(f, i) && InStep(f)
    ensures InStep(Reconcile(o, f, i).0) <==>
      WriteOk(o, f, i) || forall n :: n in i.staleOrder ==> n !in f.rendered
  {
    hide LacsWork, WriteConfigs, RedefineEach, StepEach, Advertise, Enabled, NamesDistinct, Filed,
         Distinct, DisconnectEach, Fingerprints, Fingerprint, DesiredTunnels;
    if i.conns.Some? {
      var conns := Enabled(i.conns.value);
      var f1 := RemoveStale(o, f, i.staleOrder);
      DisconnectEachLacs(o, f.world, f.tunnels, i.staleOrder);
      var (f2, changed) := WriteConfigs(o, f1, conns, i);
      WriteLoads(o, f1, conns, i);
      if changed.None? {
        StaleDefinitions(f, f2, i.staleOrder);
      } else {
        LoopsInStep(o, f, f1, i);
      }
    } else {
      NoListing(f, i);
    }
  }

  lemma NoListing(f: Fleet, i: Input)
    requires i.conns.None?
    ensures forall o: Setup :: WriteOk(o, f, i)
  {
  }

  lemma StaleDefinitions(f: Fleet, f': Fleet, stale: seq<string>)
    requires InStep(f) && f'.rendered == f.rendered && f'.world.loaded == f.world.loaded
    requires f'.world.lacs == f.world.lacs - Set(stale)
    ensures InStep(f') <==> forall n :: n in stale ==> n !in f.rendered
  {
    hide Fingerprints, Fingerprint;
    if InStep(f') {
      forall n | n in stale ensures n !in f.rendered {
        assert n in Set(stale);
        assert n in f'.rendered ==> Defined(f'.world, n, f'.rendered[n]);
      }
    }
    if forall n :: n in stale ==> n !in f.rendered {
      forall n | n in f'.rendered ensures Defined(f'.world, n, f'.rendered[n]) {
        assert Defined(f.world, n, f.rendered[n]);
      }
    }
  }

  /** What the two loops leave in the daemons. */
  lemma LoopsLacs(o: Setup, f: Fleet, changed: seq<Definition>, conns: seq<Connection>, i: Input)
    requires LacsWork(o.env) && DefsDistinct(changed) && NamesDistinct(conns)
    ensures var f' := Advertise(o, StepEach(o, RedefineEach(o, f, changed), conns), i).0;
      && f'.rendered == f.rendered && f'.world.loaded == f.world.loaded
      && (forall d :: d in changed ==> d.name in f'.world.lacs && f'.world.lacs[d.name] == d)
      && (forall n :: n in f.world.lacs && n !in DefNames(changed) ==>
            n in f'.world.lacs && f'.world.lacs[n] == f.world.lacs[n])
  {
    hide LacsWork, RedefineEach, StepEach, Advertise, DefsDistinct, NamesDistinct, SameBut, Adopted, DefNames;
    var f3 := RedefineEach(o, f, changed);
    RedefineEachLacs(o, f, changed);
    StepEachLacs(o, f3, conns);
    StepEachRecords(o, f3, conns);
    AdvertiseLacs(o, StepEach(o, f3, conns), i);
    AdvertiseFrame(o, StepEach(o, f3, conns), i);
  }

  lemma LoopsInStep(o: Setup, f: Fleet, f1: Fleet, i: Input)
    requires LacsWork(o.env) && InStep(f) && ProperInput(f, i) && i.conns.Some?
    requires f1 == RemoveStale(o, f, i.staleOrder) && f1.world.lacs == f.world.lacs - Set(i.staleOrder)
    requires f1.world.loaded == f.world.loaded
    requires WriteConfigs(o, f1, Enabled(i.conns.value), i).1.Some?
    ensures InStep(Reconcile(o, f, i).0)
  {
    hide LacsWork, WriteConfigs, RedefineEach, StepEach, Advertise, Enabled, Distinct, RemoveStale, Fingerprints,
         DesiredTunnels, ChangedTunnels, InStep, Defined, DefsDistinct, Describes, NamesDistinct;
    var conns := Enabled(i.conns.value);
    var (f2, changed) := WriteConfigs(o, f1, conns, i);
    WriteLoads(o, f1, conns, i);
    var defs := DesiredTunnels(conns, i).value;
    DesiredSpec(conns, i);
    DescribesNames(conns, defs);
    ChangedDistinct(f1.rendered, f2.rendered, defs);
    LoopsLacs(o, f2, changed.value, conns, i);
    var f' := Reconcile(o, f, i).0;
    RemoveStaleRendered(o, f, i.staleOrder);
    DefinedAfter(f, f'.world, f2.rendered, defs, changed.value, i.staleOrder);
    InStepOf(f, f', defs);
  }

  lemma RemoveStaleRendered(o: Setup, f: Fleet, stale: seq<string>)
    ensures RemoveStale(o, f, stale).rendered == f.rendered
  {
    hide DisconnectEach;
  }

  lemma InStepOf(f: Fleet, f': Fleet, defs: seq<Definition>)
    requires InStep(f) && f'.rendered == Fingerprints(defs)
    requires f'.world.loaded == defs || (f'.rendered == f.rendered && f'.world.loaded == f.world.loaded)
    requires forall n :: n in f'.rendered ==> Defined(f'.world, n, f'.rendered[n])
    ensures InStep(f')
  {
    hide Fingerprints, Fingerprint;
  }

  lemma SameInStep(f: Fleet, f': Fleet)
    requires InStep(f) && f'.rendered == f.rendered && f'.world.loaded == f.world.loaded && f'.world.lacs == f.world.lacs
    ensures InStep(f')
  {
    hide Fingerprints, Fingerprint;
    forall n | n in f'.rendered ensures Defined(f'.world, n, f'.rendered[n]) {
      assert Defined(f.world, n, f.rendered[n]);
    }
  }

  /** After the changed ones are redefined, every wanted tunnel is defined. */
  lemma DefinedAfter(f: Fleet, w: World, wanted: map<string, string>, defs: seq<Definition>, changed: seq<Definition>, stale: seq<string>)
    requires InStep(f) && DefsDistinct(defs) && wanted == Fingerprints(defs)
    requires changed == ChangedTunnels(f.rendered, wanted, defs)
    requires forall n :: n in stale ==> n !in DefNames(defs)
    requires forall d :: d in changed ==> d.name in w.lacs && w.lacs[d.name] == d
    requires forall n :: n in f.world.lacs && n !in stale && n !in DefNames(changed) ==> n in w.lacs && w.lacs[n] == f.world.lacs[n]
    ensures forall n :: n in wanted ==> Defined(w, n, wanted[n])
  {
    hide Fingerprints, Fingerprint, ChangedTunnels;
    FingerprintsSpec(defs);
    ChangedSpec(f.rendered, wanted, defs);
    forall n | n in wanted ensures Defined(w, n, wanted[n]) {
      var d :| d in defs && d.name == n;
      if d in changed {
        assert w.lacs[n] == d;
      } else {
        FingerprintSplit(d);
        assert n in f.rendered && f.rendered[n] == wanted[n];
        assert Defined(f.world, n, f.rendered[n]);
        if e :| e in changed && e.name == n {
          SameNamed(defs, d, e);
        }
        assert n !in DefNames(changed);
      }
    }
  }

  lemma SameNamed(defs: seq<Definition>, d: Definition, e: Definition)
    requires DefsDistinct(defs) && d in defs && e in defs && d.name == e.name
    ensures d == e
  {
  }

  // ----- the lost definition

  /** Later events that neither restart a daemon nor ask for anything but what is
      already rendered. */
  ghost predicate AsksAgain(f: Fleet, e: Event) {
    match e
    case Reconciled(i) =>
      i.conns.Some? ==>
        var conns := Enabled(i.conns.value);
        && NamesDistinct(conns)
        && (DesiredTunnels(conns, i).Some? ==> f.rendered == Fingerprints(DesiredTunnels(conns, i).value))
    case CharonRestarted => false
    case XL2TPDRestarted => false
    case _ => true
  }

  ghost predicate AskAgain(o: Setup, f: Fleet, events: seq<Event>)
    decreases |events|
  {
    events == [] || (AsksAgain(f, events[0]) && AskAgain(o, Next(o, f, events[0]), events[1..]))
  }

  /** Remembered as rendered, unknown to xl2tpd. */
  predicate Lost(f: Fleet, n: string) {
    n in f.rendered && n !in f.world.lacs
  }

  lemma {:induction false} DisconnectEachLost(o: Setup, w: World, ts: map<string, Tunnel>, names: seq<string>, n: string)
    requires LacsWork(o.env) && n !in w.lacs
    ensures n !in DisconnectEach(o, w, ts, names).lacs
    decreases |names|
  {
    hide Disconnect, LacsWork;
    if names != [] {
      if names[0] in ts {
        DisconnectLacs(o, w, ts[names[0]]);
      }
      DisconnectEachLost(o, if names[0] in ts then Disconnect(o, w, ts[names[0]]) else w, ts, names[1..], n);
    }
  }

  lemma ReconcileStaysLost(o: Setup, f: Fleet, i: Input, n: string)
    requires LacsWork(o.env) && Lost(f, n) && AsksAgain(f, Reconciled(i))
    ensures Lost(Reconcile(o, f, i).0, n)
  {
    hide LacsWork, StepEach, Advertise, Enabled, Fingerprints, DesiredTunnels, WriteConfigs, DisconnectEach,
         NamesDistinct;
    if i.conns.Some? {
      var conns := Enabled(i.conns.value);
      var f1 := RemoveStale(o, f, i.staleOrder);
      DisconnectEachLost(o, f.world, f.tunnels, i.staleOrder, n);
      WriteLoads(o, f1, conns, i);
      if DesiredTunnels(conns, i).Some? {
        SettledWrites(o, f1, conns, i);
        assert RedefineEach(o, f1, []) == f1;
        StepEachLacs(o, f1, conns);
        StepEachRendered(o, f1, conns);
        AdvertiseLacs(o, StepEach(o, f1, conns), i);
        AdvertiseFrame(o, StepEach(o, f1, conns), i);
      } else {
        assert WriteConfigs(o, f1, conns, i).1.None? by { Unwanted(o, f1, conns, i); }
      }
    }
  }

  lemma Unwanted(o: Setup, f: Fleet, conns: seq<Connection>, i: Input)
    requires DesiredTunnels(conns, i).None?
    ensures WriteConfigs(o, f, conns, i) == (f, None)
  {
  }

  lemma {:induction false} StepEachRendered(o: Setup, f: Fleet, conns: seq<Connection>)
    ensures StepEach(o, f, conns).rendered == f.rendered
    decreases |conns|
  {
    hide Step;
    if conns != [] {
      StepRecord(o, f, conns[0]);
      StepEachRendered(o, Step(o, f, conns[0]), conns[1..]);
    }
  }

  lemma EventStaysLost(o: Setup, f: Fleet, e: Event, n: string)
    requires LacsWork(o.env) && Lost(f, n) && AsksAgain(f, e)
    ensures Lost(Next(o, f, e), n) && (!e.Reconciled? ==> Next(o, f, e).rendered == f.rendered)
  {
    hide LacsWork, Reconcile, PPPUp, Fail, TearDownIf, FromFiles, Fingerprints;
    match e
    case Reconciled(i) => ReconcileStaysLost(o, f, i, n);
    case WentUp(name, iface) => UpWorld(o, f, name, iface);
    case WentDown(name, iface) =>
      if name in f.tunnels {
        var t := f.tunnels[name];
        TearDownLacs(o, f.world, if iface == "" then t.iface else iface, t.subnets);
      }
    case FoundUnhealthy(name) =>
      if name in f.tunnels {
        FailWorld(o, f, name, f.tunnels[name].iface);
      }
    case _ =>
  }

  lemma {:induction false} StaysLost(o: Setup, f: Fleet, events: seq<Event>, n: string)
    requires LacsWork(o.env) && Lost(f, n) && AskAgain(o, f, events)
    ensures Lost(RunAll(o, f, events), n)
    decreases |events|
  {
    hide LacsWork, Lost, Next, AsksAgain;
    if events != [] {
      EventStaysLost(o, f, events[0], n);
      StaysLost(o, Next(o, f, events[0]), events[1..], n);
    }
  }

  /** The lost definition: a tunnel that was rendered, is disabled while a write
      fails and then enabled again unchanged stays undefined in xl2tpd through
      every later run without a restart, however well everything works in it. */
  lemma LostDefinition(o: Setup, f: Fleet, gone: Input, later: seq<Event>, n: string)
    requires LacsWork(o.env) && Filed(f.tunnels) && ProperInput(f, gone)
    requires gone.conns.Some? && !WriteOk(o, f, gone) && n in gone.staleOrder && n in f.rendered
    requires AskAgain(o, Reconcile(o, f, gone).0, later)
    ensures Lost(RunAll(o, Reconcile(o, f, gone).0, later), n)
  {
    hide LacsWork, StepEach, Advertise, Enabled, NamesDistinct, Distinct, WriteConfigs, DisconnectEach, Filed,
         AskAgain, RunAll;
    var conns := Enabled(gone.conns.value);
    DisconnectEachLacs(o, f.world, f.tunnels, gone.staleOrder);
    WriteLoads(o, RemoveStale(o, f, gone.staleOrder), conns, gone);
    assert n in Set(gone.staleOrder);
    StaysLost(o, Reconcile(o, f, gone).0, later, n);
  }

  /** Such a tunnel: one connection, enabled, disabled while the empty list
      cannot be written, and enabled again. */
  const LONE := Connection(1, "hq", "gw", "user", ["10.0.0.0/8"], "", true)

  function LoneInput(listed: bool, stale: seq<string>): Input {
    Input(Some(if listed then [LONE] else []), _ => Some(Secrets("psk", "pw")), _ => "192.0.2.1", stale, Some([]))
  }

  const LONE_SETUP := Setup(Env((t, c) => c != WriteFiles([]), (t, c) => 0), 60 * SECOND, false)

  const LONE_START := Fleet(map[], map[], "", World(map[], multiset{}, [], [], map[], 1, []))

  const LONE_DEF := FromConnection(LONE, Secrets("psk", "pw"), "192.0.2.1")

  lemma LoneWanted(stale: seq<string>)
    ensures Enabled([LONE]) == [LONE]
    ensures DesiredTunnels([LONE], LoneInput(true, stale)) == Some([LONE_DEF])
    ensures Fingerprints([LONE_DEF]).Keys == {"hq"}
  {
    assert [LONE][1..] == [];
    assert [LONE_DEF][..0] == [];
    var i := LoneInput(true, stale);
    assert DesiredTunnels([], i) == Some([]);
    assert i.secretsOf(LONE.id) == Some(Secrets("psk", "pw")) && i.resolve(LONE.host) == "192.0.2.1";
    assert [LONE_DEF] + [] == [LONE_DEF];
  }

  /** Every Reconcile in which the tunnel is listed succeeds, if it can write. */
  lemma LoneSucceeds(o: Setup, f: Fleet, stale: seq<string>)
    requires !o.tailnet && forall t: seq<Entry>, c: Command :: c in {WriteFiles([LONE_DEF]), LoadAll} ==> o.env.works(t, c)
    requires f.rendered == map[] || f.rendered == Fingerprints([LONE_DEF])
    ensures Reconcile(o, f, LoneInput(true, stale)).1
  {
    hide StepEach, RedefineEach, Fingerprints, ChangedTunnels, DisconnectEach, Enabled, DesiredTunnels, Fingerprint;
    LoneWanted(stale);
  }

  /** A fleet that has the tunnel, and was told of it and of nothing else. */
  predicate Lone(f: Fleet) {
    f.rendered == Fingerprints([LONE_DEF]) && f.tunnels.Keys <= {"hq"}
  }

  lemma LoneListed(f: Fleet)
    requires f == LONE_START || Lone(f)
    ensures ProperInput(f, LoneInput(true, []))
    ensures var (f', ok) := Reconcile(LONE_SETUP, f, LoneInput(true, [])); ok && Lone(f') && "hq" in f'.tunnels
  {
    hide Reconcile, Fingerprints, Enabled, DesiredTunnels, Adopted;
    var on := LoneInput(true, []);
    LoneWanted([]);
    assert ConnNames([LONE]) == {"hq"};
    LoneSucceeds(LONE_SETUP, f, []);
    Converges(LONE_SETUP, f, on);
  }

  lemma LoneGone(f: Fleet)
    requires Lone(f) && "hq" in f.tunnels
    ensures var gone := LoneInput(false, ["hq"]);
      ProperInput(f, gone) && !WriteOk(LONE_SETUP, f, gone) && Lone(Reconcile(LONE_SETUP, f, gone).0)
  {
    hide DisconnectEach, StepEach, RedefineEach;
    LoneWanted([]);
    var f1 := RemoveStale(LONE_SETUP, f, ["hq"]);
    assert f1.rendered.Keys == {"hq"};
    assert |f1.rendered| == |f1.rendered.Keys|;
  }

  lemma LoneLost()
    ensures Initial(LONE_START)
    ensures var f1 := Reconcile(LONE_SETUP, LONE_START, LoneInput(true, [])).0;
      var f2 := Reconcile(LONE_SETUP, f1, LoneInput(false, ["hq"])).0;
      var (f3, ok) := Reconcile(LONE_SETUP, f2, LoneInput(true, []));
      ok && "hq" in f3.tunnels && Lost(f3, "hq")
  {
    hide Reconcile, WriteOk, Fingerprints, ProperInput;
    var o, on, gone := LONE_SETUP, LoneInput(true, []), LoneInput(false, ["hq"]);
    LoneWanted([]);
    var f1 := Reconcile(o, LONE_START, on).0;
    var f2 := Reconcile(o, f1, gone).0;
    LoneListed(LONE_START);
    ReconcileFiled(o, LONE_START, on);
    LoneGone(f1);
    LoneListed(f2);
    assert f2.rendered == Fingerprints([LONE_DEF]);
    assert Lost(f2, "hq") by {
      LostDefinition(o, f1, gone, [], "hq");
      assert RunAll(o, f2, []) == f2;
    }
    ReconcileStaysLost(o, f2, on, "hq");
  }

  // ----- Invalidate

  /** A restarted daemon comes back with nothing, or with what was in its files:
      whatever it has, the Reconcile after `Invalidate` gives both daemons every
      wanted definition again. */
  lemma InvalidateReloads(o: Setup, f: Fleet, i: Input)
    requires LacsWork(o.env) && ProperInput(f, i) && i.conns.Some? && Reconcile(o, Invalidate(f), i).1
    ensures var f', desired := Reconcile(o, Invalidate(f), i).0, DesiredTunnels(Enabled(i.conns.value), i);
      && desired.Some?
      && (desired.value != [] ==> f'.world.loaded == desired.value)
      && forall d :: d in desired.value ==> d.name in f'.world.lacs && f'.world.lacs[d.name] == d
  {
    hide LacsWork, WriteConfigs, RedefineEach, StepEach, Advertise, Enabled, Distinct, RemoveStale,
         Fingerprints, Fingerprint, DesiredTunnels, ChangedTunnels, DefsDistinct, Describes, NamesDistinct;
    var conns := Enabled(i.conns.value);
    var f1 := RemoveStale(o, Invalidate(f), i.staleOrder);
    RemoveStaleRendered(o, Invalidate(f), i.staleOrder);
    var (f2, changed) := WriteConfigs(o, f1, conns, i);
    WriteLoads(o, f1, conns, i);
    var defs := DesiredTunnels(conns, i).value;
    DesiredSpec(conns, i);
    DescribesNames(conns, defs);
    AllChanged(f2.rendered, defs);
    ChangedDistinct(f1.rendered, f2.rendered, defs);
    var f3 := RedefineEach(o, f2, changed.value);
    RedefineEachLacs(o, f2, changed.value);
    StepEachLacs(o, f3, conns);
    AdvertiseLacs(o, StepEach(o, f3, conns), i);
  }

  lemma AllChanged(wanted: map<string, string>, defs: seq<Definition>)
    requires DefsDistinct(defs) && wanted == Fingerprints(defs)
    ensures forall d :: d in defs ==> d in ChangedTunnels(map[], wanted, defs)
    ensures wanted == map[] ==> defs == []
  {
    hide Fingerprints, Fingerprint, ChangedTunnels;
    FingerprintsSpec(defs);
    ChangedSpec(map[], wanted, defs);
    forall d | d in defs ensures d in ChangedTunnels(map[], wanted, defs) && d.name in wanted {
      FingerprintSplit(d);
    }
    if defs != [] {
      assert defs[0] in defs;
    }
  }

  // ----- over runs

  /** Hooks leave the daemons and the fingerprints alone. */
  lemma FailWorld(o: Setup, f: Fleet, n: string, iface: string)
    ensures SameDaemons(f.world, Fail(o, f, n, iface).world) && Fail(o, f, n, iface).rendered == f.rendered
  {
    hide TearDownIf;
    if n in f.tunnels {
      TearDownLacs(o, f.world, iface, f.tunnels[n].subnets);
    }
  }

  lemma UpWorld(o: Setup, f: Fleet, n: string, iface: string)
    ensures SameDaemons(f.world, PPPUp(o, f, n, iface).0.world) && PPPUp(o, f, n, iface).0.rendered == f.rendered
  {
    hide PPPUp;
    if n in f.tunnels {
      UpConfined(o, f, n, iface);
      UpSubnets(o, f, n, iface);
    } else {
      UnknownName(o, f, n, iface);
    }
  }

  /** Every Reconcile's write succeeds, or leaves no rendered tunnel stale. */
  ghost predicate Recorded(o: Setup, f: Fleet, e: Event) {
    e.Reconciled? ==>
      && ProperInput(f, e.input)
      && (WriteOk(o, f, e.input) || forall n :: n in e.input.staleOrder ==> n !in f.rendered)
  }

  lemma EventInStep(o: Setup, f: Fleet, e: Event)
    requires LacsWork(o.env) && Filed(f.tunnels) && InStep(f) && Recorded(o, f, e)
    ensures InStep(Next(o, f, e))
  {
    hide LacsWork, Filed, ProperInput, WriteOk, Reconcile, PPPUp, Fail, TearDownIf,
         FromFiles, Fingerprints, Defined;
    match e
    case Reconciled(i) => ReconcileInStep(o, f, i);
    case WentUp(name, iface) =>
      UpWorld(o, f, name, iface);
      SameInStep(f, Next(o, f, e));
    case WentDown(name, iface) =>
      if name in f.tunnels {
        var t := f.tunnels[name];
        TearDownLacs(o, f.world, if iface == "" then t.iface else iface, t.subnets);
        SameInStep(f, Next(o, f, e));
      }
    case FoundUnhealthy(name) =>
      if name in f.tunnels {
        FailWorld(o, f, name, f.tunnels[name].iface);
        SameInStep(f, Next(o, f, e));
      }
    case CharonRestarted =>
    case XL2TPDRestarted =>
    case Ticked(_) => SameInStep(f, Next(o, f, e));
    case Vanished(_) => SameInStep(f, Next(o, f, e));
  }

  ghost predicate RecordedRun(o: Setup, f: Fleet, events: seq<Event>)
    decreases |events|
  {
    events == [] || (Recorded(o, f, events[0]) && RecordedRun(o, Next(o, f, events[0]), events[1..]))
  }

  lemma {:induction false} RunInStep(o: Setup, f: Fleet, events: seq<Event>)
    requires LacsWork(o.env) && Filed(f.tunnels) && InStep(f) && RecordedRun(o, f, events)
    ensures InStep(RunAll(o, f, events)) && Filed(RunAll(o, f, events).tunnels)
    decreases |events|
  {
    hide LacsWork, Filed, InStep, Next, Recorded;
    if events != [] {
      EventFiled(o, f, events[0]);
      EventInStep(o, f, events[0]);
      RunInStep(o, Next(o, f, events[0]), events[1..]);
    }
  }

  lemma InitialInStep(f: Fleet)
    requires Initial(f)
    ensures InStep(f) && Filed(f.tunnels)
  {
  }

  /** After a run in which no write failed over a stale tunnel, a Reconcile that
      succeeds leaves xl2tpd with a definition of every enabled connection whose
      fingerprint is the wanted one. */
  lemma EveryTunnelDefined(o: Setup, f: Fleet, events: seq<Event>, i: Input)
    requires LacsWork(o.env) && Initial(f) && RecordedRun(o, f, events)
    requires var g := RunAll(o, f, events);
      ProperInput(g, i) && i.conns.Some? && Reconcile(o, g, i).1
    ensures var f', conns := Reconcile(o, RunAll(o, f, events), i).0, Enabled(i.conns.value);
      && DesiredTunnels(conns, i).Some?
      && var wanted := Fingerprints(DesiredTunnels(conns, i).value);
      && wanted.Keys == ConnNames(conns)
      && forall n :: n in wanted ==> Defined(f'.world, n, wanted[n])
  {
    hide LacsWork, Next, Recorded, Filed, NamesDistinct, Enabled, StaleOrdered, RemoveStale, WriteConfigs, RedefineEach,
         StepEach, DesiredTunnels, Fingerprints, Fingerprint, Advertise, RecordedRun, RunAll;
    var g, conns := RunAll(o, f, events), Enabled(i.conns.value);
    assert InStep(f) && Filed(f.tunnels) by { InitialInStep(f); }
    RunInStep(o, f, events);
    ReconcileInStep(o, g, i);
    Converges(o, g, i);
    DesiredSpec(conns, i);
    DescribesNames(conns, DesiredTunnels(conns, i).value);
    FingerprintsSpec(DesiredTunnels(conns, i).value);
  }
}
