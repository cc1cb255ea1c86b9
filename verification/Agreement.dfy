/** The kernel agrees with the fleet: routes and rules are exactly those of the
    tunnels that are up, whatever the run. */
module Agreement {
  import opened Common
  import opened Text
  import opened Tables
  import opened Host
  import opened Reconciler

  // ----- kernel level: what the live tunnels need

  /** A live tunnel's interface and the destinations routed over it. */
  datatype Link = Link(iface: string, subnets: seq<string>)

  function Live(ts: map<string, Tunnel>): map<string, Link> {
    map n | n in ts && ts[n].iface != "" :: Link(ts[n].iface, ts[n].subnets)
  }

  ghost predicate Held(live: map<string, Link>, iface: string) {
    exists n :: n in live && live[n].iface == iface
  }

  ghost predicate Carries(link: Link, s: string, dev: string) {
    link.iface == dev && s in link.subnets
  }

  ghost predicate Carried(live: map<string, Link>, s: string, dev: string) {
    exists n :: n in live && Carries(live[n], s, dev)
  }

  /** No two live tunnels hold one interface. */
  ghost predicate Separate(live: map<string, Link>) {
    forall n, m :: n in live && m in live && n != m ==> live[n].iface != live[m].iface
  }

  /** Every route belongs to a live tunnel. */
  ghost predicate NoStrayRoute(live: map<string, Link>, w: World) {
    forall s :: s in w.routes ==> Carried(live, s, w.routes[s])
  }

  /** Every rule belongs to a live tunnel, and is there once. */
  ghost predicate NoStrayRule(live: map<string, Link>, w: World) {
    forall r :: r in w.rules ==> w.rules[r] == 1 && Held(live, r.iface)
  }

  ghost predicate NoLeak(live: map<string, Link>, w: World) {
    NoStrayRoute(live, w) && NoStrayRule(live, w)
  }

  ghost predicate HasRoutes(link: Link, w: World) {
    forall s :: s in link.subnets ==> s in w.routes && w.routes[s] == link.iface
  }

  ghost predicate HasRules(link: Link, w: World) {
    Masquerade(link.iface) in w.rules && ClampMSS(link.iface) in w.rules
  }

  /** Every live tunnel has all its routes and rules. */
  ghost predicate Complete(live: map<string, Link>, w: World) {
    forall n :: n in live ==> HasRoutes(live[n], w) && HasRules(live[n], w)
  }

  lemma TearDownKeepsNoLeak(env: Env, live: map<string, Link>, w: World, n: string)
    requires Tame(env) && n in live && NoLeak(live, w) && Separate(live)
    ensures NoLeak(live - {n}, TearDown(env, w, live[n].iface, live[n].subnets))
  {
    hide TearDown;
    var link := live[n];
    var w' := TearDown(env, w, link.iface, link.subnets);
    TearDownEffect(env, w, link.iface, link.subnets);
    forall s | s in w'.routes ensures Carried(live - {n}, s, w'.routes[s]) {
      var m :| m in live && Carries(live[m], s, w.routes[s]);
      assert m in live - {n};
    }
    forall r | r in w'.rules ensures w'.rules[r] == 1 && Held(live - {n}, r.iface) {
      assert r in w.rules;
      var m :| m in live && live[m].iface == r.iface;
      assert m in live - {n};
    }
  }

  lemma TearDownKeepsComplete(env: Env, live: map<string, Link>, w: World, iface: string, subnets: seq<string>)
    requires Tame(env) && !Held(live, iface) && Complete(live, w)
    ensures Complete(live, TearDown(env, w, iface, subnets))
  {
    hide TearDown;
    TearDownEffect(env, w, iface, subnets);
  }

  /** Tearing down an interface nobody holds touches nothing. */
  lemma TearDownUnheld(env: Env, live: map<string, Link>, w: World, iface: string, subnets: seq<string>)
    requires Tame(env) && !Held(live, iface) && NoLeak(live, w)
    ensures SameKernel(w, TearDown(env, w, iface, subnets))
  {
    hide TearDown;
    var w' := TearDown(env, w, iface, subnets);
    TearDownEffect(env, w, iface, subnets);
    forall s | s in w.routes ensures w.routes[s] != iface {
      assert Carried(live, s, w.routes[s]);
    }
    assert w'.routes == w.routes;
    forall r ensures w'.rules[r] == w.rules[r] {
      assert r in w.rules ==> Held(live, r.iface);
    }
    assert w'.rules == w.rules;
  }

  lemma LinkDown(env: Env, live: map<string, Link>, w: World, n: string)
    requires Tame(env) && n in live && NoLeak(live, w) && Separate(live)
    ensures var w' := TearDown(env, w, live[n].iface, live[n].subnets);
      && NoLeak(live - {n}, w') && (Complete(live, w) ==> Complete(live - {n}, w'))
  {
    hide TearDown;
    TearDownKeepsNoLeak(env, live, w, n);
    if Complete(live, w) {
      TearDownKeepsComplete(env, live - {n}, w, live[n].iface, live[n].subnets);
    }
  }

  lemma SameKernelKeeps(live: map<string, Link>, w: World, w': World)
    requires SameKernel(w, w')
    ensures NoLeak(live, w) ==> NoLeak(live, w')
    ensures Complete(live, w) ==> Complete(live, w')
  {
  }

  /** Whether and how far an install got. */
  function Install(env: Env, w: World, iface: string, subnets: seq<string>): (World, bool) {
    var (w1, routed) := AddRoutes(env, w, iface, subnets);
    if !routed then (w1, false) else EnableNAT(env, w1, iface)
  }

  /** Whatever breaks, an install stays within its interface and destinations. */
  lemma InstallConfined(env: Env, w: World, iface: string, subnets: seq<string>)
    ensures Confined(w, Install(env, w, iface, subnets).0, iface, subnets)
  {
    hide AddRoutes, EnsureRules, Confined;
    var w1 := AddRoutes(env, w, iface, subnets).0;
    AddRoutesConfined(env, w, iface, subnets, subnets);
    EnsureRulesConfined(env, w1, NatRules(iface), iface, subnets);
    ConfinedThen(w, w1, EnableNAT(env, w1, iface).0, iface, subnets);
  }

  ghost predicate OthersClear(live: map<string, Link>, n: string, link: Link) {
    forall m :: m in live && m != n ==>
      live[m].iface != link.iface && forall s :: s in link.subnets ==> s !in live[m].subnets
  }

  lemma RoutesInstalled(env: Env, live: map<string, Link>, w: World, n: string, link: Link)
    requires NoLeak(live, w) && OthersClear(live, n, link)
    requires n in live ==> live[n] == link
    ensures var (w', ok) := AddRoutes(env, w, link.iface, link.subnets);
      && NoLeak(live[n := link], w')
      && (Complete(live, w) ==> Complete(live - {n}, w'))
      && (ok ==> HasRoutes(link, w'))
  {
    hide AddRoutes;
    var w' := AddRoutes(env, w, link.iface, link.subnets).0;
    AddRoutesEffect(env, w, link.iface, link.subnets);
    StrayAfterAdding(live, w, w', n, link);
    if Complete(live, w) {
      CompleteAfterAdding(live, w, w', n, link);
    }
  }

  ghost predicate RoutesAdded(w: World, w': World, link: Link) {
    && w'.rules == w.rules
    && (forall s :: s in w'.routes ==>
          || (s in link.subnets && w'.routes[s] == link.iface)
          || (s in w.routes && w'.routes[s] == w.routes[s]))
    && (forall s :: s in w.routes ==> s in w'.routes && (s in link.subnets || w'.routes[s] == w.routes[s]))
  }

  lemma StrayAfterAdding(live: map<string, Link>, w: World, w': World, n: string, link: Link)
    requires RoutesAdded(w, w', link) && NoLeak(live, w) && (n in live ==> live[n] == link)
    ensures NoLeak(live[n := link], w')
  {
    var live' := live[n := link];
    assert forall m :: m in live ==> m in live' && live'[m] == live[m];
    forall s | s in w'.routes ensures Carried(live', s, w'.routes[s]) {
      if s in link.subnets && w'.routes[s] == link.iface {
        assert Carries(live'[n], s, w'.routes[s]);
      } else {
        var m :| m in live && Carries(live[m], s, w.routes[s]);
        assert Carries(live'[m], s, w'.routes[s]);
      }
    }
    forall r | r in w'.rules ensures w'.rules[r] == 1 && Held(live', r.iface) {
      var m :| m in live && live[m].iface == r.iface;
      assert live'[m].iface == r.iface;
    }
  }

  lemma CompleteAfterAdding(live: map<string, Link>, w: World, w': World, n: string, link: Link)
    requires RoutesAdded(w, w', link) && OthersClear(live, n, link) && Complete(live, w)
    ensures Complete(live - {n}, w')
  {
    forall m | m in live - {n} ensures HasRoutes(live[m], w') && HasRules(live[m], w') {
      assert HasRoutes(live[m], w) && HasRules(live[m], w);
    }
  }

  lemma RulesInstalled(env: Env, live: map<string, Link>, w: World, n: string)
    requires Tame(env) && n in live && NoLeak(live, w)
    ensures var (w', ok) := EnableNAT(env, w, live[n].iface);
      && NoLeak(live, w')
      && (Complete(live - {n}, w) ==> Complete(live - {n}, w'))
      && (HasRoutes(live[n], w) ==> HasRoutes(live[n], w'))
      && (ok ==> HasRules(live[n], w'))
  {
    hide EnsureRules;
    var iface := live[n].iface;
    var (w', ok) := EnableNAT(env, w, iface);
    EnsureRulesEffect(env, w, iface, NatRules(iface));
    assert NatRules(iface)[0] in NatRules(iface) && NatRules(iface)[1] in NatRules(iface);
    forall r | r in w'.rules ensures w'.rules[r] == 1 && Held(live, r.iface) {
      if r in w.rules {
        assert w.rules[r] == 1;
      } else {
        assert live[n].iface == r.iface;
      }
    }
    if Complete(live - {n}, w) {
      forall m | m in live - {n} ensures HasRoutes(live[m], w') && HasRules(live[m], w') {
        assert HasRoutes(live[m], w) && HasRules(live[m], w);
      }
    }
  }

  lemma InstallEffect(env: Env, live: map<string, Link>, w: World, n: string, link: Link)
    requires Tame(env) && NoLeak(live, w) && OthersClear(live, n, link)
    requires n in live ==> live[n] == link
    ensures var (w', ok) := Install(env, w, link.iface, link.subnets);
      && NoLeak(live[n := link], w')
      && (Complete(live, w) ==> Complete(live - {n}, w'))
      && (Complete(live, w) && ok ==> Complete(live[n := link], w'))
  {
    hide AddRoutes, EnableNAT, NoLeak;
    var live' := live[n := link];
    var (w1, routed) := AddRoutes(env, w, link.iface, link.subnets);
    RoutesInstalled(env, live, w, n, link);
    if routed {
      RulesInstalled(env, live', w1, n);
      assert live' - {n} == live - {n};
      var (w', ok) := Install(env, w, link.iface, link.subnets);
      if Complete(live, w) && ok {
        forall m | m in live' ensures HasRoutes(live'[m], w') && HasRules(live'[m], w') {
          if m != n {
            assert m in live - {n};
          }
        }
      }
    }
  }

  // ----- fleet level

  /** A tunnel is filed under its name and has an interface exactly when up. */
  ghost predicate Shape(ts: map<string, Tunnel>) {
    forall n :: n in ts ==> ShapeOf(n, ts[n])
  }

  predicate ShapeOf(n: string, t: Tunnel) {
    t.name == n && (t.phase == Up <==> t.iface != "")
  }

  /** Every tunnel is filed under its own name. */
  predicate Filed(ts: map<string, Tunnel>) {
    forall n :: n in ts ==> ts[n].name == n
  }

  /** No two tunnels hold one interface. */
  ghost predicate OwnIfaces(ts: map<string, Tunnel>) {
    forall n, m :: n in ts && m in ts && n != m && ts[n].iface != "" ==> ts[n].iface != ts[m].iface
  }

  /** The part of the invariant every single operation keeps. */
  ghost predicate Calm(f: Fleet) {
    Shape(f.tunnels) && Separate(Live(f.tunnels)) && NoLeak(Live(f.tunnels), f.world)
  }

  ghost predicate Full(f: Fleet) {
    Complete(Live(f.tunnels), f.world)
  }

  /** `Calm` and `Full` pass from one fleet to the other. */
  ghost predicate Keeps(f: Fleet, f': Fleet) {
    (Calm(f) ==> Calm(f')) && (Calm(f) && Full(f) ==> Full(f'))
  }

  lemma LiveWithout(ts: map<string, Tunnel>, n: string, t: Tunnel)
    requires t.iface == ""
    ensures Live(ts[n := t]) == Live(ts) - {n}
    ensures Live(ts - {n}) == Live(ts) - {n}
  {
  }

  lemma LiveWith(ts: map<string, Tunnel>, n: string, t: Tunnel)
    requires t.iface != ""
    ensures Live(ts[n := t]) == Live(ts)[n := Link(t.iface, t.subnets)]
  {
  }

  lemma NotLive(ts: map<string, Tunnel>, n: string)
    requires n !in ts || ts[n].iface == ""
    ensures n !in Live(ts) && Live(ts) - {n} == Live(ts)
  {
  }

  lemma KeepsThen(f: Fleet, f': Fleet, f'': Fleet)
    requires Keeps(f, f') && Keeps(f', f'')
    ensures Keeps(f, f'')
  {
  }

  lemma SameFleetKeeps(f: Fleet, f': Fleet)
    requires f'.tunnels == f.tunnels && SameKernel(f.world, f'.world)
    ensures Keeps(f, f')
  {
    SameKernelKeeps(Live(f.tunnels), f.world, f'.world);
  }

  /** A tunnel taken off its own interface, whatever else its record becomes. */
  lemma TakeDown(o: Setup, f: Fleet, n: string, t: Tunnel, w: World)
    requires Tame(o.env) && Calm(f) && n in f.tunnels
    requires ShapeOf(n, t) && t.iface == ""
    requires SameKernel(TearDownIf(o, f.world, f.tunnels[n].iface, f.tunnels[n].subnets), w)
    ensures var live := Live(f.tunnels) - {n}; NoLeak(live, w) && (Full(f) ==> Complete(live, w))
    ensures Keeps(f, f.(tunnels := f.tunnels[n := t], world := w))
    ensures Keeps(f, f.(tunnels := f.tunnels - {n}, world := w))
  {
    hide TearDown, NoLeak, Complete;
    var live := Live(f.tunnels);
    var mine := f.tunnels[n];
    LiveWithout(f.tunnels, n, t);
    if mine.iface != "" {
      var w1 := TearDown(o.env, f.world, mine.iface, mine.subnets);
      LinkDown(o.env, live, f.world, n);
      SameKernelKeeps(live - {n}, w1, w);
    } else {
      NotLive(f.tunnels, n);
      SameKernelKeeps(live, f.world, w);
    }
  }

  /** The trailing daemon commands of a drop or a disconnect. */
  lemma QuietTail(env: Env, w: World, a: Command, b: Command)
    requires !OnKernel(a) && !OnKernel(b)
    ensures SameKernel(w, Run(env, Run(env, w, a).0, b).0)
  {
    hide Run;
    RunQuiet(env, w, a);
    RunQuiet(env, Run(env, w, a).0, b);
  }

  lemma DropKeeps(o: Setup, f: Fleet, n: string)
    requires Tame(o.env) && Calm(f)
    ensures Keeps(f, Drop(o, f, n))
    ensures Live(Drop(o, f, n).tunnels) == Live(f.tunnels) - {n}
  {
    hide TearDownIf, Run, Keeps, Live, Calm;
    if n in f.tunnels {
      var t := f.tunnels[n];
      assert ShapeOf(n, Dropped(t)) by { CalmShape(f, n); }
      QuietTail(o.env, TearDownIf(o, f.world, t.iface, t.subnets), LacDisconnect(n), Terminate(n));
      TakeDown(o, f, n, Dropped(t), Drop(o, f, n).world);
      LiveWithout(f.tunnels, n, Dropped(t));
    } else {
      NotLive(f.tunnels, n);
      SameFleetKeeps(f, f);
    }
  }

  lemma CalmShape(f: Fleet, n: string)
    requires Calm(f) && n in f.tunnels
    ensures ShapeOf(n, f.tunnels[n])
  {
  }

  /** `fail` on the tunnel's own interface. */
  lemma FailKeeps(o: Setup, f: Fleet, n: string)
    requires Tame(o.env) && Calm(f) && n in f.tunnels
    ensures var f' := Fail(o, f, n, f.tunnels[n].iface);
      Keeps(f, f') && Live(f'.tunnels) == Live(f.tunnels) - {n}
  {
    hide TearDownIf, Keeps, Live, Calm;
    var f' := Fail(o, f, n, f.tunnels[n].iface);
    CalmShape(f, n);
    TakeDown(o, f, n, f'.tunnels[n], f'.world);
    LiveWithout(f.tunnels, n, f'.tunnels[n]);
  }

  // ----- the parts of Reconcile

  lemma DisconnectKeeps(o: Setup, f: Fleet, n: string)
    requires Tame(o.env) && Calm(f) && n in f.tunnels
    ensures Keeps(f, f.(tunnels := f.tunnels - {n}, world := Disconnect(o, f.world, f.tunnels[n])))
  {
    hide TearDownIf, Run, Keeps, Live, Calm;
    var t := f.tunnels[n];
    CalmShape(f, n);
    var w1 := TearDownIf(o, f.world, t.iface, t.subnets);
    var w2 := Run(o.env, w1, LacDisconnect(n)).0;
    RunQuiet(o.env, w1, LacDisconnect(n));
    QuietTail(o.env, w2, LacRemove(n), Terminate(n));
    TakeDown(o, f, n, Dropped(t), Disconnect(o, f.world, t));
  }

  function Set(names: seq<string>): set<string> { set n | n in names }

  lemma {:induction false} DisconnectEachKeeps(o: Setup, f: Fleet, names: seq<string>, all: map<string, Tunnel>)
    requires Tame(o.env) && Calm(f) && Distinct(names)
    requires forall n :: n in names ==> n in f.tunnels && n in all && all[n] == f.tunnels[n]
    ensures Keeps(f, f.(tunnels := f.tunnels - Set(names), world := DisconnectEach(o, f.world, all, names)))
    decreases |names|
  {
    hide Keeps, Calm, Disconnect;
    if names == [] {
      assert f.tunnels - Set(names) == f.tunnels;
      SameFleetKeeps(f, f);
    } else {
      var n := names[0];
      assert n in names;
      var g := f.(tunnels := f.tunnels - {n}, world := Disconnect(o, f.world, f.tunnels[n]));
      DisconnectKeeps(o, f, n);
      KeepsCalm(f, g);
      DisconnectEachKeeps(o, g, names[1..], all);
      var h := g.(tunnels := g.tunnels - Set(names[1..]), world := DisconnectEach(o, g.world, all, names[1..]));
      KeepsThen(f, g, h);
      assert Set(names) == {n} + Set(names[1..]);
      assert f.tunnels - Set(names) == g.tunnels - Set(names[1..]);
    }
  }

  lemma KeepsCalm(f: Fleet, f': Fleet)
    requires Keeps(f, f') && Calm(f)
    ensures Calm(f')
  {
  }

  lemma RemoveStaleKeeps(o: Setup, f: Fleet, stale: seq<string>)
    requires Tame(o.env) && Calm(f) && Distinct(stale) && forall n :: n in stale ==> n in f.tunnels
    ensures Keeps(f, RemoveStale(o, f, stale))
  {
    hide Keeps, Calm, DisconnectEach;
    DisconnectEachKeeps(o, f, stale, f.tunnels);
  }

  /** The two commands of a load. */
  lemma WriteConfigsFrame(o: Setup, f: Fleet, conns: seq<Connection>, i: Input)
    ensures var f' := WriteConfigs(o, f, conns, i).0;
      && f'.tunnels == f.tunnels && f'.advertised == f.advertised && SameKernel(f.world, f'.world)
  {
    hide Run, DesiredTunnels, Fingerprints, ChangedTunnels;
    var desired := DesiredTunnels(conns, i);
    if desired.Some? {
      RunQuiet(o.env, f.world, WriteFiles(desired.value));
      QuietTail(o.env, f.world, WriteFiles(desired.value), LoadAll);
    }
  }

  function DefNames(defs: seq<Definition>): set<string> {
    set d | d in defs :: d.name
  }

  ghost predicate SameBut(ts: map<string, Tunnel>, ts': map<string, Tunnel>, names: set<string>) {
    forall n :: n in ts && n !in names ==> n in ts' && ts'[n] == ts[n]
  }

  lemma RedefineKeeps(o: Setup, f: Fleet, d: Definition)
    requires Tame(o.env) && Calm(f)
    ensures var f' := Redefine(o, f, d);
      && Keeps(f, f') && Live(f'.tunnels) == Live(f.tunnels) - {d.name}
      && f'.rendered == f.rendered && f'.advertised == f.advertised
      && f'.tunnels.Keys == f.tunnels.Keys && SameBut(f.tunnels, f'.tunnels, {d.name})
  {
    hide Keeps, Calm, Run, TearDownIf, Live;
    var f1, f' := Drop(o, f, d.name), Redefine(o, f, d);
    DropKeeps(o, f, d.name);
    QuietTail(o.env, f1.world, LacRemove(d.name), LacAdd(d));
    SameFleetKeeps(f1, f');
    KeepsThen(f, f1, f');
  }

  lemma {:induction false} RedefineEachKeeps(o: Setup, f: Fleet, defs: seq<Definition>)
    requires Tame(o.env) && Calm(f)
    ensures var f' := RedefineEach(o, f, defs);
      && Keeps(f, f') && Live(f'.tunnels) == Live(f.tunnels) - DefNames(defs)
      && f'.rendered == f.rendered && f'.advertised == f.advertised
      && f'.tunnels.Keys == f.tunnels.Keys && SameBut(f.tunnels, f'.tunnels, DefNames(defs))
    decreases |defs|
  {
    hide Keeps, Calm, Redefine, Live;
    if defs == [] {
      assert Live(f.tunnels) - DefNames(defs) == Live(f.tunnels);
      SameFleetKeeps(f, f);
    } else {
      var d, f1 := defs[0], Redefine(o, f, defs[0]);
      RedefineKeeps(o, f, d);
      KeepsCalm(f, f1);
      RedefineEachKeeps(o, f1, defs[1..]);
      KeepsThen(f, f1, RedefineEach(o, f1, defs[1..]));
      assert DefNames(defs) == {d.name} + DefNames(defs[1..]);
      assert Live(f.tunnels) - {d.name} - DefNames(defs[1..]) == Live(f.tunnels) - DefNames(defs);
    }
  }

  /** What a dial does to the tunnel, and that it leaves the kernel alone. */
  lemma DialFrame(o: Setup, f: Fleet, n: string)
    requires n in f.tunnels
    ensures var f', t := Dial(o, f, n), f.tunnels[n];
      && SameKernel(f.world, f'.world)
      && f'.rendered == f.rendered && f'.advertised == f.advertised
      && f'.tunnels == f.tunnels[n := f'.tunnels[n]]
      && f'.tunnels[n].(phase := t.phase, failures := t.failures, dialedAt := t.dialedAt, retryAt := t.retryAt) == t
      && f'.tunnels[n].phase in {Connecting, Failed}
  {
    hide Run;
    var w1 := Run(o.env, f.world, LacDisconnect(n)).0;
    var w2 := Run(o.env, w1, Initiate(n)).0;
    RunQuiet(o.env, f.world, LacDisconnect(n));
    RunQuiet(o.env, w1, Initiate(n));
    RunQuiet(o.env, w2, LacConnect(n));
  }

  /** A step never changes which tunnels are live nor anything in the kernel. */
  lemma StepFrame(o: Setup, f: Fleet, conn: Connection)
    requires Shape(f.tunnels)
    ensures var n, t, f' := conn.name, Refreshed(f, conn), Step(o, f, conn);
      && SameKernel(f.world, f'.world)
      && f'.rendered == f.rendered && f'.advertised == f.advertised
      && f'.tunnels == f.tunnels[n := f'.tunnels[n]]
      && ShapeOf(n, f'.tunnels[n]) && f'.tunnels[n].id == conn.id
      && f'.tunnels[n].iface == t.iface && f'.tunnels[n].subnets == conn.subnets
      && (t.iface != "" ==> f'.tunnels[n] == t && f'.world == f.world)
  {
    hide Dial;
    var n, t := conn.name, Refreshed(f, conn);
    assert n in f.tunnels ==> ShapeOf(n, f.tunnels[n]);
    assert ShapeOf(n, t);
    DialFrame(o, f.(tunnels := f.tunnels[n := t]), n);
  }

  lemma StepKeeps(o: Setup, f: Fleet, conn: Connection)
    requires Calm(f)
    requires conn.name in Live(f.tunnels) ==> f.tunnels[conn.name].subnets == conn.subnets
    ensures var f' := Step(o, f, conn); Keeps(f, f') && Live(f'.tunnels) == Live(f.tunnels)
  {
    hide Step, NoLeak, Complete;
    var n, f' := conn.name, Step(o, f, conn);
    StepFrame(o, f, conn);
    assert Shape(f'.tunnels);
    if f'.tunnels[n].iface != "" {
      LiveWith(f.tunnels, n, f'.tunnels[n]);
      assert Live(f.tunnels)[n] == Link(f'.tunnels[n].iface, f'.tunnels[n].subnets);
      assert Live(f'.tunnels) == Live(f.tunnels);
    } else {
      LiveWithout(f.tunnels, n, f'.tunnels[n]);
      NotLive(f.tunnels, n);
    }
    SameKernelKeeps(Live(f.tunnels), f.world, f'.world);
    assert Calm(f');
  }

  ghost predicate Aligned(f: Fleet, conns: seq<Connection>) {
    forall conn :: conn in conns && conn.name in Live(f.tunnels) ==> f.tunnels[conn.name].subnets == conn.subnets
  }

  predicate NamesDistinct(conns: seq<Connection>) {
    forall i, j :: 0 <= i < j < |conns| ==> conns[i].name != conns[j].name
  }

  /** The stale names are in order and no two enabled connections share a name. */
  ghost predicate ProperInput(f: Fleet, i: Input) {
    StaleOrdered(f, i) && (i.conns.Some? ==> NamesDistinct(Enabled(i.conns.value)))
  }

  ghost predicate Adopted(ts: map<string, Tunnel>, conns: seq<Connection>) {
    forall conn :: conn in conns ==>
      conn.name in ts && ts[conn.name].subnets == conn.subnets && ts[conn.name].id == conn.id
  }

  lemma AlignedRest(o: Setup, f: Fleet, conns: seq<Connection>)
    requires conns != [] && Calm(f) && Aligned(f, conns) && NamesDistinct(conns)
    ensures Aligned(Step(o, f, conns[0]), conns[1..]) && NamesDistinct(conns[1..])
    ensures conns[0].name !in ConnNames(conns[1..])
    ensures conns[0].name in Live(f.tunnels) ==> f.tunnels[conns[0].name].subnets == conns[0].subnets
    ensures var n, f' := conns[0].name, Step(o, f, conns[0]);
      && SameKernel(f.world, f'.world) && f'.rendered == f.rendered && f'.advertised == f.advertised
      && f'.tunnels == f.tunnels[n := f'.tunnels[n]]
      && f'.tunnels[n].subnets == conns[0].subnets && f'.tunnels[n].id == conns[0].id
  {
    hide Step, NoLeak, Separate;
    var f1 := Step(o, f, conns[0]);
    StepFrame(o, f, conns[0]);
    assert conns[0] in conns;
    StepKeeps(o, f, conns[0]);
    forall c | c in conns[1..] ensures c.name != conns[0].name && c in conns {
      var k :| 0 <= k < |conns[1..]| && conns[1..][k] == c;
      assert conns[k + 1] == c;
    }
  }

  lemma {:induction false} StepEachKeeps(o: Setup, f: Fleet, conns: seq<Connection>)
    requires Calm(f) && Aligned(f, conns) && NamesDistinct(conns)
    ensures var f' := StepEach(o, f, conns);
      && SameKernel(f.world, f'.world) && Keeps(f, f') && Live(f'.tunnels) == Live(f.tunnels)
      && f'.rendered == f.rendered && f'.advertised == f.advertised
      && f'.tunnels.Keys == f.tunnels.Keys + ConnNames(conns)
      && Adopted(f'.tunnels, conns) && SameBut(f.tunnels, f'.tunnels, ConnNames(conns))
    decreases |conns|
  {
    hide Keeps, Step, Live, Calm, Aligned, NamesDistinct;
    if conns == [] {
      SameFleetKeeps(f, f);
    } else {
      var conn, f1 := conns[0], Step(o, f, conns[0]);
      assert conn in conns;
      AlignedRest(o, f, conns);
      StepKeeps(o, f, conn);
      KeepsCalm(f, f1);
      StepEachKeeps(o, f1, conns[1..]);
      KeepsThen(f, f1, StepEach(o, f1, conns[1..]));
      assert ConnNames(conns) == {conn.name} + ConnNames(conns[1..]);
    }
  }

  lemma AdvertiseFrame(o: Setup, f: Fleet, i: Input)
    ensures var f' := Advertise(o, f, i).0;
      && f'.tunnels == f.tunnels && f'.rendered == f.rendered && SameKernel(f.world, f'.world)
  {
    hide Run, Sort, Join;
    if i.routes.Some? {
      RunQuiet(o.env, f.world, SetRoutes(Sort(i.routes.value)));
    }
  }
}
