/** The hooks and the other events, and the agreement theorem over runs. */
module Hooks {
  import opened Host
  import opened Reconciler
  import opened Agreement
  import opened Runs

  ghost predicate HeldByOther(f: Fleet, name: string, iface: string) {
    exists m :: m in f.tunnels && m != name && f.tunnels[m].iface == iface
  }

  /** An up hook names a real interface no other tunnel holds; the tunnel itself
      holds that one or none. */
  ghost predicate UpHookOk(f: Fleet, name: string, iface: string) {
    name in f.tunnels ==>
      iface != "" && !HeldByOther(f, name, iface) && f.tunnels[name].iface in {"", iface}
  }

  /** A down hook names no interface, or one no other tunnel holds; of a tunnel
      that is up it names the tunnel's own. */
  ghost predicate DownHookOk(f: Fleet, name: string, iface: string) {
    name in f.tunnels && iface != "" ==>
      !HeldByOther(f, name, iface) && (f.tunnels[name].iface != "" ==> f.tunnels[name].iface == iface)
  }

  // ----- up

  lemma UpIsInstall(o: Setup, f: Fleet, name: string, iface: string)
    requires name in f.tunnels
    ensures var t := f.tunnels[name];
      var (w, ok) := Install(o.env, f.world, iface, t.subnets);
      PPPUp(o, f, name, iface) ==
        if ok then
          (f.(tunnels := f.tunnels[name := t.(iface := iface, phase := Up, failures := 0, retryAt := 0)], world := w), true)
        else
          (Fail(o, f.(world := w), name, iface), false)
  {
    hide AddRoutes, EnableNAT, Fail;
  }

  lemma UpClear(f: Fleet, name: string, iface: string)
    requires Inv(f) && name in f.tunnels && UpHookOk(f, name, iface)
    ensures var live, link := Live(f.tunnels), Link(iface, f.tunnels[name].subnets);
      OthersClear(live, name, link) && (name in live ==> live[name] == link) && Separate(live[name := link])
  {
    hide NoLeak, Linked, PlainSubnets, Disjoint;
    var live, link := Live(f.tunnels), Link(iface, f.tunnels[name].subnets);
    forall m | m in live && m != name
      ensures live[m].iface != iface && forall s :: s in link.subnets ==> s !in live[m].subnets
    {
      assert !HeldByOther(f, name, iface);
      DisjointMembers(link.subnets, live[m].subnets);
    }
  }

  lemma DisjointMembers(xs: seq<string>, ys: seq<string>)
    requires Disjoint(xs, ys)
    ensures forall s :: s in xs ==> s !in ys
  {
  }

  /** A completed hook. */
  lemma UpDone(o: Setup, f: Fleet, name: string, iface: string)
    requires Tame(o.env) && Inv(f) && name in f.tunnels && UpHookOk(f, name, iface)
    requires Install(o.env, f.world, iface, f.tunnels[name].subnets).1
    ensures Keeps(f, PPPUp(o, f, name, iface).0)
  {
    hide Install, NoLeak, Complete, Fail, Sound, PPPUp;
    var live, link := Live(f.tunnels), Link(iface, f.tunnels[name].subnets);
    var f' := PPPUp(o, f, name, iface).0;
    UpIsInstall(o, f, name, iface);
    UpClear(f, name, iface);
    InstallEffect(o.env, live, f.world, name, link);
    LiveWith(f.tunnels, name, f'.tunnels[name]);
    assert Shape(f'.tunnels);
  }

  /** A hook that fails part-way puts back what it did. */
  lemma UpUndone(o: Setup, f: Fleet, name: string, iface: string)
    requires Tame(o.env) && Inv(f) && name in f.tunnels && UpHookOk(f, name, iface)
    requires !Install(o.env, f.world, iface, f.tunnels[name].subnets).1
    ensures Keeps(f, PPPUp(o, f, name, iface).0)
  {
    hide Install, NoLeak, Complete, Sound, PPPUp, TearDown;
    var live, link := Live(f.tunnels), Link(iface, f.tunnels[name].subnets);
    var w := Install(o.env, f.world, iface, link.subnets).0;
    var f' := PPPUp(o, f, name, iface).0;
    UpIsInstall(o, f, name, iface);
    UpClear(f, name, iface);
    InstallEffect(o.env, live, f.world, name, link);
    TearDownKeepsNoLeak(o.env, live[name := link], w, name);
    assert live[name := link] - {name} == live - {name};
    if Full(f) {
      TearDownKeepsComplete(o.env, live - {name}, w, iface, link.subnets);
    }
    LiveWithout(f.tunnels, name, f'.tunnels[name]);
    assert Shape(f'.tunnels);
  }

  lemma UpKeeps(o: Setup, f: Fleet, name: string, iface: string)
    requires Tame(o.env) && Inv(f) && UpHookOk(f, name, iface)
    ensures Keeps(f, PPPUp(o, f, name, iface).0)
    ensures Inv(PPPUp(o, f, name, iface).0)
  {
    hide Install, Fail, Keeps, Sound, Calm, UpHookOk, PPPUp;
    var f' := PPPUp(o, f, name, iface).0;
    if name !in f.tunnels {
      UnknownName(o, f, name, iface);
      SameFleetKeeps(f, f);
    } else {
      if Install(o.env, f.world, iface, f.tunnels[name].subnets).1 {
        UpDone(o, f, name, iface);
      } else {
        UpUndone(o, f, name, iface);
      }
      KeepsCalm(f, f');
      UpSubnets(o, f, name, iface);
      SoundSubset(f, f');
    }
  }

  lemma UnknownName(o: Setup, f: Fleet, name: string, iface: string)
    requires name !in f.tunnels
    ensures PPPUp(o, f, name, iface) == (f, false)
  {
  }

  lemma UpSubnets(o: Setup, f: Fleet, name: string, iface: string)
    requires name in f.tunnels
    ensures var f' := PPPUp(o, f, name, iface).0;
      && f'.rendered == f.rendered && f'.advertised == f.advertised && f'.tunnels.Keys == f.tunnels.Keys
      && forall n :: n in f'.tunnels ==> f'.tunnels[n].subnets == f.tunnels[n].subnets
  {
    hide Install, TearDownIf, PPPUp;
    UpIsInstall(o, f, name, iface);
  }

  // ----- down, unhealthy

  lemma DownKeeps(o: Setup, f: Fleet, name: string, iface: string)
    requires Tame(o.env) && Inv(f) && DownHookOk(f, name, iface)
    ensures Keeps(f, PPPDown(o, f, name, iface).0)
    ensures Inv(PPPDown(o, f, name, iface).0)
  {
    hide TearDown, Keeps, Sound, Calm, Live, NoLeak;
    if name !in f.tunnels {
      SameFleetKeeps(f, f);
    } else {
      var t, f' := f.tunnels[name], PPPDown(o, f, name, iface).0;
      CalmShape(f, name);
      if iface != "" && t.iface == "" {
        DownUnheld(o, f, name, iface);
      }
      TakeDown(o, f, name, f'.tunnels[name], f'.world);
      KeepsCalm(f, f');
      SoundSubset(f, f');
    }
  }

  /** A down hook for an interface the tunnel never reported up on. */
  lemma DownUnheld(o: Setup, f: Fleet, name: string, iface: string)
    requires Tame(o.env) && Inv(f) && name in f.tunnels && DownHookOk(f, name, iface)
    requires iface != "" && f.tunnels[name].iface == ""
    ensures SameKernel(f.world, TearDown(o.env, f.world, iface, f.tunnels[name].subnets))
  {
    hide TearDown, NoLeak, Sound;
    var live := Live(f.tunnels);
    assert forall m :: m in live ==> m in f.tunnels && m != name && f.tunnels[m].iface == live[m].iface;
    TearDownUnheld(o.env, live, f.world, iface, f.tunnels[name].subnets);
  }

  lemma UnhealthyKeeps(o: Setup, f: Fleet, name: string)
    requires Tame(o.env) && Inv(f)
    ensures Keeps(f, Unhealthy(o, f, name)) && Inv(Unhealthy(o, f, name))
  {
    hide TearDownIf, Keeps, Sound, Calm, Live;
    if name !in f.tunnels {
      SameFleetKeeps(f, f);
    } else {
      FailKeeps(o, f, name);
      KeepsCalm(f, Unhealthy(o, f, name));
      SoundSubset(f, Unhealthy(o, f, name));
    }
  }

  // ----- when exactly a hook keeps the agreement

  /** A hook that succeeds keeps the agreement exactly when it is well-behaved. */
  lemma UpExact(o: Setup, f: Fleet, name: string, iface: string)
    requires Tame(o.env) && Inv(f) && Full(f) && name in f.tunnels && PPPUp(o, f, name, iface).1
    ensures Inv(PPPUp(o, f, name, iface).0) && Full(PPPUp(o, f, name, iface).0) <==> UpHookOk(f, name, iface)
  {
    hide PPPUp, Install, Fail, Sound, NoLeak, Complete;
    var t, f' := f.tunnels[name], PPPUp(o, f, name, iface).0;
    if UpHookOk(f, name, iface) {
      UpKeeps(o, f, name, iface);
    }
    if Inv(f') && Full(f') {
      UpIsInstall(o, f, name, iface);
      assert ShapeOf(name, f'.tunnels[name]);
      assert iface != "" && Live(f'.tunnels)[name].iface == iface;
      forall m | m in f.tunnels && m != name ensures f.tunnels[m].iface != iface {
        if f.tunnels[m].iface != "" {
          assert Live(f'.tunnels)[m].iface == f.tunnels[m].iface;
        }
      }
      if t.iface != "" && t.iface != iface {
        RuleLeftBehind(f, f', name);
        InstallKeepsRules(o, f.world, iface, t.subnets, Masquerade(t.iface));
        assert false;
      }
    }
  }

  lemma InstallKeepsRules(o: Setup, w: World, iface: string, subnets: seq<string>, r: Rule)
    requires Tame(o.env)
    ensures r in w.rules ==> r in Install(o.env, w, iface, subnets).0.rules
  {
    hide AddRoutes, EnsureRules;
    AddRoutesEffect(o.env, w, iface, subnets);
    var w1 := AddRoutes(o.env, w, iface, subnets).0;
    EnsureRulesEffect(o.env, w1, iface, NatRules(iface));
  }

  /** A tunnel that leaves its interface leaves the rules there if nobody deletes
      them. */
  lemma RuleLeftBehind(f: Fleet, f': Fleet, name: string)
    requires Calm(f) && Full(f) && Calm(f') && name in f.tunnels && f.tunnels[name].iface != ""
    requires f'.tunnels.Keys == f.tunnels.Keys && SameBut(f.tunnels, f'.tunnels, {name})
    requires f'.tunnels[name].iface != f.tunnels[name].iface
    ensures Masquerade(f.tunnels[name].iface) in f.world.rules
    ensures Masquerade(f.tunnels[name].iface) !in f'.world.rules
  {
    hide NoStrayRoute, HasRoutes;
    var iface := f.tunnels[name].iface;
    assert HasRules(Live(f.tunnels)[name], f.world);
    forall m | m in Live(f'.tunnels) ensures Live(f'.tunnels)[m].iface != iface {
      assert m != name ==> m in Live(f.tunnels);
    }
    assert !Held(Live(f'.tunnels), iface);
  }

  lemma DownExact(o: Setup, f: Fleet, name: string, iface: string)
    requires Tame(o.env) && Inv(f) && Full(f) && name in f.tunnels
    ensures Inv(PPPDown(o, f, name, iface).0) && Full(PPPDown(o, f, name, iface).0) <==> DownHookOk(f, name, iface)
  {
    hide TearDown, Sound, NoLeak, Complete, Live, Separate;
    var t, f' := f.tunnels[name], PPPDown(o, f, name, iface).0;
    if DownHookOk(f, name, iface) {
      DownKeeps(o, f, name, iface);
    }
    if Inv(f') && Full(f') && iface != "" {
      TearDownEffect(o.env, f.world, iface, t.subnets);
      if m :| m in f.tunnels && m != name && f.tunnels[m].iface == iface {
        HasMasquerade(f', m);
        RuleOnce(f, Masquerade(iface));
        assert false;
      }
      if t.iface != "" && t.iface != iface {
        RuleLeftBehind(f, f', name);
        assert false;
      }
    }
  }

  lemma HasMasquerade(f: Fleet, m: string)
    requires Full(f) && m in f.tunnels && f.tunnels[m].iface != ""
    ensures Masquerade(f.tunnels[m].iface) in f.world.rules
  {
    assert HasRules(Live(f.tunnels)[m], f.world);
  }

  lemma RuleOnce(f: Fleet, r: Rule)
    requires Calm(f)
    ensures f.world.rules[r] <= 1
  {
  }

  // ----- runs

  ghost predicate LegalEvent(f: Fleet, e: Event) {
    match e
    case Reconciled(i) => GoodInput(f, i)
    case WentUp(name, iface) => UpHookOk(f, name, iface)
    case WentDown(name, iface) => DownHookOk(f, name, iface)
    case _ => true
  }

  lemma EventKeeps(o: Setup, f: Fleet, e: Event)
    requires Tame(o.env) && Inv(f) && LegalEvent(f, e)
    ensures Inv(Next(o, f, e))
    ensures Full(f) && !e.Vanished? ==> Full(Next(o, f, e))
  {
    hide Sound, NoLeak, Complete, Reconcile, PPPUp, PPPDown, Unhealthy, GoodInput, UpHookOk, DownHookOk, Live;
    var f' := Next(o, f, e);
    match e
    case Reconciled(i) => ReconcileKeeps(o, f, i);
    case WentUp(name, iface) => UpKeeps(o, f, name, iface);
    case WentDown(name, iface) => DownKeeps(o, f, name, iface);
    case FoundUnhealthy(name) => UnhealthyKeeps(o, f, name);
    case CharonRestarted =>
      InvalidateKeeps(f, f');
    case XL2TPDRestarted =>
      InvalidateKeeps(f, f');
    case Ticked(_) =>
      SameFleetKeeps(f, f');
      SoundSubset(f, f');
    case Vanished(iface) =>
      VanishKeeps(o, f, iface);
  }

  lemma InvalidateKeeps(f: Fleet, f': Fleet)
    requires Inv(f) && f'.tunnels == f.tunnels && f'.rendered == map[] && SameKernel(f.world, f'.world)
    ensures Inv(f') && (Full(f) ==> Full(f'))
  {
    SameFleetKeeps(f, f');
  }

  lemma VanishKeeps(o: Setup, f: Fleet, iface: string)
    requires Inv(f)
    ensures Inv(Next(o, f, Vanished(iface)))
  {
    hide Sound;
    var f' := Next(o, f, Vanished(iface));
    SoundSubset(f, f');
    assert NoStrayRoute(Live(f'.tunnels), f'.world);
  }

  function RunAll(o: Setup, f: Fleet, events: seq<Event>): Fleet
    decreases |events|
  {
    if events == [] then f else RunAll(o, Next(o, f, events[0]), events[1..])
  }

  ghost predicate LegalRun(o: Setup, f: Fleet, events: seq<Event>)
    decreases |events|
  {
    events == [] || (LegalEvent(f, events[0]) && LegalRun(o, Next(o, f, events[0]), events[1..]))
  }

  predicate NothingVanishes(events: seq<Event>) {
    forall i :: 0 <= i < |events| ==> !events[i].Vanished?
  }

  lemma {:induction false} RunKeeps(o: Setup, f: Fleet, events: seq<Event>)
    requires Tame(o.env) && Inv(f) && LegalRun(o, f, events)
    ensures Inv(RunAll(o, f, events))
    ensures Full(f) && NothingVanishes(events) ==> Full(RunAll(o, f, events))
    decreases |events|
  {
    hide Inv, Full, Next, LegalEvent;
    if events != [] {
      EventKeeps(o, f, events[0]);
      RunKeeps(o, Next(o, f, events[0]), events[1..]);
    }
  }

  lemma InitialInv(f: Fleet)
    requires Initial(f)
    ensures Inv(f) && Full(f)
  {
  }

  ghost predicate UpOn(f: Fleet, iface: string) {
    exists n :: n in f.tunnels && f.tunnels[n].phase == Up && f.tunnels[n].iface == iface
  }

  ghost predicate UpWith(f: Fleet, subnet: string, iface: string) {
    exists n :: n in f.tunnels && f.tunnels[n].phase == Up && f.tunnels[n].iface == iface && subnet in f.tunnels[n].subnets
  }

  /** Nothing in the kernel belongs to a tunnel that is not up. */
  ghost predicate NothingLeaks(f: Fleet) {
    && (forall n :: n in f.tunnels ==> (f.tunnels[n].phase == Up <==> f.tunnels[n].iface != ""))
    && (forall s :: s in f.world.routes ==> UpWith(f, s, f.world.routes[s]))
    && (forall r :: f.world.rules[r] <= if UpOn(f, r.iface) then 1 else 0)
  }

  /** The kernel holds exactly what the tunnels that are up need: each route on
      the tunnel's own interface, each rule once. */
  ghost predicate KernelExact(f: Fleet) {
    && NothingLeaks(f)
    && (forall s, dev :: UpWith(f, s, dev) ==> s in f.world.routes && f.world.routes[s] == dev)
    && (forall r :: f.world.rules[r] == if UpOn(f, r.iface) then 1 else 0)
  }

  lemma InvMeans(f: Fleet)
    requires Inv(f)
    ensures NothingLeaks(f)
  {
    hide Sound;
    var live := Live(f.tunnels);
    assert forall n :: n in f.tunnels ==> ShapeOf(n, f.tunnels[n]);
    forall s | s in f.world.routes ensures UpWith(f, s, f.world.routes[s]) {
      var n :| n in live && Carries(live[n], s, f.world.routes[s]);
      assert ShapeOf(n, f.tunnels[n]);
    }
    forall r | r in f.world.rules ensures UpOn(f, r.iface) && f.world.rules[r] == 1 {
      var n :| n in live && live[n].iface == r.iface;
      assert ShapeOf(n, f.tunnels[n]);
    }
  }

  lemma FullMeans(f: Fleet)
    requires Inv(f) && Full(f)
    ensures KernelExact(f)
  {
    hide Sound, NoLeak, NothingLeaks;
    InvMeans(f);
    var live := Live(f.tunnels);
    forall s, dev | UpWith(f, s, dev) ensures s in f.world.routes && f.world.routes[s] == dev {
      var n :| n in f.tunnels && f.tunnels[n].phase == Up && f.tunnels[n].iface == dev && s in f.tunnels[n].subnets;
      assert ShapeOf(n, f.tunnels[n]);
      assert HasRoutes(live[n], f.world);
    }
    forall r ensures f.world.rules[r] == if UpOn(f, r.iface) then 1 else 0 {
      NotMoreRules(f, r);
      if UpOn(f, r.iface) {
        var n :| n in f.tunnels && f.tunnels[n].phase == Up && f.tunnels[n].iface == r.iface;
        assert ShapeOf(n, f.tunnels[n]);
        assert HasRules(live[n], f.world);
        assert r == Masquerade(r.iface) || r == ClampMSS(r.iface);
      }
    }
  }

  lemma NotMoreRules(f: Fleet, r: Rule)
    requires NothingLeaks(f)
    ensures f.world.rules[r] <= if UpOn(f, r.iface) then 1 else 0
  {
  }

  /** After every legal run the kernel agrees with the fleet; with interfaces
      vanishing on their own, nothing leaks. */
  lemma KernelAgreement(o: Setup, f: Fleet, events: seq<Event>)
    requires Tame(o.env) && Initial(f) && LegalRun(o, f, events)
    ensures NothingLeaks(RunAll(o, f, events))
    ensures NothingVanishes(events) ==> KernelExact(RunAll(o, f, events))
  {
    hide Inv, Full, NothingLeaks, KernelExact, LegalRun, RunAll;
    InitialInv(f);
    RunKeeps(o, f, events);
    InvMeans(RunAll(o, f, events));
    if NothingVanishes(events) {
      FullMeans(RunAll(o, f, events));
    }
  }

  // ----- what every event keeps in any environment

  ghost predicate SubnetsFrom(f': Fleet, f: Fleet) {
    forall n :: n in f'.tunnels ==> n in f.tunnels && f'.tunnels[n].subnets == f.tunnels[n].subnets
  }

  /** Every event but a Reconcile leaves the subnets alone. */
  lemma OtherSubnets(o: Setup, f: Fleet, e: Event)
    requires !e.Reconciled?
    ensures SubnetsFrom(Next(o, f, e), f)
  {
    hide PPPUp, TearDownIf, FromFiles;
    if e.WentUp? {
      if e.name in f.tunnels {
        UpSubnets(o, f, e.name, e.iface);
      } else {
        UnknownName(o, f, e.name, e.iface);
      }
    }
  }

  /** Subnets stay canonical, private and linked to the fingerprints through
      every event, whatever the commands and hooks do. */
  lemma EventSound(o: Setup, f: Fleet, e: Event)
    requires Sound(f) && (e.Reconciled? ==> GoodInput(f, e.input))
    ensures Sound(Next(o, f, e))
  {
    hide Sound, GoodInput, Reconcile, PPPUp, TearDownIf, FromFiles;
    if e.Reconciled? {
      ReconcileSound(o, f, e.input);
    } else {
      OtherSubnets(o, f, e);
      OtherRendered(o, f, e);
      SoundSubset(f, Next(o, f, e));
    }
  }

  lemma OtherRendered(o: Setup, f: Fleet, e: Event)
    requires !e.Reconciled?
    ensures Next(o, f, e).rendered == f.rendered || Next(o, f, e).rendered == map[]
  {
    hide PPPUp, TearDownIf, FromFiles;
    if e.WentUp? {
      if e.name in f.tunnels {
        UpSubnets(o, f, e.name, e.iface);
      } else {
        UnknownName(o, f, e.name, e.iface);
      }
    }
  }

  /** Tunnels stay filed, up exactly with an interface of their own, through every
      event in every environment, if up hooks are well-behaved. */
  lemma EventTidy(o: Setup, f: Fleet, e: Event)
    requires Shape(f.tunnels) && OwnIfaces(f.tunnels) && Sound(f)
    requires e.Reconciled? ==> GoodInput(f, e.input)
    requires e.WentUp? ==> UpHookOk(f, e.name, e.iface)
    ensures Shape(Next(o, f, e).tunnels) && OwnIfaces(Next(o, f, e).tunnels)
  {
    hide Sound, GoodInput, Reconcile, PPPUp, FromFiles, TearDownIf, RedialDelay;
    match e
    case Reconciled(i) =>
      ReconcileShape(o, f, i);
      ReconcileSound(o, f, i);
    case WentUp(name, iface) => UpTidy(o, f, name, iface);
    case WentDown(name, iface) => assert name in f.tunnels ==> ShapeOf(name, f.tunnels[name]);
    case FoundUnhealthy(name) => assert name in f.tunnels ==> ShapeOf(name, f.tunnels[name]);
    case _ =>
  }

  lemma UpTidy(o: Setup, f: Fleet, name: string, iface: string)
    requires Shape(f.tunnels) && OwnIfaces(f.tunnels) && UpHookOk(f, name, iface)
    ensures Shape(PPPUp(o, f, name, iface).0.tunnels) && OwnIfaces(PPPUp(o, f, name, iface).0.tunnels)
  {
    hide Install, PPPUp, TearDownIf, RedialDelay;
    if name in f.tunnels {
      UpIsInstall(o, f, name, iface);
      assert ShapeOf(name, f.tunnels[name]);
      assert forall m :: m in f.tunnels && m != name ==> f.tunnels[m].iface != iface;
    } else {
      UnknownName(o, f, name, iface);
    }
  }

  lemma EventFiled(o: Setup, f: Fleet, e: Event)
    requires Filed(f.tunnels)
    ensures Filed(Next(o, f, e).tunnels)
  {
    hide Reconcile, PPPUp, FromFiles, TearDownIf, RedialDelay, Install;
    if e.Reconciled? {
      ReconcileFiled(o, f, e.input);
    } else if e.WentUp? {
      if e.name in f.tunnels {
        UpIsInstall(o, f, e.name, e.iface);
      } else {
        UnknownName(o, f, e.name, e.iface);
      }
    }
  }

  lemma UpConfined(o: Setup, f: Fleet, name: string, iface: string)
    requires name in f.tunnels
    ensures Confined(f.world, PPPUp(o, f, name, iface).0.world, iface, f.tunnels[name].subnets)
  {
    hide Install, TearDown, Confined, PPPUp;
    var t := f.tunnels[name];
    var w := Install(o.env, f.world, iface, t.subnets).0;
    UpIsInstall(o, f, name, iface);
    InstallConfined(o.env, f.world, iface, t.subnets);
    TearDownConfined(o.env, w, iface, t.subnets);
    ConfinedThen(f.world, w, TearDown(o.env, w, iface, t.subnets), iface, t.subnets);
  }

  /** An up hook, completed or failed, takes no route from another tunnel, and no
      rule unless it names that tunnel's interface, whatever the commands do. */
  lemma NoStolenRoute(o: Setup, f: Fleet, name: string, iface: string, m: string)
    requires Private(f.tunnels) && m in f.tunnels && m != name
    ensures var f', t := PPPUp(o, f, name, iface).0, f.tunnels[m];
      && m in f'.tunnels && f'.tunnels[m] == t
      && (forall s :: s in t.subnets ==> SameRoute(f.world, f'.world, s))
      && (t.iface != iface ==> forall r: Rule :: r.iface == t.iface ==> f'.world.rules[r] == f.world.rules[r])
  {
    hide PPPUp, Install, Fail;
    if name in f.tunnels {
      UpIsInstall(o, f, name, iface);
      FailOnly(o, f.(world := Install(o.env, f.world, iface, f.tunnels[name].subnets).0), name, iface, m);
      UpConfined(o, f, name, iface);
      DisjointMembers(f.tunnels[m].subnets, f.tunnels[name].subnets);
    } else {
      UnknownName(o, f, name, iface);
    }
  }

  lemma FailOnly(o: Setup, f: Fleet, name: string, iface: string, m: string)
    requires m in f.tunnels && m != name
    ensures var f' := Fail(o, f, name, iface); m in f'.tunnels && f'.tunnels[m] == f.tunnels[m]
  {
    hide TearDownIf;
  }

  lemma {:induction false} EnsuredRules(env: Env, w: World, rules: seq<Rule>)
    ensures var (w', ok) := EnsureRules(env, w, rules);
      && (forall r :: r in w.rules ==> r in w'.rules)
      && (ok ==> forall r :: r in rules ==> r in w'.rules)
    decreases |rules|
  {
    if rules != [] {
      var (w1, ok) := EnsureRule(env, w, rules[0]);
      EnsuredRule(env, w, rules[0]);
      if ok {
        EnsuredRules(env, w1, rules[1..]);
        assert forall r :: r in rules <==> r == rules[0] || r in rules[1..];
      }
    }
  }

  lemma EnsuredRule(env: Env, w: World, rule: Rule)
    ensures var (w', ok) := EnsureRule(env, w, rule);
      (forall r :: r in w.rules ==> r in w'.rules) && (ok ==> rule in w'.rules)
  {
  }

  /** What an up hook answers, in any environment: success exactly when the tunnel
      is known and then up on that interface, with every route on it and both
      rules in place. A known tunnel whose hook fails is failed and holds none. */
  lemma UpMeans(o: Setup, f: Fleet, name: string, iface: string)
    ensures var (f', ok) := PPPUp(o, f, name, iface);
      if name !in f.tunnels then !ok && f' == f
      else
        && name in f'.tunnels && f'.tunnels[name].subnets == f.tunnels[name].subnets
        && (ok ==>
              && f'.tunnels[name].phase == Up && f'.tunnels[name].iface == iface
              && (forall s :: s in f.tunnels[name].subnets ==> s in f'.world.routes && f'.world.routes[s] == iface)
              && Masquerade(iface) in f'.world.rules && ClampMSS(iface) in f'.world.rules)
        && (!ok ==> f'.tunnels[name].phase == Failed && f'.tunnels[name].iface == "")
  {
    hide AddRoutes, EnsureRules, TearDownIf, RedialDelay;
    if name in f.tunnels {
      var t := f.tunnels[name];
      var w1 := AddRoutes(o.env, f.world, iface, t.subnets).0;
      AddRoutesEffect(o.env, f.world, iface, t.subnets);
      EnsuredRules(o.env, w1, NatRules(iface));
      EnsureRulesConfined(o.env, w1, NatRules(iface), iface, []);
      var w2 := EnableNAT(o.env, w1, iface).0;
      assert forall s :: s in t.subnets ==> SameRoute(w1, w2, s);
      assert NatRules(iface)[0] == Masquerade(iface) && NatRules(iface)[1] == ClampMSS(iface);
    }
  }

  /** Why entry points are taken whole: an up hook that lands before the dial's
      last lock section is overwritten, and a tunnel with routes and rules in the
      kernel no longer counts as up. */
  lemma UpDuringDialIsHidden(o: Setup, f: Fleet, name: string, iface: string)
    requires name in f.tunnels && iface != "" && PPPUp(o, f, name, iface).1
    ensures name in PPPUp(o, f, name, iface).0.tunnels
    ensures var g := MarkConnecting(PPPUp(o, f, name, iface).0, name);
      g.tunnels[name].phase == Connecting && g.tunnels[name].iface == iface && !Shape(g.tunnels)
  {
    hide PPPUp, Install, Fail;
    UpIsInstall(o, f, name, iface);
    var g := MarkConnecting(PPPUp(o, f, name, iface).0, name);
    assert !ShapeOf(name, g.tunnels[name]);
  }
}
