/** The host the reconciler drives: kernel routes, firewall rules, the two
    daemons, a clock, and the commands run so far. */
module Host {

  /** The two iptables rules of an interface: source NAT in nat/POSTROUTING and
      the MSS clamp in mangle/FORWARD. The interface is all that varies. */
  datatype Rule = Masquerade(iface: string) | ClampMSS(iface: string)

  function NatRules(iface: string): seq<Rule> {
    [Masquerade(iface), ClampMSS(iface)]
  }

  /** One tunnel as the daemons are configured with it. */
  datatype Definition = Definition(
    name: string, host: string, addr: string, psk: string, user: string, password: string,
    subnets: seq<string>)

  datatype Command =
    | RouteReplace(subnet: string, dev: string)
    | RouteDel(subnet: string, dev: string)
    | RuleCheck(rule: Rule)
    | RuleAppend(rule: Rule)
    | RuleDelete(rule: Rule)
    | WriteFiles(defs: seq<Definition>)
    | LoadAll
    | Initiate(name: string)
    | Terminate(name: string)
    | LacAdd(def: Definition)
    | LacRemove(name: string)
    | LacConnect(name: string)
    | LacDisconnect(name: string)
    | SetRoutes(routes: seq<string>)

  /** `Gone` is an error whose text says the object was not there. */
  datatype Answer = Done | Gone | Broken

  datatype Entry = Entry(command: Command, at: nat, answer: Answer)

  datatype World = World(
    routes: map<string, string>,      // destination -> device, the app's own
    rules: multiset<Rule>,
    files: seq<Definition>,           // rendered on disk
    loaded: seq<Definition>,          // what charon runs with
    lacs: map<string, Definition>,    // what xl2tpd knows
    time: nat,                        // nanoseconds; 0 is Go's zero time
    trace: seq<Entry>)

  /** Everything outside the program's control: whether a command works and how
      long it takes, given all that was run before it. */
  datatype Env = Env(works: (seq<Entry>, Command) -> bool, takes: (seq<Entry>, Command) -> nat)

  function Perform(w: World, c: Command): (World, Answer) {
    match c
    case RouteReplace(subnet, dev) => (w.(routes := w.routes[subnet := dev]), Done)
    case RouteDel(subnet, dev) =>
      if subnet in w.routes && w.routes[subnet] == dev then (w.(routes := w.routes - {subnet}), Done) else (w, Gone)
    case RuleCheck(rule) => (w, if rule in w.rules then Done else Gone)
    case RuleAppend(rule) => (w.(rules := w.rules + multiset{rule}), Done)
    case RuleDelete(rule) =>
      if rule in w.rules then (w.(rules := w.rules - multiset{rule}), Done) else (w, Gone)
    case WriteFiles(defs) => (w.(files := defs), Done)
    case LoadAll => (w.(loaded := w.files), Done)
    case LacAdd(def) =>
      // xl2tpd ignores a second definition of a LAC it already has
      if def.name in w.lacs then (w, Done) else (w.(lacs := w.lacs[def.name := def]), Done)
    case LacRemove(name) =>
      if name in w.lacs then (w.(lacs := w.lacs - {name}), Done) else (w, Gone)
    case Initiate(_) | Terminate(_) | LacConnect(_) | LacDisconnect(_) | SetRoutes(_) => (w, Done)
  }

  /** Run one command: it may break without effect; either way it is recorded
      and time passes. */
  function Run(env: Env, w: World, c: Command): (World, Answer) {
    var (after, answer) := if env.works(w.trace, c) then Perform(w, c) else (w, Broken);
    (after.(trace := w.trace + [Entry(c, w.time, answer)], time := w.time + env.takes(w.trace, c)), answer)
  }

  // ----- netcfg.go

  /** Stops at the first route that cannot be set. */
  function AddRoutes(env: Env, w: World, iface: string, subnets: seq<string>): (World, bool)
    decreases |subnets|
  {
    if subnets == [] then (w, true)
    else
      var (w', a) := Run(env, w, RouteReplace(subnets[0], iface));
      if a != Done then (w', false) else AddRoutes(env, w', iface, subnets[1..])
  }

  /** A route already gone is no error; any other stops the loop. */
  function RemoveRoutes(env: Env, w: World, iface: string, subnets: seq<string>): (World, bool)
    decreases |subnets|
  {
    if subnets == [] then (w, true)
    else
      var (w', a) := Run(env, w, RouteDel(subnets[0], iface));
      if a == Broken then (w', false) else RemoveRoutes(env, w', iface, subnets[1..])
  }

  function EnsureRule(env: Env, w: World, rule: Rule): (World, bool) {
    var (w', a) := Run(env, w, RuleCheck(rule));
    if a == Done then (w', true)
    else
      var (w'', b) := Run(env, w', RuleAppend(rule));
      (w'', b == Done)
  }

  function EnsureRules(env: Env, w: World, rules: seq<Rule>): (World, bool)
    decreases |rules|
  {
    if rules == [] then (w, true)
    else
      var (w', ok) := EnsureRule(env, w, rules[0]);
      if !ok then (w', false) else EnsureRules(env, w', rules[1..])
  }

  function EnableNAT(env: Env, w: World, iface: string): (World, bool) {
    EnsureRules(env, w, NatRules(iface))
  }

  function DeleteRules(env: Env, w: World, rules: seq<Rule>): (World, bool)
    decreases |rules|
  {
    if rules == [] then (w, true)
    else
      var (w', a) := Run(env, w, RuleDelete(rules[0]));
      if a == Broken then (w', false) else DeleteRules(env, w', rules[1..])
  }

  function DisableNAT(env: Env, w: World, iface: string): (World, bool) {
    DeleteRules(env, w, NatRules(iface))
  }

  /** Errors are logged and the teardown goes on. */
  function TearDown(env: Env, w: World, iface: string, subnets: seq<string>): World {
    DisableNAT(env, RemoveRoutes(env, w, iface, subnets).0, iface).0
  }

  // ----- what may be run, and what it may touch

  /** The tunnels, interfaces and destinations a stretch of commands may name. */
  datatype Scope = Scope(names: set<string>, ifaces: set<string>, subnets: set<string>)

  ghost predicate InScope(c: Command, sc: Scope) {
    match c
    case RouteReplace(subnet, dev) => subnet in sc.subnets && dev in sc.ifaces
    case RouteDel(subnet, dev) => subnet in sc.subnets && dev in sc.ifaces
    case RuleCheck(rule) => rule.iface in sc.ifaces
    case RuleAppend(rule) => rule.iface in sc.ifaces
    case RuleDelete(rule) => rule.iface in sc.ifaces
    case Initiate(name) => name in sc.names
    case Terminate(name) => name in sc.names
    case LacAdd(def) => def.name in sc.names
    case LacRemove(name) => name in sc.names
    case LacConnect(name) => name in sc.names
    case LacDisconnect(name) => name in sc.names
    case WriteFiles(_) | LoadAll | SetRoutes(_) => true
  }

  /** The trace only grew, by commands in scope, stamped with the time between. */
  ghost predicate Grew(w: World, w': World, sc: Scope) {
    && w.trace <= w'.trace && w.time <= w'.time
    && forall i :: |w.trace| <= i < |w'.trace| ==>
         InScope(w'.trace[i].command, sc) && w.time <= w'.trace[i].at <= w'.time
  }

  ghost predicate Within(sc: Scope, sc': Scope) {
    sc.names <= sc'.names && sc.ifaces <= sc'.ifaces && sc.subnets <= sc'.subnets
  }

  lemma GrewThen(w: World, w': World, w'': World, a: Scope, b: Scope, sc: Scope)
    requires Grew(w, w', a) && Grew(w', w'', b) && Within(a, sc) && Within(b, sc)
    ensures Grew(w, w'', sc)
  {
    forall i | |w.trace| <= i < |w''.trace|
      ensures InScope(w''.trace[i].command, sc) && w.time <= w''.trace[i].at <= w''.time
    {
      if i < |w'.trace| {
        assert w''.trace[i] == w'.trace[i];
        WiderScope(w'.trace[i].command, a, sc);
      } else {
        WiderScope(w''.trace[i].command, b, sc);
      }
    }
  }

  lemma WiderScope(c: Command, a: Scope, b: Scope)
    requires InScope(c, a) && Within(a, b)
    ensures InScope(c, b)
  {
  }

  lemma RunGrew(env: Env, w: World, c: Command, sc: Scope)
    requires InScope(c, sc)
    ensures Grew(w, Run(env, w, c).0, sc)
  {
  }

  // ----- the effect of each network operation

  function KernelScope(iface: string, subnets: seq<string>): Scope {
    Scope({}, {iface}, set s | s in subnets)
  }

  /** Teardown commands never break, and a rule check tells the truth. */
  ghost predicate Tame(env: Env) {
    forall t: seq<Entry>, c: Command :: c.RouteDel? || c.RuleDelete? || c.RuleCheck? ==> env.works(t, c)
  }

  ghost predicate SameDaemons(w: World, w': World) {
    w'.files == w.files && w'.loaded == w.loaded && w'.lacs == w.lacs
  }

  ghost predicate SameKernel(w: World, w': World) {
    w'.routes == w.routes && w'.rules == w.rules
  }

  predicate OnKernel(c: Command) {
    c.RouteReplace? || c.RouteDel? || c.RuleCheck? || c.RuleAppend? || c.RuleDelete?
  }

  /** A command to a daemon leaves the kernel alone. */
  lemma RunQuiet(env: Env, w: World, c: Command)
    requires !OnKernel(c)
    ensures SameKernel(w, Run(env, w, c).0)
  {
  }

  lemma {:induction false} AddRoutesEffect(env: Env, w: World, iface: string, subnets: seq<string>)
    ensures var (w', ok) := AddRoutes(env, w, iface, subnets);
      && w'.rules == w.rules && SameDaemons(w, w')
      && (forall s :: s in w'.routes ==>
            || (s in subnets && w'.routes[s] == iface)
            || (s in w.routes && w'.routes[s] == w.routes[s]))
      && (forall s :: s in w.routes ==> s in w'.routes && (s in subnets || w'.routes[s] == w.routes[s]))
      && (ok ==> forall s :: s in subnets ==> s in w'.routes && w'.routes[s] == iface)
      && Grew(w, w', KernelScope(iface, subnets))
    decreases |subnets|
  {
    if subnets != [] {
      var c := RouteReplace(subnets[0], iface);
      var (w1, a) := Run(env, w, c);
      var sc := KernelScope(iface, subnets);
      RunGrew(env, w, c, sc);
      if a == Done {
        var (w', ok) := AddRoutes(env, w1, iface, subnets[1..]);
        AddRoutesEffect(env, w1, iface, subnets[1..]);
        GrewThen(w, w1, w', sc, KernelScope(iface, subnets[1..]), sc);
        assert forall s :: s in subnets <==> s == subnets[0] || s in subnets[1..];
      }
    }
  }

  /** Exactly the destinations that still pointed at the interface are gone. */
  ghost predicate RoutesCleared(w: World, w': World, iface: string, subnets: seq<string>) {
    && (forall s :: s in w'.routes <==> s in w.routes && !(s in subnets && w.routes[s] == iface))
    && (forall s :: s in w'.routes ==> w'.routes[s] == w.routes[s])
  }

  /** One copy of each of the interface's rules is gone, if there was one. */
  ghost predicate RulesCleared(w: World, w': World, iface: string) {
    forall r :: w'.rules[r] == if r.iface == iface && w.rules[r] > 0 then w.rules[r] - 1 else w.rules[r]
  }

  lemma {:induction false} RemoveRoutesEffect(env: Env, w: World, iface: string, subnets: seq<string>)
    requires Tame(env)
    ensures var w' := RemoveRoutes(env, w, iface, subnets).0;
      && w'.rules == w.rules && SameDaemons(w, w')
      && RoutesCleared(w, w', iface, subnets)
      && Grew(w, w', KernelScope(iface, subnets))
    decreases |subnets|
  {
    if subnets != [] {
      var c := RouteDel(subnets[0], iface);
      var (w1, a) := Run(env, w, c);
      assert a != Broken;
      var sc := KernelScope(iface, subnets);
      RunGrew(env, w, c, sc);
      var w' := RemoveRoutes(env, w1, iface, subnets[1..]).0;
      RemoveRoutesEffect(env, w1, iface, subnets[1..]);
      GrewThen(w, w1, w', sc, KernelScope(iface, subnets[1..]), sc);
      assert forall s :: s in subnets <==> s == subnets[0] || s in subnets[1..];
    }
  }

  /** Missing rules are added once, present ones left alone. */
  lemma {:induction false} EnsureRulesEffect(env: Env, w: World, iface: string, rules: seq<Rule>)
    requires Tame(env) && forall r :: r in rules ==> r.iface == iface
    ensures var (w', ok) := EnsureRules(env, w, rules);
      && w'.routes == w.routes && SameDaemons(w, w')
      && (forall r :: w'.rules[r] == w.rules[r] || (r.iface == iface && w.rules[r] == 0 && w'.rules[r] == 1))
      && (ok ==> forall r :: r in rules ==> r in w'.rules)
      && Grew(w, w', KernelScope(iface, []))
    decreases |rules|
  {
    if rules != [] {
      var rule, sc := rules[0], KernelScope(iface, []);
      assert rule in rules;
      var (w1, a) := Run(env, w, RuleCheck(rule));
      RunGrew(env, w, RuleCheck(rule), sc);
      var (w2, ok) := EnsureRule(env, w, rule);
      RunGrew(env, w1, RuleAppend(rule), sc);
      if a != Done {
        GrewThen(w, w1, w2, sc, sc, sc);
      }
      if ok {
        EnsureRulesEffect(env, w2, iface, rules[1..]);
        GrewThen(w, w2, EnsureRules(env, w2, rules[1..]).0, sc, sc, sc);
      }
    }
  }

  lemma RuleDeleteEffect(env: Env, w: World, rule: Rule)
    requires RuleDeletesWork(env)
    ensures var (w', a) := Run(env, w, RuleDelete(rule));
      && a != Broken && w'.routes == w.routes && SameDaemons(w, w')
      && (forall r :: w'.rules[r] == if r == rule && w.rules[r] > 0 then w.rules[r] - 1 else w.rules[r])
      && Grew(w, w', KernelScope(rule.iface, []))
  {
    RunGrew(env, w, RuleDelete(rule), KernelScope(rule.iface, []));
  }

  lemma DisableNATEffect(env: Env, w: World, iface: string)
    requires RuleDeletesWork(env)
    ensures var w' := DisableNAT(env, w, iface).0;
      && w'.routes == w.routes && SameDaemons(w, w')
      && RulesCleared(w, w', iface)
      && Grew(w, w', KernelScope(iface, []))
  {
    hide Run;
    var rules, sc := NatRules(iface), KernelScope(iface, []);
    var w1 := Run(env, w, RuleDelete(rules[0])).0;
    var w2 := Run(env, w1, RuleDelete(rules[1])).0;
    RuleDeleteEffect(env, w, rules[0]);
    RuleDeleteEffect(env, w1, rules[1]);
    assert rules[1..] == [rules[1]] && rules[1..][1..] == [];
    assert DeleteRules(env, w1, rules[1..]).0 == w2;
    GrewThen(w, w1, w2, sc, sc, sc);
  }

  /** A teardown removes exactly the interface's routes for these destinations
      and one copy of each of its rules. */
  lemma TearDownEffect(env: Env, w: World, iface: string, subnets: seq<string>)
    requires Tame(env)
    ensures var w' := TearDown(env, w, iface, subnets);
      && SameDaemons(w, w')
      && RoutesCleared(w, w', iface, subnets) && RulesCleared(w, w', iface)
      && Grew(w, w', KernelScope(iface, subnets))
  {
    hide Run, RemoveRoutes, DisableNAT;
    var w1 := RemoveRoutes(env, w, iface, subnets).0;
    RemoveRoutesEffect(env, w, iface, subnets);
    DisableNATEffect(env, w1, iface);
    GrewThen(w, w1, TearDown(env, w, iface, subnets), KernelScope(iface, subnets), KernelScope(iface, []),
             KernelScope(iface, subnets));
  }

  // ----- what no environment can make these operations touch

  predicate SameRoute(w: World, w': World, s: string) {
    (s in w'.routes <==> s in w.routes) && (s in w.routes ==> w'.routes[s] == w.routes[s])
  }

  /** Only kernel commands were run in between. */
  ghost predicate KernelOnly(w: World, w': World) {
    && w.trace <= w'.trace && w.time <= w'.time
    && forall k :: |w.trace| <= k < |w'.trace| ==> OnKernel(w'.trace[k].command)
  }

  /** Only routes to these destinations and rules of this interface may differ. */
  ghost predicate Confined(w: World, w': World, iface: string, subnets: seq<string>) {
    && SameDaemons(w, w') && KernelOnly(w, w')
    && (forall s :: s !in subnets ==> SameRoute(w, w', s))
    && (forall r: Rule :: r.iface != iface ==> w'.rules[r] == w.rules[r])
  }

  lemma ConfinedThen(w: World, w': World, w'': World, iface: string, subnets: seq<string>)
    requires Confined(w, w', iface, subnets) && Confined(w', w'', iface, subnets)
    ensures Confined(w, w'', iface, subnets)
  {
    assert forall s :: s !in subnets ==> SameRoute(w, w', s) && SameRoute(w', w'', s);
    KernelOnlyThen(w, w', w'');
  }

  lemma KernelOnlyThen(w: World, w': World, w'': World)
    requires KernelOnly(w, w') && KernelOnly(w', w'')
    ensures KernelOnly(w, w'')
  {
    hide OnKernel;
    forall k | |w.trace| <= k < |w''.trace| ensures OnKernel(w''.trace[k].command) {
      assert k < |w'.trace| ==> w''.trace[k] == w'.trace[k];
    }
  }

  /** The same of one command's effect. */
  ghost predicate EffectConfined(w: World, w': World, iface: string, subnets: seq<string>) {
    && SameDaemons(w, w')
    && (forall s :: s !in subnets ==> SameRoute(w, w', s))
    && (forall r: Rule :: r.iface != iface ==> w'.rules[r] == w.rules[r])
  }

  lemma RouteConfined(w: World, c: Command, iface: string, subnets: seq<string>)
    requires (c.RouteReplace? || c.RouteDel?) && c.subnet in subnets
    ensures EffectConfined(w, Perform(w, c).0, iface, subnets)
  {
    assert Perform(w, c).0.rules == w.rules;
  }

  lemma RuleConfined(w: World, c: Command, iface: string, subnets: seq<string>)
    requires (c.RuleCheck? || c.RuleAppend? || c.RuleDelete?) && c.rule.iface == iface
    ensures EffectConfined(w, Perform(w, c).0, iface, subnets)
  {
    var rules := Perform(w, c).0.rules;
    assert Perform(w, c).0 == w.(rules := rules);
    assert rules in {w.rules, w.rules + multiset{c.rule}, w.rules - multiset{c.rule}};
    hide Perform;
    forall r: Rule | r.iface != iface ensures rules[r] == w.rules[r] {
      assert r != c.rule;
    }
  }

  lemma RunConfined(env: Env, w: World, c: Command, iface: string, subnets: seq<string>)
    requires OnKernel(c) && InScope(c, KernelScope(iface, subnets))
    ensures Confined(w, Run(env, w, c).0, iface, subnets)
  {
    hide Perform;
    if c.RouteReplace? || c.RouteDel? {
      RouteConfined(w, c, iface, subnets);
    } else {
      RuleConfined(w, c, iface, subnets);
    }
    EffectIsConfined(env, w, c, iface, subnets);
  }

  lemma EffectIsConfined(env: Env, w: World, c: Command, iface: string, subnets: seq<string>)
    requires OnKernel(c) && EffectConfined(w, Perform(w, c).0, iface, subnets)
    ensures Confined(w, Run(env, w, c).0, iface, subnets)
  {
    hide Perform, OnKernel;
  }

  lemma NothingConfined(w: World, iface: string, subnets: seq<string>)
    ensures Confined(w, w, iface, subnets)
  {
  }

  lemma {:induction false} AddRoutesConfined(env: Env, w: World, iface: string, subnets: seq<string>, all: seq<string>)
    requires forall s :: s in subnets ==> s in all
    ensures Confined(w, AddRoutes(env, w, iface, subnets).0, iface, all)
    decreases |subnets|
  {
    hide Run, Confined;
    NothingConfined(w, iface, all);
    if subnets != [] {
      var (w', a) := Run(env, w, RouteReplace(subnets[0], iface));
      RunConfined(env, w, RouteReplace(subnets[0], iface), iface, all);
      if a == Done {
        AddRoutesConfined(env, w', iface, subnets[1..], all);
        ConfinedThen(w, w', AddRoutes(env, w', iface, subnets[1..]).0, iface, all);
      }
    }
  }

  lemma {:induction false} RemoveRoutesConfined(env: Env, w: World, iface: string, subnets: seq<string>, all: seq<string>)
    requires forall s :: s in subnets ==> s in all
    ensures Confined(w, RemoveRoutes(env, w, iface, subnets).0, iface, all)
    decreases |subnets|
  {
    hide Run, Confined;
    NothingConfined(w, iface, all);
    if subnets != [] {
      var (w', a) := Run(env, w, RouteDel(subnets[0], iface));
      RunConfined(env, w, RouteDel(subnets[0], iface), iface, all);
      if a != Broken {
        RemoveRoutesConfined(env, w', iface, subnets[1..], all);
        ConfinedThen(w, w', RemoveRoutes(env, w', iface, subnets[1..]).0, iface, all);
      }
    }
  }

  lemma {:induction false} EnsureRulesConfined(env: Env, w: World, rules: seq<Rule>, iface: string, all: seq<string>)
    requires forall r :: r in rules ==> r.iface == iface
    ensures Confined(w, EnsureRules(env, w, rules).0, iface, all)
    decreases |rules|
  {
    hide Run, Confined;
    NothingConfined(w, iface, all);
    if rules != [] {
      var rule := rules[0];
      assert rule in rules;
      var (w1, a) := Run(env, w, RuleCheck(rule));
      RunConfined(env, w, RuleCheck(rule), iface, all);
      var (w2, ok) := EnsureRule(env, w, rule);
      if a != Done {
        RunConfined(env, w1, RuleAppend(rule), iface, all);
        ConfinedThen(w, w1, w2, iface, all);
      }
      if ok {
        EnsureRulesConfined(env, w2, rules[1..], iface, all);
        ConfinedThen(w, w2, EnsureRules(env, w2, rules[1..]).0, iface, all);
      }
    }
  }

  lemma {:induction false} DeleteRulesConfined(env: Env, w: World, rules: seq<Rule>, iface: string, all: seq<string>)
    requires forall r :: r in rules ==> r.iface == iface
    ensures Confined(w, DeleteRules(env, w, rules).0, iface, all)
    decreases |rules|
  {
    hide Run, Confined;
    NothingConfined(w, iface, all);
    if rules != [] {
      assert rules[0] in rules;
      var (w', a) := Run(env, w, RuleDelete(rules[0]));
      RunConfined(env, w, RuleDelete(rules[0]), iface, all);
      if a != Broken {
        DeleteRulesConfined(env, w', rules[1..], iface, all);
        ConfinedThen(w, w', DeleteRules(env, w', rules[1..]).0, iface, all);
      }
    }
  }

  /** Whatever breaks, a teardown stays within its interface and destinations. */
  lemma TearDownConfined(env: Env, w: World, iface: string, subnets: seq<string>)
    ensures Confined(w, TearDown(env, w, iface, subnets), iface, subnets)
  {
    hide RemoveRoutes, DeleteRules, Confined;
    var w1 := RemoveRoutes(env, w, iface, subnets).0;
    RemoveRoutesConfined(env, w, iface, subnets, subnets);
    DeleteRulesConfined(env, w1, NatRules(iface), iface, subnets);
    ConfinedThen(w, w1, TearDown(env, w, iface, subnets), iface, subnets);
  }

  // ----- where each loop stops

  /** What was run in between, in order. */
  function Added(w: World, w': World): seq<Entry>
    requires |w.trace| <= |w'.trace|
  {
    w'.trace[|w.trace|..]
  }

  /** The commands of a list, in order, up to the first one whose answer stops
      the loop; done when none did. */
  ghost predicate RanUntil(es: seq<Entry>, cs: seq<Command>, stops: Answer -> bool, ok: bool) {
    && |es| <= |cs|
    && (forall k :: 0 <= k < |es| ==> es[k].command == cs[k])
    && (forall k :: 0 <= k < |es| - 1 ==> !stops(es[k].answer))
    && (ok <==> |es| == |cs| && (es == [] || !stops(es[|es| - 1].answer)))
    && (!ok ==> es != [] && stops(es[|es| - 1].answer))
  }

  lemma RanOneMore(w: World, w': World, w'': World, c: Command, cs: seq<Command>, stops: Answer -> bool, ok: bool)
    requires |w'.trace| == |w.trace| + 1 && w.trace <= w'.trace <= w''.trace
    requires w'.trace[|w.trace|].command == c && !stops(w'.trace[|w.trace|].answer)
    requires RanUntil(Added(w', w''), cs, stops, ok)
    ensures RanUntil(Added(w, w''), [c] + cs, stops, ok)
  {
    var es, rest := Added(w, w''), Added(w', w'');
    assert es == [w'.trace[|w.trace|]] + rest;
  }

  lemma RanOne(env: Env, w: World, c: Command)
    ensures var (w', a) := Run(env, w, c);
      && w.trace <= w'.trace && |w'.trace| == |w.trace| + 1 && w.time <= w'.time
      && w'.trace[|w.trace|].command == c && w'.trace[|w.trace|].answer == a
  {
    hide Perform;
  }

  function Replaces(iface: string, subnets: seq<string>): seq<Command> {
    if subnets == [] then [] else [RouteReplace(subnets[0], iface)] + Replaces(iface, subnets[1..])
  }

  function Dels(iface: string, subnets: seq<string>): seq<Command> {
    if subnets == [] then [] else [RouteDel(subnets[0], iface)] + Dels(iface, subnets[1..])
  }

  /** A route that cannot be set ends the loop at once. */
  lemma {:induction false} AddRoutesStops(env: Env, w: World, iface: string, subnets: seq<string>)
    ensures var (w', ok) := AddRoutes(env, w, iface, subnets);
      w.trace <= w'.trace && RanUntil(Added(w, w'), Replaces(iface, subnets), a => a != Done, ok)
    decreases |subnets|
  {
    hide Run, RanUntil;
    if subnets == [] {
      RanNone(w, a => a != Done);
    } else {
      var c := RouteReplace(subnets[0], iface);
      var (w1, a) := Run(env, w, c);
      RanOne(env, w, c);
      if a == Done {
        var (w', ok) := AddRoutes(env, w1, iface, subnets[1..]);
        AddRoutesStops(env, w1, iface, subnets[1..]);
        RanOneMore(w, w1, w', c, Replaces(iface, subnets[1..]), b => b != Done, ok);
      } else {
        RanLast(w, w1, c, Replaces(iface, subnets[1..]), b => b != Done);
      }
    }
  }

  /** A route already gone does not end the loop, any other failure does. */
  lemma {:induction false} RemoveRoutesStops(env: Env, w: World, iface: string, subnets: seq<string>)
    ensures var (w', ok) := RemoveRoutes(env, w, iface, subnets);
      w.trace <= w'.trace && RanUntil(Added(w, w'), Dels(iface, subnets), a => a == Broken, ok)
    decreases |subnets|
  {
    hide Run, RanUntil;
    if subnets == [] {
      RanNone(w, a => a == Broken);
    } else {
      var c := RouteDel(subnets[0], iface);
      var (w1, a) := Run(env, w, c);
      RanOne(env, w, c);
      if a != Broken {
        var (w', ok) := RemoveRoutes(env, w1, iface, subnets[1..]);
        RemoveRoutesStops(env, w1, iface, subnets[1..]);
        RanOneMore(w, w1, w', c, Dels(iface, subnets[1..]), b => b == Broken, ok);
      } else {
        RanLast(w, w1, c, Dels(iface, subnets[1..]), b => b == Broken);
      }
    }
  }

  lemma RanNone(w: World, stops: Answer -> bool)
    ensures RanUntil(Added(w, w), [], stops, true)
  {
  }

  lemma RanLast(w: World, w': World, c: Command, cs: seq<Command>, stops: Answer -> bool)
    requires |w'.trace| == |w.trace| + 1 && w.trace <= w'.trace
    requires w'.trace[|w.trace|].command == c && stops(w'.trace[|w.trace|].answer)
    ensures RanUntil(Added(w, w'), [c] + cs, stops, false)
  {
    assert Added(w, w') == [w'.trace[|w.trace|]];
  }

  /** The interface's two rules, NAT first; a deletion that fails ends it. */
  lemma DisableNATStops(env: Env, w: World, iface: string)
    ensures var (w', ok) := DisableNAT(env, w, iface);
      && w.trace <= w'.trace
      && RanUntil(Added(w, w'), [RuleDelete(Masquerade(iface)), RuleDelete(ClampMSS(iface))], a => a == Broken, ok)
  {
    hide Run;
    var c, d := RuleDelete(Masquerade(iface)), RuleDelete(ClampMSS(iface));
    var (w1, a) := Run(env, w, c);
    var (w2, b) := Run(env, w1, d);
    RanOne(env, w, c);
    RanOne(env, w1, d);
    assert NatRules(iface)[1..] == [ClampMSS(iface)] && [ClampMSS(iface)][1..] == [];
    if a != Broken {
      assert DeleteRules(env, w1, [ClampMSS(iface)]) == (w2, b != Broken);
      assert RanUntil(Added(w1, w2), [d], x => x == Broken, b != Broken);
      RanOneMore(w, w1, w2, c, [d], x => x == Broken, b != Broken);
      assert [c] + [d] == [c, d];
    }
  }

  /** Rule deletions work, whatever else may not. */
  ghost predicate RuleDeletesWork(env: Env) {
    forall t: seq<Entry>, c: Command :: c.RuleDelete? ==> env.works(t, c)
  }

  /** A teardown whose route deletions break still removes the rules. */
  lemma TearDownGoesOn(env: Env, w: World, iface: string, subnets: seq<string>)
    requires RuleDeletesWork(env)
    ensures RulesCleared(w, TearDown(env, w, iface, subnets), iface)
  {
    hide RemoveRoutes, DisableNAT, RuleDeletesWork;
    var w1 := RemoveRoutes(env, w, iface, subnets).0;
    RemoveRoutesRules(env, w, iface, subnets);
    DisableNATEffect(env, w1, iface);
  }

  lemma {:induction false} RemoveRoutesRules(env: Env, w: World, iface: string, subnets: seq<string>)
    ensures RemoveRoutes(env, w, iface, subnets).0.rules == w.rules
    decreases |subnets|
  {
    if subnets != [] {
      RemoveRoutesRules(env, Run(env, w, RouteDel(subnets[0], iface)).0, iface, subnets[1..]);
    }
  }

  /** A rule that is there once is there once after `ensureRule` exactly when the
      check tells the truth or the append breaks too: a check that breaks for any
      other reason is taken for absence, and the rule is added again. */
  lemma EnsureRuleExact(env: Env, w: World, rule: Rule)
    requires w.rules[rule] == 1
    ensures EnsureRule(env, w, rule).0.rules[rule] == 1 <==>
      env.works(w.trace, RuleCheck(rule)) || !env.works(Run(env, w, RuleCheck(rule)).0.trace, RuleAppend(rule))
  {
    var w1 := Run(env, w, RuleCheck(rule)).0;
    assert w1.rules == w.rules;
  }

  /** One broken check is enough for a second copy. */
  lemma DuplicatedRule(w: World)
    requires w.rules == multiset{Masquerade("ppp0")}
    ensures var env := Env((t: seq<Entry>, c: Command) => !c.RuleCheck?, (t: seq<Entry>, c: Command) => 0);
      EnsureRule(env, w, Masquerade("ppp0")).0.rules[Masquerade("ppp0")] == 2
  {
    var env := Env((t: seq<Entry>, c: Command) => !c.RuleCheck?, (t: seq<Entry>, c: Command) => 0);
    assert Run(env, w, RuleCheck(Masquerade("ppp0"))).0.rules == w.rules;
  }
}
