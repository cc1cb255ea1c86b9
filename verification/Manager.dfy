/** The reconciler as the objects it is written with: a network that runs
    commands, and a manager whose fields its methods update. Every method is
    proved against its function in `Host` or `Reconciler`. */
module Manager {
  import opened Common
  import opened Text
  import opened Tables
  import H = Host
  import R = Reconciler

  class Network {
    const env: H.Env
    var world: H.World

    constructor (env: H.Env, world: H.World)
      ensures this.env == env && this.world == world
    {
      this.env, this.world := env, world;
    }

    method Run(c: H.Command) returns (a: H.Answer)
      modifies this
      ensures (world, a) == H.Run(env, old(world), c)
    {
      var (w, answer) := H.Run(env, world, c);
      world := w;
      return answer;
    }

    method AddRoutes(iface: string, subnets: seq<string>) returns (ok: bool)
      modifies this
      ensures (world, ok) == H.AddRoutes(env, old(world), iface, subnets)
    {
      hide H.Run;
      for i := 0 to |subnets|
        invariant H.AddRoutes(env, world, iface, subnets[i..]) == H.AddRoutes(env, old(world), iface, subnets)
      {
        assert subnets[i..][1..] == subnets[i + 1..];
        var a := Run(H.RouteReplace(subnets[i], iface));
        if a != H.Done {
          return false;
        }
      }
      return true;
    }

    method RemoveRoutes(iface: string, subnets: seq<string>) returns (ok: bool)
      modifies this
      ensures (world, ok) == H.RemoveRoutes(env, old(world), iface, subnets)
    {
      hide H.Run;
      for i := 0 to |subnets|
        invariant H.RemoveRoutes(env, world, iface, subnets[i..]) == H.RemoveRoutes(env, old(world), iface, subnets)
      {
        assert subnets[i..][1..] == subnets[i + 1..];
        var a := Run(H.RouteDel(subnets[i], iface));
        if a == H.Broken {
          return false;
        }
      }
      return true;
    }

    method EnsureRule(rule: H.Rule) returns (ok: bool)
      modifies this
      ensures (world, ok) == H.EnsureRule(env, old(world), rule)
    {
      hide H.Run;
      var a := Run(H.RuleCheck(rule));
      if a == H.Done {
        return true;
      }
      a := Run(H.RuleAppend(rule));
      return a == H.Done;
    }

    method EnableNAT(iface: string) returns (ok: bool)
      modifies this
      ensures (world, ok) == H.EnableNAT(env, old(world), iface)
    {
      hide H.Run, H.EnsureRule;
      var rules := H.NatRules(iface);
      for i := 0 to |rules|
        invariant H.EnsureRules(env, world, rules[i..]) == H.EnsureRules(env, old(world), rules)
      {
        assert rules[i..][1..] == rules[i + 1..];
        var done := EnsureRule(rules[i]);
        if !done {
          return false;
        }
      }
      return true;
    }

    method DisableNAT(iface: string) returns (ok: bool)
      modifies this
      ensures (world, ok) == H.DisableNAT(env, old(world), iface)
    {
      hide H.Run;
      var rules := H.NatRules(iface);
      for i := 0 to |rules|
        invariant H.DeleteRules(env, world, rules[i..]) == H.DeleteRules(env, old(world), rules)
      {
        assert rules[i..][1..] == rules[i + 1..];
        var a := Run(H.RuleDelete(rules[i]));
        if a == H.Broken {
          return false;
        }
      }
      return true;
    }

    method TearDownInterface(iface: string, subnets: seq<string>)
      modifies this
      ensures world == H.TearDown(env, old(world), iface, subnets)
    {
      var _ := RemoveRoutes(iface, subnets);
      var _ := DisableNAT(iface);
    }
  }

  class Manager {
    const setup: R.Setup
    const network: Network
    var tunnels: map<string, R.Tunnel>
    var rendered: map<string, string>
    var advertised: string

    constructor (setup: R.Setup, network: Network)
      requires network.env == setup.env
      ensures Valid() && this.setup == setup && this.network == network
      ensures Fleet() == R.Fleet(map[], map[], "", network.world)
    {
      this.setup, this.network := setup, network;
      tunnels, rendered, advertised := map[], map[], "";
    }

    ghost predicate Valid() {
      network.env == setup.env
    }

    ghost function Fleet(): R.Fleet
      reads this, network
    {
      R.Fleet(tunnels, rendered, advertised, network.world)
    }

    method TearDownIf(iface: string, subnets: seq<string>)
      requires Valid()
      modifies network
      ensures network.world == R.TearDownIf(setup, old(network.world), iface, subnets)
    {
      hide H.TearDown;
      if iface != "" {
        network.TearDownInterface(iface, subnets);
      }
    }

    method Drop(name: string)
      requires Valid()
      modifies this, network
      ensures Fleet() == R.Drop(setup, old(Fleet()), name)
    {
      hide H.Run, R.TearDownIf;
      if name !in tunnels {
        return;
      }
      var t := tunnels[name];
      tunnels := tunnels[name := t.(phase := R.Disconnected, iface := "", failures := 0, retryAt := 0)];
      TearDownIf(t.iface, t.subnets);
      var _ := network.Run(H.LacDisconnect(name));
      var _ := network.Run(H.Terminate(name));
    }

    method Fail(name: string, iface: string)
      requires Valid()
      modifies this, network
      ensures Fleet() == R.Fail(setup, old(Fleet()), name, iface)
    {
      hide R.TearDownIf;
      if name !in tunnels {
        return;
      }
      TearDownIf(iface, tunnels[name].subnets);
      var t := tunnels[name];
      tunnels := tunnels[name := t.(
        phase := R.Failed, iface := "", failures := t.failures + 1,
        retryAt := network.world.time + R.RedialDelay(t.failures + 1))];
    }

    method Disconnect(t: R.Tunnel)
      requires Valid()
      modifies network
      ensures network.world == R.Disconnect(setup, old(network.world), t)
    {
      hide H.Run, R.TearDownIf;
      TearDownIf(t.iface, t.subnets);
      var _ := network.Run(H.LacDisconnect(t.name));
      var _ := network.Run(H.LacRemove(t.name));
      var _ := network.Run(H.Terminate(t.name));
    }

    method DialFailed(name: string)
      requires Valid() && name in tunnels
      modifies this
      ensures Fleet() == R.DialFailed(old(Fleet()), name, network.world)
    {
      var t := tunnels[name];
      tunnels := tunnels[name := t.(
        phase := R.Failed, failures := t.failures + 1,
        retryAt := network.world.time + R.RedialDelay(t.failures + 1))];
    }

    method Dial(name: string)
      requires Valid()
      modifies this, network
      ensures Fleet() == R.Dial(setup, old(Fleet()), name)
    {
      hide H.Run, R.DialFailed;
      if name !in tunnels {
        return;
      }
      var _ := network.Run(H.LacDisconnect(name));
      var a := network.Run(H.Initiate(name));
      if a != H.Done {
        DialFailed(name);
        FrameDialFailed(old(Fleet()), Fleet(), name, network.world);
        return;
      }
      a := network.Run(H.LacConnect(name));
      if a != H.Done {
        DialFailed(name);
        FrameDialFailed(old(Fleet()), Fleet(), name, network.world);
        return;
      }
      tunnels := tunnels[name := tunnels[name].(phase := R.Connecting, dialedAt := network.world.time)];
    }

    method Step(conn: Connection)
      requires Valid()
      modifies this, network
      ensures Fleet() == R.Step(setup, old(Fleet()), conn)
    {
      hide R.Dial, R.Fail;
      if conn.name !in tunnels {
        tunnels := tunnels[conn.name := R.Tunnel(conn.id, conn.name, [], "", R.Disconnected, 0, 0, 0)];
      }
      tunnels := tunnels[conn.name := tunnels[conn.name].(id := conn.id, subnets := conn.subnets)];
      var t := tunnels[conn.name];
      assert tunnels == old(tunnels)[conn.name := R.Refreshed(old(Fleet()), conn)];
      var now := network.world.time;
      match t.phase {
        case Up => return;
        case Connecting =>
          if now - t.dialedAt < setup.dialTimeout {
            return;
          }
          Fail(conn.name, t.iface);
          return;
        case Disconnected | Failed =>
          if now < t.retryAt {
            return;
          }
      }
      Dial(conn.name);
    }

    /** Takes the tunnels nobody asks for out of the map, in whatever order the
        map yields them. */
    method StaleTunnels(desired: set<string>) returns (stale: seq<string>)
      modifies this
      ensures Distinct(stale) && forall n :: n in stale <==> n in old(tunnels) && n !in desired
      ensures Fleet() == old(Fleet()).(tunnels := old(tunnels) - (set n | n in stale))
    {
      stale := [];
      var rest := tunnels.Keys;
      while rest != {}
        invariant rest <= old(tunnels).Keys
        invariant Distinct(stale)
        invariant forall n :: n in stale <==> n in old(tunnels) && n !in rest && n !in desired
        invariant tunnels == old(tunnels) - (set n | n in stale)
        invariant rendered == old(rendered) && advertised == old(advertised) && network.world == old(network.world)
        decreases |rest|
      {
        var n :| n in rest;
        rest := rest - {n};
        if n !in desired {
          stale := stale + [n];
          tunnels := tunnels - {n};
        }
      }
    }

    /** The definitions of the connections, or none when secrets are unreadable. */
    method DesiredTunnels(conns: seq<Connection>, i: R.Input) returns (r: Option<seq<H.Definition>>)
      ensures r == R.DesiredTunnels(conns, i)
    {
      var defs: seq<H.Definition> := [];
      assert conns[0..] == conns;
      for k := 0 to |conns|
        invariant R.DesiredTunnels(conns[k..], i).None? ==> R.DesiredTunnels(conns, i).None?
        invariant R.DesiredTunnels(conns[k..], i).Some? ==>
          R.DesiredTunnels(conns, i).Some? && R.DesiredTunnels(conns, i).value == defs + R.DesiredTunnels(conns[k..], i).value
      {
        assert conns[k..][1..] == conns[k + 1..];
        var s := i.secretsOf(conns[k].id);
        if s.None? {
          return None;
        }
        defs := defs + [R.FromConnection(conns[k], s.value, i.resolve(conns[k].host))];
      }
      assert R.DesiredTunnels(conns, i).value == defs;
      return Some(defs);
    }

    method FingerprintsOf(defs: seq<H.Definition>) returns (prints: map<string, string>)
      ensures prints == R.Fingerprints(defs)
    {
      hide R.Fingerprint;
      prints := map[];
      for k := 0 to |defs|
        invariant prints == R.Fingerprints(defs[..k])
      {
        assert defs[..k + 1][..k] == defs[..k];
        prints := prints[defs[k].name := R.Fingerprint(defs[k])];
      }
      assert defs[..|defs|] == defs;
    }

    method ChangedTunnels(wanted: map<string, string>, defs: seq<H.Definition>) returns (changed: seq<H.Definition>)
      ensures changed == R.ChangedTunnels(rendered, wanted, defs)
    {
      hide R.Lookup;
      changed := [];
      for k := 0 to |defs|
        invariant changed + R.ChangedTunnels(rendered, wanted, defs[k..]) == R.ChangedTunnels(rendered, wanted, defs)
      {
        assert defs[k..][1..] == defs[k + 1..];
        ghost var rest := R.ChangedTunnels(rendered, wanted, defs[k + 1..]);
        if R.Lookup(rendered, defs[k].name) != R.Lookup(wanted, defs[k].name) {
          assert R.ChangedTunnels(rendered, wanted, defs[k..]) == [defs[k]] + rest;
          assert changed + ([defs[k]] + rest) == (changed + [defs[k]]) + rest;
          changed := changed + [defs[k]];
        } else {
          assert R.ChangedTunnels(rendered, wanted, defs[k..]) == [] + rest == rest;
        }
      }
    }

    method WriteConfigs(conns: seq<Connection>, i: R.Input) returns (r: Option<seq<H.Definition>>)
      requires Valid()
      modifies this, network
      ensures (Fleet(), r) == R.WriteConfigs(setup, old(Fleet()), conns, i)
    {
      hide H.Run, R.DesiredTunnels, R.Fingerprints, R.ChangedTunnels;
      var desired := DesiredTunnels(conns, i);
      if desired.None? {
        return None;
      }
      var wanted := FingerprintsOf(desired.value);
      var changed := ChangedTunnels(wanted, desired.value);
      if changed == [] && |rendered| == |wanted| {
        return Some([]);
      }
      var a := network.Run(H.WriteFiles(desired.value));
      if a != H.Done {
        return None;
      }
      a := network.Run(H.LoadAll);
      if a != H.Done {
        return None;
      }
      rendered := wanted;
      return Some(changed);
    }

    method Advertise(i: R.Input) returns (ok: bool)
      requires Valid()
      modifies this, network
      ensures (Fleet(), ok) == R.Advertise(setup, old(Fleet()), i)
    {
      hide H.Run, Sort, Join;
      if i.routes.None? {
        return false;
      }
      var routes := Sort(i.routes.value);
      var joined := Join(routes);
      if joined == advertised || !setup.tailnet {
        return true;
      }
      var a := network.Run(H.SetRoutes(routes));
      if a != H.Done {
        return false;
      }
      advertised := joined;
      return true;
    }

    /** One pass over the enabled connections. The stale names come in the order
        the tunnel map happened to yield them. */
    method Reconcile(conns: Option<seq<Connection>>, secretsOf: int -> Option<Secrets>, resolve: string -> string,
                     routes: Option<seq<string>>) returns (ok: bool, ghost order: seq<string>)
      requires Valid()
      modifies this, network
      ensures var i := R.Input(conns, secretsOf, resolve, order, routes);
        && R.StaleOrdered(old(Fleet()), i)
        && (Fleet(), ok) == R.Reconcile(setup, old(Fleet()), i)
    {
      hide H.Run, R.Enabled, R.WriteConfigs, R.Redefine, R.Step, R.Advertise, R.Disconnect;
      order := [];
      if conns.None? {
        return false, [];
      }
      var enabled := EnabledOf(conns.value);
      var before := tunnels;
      var desired := set conn | conn in enabled :: conn.name;
      var stale := StaleTunnels(desired);
      order := stale;
      DisconnectAll(before, stale);
      assert Fleet() == R.RemoveStale(setup, old(Fleet()), stale);
      var i := R.Input(conns, secretsOf, resolve, stale, routes);
      var changed := WriteConfigs(enabled, i);
      if changed.None? {
        return false, order;
      }
      RedefineAll(changed.value);
      StepAll(enabled);
      ok := Advertise(i);
    }

    method EnabledOf(conns: seq<Connection>) returns (enabled: seq<Connection>)
      ensures enabled == R.Enabled(conns)
    {
      enabled := [];
      for k := 0 to |conns|
        invariant enabled + R.Enabled(conns[k..]) == R.Enabled(conns)
      {
        assert conns[k..][1..] == conns[k + 1..];
        if conns[k].enabled {
          enabled := enabled + [conns[k]];
        }
      }
    }

    method DisconnectAll(before: map<string, R.Tunnel>, stale: seq<string>)
      requires Valid() && forall n :: n in stale ==> n in before
      modifies network
      ensures network.world == R.DisconnectEach(setup, old(network.world), before, stale)
    {
      hide R.Disconnect;
      for k := 0 to |stale|
        invariant R.DisconnectEach(setup, network.world, before, stale[k..]) ==
          R.DisconnectEach(setup, old(network.world), before, stale)
      {
        assert stale[k..][1..] == stale[k + 1..];
        assert stale[k] in stale;
        Disconnect(before[stale[k]]);
      }
    }

    method RedefineAll(changed: seq<H.Definition>)
      requires Valid()
      modifies this, network
      ensures Fleet() == R.RedefineEach(setup, old(Fleet()), changed)
    {
      hide H.Run, R.Drop;
      for k := 0 to |changed|
        invariant R.RedefineEach(setup, Fleet(), changed[k..]) == R.RedefineEach(setup, old(Fleet()), changed)
      {
        assert changed[k..][1..] == changed[k + 1..];
        Drop(changed[k].name);
        var _ := network.Run(H.LacRemove(changed[k].name));
        var _ := network.Run(H.LacAdd(changed[k]));
      }
    }

    method StepAll(conns: seq<Connection>)
      requires Valid()
      modifies this, network
      ensures Fleet() == R.StepEach(setup, old(Fleet()), conns)
    {
      hide R.Step;
      for k := 0 to |conns|
        invariant R.StepEach(setup, Fleet(), conns[k..]) == R.StepEach(setup, old(Fleet()), conns)
      {
        assert conns[k..][1..] == conns[k + 1..];
        Step(conns[k]);
      }
    }

    method PPPUp(name: string, iface: string) returns (ok: bool)
      requires Valid()
      modifies this, network
      ensures (Fleet(), ok) == R.PPPUp(setup, old(Fleet()), name, iface)
    {
      hide H.AddRoutes, H.EnableNAT, R.Fail;
      if name !in tunnels {
        return false;
      }
      var subnets := tunnels[name].subnets;
      var done := network.AddRoutes(iface, subnets);
      if !done {
        Fail(name, iface);
        return false;
      }
      done := network.EnableNAT(iface);
      if !done {
        Fail(name, iface);
        return false;
      }
      tunnels := tunnels[name := tunnels[name].(iface := iface, phase := R.Up, failures := 0, retryAt := 0)];
      return true;
    }

    method PPPDown(name: string, iface: string) returns (ok: bool)
      requires Valid()
      modifies this, network
      ensures (Fleet(), ok) == R.PPPDown(setup, old(Fleet()), name, iface)
    {
      hide R.TearDownIf;
      if name !in tunnels {
        return false;
      }
      var dev := if iface == "" then tunnels[name].iface else iface;
      TearDownIf(dev, tunnels[name].subnets);
      tunnels := tunnels[name := tunnels[name].(
        iface := "", phase := R.Disconnected, retryAt := network.world.time + R.MIN_REDIAL)];
      return true;
    }

    method Unhealthy(name: string)
      requires Valid()
      modifies this, network
      ensures Fleet() == R.Unhealthy(setup, old(Fleet()), name)
    {
      hide R.Fail;
      if name in tunnels {
        Fail(name, tunnels[name].iface);
      }
    }

    method Invalidate()
      modifies this
      ensures Fleet() == R.Invalidate(old(Fleet()))
    {
      rendered := map[];
    }
  }

  lemma FrameDialFailed(f: R.Fleet, f': R.Fleet, name: string, w: H.World)
    requires name in f.tunnels && f' == R.DialFailed(f.(world := w), name, w)
    ensures f' == R.DialFailed(f, name, w)
  {
  }
}
