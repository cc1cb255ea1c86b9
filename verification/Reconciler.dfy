/** What the reconciler's entry points do, as functions of the fleet: its tunnel
    states, its memory of what it rendered and advertised, and the host. */
module Reconciler {
  import opened Common
  import opened Text
  import opened Netip
  import opened Tables
  import opened Host

  const MIN_REDIAL: nat := 10 * SECOND
  const MAX_REDIAL: nat := 300 * SECOND

  datatype Phase = Disconnected | Connecting | Up | Failed

  /** A tunnel's state. Time 0 is Go's zero time, which is before every clock
      reading. */
  datatype Tunnel = Tunnel(
    id: int, name: string, subnets: seq<string>, iface: string,
    phase: Phase, failures: nat, dialedAt: nat, retryAt: nat)

  datatype Fleet = Fleet(
    tunnels: map<string, Tunnel>, rendered: map<string, string>, advertised: string, world: World)

  datatype Setup = Setup(env: Env, dialTimeout: nat, tailnet: bool)

  /** What one `Reconcile` reads: the store's listing (`None` for an error), its
      decrypted secrets, the resolver's answers ("" when it has none), the order
      in which the tunnel map yields the stale names, and the routes to
      advertise. */
  datatype Input = Input(
    conns: Option<seq<Connection>>, secretsOf: int -> Option<Secrets>, resolve: string -> string,
    staleOrder: seq<string>, routes: Option<seq<string>>)

  // ----- backoff

  function Wrap64(v: int): int {
    var u := v % 0x1_0000_0000_0000_0000;
    if u < 0x8000_0000_0000_0000 then u else u - 0x1_0000_0000_0000_0000
  }

  lemma Powers()
    ensures Pow2(5) == 32 && Pow2(16) == 65536
  {
    assert Pow2(2) == 4;
    PowAdd(2, 2);
    PowAdd(4, 4);
    PowAdd(8, 8);
    PowAdd(1, 4);
  }

  /** The shifted value: at most 16 places, so the product fits in 63 bits. */
  lemma ShiftFits(k: nat)
    requires k <= 16
    ensures Pow2(k) <= 65536
    ensures MIN_REDIAL <= MIN_REDIAL * Pow2(k) < 0x8000_0000_0000_0000
  {
    hide Pow2;
    PowMonotone(k, 16);
    Powers();
  }

  /** `redialDelay`: a shift of a 64-bit duration, capped. */
  function RedialDelay(failures: nat): (wait: nat)
    requires failures >= 1
    ensures MIN_REDIAL <= wait <= MAX_REDIAL
  {
    ShiftFits(Min(failures - 1, 16));
    Min(Wrap64(MIN_REDIAL * Pow2(Min(failures - 1, 16))), MAX_REDIAL)
  }

  /** Each further failure doubles the wait until the cap: the shift's own cap at
      16 places and its 64-bit width never show. */
  lemma BackoffExact(failures: nat)
    requires failures >= 1
    ensures RedialDelay(failures) == Min(10 * SECOND * Pow2(failures - 1), 300 * SECOND)
    ensures RedialDelay(failures) <= RedialDelay(failures + 1)
  {
    hide Pow2;
    var m, n := Min(failures - 1, 16), Min(failures, 16);
    DelayOf(failures);
    DelayOf(failures + 1);
    PowMonotone(m, n);
    PowMonotone(m, failures - 1);
    Powers();
  }

  /** The wait without its machine arithmetic. */
  lemma DelayOf(failures: nat)
    requires failures >= 1
    ensures RedialDelay(failures) == Min(MIN_REDIAL * Pow2(Min(failures - 1, 16)), MAX_REDIAL)
  {
    hide Pow2;
    ShiftFits(Min(failures - 1, 16));
  }

  // ----- configuration (fingerprintsOf, changedTunnels, writeConfigs)

  function Fingerprint(d: Definition): string {
    d.host + "|" + d.addr + "|" + d.psk + "|" + d.user + "|" + d.password + "|" + Join(d.subnets)
  }

  function Fingerprints(defs: seq<Definition>): map<string, string> {
    if defs == [] then map[]
    else
      var last := |defs| - 1;
      Fingerprints(defs[..last])[defs[last].name := Fingerprint(defs[last])]
  }

  /** Go's map read: the zero value when the key is missing. */
  function Lookup(m: map<string, string>, key: string): string {
    if key in m then m[key] else ""
  }

  function ChangedTunnels(rendered: map<string, string>, wanted: map<string, string>, defs: seq<Definition>): seq<Definition> {
    if defs == [] then []
    else
      (if Lookup(rendered, defs[0].name) != Lookup(wanted, defs[0].name) then [defs[0]] else [])
      + ChangedTunnels(rendered, wanted, defs[1..])
  }

  function FromConnection(conn: Connection, s: Secrets, addr: string): Definition {
    Definition(conn.name, conn.host, addr, s.psk, conn.user, s.password, conn.subnets)
  }

  /** `desiredTunnels`: no answer when a connection's secrets cannot be read. */
  function DesiredTunnels(conns: seq<Connection>, i: Input): Option<seq<Definition>> {
    if conns == [] then Some([])
    else
      var s := i.secretsOf(conns[0].id);
      if s.None? then None
      else
        var rest := DesiredTunnels(conns[1..], i);
        if rest.None? then None
        else Some([FromConnection(conns[0], s.value, i.resolve(conns[0].host))] + rest.value)
  }

  /** Loads the daemons when anything differs from what they last got; `None`
      is an error, otherwise the tunnels that changed. */
  function WriteConfigs(o: Setup, f: Fleet, conns: seq<Connection>, i: Input): (Fleet, Option<seq<Definition>>) {
    var desired := DesiredTunnels(conns, i);
    if desired.None? then (f, None)
    else
      var wanted := Fingerprints(desired.value);
      var changed := ChangedTunnels(f.rendered, wanted, desired.value);
      if changed == [] && |f.rendered| == |wanted| then (f, Some([]))
      else
        var (w1, a) := Run(o.env, f.world, WriteFiles(desired.value));
        if a != Done then (f.(world := w1), None)
        else
          var (w2, b) := Run(o.env, w1, LoadAll);
          if b != Done then (f.(world := w2), None)
          else (f.(world := w2, rendered := wanted), Some(changed))
  }

  // ----- one tunnel

  function TearDownIf(o: Setup, w: World, iface: string, subnets: seq<string>): World {
    if iface == "" then w else TearDown(o.env, w, iface, subnets)
  }

  function Dropped(t: Tunnel): Tunnel {
    t.(phase := Disconnected, iface := "", failures := 0, retryAt := 0)
  }

  function Drop(o: Setup, f: Fleet, name: string): Fleet {
    if name !in f.tunnels then f
    else
      var t := f.tunnels[name];
      var w1 := TearDownIf(o, f.world, t.iface, t.subnets);
      var w2 := Run(o.env, w1, LacDisconnect(name)).0;
      var w3 := Run(o.env, w2, Terminate(name)).0;
      f.(tunnels := f.tunnels[name := Dropped(t)], world := w3)
  }

  function FailedAt(t: Tunnel, now: nat): Tunnel {
    t.(phase := Failed, failures := t.failures + 1, retryAt := now + RedialDelay(t.failures + 1))
  }

  function Fail(o: Setup, f: Fleet, name: string, iface: string): Fleet {
    if name !in f.tunnels then f
    else
      var t := f.tunnels[name];
      var w := TearDownIf(o, f.world, iface, t.subnets);
      f.(tunnels := f.tunnels[name := FailedAt(t.(iface := ""), w.time)], world := w)
  }

  function Disconnect(o: Setup, w: World, t: Tunnel): World {
    var w1 := TearDownIf(o, w, t.iface, t.subnets);
    var w2 := Run(o.env, w1, LacDisconnect(t.name)).0;
    var w3 := Run(o.env, w2, LacRemove(t.name)).0;
    Run(o.env, w3, Terminate(t.name)).0
  }

  function DialFailed(f: Fleet, name: string, w: World): Fleet
    requires name in f.tunnels
  {
    f.(tunnels := f.tunnels[name := FailedAt(f.tunnels[name], w.time)], world := w)
  }

  function Dial(o: Setup, f: Fleet, name: string): Fleet {
    if name !in f.tunnels then f
    else
      var w1 := Run(o.env, f.world, LacDisconnect(name)).0;
      var (w2, a) := Run(o.env, w1, Initiate(name));
      if a != Done then DialFailed(f, name, w2)
      else
        var (w3, b) := Run(o.env, w2, LacConnect(name));
        if b != Done then DialFailed(f, name, w3) else MarkConnecting(f.(world := w3), name)
  }

  /** The dial's last lock section: the tunnel now waits for its interface. */
  function MarkConnecting(f: Fleet, name: string): Fleet
    requires name in f.tunnels
  {
    f.(tunnels := f.tunnels[name := f.tunnels[name].(phase := Connecting, dialedAt := f.world.time)])
  }

  /** The tunnel as `step` finds it, with id and subnets brought up to date. */
  function Refreshed(f: Fleet, conn: Connection): Tunnel {
    (if conn.name in f.tunnels then f.tunnels[conn.name]
     else Tunnel(conn.id, conn.name, [], "", Disconnected, 0, 0, 0)).(id := conn.id, subnets := conn.subnets)
  }

  /** A tunnel the next step will act on. */
  predicate Due(o: Setup, t: Tunnel, now: nat) {
    match t.phase
    case Up => false
    case Connecting => now - t.dialedAt >= o.dialTimeout
    case Disconnected | Failed => now >= t.retryAt
  }

  function Step(o: Setup, f: Fleet, conn: Connection): Fleet {
    var t := Refreshed(f, conn);
    var f' := f.(tunnels := f.tunnels[conn.name := t]);
    match t.phase
    case Up => f'
    case Connecting =>
      if f.world.time - t.dialedAt < o.dialTimeout then f' else Fail(o, f', conn.name, t.iface)
    case Disconnected | Failed =>
      if f.world.time < t.retryAt then f' else Dial(o, f', conn.name)
  }

  // ----- Reconcile

  function Enabled(conns: seq<Connection>): seq<Connection> {
    if conns == [] then []
    else (if conns[0].enabled then [conns[0]] else []) + Enabled(conns[1..])
  }

  function ConnNames(conns: seq<Connection>): set<string> {
    set conn | conn in conns :: conn.name
  }

  function DisconnectEach(o: Setup, w: World, tunnels: map<string, Tunnel>, names: seq<string>): World
    decreases |names|
  {
    if names == [] then w
    else
      DisconnectEach(o, if names[0] in tunnels then Disconnect(o, w, tunnels[names[0]]) else w, tunnels, names[1..])
  }

  function RemoveStale(o: Setup, f: Fleet, stale: seq<string>): Fleet {
    f.(tunnels := f.tunnels - (set n | n in stale), world := DisconnectEach(o, f.world, f.tunnels, stale))
  }

  /** Drop a changed tunnel and give xl2tpd its new definition. */
  function Redefine(o: Setup, f: Fleet, def: Definition): Fleet {
    var f1 := Drop(o, f, def.name);
    var w2 := Run(o.env, f1.world, LacRemove(def.name)).0;
    var w3 := Run(o.env, w2, LacAdd(def)).0;
    f1.(world := w3)
  }

  function RedefineEach(o: Setup, f: Fleet, defs: seq<Definition>): Fleet
    decreases |defs|
  {
    if defs == [] then f else RedefineEach(o, Redefine(o, f, defs[0]), defs[1..])
  }

  function StepEach(o: Setup, f: Fleet, conns: seq<Connection>): Fleet
    decreases |conns|
  {
    if conns == [] then f else StepEach(o, Step(o, f, conns[0]), conns[1..])
  }

  function Advertise(o: Setup, f: Fleet, i: Input): (Fleet, bool) {
    if i.routes.None? then (f, false)
    else
      var routes := Sort(i.routes.value);
      if Join(routes) == f.advertised || !o.tailnet then (f, true)
      else
        var (w, a) := Run(o.env, f.world, SetRoutes(routes));
        if a != Done then (f.(world := w), false) else (f.(world := w, advertised := Join(routes)), true)
  }

  function Reconcile(o: Setup, f: Fleet, i: Input): (Fleet, bool) {
    if i.conns.None? then (f, false)
    else
      var enabled := Enabled(i.conns.value);
      var f1 := RemoveStale(o, f, i.staleOrder);
      var (f2, changed) := WriteConfigs(o, f1, enabled, i);
      if changed.None? then (f2, false)
      else Advertise(o, StepEach(o, RedefineEach(o, f2, changed.value), enabled), i)
  }

  /** The stale names are the tunnels no enabled connection asks for, each once. */
  ghost predicate StaleOrdered(f: Fleet, i: Input) {
    i.conns.Some? ==>
      && Distinct(i.staleOrder)
      && forall n :: n in i.staleOrder <==> n in f.tunnels && n !in ConnNames(Enabled(i.conns.value))
  }

  // ----- hooks and events

  function PPPUp(o: Setup, f: Fleet, name: string, iface: string): (Fleet, bool) {
    if name !in f.tunnels then (f, false)
    else
      var t := f.tunnels[name];
      var (w1, routed) := AddRoutes(o.env, f.world, iface, t.subnets);
      if !routed then (Fail(o, f.(world := w1), name, iface), false)
      else
        var (w2, natted) := EnableNAT(o.env, w1, iface);
        if !natted then (Fail(o, f.(world := w2), name, iface), false)
        else
          (f.(tunnels := f.tunnels[name := t.(iface := iface, phase := Up, failures := 0, retryAt := 0)], world := w2), true)
  }

  function PPPDown(o: Setup, f: Fleet, name: string, iface: string): (Fleet, bool) {
    if name !in f.tunnels then (f, false)
    else
      var t := f.tunnels[name];
      var dev := if iface == "" then t.iface else iface;
      var w := TearDownIf(o, f.world, dev, t.subnets);
      (f.(tunnels := f.tunnels[name := t.(iface := "", phase := Disconnected, retryAt := w.time + MIN_REDIAL)], world := w), true)
  }

  function Unhealthy(o: Setup, f: Fleet, name: string): Fleet {
    if name !in f.tunnels then f else Fail(o, f, name, f.tunnels[name].iface)
  }

  function Invalidate(f: Fleet): Fleet {
    f.(rendered := map[])
  }

  function FromFiles(defs: seq<Definition>): map<string, Definition> {
    if defs == [] then map[]
    else
      var last := |defs| - 1;
      FromFiles(defs[..last])[defs[last].name := defs[last]]
  }

  datatype Event =
    | Reconciled(input: Input)
    | WentUp(name: string, iface: string)
    | WentDown(name: string, iface: string)
    | FoundUnhealthy(name: string)
    | CharonRestarted
    | XL2TPDRestarted
    | Ticked(elapsed: nat)
    | Vanished(iface: string)

  /** One entry point run to completion, or the host changing on its own. A
      restarted charon has nothing loaded, a restarted xl2tpd reads the rendered
      file; both are followed by `Invalidate`. An interface that vanishes takes
      its routes with it. */
  function Next(o: Setup, f: Fleet, e: Event): Fleet {
    match e
    case Reconciled(i) => Reconcile(o, f, i).0
    case WentUp(name, iface) => PPPUp(o, f, name, iface).0
    case WentDown(name, iface) => PPPDown(o, f, name, iface).0
    case FoundUnhealthy(name) => Unhealthy(o, f, name)
    case CharonRestarted => Invalidate(f.(world := f.world.(loaded := [])))
    case XL2TPDRestarted => Invalidate(f.(world := f.world.(lacs := FromFiles(f.world.files))))
    case Ticked(elapsed) => f.(world := f.world.(time := f.world.time + elapsed))
    case Vanished(iface) =>
      f.(world := f.world.(routes := map s | s in f.world.routes && f.world.routes[s] != iface :: f.world.routes[s]))
  }

  predicate Fresh(w: World) {
    w.routes == map[] && w.rules == multiset{} && w.trace == [] && w.lacs == map[] && w.loaded == []
  }

  /** A new manager on a host it has not touched. */
  predicate Initial(f: Fleet) {
    f.tunnels == map[] && f.rendered == map[] && f.advertised == "" && Fresh(f.world)
  }
}
