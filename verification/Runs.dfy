/** Whole runs of the reconciler: the kernel agrees with the fleet after every
    sequence of events. */
module Runs {
  import opened Text
  import opened Tables
  import opened Host
  import opened Reconciler
  import opened Agreement
  import opened Configs
  import opened Convergence

  // ----- the invariant

  ghost predicate PlainSubnets(ts: map<string, Tunnel>) {
    forall n :: n in ts ==> AllPlain(ts[n].subnets)
  }

  predicate Disjoint(xs: seq<string>, ys: seq<string>) {
    forall s :: s in xs ==> s !in ys
  }

  /** No destination belongs to two tunnels, up or not. */
  ghost predicate Private(ts: map<string, Tunnel>) {
    forall n, m :: n in ts && m in ts && n != m ==> Disjoint(ts[n].subnets, ts[m].subnets)
  }

  /** What was rendered for a tunnel ends in the subnets the tunnel now has. */
  ghost predicate Linked(f: Fleet) {
    forall n :: n in f.tunnels && n in f.rendered ==> Ends(f.rendered[n], f.tunnels[n].subnets)
  }

  ghost predicate Sound(f: Fleet) {
    PlainSubnets(f.tunnels) && Private(f.tunnels) && Linked(f)
  }

  ghost predicate Inv(f: Fleet) {
    Calm(f) && Sound(f)
  }

  /** What the store guarantees of a listing: unique names, canonical subnets,
      no destination shared between enabled connections. */
  ghost predicate GoodConns(conns: seq<Connection>) {
    && NamesDistinct(conns)
    && (forall c :: c in conns ==> AllPlain(c.subnets))
    && (forall c, c' :: c in conns && c' in conns && c.name != c'.name ==> Disjoint(c.subnets, c'.subnets))
  }

  ghost predicate GoodInput(f: Fleet, i: Input) {
    StaleOrdered(f, i) && (i.conns.Some? ==> GoodConns(Enabled(i.conns.value)))
  }

  // ----- Reconcile

  lemma SoundSubset(f: Fleet, f': Fleet)
    requires Sound(f) && (f'.rendered == f.rendered || f'.rendered == map[])
    requires forall n :: n in f'.tunnels ==> n in f.tunnels && f'.tunnels[n].subnets == f.tunnels[n].subnets
    ensures Sound(f')
  {
    hide AllPlain, Ends;
  }

  /** After a good write, `rendered` is the wanted map and a live tunnel that is
      not among the changed ones already has its connection's subnets. */
  lemma WriteConfigsSpec(o: Setup, f: Fleet, conns: seq<Connection>, i: Input)
    requires Sound(f) && GoodConns(conns)
    ensures var (f', changed) := WriteConfigs(o, f, conns, i);
      match changed
      case None => f'.rendered == f.rendered
      case Some(defs) =>
        && DesiredTunnels(conns, i).Some?
        && f'.rendered == Fingerprints(DesiredTunnels(conns, i).value)
        && forall conn :: conn in conns && conn.name in f.tunnels && conn.name !in DefNames(defs) ==>
             f.tunnels[conn.name].subnets == conn.subnets
  {
    hide Run, Fingerprints, ChangedTunnels, DesiredTunnels, Sound, GoodConns, DefNames;
    var (f', changed) := WriteConfigs(o, f, conns, i);
    if changed.Some? {
      var defs := DesiredTunnels(conns, i).value;
      DesiredSpec(conns, i);
      GoodNames(conns);
      DescribesNames(conns, defs);
      SkipExact(f.rendered, defs);
      assert changed.value == ChangedTunnels(f.rendered, Fingerprints(defs), defs);
      forall conn | conn in conns && conn.name in f.tunnels && conn.name !in DefNames(changed.value)
        ensures f.tunnels[conn.name].subnets == conn.subnets
      {
        UnchangedSubnets(f, conns, defs, conn);
      }
    }
  }

  /** A tunnel that keeps its fingerprint keeps its subnets. */
  lemma UnchangedSubnets(f: Fleet, conns: seq<Connection>, defs: seq<Definition>, conn: Connection)
    requires Sound(f) && GoodConns(conns) && Describes(conns, defs)
    requires conn in conns && conn.name in f.tunnels
    requires conn.name !in DefNames(ChangedTunnels(f.rendered, Fingerprints(defs), defs))
    ensures f.tunnels[conn.name].subnets == conn.subnets
  {
    hide Fingerprints, ChangedTunnels, Fingerprint, AllPlain, Ends, Disjoint, Private;
    var wanted := Fingerprints(defs);
    DescribesNames(conns, defs);
    ChangedSpec(f.rendered, wanted, defs);
    FingerprintsSpec(defs);
    var d :| d in defs && d.name == conn.name && d.subnets == conn.subnets;
    assert d !in ChangedTunnels(f.rendered, wanted, defs);
    assert Lookup(f.rendered, d.name) == Fingerprint(d);
    FingerprintSplit(d);
    FingerprintEnds(d);
    EndsUnique(Fingerprint(d), f.tunnels[conn.name].subnets, conn.subnets);
  }

  /** A subnet edit never strands a route: by the time `step` replaces a live
      tunnel's subnets, the new list is the old one, in any environment. */
  lemma NeverStranded(o: Setup, f: Fleet, conns: seq<Connection>, i: Input)
    requires Sound(f) && GoodConns(conns) && WriteConfigs(o, f, conns, i).1.Some?
    ensures var (f2, changed) := WriteConfigs(o, f, conns, i);
      Aligned(RedefineEach(o, f2, changed.value), conns)
  {
    hide WriteConfigs, RedefineEach, Sound, DefNames, GoodConns;
    var (f2, changed) := WriteConfigs(o, f, conns, i);
    WriteConfigsSpec(o, f, conns, i);
    WriteConfigsFrame(o, f, conns, i);
    RedefineEachRecords(o, f2, changed.value);
  }

  lemma AdoptedSound(f: Fleet, conns: seq<Connection>, i: Input)
    requires GoodConns(conns) && Adopted(f.tunnels, conns) && f.tunnels.Keys == ConnNames(conns)
    requires DesiredTunnels(conns, i).Some? && f.rendered == Fingerprints(DesiredTunnels(conns, i).value)
    ensures Sound(f)
  {
    hide DesiredTunnels, Fingerprints;
    DesiredSpec(conns, i);
    AdoptedLinked(f, conns, DesiredTunnels(conns, i).value);
    AdoptedPrivate(f.tunnels, conns);
  }

  lemma AdoptedBy(ts: map<string, Tunnel>, conns: seq<Connection>, n: string) returns (conn: Connection)
    requires Adopted(ts, conns) && ts.Keys == ConnNames(conns) && n in ts
    ensures conn in conns && conn.name == n && ts[n].subnets == conn.subnets
  {
    assert n in ConnNames(conns);
    conn :| conn in conns && conn.name == n;
  }

  lemma AdoptedPrivate(ts: map<string, Tunnel>, conns: seq<Connection>)
    requires GoodConns(conns) && Adopted(ts, conns) && ts.Keys == ConnNames(conns)
    ensures PlainSubnets(ts) && Private(ts)
  {
    hide AllPlain, Disjoint, Adopted, ConnNames;
    forall n | n in ts ensures AllPlain(ts[n].subnets) {
      var conn := AdoptedBy(ts, conns, n);
    }
    forall n, m | n in ts && m in ts && n != m ensures Disjoint(ts[n].subnets, ts[m].subnets) {
      var a := AdoptedBy(ts, conns, n);
      var b := AdoptedBy(ts, conns, m);
    }
  }

  lemma AdoptedLinked(f: Fleet, conns: seq<Connection>, defs: seq<Definition>)
    requires GoodConns(conns) && Adopted(f.tunnels, conns) && f.tunnels.Keys == ConnNames(conns)
    requires Describes(conns, defs) && f.rendered == Fingerprints(defs)
    ensures Linked(f)
  {
    hide Fingerprints, Fingerprint, AllPlain, Ends, Disjoint, Adopted, ConnNames;
    DescribesNames(conns, defs);
    FingerprintsSpec(defs);
    forall n | n in f.tunnels && n in f.rendered ensures Ends(f.rendered[n], f.tunnels[n].subnets) {
      var conn := AdoptedBy(f.tunnels, conns, n);
      var d :| d in defs && d.name == n && d.subnets == conn.subnets;
      FingerprintEnds(d);
    }
  }

  /** The fleet after the loops of a Reconcile whose write succeeded. */
  lemma LoopsKeep(o: Setup, f: Fleet, conns: seq<Connection>, i: Input)
    requires Tame(o.env) && Inv(f) && GoodConns(conns)
    requires f.tunnels.Keys <= ConnNames(conns) && WriteConfigs(o, f, conns, i).1.Some?
    ensures var (f2, changed) := WriteConfigs(o, f, conns, i);
      var f4 := StepEach(o, RedefineEach(o, f2, changed.value), conns);
      && Keeps(f, f4) && Sound(f4) && Adopted(f4.tunnels, conns)
      && f4.tunnels.Keys == ConnNames(conns)
      && DesiredTunnels(conns, i).Some? && f4.rendered == Fingerprints(DesiredTunnels(conns, i).value)
      && f4.advertised == f.advertised
  {
    hide WriteConfigs, RedefineEach, StepEach, Calm, Sound, Keeps, DesiredTunnels, Fingerprints, Adopted,
         Aligned, GoodConns;
    var (f2, changed) := WriteConfigs(o, f, conns, i);
    var f3 := RedefineEach(o, f2, changed.value);
    var f4 := StepEach(o, f3, conns);
    WriteConfigsSpec(o, f, conns, i);
    WriteConfigsFrame(o, f, conns, i);
    SameFleetKeeps(f, f2);
    KeepsCalm(f, f2);
    RedefineEachKeeps(o, f2, changed.value);
    KeepsCalm(f2, f3);
    NeverStranded(o, f, conns, i);
    GoodNames(conns);
    StepEachKeeps(o, f3, conns);
    KeepsThen(f, f2, f3);
    KeepsThen(f, f3, f4);
    assert f4.tunnels.Keys == ConnNames(conns);
    AdoptedSound(f4, conns, i);
  }

  lemma GoodNames(conns: seq<Connection>)
    requires GoodConns(conns)
    ensures NamesDistinct(conns)
  {
  }

  lemma StaleGone(o: Setup, f: Fleet, i: Input)
    requires Tame(o.env) && Inv(f) && GoodInput(f, i) && i.conns.Some?
    ensures var f1 := RemoveStale(o, f, i.staleOrder);
      && Keeps(f, f1) && Inv(f1) && f1.tunnels.Keys <= ConnNames(Enabled(i.conns.value))
      && f1.rendered == f.rendered && f1.advertised == f.advertised
  {
    hide Keeps, Calm, Sound, DisconnectEach, GoodConns, Enabled, ConnNames;
    var f1 := RemoveStale(o, f, i.staleOrder);
    RemoveStaleKeeps(o, f, i.staleOrder);
    KeepsCalm(f, f1);
    SoundSubset(f, f1);
  }

  lemma ReconcileKeeps(o: Setup, f: Fleet, i: Input)
    requires Tame(o.env) && Inv(f) && GoodInput(f, i)
    ensures Inv(Reconcile(o, f, i).0) && Keeps(f, Reconcile(o, f, i).0)
  {
    hide Keeps, Calm, Sound, RemoveStale, WriteConfigs, RedefineEach, StepEach, Advertise, GoodConns, Adopted,
         Enabled;
    if i.conns.None? {
      SameFleetKeeps(f, f);
    } else {
      var enabled := Enabled(i.conns.value);
      var f1 := RemoveStale(o, f, i.staleOrder);
      StaleGone(o, f, i);
      var (f2, changed) := WriteConfigs(o, f1, enabled, i);
      WriteConfigsFrame(o, f1, enabled, i);
      if changed.None? {
        WriteConfigsSpec(o, f1, enabled, i);
        SameFleetKeeps(f1, f2);
        KeepsThen(f, f1, f2);
        SoundSubset(f1, f2);
        KeepsCalm(f1, f2);
      } else {
        var f4 := StepEach(o, RedefineEach(o, f2, changed.value), enabled);
        LoopsKeep(o, f1, enabled, i);
        var f5 := Advertise(o, f4, i).0;
        AdvertiseFrame(o, f4, i);
        SameFleetKeeps(f4, f5);
        KeepsThen(f, f1, f4);
        KeepsThen(f, f4, f5);
        SoundSubset(f4, f5);
        KeepsCalm(f, f5);
      }
    }
  }

  // ----- what a Reconcile keeps in any environment

  /** Every tunnel that has an interface had it, and these subnets, before. */
  ghost predicate LiveAsBefore(f: Fleet, f': Fleet) {
    forall n :: n in f'.tunnels && f'.tunnels[n].iface != "" ==>
      n in f.tunnels && f.tunnels[n].iface == f'.tunnels[n].iface && f.tunnels[n].subnets == f'.tunnels[n].subnets
  }

  lemma LoopsSound(o: Setup, f: Fleet, conns: seq<Connection>, i: Input)
    requires Sound(f) && GoodConns(conns) && f.tunnels.Keys <= ConnNames(conns)
    requires WriteConfigs(o, f, conns, i).1.Some?
    ensures var (f2, changed) := WriteConfigs(o, f, conns, i);
      var f4 := StepEach(o, RedefineEach(o, f2, changed.value), conns);
      Sound(f4) && LiveAsBefore(f, f4)
  {
    hide WriteConfigs, RedefineEach, StepEach, Sound, DesiredTunnels, Fingerprints, GoodConns, Adopted, Aligned,
         ConnNames;
    var (f2, changed) := WriteConfigs(o, f, conns, i);
    var f3 := RedefineEach(o, f2, changed.value);
    var f4 := StepEach(o, f3, conns);
    WriteConfigsSpec(o, f, conns, i);
    WriteConfigsFrame(o, f, conns, i);
    RedefineEachRecords(o, f2, changed.value);
    GoodNames(conns);
    StepEachRecords(o, f3, conns);
    StepEachIfaces(o, f3, conns);
    assert f4.tunnels.Keys == ConnNames(conns);
    AdoptedSound(f4, conns, i);
    NeverStranded(o, f, conns, i);
    forall n | n in f4.tunnels && f4.tunnels[n].iface != "" ensures f3.tunnels[n].subnets == f4.tunnels[n].subnets {
      var conn := AdoptedBy(f4.tunnels, conns, n);
      AlignedAt(f3, conns, conn);
    }
  }

  lemma AlignedAt(f: Fleet, conns: seq<Connection>, conn: Connection)
    requires Aligned(f, conns) && conn in conns && conn.name in f.tunnels && f.tunnels[conn.name].iface != ""
    ensures f.tunnels[conn.name].subnets == conn.subnets
  {
    assert conn.name in Live(f.tunnels);
  }

  /** The subnets stay canonical, private and linked to the fingerprints, and no
      Reconcile changes what a live tunnel routes, in any environment. */
  lemma ReconcileSound(o: Setup, f: Fleet, i: Input)
    requires Sound(f) && GoodInput(f, i)
    ensures Sound(Reconcile(o, f, i).0) && LiveAsBefore(f, Reconcile(o, f, i).0)
  {
    hide WriteConfigs, RedefineEach, StepEach, Advertise, Enabled, DisconnectEach, Sound, GoodConns, ConnNames;
    if i.conns.Some? {
      var enabled := Enabled(i.conns.value);
      var f1 := RemoveStale(o, f, i.staleOrder);
      SoundSubset(f, f1);
      var (f2, changed) := WriteConfigs(o, f1, enabled, i);
      WriteConfigsFrame(o, f1, enabled, i);
      if changed.None? {
        WriteConfigsSpec(o, f1, enabled, i);
        SoundSubset(f1, f2);
      } else {
        assert f1.tunnels.Keys <= ConnNames(enabled);
        LoopsSound(o, f1, enabled, i);
        var f4 := StepEach(o, RedefineEach(o, f2, changed.value), enabled);
        AdvertiseFrame(o, f4, i);
        SoundSubset(f4, Advertise(o, f4, i).0);
      }
    }
  }

  lemma {:induction false} StepEachShape(o: Setup, f: Fleet, conns: seq<Connection>)
    requires Shape(f.tunnels)
    ensures Shape(StepEach(o, f, conns).tunnels)
    decreases |conns|
  {
    hide Step, ShapeOf;
    if conns != [] {
      StepFrame(o, f, conns[0]);
      StepEachShape(o, Step(o, f, conns[0]), conns[1..]);
    }
  }

  lemma ReconcileShape(o: Setup, f: Fleet, i: Input)
    requires Shape(f.tunnels)
    ensures Shape(Reconcile(o, f, i).0.tunnels)
  {
    hide WriteConfigs, RedefineEach, StepEach, Advertise, Enabled, DisconnectEach;
    if i.conns.Some? {
      var enabled := Enabled(i.conns.value);
      var f1 := RemoveStale(o, f, i.staleOrder);
      assert forall n :: n in f1.tunnels ==> ShapeOf(n, f.tunnels[n]);
      var (f2, changed) := WriteConfigs(o, f1, enabled, i);
      WriteConfigsFrame(o, f1, enabled, i);
      if changed.Some? {
        var f3 := RedefineEach(o, f2, changed.value);
        RedefineEachRecords(o, f2, changed.value);
        assert forall n :: n in f3.tunnels ==> ShapeOf(n, f2.tunnels[n]);
        StepEachShape(o, f3, enabled);
        AdvertiseFrame(o, StepEach(o, f3, enabled), i);
      }
    }
  }

  lemma ReconcileFiled(o: Setup, f: Fleet, i: Input)
    requires Filed(f.tunnels)
    ensures Filed(Reconcile(o, f, i).0.tunnels)
  {
    hide WriteConfigs, RedefineEach, StepEach, Advertise, Enabled, DisconnectEach;
    if i.conns.Some? {
      var enabled := Enabled(i.conns.value);
      var f1 := RemoveStale(o, f, i.staleOrder);
      var (f2, changed) := WriteConfigs(o, f1, enabled, i);
      WriteConfigsFrame(o, f1, enabled, i);
      if changed.Some? {
        var f3 := RedefineEach(o, f2, changed.value);
        RedefineEachRecords(o, f2, changed.value);
        StepEachIfaces(o, f3, enabled);
        AdvertiseFrame(o, StepEach(o, f3, enabled), i);
      }
    }
  }
}
