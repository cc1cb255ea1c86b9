/** From a stored row to the daemons: every field arrives where it belongs. The
    short names T and O for the tables and their ownership come with `System`. */
module Delivery {
  import opened Common
  import opened Text
  import opened Netip
  import opened Host
  import opened Reconciler
  import opened Agreement
  import opened Configs
  import opened Convergence
  import opened Runs
  import opened System
  import opened Scripts
  import D = Daemons

  /** The definition carries the row's own fields and the resolver's answer. */
  predicate DefOf(d: Definition, r: T.Row, i: Input) {
    && d.name == r.name && d.host == r.host && d.addr == i.resolve(r.host)
    && d.psk == r.psk && d.user == r.user && d.password == r.password
    && d.subnets == O.Subnets(r)
  }

  /** The fingerprint a row calls for. */
  function RowText(r: T.Row, i: Input): string {
    r.host + "|" + i.resolve(r.host) + "|" + r.psk + "|" + r.user + "|" + r.password + "|" + Join(O.Subnets(r))
  }

  predicate IsEnabled(t: T.State, r: T.Row) {
    r in t.rows && r.enabled
  }

  /** The definitions are those of the enabled rows, one each. */
  ghost predicate DefsOfRows(t: T.State, i: Input, defs: seq<Definition>) {
    && DefsDistinct(defs)
    && (forall r :: IsEnabled(t, r) ==> exists d :: d in defs && DefOf(d, r, i))
    && (forall d :: d in defs ==> exists r :: IsEnabled(t, r) && DefOf(d, r, i))
  }

  lemma {:induction false} DesiredAt(conns: seq<T.Connection>, i: Input, k: nat)
    requires DesiredTunnels(conns, i).Some? && k < |conns|
    ensures var defs, conn := DesiredTunnels(conns, i).value, conns[k];
      && |defs| == |conns| && i.secretsOf(conn.id).Some?
      && var s := i.secretsOf(conn.id).value;
      defs[k] == Definition(conn.name, conn.host, i.resolve(conn.host), s.psk, conn.user, s.password, conn.subnets)
    decreases |conns|
  {
    if k > 0 {
      DesiredAt(conns[1..], i, k - 1);
    } else {
      DesiredSpec(conns, i);
    }
  }

  /** A connection with the secrets of its row gives that row's definition. */
  lemma DefFromScan(t: T.State, i: Input, conns: seq<T.Connection>, k: nat, r: T.Row)
    requires DesiredTunnels(conns, i).Some? && k < |conns| && conns[k] == T.Scan(r) && r in t.rows && ReadFrom(t, i)
    ensures |DesiredTunnels(conns, i).value| == |conns| && DefOf(DesiredTunnels(conns, i).value[k], r, i)
  {
    hide DesiredTunnels, T.SplitSubnets, T.List;
    DesiredAt(conns, i, k);
  }

  lemma RowsDesired(c: Codec, t: T.State, i: Input)
    requires Faithful(c) && O.Owned(c, t) && ReadFrom(t, i)
    requires i.conns.Some? && DesiredTunnels(Enabled(i.conns.value), i).Some?
    ensures DefsOfRows(t, i, DesiredTunnels(Enabled(i.conns.value), i).value)
  {
    hide Faithful, O.Owned, T.List, Enabled, DesiredTunnels, T.Scan, GoodConns, NamesDistinct, DefsDistinct, DefOf,
         Describes;
    var conns := Enabled(i.conns.value);
    var defs := DesiredTunnels(conns, i).value;
    StoreGivesGoodConns(c, t);
    GoodNames(conns);
    DesiredSpec(conns, i);
    DescribesNames(conns, defs);
    ListedRows(t);
    forall r | IsEnabled(t, r) ensures exists d :: d in defs && DefOf(d, r, i) {
      var k :| 0 <= k < |conns| && conns[k] == T.Scan(r);
      DefFromScan(t, i, conns, k, r);
      assert defs[k] in defs;
    }
    forall d | d in defs ensures exists r :: IsEnabled(t, r) && DefOf(d, r, i) {
      SameLength(conns, defs);
      var k :| 0 <= k < |defs| && defs[k] == d;
      assert conns[k] in conns;
      var r :| IsEnabled(t, r) && T.Scan(r) == conns[k];
      DefFromScan(t, i, conns, k, r);
    }
  }

  lemma SameLength(conns: seq<T.Connection>, defs: seq<Definition>)
    requires Describes(conns, defs)
    ensures |defs| == |conns|
  {
  }

  /** The enabled part of the listing is the enabled rows. */
  lemma ListedRows(t: T.State)
    ensures var conns := Enabled(T.List(t.rows));
      && (forall r :: IsEnabled(t, r) ==> T.Scan(r) in conns)
      && (forall x :: x in conns ==> exists r :: IsEnabled(t, r) && T.Scan(r) == x)
  {
    hide T.List, Enabled, T.SplitSubnets;
    var conns := Enabled(T.List(t.rows));
    EnabledSpec(T.List(t.rows));
    O.ListMembers(t.rows);
    forall x | x in conns ensures exists r :: IsEnabled(t, r) && T.Scan(r) == x {
      assert x in T.List(t.rows);
      var r :| r in t.rows && T.Scan(r) == x;
      assert IsEnabled(t, r);
    }
  }

  lemma TextOf(d: Definition, r: T.Row, i: Input)
    requires DefOf(d, r, i)
    ensures Fingerprint(d) == RowText(r, i)
  {
    hide Join;
  }

  lemma RenderedFromRows(t: T.State, i: Input, defs: seq<Definition>)
    requires DefsOfRows(t, i, defs)
    ensures forall n :: n in Fingerprints(defs) <==> exists r :: IsEnabled(t, r) && r.name == n
    ensures forall r :: IsEnabled(t, r) ==> r.name in Fingerprints(defs) && Fingerprints(defs)[r.name] == RowText(r, i)
  {
    hide Fingerprints, Fingerprint, RowText, O.Subnets, DefsDistinct;
    FingerprintsSpec(defs);
    forall r | IsEnabled(t, r) ensures r.name in Fingerprints(defs) && Fingerprints(defs)[r.name] == RowText(r, i) {
      var d :| d in defs && DefOf(d, r, i);
      TextOf(d, r, i);
    }
    forall n | n in Fingerprints(defs) ensures exists r :: IsEnabled(t, r) && r.name == n {
      assert n in DefNames(defs);
      var d :| d in defs && d.name == n;
      var r :| IsEnabled(t, r) && DefOf(d, r, i);
    }
  }

  /** Some command of a script defines the tunnel as the row says. */
  ghost predicate Defines(script: seq<Command>, r: T.Row, i: Input) {
    exists d :: DefOf(d, r, i) && LacAdd(d) in script
  }

  /** The script of a listed tunnel defines it anew exactly when its definition
      changed. */
  lemma ScriptDefines(f: Fleet, f': Fleet, n: string, changed: seq<Definition>, script: seq<Command>)
    requires LoopScript(f, f', n, true, changed, script)
    ensures forall d :: LacAdd(d) in script <==> Wanted(changed, n) == Some(d)
  {
    WantedSpec(changed, n);
  }

  /** After a Reconcile that reads the store and writes what it wants, in any
      reachable state of any environment: the fingerprints are those of the
      enabled rows; if they are new, charon runs with a definition of every such
      row, field by field; and xl2tpd is given one for exactly the rows whose
      fingerprint is new. */
  lemma RowsReachDaemons(c: Codec, o: Setup, s: Sys, acts: seq<Act>, i: Input, r: T.Row) returns (script: seq<Command>)
    requires Faithful(c) && SysInitial(s) && PossibleActs(c, o, s, acts)
    requires var s' := ActAll(c, o, s, acts);
      && ReadFrom(s'.tables, i) && StaleOrdered(s'.fleet, i) && i.conns.Some? && D.WriteOk(o, s'.fleet, i)
      && IsEnabled(s'.tables, r)
    ensures var s' := ActAll(c, o, s, acts);
      var f, f' := s'.fleet, Reconcile(o, s'.fleet, i).0;
      && (forall n :: n in f'.rendered <==> exists q :: IsEnabled(s'.tables, q) && q.name == n)
      && r.name in f'.rendered && f'.rendered[r.name] == RowText(r, i)
      && (f'.rendered != f.rendered ==> DefsOfRows(s'.tables, i, f'.world.loaded))
      && Says(f.world, f'.world, r.name, script)
      && (Lookup(f.rendered, r.name) != RowText(r, i) ==> Defines(script, r, i))
      && (Lookup(f.rendered, r.name) == RowText(r, i) ==> forall d :: LacAdd(d) !in script)
  {
    hide Faithful, PossibleActs, ActAll, ReadFrom, StaleOrdered, D.WriteOk, Reconcile, Consistent, DefsOfRows, RowText,
         Says, Defines, Enabled, Filed, ProperInput, GoodInput;
    var s' := ActAll(c, o, s, acts);
    InitialConsistent(c, s);
    PossibleActsKeep(c, o, s, acts);
    ReconcileInput(c, s', i);
    assert Filed(s'.fleet.tunnels) && O.Owned(c, s'.tables) by { ConsistentFiled(c, s'); }
    assert ProperInput(s'.fleet, i) by { Proper(s'.fleet, i); }
    script := ReconcileDelivers(c, o, s', i, r);
  }

  lemma Proper(f: Fleet, i: Input)
    requires StaleOrdered(f, i) && (i.conns.Some? ==> NamesDistinct(Enabled(i.conns.value)))
    ensures ProperInput(f, i)
  {
  }

  lemma ConsistentFiled(c: Codec, s: Sys)
    requires Consistent(c, s)
    ensures Filed(s.fleet.tunnels) && O.Owned(c, s.tables)
  {
    forall n | n in s.fleet.tunnels ensures s.fleet.tunnels[n].name == n {
      assert Traces.TunnelPaced(s.fleet.tunnels[n], n, s.fleet.world);
    }
  }

  lemma ReconcileDelivers(c: Codec, o: Setup, s: Sys, i: Input, r: T.Row) returns (script: seq<Command>)
    requires Faithful(c) && O.Owned(c, s.tables) && ReadFrom(s.tables, i) && Filed(s.fleet.tunnels)
    requires ProperInput(s.fleet, i) && i.conns.Some? && D.WriteOk(o, s.fleet, i) && IsEnabled(s.tables, r)
    ensures var f, f' := s.fleet, Reconcile(o, s.fleet, i).0;
      && (forall n :: n in f'.rendered <==> exists q :: IsEnabled(s.tables, q) && q.name == n)
      && r.name in f'.rendered && f'.rendered[r.name] == RowText(r, i)
      && (f'.rendered != f.rendered ==> DefsOfRows(s.tables, i, f'.world.loaded))
      && Says(f.world, f'.world, r.name, script)
      && (Lookup(f.rendered, r.name) != RowText(r, i) ==> Defines(script, r, i))
      && (Lookup(f.rendered, r.name) == RowText(r, i) ==> forall d :: LacAdd(d) !in script)
  {
    hide Faithful, O.Owned, ReadFrom, Filed, NamesDistinct, Distinct, Enabled, WriteConfigs, RedefineEach, StepEach,
         Advertise, DisconnectEach, DesiredTunnels, Fingerprints, ChangedTunnels, DefsOfRows, RowText, Says, LoopScript,
         DefOf, ConnNames;
    var f, conns := s.fleet, Enabled(i.conns.value);
    var f1 := RemoveStale(o, f, i.staleOrder);
    var (f2, changed) := WriteConfigs(o, f1, conns, i);
    D.WriteLoads(o, f1, conns, i);
    var defs := DesiredTunnels(conns, i).value;
    RowsDesired(c, s.tables, i);
    RenderedFromRows(s.tables, i, defs);
    ChangedNames(o, f1, conns, i);
    LoopsQuiet(o, f2, changed.value, conns, i);
    script := ReconcileScript(o, f, i, r.name);
    RowListed(c, s.tables, i, r);
    ScriptDefines(f2, Reconcile(o, f, i).0, r.name, changed.value, script);
    WantedSpec(changed.value, r.name);
    ChangedSpec(f.rendered, f2.rendered, defs);
    var d := RowDef(s.tables, i, defs, r);
    if Wanted(changed.value, r.name).Some? {
      D.SameNamed(defs, d, Wanted(changed.value, r.name).value);
    } else {
      assert d !in changed.value by { NotAmong(changed.value, d); }
    }
  }

  lemma NotAmong(defs: seq<Definition>, d: Definition)
    requires d.name !in DefNames(defs)
    ensures d !in defs
  {
  }

  lemma RowDef(t: T.State, i: Input, defs: seq<Definition>, r: T.Row) returns (d: Definition)
    requires DefsOfRows(t, i, defs) && IsEnabled(t, r)
    ensures d in defs && DefOf(d, r, i) && d.name == r.name && DefsDistinct(defs)
  {
    d :| d in defs && DefOf(d, r, i);
  }

  lemma RowListed(c: Codec, t: T.State, i: Input, r: T.Row)
    requires ReadFrom(t, i) && i.conns.Some? && IsEnabled(t, r)
    ensures r.name in ConnNames(Enabled(i.conns.value))
  {
    hide T.List, Enabled;
    ListedRows(t);
    assert T.Scan(r) in Enabled(i.conns.value);
  }

  /** The loops load nothing and forget no fingerprint. */
  lemma LoopsQuiet(o: Setup, f: Fleet, changed: seq<Definition>, conns: seq<T.Connection>, i: Input)
    requires NamesDistinct(conns)
    ensures var f' := Advertise(o, StepEach(o, RedefineEach(o, f, changed), conns), i).0;
      f'.rendered == f.rendered && f'.world.loaded == f.world.loaded
  {
    hide RedefineEach, StepEach, Advertise, NamesDistinct;
    var f3 := RedefineEach(o, f, changed);
    RedefineEachRecords(o, f, changed);
    D.RedefineEachLoaded(o, f, changed);
    D.StepEachLacs(o, f3, conns);
    StepEachRecords(o, f3, conns);
    D.AdvertiseLacs(o, StepEach(o, f3, conns), i);
    AdvertiseFrame(o, StepEach(o, f3, conns), i);
  }
}
