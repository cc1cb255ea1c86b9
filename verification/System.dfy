/** Store and reconciler together: what the store keeps disjoint stays disjoint
    in the kernel, also while the two are out of step. */
module System {
  import opened Common
  import opened Text
  import opened Netip
  import opened Host
  import opened Reconciler
  import opened Agreement
  import opened Runs
  import opened Hooks
  import opened Convergence
  import Traces
  import T = Tables
  import O = Ownership
  import A = Advertised

  datatype Sys = Sys(tables: T.State, fleet: Fleet)

  datatype Act = Edit(op: T.Op) | Happen(event: Event)

  /** What a Reconcile reads comes from the store as it then is; any of the
      reads may fail. */
  ghost predicate ReadFrom(t: T.State, i: Input) {
    && i.conns in {None, Some(T.List(t.rows))}
    && i.routes in {None, Some(A.Routes(t))}
    && forall r :: r in t.rows ==> i.secretsOf(r.id) in {None, Some(T.Secrets(r.psk, r.password))}
  }

  ghost predicate LegalAct(s: Sys, a: Act) {
    match a
    case Edit(op) => T.Legal(s.tables, op)
    case Happen(Reconciled(i)) => ReadFrom(s.tables, i) && StaleOrdered(s.fleet, i)
    case Happen(e) => LegalEvent(s.fleet, e)
  }

  /** Anything may happen, in any environment, as long as a Reconcile reads the
      store. */
  ghost predicate PossibleAct(s: Sys, a: Act) {
    match a
    case Edit(op) => T.Legal(s.tables, op)
    case Happen(Reconciled(i)) => ReadFrom(s.tables, i) && StaleOrdered(s.fleet, i)
    case Happen(_) => true
  }

  function Act1(c: Codec, o: Setup, s: Sys, a: Act): Sys {
    match a
    case Edit(op) => s.(tables := T.Apply(c, s.tables, op))
    case Happen(e) => s.(fleet := Next(o, s.fleet, e))
  }

  function ActAll(c: Codec, o: Setup, s: Sys, acts: seq<Act>): Sys
    decreases |acts|
  {
    if acts == [] then s else ActAll(c, o, Act1(c, o, s, acts[0]), acts[1..])
  }

  ghost predicate LegalActs(c: Codec, o: Setup, s: Sys, acts: seq<Act>)
    decreases |acts|
  {
    acts == [] || (LegalAct(s, acts[0]) && LegalActs(c, o, Act1(c, o, s, acts[0]), acts[1..]))
  }

  ghost predicate PossibleActs(c: Codec, o: Setup, s: Sys, acts: seq<Act>)
    decreases |acts|
  {
    acts == [] || (PossibleAct(s, acts[0]) && PossibleActs(c, o, Act1(c, o, s, acts[0]), acts[1..]))
  }

  // ----- the store's guarantee, as a listing

  lemma {:induction false} InsertDistinct(x: T.Connection, xs: seq<T.Connection>)
    requires NamesDistinct(xs) && forall y :: y in xs ==> y.name != x.name
    ensures NamesDistinct(T.InsertByName(x, xs))
  {
    hide Le;
    if xs != [] && !Le(x.name, xs[0].name) {
      InsertDistinct(x, xs[1..]);
      var rest := T.InsertByName(x, xs[1..]);
      O.InsertByNameMembers(x, xs[1..]);
      forall k | 0 <= k < |rest| ensures rest[k].name != xs[0].name {
        assert rest[k] in multiset(rest);
        assert rest[k] == x || rest[k] in multiset(xs[1..]);
      }
    }
  }

  lemma {:induction false} ListDistinct(rows: seq<T.Row>)
    requires O.KeysDistinct(rows)
    ensures NamesDistinct(T.List(rows))
  {
    if rows != [] {
      ListDistinct(rows[1..]);
      O.ListMembers(rows[1..]);
      forall y | y in T.List(rows[1..]) ensures y.name != rows[0].name {
        var r :| r in rows[1..] && T.Scan(r) == y;
        var k :| 0 <= k < |rows[1..]| && rows[1..][k] == r;
        assert rows[k + 1] == r;
      }
      InsertDistinct(T.Scan(rows[0]), T.List(rows[1..]));
    }
  }

  lemma {:induction false} EnabledSpec(conns: seq<T.Connection>)
    ensures forall conn :: conn in Enabled(conns) <==> conn in conns && conn.enabled
    ensures NamesDistinct(conns) ==> NamesDistinct(Enabled(conns))
  {
    if conns != [] {
      EnabledSpec(conns[1..]);
      assert forall conn :: conn in conns <==> conn == conns[0] || conn in conns[1..];
      var rest := Enabled(conns[1..]);
      if NamesDistinct(conns) {
        forall k | 0 <= k < |rest| ensures rest[k].name != conns[0].name {
          assert rest[k] in rest;
          var j :| 0 <= j < |conns[1..]| && conns[1..][j] == rest[k];
          assert conns[j + 1] == rest[k];
        }
      }
    }
  }

  /** A subnet list whose entries are canonical and mutually apart. */
  ghost predicate Clean(c: Codec, subnets: seq<string>) {
    && (forall k :: 0 <= k < |subnets| ==> O.CanonicalText(c, subnets[k]))
    && T.MutuallyApart(T.Prefixes(c, subnets))
  }

  ghost predicate ApartLists(c: Codec, xs: seq<string>, ys: seq<string>) {
    T.AllApart(T.Prefixes(c, xs), T.Prefixes(c, ys))
  }

  /** Every enabled connection is a clean row, apart from every other. */
  lemma EnabledRows(c: Codec, t: T.State)
    requires O.Owned(c, t)
    ensures var conns := Enabled(T.List(t.rows));
      && NamesDistinct(conns)
      && (forall x :: x in conns ==> Clean(c, x.subnets))
      && (forall x, y :: x in conns && y in conns && x.name != y.name ==> ApartLists(c, x.subnets, y.subnets))
  {
    hide T.List, Enabled, O.CanonicalText, T.MutuallyApart, T.AllApart, T.Prefixes, T.SplitSubnets,
         O.LocalsFine, O.LocalsApart, O.CrossApart, T.ValidName;
    var conns := Enabled(T.List(t.rows));
    ListDistinct(t.rows);
    EnabledSpec(T.List(t.rows));
    O.ListMembers(t.rows);
    forall x | x in conns ensures exists r :: r in t.rows && T.Scan(r) == x {
      assert x in T.List(t.rows);
    }
    forall x | x in conns ensures Clean(c, x.subnets) {
      var r :| r in t.rows && T.Scan(r) == x;
      assert O.RowOk(c, r);
    }
    forall x, y | x in conns && y in conns && x.name != y.name ensures ApartLists(c, x.subnets, y.subnets) {
      var r :| r in t.rows && T.Scan(r) == x;
      var q :| q in t.rows && T.Scan(q) == y;
      SameId(t.rows, r, q);
      assert O.RowsApart(c, r, q);
    }
  }

  lemma SameId(rows: seq<T.Row>, r: T.Row, q: T.Row)
    requires O.KeysDistinct(rows) && r in rows && q in rows
    ensures r.id == q.id ==> r == q
  {
  }

  lemma CleanPlain(c: Codec, subnets: seq<string>)
    requires Faithful(c) && Clean(c, subnets)
    ensures AllPlain(subnets)
  {
    forall k | 0 <= k < |subnets| ensures Plain(subnets[k]) {
      assert O.CanonicalText(c, subnets[k]);
      assert Plain(c.format(ParseSubnet(c, subnets[k]).value));
    }
  }

  /** Lists apart as prefixes share no text: a prefix overlaps itself. */
  lemma ApartDisjoint(c: Codec, xs: seq<string>, ys: seq<string>)
    requires ApartLists(c, xs, ys)
    ensures Disjoint(xs, ys)
  {
    forall s | s in xs ensures s !in ys {
      var i :| 0 <= i < |xs| && xs[i] == s;
      var ps, qs := T.Prefixes(c, xs), T.Prefixes(c, ys);
      forall j | 0 <= j < |ys| ensures ys[j] != s {
        assert T.Apart(ps[i], qs[j]);
        assert ps[i].Overlaps(ps[i]);
      }
    }
  }

  lemma StoreGivesGoodConns(c: Codec, t: T.State)
    requires Faithful(c) && O.Owned(c, t)
    ensures GoodConns(Enabled(T.List(t.rows)))
  {
    hide T.List, Enabled, Clean, ApartLists, Disjoint, O.Owned, AllPlain, Faithful;
    var conns := Enabled(T.List(t.rows));
    EnabledRows(c, t);
    forall x | x in conns ensures AllPlain(x.subnets) {
      CleanPlain(c, x.subnets);
    }
    forall x, y | x in conns && y in conns && x.name != y.name ensures Disjoint(x.subnets, y.subnets) {
      ApartDisjoint(c, x.subnets, y.subnets);
    }
  }

  // ----- the fleet's subnets stay disjoint as prefixes

  ghost predicate Unambiguous(c: Codec, ts: map<string, Tunnel>) {
    && (forall n :: n in ts ==> Clean(c, ts[n].subnets))
    && (forall n, m :: n in ts && m in ts && n != m ==> ApartLists(c, ts[n].subnets, ts[m].subnets))
  }

  /** A Reconcile leaves each tunnel with the subnets it had, or all of them with
      those of the enabled connections it read. */
  lemma ReconcileSubnets(o: Setup, f: Fleet, i: Input)
    requires ProperInput(f, i)
    ensures var f' := Reconcile(o, f, i).0;
      || SubnetsFrom(f', f)
      || (i.conns.Some? && Adopted(f'.tunnels, Enabled(i.conns.value)) && f'.tunnels.Keys == ConnNames(Enabled(i.conns.value)))
  {
    hide WriteConfigs, RedefineEach, StepEach, Advertise, Adopted, Enabled, ConnNames, NamesDistinct, DisconnectEach,
         Distinct;
    if i.conns.Some? {
      var enabled := Enabled(i.conns.value);
      var f1 := RemoveStale(o, f, i.staleOrder);
      var (f2, changed) := WriteConfigs(o, f1, enabled, i);
      WriteConfigsFrame(o, f1, enabled, i);
      if changed.Some? {
        var f3 := RedefineEach(o, f2, changed.value);
        RedefineEachRecords(o, f2, changed.value);
        StepEachRecords(o, f3, enabled);
        AdvertiseFrame(o, StepEach(o, f3, enabled), i);
        assert f1.tunnels.Keys <= ConnNames(enabled);
      }
    }
  }

  lemma AdoptedUnambiguous(c: Codec, t: T.State, ts: map<string, Tunnel>)
    requires O.Owned(c, t)
    requires Adopted(ts, Enabled(T.List(t.rows))) && ts.Keys == ConnNames(Enabled(T.List(t.rows)))
    ensures Unambiguous(c, ts)
  {
    hide T.List, Enabled, Clean, ApartLists, O.Owned, Adopted, ConnNames;
    var conns := Enabled(T.List(t.rows));
    EnabledRows(c, t);
    forall n | n in ts ensures Clean(c, ts[n].subnets) {
      var conn := AdoptedBy(ts, conns, n);
    }
    forall n, m | n in ts && m in ts && n != m ensures ApartLists(c, ts[n].subnets, ts[m].subnets) {
      var a := AdoptedBy(ts, conns, n);
      var b := AdoptedBy(ts, conns, m);
    }
  }

  ghost predicate SysInv(c: Codec, s: Sys) {
    Consistent(c, s) && Inv(s.fleet)
  }

  lemma SubnetsUnambiguous(c: Codec, f: Fleet, f': Fleet)
    requires Unambiguous(c, f.tunnels) && SubnetsFrom(f', f)
    ensures Unambiguous(c, f'.tunnels)
  {
    hide Clean, ApartLists;
  }

  /** What needs neither a tame environment nor well-behaved hooks. */
  ghost predicate Consistent(c: Codec, s: Sys) {
    O.Owned(c, s.tables) && Unambiguous(c, s.fleet.tunnels) && Traces.Paced(s.fleet) && Sound(s.fleet)
  }

  lemma ReconcileInput(c: Codec, s: Sys, i: Input)
    requires Faithful(c) && Consistent(c, s) && ReadFrom(s.tables, i) && StaleOrdered(s.fleet, i)
    ensures GoodInput(s.fleet, i) && Traces.Ordinary(Reconciled(i))
    ensures i.conns.Some? ==> NamesDistinct(Enabled(i.conns.value)) && i.conns.value == T.List(s.tables.rows)
  {
    hide Faithful, O.Owned, T.List, Enabled, A.Routes, NamesDistinct, Unambiguous, Traces.Paced, Sound, GoodConns;
    StoreGivesGoodConns(c, s.tables);
    GoodNames(Enabled(T.List(s.tables.rows)));
    A.RoutesPlain(c, s.tables);
  }

  lemma PossibleKeeps(c: Codec, o: Setup, s: Sys, a: Act)
    requires Faithful(c) && Consistent(c, s) && PossibleAct(s, a)
    ensures Consistent(c, Act1(c, o, s, a))
  {
    hide Faithful, O.Owned, Unambiguous, Next, T.Apply, T.Legal, T.List, StaleOrdered, SubnetsFrom, Traces.Paced,
         Traces.Ordinary, ReadFrom, NamesDistinct, Adopted, Enabled, ConnNames, Sound, GoodConns;
    match a
    case Edit(op) => O.ApplyKeeps(c, s.tables, op);
    case Happen(e) =>
      var f' := Next(o, s.fleet, e);
      if e.Reconciled? {
        ReconcileInput(c, s, e.input);
        ReconcileSubnetsNext(o, s.fleet, e);
        if !SubnetsFrom(f', s.fleet) {
          AdoptedUnambiguous(c, s.tables, f'.tunnels);
        } else {
          SubnetsUnambiguous(c, s.fleet, f');
        }
      } else {
        OtherSubnets(o, s.fleet, e);
        SubnetsUnambiguous(c, s.fleet, f');
        OtherOrdinary(e);
      }
      Traces.EventPaced(o, s.fleet, e);
      EventSound(o, s.fleet, e);
  }

  lemma OtherOrdinary(e: Event)
    requires !e.Reconciled?
    ensures Traces.Ordinary(e)
  {
  }

  lemma ReconcileSubnetsNext(o: Setup, f: Fleet, e: Event)
    requires e.Reconciled? && ProperInput(f, e.input)
    ensures var f' := Next(o, f, e);
      || SubnetsFrom(f', f)
      || (e.input.conns.Some? && Adopted(f'.tunnels, Enabled(e.input.conns.value))
          && f'.tunnels.Keys == ConnNames(Enabled(e.input.conns.value)))
  {
    hide Reconcile, SubnetsFrom, Adopted, Enabled, ConnNames, NamesDistinct, StaleOrdered;
    ReconcileSubnets(o, f, e.input);
  }

  lemma {:induction false} PossibleActsKeep(c: Codec, o: Setup, s: Sys, acts: seq<Act>)
    requires Faithful(c) && Consistent(c, s) && PossibleActs(c, o, s, acts)
    ensures Consistent(c, ActAll(c, o, s, acts))
    decreases |acts|
  {
    hide Faithful, Consistent, Act1, PossibleAct;
    if acts != [] {
      PossibleKeeps(c, o, s, acts[0]);
      PossibleActsKeep(c, o, Act1(c, o, s, acts[0]), acts[1..]);
    }
  }

  lemma InitialConsistent(c: Codec, s: Sys)
    requires SysInitial(s)
    ensures Consistent(c, s)
  {
    Traces.InitialPaced(s.fleet);
  }

  /** In every reachable state of store and reconciler, whatever the commands and
      hooks did: the prefixes of all tunnels, up or not, are mutually apart, and
      an address lies in at most one subnet of one tunnel. */
  lemma NeverAmbiguous(c: Codec, o: Setup, s: Sys, acts: seq<Act>)
    requires Faithful(c) && SysInitial(s) && PossibleActs(c, o, s, acts)
    ensures var ts := ActAll(c, o, s, acts).fleet.tunnels;
      && Unambiguous(c, ts)
      && forall n, m, x, y, a: Addr ::
           n in ts && m in ts && x in ts[n].subnets && y in ts[m].subnets && Matches(c, x, a) && Matches(c, y, a)
           ==> n == m && x == y
  {
    hide Faithful, PossibleActs, ActAll, Unambiguous, O.Owned, Traces.Paced, Matches, Sound;
    InitialConsistent(c, s);
    PossibleActsKeep(c, o, s, acts);
    var ts := ActAll(c, o, s, acts).fleet.tunnels;
    forall n, m, x, y, a: Addr |
      n in ts && m in ts && x in ts[n].subnets && y in ts[m].subnets && Matches(c, x, a) && Matches(c, y, a)
      ensures n == m && x == y
    {
      SubnetsApart(c, ts, n, m, x, y, a);
    }
  }

  /** The store reaches the tailnet and the fleet: after a Reconcile that reads
      the store and succeeds, the list the tailnet last accepted is the one the
      store advertises, and the tunnels are the enabled rows with their subnets,
      whatever failed before. */
  lemma StoreIsServed(c: Codec, o: Setup, s: Sys, acts: seq<Act>, i: Input)
    requires Faithful(c) && SysInitial(s) && PossibleActs(c, o, s, acts)
    requires var s' := ActAll(c, o, s, acts);
      ReadFrom(s'.tables, i) && StaleOrdered(s'.fleet, i) && Reconcile(o, s'.fleet, i).1
    ensures var t, f' := ActAll(c, o, s, acts).tables, Reconcile(o, ActAll(c, o, s, acts).fleet, i).0;
      && (forall n :: n in f'.tunnels <==> exists r :: r in t.rows && r.enabled && r.name == n)
      && (forall r :: r in t.rows && r.enabled ==> r.name in f'.tunnels && f'.tunnels[r.name].subnets == O.Subnets(r))
      && (o.tailnet ==>
            match Traces.Pushed(f'.world.trace)
            case None => A.Routes(t) == []
            case Some(routes) => routes == A.Routes(t))
  {
    hide Faithful, PossibleActs, ActAll, Unambiguous, O.Owned, Traces.Paced, Reconcile, T.List, Enabled, A.Routes,
         Traces.Pushed, NamesDistinct, Adopted, ConnNames, StaleOrdered, Traces.Ordinary, ReadFrom, Sound, GoodConns;
    var s' := ActAll(c, o, s, acts);
    InitialConsistent(c, s);
    PossibleActsKeep(c, o, s, acts);
    ReconcileInput(c, s', i);
    assert i.conns.Some? && i.routes.Some? by { SucceedsRead(o, s'.fleet, i); }
    assert i.routes.value == A.Routes(s'.tables) by { ReadRoutes(s'.tables, i); }
    Converges(o, s'.fleet, i);
    EnabledAreRows(s'.tables.rows, Reconcile(o, s'.fleet, i).0.tunnels);
    A.RoutesSpec(s'.tables);
    if o.tailnet {
      Traces.PushedCurrent(o, s'.fleet, i);
    }
  }

  lemma SucceedsRead(o: Setup, f: Fleet, i: Input)
    requires Reconcile(o, f, i).1
    ensures i.conns.Some? && i.routes.Some?
  {
  }

  lemma ReadRoutes(t: T.State, i: Input)
    requires ReadFrom(t, i) && i.routes.Some?
    ensures i.routes.value == A.Routes(t)
  {
  }

  lemma EnabledAreRows(rows: seq<T.Row>, ts: map<string, Tunnel>)
    requires Adopted(ts, Enabled(T.List(rows))) && ts.Keys == ConnNames(Enabled(T.List(rows)))
    ensures forall n :: n in ts <==> exists r :: r in rows && r.enabled && r.name == n
    ensures forall r :: r in rows && r.enabled ==> r.name in ts && ts[r.name].subnets == O.Subnets(r)
  {
    hide T.List, Enabled, T.SplitSubnets;
    var conns := Enabled(T.List(rows));
    EnabledSpec(T.List(rows));
    O.ListMembers(rows);
    forall r | r in rows && r.enabled ensures r.name in ts && ts[r.name].subnets == O.Subnets(r) {
      assert T.Scan(r) in conns;
    }
    forall n | n in ts ensures exists r :: r in rows && r.enabled && r.name == n {
      assert n in ConnNames(conns);
      var conn :| conn in conns && conn.name == n;
      assert conn in T.List(rows);
      var r :| r in rows && T.Scan(r) == conn;
    }
  }

  /** A subnet edit reaches live routes only through a drop: in every reachable
      state of every environment, by the time the next Reconcile steps a live
      tunnel its subnets are its connection's, and a tunnel that has an interface
      afterwards had it before, with the same subnets. */
  lemma EditsNeverStrand(c: Codec, o: Setup, s: Sys, acts: seq<Act>, i: Input)
    requires Faithful(c) && SysInitial(s) && PossibleActs(c, o, s, acts)
    requires var s' := ActAll(c, o, s, acts); ReadFrom(s'.tables, i) && StaleOrdered(s'.fleet, i)
    ensures var f := ActAll(c, o, s, acts).fleet; LiveAsBefore(f, Reconcile(o, f, i).0)
    ensures i.conns.Some? ==>
      var f, conns := ActAll(c, o, s, acts).fleet, Enabled(i.conns.value);
      var (f2, changed) := WriteConfigs(o, RemoveStale(o, f, i.staleOrder), conns, i);
      changed.Some? ==> forall k :: 0 <= k < |conns| ==>
        Aligned(StepEach(o, RedefineEach(o, f2, changed.value), conns[..k]), [conns[k]])
  {
    hide Faithful, PossibleActs, ActAll, Consistent, Reconcile, Enabled, WriteConfigs, RedefineEach, StepEach,
         StaleOrdered, ReadFrom, Sound, GoodConns, Aligned, LiveAsBefore, DisconnectEach;
    var s' := ActAll(c, o, s, acts);
    InitialConsistent(c, s);
    PossibleActsKeep(c, o, s, acts);
    ConsistentSound(c, s');
    ReconcileInput(c, s', i);
    ReconcileSound(o, s'.fleet, i);
    if i.conns.Some? {
      var conns, f1 := Enabled(i.conns.value), RemoveStale(o, s'.fleet, i.staleOrder);
      SoundSubset(s'.fleet, f1);
      var (f2, changed) := WriteConfigs(o, f1, conns, i);
      if changed.Some? {
        NeverStranded(o, f1, conns, i);
        GoodNames(conns);
        forall k | 0 <= k < |conns| ensures Aligned(StepEach(o, RedefineEach(o, f2, changed.value), conns[..k]), [conns[k]]) {
          StillAligned(o, RedefineEach(o, f2, changed.value), conns, k);
        }
      }
    }
  }

  /** Steps on other tunnels do not change that. */
  lemma StillAligned(o: Setup, f: Fleet, conns: seq<T.Connection>, k: nat)
    requires Aligned(f, conns) && NamesDistinct(conns) && k < |conns|
    ensures Aligned(StepEach(o, f, conns[..k]), [conns[k]])
  {
    hide StepEach;
    var conn, f' := conns[k], StepEach(o, f, conns[..k]);
    assert NamesDistinct(conns[..k]);
    assert conn.name !in ConnNames(conns[..k]);
    StepEachRecords(o, f, conns[..k]);
    assert conn in conns;
    if conn.name in Live(f'.tunnels) {
      assert conn.name in f.tunnels && f'.tunnels[conn.name] == f.tunnels[conn.name];
    }
  }

  lemma ConsistentSound(c: Codec, s: Sys)
    requires Consistent(c, s)
    ensures Sound(s.fleet)
  {
  }

  /** In every reachable state of every environment an up hook, well-behaved or
      not, completed or failed, leaves all other tunnels' records and route
      entries, and the rules of all interfaces but the one it names. */
  lemma NoRouteStolen(c: Codec, o: Setup, s: Sys, acts: seq<Act>, name: string, iface: string, m: string)
    requires Faithful(c) && SysInitial(s) && PossibleActs(c, o, s, acts)
    requires m in ActAll(c, o, s, acts).fleet.tunnels && m != name
    ensures var f := ActAll(c, o, s, acts).fleet;
      var f', t := PPPUp(o, f, name, iface).0, f.tunnels[m];
      && m in f'.tunnels && f'.tunnels[m] == t
      && (forall x :: x in t.subnets ==> SameRoute(f.world, f'.world, x))
      && (t.iface != iface ==> forall r: Rule :: r.iface == t.iface ==> f'.world.rules[r] == f.world.rules[r])
  {
    hide Faithful, PossibleActs, ActAll, Consistent, PPPUp, Private, PlainSubnets, Linked, SameRoute;
    InitialConsistent(c, s);
    PossibleActsKeep(c, o, s, acts);
    ConsistentSound(c, ActAll(c, o, s, acts));
    NoStolenRoute(o, ActAll(c, o, s, acts).fleet, name, iface, m);
  }

  // ----- with well-behaved up hooks, every tunnel on its own interface

  ghost predicate HookedAct(s: Sys, a: Act) {
    && PossibleAct(s, a)
    && (a.Happen? && a.event.WentUp? ==> UpHookOk(s.fleet, a.event.name, a.event.iface))
  }

  ghost predicate HookedActs(c: Codec, o: Setup, s: Sys, acts: seq<Act>)
    decreases |acts|
  {
    acts == [] || (HookedAct(s, acts[0]) && HookedActs(c, o, Act1(c, o, s, acts[0]), acts[1..]))
  }

  lemma HookedTidy(c: Codec, o: Setup, s: Sys, a: Act)
    requires Faithful(c) && Consistent(c, s) && HookedAct(s, a)
    requires Shape(s.fleet.tunnels) && OwnIfaces(s.fleet.tunnels)
    ensures var s' := Act1(c, o, s, a); Consistent(c, s') && Shape(s'.fleet.tunnels) && OwnIfaces(s'.fleet.tunnels)
  {
    hide Faithful, Consistent, Shape, OwnIfaces, Next, T.Apply, T.Legal, StaleOrdered, ReadFrom, UpHookOk, GoodInput, Sound;
    PossibleKeeps(c, o, s, a);
    if a.Happen? {
      ConsistentSound(c, s);
      if a.event.Reconciled? {
        ReconcileInput(c, s, a.event.input);
      }
      EventTidy(o, s.fleet, a.event);
    }
  }

  lemma {:induction false} HookedRunTidy(c: Codec, o: Setup, s: Sys, acts: seq<Act>)
    requires Faithful(c) && Consistent(c, s) && HookedActs(c, o, s, acts)
    requires Shape(s.fleet.tunnels) && OwnIfaces(s.fleet.tunnels)
    ensures var s' := ActAll(c, o, s, acts); Consistent(c, s') && Shape(s'.fleet.tunnels) && OwnIfaces(s'.fleet.tunnels)
    decreases |acts|
  {
    hide Faithful, Consistent, Shape, OwnIfaces, Act1, HookedAct;
    if acts != [] {
      HookedTidy(c, o, s, acts[0]);
      HookedRunTidy(c, o, Act1(c, o, s, acts[0]), acts[1..]);
    }
  }

  lemma HookedActsTidy(c: Codec, o: Setup, s: Sys, acts: seq<Act>)
    requires Faithful(c) && SysInitial(s) && HookedActs(c, o, s, acts)
    ensures var s' := ActAll(c, o, s, acts); Consistent(c, s') && Shape(s'.fleet.tunnels) && OwnIfaces(s'.fleet.tunnels)
  {
    hide Faithful, Consistent, HookedActs, ActAll;
    InitialConsistent(c, s);
    HookedRunTidy(c, o, s, acts);
  }

  // ----- with a tame environment and well-behaved hooks, the kernel too

  lemma ActKeeps(c: Codec, o: Setup, s: Sys, a: Act)
    requires Faithful(c) && Tame(o.env) && SysInv(c, s) && LegalAct(s, a)
    ensures SysInv(c, Act1(c, o, s, a))
    ensures Full(s.fleet) && (a.Happen? ==> !a.event.Vanished?) ==> Full(Act1(c, o, s, a).fleet)
  {
    hide Faithful, Tame, Consistent, Inv, Full, Next, T.Apply, T.Legal, GoodInput, UpHookOk, DownHookOk, StaleOrdered,
         ReadFrom;
    PossibleKeeps(c, o, s, a);
    if a.Happen? {
      if a.event.Reconciled? {
        ReconcileInput(c, s, a.event.input);
      }
      EventKeeps(o, s.fleet, a.event);
    }
  }

  predicate SysInitial(s: Sys) {
    s.tables == T.EMPTY && Initial(s.fleet)
  }

  lemma {:induction false} ActsKeep(c: Codec, o: Setup, s: Sys, acts: seq<Act>)
    requires Faithful(c) && Tame(o.env) && SysInv(c, s) && LegalActs(c, o, s, acts)
    ensures SysInv(c, ActAll(c, o, s, acts))
    decreases |acts|
  {
    hide Faithful, Tame, SysInv, Act1, LegalAct, Full;
    if acts != [] {
      ActKeeps(c, o, s, acts[0]);
      ActsKeep(c, o, Act1(c, o, s, acts[0]), acts[1..]);
    }
  }

  predicate NoVanishing(acts: seq<Act>) {
    forall i :: 0 <= i < |acts| && acts[i].Happen? ==> !acts[i].event.Vanished?
  }

  lemma {:induction false} ActsFull(c: Codec, o: Setup, s: Sys, acts: seq<Act>)
    requires Faithful(c) && Tame(o.env) && SysInv(c, s) && LegalActs(c, o, s, acts)
    requires Full(s.fleet) && NoVanishing(acts)
    ensures Full(ActAll(c, o, s, acts).fleet)
    decreases |acts|
  {
    hide Faithful, Tame, SysInv, Act1, LegalAct, Full;
    if acts != [] {
      ActKeeps(c, o, s, acts[0]);
      ActsFull(c, o, Act1(c, o, s, acts[0]), acts[1..]);
    }
  }

  /** Edits of the store interleaved with everything the reconciler does: the
      kernel holds exactly what the tunnels that are up need. */
  lemma SystemKernelExact(c: Codec, o: Setup, s: Sys, acts: seq<Act>)
    requires Faithful(c) && Tame(o.env) && SysInitial(s) && LegalActs(c, o, s, acts)
    ensures NothingLeaks(ActAll(c, o, s, acts).fleet)
    ensures NoVanishing(acts) ==> KernelExact(ActAll(c, o, s, acts).fleet)
  {
    hide Faithful, Tame, LegalActs, ActAll, Inv, Consistent, NothingLeaks, KernelExact, Full, NoVanishing;
    InitialSys(c, s);
    InitialInv(s.fleet);
    ActsKeep(c, o, s, acts);
    InvMeans(ActAll(c, o, s, acts).fleet);
    if NoVanishing(acts) {
      ActsFull(c, o, s, acts);
      FullMeans(ActAll(c, o, s, acts).fleet);
    }
  }

  lemma InitialSys(c: Codec, s: Sys)
    requires SysInitial(s)
    ensures SysInv(c, s)
  {
    hide Inv, Consistent;
    InitialConsistent(c, s);
    InitialInv(s.fleet);
  }

  /** In every reachable state of store and reconciler, however far apart the two
      have drifted: the prefixes of all tunnels are mutually apart, and an
      address matches at most one installed route. */
  lemma OneRoutePerAddress(c: Codec, o: Setup, s: Sys, acts: seq<Act>)
    requires Faithful(c) && Tame(o.env) && SysInitial(s) && LegalActs(c, o, s, acts)
    ensures var f := ActAll(c, o, s, acts).fleet;
      && Unambiguous(c, f.tunnels)
      && forall x, y, a: Addr ::
           x in f.world.routes && y in f.world.routes && Matches(c, x, a) && Matches(c, y, a) ==> x == y
  {
    hide Faithful, Tame, LegalActs, ActAll, Inv, Unambiguous, O.Owned, Matches, Traces.Paced, Sound;
    InitialSys(c, s);
    ActsKeep(c, o, s, acts);
    var f := ActAll(c, o, s, acts).fleet;
    forall x, y, a: Addr | x in f.world.routes && y in f.world.routes && Matches(c, x, a) && Matches(c, y, a)
      ensures x == y
    {
      RoutesApart(c, f, x, y, a);
    }
  }

  ghost predicate Matches(c: Codec, cidr: string, a: Addr) {
    var p := T.PrefixAt(c, cidr);
    a.Valid() && p.Valid() && p.Contains(a)
  }

  lemma RoutesApart(c: Codec, f: Fleet, x: string, y: string, a: Addr)
    requires Inv(f) && Unambiguous(c, f.tunnels)
    requires x in f.world.routes && y in f.world.routes && Matches(c, x, a) && Matches(c, y, a)
    ensures x == y
  {
    hide Inv, Unambiguous, Matches;
    InvMeans(f);
    assert UpWith(f, x, f.world.routes[x]) && UpWith(f, y, f.world.routes[y]);
    var n :| n in f.tunnels && x in f.tunnels[n].subnets;
    var m :| m in f.tunnels && y in f.tunnels[m].subnets;
    SubnetsApart(c, f.tunnels, n, m, x, y, a);
  }

  lemma SubnetsApart(c: Codec, ts: map<string, Tunnel>, n: string, m: string, x: string, y: string, a: Addr)
    requires Unambiguous(c, ts) && n in ts && m in ts && x in ts[n].subnets && y in ts[m].subnets
    requires Matches(c, x, a) && Matches(c, y, a)
    ensures n == m && x == y
  {
    hide ParseSubnet;
    var xs, ys := ts[n].subnets, ts[m].subnets;
    var i :| 0 <= i < |xs| && xs[i] == x;
    var j :| 0 <= j < |ys| && ys[j] == y;
    var p, q := T.PrefixAt(c, x), T.PrefixAt(c, y);
    SharedOverlaps(p, q, a);
    SharedOverlaps(q, p, a);
    if n != m {
      ApartAt(c, xs, ys, i, j);
    } else {
      CleanAt(c, xs, i, j);
      CleanAt(c, xs, j, i);
    }
  }

  lemma ApartAt(c: Codec, xs: seq<string>, ys: seq<string>, i: nat, j: nat)
    requires ApartLists(c, xs, ys) && i < |xs| && j < |ys|
    ensures T.Apart(T.PrefixAt(c, xs[i]), T.PrefixAt(c, ys[j]))
  {
    assert T.Apart(T.Prefixes(c, xs)[i], T.Prefixes(c, ys)[j]);
  }

  lemma CleanAt(c: Codec, xs: seq<string>, i: nat, j: nat)
    requires Clean(c, xs) && i < |xs| && j < |xs|
    ensures i < j ==> T.Apart(T.PrefixAt(c, xs[i]), T.PrefixAt(c, xs[j]))
  {
    assert i < j ==> T.Apart(T.Prefixes(c, xs)[i], T.Prefixes(c, xs)[j]);
  }
}
