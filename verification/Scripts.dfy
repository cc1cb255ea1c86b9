/** What one Reconcile says to the daemons about one tunnel, and in what order:
    read off the command trace, in every environment. */
module Scripts {
  import opened Common
  import opened Text
  import opened Tables
  import opened Host
  import opened Reconciler
  import opened Agreement
  import opened Configs
  import opened Convergence
  import opened Hooks

  /** A command to a daemon that names the tunnel. */
  predicate Names(c: Command, n: string) {
    match c
    case Initiate(name) => name == n
    case Terminate(name) => name == n
    case LacAdd(def) => def.name == n
    case LacRemove(name) => name == n
    case LacConnect(name) => name == n
    case LacDisconnect(name) => name == n
    case _ => false
  }

  /** What the daemons were told about a tunnel, in order. */
  function Said(tr: seq<Entry>, n: string): seq<Command> {
    if tr == [] then []
    else Said(tr[..|tr| - 1], n) + if Names(tr[|tr| - 1].command, n) then [tr[|tr| - 1].command] else []
  }

  /** The entry at an index is a dial that starts from a disconnect, or a connect
      that follows an accepted dial; or it is neither. */
  predicate DialOk(tr: seq<Entry>, k: nat)
    requires k < |tr|
  {
    match tr[k].command
    case Initiate(n) => k >= 1 && tr[k - 1].command == LacDisconnect(n)
    case LacConnect(n) =>
      && k >= 2 && tr[k - 1].command == Initiate(n) && tr[k - 1].answer == Done
      && tr[k - 2].command == LacDisconnect(n)
    case _ => true
  }

  ghost predicate DialsInOrder(tr: seq<Entry>) {
    forall k :: 0 <= k < |tr| ==> DialOk(tr, k)
  }

  /** From one world to the next: these commands about the tunnel were added, and
      dials stay in order. */
  ghost predicate Says(w: World, w': World, n: string, script: seq<Command>) {
    && Said(w'.trace, n) == Said(w.trace, n) + script
    && (DialsInOrder(w.trace) ==> DialsInOrder(w'.trace))
    && w.time <= w'.time
  }

  lemma SaysNothing(w: World, n: string)
    ensures Says(w, w, n, [])
  {
  }

  lemma SaysThen(w: World, w': World, w'': World, n: string, a: seq<Command>, b: seq<Command>)
    requires Says(w, w', n, a) && Says(w', w'', n, b)
    ensures Says(w, w'', n, a + b)
  {
    hide DialsInOrder;
    assert Said(w.trace, n) + a + b == Said(w.trace, n) + (a + b);
  }

  predicate Dials(c: Command) {
    c.Initiate? || c.LacConnect?
  }

  lemma MoreInOrder(tr: seq<Entry>, e: Entry)
    requires DialsInOrder(tr) && DialOk(tr + [e], |tr|)
    ensures DialsInOrder(tr + [e])
  {
    forall k | 0 <= k < |tr| ensures DialOk(tr + [e], k) {
      assert DialOk(tr, k);
    }
  }

  lemma RunSays(env: Env, w: World, c: Command, n: string)
    requires !Dials(c)
    ensures Says(w, Run(env, w, c).0, n, if Names(c, n) then [c] else [])
  {
    hide Perform, DialsInOrder;
    var w' := Run(env, w, c).0;
    var e := w'.trace[|w.trace|];
    assert w'.trace == w.trace + [e] && w'.trace[..|w'.trace| - 1] == w.trace;
    if DialsInOrder(w.trace) {
      MoreInOrder(w.trace, e);
    }
  }

  lemma {:induction false} KernelSays(w: World, tr: seq<Entry>, n: string)
    requires w.trace <= tr && forall k :: |w.trace| <= k < |tr| ==> OnKernel(tr[k].command)
    ensures Said(tr, n) == Said(w.trace, n) && (DialsInOrder(w.trace) ==> DialsInOrder(tr))
    decreases |tr|
  {
    hide DialsInOrder;
    if tr == w.trace {
    } else {
      var before, e := tr[..|tr| - 1], tr[|tr| - 1];
      KernelSays(w, before, n);
      assert tr == before + [e] && OnKernel(tr[|tr| - 1].command);
      if DialsInOrder(w.trace) {
        MoreInOrder(before, e);
      }
    }
  }

  lemma TearDownSays(o: Setup, w: World, iface: string, subnets: seq<string>, n: string)
    ensures Says(w, TearDownIf(o, w, iface, subnets), n, [])
  {
    hide TearDown, DialsInOrder, Said;
    if iface != "" {
      TearDownConfined(o.env, w, iface, subnets);
      KernelSays(w, TearDown(o.env, w, iface, subnets).trace, n);
    }
  }

  // ----- each part of a Reconcile

  /** A removed tunnel: hung up, its LAC removed, its SA terminated. */
  lemma DisconnectSays(o: Setup, w: World, t: Tunnel, n: string)
    ensures Says(w, Disconnect(o, w, t), n,
                 if t.name == n then [LacDisconnect(n), LacRemove(n), Terminate(n)] else [])
  {
    hide Run, TearDownIf, Says;
    var m := t.name;
    var w1 := TearDownIf(o, w, t.iface, t.subnets);
    var w2 := Run(o.env, w1, LacDisconnect(m)).0;
    var w3 := Run(o.env, w2, LacRemove(m)).0;
    var w4 := Run(o.env, w3, Terminate(m)).0;
    TearDownSays(o, w, t.iface, t.subnets, n);
    RunSays(o.env, w1, LacDisconnect(m), n);
    RunSays(o.env, w2, LacRemove(m), n);
    RunSays(o.env, w3, Terminate(m), n);
    if m == n {
      SaysThen(w, w1, w2, n, [], [LacDisconnect(n)]);
      SaysThen(w, w2, w3, n, [] + [LacDisconnect(n)], [LacRemove(n)]);
      SaysThen(w, w3, w4, n, [] + [LacDisconnect(n)] + [LacRemove(n)], [Terminate(n)]);
      assert [] + [LacDisconnect(n)] + [LacRemove(n)] + [Terminate(n)] == [LacDisconnect(n), LacRemove(n), Terminate(n)];
    } else {
      SaysThen(w, w1, w2, n, [], []);
      SaysThen(w, w2, w3, n, [] + [], []);
      SaysThen(w, w3, w4, n, [] + [] + [], []);
      var none: seq<Command> := [];
      assert [] + [] + [] + none == none;
    }
  }

  lemma {:induction false} DisconnectEachSays(o: Setup, w: World, ts: map<string, Tunnel>, names: seq<string>, n: string)
    requires Filed(ts) && Distinct(names)
    ensures Says(w, DisconnectEach(o, w, ts, names), n,
                 if n in names && n in ts then [LacDisconnect(n), LacRemove(n), Terminate(n)] else [])
    decreases |names|
  {
    hide Disconnect, Says;
    var bye := [LacDisconnect(n), LacRemove(n), Terminate(n)];
    if names == [] {
      SaysNothing(w, n);
    } else {
      var m := names[0];
      var w' := if m in ts then Disconnect(o, w, ts[m]) else w;
      SaysNothing(w, n);
      if m in ts {
        DisconnectSays(o, w, ts[m], n);
      }
      DisconnectEachSays(o, w', ts, names[1..], n);
      var first := if m == n && n in ts then bye else [];
      var rest := if n in names[1..] && n in ts then bye else [];
      SaysThen(w, w', DisconnectEach(o, w', ts, names[1..]), n, first, rest);
      assert m == n ==> n !in names[1..];
      assert first + rest == if n in names && n in ts then bye else [];
    }
  }

  /** A dropped tunnel: hung up and its SA terminated. */
  lemma DropSays(o: Setup, f: Fleet, m: string, n: string)
    ensures Says(f.world, Drop(o, f, m).world, n,
                 if m == n && n in f.tunnels then [LacDisconnect(n), Terminate(n)] else [])
  {
    hide Run, TearDownIf, Says;
    SaysNothing(f.world, n);
    if m in f.tunnels {
      var t := f.tunnels[m];
      var w1 := TearDownIf(o, f.world, t.iface, t.subnets);
      var w2 := Run(o.env, w1, LacDisconnect(m)).0;
      var w3 := Run(o.env, w2, Terminate(m)).0;
      TearDownSays(o, f.world, t.iface, t.subnets, n);
      RunSays(o.env, w1, LacDisconnect(m), n);
      RunSays(o.env, w2, Terminate(m), n);
      var a, b := if m == n then [LacDisconnect(n)] else [], if m == n then [Terminate(n)] else [];
      SaysThen(f.world, w1, w2, n, [], a);
      SaysThen(f.world, w2, w3, n, [] + a, b);
      assert [] + a + b == if m == n then [LacDisconnect(n), Terminate(n)] else [];
    }
  }

  /** An edited tunnel: dropped if it was there, its LAC replaced. */
  function Redefinition(had: bool, d: Definition): seq<Command> {
    (if had then [LacDisconnect(d.name), Terminate(d.name)] else []) + [LacRemove(d.name), LacAdd(d)]
  }

  lemma RedefineSays(o: Setup, f: Fleet, d: Definition, n: string)
    ensures Says(f.world, Redefine(o, f, d).world, n, if d.name == n then Redefinition(n in f.tunnels, d) else [])
  {
    hide Run, Drop, Says;
    var m, f1 := d.name, Drop(o, f, d.name);
    var w2 := Run(o.env, f1.world, LacRemove(m)).0;
    var w3 := Run(o.env, w2, LacAdd(d)).0;
    DropSays(o, f, m, n);
    RunSays(o.env, f1.world, LacRemove(m), n);
    RunSays(o.env, w2, LacAdd(d), n);
    var a := if m == n && n in f.tunnels then [LacDisconnect(n), Terminate(n)] else [];
    var b, c := if m == n then [LacRemove(n)] else [], if m == n then [LacAdd(d)] else [];
    SaysThen(f.world, f1.world, w2, n, a, b);
    SaysThen(f.world, w2, w3, n, a + b, c);
    assert a + b + c == if m == n then Redefinition(n in f.tunnels, d) else [];
  }

  /** The definition of this name among some, if any. */
  function Wanted(defs: seq<Definition>, n: string): Option<Definition> {
    if defs == [] then None else if defs[0].name == n then Some(defs[0]) else Wanted(defs[1..], n)
  }

  lemma {:induction false} WantedSpec(defs: seq<Definition>, n: string)
    ensures Wanted(defs, n).Some? <==> n in DefNames(defs)
    ensures Wanted(defs, n).Some? ==> Wanted(defs, n).value in defs && Wanted(defs, n).value.name == n
  {
    if defs != [] {
      WantedSpec(defs[1..], n);
      assert DefNames(defs) == {defs[0].name} + DefNames(defs[1..]);
    }
  }

  function Redefinitions(had: bool, defs: seq<Definition>, n: string): seq<Command> {
    match Wanted(defs, n)
    case None => []
    case Some(d) => Redefinition(had, d)
  }

  lemma {:induction false} RedefineEachSays(o: Setup, f: Fleet, defs: seq<Definition>, n: string)
    requires DefsDistinct(defs)
    ensures Says(f.world, RedefineEach(o, f, defs).world, n, Redefinitions(n in f.tunnels, defs, n))
    decreases |defs|
  {
    hide Redefine, Says, Redefinition;
    if defs == [] {
      SaysNothing(f.world, n);
    } else {
      var d, f1 := defs[0], Redefine(o, f, defs[0]);
      RedefineSays(o, f, d, n);
      assert f1.tunnels.Keys == f.tunnels.Keys by { RedefineKeys(o, f, d); }
      RedefineEachSays(o, f1, defs[1..], n);
      var a := if d.name == n then Redefinition(n in f.tunnels, d) else [];
      var b := Redefinitions(n in f.tunnels, defs[1..], n);
      SaysThen(f.world, f1.world, RedefineEach(o, f1, defs[1..]).world, n, a, b);
      WantedSpec(defs[1..], n);
      assert d.name == n ==> n !in DefNames(defs[1..]) by { RestNamesDiffer(defs); }
      assert a + b == Redefinitions(n in f.tunnels, defs, n);
    }
  }

  lemma RedefineKeys(o: Setup, f: Fleet, d: Definition)
    ensures Redefine(o, f, d).tunnels.Keys == f.tunnels.Keys
  {
    hide Run, TearDownIf;
  }

  lemma RestNamesDiffer(defs: seq<Definition>)
    requires defs != [] && DefsDistinct(defs)
    ensures defs[0].name !in DefNames(defs[1..])
  {
    forall e | e in defs[1..] ensures e.name != defs[0].name {
      var k :| 0 <= k < |defs[1..]| && defs[1..][k] == e;
      assert defs[k + 1] == e;
    }
  }

  lemma WriteSays(o: Setup, f: Fleet, conns: seq<Connection>, i: Input, n: string)
    ensures Says(f.world, WriteConfigs(o, f, conns, i).0.world, n, [])
  {
    hide Run, DesiredTunnels, Fingerprints, ChangedTunnels, Says;
    var desired := DesiredTunnels(conns, i);
    SaysNothing(f.world, n);
    if desired.Some? {
      var w1 := Run(o.env, f.world, WriteFiles(desired.value)).0;
      RunSays(o.env, f.world, WriteFiles(desired.value), n);
      RunSays(o.env, w1, LoadAll, n);
      var none: seq<Command> := [];
      SaysThen(f.world, w1, Run(o.env, w1, LoadAll).0, n, none, none);
      assert none + none == none;
    }
  }

  lemma AdvertiseSays(o: Setup, f: Fleet, i: Input, n: string)
    ensures Says(f.world, Advertise(o, f, i).0.world, n, [])
  {
    hide Run, Sort, Join, Says;
    SaysNothing(f.world, n);
    if i.routes.Some? {
      RunSays(o.env, f.world, SetRoutes(Sort(i.routes.value)), n);
    }
  }

  // ----- dialling

  /** What the trace gains by a dial: a disconnect, the IKE dial, and the L2TP
      connect only if that was accepted. */
  ghost predicate Dialled(tr: seq<Entry>, tr': seq<Entry>, n: string, up: bool) {
    && |tr'| in {|tr| + 2, |tr| + 3} && tr <= tr'
    && tr'[|tr|].command == LacDisconnect(n) && tr'[|tr| + 1].command == Initiate(n)
    && (|tr'| == |tr| + 3 <==> tr'[|tr| + 1].answer == Done)
    && (|tr'| == |tr| + 3 ==> tr'[|tr| + 2].command == LacConnect(n))
    && (up <==> |tr'| == |tr| + 3 && tr'[|tr| + 2].answer == Done)
  }

  /** A dial whose IKE part is not accepted connects nothing and fails; the tunnel
      is connecting exactly when both parts were accepted. */
  lemma DialOutcome(o: Setup, f: Fleet, n: string)
    requires n in f.tunnels
    ensures var f' := Dial(o, f, n);
      && n in f'.tunnels && f'.tunnels[n].phase in {Connecting, Failed}
      && Dialled(f.world.trace, f'.world.trace, n, f'.tunnels[n].phase == Connecting)
      && f.world.time <= f'.world.time
  {
    hide Run, RedialDelay;
    var w1 := Run(o.env, f.world, LacDisconnect(n)).0;
    var w2 := Run(o.env, w1, Initiate(n)).0;
    RanOne(o.env, f.world, LacDisconnect(n));
    RanOne(o.env, w1, Initiate(n));
    RanOne(o.env, w2, LacConnect(n));
  }

  function DialScript(n: string, connects: bool): seq<Command> {
    [LacDisconnect(n), Initiate(n)] + if connects then [LacConnect(n)] else []
  }

  lemma {:induction false} DialledSays(tr: seq<Entry>, tr': seq<Entry>, m: string, up: bool, n: string)
    requires Dialled(tr, tr', m, up)
    ensures Said(tr', n) == Said(tr, n) + if m == n then DialScript(n, |tr'| == |tr| + 3) else []
    ensures DialsInOrder(tr) ==> DialsInOrder(tr')
  {
    hide DialsInOrder, Said, DialOk;
    var e0, e1 := tr'[|tr|], tr'[|tr| + 1];
    var a, b := tr + [e0], tr + [e0] + [e1];
    SaidMore(tr, e0, n);
    SaidMore(a, e1, n);
    assert Said(b, n) == Said(tr, n) + if m == n then [LacDisconnect(n), Initiate(n)] else [];
    if DialsInOrder(tr) {
      FirstTwoInOrder(tr, e0, e1, m);
    }
    if |tr'| == |tr| + 3 {
      var e2 := tr'[|tr| + 2];
      assert tr' == b + [e2];
      SaidMore(b, e2, n);
      if DialsInOrder(tr) {
        ConnectInOrder(tr, e0, e1, e2, m);
      }
    } else {
      assert tr' == b;
    }
  }

  lemma SaidMore(tr: seq<Entry>, e: Entry, n: string)
    ensures Said(tr + [e], n) == Said(tr, n) + if Names(e.command, n) then [e.command] else []
  {
    assert (tr + [e])[..|tr|] == tr;
  }

  lemma FirstTwoInOrder(tr: seq<Entry>, e0: Entry, e1: Entry, n: string)
    requires DialsInOrder(tr) && e0.command == LacDisconnect(n) && e1.command == Initiate(n)
    ensures DialsInOrder(tr + [e0] + [e1])
  {
    hide DialsInOrder;
    MoreInOrder(tr, e0);
    MoreInOrder(tr + [e0], e1);
  }

  lemma ConnectInOrder(tr: seq<Entry>, e0: Entry, e1: Entry, e2: Entry, n: string)
    requires DialsInOrder(tr + [e0] + [e1]) && e0.command == LacDisconnect(n)
    requires e1.command == Initiate(n) && e1.answer == Done && e2.command == LacConnect(n)
    ensures DialsInOrder(tr + [e0] + [e1] + [e2])
  {
    hide DialsInOrder;
    MoreInOrder(tr + [e0] + [e1], e2);
  }

  /** A tunnel the next step dials. */
  predicate DueToDial(t: Tunnel, now: nat) {
    t.phase in {Disconnected, Failed} && now >= t.retryAt
  }

  /** A step dials its own tunnel if it is due, and says nothing of the others. */
  lemma StepSays(o: Setup, f: Fleet, conn: Connection, n: string) returns (connects: bool)
    ensures Says(f.world, Step(o, f, conn).world, n,
                 if conn.name == n && DueToDial(Refreshed(f, conn), f.world.time) then DialScript(n, connects) else [])
  {
    hide Dial, TearDownIf, RedialDelay, Says;
    var m, t := conn.name, Refreshed(f, conn);
    var g := f.(tunnels := f.tunnels[m := t]);
    connects := false;
    SaysNothing(f.world, n);
    TearDownSays(o, f.world, t.iface, t.subnets, n);
    if DueToDial(t, f.world.time) {
      var f' := Dial(o, g, m);
      DialOutcome(o, g, m);
      DialledSays(f.world.trace, f'.world.trace, m, f'.tunnels[m].phase == Connecting, n);
      connects := |f'.world.trace| == |f.world.trace| + 3;
      assert Says(f.world, f'.world, n, if m == n then DialScript(n, connects) else []) by {
        SaysBy(f.world, f'.world, n, if m == n then DialScript(n, connects) else []);
      }
    }
  }

  lemma SaysBy(w: World, w': World, n: string, script: seq<Command>)
    requires Said(w'.trace, n) == Said(w.trace, n) + script && w.time <= w'.time
    requires DialsInOrder(w.trace) ==> DialsInOrder(w'.trace)
    ensures Says(w, w', n, script)
  {
  }

  /** The record a step finds under a name before the loop. */
  function Found(f: Fleet, n: string): Tunnel {
    if n in f.tunnels then f.tunnels[n] else Tunnel(0, n, [], "", Disconnected, 0, 0, 0)
  }

  /** Nothing, or a dial, in the loop over the enabled connections: a dial if the
      tunnel was due at its start, none if it was not due at its end. */
  ghost predicate DialTail(f: Fleet, f': Fleet, n: string, listed: bool, tail: seq<Command>) {
    && tail in {[], DialScript(n, false), DialScript(n, true)}
    && (listed && DueToDial(Found(f, n), f.world.time) ==> tail != [])
    && (tail != [] ==> listed && DueToDial(Found(f, n), f'.world.time))
  }

  lemma {:induction false} StepEachSays(o: Setup, f: Fleet, conns: seq<Connection>, n: string) returns (tail: seq<Command>)
    requires NamesDistinct(conns)
    ensures var f' := StepEach(o, f, conns);
      Says(f.world, f'.world, n, tail) && DialTail(f, f', n, n in ConnNames(conns), tail)
    decreases |conns|
  {
    hide Step, Says, NamesDistinct;
    if conns == [] {
      SaysNothing(f.world, n);
      tail := [];
    } else {
      var conn, f1 := conns[0], Step(o, f, conns[0]);
      var f' := StepEach(o, f1, conns[1..]);
      var connects := StepSays(o, f, conn, n);
      var first := if conn.name == n && DueToDial(Refreshed(f, conn), f.world.time) then DialScript(n, connects) else [];
      RestNames(conns);
      var rest := StepEachSays(o, f1, conns[1..], n);
      SaysThen(f.world, f1.world, f'.world, n, first, rest);
      StepRecord(o, f, conn);
      assert ConnNames(conns) == {conn.name} + ConnNames(conns[1..]);
      TimeOf(f.world, f1.world, n, first);
      TimeOf(f1.world, f'.world, n, rest);
      tail := first + rest;
      if conn.name == n {
        assert rest == [] && tail == first;
      } else {
        assert tail == rest;
        assert Found(f1, n) == Found(f, n);
      }
    }
  }

  lemma TimeOf(w: World, w': World, n: string, script: seq<Command>)
    requires Says(w, w', n, script)
    ensures w.time <= w'.time
  {
  }

  // ----- the whole Reconcile

  /** What the loops say after a write that went through. */
  ghost predicate LoopScript(f: Fleet, f': Fleet, n: string, listed: bool, changed: seq<Definition>, script: seq<Command>) {
    exists tail :: script == Redefinitions(n in f.tunnels, changed, n) + tail
      && tail in {[], DialScript(n, false), DialScript(n, true)}
      && (tail != [] ==> listed)
      && (listed && (n in DefNames(changed) || n !in f.tunnels || DueToDial(f.tunnels[n], f.world.time)) ==> tail != [])
      && (n in f.tunnels && n !in DefNames(changed) && !DueToDial(f.tunnels[n], f'.world.time) ==> tail == [])
  }

  lemma LoopsSay(o: Setup, f: Fleet, changed: seq<Definition>, conns: seq<Connection>, i: Input, n: string)
    returns (script: seq<Command>)
    requires DefsDistinct(changed) && NamesDistinct(conns)
    ensures var f' := Advertise(o, StepEach(o, RedefineEach(o, f, changed), conns), i).0;
      Says(f.world, f'.world, n, script) && LoopScript(f, f', n, n in ConnNames(conns), changed, script)
  {
    hide RedefineEach, StepEach, Advertise, Says, NamesDistinct, DefsDistinct, ConnNames, DefNames, Redefinitions;
    var f3 := RedefineEach(o, f, changed);
    var f4 := StepEach(o, f3, conns);
    var f5 := Advertise(o, f4, i).0;
    var first := Redefinitions(n in f.tunnels, changed, n);
    RedefineEachSays(o, f, changed, n);
    RedefineEachRecords(o, f, changed);
    var tail := StepEachSays(o, f3, conns, n);
    SaysThen(f.world, f3.world, f4.world, n, first, tail);
    AdvertiseSays(o, f4, i, n);
    SaysThen(f.world, f4.world, f5.world, n, first + tail, []);
    script := first + tail;
    assert script + [] == script;
    TimeOf(f.world, f3.world, n, first);
    TimeOf(f4.world, f5.world, n, []);
  }

  /** What one Reconcile tells the daemons about a tunnel. One that is no longer
      asked for is hung up, removed and terminated. One whose definition changed
      is dropped, redefined and dialled at once. A new one is defined and dialled.
      Any other is dialled if it was due when the Reconcile started, and only if
      it was due when it ended. A listing or a write that fails says no more than
      the goodbyes. */
  lemma ReconcileScript(o: Setup, f: Fleet, i: Input, n: string) returns (script: seq<Command>)
    requires Filed(f.tunnels) && ProperInput(f, i)
    ensures var f' := Reconcile(o, f, i).0;
      && Says(f.world, f'.world, n, script)
      && (i.conns.None? ==> script == [])
      && (i.conns.Some? ==>
            var conns := Enabled(i.conns.value);
            var (f2, changed) := WriteConfigs(o, RemoveStale(o, f, i.staleOrder), conns, i);
            if n !in ConnNames(conns) then
              script == if n in f.tunnels then [LacDisconnect(n), LacRemove(n), Terminate(n)] else []
            else if changed.None? then script == []
            else f2.world.time <= f'.world.time && LoopScript(f2, f', n, true, changed.value, script))
  {
    hide WriteConfigs, RedefineEach, StepEach, Advertise, DisconnectEach, Enabled, Says, LoopScript, NamesDistinct,
         Distinct, Filed, ConnNames, DefNames, DefsDistinct, Redefinitions;
    var f' := Reconcile(o, f, i).0;
    if i.conns.None? {
      SaysNothing(f.world, n);
      return [];
    }
    var conns := Enabled(i.conns.value);
    var f1 := RemoveStale(o, f, i.staleOrder);
    var bye := if n in i.staleOrder && n in f.tunnels then [LacDisconnect(n), LacRemove(n), Terminate(n)] else [];
    DisconnectEachSays(o, f.world, f.tunnels, i.staleOrder, n);
    var (f2, changed) := WriteConfigs(o, f1, conns, i);
    WriteSays(o, f1, conns, i, n);
    SaysThen(f.world, f1.world, f2.world, n, bye, []);
    assert bye + [] == bye;
    if changed.None? {
      return bye;
    }
    ChangedNames(o, f1, conns, i);
    var rest := LoopsSay(o, f2, changed.value, conns, i, n);
    SaysThen(f.world, f2.world, f'.world, n, bye, rest);
    TimeOf(f2.world, f'.world, n, rest);
    script := bye + rest;
    if n !in ConnNames(conns) {
      NotListed(f2, f', n, changed.value, rest, ConnNames(conns));
      assert script == bye;
    } else {
      assert script == rest;
    }
  }

  lemma NotListed(f: Fleet, f': Fleet, n: string, changed: seq<Definition>, script: seq<Command>, names: set<string>)
    requires LoopScript(f, f', n, false, changed, script) && n !in names && DefNames(changed) <= names
    ensures script == []
  {
    hide DefNames, Redefinition;
    WantedSpec(changed, n);
  }

  /** The changed definitions are of listed tunnels, each once. */
  lemma ChangedNames(o: Setup, f: Fleet, conns: seq<Connection>, i: Input)
    requires NamesDistinct(conns) && WriteConfigs(o, f, conns, i).1.Some?
    ensures var changed := WriteConfigs(o, f, conns, i).1.value;
      DefsDistinct(changed) && DefNames(changed) <= ConnNames(conns)
  {
    hide Run, Fingerprints, ChangedTunnels, DesiredTunnels, NamesDistinct, DefsDistinct;
    var desired := DesiredTunnels(conns, i);
    var wanted := Fingerprints(desired.value);
    DesiredSpec(conns, i);
    DescribesNames(conns, desired.value);
    ChangedDistinct(f.rendered, wanted, desired.value);
    ChangedSpec(f.rendered, wanted, desired.value);
    NoDefs();
  }

  lemma NoDefs()
    ensures DefsDistinct([]) && DefNames([]) == {}
  {
  }

  // ----- dials in order, over runs

  lemma UpInOrder(o: Setup, f: Fleet, n: string, iface: string)
    requires DialsInOrder(f.world.trace)
    ensures DialsInOrder(PPPUp(o, f, n, iface).0.world.trace)
  {
    hide PPPUp, DialsInOrder;
    if n in f.tunnels {
      UpConfined(o, f, n, iface);
      KernelSays(f.world, PPPUp(o, f, n, iface).0.world.trace, n);
    } else {
      UnknownName(o, f, n, iface);
    }
  }

  lemma EventInOrder(o: Setup, f: Fleet, e: Event)
    requires DialsInOrder(f.world.trace) && Filed(f.tunnels) && (e.Reconciled? ==> ProperInput(f, e.input))
    ensures DialsInOrder(Next(o, f, e).world.trace)
  {
    hide DialsInOrder, Reconcile, PPPUp, TearDownIf, FromFiles, ProperInput, Filed, RedialDelay, Said;
    match e
    case Reconciled(i) => var script := ReconcileScript(o, f, i, "");
    case WentUp(name, iface) => UpInOrder(o, f, name, iface);
    case WentDown(name, iface) =>
      if name in f.tunnels {
        TearDownSays(o, f.world, if iface == "" then f.tunnels[name].iface else iface, f.tunnels[name].subnets, name);
      }
    case FoundUnhealthy(name) =>
      if name in f.tunnels {
        TearDownSays(o, f.world, f.tunnels[name].iface, f.tunnels[name].subnets, name);
      }
    case _ =>
  }

  /** Each name is listed once, whatever else happens. */
  ghost predicate ProperRun(o: Setup, f: Fleet, events: seq<Event>)
    decreases |events|
  {
    events == [] ||
    ((events[0].Reconciled? ==> ProperInput(f, events[0].input)) && ProperRun(o, Next(o, f, events[0]), events[1..]))
  }

  lemma {:induction false} RunInOrder(o: Setup, f: Fleet, events: seq<Event>)
    requires DialsInOrder(f.world.trace) && Filed(f.tunnels) && ProperRun(o, f, events)
    ensures DialsInOrder(RunAll(o, f, events).world.trace)
    decreases |events|
  {
    hide DialsInOrder, Filed, Next, ProperInput;
    if events != [] {
      EventInOrder(o, f, events[0]);
      EventFiled(o, f, events[0]);
      RunInOrder(o, Next(o, f, events[0]), events[1..]);
    }
  }

  /** L2TP is never dialled unprotected: in every run of every environment each
      connect directly follows an accepted IKE dial of the same tunnel, and each
      IKE dial a disconnect of it. */
  lemma NeverBare(o: Setup, f: Fleet, events: seq<Event>, k: nat)
    requires Initial(f) && ProperRun(o, f, events) && k < |RunAll(o, f, events).world.trace|
    ensures var tr := RunAll(o, f, events).world.trace;
      match tr[k].command
      case LacConnect(n) =>
        && k >= 2 && tr[k - 1].command == Initiate(n) && tr[k - 1].answer == Done
        && tr[k - 2].command == LacDisconnect(n)
      case Initiate(n) => k >= 1 && tr[k - 1].command == LacDisconnect(n)
      case _ => true
  {
    hide RunAll, ProperRun;
    RunInOrder(o, f, events);
    assert DialOk(RunAll(o, f, events).world.trace, k);
  }
}
