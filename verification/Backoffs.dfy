/** A tunnel's record against the history of what happened to it: phase, count
    of failures, and how long it waits. */
module Backoffs {
  import opened Common
  import opened Netip
  import opened Tables
  import opened Host
  import opened Reconciler
  import opened Agreement
  import opened Hooks

  /** What happened to a tunnel: it began afresh, created or dropped for an edit;
      its dial was accepted; it came up; it failed; it went down. */
  datatype Note =
    | Begun(name: string)
    | Called(name: string, at: nat)
    | Joined(name: string, iface: string)
    | Fell(name: string, at: nat)
    | Parted(name: string, at: nat)

  /** The failures since the tunnel last began afresh or came up. */
  function InARow(h: seq<Note>, n: string): nat {
    if h == [] then 0
    else
      var before, e := h[..|h| - 1], h[|h| - 1];
      if e.name != n then InARow(before, n)
      else
        match e
        case Begun(_) => 0
        case Joined(_, _) => 0
        case Fell(_, _) => InARow(before, n) + 1
        case Called(_, _) => InARow(before, n)
        case Parted(_, _) => InARow(before, n)
  }

  /** The last thing that happened to it. */
  function Last(h: seq<Note>, n: string): Option<Note> {
    if h == [] then None
    else if h[|h| - 1].name == n then Some(h[|h| - 1])
    else Last(h[..|h| - 1], n)
  }

  // ----- the notes of each event

  function BegunAll(names: seq<string>): seq<Note> {
    if names == [] then [] else [Begun(names[0])] + BegunAll(names[1..])
  }

  /** The last command run was a connect, and it was accepted. */
  predicate Connected(w: World, n: string) {
    w.trace != [] && w.trace[|w.trace| - 1].command == LacConnect(n) && w.trace[|w.trace| - 1].answer == Done
  }

  /** A step on a tunnel that is due fails it when it was connecting for too long,
      or when the dial did not end in an accepted connect. */
  function StepNotes(o: Setup, f: Fleet, conn: Connection): seq<Note> {
    var n, t, w := conn.name, Refreshed(f, conn), Step(o, f, conn).world;
    (if n in f.tunnels then [] else [Begun(n)])
    + (if !Due(o, t, f.world.time) then []
       else if t.phase == Connecting || !Connected(w, n) then [Fell(n, w.time)]
       else [Called(n, w.time)])
  }

  function StepEachNotes(o: Setup, f: Fleet, conns: seq<Connection>): seq<Note>
    decreases |conns|
  {
    if conns == [] then [] else StepNotes(o, f, conns[0]) + StepEachNotes(o, Step(o, f, conns[0]), conns[1..])
  }

  function NamesOf(defs: seq<Definition>): seq<string> {
    seq(|defs|, k requires 0 <= k < |defs| => defs[k].name)
  }

  function ReconcileNotes(o: Setup, f: Fleet, i: Input): seq<Note> {
    if i.conns.None? then []
    else
      var enabled := Enabled(i.conns.value);
      var (f2, changed) := WriteConfigs(o, RemoveStale(o, f, i.staleOrder), enabled, i);
      if changed.None? then []
      else
        var f3 := RedefineEach(o, f2, changed.value);
        BegunAll(NamesOf(changed.value)) + StepEachNotes(o, f3, enabled)
  }

  function Notes(o: Setup, f: Fleet, e: Event): seq<Note> {
    match e
    case Reconciled(i) => ReconcileNotes(o, f, i)
    case WentUp(name, iface) =>
      if name !in f.tunnels then []
      else if PPPUp(o, f, name, iface).1 then [Joined(name, iface)]
      else [Fell(name, PPPUp(o, f, name, iface).0.world.time)]
    case WentDown(name, iface) =>
      if name in f.tunnels then [Parted(name, PPPDown(o, f, name, iface).0.world.time)] else []
    case FoundUnhealthy(name) => if name in f.tunnels then [Fell(name, Unhealthy(o, f, name).world.time)] else []
    case _ => []
  }

  function History(o: Setup, f: Fleet, events: seq<Event>): seq<Note>
    decreases |events|
  {
    if events == [] then [] else Notes(o, f, events[0]) + History(o, Next(o, f, events[0]), events[1..])
  }

  // ----- the records agree with the history

  /** The record is the one the history calls for. */
  predicate Tallied(t: Tunnel, h: seq<Note>, n: string) {
    && t.failures == InARow(h, n)
    && match Last(h, n)
       case None => false
       case Some(Begun(_)) => t.phase == Disconnected && t.iface == "" && t.retryAt == 0
       case Some(Called(_, at)) => t.phase == Connecting && t.iface == "" && t.dialedAt == at
       case Some(Joined(_, iface)) => t.phase == Up && t.iface == iface && t.retryAt == 0
       case Some(Fell(_, at)) =>
         && t.phase == Failed && t.iface == "" && t.failures >= 1
         && t.retryAt == at + Min(MIN_REDIAL * Pow2(t.failures - 1), MAX_REDIAL)
       case Some(Parted(_, at)) => t.phase == Disconnected && t.iface == "" && t.retryAt == at + MIN_REDIAL
  }

  ghost predicate AllTallied(f: Fleet, h: seq<Note>) {
    forall n :: n in f.tunnels ==> Tallied(f.tunnels[n], h, n)
  }

  lemma NoteEffect(h: seq<Note>, e: Note, n: string)
    ensures e.name != n ==> InARow(h + [e], n) == InARow(h, n) && Last(h + [e], n) == Last(h, n)
    ensures e.name == n ==> Last(h + [e], n) == Some(e)
    ensures e.name == n ==>
      InARow(h + [e], n) == if e.Begun? || e.Joined? then 0 else if e.Fell? then InARow(h, n) + 1 else InARow(h, n)
  {
    assert (h + [e])[..|h|] == h;
  }

  /** One tunnel's record replaced along with a note about it. */
  lemma NoteKeeps(f: Fleet, h: seq<Note>, n: string, t: Tunnel, w: World, e: Note)
    requires AllTallied(f, h) && e.name == n && Tallied(t, h + [e], n)
    ensures AllTallied(f.(tunnels := f.tunnels[n := t], world := w), h + [e])
  {
    hide InARow, Last;
    forall m | m in f.tunnels && m != n ensures Tallied(f.tunnels[m], h + [e], m) {
      NoteEffect(h, e, m);
    }
  }

  lemma FellKeeps(f: Fleet, h: seq<Note>, n: string, t: Tunnel, w: World)
    requires AllTallied(f, h) && n in f.tunnels && t.failures == f.tunnels[n].failures && t.iface == ""
    ensures AllTallied(f.(tunnels := f.tunnels[n := FailedAt(t, w.time)], world := w), h + [Fell(n, w.time)])
  {
    hide InARow, Last, Pow2, AllTallied;
    var e := Fell(n, w.time);
    TalliedAt(f, h, n);
    NoteEffect(h, e, n);
    BackoffExact(t.failures + 1);
    NoteKeeps(f, h, n, FailedAt(t, w.time), w, e);
  }

  lemma TalliedAt(f: Fleet, h: seq<Note>, n: string)
    requires AllTallied(f, h) && n in f.tunnels
    ensures Tallied(f.tunnels[n], h, n)
  {
  }

  lemma BegunKeeps(f: Fleet, h: seq<Note>, n: string, t: Tunnel, w: World)
    requires AllTallied(f, h) && t.failures == 0 && t.phase == Disconnected && t.iface == "" && t.retryAt == 0
    ensures AllTallied(f.(tunnels := f.tunnels[n := t], world := w), h + [Begun(n)])
  {
    hide InARow, Last, AllTallied;
    NoteEffect(h, Begun(n), n);
    NoteKeeps(f, h, n, t, w, Begun(n));
  }

  /** A tunnel that waits holds no interface. */
  lemma WaitingHoldsNone(f: Fleet, h: seq<Note>, n: string)
    requires AllTallied(f, h) && n in f.tunnels && f.tunnels[n].phase != Up
    ensures f.tunnels[n].iface == ""
  {
    hide InARow, Last, Pow2;
    TalliedAt(f, h, n);
  }

  lemma FailTallied(o: Setup, f: Fleet, h: seq<Note>, n: string, iface: string)
    requires AllTallied(f, h) && n in f.tunnels
    ensures AllTallied(Fail(o, f, n, iface), h + [Fell(n, Fail(o, f, n, iface).world.time)])
  {
    hide TearDownIf, AllTallied, FailedAt;
    var t := f.tunnels[n];
    FellKeeps(f, h, n, t.(iface := ""), TearDownIf(o, f.world, iface, t.subnets));
  }

  // ----- Reconcile

  lemma StaleTallied(o: Setup, f: Fleet, h: seq<Note>, stale: seq<string>)
    requires AllTallied(f, h)
    ensures AllTallied(RemoveStale(o, f, stale), h)
  {
    hide Tallied, DisconnectEach;
  }

  lemma RedefineTallied(o: Setup, f: Fleet, h: seq<Note>, d: Definition)
    requires AllTallied(f, h)
    ensures AllTallied(Redefine(o, f, d), h + [Begun(d.name)])
  {
    hide Run, TearDownIf, InARow, Last, Pow2;
    var n, f' := d.name, Redefine(o, f, d);
    if n in f.tunnels {
      BegunKeeps(f, h, n, Dropped(f.tunnels[n]), f'.world);
    } else {
      forall m | m in f.tunnels ensures Tallied(f.tunnels[m], h + [Begun(n)], m) {
        NoteEffect(h, Begun(n), m);
      }
    }
  }

  lemma {:induction false} RedefineEachTallied(o: Setup, f: Fleet, h: seq<Note>, defs: seq<Definition>)
    requires AllTallied(f, h)
    ensures AllTallied(RedefineEach(o, f, defs), h + BegunAll(NamesOf(defs)))
    decreases |defs|
  {
    hide Redefine, AllTallied;
    if defs == [] {
      assert h + BegunAll(NamesOf(defs)) == h;
    } else {
      var e := Begun(defs[0].name);
      RedefineTallied(o, f, h, defs[0]);
      RedefineEachTallied(o, Redefine(o, f, defs[0]), h + [e], defs[1..]);
      assert NamesOf(defs)[1..] == NamesOf(defs[1..]);
      assert h + BegunAll(NamesOf(defs)) == h + [e] + BegunAll(NamesOf(defs[1..]));
    }
  }

  lemma SameTallied(f: Fleet, f': Fleet, h: seq<Note>)
    requires AllTallied(f, h) && f'.tunnels == f.tunnels
    ensures AllTallied(f', h)
  {
    hide Tallied;
  }

  /** The tunnel brought up to date, or created. */
  lemma RefreshTallied(f: Fleet, h: seq<Note>, conn: Connection)
    requires AllTallied(f, h)
    ensures var g := f.(tunnels := f.tunnels[conn.name := Refreshed(f, conn)]);
      AllTallied(g, h + if conn.name in f.tunnels then [] else [Begun(conn.name)])
  {
    hide InARow, Last, Pow2;
    if conn.name in f.tunnels {
      assert h + [] == h;
      TalliedAt(f, h, conn.name);
    } else {
      BegunKeeps(f, h, conn.name, Refreshed(f, conn), f.world);
    }
  }

  /** A dial fails exactly when it does not end in an accepted connect. */
  lemma DialTallied(o: Setup, f: Fleet, h: seq<Note>, n: string)
    requires AllTallied(f, h) && n in f.tunnels && f.tunnels[n].phase != Up
    ensures var f' := Dial(o, f, n);
      AllTallied(f', h + [if Connected(f'.world, n) then Called(n, f'.world.time) else Fell(n, f'.world.time)])
  {
    hide AllTallied, FailedAt, Perform;
    var t, w1 := f.tunnels[n], Run(o.env, f.world, LacDisconnect(n)).0;
    var (w2, a) := Run(o.env, w1, Initiate(n));
    var (w3, b) := Run(o.env, w2, LacConnect(n));
    WaitingHoldsNone(f, h, n);
    if a != Done {
      FellKeeps(f, h, n, t, w2);
    } else if b != Done {
      FellKeeps(f, h, n, t, w3);
    } else {
      ConnectingTallied(f, h, n, w3);
    }
  }

  lemma ConnectingTallied(f: Fleet, h: seq<Note>, n: string, w: World)
    requires AllTallied(f, h) && n in f.tunnels && f.tunnels[n].phase != Up
    ensures AllTallied(MarkConnecting(f.(world := w), n), h + [Called(n, w.time)])
  {
    hide InARow, Last, Pow2, AllTallied;
    TalliedAt(f, h, n);
    WaitingHoldsNone(f, h, n);
    NoteEffect(h, Called(n, w.time), n);
    NoteKeeps(f, h, n, f.tunnels[n].(phase := Connecting, dialedAt := w.time), w, Called(n, w.time));
  }

  lemma StepTallied(o: Setup, f: Fleet, h: seq<Note>, conn: Connection)
    requires AllTallied(f, h)
    ensures AllTallied(Step(o, f, conn), h + StepNotes(o, f, conn))
  {
    hide AllTallied, Dial, Fail, Connected;
    var n, t := conn.name, Refreshed(f, conn);
    var g := f.(tunnels := f.tunnels[n := t]);
    var created := if n in f.tunnels then [] else [Begun(n)];
    var h1 := h + created;
    RefreshTallied(f, h, conn);
    FailTallied(o, g, h1, n, t.iface);
    if t.phase != Up {
      DialTallied(o, g, h1, n);
    }
    assert h1 + [] == h1;
    assert h + StepNotes(o, f, conn) == h1 + StepNotes(o, f, conn)[|created|..];
  }

  lemma {:induction false} StepEachTallied(o: Setup, f: Fleet, h: seq<Note>, conns: seq<Connection>)
    requires AllTallied(f, h)
    ensures AllTallied(StepEach(o, f, conns), h + StepEachNotes(o, f, conns))
    decreases |conns|
  {
    hide Step, AllTallied, StepNotes;
    if conns == [] {
      assert h + StepEachNotes(o, f, conns) == h;
    } else {
      var notes := StepNotes(o, f, conns[0]);
      StepTallied(o, f, h, conns[0]);
      StepEachTallied(o, Step(o, f, conns[0]), h + notes, conns[1..]);
      assert h + StepEachNotes(o, f, conns) == h + notes + StepEachNotes(o, Step(o, f, conns[0]), conns[1..]);
    }
  }

  lemma ReconcileTallied(o: Setup, f: Fleet, h: seq<Note>, i: Input)
    requires AllTallied(f, h)
    ensures AllTallied(Reconcile(o, f, i).0, h + ReconcileNotes(o, f, i))
  {
    hide AllTallied, RemoveStale, WriteConfigs, RedefineEach, StepEach, Advertise, Enabled, BegunAll, StepEachNotes,
         NamesOf;
    if i.conns.None? {
      assert h + [] == h;
    } else {
      var enabled := Enabled(i.conns.value);
      var f1 := RemoveStale(o, f, i.staleOrder);
      StaleTallied(o, f, h, i.staleOrder);
      var (f2, changed) := WriteConfigs(o, f1, enabled, i);
      WriteConfigsFrame(o, f1, enabled, i);
      SameTallied(f1, f2, h);
      if changed.None? {
        assert h + ReconcileNotes(o, f, i) == h;
      } else {
        var f3, h3 := RedefineEach(o, f2, changed.value), h + BegunAll(NamesOf(changed.value));
        RedefineEachTallied(o, f2, h, changed.value);
        StepEachTallied(o, f3, h3, enabled);
        var f4, h4 := StepEach(o, f3, enabled), h3 + StepEachNotes(o, f3, enabled);
        AdvertiseFrame(o, f4, i);
        SameTallied(f4, Advertise(o, f4, i).0, h4);
        assert h + ReconcileNotes(o, f, i) == h4;
      }
    }
  }

  // ----- every event, every run

  lemma UpTallied(o: Setup, f: Fleet, h: seq<Note>, n: string, iface: string)
    requires AllTallied(f, h) && n in f.tunnels
    ensures AllTallied(PPPUp(o, f, n, iface).0, h + Notes(o, f, WentUp(n, iface)))
  {
    hide AllTallied, Install, Fail, PPPUp;
    var t := f.tunnels[n];
    var w := Install(o.env, f.world, iface, t.subnets).0;
    UpIsInstall(o, f, n, iface);
    SameTallied(f, f.(world := w), h);
    FailTallied(o, f.(world := w), h, n, iface);
    JoinedKeeps(f, h, n, iface, w);
  }

  lemma JoinedKeeps(f: Fleet, h: seq<Note>, n: string, iface: string, w: World)
    requires AllTallied(f, h) && n in f.tunnels
    ensures var t := f.tunnels[n].(iface := iface, phase := Up, failures := 0, retryAt := 0);
      AllTallied(f.(tunnels := f.tunnels[n := t], world := w), h + [Joined(n, iface)])
  {
    hide InARow, Last, AllTallied;
    NoteEffect(h, Joined(n, iface), n);
    NoteKeeps(f, h, n, f.tunnels[n].(iface := iface, phase := Up, failures := 0, retryAt := 0), w, Joined(n, iface));
  }

  lemma DownTallied(o: Setup, f: Fleet, h: seq<Note>, n: string, iface: string)
    requires AllTallied(f, h) && n in f.tunnels
    ensures AllTallied(PPPDown(o, f, n, iface).0, h + [Parted(n, PPPDown(o, f, n, iface).0.world.time)])
  {
    hide TearDownIf, InARow, Last, Pow2, AllTallied;
    var t, f' := f.tunnels[n], PPPDown(o, f, n, iface).0;
    var e := Parted(n, f'.world.time);
    TalliedAt(f, h, n);
    NoteEffect(h, e, n);
    NoteKeeps(f, h, n, f'.tunnels[n], f'.world, e);
  }

  lemma EventTallied(o: Setup, f: Fleet, h: seq<Note>, e: Event)
    requires AllTallied(f, h)
    ensures AllTallied(Next(o, f, e), h + Notes(o, f, e))
  {
    hide AllTallied, Reconcile, PPPUp, TearDownIf, FromFiles, ReconcileNotes, RedialDelay;
    assert h + [] == h;
    match e
    case Reconciled(i) => ReconcileTallied(o, f, h, i);
    case WentUp(name, iface) =>
      if name in f.tunnels {
        UpTallied(o, f, h, name, iface);
      } else {
        UnknownName(o, f, name, iface);
      }
    case WentDown(name, iface) =>
      if name in f.tunnels {
        DownTallied(o, f, h, name, iface);
      }
    case FoundUnhealthy(name) =>
      if name in f.tunnels {
        FailTallied(o, f, h, name, f.tunnels[name].iface);
      }
    case _ => SameTallied(f, Next(o, f, e), h);
  }

  lemma {:induction false} RunTallied(o: Setup, f: Fleet, h: seq<Note>, events: seq<Event>)
    requires AllTallied(f, h)
    ensures AllTallied(RunAll(o, f, events), h + History(o, f, events))
    decreases |events|
  {
    hide AllTallied, Next, Notes;
    if events == [] {
      assert h + History(o, f, events) == h;
    } else {
      var notes, f1 := Notes(o, f, events[0]), Next(o, f, events[0]);
      EventTallied(o, f, h, events[0]);
      RunTallied(o, f1, h + notes, events[1..]);
      assert h + History(o, f, events) == h + notes + History(o, f1, events[1..]);
    }
  }

  /** In every environment and every run the record is the one the history calls
      for. A tunnel's count is the number of its failures since it began or came
      up. A failed one waits from its last failure for ten seconds doubled with
      each further one, up to five minutes; one that went down waits ten seconds;
      one that began afresh does not wait. One whose dial was accepted connects
      since that moment. Dials that fail, dials that time out, up hooks that fail
      and failed health checks count alike. */
  lemma RecordExact(o: Setup, f: Fleet, events: seq<Event>, n: string)
    requires Initial(f) && n in RunAll(o, f, events).tunnels
    ensures var t, h := RunAll(o, f, events).tunnels[n], History(o, f, events);
      && t.failures == InARow(h, n)
      && Last(h, n).Some?
      && match Last(h, n).value
         case Begun(_) => t.phase == Disconnected && t.iface == "" && t.retryAt == 0
         case Called(_, at) => t.phase == Connecting && t.iface == "" && t.dialedAt == at
         case Joined(_, iface) => t.phase == Up && t.iface == iface && t.retryAt == 0
         case Fell(_, at) =>
           && t.phase == Failed && t.iface == "" && t.failures >= 1
           && t.retryAt == at + Min(10 * SECOND * Pow2(t.failures - 1), 300 * SECOND)
         case Parted(_, at) => t.phase == Disconnected && t.iface == "" && t.retryAt == at + 10 * SECOND
  {
    hide RunAll, History, InARow, Last, Pow2;
    assert AllTallied(f, []);
    RunTallied(o, f, [], events);
    assert [] + History(o, f, events) == History(o, f, events);
    TalliedAt(RunAll(o, f, events), History(o, f, events), n);
  }
}
