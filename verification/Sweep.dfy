/** Address enumeration and the sweep: a pool of workers fed over a channel,
    reporting over another into a scan job. */
module Sweep {
  import opened Netip
  import opened Common

  const MAX_SWEEP_BITS: nat := 22

  // ----- Hosts

  datatype Listing = Addresses(addrs: seq<Addr>) | NotIPv4 | TooLarge

  /** `Addr.Next`: none after the last address of the family. */
  function NextAddr(a: Addr): Option<Addr> {
    if a.value + 1 < Pow2(Width(a.family)) then Some(Addr(a.family, a.value + 1)) else None
  }

  /** `Prefix.Masked` */
  function MaskedOf(p: Prefix): (m: Prefix)
    requires p.Valid()
    ensures GoodPrefix(m) && m.family == p.family && m.bits == p.bits
  {
    var d := Pow2(p.HostBits());
    MaskFacts(p.base, d);
    Prefix(p.family, p.base - p.base % d, p.bits)
  }

  lemma MaskFacts(x: nat, d: nat)
    requires d > 0
    ensures 0 <= x - x % d <= x && (x - x % d) % d == 0
  {
    var q := x / d;
    assert x - x % d == q * d + 0;
    RemainderAtMost(x, d);
    DivUnique(x - x % d, d, q, 0);
  }

  lemma RemainderAtMost(x: nat, d: nat)
    requires d > 0
    ensures 0 <= x % d <= x
  {
    var q := Quotient(x, d);
    assert x == q * d + x % d;
    assert q * d >= 0;
  }

  /** Consecutive addresses. */
  function Run(f: Family, first: nat, count: nat): seq<Addr> {
    seq(count, k requires 0 <= k < count => Addr(f, first + k))
  }

  /** How many addresses are left out at each end. */
  function Margin(bits: nat): nat {
    if bits <= 30 then 1 else 0
  }

  lemma SmallBlock(k: nat)
    requires k <= 10
    ensures Pow2(k) <= 1024 && (k >= 2 ==> Pow2(k) >= 4) && (k <= 1 ==> Pow2(k) <= 2)
  {
    PowMonotone(k, 10);
    assert Pow2(10) == 1024 by {
      assert Pow2(5) == 32;
      PowAdd(5, 5);
    }
    if k >= 2 {
      assert Pow2(2) == 4;
      PowMonotone(2, k);
    }
  }

  /** The addresses of an IPv4 prefix of length 22 to 32, ascending, less the
      first and the last up to length 30; never none, at most 1022. */
  method Hosts(prefix: Prefix) returns (r: Listing)
    requires prefix.Valid()
    ensures prefix.family != V4 <==> r == NotIPv4
    ensures prefix.family == V4 && prefix.bits < 22 <==> r == TooLarge
    ensures r.Addresses? ==>
      var p, m := MaskedOf(prefix), Margin(prefix.bits);
      && 2 * m < Pow2(p.HostBits())
      && r.addrs == Run(V4, p.base + m, Pow2(p.HostBits()) - 2 * m)
      && 1 <= |r.addrs| <= 1022
  {
    hide Pow2;
    var p := MaskedOf(prefix);
    if p.family != V4 {
      return NotIPv4;
    }
    if p.bits < MAX_SWEEP_BITS {
      return TooLarge;
    }
    ghost var size := Pow2(p.HostBits());
    SmallBlock(p.HostBits());
    LastInRange(p);
    var hosts: seq<Addr> := [];
    var addr := Some(First(p));
    while addr.Some? && p.Contains(addr.value)
      invariant |hosts| <= size && hosts == Run(V4, p.base, |hosts|)
      invariant addr == Some(Addr(V4, p.base + |hosts|)) || (addr == None && |hosts| == size)
      decreases size - |hosts|, addr.Some?
    {
      ContainsRange(p, addr.value);
      hosts := hosts + [addr.value];
      addr := NextAddr(addr.value);
    }
    if addr.Some? {
      ContainsRange(p, addr.value);
    }
    assert |hosts| == size;
    if p.bits <= 30 {
      assert hosts[1..|hosts| - 1] == Run(V4, p.base + 1, size - 2);
      hosts := hosts[1..|hosts| - 1];
    }
    return Addresses(hosts);
  }

  /** What the list means: the prefix's addresses but for network and broadcast,
      which a /31 keeps (section 2.1 of RFC 3021), each once. */
  lemma HostsMeaning(p: Prefix, a: Addr)
    requires GoodPrefix(p) && p.family == V4 && MAX_SWEEP_BITS <= p.bits
    ensures var size, m := Pow2(p.HostBits()), Margin(p.bits);
      && 2 * m < size
      && (a in Run(V4, p.base + m, size - 2 * m) <==>
            p.Contains(a) && (p.bits <= 30 ==> a.value != p.base && a.value != p.base + size - 1))
      && Distinct(Run(V4, p.base + m, size - 2 * m))
  {
    hide Pow2;
    var size, m := Pow2(p.HostBits()), Margin(p.bits);
    SmallBlock(p.HostBits());
    ContainsRange(p, a);
    var hosts := Run(V4, p.base + m, size - 2 * m);
    if a.family == V4 && p.base + m <= a.value < p.base + size - m {
      assert hosts[a.value - p.base - m] == a;
    }
  }

  // ----- the protocol

  datatype Worker = Idle | Pinging(addr: Addr) | Sending(addr: Addr) | Exited

  /** Where the sweeping goroutine is: handing out hosts; waiting for the workers
      with the queue closed; waiting for the drain with the results closed;
      finished, with the job marked done. */
  datatype Main = Dispatching | Waiting | Closed | Done

  datatype Drain = Receiving | Holding(addr: Addr) | Drained

  datatype State = State(
    hosts: seq<Addr>, sent: nat, main: Main, workers: seq<Worker>, drain: Drain, cancelled: bool,
    aborted: bool,              // the sweep returned an error, which the job then holds
    job: seq<Addr>,
    silent: multiset<Addr>,     // pinged without an answer
    answered: multiset<Addr>,   // pinged with an answer
    reported: multiset<Addr>,   // handed to the results channel
    dropped: multiset<Addr>)    // answered, given up on cancellation

  datatype Step =
    | Dispatch(k: nat) | CancelDispatch | CloseQueue
    | PingFails(k: nat) | PingAnswers(k: nat)
    | Send(k: nat) | CancelSend(k: nat) | Exit(k: nat)
    | CloseResults | Append | EndDrain | Finish | Cancel

  predicate Enabled(s: State, step: Step) {
    match step
    case Dispatch(k) => s.main == Dispatching && s.sent < |s.hosts| && k < |s.workers| && s.workers[k].Idle?
    case CancelDispatch => s.main == Dispatching && s.sent < |s.hosts| && s.cancelled
    case CloseQueue => s.main == Dispatching && s.sent == |s.hosts|
    case PingFails(k) => k < |s.workers| && s.workers[k].Pinging?
    case PingAnswers(k) => k < |s.workers| && s.workers[k].Pinging?
    case Send(k) => k < |s.workers| && s.workers[k].Sending? && s.drain.Receiving?
    case CancelSend(k) => k < |s.workers| && s.workers[k].Sending? && s.cancelled
    case Exit(k) => k < |s.workers| && s.workers[k].Idle? && s.main != Dispatching
    case CloseResults => s.main == Waiting && forall k :: 0 <= k < |s.workers| ==> s.workers[k].Exited?
    case Append => s.drain.Holding?
    case EndDrain => s.drain.Receiving? && (s.main == Closed || s.main == Done)
    case Finish => s.main == Closed && s.drain.Drained?
    case Cancel => !s.cancelled
  }

  function Apply(s: State, step: Step): State
    requires Enabled(s, step)
  {
    match step
    case Dispatch(k) => s.(workers := s.workers[k := Pinging(s.hosts[s.sent])], sent := s.sent + 1)
    case CancelDispatch => s.(main := Waiting, aborted := true)
    case CloseQueue => s.(main := Waiting)
    case PingFails(k) => s.(workers := s.workers[k := Idle], silent := s.silent + multiset{s.workers[k].addr})
    case PingAnswers(k) =>
      s.(workers := s.workers[k := Sending(s.workers[k].addr)], answered := s.answered + multiset{s.workers[k].addr})
    case Send(k) =>
      s.(workers := s.workers[k := Idle], drain := Holding(s.workers[k].addr), reported := s.reported + multiset{s.workers[k].addr})
    case CancelSend(k) => s.(workers := s.workers[k := Exited], dropped := s.dropped + multiset{s.workers[k].addr})
    case Exit(k) => s.(workers := s.workers[k := Exited])
    case CloseResults => s.(main := Closed)
    case Append => s.(job := s.job + [s.drain.addr], drain := Receiving)
    case EndDrain => s.(drain := Drained)
    case Finish => s.(main := Done)
    case Cancel => s.(cancelled := true)
  }

  /** `Sweep` starts at most one worker per host. */
  predicate Initial(s: State, workers: int) {
    && s.sent == 0 && s.main == Dispatching && s.drain == Receiving && !s.cancelled && !s.aborted && s.job == []
    && s.silent == s.answered == s.reported == s.dropped == multiset{}
    && |s.workers| == (var w := if workers <= 0 then 64 else workers; if w < |s.hosts| then w else |s.hosts|)
    && forall k :: 0 <= k < |s.workers| ==> s.workers[k].Idle?
  }

  // ----- what is in flight

  function Has(w: Worker): multiset<Addr> {
    match w
    case Pinging(a) => multiset{a}
    case Sending(a) => multiset{a}
    case Idle | Exited => multiset{}
  }

  function HasAnswer(w: Worker): multiset<Addr> {
    if w.Sending? then multiset{w.addr} else multiset{}
  }

  function InFlight(ws: seq<Worker>): multiset<Addr> {
    if ws == [] then multiset{} else Has(ws[0]) + InFlight(ws[1..])
  }

  function Answers(ws: seq<Worker>): multiset<Addr> {
    if ws == [] then multiset{} else HasAnswer(ws[0]) + Answers(ws[1..])
  }

  function Held(d: Drain): multiset<Addr> {
    if d.Holding? then multiset{d.addr} else multiset{}
  }

  lemma {:induction false} CountUpdate(ws: seq<Worker>, k: nat, w: Worker, a: Addr)
    requires k < |ws|
    ensures InFlight(ws[k := w])[a] + Has(ws[k])[a] == InFlight(ws)[a] + Has(w)[a]
    ensures Answers(ws[k := w])[a] + HasAnswer(ws[k])[a] == Answers(ws)[a] + HasAnswer(w)[a]
  {
    hide Has, HasAnswer;
    if k == 0 {
      assert ws[0 := w][1..] == ws[1..];
    } else {
      CountUpdate(ws[1..], k - 1, w, a);
      assert ws[k := w][1..] == ws[1..][k - 1 := w];
    }
  }

  lemma {:induction false} NoneInFlight(ws: seq<Worker>)
    requires forall k :: 0 <= k < |ws| ==> ws[k].Idle? || ws[k].Exited?
    ensures InFlight(ws) == multiset{} && Answers(ws) == multiset{}
  {
    if ws != [] {
      NoneInFlight(ws[1..]);
    }
  }

  // ----- the invariant

  /** Every host handed out is in one place: with a worker, silent, given up, or
      on its way into the job; and likewise every answer. */
  ghost predicate Conserved(s: State) {
    s.sent <= |s.hosts| && forall a: Addr :: ConservedAt(s, a)
  }

  ghost predicate ConservedAt(s: State, a: Addr)
    requires s.sent <= |s.hosts|
  {
    && multiset(s.hosts[..s.sent])[a] == InFlight(s.workers)[a] + s.silent[a] + s.dropped[a] + s.reported[a]
    && s.answered[a] == Answers(s.workers)[a] + s.dropped[a] + s.reported[a]
    && s.reported[a] == Held(s.drain)[a] + multiset(s.job)[a]
  }

  ghost predicate Orderly(s: State) {
    && |s.workers| >= 1
    && (s.main == Closed || s.main == Done ==> forall k :: 0 <= k < |s.workers| ==> s.workers[k].Exited?)
    && (s.drain.Drained? ==> s.main == Closed || s.main == Done)
    && (s.main == Done ==> s.drain.Drained?)
    && (!s.cancelled ==> s.dropped == multiset{})
    && (!s.cancelled && s.main == Dispatching ==> forall k :: 0 <= k < |s.workers| ==> !s.workers[k].Exited?)
    && (s.aborted ==> s.cancelled && s.main != Dispatching && s.sent < |s.hosts|)
    && (!s.aborted && s.main != Dispatching ==> s.sent == |s.hosts|)
  }

  ghost predicate Inv(s: State) {
    Conserved(s) && Orderly(s)
  }

  /** Some host exists, so some worker does. */
  lemma InitialInv(s: State, workers: int)
    requires Initial(s, workers) && s.hosts != []
    ensures Inv(s)
  {
    NoneInFlight(s.workers);
    assert s.hosts[..0] == [];
  }

  lemma StepConserves(s: State, step: Step)
    requires Inv(s) && Enabled(s, step)
    ensures Conserved(Apply(s, step))
  {
    hide ConservedAt, Orderly, Apply, Enabled;
    forall a: Addr
      ensures Apply(s, step).sent <= |Apply(s, step).hosts| && ConservedAt(Apply(s, step), a)
    {
      StepConservesAt(s, step, a);
    }
    SentStays(s, step);
  }

  lemma SentStays(s: State, step: Step)
    requires s.sent <= |s.hosts| && Enabled(s, step)
    ensures Apply(s, step).sent <= |Apply(s, step).hosts|
  {
  }

  lemma StepConservesAt(s: State, step: Step, a: Addr)
    requires s.sent <= |s.hosts| && ConservedAt(s, a) && Enabled(s, step)
    ensures Apply(s, step).sent <= |Apply(s, step).hosts| && ConservedAt(Apply(s, step), a)
  {
    hide ConservedAt, Apply, Enabled;
    match step
    case Dispatch(k) => DispatchConserves(s, k, a);
    case PingFails(k) => SilenceConserves(s, k, a);
    case PingAnswers(k) => AnswerConserves(s, k, a);
    case Send(k) => SendConserves(s, k, a);
    case CancelSend(k) => GiveUpConserves(s, k, a);
    case Exit(k) => ExitConserves(s, k, a);
    case Append => AppendConserves(s, a);
    case _ => MoveConserves(s, step, a);
  }

  lemma MoveConserves(s: State, step: Step, a: Addr)
    requires s.sent <= |s.hosts| && ConservedAt(s, a) && Enabled(s, step)
    requires step in {CancelDispatch, CloseQueue, CloseResults, EndDrain, Finish, Cancel}
    ensures Apply(s, step).sent <= |Apply(s, step).hosts| && ConservedAt(Apply(s, step), a)
  {
    hide ConservedAt;
    OtherConserves(s, Apply(s, step), a);
  }

  /** Steps that only move the sweep along. */
  lemma OtherConserves(s: State, s': State, a: Addr)
    requires s.sent <= |s.hosts| && ConservedAt(s, a)
    requires s'.hosts == s.hosts && s'.sent == s.sent && s'.workers == s.workers && s'.job == s.job
    requires s'.silent == s.silent && s'.answered == s.answered && s'.reported == s.reported && s'.dropped == s.dropped
    requires Held(s'.drain) == Held(s.drain)
    ensures ConservedAt(s', a)
  {
    hide InFlight, Answers, Held;
  }

  lemma OneMore(hosts: seq<Addr>, sent: nat, a: Addr)
    requires sent < |hosts|
    ensures multiset(hosts[..sent + 1])[a] == multiset(hosts[..sent])[a] + multiset{hosts[sent]}[a]
  {
    assert hosts[..sent + 1] == hosts[..sent] + [hosts[sent]];
  }

  lemma DispatchConserves(s: State, k: nat, a: Addr)
    requires s.sent <= |s.hosts| && ConservedAt(s, a) && Enabled(s, Dispatch(k))
    ensures Apply(s, Dispatch(k)).sent <= |Apply(s, Dispatch(k)).hosts| && ConservedAt(Apply(s, Dispatch(k)), a)
  {
    hide ConservedAt;
    var w := Pinging(s.hosts[s.sent]);
    assert Has(w) == multiset{s.hosts[s.sent]} && Has(s.workers[k]) == multiset{};
    assert HasAnswer(w) == multiset{} && HasAnswer(s.workers[k]) == multiset{};
    HandOut(s, Apply(s, Dispatch(k)), k, w, a);
  }

  /** A host leaves the list and is with a worker. */
  lemma HandOut(s: State, s': State, k: nat, w: Worker, a: Addr)
    requires s.sent < |s.hosts| && ConservedAt(s, a) && k < |s.workers|
    requires s'.hosts == s.hosts && s'.sent == s.sent + 1 && s'.workers == s.workers[k := w]
    requires s'.job == s.job && s'.drain == s.drain && s'.silent == s.silent
    requires s'.answered == s.answered && s'.reported == s.reported && s'.dropped == s.dropped
    requires Has(w)[a] == Has(s.workers[k])[a] + multiset{s.hosts[s.sent]}[a]
    requires HasAnswer(w)[a] == HasAnswer(s.workers[k])[a]
    ensures ConservedAt(s', a)
  {
    hide InFlight, Answers, Has, HasAnswer, Held;
    CountUpdate(s.workers, k, w, a);
    OneMore(s.hosts, s.sent, a);
  }

  /** What a worker lets go of is what the tallies gain. */
  lemma Rebalance(s: State, s': State, k: nat, w: Worker, a: Addr)
    requires s.sent <= |s.hosts| && ConservedAt(s, a) && k < |s.workers|
    requires s'.hosts == s.hosts && s'.sent == s.sent && s'.job == s.job && s'.workers == s.workers[k := w]
    requires Has(s.workers[k])[a] + s.silent[a] + s.dropped[a] + s.reported[a]
          == Has(w)[a] + s'.silent[a] + s'.dropped[a] + s'.reported[a]
    requires HasAnswer(s.workers[k])[a] + s.dropped[a] + s.reported[a] + s'.answered[a]
          == HasAnswer(w)[a] + s'.dropped[a] + s'.reported[a] + s.answered[a]
    requires s'.reported[a] + Held(s.drain)[a] == s.reported[a] + Held(s'.drain)[a]
    ensures ConservedAt(s', a)
  {
    hide InFlight, Answers, Has, HasAnswer, Held;
    CountUpdate(s.workers, k, w, a);
  }

  lemma SilenceConserves(s: State, k: nat, a: Addr)
    requires s.sent <= |s.hosts| && ConservedAt(s, a) && Enabled(s, PingFails(k))
    ensures Apply(s, PingFails(k)).sent <= |Apply(s, PingFails(k)).hosts| && ConservedAt(Apply(s, PingFails(k)), a)
  {
    hide InFlight, Answers, ConservedAt;
    Rebalance(s, Apply(s, PingFails(k)), k, Idle, a);
  }

  lemma AnswerConserves(s: State, k: nat, a: Addr)
    requires s.sent <= |s.hosts| && ConservedAt(s, a) && Enabled(s, PingAnswers(k))
    ensures Apply(s, PingAnswers(k)).sent <= |Apply(s, PingAnswers(k)).hosts| && ConservedAt(Apply(s, PingAnswers(k)), a)
  {
    hide InFlight, Answers, ConservedAt;
    Rebalance(s, Apply(s, PingAnswers(k)), k, Sending(s.workers[k].addr), a);
  }

  lemma SendConserves(s: State, k: nat, a: Addr)
    requires s.sent <= |s.hosts| && ConservedAt(s, a) && Enabled(s, Send(k))
    ensures Apply(s, Send(k)).sent <= |Apply(s, Send(k)).hosts| && ConservedAt(Apply(s, Send(k)), a)
  {
    hide InFlight, Answers, ConservedAt;
    Rebalance(s, Apply(s, Send(k)), k, Idle, a);
  }

  lemma GiveUpConserves(s: State, k: nat, a: Addr)
    requires s.sent <= |s.hosts| && ConservedAt(s, a) && Enabled(s, CancelSend(k))
    ensures Apply(s, CancelSend(k)).sent <= |Apply(s, CancelSend(k)).hosts| && ConservedAt(Apply(s, CancelSend(k)), a)
  {
    hide InFlight, Answers, ConservedAt;
    Rebalance(s, Apply(s, CancelSend(k)), k, Exited, a);
  }

  lemma ExitConserves(s: State, k: nat, a: Addr)
    requires s.sent <= |s.hosts| && ConservedAt(s, a) && Enabled(s, Exit(k))
    ensures Apply(s, Exit(k)).sent <= |Apply(s, Exit(k)).hosts| && ConservedAt(Apply(s, Exit(k)), a)
  {
    hide InFlight, Answers, ConservedAt;
    Rebalance(s, Apply(s, Exit(k)), k, Exited, a);
  }

  lemma AppendConserves(s: State, a: Addr)
    requires s.sent <= |s.hosts| && ConservedAt(s, a) && Enabled(s, Append)
    ensures Apply(s, Append).sent <= |Apply(s, Append).hosts| && ConservedAt(Apply(s, Append), a)
  {
    hide InFlight, Answers;
  }

  lemma StepOrderly(s: State, step: Step)
    requires Inv(s) && Enabled(s, step)
    ensures Orderly(Apply(s, step))
  {
    hide Conserved, Orderly;
    SentBound(s);
    match step
    case Dispatch(k) => WorkerOrderly(s, Apply(s, step), k);
    case PingFails(k) => WorkerOrderly(s, Apply(s, step), k);
    case PingAnswers(k) => WorkerOrderly(s, Apply(s, step), k);
    case Send(k) => WorkerOrderly(s, Apply(s, step), k);
    case CancelSend(k) => WorkerOrderly(s, Apply(s, step), k);
    case Exit(k) => WorkerOrderly(s, Apply(s, step), k);
    case CancelDispatch => AbortOrderly(s);
    case CloseQueue => LeaveOrderly(s);
    case CloseResults => CloseOrderly(s);
    case Append => DrainOrderly(s, Apply(s, step));
    case EndDrain => DrainOrderly(s, Apply(s, step));
    case Finish => FinishOrderly(s);
    case Cancel => CancelOrderly(s);
  }

  lemma LeaveOrderly(s: State)
    requires Orderly(s) && s.main == Dispatching && s.sent == |s.hosts|
    ensures Orderly(s.(main := Waiting))
  {
  }

  lemma AbortOrderly(s: State)
    requires Orderly(s) && s.main == Dispatching && s.cancelled && s.sent < |s.hosts|
    ensures Orderly(s.(main := Waiting, aborted := true))
  {
  }

  lemma CloseOrderly(s: State)
    requires Orderly(s) && Enabled(s, CloseResults)
    ensures Orderly(Apply(s, CloseResults))
  {
  }

  lemma FinishOrderly(s: State)
    requires Orderly(s) && s.main == Closed && s.drain.Drained?
    ensures Orderly(s.(main := Done))
  {
  }

  lemma CancelOrderly(s: State)
    requires Orderly(s)
    ensures Orderly(s.(cancelled := true))
  {
  }

  lemma DrainOrderly(s: State, s': State)
    requires Orderly(s) && s'.workers == s.workers && s'.main == s.main && s'.cancelled == s.cancelled
    requires s'.aborted == s.aborted
    requires s'.dropped == s.dropped && s'.sent == s.sent && s'.hosts == s.hosts
    requires s'.drain.Drained? ==> s.main == Closed || s.main == Done
    requires s.drain.Drained? ==> s'.drain.Drained?
    ensures Orderly(s')
  {
  }

  /** A step of one worker that had not exited. */
  lemma WorkerOrderly(s: State, s': State, k: nat)
    requires Orderly(s) && k < |s.workers| && !s.workers[k].Exited?
    requires |s'.workers| == |s.workers| && s'.workers == s.workers[k := s'.workers[k]]
    requires s'.main == s.main && s'.cancelled == s.cancelled && s'.aborted == s.aborted && s'.hosts == s.hosts
    requires s'.drain.Drained? <==> s.drain.Drained?
    requires s.main != Dispatching ==> s'.sent == s.sent
    requires !s.cancelled ==> s'.dropped == s.dropped
    requires s'.workers[k].Exited? ==> s.cancelled || s.main != Dispatching
    ensures Orderly(s')
  {
  }

  lemma StepKeeps(s: State, step: Step)
    requires Inv(s) && Enabled(s, step)
    ensures Inv(Apply(s, step))
  {
    hide Conserved, Orderly;
    StepConserves(s, step);
    StepOrderly(s, step);
  }

  /** Nothing is sent on a closed channel: no host is handed out once the queue
      is closed, and no worker holds a result once the results are. */
  lemma NoSendOnClosed(s: State, k: nat)
    requires Inv(s)
    ensures s.main == Closed || s.main == Done ==> !Enabled(s, Send(k)) && !Enabled(s, CancelSend(k))
    ensures s.main != Dispatching ==> !Enabled(s, Dispatch(k))
    ensures s.main == Closed || s.main == Done ==> Answers(s.workers) == multiset{}
  {
    if s.main == Closed || s.main == Done {
      NoneInFlight(s.workers);
    }
  }

  /** No deadlock: until the job is done some step other than cancelling is
      possible. */
  lemma NoDeadlock(s: State) returns (step: Step)
    requires Inv(s) && s.main != Done
    ensures Enabled(s, step) && step != Cancel
  {
    hide Conserved;
    SentBound(s);
    if s.drain.Holding? {
      return Append;
    }
    if k :| 0 <= k < |s.workers| && s.workers[k].Pinging? {
      return PingFails(k);
    }
    if s.main == Closed {
      return if s.drain.Drained? then Finish else EndDrain;
    }
    if k :| 0 <= k < |s.workers| && s.workers[k].Sending? {
      return Send(k);
    }
    if s.main == Dispatching {
      if s.sent == |s.hosts| {
        return CloseQueue;
      }
      if s.cancelled {
        return CancelDispatch;
      }
      return Dispatch(0);
    }
    if k :| 0 <= k < |s.workers| && s.workers[k].Idle? {
      return Exit(k);
    }
    return CloseResults;
  }

  // ----- termination

  function Weight(w: Worker): nat {
    match w
    case Pinging(_) => 5
    case Sending(_) => 4
    case Idle => 1
    case Exited => 0
  }

  function Weights(ws: seq<Worker>): nat {
    if ws == [] then 0 else Weight(ws[0]) + Weights(ws[1..])
  }

  lemma {:induction false} WeightsUpdate(ws: seq<Worker>, k: nat, w: Worker)
    requires k < |ws|
    ensures Weights(ws[k := w]) + Weight(ws[k]) == Weights(ws) + Weight(w)
  {
    if k == 0 {
      assert ws[0 := w][1..] == ws[1..];
    } else {
      WeightsUpdate(ws[1..], k - 1, w);
      assert ws[k := w][1..] == ws[1..][k - 1 := w];
    }
  }

  function Measure(s: State): nat
    requires s.sent <= |s.hosts|
  {
    6 * (|s.hosts| - s.sent) + Weights(s.workers)
    + DrainWeight(s.drain)
    + MainWeight(s.main)
    + CancelWeight(s.cancelled)
  }

  /** Every step brings the end nearer, so every run reaches it. */
  lemma StepDescends(s: State, step: Step)
    requires s.sent <= |s.hosts| && Enabled(s, step)
    ensures Apply(s, step).sent <= |Apply(s, step).hosts| && Measure(Apply(s, step)) < Measure(s)
  {
    hide Measure, Enabled, Apply;
    SentStays(s, step);
    match step
    case Dispatch(k) => DispatchDescends(s, k);
    case PingFails(k) => SilenceDescends(s, k);
    case PingAnswers(k) => AnswerDescends(s, k);
    case Send(k) => SendDescends(s, k);
    case CancelSend(k) => GiveUpDescends(s, k);
    case Exit(k) => ExitDescends(s, k);
    case _ => MoveDescends(s, step);
  }

  lemma MoveDescends(s: State, step: Step)
    requires s.sent <= |s.hosts| && Enabled(s, step)
    requires step in {CancelDispatch, CloseQueue, CloseResults, Append, EndDrain, Finish, Cancel}
    ensures Apply(s, step).sent <= |Apply(s, step).hosts| && Measure(Apply(s, step)) < Measure(s)
  {
    hide Measure;
    MainDescends(s, Apply(s, step));
  }

  lemma SilenceDescends(s: State, k: nat)
    requires s.sent <= |s.hosts| && Enabled(s, PingFails(k))
    ensures Apply(s, PingFails(k)).sent <= |Apply(s, PingFails(k)).hosts| && Measure(Apply(s, PingFails(k))) < Measure(s)
  {
    hide Measure;
    WorkerDescends(s, Apply(s, PingFails(k)), k, Idle);
  }

  lemma AnswerDescends(s: State, k: nat)
    requires s.sent <= |s.hosts| && Enabled(s, PingAnswers(k))
    ensures Apply(s, PingAnswers(k)).sent <= |Apply(s, PingAnswers(k)).hosts| && Measure(Apply(s, PingAnswers(k))) < Measure(s)
  {
    hide Measure;
    WorkerDescends(s, Apply(s, PingAnswers(k)), k, Sending(s.workers[k].addr));
  }

  lemma SendDescends(s: State, k: nat)
    requires s.sent <= |s.hosts| && Enabled(s, Send(k))
    ensures Apply(s, Send(k)).sent <= |Apply(s, Send(k)).hosts| && Measure(Apply(s, Send(k))) < Measure(s)
  {
    hide Measure;
    WorkerDescends(s, Apply(s, Send(k)), k, Idle);
  }

  lemma GiveUpDescends(s: State, k: nat)
    requires s.sent <= |s.hosts| && Enabled(s, CancelSend(k))
    ensures Apply(s, CancelSend(k)).sent <= |Apply(s, CancelSend(k)).hosts| && Measure(Apply(s, CancelSend(k))) < Measure(s)
  {
    hide Measure;
    WorkerDescends(s, Apply(s, CancelSend(k)), k, Exited);
  }

  lemma ExitDescends(s: State, k: nat)
    requires s.sent <= |s.hosts| && Enabled(s, Exit(k))
    ensures Apply(s, Exit(k)).sent <= |Apply(s, Exit(k)).hosts| && Measure(Apply(s, Exit(k))) < Measure(s)
  {
    hide Measure;
    WorkerDescends(s, Apply(s, Exit(k)), k, Exited);
  }

  function MainWeight(m: Main): nat {
    match m case Dispatching => 3 case Waiting => 2 case Closed => 1 case Done => 0
  }

  function CancelWeight(cancelled: bool): nat { if cancelled then 0 else 1 }

  lemma MainDescends(s: State, s': State)
    requires s.sent <= |s.hosts| && s'.hosts == s.hosts && s'.sent == s.sent && s'.workers == s.workers
    requires DrainWeight(s'.drain) + MainWeight(s'.main) + CancelWeight(s'.cancelled)
           < DrainWeight(s.drain) + MainWeight(s.main) + CancelWeight(s.cancelled)
    ensures Measure(s') < Measure(s)
  {
    hide Weights, DrainWeight, MainWeight, CancelWeight;
  }

  lemma DispatchDescends(s: State, k: nat)
    requires s.sent <= |s.hosts| && Enabled(s, Dispatch(k))
    ensures Apply(s, Dispatch(k)).sent <= |Apply(s, Dispatch(k)).hosts| && Measure(Apply(s, Dispatch(k))) < Measure(s)
  {
    hide Weights;
    WeightsUpdate(s.workers, k, Pinging(s.hosts[s.sent]));
  }

  function DrainWeight(d: Drain): nat {
    match d case Holding(_) => 3 case Receiving => 1 case Drained => 0
  }

  lemma WorkerDescends(s: State, s': State, k: nat, w: Worker)
    requires s.sent <= |s.hosts| && k < |s.workers| && s'.workers == s.workers[k := w]
    requires s'.hosts == s.hosts && s'.sent == s.sent && s'.main == s.main && s'.cancelled == s.cancelled
    requires Weight(w) + DrainWeight(s'.drain) < Weight(s.workers[k]) + DrainWeight(s.drain)
    ensures Measure(s') < Measure(s)
  {
    hide Weights, Weight, DrainWeight;
    WeightsUpdate(s.workers, k, w);
  }

  // ----- who gives up

  function Exits(ws: seq<Worker>): nat {
    if ws == [] then 0 else (if ws[0].Exited? then 1 else 0) + Exits(ws[1..])
  }

  lemma {:induction false} ExitsUpdate(ws: seq<Worker>, k: nat, w: Worker)
    requires k < |ws|
    ensures Exits(ws[k := w]) + (if ws[k].Exited? then 1 else 0) == Exits(ws) + if w.Exited? then 1 else 0
    ensures Exits(ws) <= |ws|
  {
    if k == 0 {
      assert ws[0 := w][1..] == ws[1..];
      ExitsBound(ws);
    } else {
      ExitsUpdate(ws[1..], k - 1, w);
      assert ws[k := w][1..] == ws[1..][k - 1 := w];
    }
  }

  lemma {:induction false} ExitsBound(ws: seq<Worker>)
    ensures Exits(ws) <= |ws|
  {
    if ws != [] {
      ExitsBound(ws[1..]);
    }
  }

  /** Every result given up took its worker with it. */
  predicate GivenUp(s: State) {
    |s.dropped| <= Exits(s.workers)
  }

  lemma StepGivenUp(s: State, step: Step)
    requires GivenUp(s) && Enabled(s, step)
    ensures GivenUp(Apply(s, step))
  {
    hide Exits;
    match step
    case Dispatch(k) => ExitsUpdate(s.workers, k, Apply(s, step).workers[k]);
    case PingFails(k) => ExitsUpdate(s.workers, k, Apply(s, step).workers[k]);
    case PingAnswers(k) => ExitsUpdate(s.workers, k, Apply(s, step).workers[k]);
    case Send(k) => ExitsUpdate(s.workers, k, Apply(s, step).workers[k]);
    case CancelSend(k) => ExitsUpdate(s.workers, k, Apply(s, step).workers[k]);
    case Exit(k) => ExitsUpdate(s.workers, k, Apply(s, step).workers[k]);
    case _ =>
  }

  // ----- runs

  ghost predicate Reaches(s: State, steps: seq<Step>, s': State)
    decreases |steps|
  {
    if steps == [] then s' == s
    else Enabled(s, steps[0]) && Reaches(Apply(s, steps[0]), steps[1..], s')
  }

  lemma {:induction false} RunKeeps(s: State, steps: seq<Step>, s': State)
    requires Inv(s) && GivenUp(s) && Reaches(s, steps, s')
    ensures GivenUp(s') && Inv(s') && s'.hosts == s.hosts && |s'.workers| == |s.workers| && |steps| <= Measure(s) - Measure(s')
    decreases |steps|
  {
    hide Inv, Measure, Enabled, GivenUp;
    SentBound(s);
    if steps != [] {
      StepKeeps(s, steps[0]);
      StepGivenUp(s, steps[0]);
      StepDescends(s, steps[0]);
      SameHosts(s, steps[0]);
      RunKeeps(Apply(s, steps[0]), steps[1..], s');
    }
  }

  lemma SentBound(s: State)
    requires Inv(s)
    ensures s.sent <= |s.hosts|
  {
  }

  lemma SameHosts(s: State, step: Step)
    requires Enabled(s, step)
    ensures Apply(s, step).hosts == s.hosts && |Apply(s, step).workers| == |s.workers|
  {
  }

  /** A run that can go no further has its job done: every result handed to the
      channel is in the job; and without cancellation every host was pinged
      exactly once and every host that answered is in the job exactly once. At no
      time are more hosts in flight than workers were asked for, and no host is
      pinged or reported twice, cancelled or not; a worker gives up at most one
      result, and then exits. The job holds an error exactly
      when the sweep was cancelled before it had handed out every host. */
  lemma SweepComplete(s: State, workers: int, steps: seq<Step>, s': State)
    requires Initial(s, workers) && s.hosts != [] && Reaches(s, steps, s')
    ensures |steps| <= Measure(s)
    ensures (forall step :: step != Cancel ==> !Enabled(s', step)) ==> s'.main == Done
    ensures s'.main == Done ==> multiset(s'.job) == s'.reported
    ensures 1 <= |s'.workers| <= |s.hosts| && |s'.workers| <= (if workers <= 0 then 64 else workers)
    ensures forall a: Addr :: InFlight(s'.workers)[a] + s'.silent[a] + multiset(s'.job)[a] <= multiset(s.hosts)[a]
    ensures |s'.dropped| <= Exits(s'.workers) <= |s'.workers|
    ensures s'.aborted ==> s'.cancelled
    ensures s'.main == Done ==> (s'.aborted <==> s'.sent < |s.hosts|)
    ensures s'.main == Done && !s'.cancelled ==>
      multiset(s.hosts) == s'.silent + s'.answered && multiset(s'.job) == s'.answered
  {
    hide Conserved, Enabled, Reaches, InFlight, Answers, Measure;
    InitialInv(s, workers);
    RunKeeps(s, steps, s');
    AtMostOnce(s');
    ExitsBound(s'.workers);
    if s'.main != Done {
      var step := NoDeadlock(s');
    } else {
      NoneInFlight(s'.workers);
      AtTheEnd(s');
    }
  }

  lemma AtMostOnce(s: State)
    requires Inv(s)
    ensures forall a: Addr :: InFlight(s.workers)[a] + s.silent[a] + multiset(s.job)[a] <= multiset(s.hosts)[a]
  {
    hide InFlight, Answers, Orderly;
    forall a: Addr ensures InFlight(s.workers)[a] + s.silent[a] + multiset(s.job)[a] <= multiset(s.hosts)[a] {
      assert ConservedAt(s, a);
      assert s.hosts == s.hosts[..s.sent] + s.hosts[s.sent..];
      assert multiset(s.hosts) == multiset(s.hosts[..s.sent]) + multiset(s.hosts[s.sent..]);
    }
  }

  lemma AtTheEnd(s: State)
    requires Inv(s) && s.main == Done
    requires InFlight(s.workers) == multiset{} && Answers(s.workers) == multiset{}
    ensures multiset(s.job) == s.reported
    ensures !s.cancelled ==> multiset(s.hosts) == s.silent + s.answered && multiset(s.job) == s.answered
  {
    hide InFlight, Answers;
    assert s.hosts[..|s.hosts|] == s.hosts;
    forall a: Addr
      ensures multiset(s.job)[a] == s.reported[a]
      ensures !s.cancelled ==> multiset(s.hosts)[a] == (s.silent + s.answered)[a] && multiset(s.job)[a] == s.answered[a]
    {
      assert ConservedAt(s, a);
    }
  }
}
