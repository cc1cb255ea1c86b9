/** The login throttle: how often one client may try a wrong password, and that
    pruning its table cannot be noticed. */
module Throttle {
  import opened Common

  const MAX_FAILURES: nat := 5
  const WINDOW: nat := 60 * SECOND
  const LOCKOUT: nat := 60 * SECOND

  /** One client's record; time 0 is Go's zero time. */
  datatype Attempts = Attempts(failures: nat, windowEnds: nat, lockedUntil: nat)

  type Table = map<string, Attempts>

  predicate Expired(rec: Attempts, now: nat) {
    now > rec.windowEnds && now > rec.lockedUntil
  }

  function Prune(m: Table, now: nat): Table {
    map ip | ip in m && !Expired(m[ip], now) :: m[ip]
  }

  /** How long the client must still wait; 0 is leave to try. */
  function WaitOf(m: Table, ip: string, now: nat): nat {
    if ip in m && m[ip].lockedUntil > now then m[ip].lockedUntil - now else 0
  }

  function Recorded(m: Table, ip: string): Attempts {
    if ip in m then m[ip] else Attempts(0, 0, 0)
  }

  function Counted(rec: Attempts, now: nat): Attempts {
    var open := if now > rec.windowEnds then rec.(failures := 0, windowEnds := now + WINDOW) else rec;
    if open.failures + 1 >= MAX_FAILURES then open.(failures := 0, lockedUntil := now + LOCKOUT)
    else open.(failures := open.failures + 1)
  }

  datatype Op = Ask(ip: string) | Fail(ip: string) | Succeed(ip: string)

  /** One call at one time: the new table and, for a question, its answer. */
  function Call(m: Table, op: Op, now: nat, prunes: bool): (Table, nat) {
    match op
    case Ask(ip) => var m' := if prunes then Prune(m, now) else m; (m', WaitOf(m', ip, now))
    case Fail(ip) => (m[ip := Counted(Recorded(m, ip), now)], 0)
    case Succeed(ip) => (m - {ip}, 0)
  }

  // ----- pruning is unobservable

  datatype Timed = Timed(op: Op, at: nat)

  predicate InOrder(calls: seq<Timed>) {
    forall i, j :: 0 <= i < j < |calls| ==> calls[i].at <= calls[j].at
  }

  /** The table after the calls and the answer to the last of them. */
  function After(calls: seq<Timed>, prunes: bool): (Table, nat) {
    if calls == [] then (map[], 0)
    else
      var last := calls[|calls| - 1];
      Call(After(calls[..|calls| - 1], prunes).0, last.op, last.at, prunes)
  }

  /** Records that answer every call from now on alike. */
  predicate Alike(a: Attempts, b: Attempts, now: nat) {
    a.failures == b.failures && a.windowEnds == b.windowEnds
    && (a.lockedUntil == b.lockedUntil || (a.lockedUntil < now && b.lockedUntil < now))
  }

  /** The pruned table lacks only records that have run out. */
  ghost predicate Mirrors(p: Table, u: Table, now: nat) {
    && p.Keys <= u.Keys
    && (forall ip :: ip in p ==> Alike(p[ip], u[ip], now))
    && (forall ip :: ip in u && ip !in p ==> Expired(u[ip], now))
  }

  lemma MirrorsLater(p: Table, u: Table, now: nat, later: nat)
    requires Mirrors(p, u, now) && now <= later
    ensures Mirrors(p, u, later)
  {
  }

  lemma CallMirrors(p: Table, u: Table, op: Op, now: nat)
    requires Mirrors(p, u, now) && now > 0
    ensures Mirrors(Call(p, op, now, true).0, Call(u, op, now, false).0, now)
    ensures Call(p, op, now, true).1 == Call(u, op, now, false).1
  {
  }

  lemma {:induction false} AfterMirrors(calls: seq<Timed>, now: nat)
    requires InOrder(calls) && now > 0
    requires forall i :: 0 <= i < |calls| ==> 0 < calls[i].at <= now
    ensures Mirrors(After(calls, true).0, After(calls, false).0, now)
    ensures After(calls, true).1 == After(calls, false).1
    decreases |calls|
  {
    hide Mirrors, Call;
    if calls == [] {
      assert Mirrors(map[], map[], now) by { EmptyMirrors(now); }
    } else {
      var before, last := calls[..|calls| - 1], calls[|calls| - 1];
      forall i | 0 <= i < |before| ensures 0 < before[i].at <= last.at {
        assert before[i] == calls[i];
      }
      AfterMirrors(before, last.at);
      CallMirrors(After(before, true).0, After(before, false).0, last.op, last.at);
      MirrorsLater(After(calls, true).0, After(calls, false).0, last.at, now);
    }
  }

  lemma EmptyMirrors(now: nat)
    ensures Mirrors(map[], map[], now)
  {
  }

  /** The pruned table gives every answer the never-pruned one would. */
  lemma PruningUnobservable(calls: seq<Timed>)
    requires InOrder(calls) && forall i :: 0 <= i < |calls| ==> calls[i].at > 0
    ensures After(calls, true).1 == After(calls, false).1
  {
    if calls != [] {
      AfterMirrors(calls, calls[|calls| - 1].at);
    }
  }

  // ----- the rate bound

  /** One login request with a wrong or right password, check and record taken as
      one step. */
  datatype Login = Login(ip: string, at: nat, right: bool)

  predicate Admitted(m: Table, l: Login) {
    WaitOf(Prune(m, l.at), l.ip, l.at) == 0
  }

  function LoggedIn(m: Table, l: Login): Table {
    var m' := Prune(m, l.at);
    if WaitOf(m', l.ip, l.at) != 0 then m'
    else if l.right then m' - {l.ip}
    else m'[l.ip := Counted(Recorded(m', l.ip), l.at)]
  }

  function TableAfter(logins: seq<Login>): Table {
    if logins == [] then map[] else LoggedIn(TableAfter(logins[..|logins| - 1]), logins[|logins| - 1])
  }

  /** When the client's wrong passwords were let through. */
  function FailureTimes(logins: seq<Login>, ip: string): seq<nat> {
    if logins == [] then []
    else
      var before, l := logins[..|logins| - 1], logins[|logins| - 1];
      FailureTimes(before, ip) + if l.ip == ip && !l.right && Admitted(TableAfter(before), l) then [l.at] else []
  }

  /** A counted failure: when, which in its window, and when the window ends. */
  datatype Mark = Mark(at: nat, count: nat, ends: nat)

  /** The next counted failure: the first of a new window once the old one has
      ended, the first again after a fifth, and one more otherwise. */
  function Following(e: Mark, at: nat): Mark {
    Mark(at, if at > e.ends || e.count == 5 then 1 else e.count + 1, if at > e.ends then at + 60 * SECOND else e.ends)
  }

  function Marked(ms: seq<Mark>, at: nat): seq<Mark> {
    ms + [if ms == [] then Mark(at, 1, at + 60 * SECOND) else Following(ms[|ms| - 1], at)]
  }

  /** The last counted failure was the fifth of its window, less than a minute
      ago. */
  predicate LockedOut(ms: seq<Mark>, now: nat) {
    ms != [] && ms[|ms| - 1].count == 5 && now < ms[|ms| - 1].at + 60 * SECOND
  }

  function MarksWith(ms: seq<Mark>, l: Login): seq<Mark> {
    if LockedOut(ms, l.at) then ms else if l.right then [] else Marked(ms, l.at)
  }

  /** The client's counted failures since it last succeeded, read off the history
      alone, without any table. */
  function Marks(logins: seq<Login>, ip: string): seq<Mark> {
    if logins == [] then []
    else
      var ms, l := Marks(logins[..|logins| - 1], ip), logins[|logins| - 1];
      if l.ip == ip then MarksWith(ms, l) else ms
  }

  /** How one counted failure follows another. */
  predicate Follows(e: Mark, e': Mark) {
    e' == Following(e, e'.at) && e.at <= e'.at && (e.count == MAX_FAILURES ==> e'.at >= e.at + LOCKOUT)
  }

  ghost predicate Chain(log: seq<Mark>) {
    && (forall i :: 0 <= i < |log| ==> 1 <= log[i].count <= MAX_FAILURES)
    && (forall i :: 0 <= i < |log| - 1 ==> Follows(log[i], log[i + 1]))
  }

  /** The record agrees with the last counted failure. */
  predicate Agrees(m: Table, ip: string, e: Mark, now: nat) {
    && e.at <= now && e.ends <= e.at + WINDOW
    && (if ip in m then
          && m[ip].windowEnds == e.ends
          && m[ip].failures == (if e.count == MAX_FAILURES then 0 else e.count)
          && (if e.count == MAX_FAILURES then m[ip].lockedUntil == e.at + LOCKOUT else m[ip].lockedUntil <= e.at)
        else
          now > e.ends && (e.count == MAX_FAILURES ==> now > e.at + LOCKOUT))
  }

  ghost predicate Logged(m: Table, ip: string, log: seq<Mark>, now: nat) {
    && Chain(log)
    && (if log == [] then ip !in m else Agrees(m, ip, log[|log| - 1], now))
  }

  predicate LoginsInOrder(logins: seq<Login>) {
    (forall i :: 0 <= i < |logins| ==> logins[i].at > 0)
    && forall i, j :: 0 <= i < j < |logins| ==> logins[i].at <= logins[j].at
  }

  /** The login at an index was let through with the right password. */
  predicate Succeeded(logins: seq<Login>, ip: string, i: nat)
    requires i < |logins|
  {
    logins[i].ip == ip && logins[i].right && Admitted(TableAfter(logins[..i]), logins[i])
  }

  /** Pruning, and what other clients do, leave the agreement. */
  lemma PruneLogged(m: Table, ip: string, log: seq<Mark>, now: nat, later: nat)
    requires Logged(m, ip, log, now) && now <= later
    ensures Logged(Prune(m, later), ip, log, later)
  {
    hide Chain;
  }

  lemma LoggedOnClient(m: Table, m': Table, ip: string, log: seq<Mark>, now: nat)
    requires Logged(m, ip, log, now) && (ip in m <==> ip in m') && (ip in m ==> m[ip] == m'[ip])
    ensures Logged(m', ip, log, now)
  {
    hide Chain;
  }

  /** The table refuses exactly when the history says so. */
  lemma RefusedByMarks(m: Table, ip: string, ms: seq<Mark>, now: nat)
    requires Logged(m, ip, ms, now)
    ensures WaitOf(m, ip, now) != 0 <==> LockedOut(ms, now)
  {
  }

  lemma CountedLogged(m: Table, ip: string, ms: seq<Mark>, now: nat)
    requires Logged(m, ip, ms, now) && now > 0 && !LockedOut(ms, now)
    ensures Logged(m[ip := Counted(Recorded(m, ip), now)], ip, Marked(ms, now), now)
  {
    hide Chain;
    var ms' := Marked(ms, now);
    if ms != [] {
      LastInChain(ms);
    }
    ChainMore(ms, ms'[|ms|]);
  }

  lemma LastInChain(ms: seq<Mark>)
    requires Chain(ms) && ms != []
    ensures 1 <= ms[|ms| - 1].count <= MAX_FAILURES
  {
  }

  lemma ChainMore(log: seq<Mark>, e: Mark)
    requires Chain(log) && 1 <= e.count <= MAX_FAILURES && (log == [] || Follows(log[|log| - 1], e))
    ensures Chain(log + [e])
  {
    hide Follows;
    var log' := log + [e];
    forall i | 0 <= i < |log'| - 1 ensures Follows(log'[i], log'[i + 1]) {
      if i < |log| - 1 {
        assert Follows(log[i], log[i + 1]);
      }
    }
  }

  /** One more login, on the table and in the history. */
  lemma LoginLogged(m: Table, ip: string, ms: seq<Mark>, now: nat, l: Login)
    requires Logged(m, ip, ms, now) && now <= l.at && l.at > 0
    ensures Logged(LoggedIn(m, l), ip, if l.ip == ip then MarksWith(ms, l) else ms, l.at)
    ensures l.ip == ip ==> (Admitted(m, l) <==> !LockedOut(ms, l.at))
  {
    hide Logged, Counted, Marked, LockedOut, Prune, WaitOf;
    var m' := Prune(m, l.at);
    PruneLogged(m, ip, ms, now, l.at);
    if l.ip != ip {
      LoggedOnClient(m', LoggedIn(m, l), ip, ms, l.at);
    } else {
      RefusedByMarks(m', ip, ms, l.at);
      if !LockedOut(ms, l.at) {
        CountedLogged(m', ip, ms, l.at);
        NoRecord(m' - {ip}, ip, l.at);
      }
    }
  }

  lemma NoRecord(m: Table, ip: string, now: nat)
    requires ip !in m
    ensures Logged(m, ip, [], now)
  {
  }

  /** The table and the history agree after every sequence of logins. */
  lemma {:induction false} RunLogged(logins: seq<Login>, ip: string, now: nat)
    requires LoginsInOrder(logins) && forall i :: 0 <= i < |logins| ==> logins[i].at <= now
    ensures Logged(TableAfter(logins), ip, Marks(logins, ip), now)
    decreases |logins|
  {
    hide LoggedIn, Logged, MarksWith, LockedOut;
    if logins == [] {
      NoRecord(map[], ip, now);
    } else {
      var before, l := logins[..|logins| - 1], logins[|logins| - 1];
      RunLogged(before, ip, l.at);
      LoginLogged(TableAfter(before), ip, Marks(before, ip), l.at, l);
      LoggedLater(TableAfter(logins), ip, Marks(logins, ip), l.at, now);
    }
  }

  /** A login is let through exactly when the history does not lock it out. */
  lemma AdmittedByHistory(logins: seq<Login>, i: nat)
    requires LoginsInOrder(logins) && i < |logins|
    ensures Admitted(TableAfter(logins[..i]), logins[i]) <==> !LockedOut(Marks(logins[..i], logins[i].ip), logins[i].at)
  {
    hide LoggedIn, Logged, MarksWith, LockedOut, Admitted, TableAfter, Marks;
    var before, l := logins[..i], logins[i];
    RunLogged(before, l.ip, l.at);
    LoginLogged(TableAfter(before), l.ip, Marks(before, l.ip), l.at, l);
  }

  /** The failures let through since the last success are the marked ones. */
  lemma {:induction false} TimesMarked(logins: seq<Login>, from: nat, ip: string)
    requires LoginsInOrder(logins) && from <= |logins| && Marks(logins[..from], ip) == []
    requires forall i :: from <= i < |logins| ==> !Succeeded(logins, ip, i)
    ensures FailureTimes(logins, ip) == FailureTimes(logins[..from], ip) + Times(Marks(logins, ip))
    decreases |logins|
  {
    hide TableAfter, Admitted, LockedOut;
    if from == |logins| {
      assert logins[..from] == logins;
    } else {
      var last := |logins| - 1;
      var before := logins[..last];
      assert before[..from] == logins[..from];
      forall i | from <= i < last ensures !Succeeded(before, ip, i) {
        assert before[..i] == logins[..i] && !Succeeded(logins, ip, i);
      }
      TimesMarked(before, from, ip);
      AdmittedByHistory(logins, last);
      assert !Succeeded(logins, ip, last);
      MarkedTimes(Marks(before, ip), logins[last].at);
    }
  }

  function Times(log: seq<Mark>): (r: seq<nat>)
    ensures |r| == |log|
  {
    seq(|log|, i requires 0 <= i < |log| => log[i].at)
  }

  lemma MarkedTimes(ms: seq<Mark>, at: nat)
    ensures Times(Marked(ms, at)) == Times(ms) + [at]
  {
  }

  lemma LoggedLater(m: Table, ip: string, log: seq<Mark>, now: nat, later: nat)
    requires Logged(m, ip, log, now) && now <= later
    ensures Logged(m, ip, log, later)
  {
    hide Chain;
  }

  // ----- what a chain allows

  lemma {:induction false} ChainAscends(log: seq<Mark>, i: nat, j: nat)
    requires Chain(log) && i <= j < |log|
    ensures log[i].at <= log[j].at
    decreases j - i
  {
    if i < j {
      ChainAscends(log, i, j - 1);
      assert Follows(log[j - 1], log[j]);
    }
  }

  predicate Opens(e: Mark) {
    e.count == 1 && e.ends == e.at + WINDOW
  }

  /** Without a lockout a new window opens within four more failures, after the
      one before it has ended. */
  lemma NextWindow(log: seq<Mark>, i: nat) returns (j: nat)
    requires Chain(log) && i + 4 < |log|
    requires forall k :: i <= k < i + 4 ==> log[k].count < MAX_FAILURES
    ensures i < j <= i + 4 && (log[j].count == MAX_FAILURES || (Opens(log[j]) && log[j].at > log[i].ends))
  {
    hide Chain;
    ChainAt(log, i);
    ChainAt(log, i + 1);
    ChainAt(log, i + 2);
    ChainAt(log, i + 3);
    if log[i + 1].at > log[i].ends {
      return i + 1;
    }
    if log[i + 2].at > log[i + 1].ends {
      return i + 2;
    }
    if log[i + 3].at > log[i + 2].ends {
      return i + 3;
    }
    return i + 4;
  }

  lemma ChainAt(log: seq<Mark>, i: nat)
    requires Chain(log) && i + 1 < |log|
    ensures Follows(log[i], log[i + 1]) && 1 <= log[i].count <= MAX_FAILURES && 1 <= log[i + 1].count <= MAX_FAILURES
  {
  }

  lemma LockoutGap(log: seq<Mark>, i: nat, k: nat, j: nat)
    requires Chain(log) && i <= k < j < |log| && log[k].count == MAX_FAILURES
    ensures log[j].at >= log[i].at + LOCKOUT
  {
    ChainAt(log, k);
    ChainAscends(log, i, k);
    ChainAscends(log, k + 1, j);
  }

  /** Ten consecutive counted failures take at least a minute. */
  lemma TenTakeAMinute(log: seq<Mark>, i: nat)
    requires Chain(log) && i + 9 < |log|
    ensures log[i + 9].at >= log[i].at + WINDOW
  {
    hide Chain;
    if k :| i <= k < i + 9 && log[k].count == MAX_FAILURES {
      LockoutGap(log, i, k, i + 9);
    } else {
      ChainAt(log, i);
      CountsBelow(log, i);
      var j := NextWindow(log, i);
      var j' := NextWindow(log, j);
      ChainAscends(log, i, j);
      ChainAscends(log, j', i + 9);
    }
  }

  lemma CountsBelow(log: seq<Mark>, i: nat)
    requires Chain(log) && i + 9 < |log|
    requires forall k :: i <= k < i + 9 ==> log[k].count != MAX_FAILURES
    ensures forall k :: i <= k < i + 9 ==> log[k].count < MAX_FAILURES
  {
  }

  /** Failures are no later than the last login. */
  lemma {:induction false} TimesBefore(logins: seq<Login>, ip: string)
    requires LoginsInOrder(logins)
    ensures forall t :: t in FailureTimes(logins, ip) ==> logins != [] && t <= logins[|logins| - 1].at
  {
    hide LoggedIn, Admitted, TableAfter;
    if |logins| > 1 {
      TimesBefore(logins[..|logins| - 1], ip);
    }
  }

  /** The failures of a first part come first, all others after it. */
  lemma {:induction false} TimesOfPart(logins: seq<Login>, k: nat, ip: string)
    requires LoginsInOrder(logins) && k <= |logins|
    ensures FailureTimes(logins[..k], ip) <= FailureTimes(logins, ip)
    ensures forall j :: |FailureTimes(logins[..k], ip)| <= j < |FailureTimes(logins, ip)| ==>
      k < |logins| && FailureTimes(logins, ip)[j] >= logins[k].at
    decreases |logins|
  {
    hide LoggedIn, Admitted, TableAfter;
    if k == |logins| {
      assert logins[..k] == logins;
    } else {
      var before := logins[..|logins| - 1];
      assert before[..k] == logins[..k];
      assert k < |before| ==> before[k] == logins[k];
      TimesOfPart(before, k, ip);
    }
  }

  /** The client's failures, by index, in the minute from some start. */
  function Within(logins: seq<Login>, ip: string, start: nat): set<int> {
    var times := FailureTimes(logins, ip);
    set i | 0 <= i < |times| && start <= times[i] < start + 60 * SECOND
  }

  lemma FirstAt(logins: seq<Login>, time: nat) returns (end: nat)
    requires LoginsInOrder(logins)
    ensures end <= |logins|
    ensures forall i :: 0 <= i < |logins| ==> (logins[i].at < time <==> i < end)
  {
    end := 0;
    while end < |logins| && logins[end].at < time
      invariant end <= |logins| && forall i :: 0 <= i < end ==> logins[i].at < time
    {
      end := end + 1;
    }
  }

  /** Just after the client's last success nothing is marked. */
  lemma LastSuccess(logins: seq<Login>, ip: string) returns (from: nat)
    requires LoginsInOrder(logins)
    ensures from <= |logins| && Marks(logins[..from], ip) == []
    ensures forall i :: from <= i < |logins| ==> !Succeeded(logins, ip, i)
    ensures from > 0 ==> Succeeded(logins, ip, from - 1)
  {
    hide Admitted, TableAfter, LockedOut;
    from := |logins|;
    while from > 0 && !Succeeded(logins, ip, from - 1)
      invariant from <= |logins| && forall i :: from <= i < |logins| ==> !Succeeded(logins, ip, i)
    {
      from := from - 1;
    }
    if from > 0 {
      assert logins[..from][..from - 1] == logins[..from - 1];
      AdmittedByHistory(logins, from - 1);
    }
  }

  lemma SucceededPart(logins: seq<Login>, end: nat, ip: string, i: nat)
    requires i < end <= |logins|
    ensures Succeeded(logins[..end], ip, i) <==> Succeeded(logins, ip, i)
  {
    hide Admitted, TableAfter;
    assert logins[..end][..i] == logins[..i];
  }

  /** No minute, closed at its start and open at its end, in which the client
      does not succeed lets more than nine of its wrong passwords through,
      whatever came before it and whatever right passwords it refused. */
  lemma RateBound(logins: seq<Login>, ip: string, start: nat)
    requires LoginsInOrder(logins)
    requires forall i :: 0 <= i < |logins| && start <= logins[i].at < start + 60 * SECOND ==> !Succeeded(logins, ip, i)
    ensures |Within(logins, ip, start)| <= 9
  {
    hide Admitted, FailureTimes, Agrees, Range, Chain, TableAfter, Succeeded, Marks;
    var end := FirstAt(logins, start + WINDOW);
    var upto := logins[..end];
    var from := LastSuccess(upto, ip);
    var log := Marks(upto, ip);
    RunLogged(upto, ip, start + WINDOW);
    TimesMarked(upto, from, ip);
    TimesOfPart(logins, end, ip);
    TimesBefore(upto[..from], ip);
    var times, skip := FailureTimes(logins, ip), |FailureTimes(upto[..from], ip)|;
    forall j | j in Within(logins, ip, start) ensures skip <= j < skip + |log| && times[j] == log[j - skip].at {
      assert FailureTimes(upto, ip)[j] == times[j];
      if j < skip {
        assert times[j] in FailureTimes(upto[..from], ip);
        SucceededPart(logins, end, ip, from - 1);
        assert false;
      }
    }
    AtMostNine(log, skip, start, Within(logins, ip, start));
  }

  lemma AtMostNine(log: seq<Mark>, skip: nat, start: nat, inside: set<int>)
    requires Chain(log)
    requires forall j :: j in inside ==> skip <= j < skip + |log| && start <= log[j - skip].at < start + WINDOW
    ensures |inside| <= 2 * MAX_FAILURES - 1
  {
    hide Chain, Range;
    var first := skip;
    while first < skip + |log| && first !in inside
      invariant skip <= first <= skip + |log| && forall j :: skip <= j < first ==> j !in inside
    {
      first := first + 1;
    }
    forall j | j in inside ensures j in Range(first, 9) {
      NinthLater(log, first - skip, j - skip);
      RangeMembers(first, 9, j);
    }
    RangeSize(first, 9);
    SubsetSize(inside, Range(first, 9));
  }

  lemma NinthLater(log: seq<Mark>, first: nat, i: nat)
    requires Chain(log) && first <= i < |log|
    ensures i >= first + 9 ==> log[i].at >= log[first].at + WINDOW
  {
    hide Chain;
    if i >= first + 9 {
      TenTakeAMinute(log, first);
      ChainAscends(log, first + 9, i);
    }
  }

  function Range(lo: nat, n: nat): set<int> {
    if n == 0 then {} else Range(lo, n - 1) + {lo + n - 1}
  }

  lemma {:induction false} RangeMembers(lo: nat, n: nat, i: int)
    ensures i in Range(lo, n) <==> lo <= i < lo + n
  {
    if n > 0 {
      RangeMembers(lo, n - 1, i);
    }
  }

  lemma {:induction false} RangeSize(lo: nat, n: nat)
    ensures |Range(lo, n)| == n
  {
    if n > 0 {
      RangeSize(lo, n - 1);
      RangeMembers(lo, n - 1, lo + n - 1);
    }
  }

  /** The stored count stays below the limit. */
  lemma {:induction false} CountBelowLimit(logins: seq<Login>)
    ensures forall ip :: ip in TableAfter(logins) ==> TableAfter(logins)[ip].failures < MAX_FAILURES
  {
    if logins != [] {
      CountBelowLimit(logins[..|logins| - 1]);
    }
  }

  // ----- the lockout

  /** The login at an index is counted as the fifth failure of a window that locks
      its client out at some later time. */
  predicate LockedBy(logins: seq<Login>, ip: string, i: nat, now: nat)
    requires i < |logins|
  {
    var ms := Marks(logins[..i + 1], ip);
    && logins[i].ip == ip && |ms| > |Marks(logins[..i], ip)| && ms[|ms| - 1].count == 5
    && now < logins[i].at + 60 * SECOND
  }

  lemma LockedByPart(logins: seq<Login>, end: nat, ip: string, i: nat, now: nat)
    requires i < end <= |logins|
    ensures LockedBy(logins[..end], ip, i, now) <==> LockedBy(logins, ip, i, now)
  {
    hide Marks;
    assert logins[..end][..i] == logins[..i] && logins[..end][..i + 1] == logins[..i + 1];
  }

  /** The last login is the fifth exactly when it is let through and makes a
      mark that counts five. */
  lemma LockedByLast(logins: seq<Login>, ip: string, now: nat)
    requires logins != []
    ensures var l, ms := logins[|logins| - 1], Marks(logins[..|logins| - 1], ip);
      LockedBy(logins, ip, |logins| - 1, now) <==>
        && l.ip == ip && !LockedOut(ms, l.at) && !l.right
        && LockedOut(Marked(ms, l.at), now)
  {
    assert logins[..|logins|] == logins;
  }

  lemma {:induction false} LockedExactly(logins: seq<Login>, ip: string, now: nat)
    requires LoginsInOrder(logins) && forall i :: 0 <= i < |logins| ==> logins[i].at <= now
    ensures LockedOut(Marks(logins, ip), now) <==> exists i: nat :: i < |logins| && LockedBy(logins, ip, i, now)
    decreases |logins|
  {
    hide LockedBy, Marked;
    if logins != [] {
      var before, last := logins[..|logins| - 1], |logins| - 1;
      forall i: nat | i < |before| ensures LockedBy(before, ip, i, now) <==> LockedBy(logins, ip, i, now) {
        LockedByPart(logins, last, ip, i, now);
      }
      LockedExactly(before, ip, now);
      LockedByLast(logins, ip, now);
      if LockedOut(Marks(logins, ip), now) {
        assert LockedBy(logins, ip, last, now) || exists i: nat :: i < |before| && LockedBy(before, ip, i, now);
      }
    }
  }

  /** A login, right or wrong, is refused exactly when the client's fifth failure
      of a window came less than a minute before it, whatever happened in
      between. Which failure is the fifth is read off the history alone. */
  lemma RefusedIff(logins: seq<Login>, j: nat)
    requires LoginsInOrder(logins) && j < |logins|
    ensures !Admitted(TableAfter(logins[..j]), logins[j]) <==>
      exists i: nat :: i < j && LockedBy(logins, logins[j].ip, i, logins[j].at)
  {
    hide LockedBy, TableAfter, Marks, LockedOut, Admitted;
    var l, before := logins[j], logins[..j];
    AdmittedByHistory(logins, j);
    LockedExactly(before, l.ip, l.at);
    forall i: nat | i < j ensures LockedBy(before, l.ip, i, l.at) <==> LockedBy(logins, l.ip, i, l.at) {
      LockedByPart(logins, j, l.ip, i, l.at);
    }
  }

  // ----- the bound is reached

  function Same(l: Login, n: nat): seq<Login> {
    seq(n, _ => l)
  }

  /** The record a login at some time finds. */
  function Current(rec: Attempts, at: nat): Attempts {
    if Expired(rec, at) then Attempts(0, 0, 0) else rec
  }

  /** No client but this one has a record, and this one's is as given. */
  predicate Only(m: Table, ip: string, rec: Attempts) {
    m == map[ip := rec] || (m == map[] && rec == Attempts(0, 0, 0))
  }

  function CountedTimes(rec: Attempts, at: nat, n: nat): Attempts {
    if n == 0 then rec else Counted(Current(CountedTimes(rec, at, n - 1), at), at)
  }

  lemma LetThrough(m: Table, l: Login, rec: Attempts)
    requires Only(m, l.ip, rec) && !l.right && rec.lockedUntil <= l.at
    ensures Admitted(m, l) && Only(LoggedIn(m, l), l.ip, Counted(Current(rec, l.at), l.at))
  {
    hide Counted;
  }

  /** One more wrong password that is not refused. */
  lemma OneLetThrough(before: seq<Login>, l: Login, rec: Attempts)
    requires !l.right && Only(TableAfter(before), l.ip, rec) && rec.lockedUntil <= l.at
    ensures Only(TableAfter(before + [l]), l.ip, Counted(Current(rec, l.at), l.at))
    ensures FailureTimes(before + [l], l.ip) == FailureTimes(before, l.ip) + [l.at]
  {
    hide Counted, Current, Admitted, LoggedIn, Only;
    assert (before + [l])[..|before|] == before;
    LetThrough(TableAfter(before), l, rec);
  }

  function Repeated(at: nat, n: nat): (r: seq<nat>)
    ensures |r| == n
  {
    seq(n, _ => at)
  }

  /** Wrong passwords at one instant, none of them refused. */
  lemma {:induction false} AllLetThrough(before: seq<Login>, l: Login, rec: Attempts, n: nat)
    requires !l.right && Only(TableAfter(before), l.ip, rec)
    requires forall k: nat :: k < n ==> CountedTimes(rec, l.at, k).lockedUntil <= l.at
    ensures var logins := before + Same(l, n);
      && Only(TableAfter(logins), l.ip, CountedTimes(rec, l.at, n))
      && FailureTimes(logins, l.ip) == FailureTimes(before, l.ip) + Repeated(l.at, n)
  {
    hide Counted, Current, Only, TableAfter, FailureTimes;
    if n == 0 {
      assert before + Same(l, n) == before;
    } else {
      AllLetThrough(before, l, rec, n - 1);
      OneLetThrough(before + Same(l, n - 1), l, CountedTimes(rec, l.at, n - 1));
      assert before + Same(l, n) == before + Same(l, n - 1) + [l];
      assert Repeated(l.at, n) == Repeated(l.at, n - 1) + [l.at];
    }
  }

  /** Five at one instant, four when the lockout and the window end together,
      five more just after. */
  function NineLogins(ip: string, t: nat): seq<Login> {
    var u := t + LOCKOUT;
    Same(Login(ip, t, false), 5) + Same(Login(ip, u, false), 4) + Same(Login(ip, u + 1, false), 5)
  }

  lemma FiveFresh(t: nat)
    requires t > 0
    ensures forall k: nat :: k < 5 ==> CountedTimes(Attempts(0, 0, 0), t, k) == Attempts(k, if k == 0 then 0 else t + WINDOW, 0)
    ensures CountedTimes(Attempts(0, 0, 0), t, 5) == Attempts(0, t + WINDOW, t + LOCKOUT)
  {
    var r := Attempts(0, 0, 0);
    assert CountedTimes(r, t, 0) == r;
    assert CountedTimes(r, t, 1) == Attempts(1, t + WINDOW, 0);
    assert CountedTimes(r, t, 2) == Attempts(2, t + WINDOW, 0);
    assert CountedTimes(r, t, 3) == Attempts(3, t + WINDOW, 0);
    assert CountedTimes(r, t, 4) == Attempts(4, t + WINDOW, 0);
  }

  lemma FourMore(t: nat)
    ensures var rec, u := Attempts(0, t + WINDOW, t + LOCKOUT), t + LOCKOUT;
      forall k: nat :: k <= 4 ==> CountedTimes(rec, u, k) == Attempts(k, t + WINDOW, t + LOCKOUT)
  {
    var rec, u := Attempts(0, t + WINDOW, t + LOCKOUT), t + LOCKOUT;
    assert CountedTimes(rec, u, 0) == rec;
    assert CountedTimes(rec, u, 1) == rec.(failures := 1);
    assert CountedTimes(rec, u, 2) == rec.(failures := 2);
    assert CountedTimes(rec, u, 3) == rec.(failures := 3);
    assert CountedTimes(rec, u, 4) == rec.(failures := 4);
  }

  lemma FiveAfter(rec: Attempts, t: nat)
    requires t > 0 && Expired(rec, t)
    ensures forall k: nat :: k < 5 ==> CountedTimes(rec, t, k).lockedUntil <= t
  {
    assert CountedTimes(rec, t, 0) == rec;
    assert CountedTimes(rec, t, 1) == Attempts(1, t + WINDOW, 0);
    assert CountedTimes(rec, t, 2) == Attempts(2, t + WINDOW, 0);
    assert CountedTimes(rec, t, 3) == Attempts(3, t + WINDOW, 0);
    assert CountedTimes(rec, t, 4) == Attempts(4, t + WINDOW, 0);
  }

  /** Nine wrong passwords do get through within a nanosecond of each other. */
  lemma NineInAMoment(ip: string, t: nat)
    requires t > 0
    ensures LoginsInOrder(NineLogins(ip, t))
    ensures forall i :: 0 <= i < |NineLogins(ip, t)| ==> !Succeeded(NineLogins(ip, t), ip, i)
    ensures |Within(NineLogins(ip, t), ip, t + 60 * SECOND)| == 9
  {
    hide TableAfter, Admitted, FailureTimes, Range;
    NineTimes(ip, t);
    NineInside(FailureTimes(NineLogins(ip, t), ip), t);
  }

  lemma NineInside(times: seq<nat>, t: nat)
    requires times == Repeated(t, 5) + Repeated(t + LOCKOUT, 4) + Repeated(t + LOCKOUT + 1, 5)
    ensures |set i | 0 <= i < |times| && t + LOCKOUT <= times[i] < t + LOCKOUT + WINDOW| == 9
  {
    hide Range;
    var inside := set i | 0 <= i < |times| && t + LOCKOUT <= times[i] < t + LOCKOUT + WINDOW;
    forall i: int ensures i in inside <==> i in Range(5, 9) {
      RangeMembers(5, 9, i);
    }
    assert inside == Range(5, 9);
    RangeSize(5, 9);
  }

  lemma NineTimes(ip: string, t: nat)
    requires t > 0
    ensures FailureTimes(NineLogins(ip, t), ip)
      == Repeated(t, 5) + Repeated(t + LOCKOUT, 4) + Repeated(t + LOCKOUT + 1, 5)
  {
    hide Counted, Admitted, CountedTimes, LoggedIn;
    var u := t + LOCKOUT;
    var rec5, rec9 := Attempts(0, t + WINDOW, u), Attempts(4, t + WINDOW, u);
    var first, second, third := Login(ip, t, false), Login(ip, u, false), Login(ip, u + 1, false);
    FiveFresh(t);
    AllLetThrough([], first, Attempts(0, 0, 0), 5);
    assert [] + Same(first, 5) == Same(first, 5);
    FourMore(t);
    AllLetThrough(Same(first, 5), second, rec5, 4);
    FiveAfter(rec9, u + 1);
    AllLetThrough(Same(first, 5) + Same(second, 4), third, rec9, 5);
  }
}
