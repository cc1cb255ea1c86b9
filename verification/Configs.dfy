/** Fingerprints: what equality of the rendered text says about the tunnels. */
module Configs {
  import opened Common
  import opened Text
  import opened Tables
  import opened Host
  import opened Reconciler
  import opened Agreement

  /** The text before the subnet list. */
  function Head(d: Definition): string {
    d.host + "|" + d.addr + "|" + d.psk + "|" + d.user + "|" + d.password
  }

  lemma FingerprintSplit(d: Definition)
    ensures Fingerprint(d) == Head(d) + "|" + Join(d.subnets)
    ensures Fingerprint(d) != ""
  {
    hide Join;
  }

  /** A fingerprint that ends in this subnet list. */
  ghost predicate Ends(text: string, subnets: seq<string>) {
    exists head: string :: text == head + "|" + Join(subnets)
  }

  /** The subnet list can be read off the end of a fingerprint, whatever the
      other fields hold: a subnet edit always shows. */
  lemma EndsUnique(text: string, xs: seq<string>, ys: seq<string>)
    requires AllPlain(xs) && AllPlain(ys) && Ends(text, xs) && Ends(text, ys)
    ensures xs == ys
  {
    hide Join;
    var p: string :| text == p + "|" + Join(xs);
    var q: string :| text == q + "|" + Join(ys);
    JoinNoPipe(xs);
    JoinNoPipe(ys);
    LastField(p, Join(xs), q, Join(ys));
    JoinInjective(xs, ys);
  }

  lemma FingerprintEnds(d: Definition)
    ensures Ends(Fingerprint(d), d.subnets)
  {
    hide Join;
    FingerprintSplit(d);
  }

  lemma EqualPrintsEqualSubnets(d: Definition, e: Definition)
    requires AllPlain(d.subnets) && AllPlain(e.subnets) && Fingerprint(d) == Fingerprint(e)
    ensures d.subnets == e.subnets
  {
    hide Fingerprint, Ends;
    FingerprintEnds(d);
    FingerprintEnds(e);
    EndsUnique(Fingerprint(d), d.subnets, e.subnets);
  }

  predicate NoPipes(d: Definition) {
    '|' !in d.host && '|' !in d.addr && '|' !in d.psk && '|' !in d.user && '|' !in d.password
  }

  /** No other definition of this name has the same fingerprint. */
  ghost predicate Identified(d: Definition) {
    forall e: Definition ::
      e.name == d.name && AllPlain(e.subnets) && Fingerprint(e) == Fingerprint(d) ==> e == d
  }

  function Pipes(s: string): nat { multiset(s)['|'] }

  lemma PipesOfPair(a: string, b: string)
    ensures Pipes(a + "|" + b) == Pipes(a) + 1 + Pipes(b)
  {
    assert multiset(a + "|" + b) == multiset(a) + multiset("|") + multiset(b);
  }

  lemma PipesOfFingerprint(d: Definition)
    requires AllPlain(d.subnets)
    ensures Pipes(Fingerprint(d)) == 5 <==> NoPipes(d)
  {
    hide Join, Pipes;
    JoinNoPipe(d.subnets);
    PipesOfPair(d.host, d.addr);
    PipesOfPair(d.host + "|" + d.addr, d.psk);
    PipesOfPair(d.host + "|" + d.addr + "|" + d.psk, d.user);
    PipesOfPair(d.host + "|" + d.addr + "|" + d.psk + "|" + d.user, d.password);
    PipesOfPair(Head(d), Join(d.subnets));
    FingerprintSplit(d);
    NoPipe(d.host);
    NoPipe(d.addr);
    NoPipe(d.psk);
    NoPipe(d.user);
    NoPipe(d.password);
    NoPipe(Join(d.subnets));
  }

  lemma NoPipe(s: string)
    ensures '|' in s <==> Pipes(s) > 0
  {
  }

  lemma FingerprintInjective(d: Definition, e: Definition)
    requires d.name == e.name && AllPlain(d.subnets) && AllPlain(e.subnets) && NoPipes(d) && NoPipes(e)
    requires Fingerprint(d) == Fingerprint(e)
    ensures d == e
  {
    hide Join;
    JoinNoPipe(d.subnets);
    JoinNoPipe(e.subnets);
    FingerprintSplit(d);
    FingerprintSplit(e);
    LastField(Head(d), Join(d.subnets), Head(e), Join(e.subnets));
    JoinInjective(d.subnets, e.subnets);
    var d4, e4 := d.host + "|" + d.addr + "|" + d.psk + "|" + d.user, e.host + "|" + e.addr + "|" + e.psk + "|" + e.user;
    LastField(d4, d.password, e4, e.password);
    var d3, e3 := d.host + "|" + d.addr + "|" + d.psk, e.host + "|" + e.addr + "|" + e.psk;
    LastField(d3, d.user, e3, e.user);
    LastField(d.host + "|" + d.addr, d.psk, e.host + "|" + e.addr, e.psk);
    LastField(d.host, d.addr, e.host, e.addr);
  }

  /** With a '|' in a field there is another definition with the same text: the
      text after it can be read as the next field, or the text before it as the
      previous one. */
  lemma AmbiguousFingerprint(d: Definition) returns (e: Definition)
    requires !NoPipes(d)
    ensures e != d && e.name == d.name && e.subnets == d.subnets && Fingerprint(e) == Fingerprint(d)
  {
    hide Fingerprint, Head;
    if '|' in d.host || '|' in d.addr {
      e := AmbiguousGateway(d);
    } else {
      e := AmbiguousCredentials(d);
    }
    FingerprintSplit(d);
    FingerprintSplit(e);
  }

  lemma AmbiguousGateway(d: Definition) returns (e: Definition)
    requires '|' in d.host || '|' in d.addr
    ensures e != d && e.name == d.name && e.subnets == d.subnets && Head(e) == Head(d)
  {
    if '|' in d.host {
      var x, y := Cut(d.host);
      e := d.(host := x, addr := y + "|" + d.addr);
      Regroup("", x, y, d.addr);
    } else {
      var x, y := Cut(d.addr);
      e := d.(addr := x, psk := y + "|" + d.psk);
      Regroup(d.host + "|", x, y, d.psk);
    }
  }

  lemma AmbiguousCredentials(d: Definition) returns (e: Definition)
    requires '|' in d.psk || '|' in d.user || '|' in d.password
    ensures e != d && e.name == d.name && e.subnets == d.subnets && Head(e) == Head(d)
  {
    if '|' in d.psk {
      var x, y := Cut(d.psk);
      e := d.(psk := x, user := y + "|" + d.user);
      Regroup(d.host + "|" + d.addr + "|", x, y, d.user);
    } else if '|' in d.user {
      var x, y := Cut(d.user);
      e := d.(user := x, password := y + "|" + d.password);
      Regroup(d.host + "|" + d.addr + "|" + d.psk + "|", x, y, d.password);
    } else {
      var x, y := Cut(d.password);
      e := d.(user := d.user + "|" + x, password := y);
      Regroup(d.host + "|" + d.addr + "|" + d.psk + "|", d.user, x, y);
      assert |e.user| > |d.user|;
    }
  }

  /** The same text with a '|' counted to the next field. */
  lemma Regroup(p: string, x: string, y: string, z: string)
    ensures p + (x + "|" + y) + "|" + z == p + x + "|" + (y + "|" + z)
    ensures p + (x + ("|" + y)) + "|" + z == p + x + "|" + (y + "|" + z)
  {
  }

  lemma Cut(s: string) returns (x: string, y: string)
    requires '|' in s
    ensures s == x + "|" + y && |x| < |s| && |y| < |s|
  {
    var i :| 0 <= i < |s| && s[i] == '|';
    x, y := s[..i], s[i + 1..];
  }

  /** A fingerprint tells one definition from all others exactly when none of
      its first five fields has a '|' in it. The others range over all texts: a
      mistaken one may have an address no resolver returns (for a '|' in the host
      or the address) or an empty secret, which the store refuses. */
  lemma IdentifiedIff(d: Definition)
    requires AllPlain(d.subnets)
    ensures Identified(d) <==> NoPipes(d)
  {
    hide Fingerprint, Pipes;
    if NoPipes(d) {
      forall e: Definition | e.name == d.name && AllPlain(e.subnets) && Fingerprint(e) == Fingerprint(d)
        ensures e == d
      {
        PipesOfFingerprint(d);
        PipesOfFingerprint(e);
        FingerprintInjective(d, e);
      }
    } else {
      var e := AmbiguousFingerprint(d);
      assert !Identified(d);
    }
  }

  // ----- the fingerprint map and the changed list

  predicate DefsDistinct(defs: seq<Definition>) {
    forall i, j :: 0 <= i < j < |defs| ==> defs[i].name != defs[j].name
  }

  lemma NewName(defs: seq<Definition>)
    requires defs != [] && DefsDistinct(defs)
    ensures var last := |defs| - 1;
      && defs[last].name !in DefNames(defs[..last])
      && DefNames(defs) == DefNames(defs[..last]) + {defs[last].name}
  {
    var last := |defs| - 1;
    forall d | d in defs[..last] ensures d.name != defs[last].name {
      var k :| 0 <= k < last && defs[k] == d;
    }
    assert defs == defs[..last] + [defs[last]];
  }

  lemma {:induction false} FingerprintsKeys(defs: seq<Definition>)
    requires DefsDistinct(defs)
    ensures Fingerprints(defs).Keys == DefNames(defs) && |Fingerprints(defs)| == |defs|
  {
    hide Fingerprint, DefNames;
    if defs == [] {
      NoNames();
    } else {
      var last := |defs| - 1;
      FingerprintsKeys(defs[..last]);
      NewName(defs);
      assert Fingerprints(defs).Keys == Fingerprints(defs[..last]).Keys + {defs[last].name};
      assert |Fingerprints(defs).Keys| == |Fingerprints(defs[..last]).Keys| + 1;
    }
  }

  lemma NoNames()
    ensures DefNames([]) == {}
  {
  }

  lemma {:induction false} FingerprintsAt(defs: seq<Definition>, d: Definition)
    requires DefsDistinct(defs) && d in defs
    ensures d.name in Fingerprints(defs) && Fingerprints(defs)[d.name] == Fingerprint(d)
  {
    hide Fingerprint;
    var last := |defs| - 1;
    if d != defs[last] {
      assert d in defs[..last];
      FingerprintsAt(defs[..last], d);
    }
  }

  lemma FingerprintsSpec(defs: seq<Definition>)
    requires DefsDistinct(defs)
    ensures Fingerprints(defs).Keys == DefNames(defs)
    ensures forall d :: d in defs ==> d.name in Fingerprints(defs) && Fingerprints(defs)[d.name] == Fingerprint(d)
    ensures |Fingerprints(defs)| == |defs|
  {
    hide Fingerprint, Fingerprints, DefNames, DefsDistinct;
    FingerprintsKeys(defs);
    forall d | d in defs ensures d.name in Fingerprints(defs) && Fingerprints(defs)[d.name] == Fingerprint(d) {
      FingerprintsAt(defs, d);
    }
  }

  lemma {:induction false} ChangedSpec(rendered: map<string, string>, wanted: map<string, string>, defs: seq<Definition>)
    ensures forall d :: d in ChangedTunnels(rendered, wanted, defs) <==>
      d in defs && Lookup(rendered, d.name) != Lookup(wanted, d.name)
  {
    if defs != [] {
      ChangedSpec(rendered, wanted, defs[1..]);
      assert forall d :: d in defs <==> d == defs[0] || d in defs[1..];
    }
  }

  lemma {:induction false} ChangedDistinct(rendered: map<string, string>, wanted: map<string, string>, defs: seq<Definition>)
    requires DefsDistinct(defs)
    ensures DefsDistinct(ChangedTunnels(rendered, wanted, defs))
  {
    if defs != [] {
      ChangedDistinct(rendered, wanted, defs[1..]);
      ChangedSpec(rendered, wanted, defs[1..]);
      var rest := ChangedTunnels(rendered, wanted, defs[1..]);
      forall k | 0 <= k < |rest| ensures rest[k].name != defs[0].name {
        assert rest[k] in rest;
        var j :| 0 <= j < |defs[1..]| && defs[1..][j] == rest[k];
        assert defs[j + 1] == rest[k];
      }
    }
  }

  /** The skip test is exact: nothing changed and equal sizes hold together
      exactly when the rendered map is the wanted one. */
  lemma SkipExact(rendered: map<string, string>, defs: seq<Definition>)
    requires DefsDistinct(defs)
    ensures var wanted := Fingerprints(defs);
      (ChangedTunnels(rendered, wanted, defs) == [] && |rendered| == |wanted|) <==> rendered == wanted
  {
    hide Fingerprint, Fingerprints, ChangedTunnels;
    var wanted := Fingerprints(defs);
    var changed := ChangedTunnels(rendered, wanted, defs);
    FingerprintsSpec(defs);
    ChangedSpec(rendered, wanted, defs);
    if changed == [] && |rendered| == |wanted| {
      forall n | n in wanted ensures n in rendered && rendered[n] == wanted[n] {
        var d :| d in defs && d.name == n;
        assert d !in changed;
        FingerprintSplit(d);
      }
      SubsetOfSameSize(wanted.Keys, rendered.Keys);
      assert rendered == wanted;
    }
    assert |changed| > 0 ==> changed[0] in changed;
  }

  lemma SubsetOfSameSize<T>(a: set<T>, b: set<T>)
    requires a <= b && |a| == |b|
    ensures a == b
  {
    if x :| x in b && x !in a {
      assert a <= b - {x};
      SubsetSize(a, b - {x});
    }
  }

  ghost predicate Describes(conns: seq<Connection>, defs: seq<Definition>) {
    && |defs| == |conns|
    && forall k :: 0 <= k < |conns| ==> defs[k].name == conns[k].name && defs[k].subnets == conns[k].subnets
  }

  lemma {:induction false} DesiredSpec(conns: seq<Connection>, i: Input)
    requires DesiredTunnels(conns, i).Some?
    ensures Describes(conns, DesiredTunnels(conns, i).value)
    decreases |conns|
  {
    if conns != [] {
      DesiredSpec(conns[1..], i);
      var rest, all := DesiredTunnels(conns[1..], i).value, DesiredTunnels(conns, i).value;
      forall k | 0 <= k < |conns| ensures all[k].name == conns[k].name && all[k].subnets == conns[k].subnets {
        if k > 0 {
          assert all[k] == rest[k - 1] && conns[k] == conns[1..][k - 1];
        }
      }
    }
  }

  lemma DescribesNames(conns: seq<Connection>, defs: seq<Definition>)
    requires Describes(conns, defs) && NamesDistinct(conns)
    ensures DefsDistinct(defs) && DefNames(defs) == ConnNames(conns)
    ensures forall conn :: conn in conns ==> exists d :: d in defs && d.name == conn.name && d.subnets == conn.subnets
  {
    forall conn | conn in conns ensures exists d :: d in defs && d.name == conn.name && d.subnets == conn.subnets {
      var k :| 0 <= k < |conns| && conns[k] == conn;
      assert defs[k] in defs;
    }
    forall n | n in DefNames(defs) ensures n in ConnNames(conns) {
      var k :| 0 <= k < |defs| && defs[k].name == n;
      assert conns[k] in conns;
    }
  }
}
