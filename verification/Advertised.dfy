/** The set of routes advertised to the tailnet. */
module Advertised {
  import opened Common
  import opened Text
  import opened Netip
  import opened Tables
  import opened Ownership

  function EnabledTexts(conns: seq<Connection>): seq<string> {
    if conns == [] then []
    else (if conns[0].enabled then conns[0].subnets else []) + EnabledTexts(conns[1..])
  }

  function EnabledLocals(locals: seq<LocalSubnet>): seq<string> {
    if locals == [] then []
    else (if locals[0].enabled then [locals[0].cidr] else []) + EnabledLocals(locals[1..])
  }

  function Dedup(xs: seq<string>): seq<string> {
    if xs == [] then []
    else if xs[0] in xs[1..] then Dedup(xs[1..])
    else [xs[0]] + Dedup(xs[1..])
  }

  function Texts(t: State): seq<string> {
    EnabledTexts(List(t.rows)) + EnabledLocals(ListLocals(t.locals))
  }

  /** `AdvertisedRoutes` */
  function Routes(t: State): seq<string> {
    Sort(Dedup(Texts(t)))
  }

  lemma {:induction false} DedupSpec(xs: seq<string>)
    ensures Distinct(Dedup(xs))
    ensures forall x :: x in Dedup(xs) <==> x in xs
  {
    if xs != [] {
      DedupSpec(xs[1..]);
      assert forall x :: x in xs <==> x == xs[0] || x in xs[1..];
    }
  }

  lemma RoutesSpec(t: State)
    ensures Ordered(Routes(t)) && Distinct(Routes(t))
    ensures forall x :: x in Routes(t) <==> x in Texts(t)
  {
    var texts := Dedup(Texts(t));
    DedupSpec(Texts(t));
    SortSpec(texts);
    SameMembers(texts, Routes(t));
    DistinctCount(texts);
    DistinctCount(Routes(t));
  }

  lemma {:induction false} EnabledTextsMembers(conns: seq<Connection>)
    ensures forall conn, x :: conn in conns && conn.enabled && x in conn.subnets ==> x in EnabledTexts(conns)
    ensures forall x :: x in EnabledTexts(conns) ==> exists conn :: conn in conns && conn.enabled && x in conn.subnets
  {
    if conns != [] {
      EnabledTextsMembers(conns[1..]);
      forall x | x in EnabledTexts(conns) ensures exists conn :: conn in conns && conn.enabled && x in conn.subnets {
        if !conns[0].enabled || x !in conns[0].subnets {
          assert x in EnabledTexts(conns[1..]);
          var conn :| conn in conns[1..] && conn.enabled && x in conn.subnets;
          assert conn in conns;
        }
      }
    }
  }

  lemma {:induction false} EnabledLocalsMembers(locals: seq<LocalSubnet>)
    ensures forall x :: x in EnabledLocals(locals) <==> exists l :: l in locals && l.enabled && l.cidr == x
  {
    if locals != [] {
      EnabledLocalsMembers(locals[1..]);
      assert forall l :: l in locals <==> l == locals[0] || l in locals[1..];
      forall x ensures x in EnabledLocals(locals) <==> exists l :: l in locals && l.enabled && l.cidr == x {
        if x in EnabledLocals(locals[1..]) {
          var l :| l in locals[1..] && l.enabled && l.cidr == x;
          assert l in locals;
        }
        if l :| l in locals && l.enabled && l.cidr == x {
          assert l == locals[0] || l in locals[1..];
        }
      }
    }
  }

  /** A text is advertised exactly when an enabled owner claims it. */
  lemma TextsMembers(t: State)
    ensures forall x :: x in Texts(t) <==>
      || (exists r :: r in t.rows && r.enabled && x in Subnets(r))
      || (exists l :: l in t.locals && l.enabled && l.cidr == x)
  {
    ListMembers(t.rows);
    LocalsMembers(t.locals);
    SameMembers(ListLocals(t.locals), t.locals);
    EnabledTextsMembers(List(t.rows));
    EnabledLocalsMembers(ListLocals(t.locals));
    forall x | x in EnabledTexts(List(t.rows)) ensures exists r :: r in t.rows && r.enabled && x in Subnets(r) {
      var conn :| conn in List(t.rows) && conn.enabled && x in conn.subnets;
      var r :| r in t.rows && Scan(r) == conn;
      assert r.enabled && x in Subnets(r);
    }
    forall x, r | r in t.rows && r.enabled && x in Subnets(r) ensures x in EnabledTexts(List(t.rows)) {
      assert Scan(r) in List(t.rows);
    }
  }

  /** The advertised list is ordered and duplicate-free, and it covers an
      address exactly when an enabled connection or local subnet does. */
  lemma RoutesCover(c: Codec, t: State, a: Addr)
    requires Owned(c, t)
    ensures Ordered(Routes(t)) && Distinct(Routes(t))
    ensures (exists x :: x in Routes(t) && PrefixAt(c, x).Valid() && PrefixAt(c, x).Contains(a)) <==>
      || (exists r, x :: r in t.rows && r.enabled && x in Subnets(r) && PrefixAt(c, x).Valid() && PrefixAt(c, x).Contains(a))
      || (exists l :: l in t.locals && l.enabled && PrefixAt(c, l.cidr).Valid() && PrefixAt(c, l.cidr).Contains(a))
  {
    RoutesSpec(t);
    TextsMembers(t);
    if x :| x in Routes(t) && PrefixAt(c, x).Valid() && PrefixAt(c, x).Contains(a) {
      assert x in Texts(t);
      if r :| r in t.rows && r.enabled && x in Subnets(r) {
        assert r in t.rows && r.enabled && x in Subnets(r) && PrefixAt(c, x).Valid() && PrefixAt(c, x).Contains(a);
      }
    }
    if r, x :| r in t.rows && r.enabled && x in Subnets(r) && PrefixAt(c, x).Valid() && PrefixAt(c, x).Contains(a) {
      assert x in Texts(t);
      assert x in Routes(t);
    }
    if l :| l in t.locals && l.enabled && PrefixAt(c, l.cidr).Valid() && PrefixAt(c, l.cidr).Contains(a) {
      assert l.cidr in Texts(t);
      assert l.cidr in Routes(t);
    }
  }

  lemma RoutesPlain(c: Codec, t: State)
    requires Faithful(c) && Owned(c, t)
    ensures AllPlain(Routes(t))
  {
    RoutesSpec(t);
    TextsMembers(t);
    forall i | 0 <= i < |Routes(t)| ensures Plain(Routes(t)[i]) {
      var x := Routes(t)[i];
      assert x in Routes(t);
      if r :| r in t.rows && r.enabled && x in Subnets(r) {
        assert RowOk(c, r);
        assert CanonicalText(c, x);
      } else {
        assert CanonicalText(c, x);
      }
    }
  }

  // ----- switching a connection

  /** Switching a connection changes the advertised set by exactly its own
      subnets, because nobody else can claim them; switching it back restores
      the list. */
  lemma SwitchExact(c: Codec, t: State, row: Row, enabled: bool)
    requires Owned(c, t) && row in t.rows
    ensures var t' := SetConnectionEnabled(t, row.id, enabled).0;
      && (forall x :: x in Routes(t') <==>
            if x in Subnets(row) then enabled else x in Routes(t))
      && Routes(SetConnectionEnabled(t', row.id, row.enabled).0) == Routes(t)
  {
    hide Routes, Texts, SplitSubnets, Owned;
    var t' := SetConnectionEnabled(t, row.id, enabled).0;
    var t'' := SetConnectionEnabled(t', row.id, row.enabled).0;
    assert HasId(t.rows, row.id) by { HasRow(t.rows, row); }
    Switched(c, t, row, enabled);
    RoutesSpec(t);
    RoutesSpec(t');
    assert t''.rows == t.rows by { SwitchedBack(c, t, row, enabled); }
  }

  lemma HasRow(rows: seq<Row>, row: Row)
    requires row in rows
    ensures HasId(rows, row.id)
  {
    var i :| 0 <= i < |rows| && rows[i] == row;
  }

  lemma SwitchedBack(c: Codec, t: State, row: Row, enabled: bool)
    requires Owned(c, t) && row in t.rows && HasId(t.rows, row.id)
    ensures var t' := SetConnectionEnabled(t, row.id, enabled).0;
      SetConnectionEnabled(t', row.id, row.enabled).0.rows == t.rows
  {
    hide RowsFine, TunnelsApart, LocalsFine, LocalsApart, CrossApart;
    var i :| 0 <= i < |t.rows| && t.rows[i] == row;
    var t' := SetConnectionEnabled(t, row.id, enabled).0;
    assert t'.rows[i].id == row.id;
    assert HasId(t'.rows, row.id);
    var t'' := SetConnectionEnabled(t', row.id, row.enabled).0;
    forall k | 0 <= k < |t.rows| ensures t''.rows[k] == t.rows[k] {
      assert t.rows[k].id == row.id ==> k == i;
    }
  }

  lemma Switched(c: Codec, t: State, row: Row, enabled: bool)
    requires Owned(c, t) && row in t.rows && HasId(t.rows, row.id)
    ensures var t' := SetConnectionEnabled(t, row.id, enabled).0;
      forall x :: x in Texts(t') <==> if x in Subnets(row) then enabled else x in Texts(t)
  {
    hide Texts, SplitSubnets, Owned;
    var t' := SetConnectionEnabled(t, row.id, enabled).0;
    TextsMembers(t);
    TextsMembers(t');
    SwitchedRows(c, t, row, enabled);
    forall x ensures x in Texts(t') <==> if x in Subnets(row) then enabled else x in Texts(t) {
      if x in Subnets(row) {
        OnlyOwner(c, t, row, x);
      }
    }
  }

  /** The switched table: the row with its flag set, all others as they were. */
  lemma SwitchedRows(c: Codec, t: State, row: Row, enabled: bool)
    requires Owned(c, t) && row in t.rows && HasId(t.rows, row.id)
    ensures var t' := SetConnectionEnabled(t, row.id, enabled).0;
      && t'.locals == t.locals
      && (forall r :: r in t'.rows <==> r == row.(enabled := enabled) || (r in t.rows && r.id != row.id))
      && (forall r :: r in t.rows && r.id == row.id ==> r == row)
  {
    hide RowsFine, TunnelsApart, LocalsFine, LocalsApart, CrossApart;
    var t' := SetConnectionEnabled(t, row.id, enabled).0;
    var i :| 0 <= i < |t.rows| && t.rows[i] == row;
    assert t'.rows[i] == row.(enabled := enabled);
    forall r | r in t.rows && r.id != row.id ensures r in t'.rows {
      var k :| 0 <= k < |t.rows| && t.rows[k] == r;
      assert t'.rows[k] == r;
    }
    forall r | r in t'.rows ensures r == row.(enabled := enabled) || (r in t.rows && r.id != row.id) {
      var k :| 0 <= k < |t'.rows| && t'.rows[k] == r;
      assert t.rows[k].id == row.id ==> k == i;
    }
  }

  /** A claimed text has one owner. */
  lemma OnlyOwner(c: Codec, t: State, row: Row, x: string)
    requires Owned(c, t) && row in t.rows && x in Subnets(row)
    ensures forall r :: r in t.rows && r.id != row.id ==> x !in Subnets(r)
    ensures forall l :: l in t.locals ==> l.cidr != x
  {
    hide SplitSubnets, ParseSubnet;
    var i :| 0 <= i < |Subnets(row)| && Subnets(row)[i] == x;
    var p := PrefixAt(c, x);
    assert Prefixes(c, Subnets(row))[i] == p;
    forall r | r in t.rows && r.id != row.id ensures x !in Subnets(r) {
      assert RowsApart(c, row, r);
      forall j | 0 <= j < |Subnets(r)| ensures Subnets(r)[j] != x {
        assert Apart(p, Prefixes(c, Subnets(r))[j]);
        OverlapsItself(p);
      }
    }
    forall l | l in t.locals ensures l.cidr != x {
      assert RowLocalApart(c, row, l);
      assert Apart(p, [PrefixAt(c, l.cidr)][0]);
      OverlapsItself(p);
    }
  }

  lemma OverlapsItself(p: Prefix)
    ensures p.Valid() ==> p.Overlaps(p)
  {
  }
}
