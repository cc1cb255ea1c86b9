/** Route ownership: no two claimed prefixes ever overlap, whatever sequence of
    operations the store has been through. */
module Ownership {
  import opened Common
  import opened Text
  import opened Netip
  import opened Tables

  function Subnets(row: Row): seq<string> {
    SplitSubnets(row.subnetText)
  }

  predicate CanonicalText(c: Codec, x: string) {
    ParseSubnet(c, x).Some? && c.format(ParseSubnet(c, x).value) == x
  }

  predicate RowOk(c: Codec, row: Row) {
    && row.id >= 1
    && ValidName(row.name)
    && Subnets(row) != []
    && (forall i :: 0 <= i < |Subnets(row)| ==> CanonicalText(c, Subnets(row)[i]))
    && MutuallyApart(Prefixes(c, Subnets(row)))
  }

  predicate RowsApart(c: Codec, r: Row, r': Row) {
    AllApart(Prefixes(c, Subnets(r)), Prefixes(c, Subnets(r')))
  }

  predicate RowLocalApart(c: Codec, r: Row, l: LocalSubnet) {
    AllApart(Prefixes(c, Subnets(r)), [PrefixAt(c, l.cidr)])
  }

  ghost predicate RowsFine(c: Codec, rows: seq<Row>) {
    forall r :: r in rows ==> RowOk(c, r)
  }

  predicate KeysDistinct(rows: seq<Row>) {
    forall i, j :: 0 <= i < j < |rows| ==> rows[i].id != rows[j].id && rows[i].name != rows[j].name
  }

  ghost predicate TunnelsApart(c: Codec, rows: seq<Row>) {
    forall r, r' :: r in rows && r' in rows && r.id != r'.id ==> RowsApart(c, r, r')
  }

  ghost predicate LocalsFine(c: Codec, locals: seq<LocalSubnet>) {
    && (forall l :: l in locals ==> l.id >= 1 && CanonicalText(c, l.cidr))
    && (forall i, j :: 0 <= i < j < |locals| ==> locals[i].id != locals[j].id)
  }

  ghost predicate LocalsApart(c: Codec, locals: seq<LocalSubnet>) {
    forall l, l' :: l in locals && l' in locals && l.id != l'.id ==> Apart(PrefixAt(c, l.cidr), PrefixAt(c, l'.cidr))
  }

  ghost predicate CrossApart(c: Codec, rows: seq<Row>, locals: seq<LocalSubnet>) {
    forall r, l :: r in rows && l in locals ==> RowLocalApart(c, r, l)
  }

  /** The invariant of the tables. Enabled and disabled claims count alike. */
  ghost predicate Owned(c: Codec, t: State) {
    && RowsFine(c, t.rows) && KeysDistinct(t.rows) && TunnelsApart(c, t.rows)
    && LocalsFine(c, t.locals) && LocalsApart(c, t.locals)
    && CrossApart(c, t.rows, t.locals)
  }

  // ----- what the listing functions return

  lemma {:induction false} InsertByNameMembers(x: Connection, xs: seq<Connection>)
    ensures multiset(InsertByName(x, xs)) == multiset(xs) + multiset{x}
  {
    if xs != [] {
      assert xs == [xs[0]] + xs[1..];
      if !Le(x.name, xs[0].name) {
        InsertByNameMembers(x, xs[1..]);
      }
    }
  }

  function ScanAll(rows: seq<Row>): seq<Connection> {
    seq(|rows|, i requires 0 <= i < |rows| => Scan(rows[i]))
  }

  lemma {:induction false} ListMultiset(rows: seq<Row>)
    ensures multiset(List(rows)) == multiset(ScanAll(rows))
  {
    hide InsertByName, Scan;
    if rows != [] {
      ListMultiset(rows[1..]);
      InsertByNameMembers(Scan(rows[0]), List(rows[1..]));
      assert ScanAll(rows) == [Scan(rows[0])] + ScanAll(rows[1..]);
      assert multiset(ScanAll(rows)) == multiset{Scan(rows[0])} + multiset(ScanAll(rows[1..]));
    }
  }

  lemma ListMembers(rows: seq<Row>)
    ensures forall r :: r in rows ==> Scan(r) in List(rows)
    ensures forall x :: x in List(rows) ==> exists r :: r in rows && Scan(r) == x
  {
    ListMultiset(rows);
    SameMembers(List(rows), ScanAll(rows));
    forall r | r in rows ensures Scan(r) in List(rows) {
      var i :| 0 <= i < |rows| && rows[i] == r;
      assert ScanAll(rows)[i] == Scan(r);
    }
    forall x | x in List(rows) ensures exists r :: r in rows && Scan(r) == x {
      var i :| 0 <= i < |ScanAll(rows)| && ScanAll(rows)[i] == x;
      assert rows[i] in rows && Scan(rows[i]) == x;
    }
  }

  lemma {:induction false} LocalsMembers(locals: seq<LocalSubnet>)
    ensures multiset(ListLocals(locals)) == multiset(locals)
  {
    if locals != [] {
      LocalsMembers(locals[1..]);
      InsertByCidrMembers(locals[0], ListLocals(locals[1..]));
      assert locals == [locals[0]] + locals[1..];
    }
  }

  lemma {:induction false} InsertByCidrMembers(x: LocalSubnet, xs: seq<LocalSubnet>)
    ensures multiset(InsertByCidr(x, xs)) == multiset(xs) + multiset{x}
  {
    if xs != [] {
      assert xs == [xs[0]] + xs[1..];
      if !Le(x.cidr, xs[0].cidr) {
        InsertByCidrMembers(x, xs[1..]);
      }
    }
  }

  lemma {:induction false} ConnectionTextsMembers(conns: seq<Connection>, except: int)
    ensures forall conn, x :: conn in conns && conn.id != except && x in conn.subnets ==> x in ConnectionTexts(conns, except)
    ensures forall x :: x in ConnectionTexts(conns, except) ==>
      exists conn :: conn in conns && conn.id != except && x in conn.subnets
  {
    if conns != [] {
      ConnectionTextsMembers(conns[1..], except);
      forall x | x in ConnectionTexts(conns, except)
        ensures exists conn :: conn in conns && conn.id != except && x in conn.subnets
      {
        if conns[0].id == except || x !in conns[0].subnets {
          assert x in ConnectionTexts(conns[1..], except);
          var conn :| conn in conns[1..] && conn.id != except && x in conn.subnets;
          assert conn in conns;
        }
      }
    }
  }

  /** The walk of `claimedSubnets` sees every claim but those of the excepted row. */
  lemma ClaimTextsMembers(t: State, except: int)
    ensures forall r, x :: r in t.rows && r.id != except && x in Subnets(r) ==> x in ClaimTexts(t, except)
    ensures forall l :: l in t.locals ==> l.cidr in ClaimTexts(t, except)
    ensures forall x :: x in ClaimTexts(t, except) ==>
      || (exists r :: r in t.rows && r.id != except && x in Subnets(r))
      || (exists l :: l in t.locals && l.cidr == x)
  {
    ListMembers(t.rows);
    LocalsMembers(t.locals);
    var conns, locals := List(t.rows), ListLocals(t.locals);
    SameMembers(locals, t.locals);
    ConnectionTextsMembers(conns, except);
    forall r, x | r in t.rows && r.id != except && x in Subnets(r) ensures x in ClaimTexts(t, except) {
      assert Scan(r) in conns;
      assert x in ConnectionTexts(conns, except);
    }
    forall l | l in t.locals ensures l.cidr in ClaimTexts(t, except) {
      var i :| 0 <= i < |locals| && locals[i] == l;
      assert LocalTexts(locals)[i] == l.cidr;
    }
    forall x | x in ClaimTexts(t, except)
      ensures
        || (exists r :: r in t.rows && r.id != except && x in Subnets(r))
        || (exists l :: l in t.locals && l.cidr == x)
    {
      if x in ConnectionTexts(conns, except) {
        var conn :| conn in conns && conn.id != except && x in conn.subnets;
        var r :| r in t.rows && Scan(r) == conn;
        assert x in Subnets(r);
      } else {
        var i :| 0 <= i < |locals| && LocalTexts(locals)[i] == x;
        assert locals[i] in t.locals;
      }
    }
  }

  /** With the tables in order, the conflict check passes exactly when the
      candidates are apart from every other claim. */
  lemma ConflictsExact(c: Codec, t: State, candidates: seq<Prefix>, except: int)
    requires Owned(c, t)
    ensures CheckConflicts(c, t, candidates, except) in {None, Some(RouteConflict)}
    ensures CheckConflicts(c, t, candidates, except) == None <==>
      && (forall r :: r in t.rows && r.id != except ==> AllApart(candidates, Prefixes(c, Subnets(r))))
      && (forall l :: l in t.locals ==> AllApart(candidates, [PrefixAt(c, l.cidr)]))
  {
    hide ClaimTexts, SplitSubnets, ParseSubnet;
    var texts := ClaimTexts(t, except);
    ClaimTextsMembers(t, except);
    forall i | 0 <= i < |texts| ensures ParseSubnet(c, texts[i]).Some? {
      assert texts[i] in texts;
      if r :| r in t.rows && r.id != except && texts[i] in Subnets(r) {
        var k :| 0 <= k < |Subnets(r)| && Subnets(r)[k] == texts[i];
        assert RowOk(c, r) && CanonicalText(c, Subnets(r)[k]);
      }
    }
    var claimed := Prefixes(c, texts);
    if AllApart(candidates, claimed) {
      forall r | r in t.rows && r.id != except ensures AllApart(candidates, Prefixes(c, Subnets(r))) {
        forall i, k | 0 <= i < |candidates| && 0 <= k < |Subnets(r)|
          ensures Apart(candidates[i], Prefixes(c, Subnets(r))[k])
        {
          assert Subnets(r)[k] in texts;
          var j :| 0 <= j < |texts| && texts[j] == Subnets(r)[k];
          assert Apart(candidates[i], claimed[j]);
        }
      }
      forall l | l in t.locals ensures AllApart(candidates, [PrefixAt(c, l.cidr)]) {
        var j :| 0 <= j < |texts| && texts[j] == l.cidr;
        assert forall i :: 0 <= i < |candidates| ==> Apart(candidates[i], claimed[j]);
      }
    }
    if
      && (forall r :: r in t.rows && r.id != except ==> AllApart(candidates, Prefixes(c, Subnets(r))))
      && (forall l :: l in t.locals ==> AllApart(candidates, [PrefixAt(c, l.cidr)]))
    {
      forall i, j | 0 <= i < |candidates| && 0 <= j < |claimed| ensures Apart(candidates[i], claimed[j]) {
        assert texts[j] in texts;
        if r :| r in t.rows && r.id != except && texts[j] in Subnets(r) {
          var k :| 0 <= k < |Subnets(r)| && Subnets(r)[k] == texts[j];
          assert Apart(candidates[i], Prefixes(c, Subnets(r))[k]);
        } else {
          var l :| l in t.locals && l.cidr == texts[j];
          assert Apart(candidates[i], [PrefixAt(c, l.cidr)][0]);
        }
      }
    }
  }

  lemma AllApartSymmetric(ps: seq<Prefix>, qs: seq<Prefix>)
    requires AllApart(ps, qs)
    ensures AllApart(qs, ps)
  {
    forall i, j | 0 <= i < |qs| && 0 <= j < |ps| ensures Apart(qs[i], ps[j]) {
      assert Apart(ps[j], qs[i]);
      Laminar(ps[j], qs[i]);
    }
  }

  /** What a write puts in the subnet column reads back as the canonical list,
      which stands for the same prefixes. */
  lemma StoredSubnets(c: Codec, subnets: seq<string>, row: Row)
    requires Faithful(c) && GoodSubnets(c, subnets)
    requires row.subnetText == Join(Canonical(c, subnets))
    ensures Subnets(row) == Canonical(c, subnets)
    ensures Prefixes(c, Subnets(row)) == Prefixes(c, subnets)
    ensures forall i :: 0 <= i < |Subnets(row)| ==> CanonicalText(c, Subnets(row)[i])
  {
    var texts := Canonical(c, subnets);
    forall i | 0 <= i < |texts|
      ensures Plain(texts[i]) && CanonicalText(c, texts[i]) && PrefixAt(c, texts[i]) == PrefixAt(c, subnets[i])
    {
      var p := ParseSubnet(c, subnets[i]).value;
      ParseFormat(c, p);
    }
    SplitJoin(texts);
    JoinEmpty(texts);
  }

  // ----- every operation keeps the tables in order

  lemma CreateKeeps(c: Codec, t: State, conn: Connection, s: Secrets)
    requires Faithful(c) && Owned(c, t) && !HasId(t.rows, conn.id)
    ensures Owned(c, CreateConnection(c, t, conn, s).0)
  {
    hide Faithful, ValidateConnection, ValidateSecrets, CheckConflicts, Canonical, Join, Owned, AllApart,
         Prefixes, PrefixAt, NextId;
    var (t', r) := CreateConnection(c, t, conn, s);
    if r.Ok? {
      ConflictsExact(c, t, Prefixes(c, conn.subnets), conn.id);
      NewRowKeeps(c, t, t', conn, s);
    }
  }

  /** The rows of a successful create, when the new row is apart from all. */
  lemma NewRowKeeps(c: Codec, t: State, t': State, conn: Connection, s: Secrets)
    requires Faithful(c) && Owned(c, t)
    requires CreateConnection(c, t, conn, s).1.Ok? && t' == CreateConnection(c, t, conn, s).0
    requires forall r :: r in t.rows ==> AllApart(Prefixes(c, conn.subnets), Prefixes(c, Subnets(r)))
    requires forall l :: l in t.locals ==> AllApart(Prefixes(c, conn.subnets), [PrefixAt(c, l.cidr)])
    ensures Owned(c, t')
  {
    hide Faithful, CheckConflicts, ParseSubnet, SplitSubnets, ValidName, TrimSpace, ValidHost, NextId, AllApart,
         Join, Canonical;
    var row := t'.rows[|t.rows|];
    StoredSubnets(c, conn.subnets, row);
    assert RowOk(c, row);
    assert t'.rows == t.rows + [row];
    NewKey(c, t, row);
    AddRowApart(c, t.rows, row, Prefixes(c, conn.subnets));
    forall l | l in t.locals ensures RowLocalApart(c, row, l) {
    }
  }

  lemma NewKey(c: Codec, t: State, row: Row)
    requires KeysDistinct(t.rows) && RowsFine(c, t.rows)
    requires row.id == NextId(RowIds(t.rows)) && !HasName(t.rows, row.name, 0)
    ensures KeysDistinct(t.rows + [row])
  {
    forall i | 0 <= i < |t.rows| ensures t.rows[i].id < row.id && t.rows[i].name != row.name {
      assert RowIds(t.rows)[i] < row.id;
      assert RowOk(c, t.rows[i]);
    }
  }

  lemma AddRowApart(c: Codec, rows: seq<Row>, row: Row, ps: seq<Prefix>)
    requires TunnelsApart(c, rows) && ps == Prefixes(c, Subnets(row))
    requires forall r :: r in rows ==> AllApart(ps, Prefixes(c, Subnets(r)))
    ensures TunnelsApart(c, rows + [row])
  {
    forall r | r in rows ensures RowsApart(c, row, r) && RowsApart(c, r, row) {
      AllApartSymmetric(ps, Prefixes(c, Subnets(r)));
    }
  }

  lemma UpdateKeeps(c: Codec, t: State, conn: Connection, s: Secrets)
    requires Faithful(c) && Owned(c, t)
    ensures Owned(c, UpdateConnection(c, t, conn, s).0)
  {
    hide Faithful, ValidateSecrets, GoodSubnets, TrimSpace, ValidHost, ValidName, CheckConflicts, MapRow, Owned,
         HasId, HasName;
    var (t', e) := UpdateConnection(c, t, conn, s);
    if e.None? {
      ConflictsExact(c, t, Prefixes(c, conn.subnets), conn.id);
      UpdatedKeeps(c, t, conn, s);
    }
  }

  lemma UpdatedRow(c: Codec, t: State, conn: Connection, s: Secrets, row: Row)
    requires Faithful(c) && RowsFine(c, t.rows) && GoodSubnets(c, conn.subnets) && ValidName(conn.name)
    requires row in MapRow(t.rows, conn.id, r => Updated(c, r, conn, s))
    ensures RowOk(c, row)
    ensures row.id == conn.id ==> row.name == conn.name && Prefixes(c, Subnets(row)) == Prefixes(c, conn.subnets)
    ensures row.id != conn.id ==> row in t.rows
  {
    hide Faithful, SplitSubnets, ParseSubnet, ValidName;
    var rows := MapRow(t.rows, conn.id, r => Updated(c, r, conn, s));
    var i :| 0 <= i < |rows| && rows[i] == row;
    assert RowOk(c, t.rows[i]);
    if row.id == conn.id {
      StoredSubnets(c, conn.subnets, row);
    }
  }

  lemma UpdatedKeeps(c: Codec, t: State, conn: Connection, s: Secrets)
    requires Faithful(c) && Owned(c, t) && GoodSubnets(c, conn.subnets) && ValidName(conn.name)
    requires !HasName(t.rows, conn.name, conn.id)
    requires forall r :: r in t.rows && r.id != conn.id ==> AllApart(Prefixes(c, conn.subnets), Prefixes(c, Subnets(r)))
    requires forall l :: l in t.locals ==> AllApart(Prefixes(c, conn.subnets), [PrefixAt(c, l.cidr)])
    ensures Owned(c, t.(rows := MapRow(t.rows, conn.id, r => Updated(c, r, conn, s))))
  {
    hide Faithful, GoodSubnets, ValidName, AllApart, Prefixes, SplitSubnets, RowOk, PrefixAt, HasName;
    var rows := MapRow(t.rows, conn.id, r => Updated(c, r, conn, s));
    forall r | r in rows
      ensures RowOk(c, r)
      ensures r.id == conn.id ==> Prefixes(c, Subnets(r)) == Prefixes(c, conn.subnets)
      ensures r.id != conn.id ==> r in t.rows
    {
      UpdatedRow(c, t, conn, s, r);
    }
    forall r, r' | r in rows && r' in rows && r.id != r'.id ensures RowsApart(c, r, r') {
      if r'.id == conn.id {
        AllApartSymmetric(Prefixes(c, Subnets(r')), Prefixes(c, Subnets(r)));
      }
    }
    UpdatedKeys(c, t, conn, s);
    forall r, l | r in rows && l in t.locals ensures RowLocalApart(c, r, l) {
      assert r.id != conn.id ==> RowLocalApart(c, r, l);
    }
  }

  lemma UpdatedKeys(c: Codec, t: State, conn: Connection, s: Secrets)
    requires KeysDistinct(t.rows) && !HasName(t.rows, conn.name, conn.id)
    ensures KeysDistinct(MapRow(t.rows, conn.id, r => Updated(c, r, conn, s)))
  {
    hide Canonical, Join;
    var rows := MapRow(t.rows, conn.id, r => Updated(c, r, conn, s));
    forall i, j | 0 <= i < j < |rows| ensures rows[i].id != rows[j].id && rows[i].name != rows[j].name {
      assert t.rows[i].id != t.rows[j].id && t.rows[i].name != t.rows[j].name;
    }
  }

  /** Rows that keep id, name and subnets keep the tables in order. */
  lemma SameClaims(c: Codec, t: State, rows: seq<Row>, locals: seq<LocalSubnet>)
    requires Owned(c, t) && |rows| == |t.rows| && |locals| == |t.locals|
    requires forall i :: 0 <= i < |rows| ==>
      rows[i].id == t.rows[i].id && rows[i].name == t.rows[i].name && rows[i].subnetText == t.rows[i].subnetText
    requires forall i :: 0 <= i < |locals| ==>
      locals[i].id == t.locals[i].id && locals[i].cidr == t.locals[i].cidr
    ensures Owned(c, State(rows, locals))
  {
    forall r' | r' in rows
      ensures exists r :: r in t.rows && r.id == r'.id && r.name == r'.name && r.subnetText == r'.subnetText
    {
      var i :| 0 <= i < |rows| && rows[i] == r';
      assert t.rows[i] in t.rows;
    }
    forall l' | l' in locals ensures exists l :: l in t.locals && l.id == l'.id && l.cidr == l'.cidr {
      var i :| 0 <= i < |locals| && locals[i] == l';
      assert t.locals[i] in t.locals;
    }
    forall r' | r' in rows ensures RowOk(c, r') {
      var r :| r in t.rows && r.id == r'.id && r.name == r'.name && r.subnetText == r'.subnetText;
      assert RowOk(c, r);
    }
    assert LocalsFine(c, locals) && LocalsApart(c, locals);
    forall r, r' | r in rows && r' in rows && r.id != r'.id ensures RowsApart(c, r, r') {
      var q :| q in t.rows && q.id == r.id && q.name == r.name && q.subnetText == r.subnetText;
      var q' :| q' in t.rows && q'.id == r'.id && q'.name == r'.name && q'.subnetText == r'.subnetText;
      assert RowsApart(c, q, q');
    }
    forall r, l | r in rows && l in locals ensures RowLocalApart(c, r, l) {
      var q :| q in t.rows && q.id == r.id && q.name == r.name && q.subnetText == r.subnetText;
      var k :| k in t.locals && k.id == l.id && k.cidr == l.cidr;
      assert RowLocalApart(c, q, k);
    }
  }

  lemma {:induction false} WithoutRowMember(rows: seq<Row>, id: int, r: Row)
    ensures r in WithoutRow(rows, id) <==> r in rows && r.id != id
  {
    if rows != [] {
      WithoutRowMember(rows[1..], id, r);
    }
  }

  lemma {:induction false} WithoutRowKeys(rows: seq<Row>, id: int)
    requires KeysDistinct(rows)
    ensures KeysDistinct(WithoutRow(rows, id))
  {
    if rows != [] {
      WithoutRowKeys(rows[1..], id);
      var rest := WithoutRow(rows[1..], id);
      forall k | 0 <= k < |rest| ensures rest[k].id != rows[0].id && rest[k].name != rows[0].name {
        WithoutRowMember(rows[1..], id, rest[k]);
        var j :| 0 <= j < |rows[1..]| && rows[1..][j] == rest[k];
        assert rows[j + 1] == rest[k];
      }
    }
  }

  lemma WithoutRowMembers(rows: seq<Row>, id: int)
    requires KeysDistinct(rows)
    ensures forall r :: r in WithoutRow(rows, id) <==> r in rows && r.id != id
    ensures KeysDistinct(WithoutRow(rows, id))
  {
    hide KeysDistinct, WithoutRow;
    WithoutRowKeys(rows, id);
    forall r ensures r in WithoutRow(rows, id) <==> r in rows && r.id != id {
      WithoutRowMember(rows, id, r);
    }
  }

  lemma {:induction false} WithoutLocalMembers(locals: seq<LocalSubnet>, id: int)
    requires forall i, j :: 0 <= i < j < |locals| ==> locals[i].id != locals[j].id
    ensures var left := WithoutLocal(locals, id);
      && (forall l :: l in left <==> l in locals && l.id != id)
      && (forall i, j :: 0 <= i < j < |left| ==> left[i].id != left[j].id)
  {
    if locals != [] {
      WithoutLocalMembers(locals[1..], id);
      var rest := WithoutLocal(locals[1..], id);
      assert forall l :: l in locals <==> l == locals[0] || l in locals[1..];
      forall l | l in rest ensures l.id != locals[0].id {
        assert l in locals[1..];
      }
      assert forall j :: 0 <= j < |rest| ==> rest[j] in rest;
    }
  }

  lemma CreateLocalKeeps(c: Codec, t: State, local: LocalSubnet)
    requires Faithful(c) && Owned(c, t)
    ensures Owned(c, CreateLocalSubnet(c, t, local).0)
  {
    hide Faithful, CheckConflicts, ParseSubnet, SplitSubnets, NextId, TrimSpace, AllApart;
    var (t', r) := CreateLocalSubnet(c, t, local);
    if r.Ok? {
      var p := ParseSubnet(c, local.cidr).value;
      ParsedGood(c, local.cidr);
      ParseFormat(c, p);
      var added := t'.locals[|t.locals|];
      assert t'.locals == t.locals + [added] && PrefixAt(c, added.cidr) == p;
      ConflictsExact(c, t, [p], 0);
      assert forall r :: r in t.rows ==> RowOk(c, r);
      forall i | 0 <= i < |t.locals| ensures t.locals[i].id < added.id {
        assert LocalIds(t.locals)[i] < added.id;
      }
      assert LocalsFine(c, t'.locals);
      AddLocalApart(c, t.locals, added, p);
      AddLocalCross(c, t, added, p);
    }
  }

  lemma AddLocalApart(c: Codec, locals: seq<LocalSubnet>, added: LocalSubnet, p: Prefix)
    requires LocalsApart(c, locals) && p == PrefixAt(c, added.cidr)
    requires forall l :: l in locals ==> AllApart([p], [PrefixAt(c, l.cidr)])
    ensures LocalsApart(c, locals + [added])
  {
    forall l | l in locals ensures Apart(PrefixAt(c, l.cidr), p) && Apart(p, PrefixAt(c, l.cidr)) {
      var q := PrefixAt(c, l.cidr);
      assert Apart([p][0], [q][0]);
      Laminar(p, q);
    }
  }

  lemma AddLocalCross(c: Codec, t: State, added: LocalSubnet, p: Prefix)
    requires CrossApart(c, t.rows, t.locals) && p == PrefixAt(c, added.cidr)
    requires forall r :: r in t.rows ==> AllApart([p], Prefixes(c, Subnets(r)))
    ensures CrossApart(c, t.rows, t.locals + [added])
  {
    forall r | r in t.rows ensures RowLocalApart(c, r, added) {
      AllApartSymmetric([p], Prefixes(c, Subnets(r)));
    }
  }

  /** Every operation keeps the tables in order; enabling needs no check of its
      own because disabled claims never stopped counting. */
  lemma ApplyKeeps(c: Codec, t: State, op: Op)
    requires Faithful(c) && Owned(c, t) && Legal(t, op)
    ensures Owned(c, Apply(c, t, op))
  {
    hide Faithful, CreateConnection, UpdateConnection, CreateLocalSubnet, DeleteConnection, DeleteLocalSubnet,
         Owned;
    match op
    case Create(conn, secrets) => CreateKeeps(c, t, conn, secrets);
    case Update(conn, secrets) => UpdateKeeps(c, t, conn, secrets);
    case Enable(_, _) => SameClaims(c, t, Apply(c, t, op).rows, t.locals);
    case SetIP(_, _) => SameClaims(c, t, Apply(c, t, op).rows, t.locals);
    case Delete(id) => DeleteKeeps(c, t, id);
    case CreateLocal(local) => CreateLocalKeeps(c, t, local);
    case EnableLocal(_, _) => SameClaims(c, t, t.rows, Apply(c, t, op).locals);
    case DeleteLocal(id) => DeleteLocalKeeps(c, t, id);
  }

  lemma DeleteKeeps(c: Codec, t: State, id: int)
    requires Owned(c, t)
    ensures Owned(c, DeleteConnection(t, id).0)
  {
    hide RowOk, RowsApart, RowLocalApart, CanonicalText, Apart, PrefixAt, WithoutRow, KeysDistinct;
    WithoutRowMembers(t.rows, id);
  }

  lemma DeleteLocalKeeps(c: Codec, t: State, id: int)
    requires Owned(c, t)
    ensures Owned(c, DeleteLocalSubnet(t, id).0)
  {
    hide RowOk, RowsApart, RowLocalApart, CanonicalText, Apart, PrefixAt, WithoutLocal, KeysDistinct;
    WithoutLocalMembers(t.locals, id);
  }

  /** Tables after a run of operations, each legal where it happens. */
  ghost predicate Reaches(c: Codec, ops: seq<Op>, t: State) {
    if ops == [] then t == EMPTY
    else
      var last := |ops| - 1;
      exists before :: Reaches(c, ops[..last], before) && Legal(before, ops[last]) && t == Apply(c, before, ops[last])
  }

  lemma {:induction false} RunKeeps(c: Codec, ops: seq<Op>, t: State)
    requires Faithful(c) && Reaches(c, ops, t)
    ensures Owned(c, t)
  {
    if ops != [] {
      var last := |ops| - 1;
      var before :| Reaches(c, ops[..last], before) && Legal(before, ops[last]) && t == Apply(c, before, ops[last]);
      RunKeeps(c, ops[..last], before);
      ApplyKeeps(c, before, ops[last]);
    }
  }

  // ----- the consequence for addresses

  datatype Owner = Tunnel(id: int) | Lan(id: int)
  datatype Claim = Claim(owner: Owner, slot: nat, prefix: Prefix)

  ghost predicate Claims(c: Codec, t: State, x: Claim) {
    match x.owner
    case Tunnel(id) =>
      exists r :: r in t.rows && r.id == id && x.slot < |Subnets(r)| && x.prefix == PrefixAt(c, Subnets(r)[x.slot])
    case Lan(id) =>
      x.slot == 0 && exists l :: l in t.locals && l.id == id && x.prefix == PrefixAt(c, l.cidr)
  }

  /** In every reachable store an address is claimed at most once. */
  lemma AtMostOneClaim(c: Codec, ops: seq<Op>, t: State, x: Claim, y: Claim, a: Addr)
    requires Faithful(c) && Reaches(c, ops, t)
    requires Claims(c, t, x) && Claims(c, t, y) && a.Valid()
    requires x.prefix.Valid() && y.prefix.Valid() && x.prefix.Contains(a) && y.prefix.Contains(a)
    ensures x == y
  {
    RunKeeps(c, ops, t);
    SharedOverlaps(x.prefix, y.prefix, a);
    SharedOverlaps(y.prefix, x.prefix, a);
    match (x.owner, y.owner)
    case (Tunnel(_), Tunnel(_)) => TunnelClaims(c, t, x, y);
    case (Tunnel(_), Lan(_)) => RowLocalDisjoint(c, t, x, y);
    case (Lan(_), Tunnel(_)) => RowLocalDisjoint(c, t, y, x);
    case (Lan(_), Lan(_)) => LanClaims(c, t, x, y);
  }

  lemma TunnelClaims(c: Codec, t: State, x: Claim, y: Claim)
    requires RowsFine(c, t.rows) && KeysDistinct(t.rows) && TunnelsApart(c, t.rows)
    requires Claims(c, t, x) && Claims(c, t, y) && x.owner.Tunnel? && y.owner.Tunnel?
    ensures x == y || Apart(x.prefix, y.prefix) || Apart(y.prefix, x.prefix)
  {
    hide SplitSubnets, ParseSubnet, Apart, CanonicalText;
    var r :| r in t.rows && r.id == x.owner.id && x.slot < |Subnets(r)| && x.prefix == PrefixAt(c, Subnets(r)[x.slot]);
    var r' :| r' in t.rows && r'.id == y.owner.id && y.slot < |Subnets(r')| && y.prefix == PrefixAt(c, Subnets(r')[y.slot]);
    var ps, qs := Prefixes(c, Subnets(r)), Prefixes(c, Subnets(r'));
    assert ps[x.slot] == x.prefix && qs[y.slot] == y.prefix;
    if r.id != r'.id {
      assert RowsApart(c, r, r');
      assert Apart(ps[x.slot], qs[y.slot]);
    } else {
      assert RowOk(c, r) && MutuallyApart(ps);
      assert r == r';
    }
  }

  lemma LanClaims(c: Codec, t: State, x: Claim, y: Claim)
    requires LocalsFine(c, t.locals) && LocalsApart(c, t.locals)
    requires Claims(c, t, x) && Claims(c, t, y) && x.owner.Lan? && y.owner.Lan?
    ensures x == y || Apart(x.prefix, y.prefix)
  {
    var l :| l in t.locals && l.id == x.owner.id && x.prefix == PrefixAt(c, l.cidr);
    var l' :| l' in t.locals && l'.id == y.owner.id && y.prefix == PrefixAt(c, l'.cidr);
    if l.id == l'.id {
      assert l == l';
    }
  }

  lemma RowLocalDisjoint(c: Codec, t: State, x: Claim, y: Claim)
    requires Owned(c, t) && Claims(c, t, x) && Claims(c, t, y) && x.owner.Tunnel? && y.owner.Lan?
    ensures Apart(x.prefix, y.prefix)
  {
    var r :| r in t.rows && r.id == x.owner.id && x.slot < |Subnets(r)| && x.prefix == PrefixAt(c, Subnets(r)[x.slot]);
    var l :| l in t.locals && l.id == y.owner.id && y.prefix == PrefixAt(c, l.cidr);
    hide SplitSubnets, ParseSubnet, Apart;
    assert RowLocalApart(c, r, l);
    assert Apart(Prefixes(c, Subnets(r))[x.slot], [PrefixAt(c, l.cidr)][0]);
  }

  // ----- the id a new connection carries

  /** A create whose connection carries an existing id skips that row's claims,
      so it keeps the tables in order exactly when the two are apart anyway. */
  lemma CreateWithExistingId(c: Codec, t: State, conn: Connection, s: Secrets, row: Row)
    requires Faithful(c) && Owned(c, t) && row in t.rows && row.id == conn.id
    requires CreateConnection(c, t, conn, s).1.Ok?
    ensures Owned(c, CreateConnection(c, t, conn, s).0) <==>
      AllApart(Prefixes(c, conn.subnets), Prefixes(c, Subnets(row)))
  {
    hide Faithful, CheckConflicts, ParseSubnet, SplitSubnets, ValidName, TrimSpace, ValidHost, NextId, AllApart,
         Join, Canonical, Prefixes, PrefixAt, HasName;
    var t' := CreateConnection(c, t, conn, s).0;
    ConflictsExact(c, t, Prefixes(c, conn.subnets), conn.id);
    var added := t'.rows[|t.rows|];
    assert t'.rows == t.rows + [added];
    StoredSubnets(c, conn.subnets, added);
    if AllApart(Prefixes(c, conn.subnets), Prefixes(c, Subnets(row))) {
      forall r | r in t.rows ensures AllApart(Prefixes(c, conn.subnets), Prefixes(c, Subnets(r))) {
        if r.id == conn.id {
          var i :| 0 <= i < |t.rows| && t.rows[i] == r;
          var j :| 0 <= j < |t.rows| && t.rows[j] == row;
        }
      }
      NewRowKeeps(c, t, t', conn, s);
    }
    if Owned(c, t') {
      NewestId(t, row);
      assert row in t'.rows && added in t'.rows;
      assert RowsApart(c, added, row);
    }
  }

  /** Such a create: the one row's own subnet again, under the row's id and a new
      name, is accepted, and two tunnels claim one prefix. */
  lemma SharedBySameId(c: Codec, p: Prefix)
    requires Faithful(c) && GoodPrefix(p)
    ensures var t := State([Row(1, "one", "a", "u", "k", "w", c.format(p), "", true)], []);
      var (t', r) := CreateConnection(c, t, Connection(1, "two", "b", "u", [c.format(p)], "", true), Secrets("k", "w"));
      Owned(c, t) && r == Ok(2) && !Owned(c, t')
  {
    hide Faithful, SplitSubnets, Join, Canonical;
    var text := c.format(p);
    var row := Row(1, "one", "a", "u", "k", "w", text, "", true);
    var t, conn := State([row], []), Connection(1, "two", "b", "u", [text], "", true);
    ParseFormat(c, p);
    LoneText(c, p, row);
    AcceptedAgain(c, p);
    var t' := CreateConnection(c, t, conn, Secrets("k", "w")).0;
    assert Prefixes(c, [text])[0] == p && p.Overlaps(p);
    assert !AllApart(Prefixes(c, conn.subnets), Prefixes(c, Subnets(row)));
    assert row in t.rows;
    CreateWithExistingId(c, t, conn, Secrets("k", "w"), row);
  }

  lemma LoneText(c: Codec, p: Prefix, row: Row)
    requires Faithful(c) && GoodPrefix(p) && row.subnetText == c.format(p) && ValidName(row.name) && row.id >= 1
    ensures Subnets(row) == [c.format(p)] && Owned(c, State([row], []))
  {
    hide ParseSubnet, ValidName;
    var text := c.format(p);
    assert Plain(text) && NoSpace(text);
    SplitJoin([text]);
    ParseFormat(c, p);
  }

  lemma AcceptedAgain(c: Codec, p: Prefix)
    requires Faithful(c) && GoodPrefix(p)
    ensures var t := State([Row(1, "one", "a", "u", "k", "w", c.format(p), "", true)], []);
      CreateConnection(c, t, Connection(1, "two", "b", "u", [c.format(p)], "", true), Secrets("k", "w")).1 == Ok(2)
  {
    hide Faithful, ValidateConnection, ValidateSecrets, CheckConflicts, HasName, RowIds, NextId, Join, Canonical;
    var row := Row(1, "one", "a", "u", "k", "w", c.format(p), "", true);
    var conn := Connection(1, "two", "b", "u", [c.format(p)], "", true);
    ValidAgain(c, p, conn);
    NoConflict(c, Prefixes(c, conn.subnets), row);
    SecondRow(row, "two");
  }

  lemma ValidAgain(c: Codec, p: Prefix, conn: Connection)
    requires Faithful(c) && GoodPrefix(p) && conn == Connection(1, "two", "b", "u", [c.format(p)], "", true)
    ensures ValidateConnection(c, conn) == None && ValidateSecrets(Secrets("k", "w")) == None
  {
    hide Faithful, ParseSubnet;
    ParseFormat(c, p);
    assert TrimSpace("b") == "b" && TrimSpace("u") == "u" && ValidHost("b") && ValidHost("u");
    assert GoodSubnets(c, conn.subnets);
  }

  /** The only row is left out of the check. */
  lemma NoConflict(c: Codec, candidates: seq<Prefix>, row: Row)
    ensures CheckConflicts(c, State([row], []), candidates, row.id) == None
  {
    hide SplitSubnets, ParseSubnet;
    var t := State([row], []);
    assert t.rows[1..] == [];
    assert List(t.rows) == [Scan(row)];
    assert [Scan(row)][1..] == [] && ConnectionTexts([], row.id) == [];
    assert ConnectionTexts([Scan(row)], row.id) == [];
    assert ListLocals([]) == [] && LocalTexts([]) == [];
    assert ClaimTexts(t, row.id) == [];
  }

  lemma SecondRow(row: Row, name: string)
    requires row.id == 1 && row.name != name
    ensures !HasName([row], name, 0) && NextId(RowIds([row])) == 2
  {
    assert RowIds([row]) == [1];
    assert [1][1..] == [] && NextId([]) == 1;
  }

  lemma NewestId(t: State, row: Row)
    requires row in t.rows
    ensures row.id < NextId(RowIds(t.rows))
  {
    var i :| 0 <= i < |t.rows| && t.rows[i] == row;
    assert RowIds(t.rows)[i] < NextId(RowIds(t.rows));
  }

  /** After a create, the listing holds the connection with its subnets in
      canonical form. */
  lemma CreateThenList(c: Codec, t: State, conn: Connection, s: Secrets)
    requires Faithful(c) && CreateConnection(c, t, conn, s).1.Ok?
    ensures var (t', r) := CreateConnection(c, t, conn, s);
      Connection(r.value, conn.name, conn.host, conn.user, Canonical(c, conn.subnets), conn.healthIP, conn.enabled)
        in List(t'.rows)
  {
    var t' := CreateConnection(c, t, conn, s).0;
    var row := t'.rows[|t.rows|];
    StoredSubnets(c, conn.subnets, row);
    ListMembers(t'.rows);
    assert row in t'.rows;
  }

  /** After an update the row has the new values under its old id, with its
      subnets in canonical form; a blank secret keeps the stored one. */
  lemma UpdateThenList(c: Codec, t: State, conn: Connection, s: Secrets, row: Row)
    requires Faithful(c) && row in t.rows && row.id == conn.id && UpdateConnection(c, t, conn, s).1.None?
    ensures var t' := UpdateConnection(c, t, conn, s).0;
      && conn.(subnets := Canonical(c, conn.subnets)) in List(t'.rows)
      && exists r :: r in t'.rows && r.id == row.id
           && r.psk == (if s.psk == "" then row.psk else s.psk)
           && r.password == (if s.password == "" then row.password else s.password)
  {
    hide Faithful, CheckConflicts, ParseSubnet, ValidName, TrimSpace, ValidHost, List, SplitSubnets, HasName;
    var t' := UpdateConnection(c, t, conn, s).0;
    var i :| 0 <= i < |t.rows| && t.rows[i] == row;
    var r := t'.rows[i];
    assert r in t'.rows && r == Updated(c, row, conn, s);
    StoredSubnets(c, conn.subnets, r);
    ListMembers(t'.rows);
    assert Scan(r) == conn.(subnets := Canonical(c, conn.subnets));
  }
}
