/** What each operation of the store accepts and what it leaves in the tables,
    written out over rows, characters and addresses. */
module Edits {
  import opened Common
  import opened Text
  import opened Netip
  import opened Tables
  import opened Ownership

  // ----- acceptable fields

  /** Two to thirty-two of a-z, 0-9 and dashes, no dash at either end. */
  predicate NameOk(name: string) {
    && 2 <= |name| <= 32
    && (forall i :: 0 <= i < |name| ==> 'a' <= name[i] <= 'z' || '0' <= name[i] <= '9' || name[i] == '-')
    && name[0] != '-' && name[|name| - 1] != '-'
  }

  /** No double quote and no control character: nothing that could end a line or a
      quoted value of a rendered file. */
  predicate Harmless(value: string) {
    forall i :: 0 <= i < |value| ==> value[i] != '"' && value[i] > '\U{1F}' && !('\U{7F}' <= value[i] <= '\U{9F}')
  }

  /** One harmless word. */
  predicate WordOk(value: string) {
    value != "" && Harmless(value) && forall i :: 0 <= i < |value| ==> !IsSpace(value[i])
  }

  /** The part of a text between its leading and trailing spaces. */
  predicate Between(s: string, i: nat, j: nat) {
    && i <= j <= |s|
    && (forall k :: 0 <= k < i ==> IsSpace(s[k])) && (forall k :: j <= k < |s| ==> IsSpace(s[k]))
    && (i < j ==> !IsSpace(s[i]) && !IsSpace(s[j - 1]))
  }

  lemma {:induction false} TrimAt(s: string, i: nat, j: nat)
    requires Between(s, i, j)
    ensures TrimSpace(s) == s[i..j]
    decreases |s|
  {
    if s == "" {
    } else if IsSpace(s[0]) {
      if i > 0 {
        TrimAt(s[1..], i - 1, j - 1);
      } else {
        TrimAt(s[1..], 0, 0);
      }
    } else if IsSpace(s[|s| - 1]) {
      TrimAt(s[..|s| - 1], i, j);
      assert s[..|s| - 1][i..j] == s[i..j];
    }
  }

  lemma OneSpaceMore(s: string, i: nat, j: nat)
    requires s != "" && IsSpace(s[0]) && Between(s[1..], i, j)
    ensures Between(s, i + 1, j + 1) && s[i + 1..j + 1] == s[1..][i..j]
  {
    hide IsSpace;
    var rest := s[1..];
    assert forall k :: 1 <= k < |s| ==> s[k] == rest[k - 1];
    assert |s[i + 1..j + 1]| == j - i == |rest[i..j]|;
    assert forall k :: 0 <= k < j - i ==> s[i + 1..j + 1][k] == s[i + 1 + k] == rest[i + k] == rest[i..j][k];
  }

  lemma {:induction false} TrimExists(s: string) returns (i: nat, j: nat)
    ensures Between(s, i, j) && TrimSpace(s) == s[i..j]
    decreases |s|
  {
    hide IsSpace;
    if s == "" {
      return 0, 0;
    } else if IsSpace(s[0]) {
      i, j := TrimExists(s[1..]);
      OneSpaceMore(s, i, j);
      return i + 1, j + 1;
    } else if IsSpace(s[|s| - 1]) {
      i, j := TrimExists(s[..|s| - 1]);
      TrimAt(s, i, j);
    } else {
      return 0, |s|;
    }
  }

  /** The text stands for this prefix: a CIDR, spaces around it aside, whose host
      bits are zero. */
  ghost predicate Denotes(c: Codec, text: string, p: Prefix) {
    && p.Valid() && p.base % Pow2(p.HostBits()) == 0
    && exists i: nat, j: nat :: Between(text, i, j) && c.parse(text[i..j]) == Some(p)
  }

  ghost predicate IsSubnet(c: Codec, text: string) {
    exists p :: Denotes(c, text, p)
  }

  /** The stored text is the canonical form of the given one. */
  ghost predicate StoredAs(c: Codec, text: string, stored: string) {
    exists p :: Denotes(c, text, p) && stored == c.format(p)
  }

  predicate InBoth(a: Addr, p: Prefix, q: Prefix) {
    a.Valid() && p.Valid() && q.Valid() && p.Contains(a) && q.Contains(a)
  }

  /** Some address lies in the prefixes of both texts. */
  ghost predicate Clash(c: Codec, x: string, y: string) {
    exists p, q, a: Addr :: Denotes(c, x, p) && Denotes(c, y, q) && InBoth(a, p, q)
  }

  ghost predicate AddressOk(c: Codec, text: string) {
    text == "" || exists i: nat, j: nat :: Between(text, i, j) && c.isAddr(text[i..j])
  }

  /** A list of subnets, none of which shares an address with another. */
  ghost predicate ListOk(c: Codec, subnets: seq<string>) {
    && subnets != []
    && (forall k :: 0 <= k < |subnets| ==> IsSubnet(c, subnets[k]))
    && (forall j, k :: 0 <= j < k < |subnets| ==> !Clash(c, subnets[j], subnets[k]))
  }

  ghost predicate FieldsOk(c: Codec, conn: Connection) {
    NameOk(conn.name) && WordOk(conn.host) && WordOk(conn.user) && ListOk(c, conn.subnets) && AddressOk(c, conn.healthIP)
  }

  /** No subnet of the list shares an address with what any row but one, or any
      local subnet, holds, enabled or not. */
  ghost predicate RoutesFree(c: Codec, t: State, subnets: seq<string>, except: int) {
    && (forall k, r, y :: 0 <= k < |subnets| && r in t.rows && r.id != except && y in Subnets(r) ==> !Clash(c, subnets[k], y))
    && (forall k, l :: 0 <= k < |subnets| && l in t.locals ==> !Clash(c, subnets[k], l.cidr))
  }

  // ----- the checks decide exactly that

  lemma DenotesExact(c: Codec, text: string, p: Prefix)
    ensures Denotes(c, text, p) <==> ParseSubnet(c, text) == Some(p)
  {
    hide Pow2, TrimSpace;
    var i, j := TrimExists(text);
    if Denotes(c, text, p) {
      var i': nat, j': nat :| Between(text, i', j') && c.parse(text[i'..j']) == Some(p);
      TrimAt(text, i', j');
    }
  }

  lemma AddressExact(c: Codec, text: string)
    ensures AddressOk(c, text) <==> text == "" || c.isAddr(TrimSpace(text))
  {
    hide TrimSpace;
    var i, j := TrimExists(text);
    if i': nat, j': nat :| Between(text, i', j') && c.isAddr(text[i'..j']) {
      TrimAt(text, i', j');
    }
  }

  lemma ClashExact(c: Codec, x: string, y: string)
    requires ParseSubnet(c, x).Some? && ParseSubnet(c, y).Some?
    ensures Clash(c, x, y) <==> !Apart(PrefixAt(c, x), PrefixAt(c, y))
  {
    hide Denotes, ParseSubnet, Pow2, InBoth;
    var p, q := ParseSubnet(c, x).value, ParseSubnet(c, y).value;
    DenotesExact(c, x, p);
    DenotesExact(c, y, q);
    ParsedGood(c, x);
    ParsedGood(c, y);
    OverlapShares(p, q);
    if Clash(c, x, y) {
      var p', q', a: Addr :| Denotes(c, x, p') && Denotes(c, y, q') && InBoth(a, p', q');
      DenotesExact(c, x, p');
      DenotesExact(c, y, q');
    }
  }

  lemma OverlapShares(p: Prefix, q: Prefix)
    requires GoodPrefix(p) && GoodPrefix(q)
    ensures !Apart(p, q) <==> exists a: Addr :: InBoth(a, p, q)
  {
    hide Pow2;
    Laminar(p, q);
    if p.Overlaps(q) {
      var a: Addr :| a.Valid() && p.Contains(a) && q.Contains(a);
      assert InBoth(a, p, q);
    }
  }

  lemma SubnetExact(c: Codec, text: string)
    ensures IsSubnet(c, text) <==> ParseSubnet(c, text).Some?
    ensures forall x :: StoredAs(c, text, x) <==> ParseSubnet(c, text).Some? && x == c.format(ParseSubnet(c, text).value)
  {
    hide Denotes, ParseSubnet;
    forall p: Prefix ensures Denotes(c, text, p) <==> ParseSubnet(c, text) == Some(p) {
      DenotesExact(c, text, p);
    }
  }

  lemma ListExact(c: Codec, subnets: seq<string>)
    ensures ListOk(c, subnets) <==> GoodSubnets(c, subnets)
  {
    hide Clash, ParseSubnet, Apart, IsSubnet;
    forall k | 0 <= k < |subnets| ensures IsSubnet(c, subnets[k]) <==> ParseSubnet(c, subnets[k]).Some? {
      SubnetExact(c, subnets[k]);
    }
    if AllParse(c, subnets) {
      var ps := Prefixes(c, subnets);
      if MutuallyApart(ps) {
        forall j, k | 0 <= j < k < |subnets| ensures !Clash(c, subnets[j], subnets[k]) {
          ClashExact(c, subnets[j], subnets[k]);
          assert Apart(ps[j], ps[k]);
        }
      }
      if ListOk(c, subnets) {
        forall j, k | 0 <= j < k < |subnets| ensures Apart(ps[j], ps[k]) {
          ClashExact(c, subnets[j], subnets[k]);
        }
      }
    }
  }

  lemma {:induction false} BlankExact(s: string)
    ensures TrimSpace(s) == "" <==> forall i :: 0 <= i < |s| ==> IsSpace(s[i])
  {
    var i, j := TrimExists(s);
    if forall k :: 0 <= k < |s| ==> IsSpace(s[k]) {
      TrimAt(s, 0, 0);
    }
  }

  lemma WordExact(value: string)
    ensures WordOk(value) <==> TrimSpace(value) != "" && ValidHost(value)
  {
    hide TrimSpace, IsSpace;
    BlankExact(value);
    HarmlessExact(value);
    if value != "" && NoSpace(value) {
      assert !IsSpace(value[0]);
    }
  }

  lemma HarmlessExact(value: string)
    ensures Harmless(value) <==> ValidField(value)
  {
  }

  lemma NameExact(name: string)
    ensures NameOk(name) <==> ValidName(name)
  {
  }

  lemma FieldsExact(c: Codec, conn: Connection)
    ensures FieldsOk(c, conn) <==> ValidateConnection(c, conn) == None
  {
    hide NameOk, WordOk, ListOk, AddressOk, ValidName, TrimSpace, ValidHost, GoodSubnets;
    NameExact(conn.name);
    WordExact(conn.host);
    WordExact(conn.user);
    ListExact(c, conn.subnets);
    AddressExact(c, conn.healthIP);
  }

  /** A list apart from another one clashes with none of its entries. */
  lemma FreeOf(c: Codec, xs: seq<string>, ys: seq<string>)
    requires AllParse(c, xs) && AllParse(c, ys)
    ensures AllApart(Prefixes(c, xs), Prefixes(c, ys)) <==>
      forall k, y :: 0 <= k < |xs| && y in ys ==> !Clash(c, xs[k], y)
  {
    hide Clash, Apart, ParseSubnet;
    var ps, qs := Prefixes(c, xs), Prefixes(c, ys);
    if AllApart(ps, qs) {
      forall k, y | 0 <= k < |xs| && y in ys ensures !Clash(c, xs[k], y) {
        var j :| 0 <= j < |ys| && ys[j] == y;
        ClashExact(c, xs[k], ys[j]);
        assert Apart(ps[k], qs[j]);
      }
    }
    if forall k, y :: 0 <= k < |xs| && y in ys ==> !Clash(c, xs[k], y) {
      forall k, j | 0 <= k < |ps| && 0 <= j < |qs| ensures Apart(ps[k], qs[j]) {
        assert ys[j] in ys;
        ClashExact(c, xs[k], ys[j]);
      }
    }
  }

  lemma ConflictsFree(c: Codec, t: State, subnets: seq<string>, except: int)
    requires Owned(c, t) && AllParse(c, subnets)
    ensures CheckConflicts(c, t, Prefixes(c, subnets), except) == None <==> RoutesFree(c, t, subnets, except)
  {
    hide Clash, ParseSubnet, SplitSubnets, CheckConflicts, AllApart, Prefixes;
    var ps := Prefixes(c, subnets);
    ConflictsExact(c, t, ps, except);
    forall r | r in t.rows && r.id != except
      ensures AllApart(ps, Prefixes(c, Subnets(r))) <==>
        forall k, y :: 0 <= k < |subnets| && y in Subnets(r) ==> !Clash(c, subnets[k], y)
    {
      RowParses(c, t, r);
      FreeOf(c, subnets, Subnets(r));
    }
    forall l | l in t.locals
      ensures AllApart(ps, [PrefixAt(c, l.cidr)]) <==> forall k :: 0 <= k < |subnets| ==> !Clash(c, subnets[k], l.cidr)
    {
      FreeOfOne(c, subnets, l.cidr);
    }
  }

  lemma FreeOfOne(c: Codec, xs: seq<string>, y: string)
    requires AllParse(c, xs) && ParseSubnet(c, y).Some?
    ensures AllApart(Prefixes(c, xs), [PrefixAt(c, y)]) <==> forall k :: 0 <= k < |xs| ==> !Clash(c, xs[k], y)
  {
    hide Clash, ParseSubnet, AllApart, PrefixAt;
    OnePrefix(c, y);
    FreeOf(c, xs, [y]);
    assert y in [y];
  }

  lemma OnePrefix(c: Codec, x: string)
    ensures Prefixes(c, [x]) == [PrefixAt(c, x)]
  {
  }

  lemma RowParses(c: Codec, t: State, r: Row)
    requires Owned(c, t) && r in t.rows
    ensures AllParse(c, Subnets(r))
  {
    assert RowOk(c, r);
  }

  // ----- connections

  /** The row a write stores, field by field. */
  ghost predicate RowOf(c: Codec, row: Row, conn: Connection, psk: string, password: string) {
    && row.name == conn.name && row.host == conn.host && row.user == conn.user
    && row.psk == psk && row.password == password
    && row.healthIP == conn.healthIP && row.enabled == conn.enabled
    && |Subnets(row)| == |conn.subnets|
    && forall k :: 0 <= k < |conn.subnets| ==> StoredAs(c, conn.subnets[k], Subnets(row)[k])
  }

  lemma StoredRow(c: Codec, row: Row, subnets: seq<string>)
    requires Faithful(c) && GoodSubnets(c, subnets) && row.subnetText == Join(Canonical(c, subnets))
    ensures |Subnets(row)| == |subnets|
    ensures forall k :: 0 <= k < |subnets| ==> StoredAs(c, subnets[k], Subnets(row)[k])
  {
    hide Faithful, StoredAs, ParseSubnet, SplitSubnets, Join;
    StoredSubnets(c, subnets, row);
    forall k | 0 <= k < |subnets| ensures StoredAs(c, subnets[k], Subnets(row)[k]) {
      SubnetExact(c, subnets[k]);
    }
  }

  /** A create is accepted exactly when the fields and both secrets are fine, the
      name is new, and the subnets share no address with what anything else
      holds; then one row is added with just these fields under a new id.
      Otherwise nothing changes. */
  lemma CreateExact(c: Codec, t: State, conn: Connection, s: Secrets)
    requires Faithful(c) && Owned(c, t)
    ensures var (t', answer) := CreateConnection(c, t, conn, s);
      && (answer.Ok? <==>
            && FieldsOk(c, conn) && s.psk != "" && s.password != "" && Harmless(s.psk) && Harmless(s.password)
            && (forall r :: r in t.rows ==> r.name != conn.name)
            && RoutesFree(c, t, conn.subnets, conn.id))
      && (answer.Err? ==> t' == t)
      && (answer.Ok? ==>
            && t'.locals == t.locals && |t'.rows| == |t.rows| + 1 && t'.rows[..|t.rows|] == t.rows
            && var row := t'.rows[|t.rows|];
            && row.id == answer.value && (forall r :: r in t.rows ==> r.id < row.id)
            && RowOf(c, row, conn, s.psk, s.password))
  {
    hide Faithful, ValidateConnection, CheckConflicts, Join, Canonical, NextId, FieldsOk, RoutesFree, Subnets, StoredAs,
         Prefixes, Harmless, ValidField, Owned;
    FieldsExact(c, conn);
    HarmlessExact(s.psk);
    HarmlessExact(s.password);
    NameTaken(c, t, conn.name);
    if ValidateConnection(c, conn) == None {
      ValidSubnets(c, conn);
      ConflictsFree(c, t, conn.subnets, conn.id);
      var (t', answer) := CreateConnection(c, t, conn, s);
      if answer.Ok? {
        var row := t'.rows[|t.rows|];
        StoredRow(c, row, conn.subnets);
        forall r | r in t.rows ensures r.id < row.id {
          NewestId(t, r);
        }
      }
    }
  }

  lemma ValidSubnets(c: Codec, conn: Connection)
    requires ValidateConnection(c, conn) == None
    ensures GoodSubnets(c, conn.subnets) && AllParse(c, conn.subnets)
  {
  }

  lemma NameTaken(c: Codec, t: State, name: string)
    requires Owned(c, t)
    ensures HasName(t.rows, name, 0) <==> exists r :: r in t.rows && r.name == name
  {
    hide TunnelsApart, LocalsFine, LocalsApart, CrossApart, Prefixes, SplitSubnets, CanonicalText, ValidName;
    if r :| r in t.rows && r.name == name {
      var i :| 0 <= i < |t.rows| && t.rows[i] == r;
      assert RowOk(c, r);
    }
  }

  lemma NameTakenByOther(t: State, name: string, id: int)
    ensures HasName(t.rows, name, id) <==> exists r :: r in t.rows && r.name == name && r.id != id
  {
    if r :| r in t.rows && r.name == name && r.id != id {
      var i :| 0 <= i < |t.rows| && t.rows[i] == r;
    }
  }

  lemma IdTaken(t: State, id: int)
    ensures HasId(t.rows, id) <==> exists r :: r in t.rows && r.id == id
  {
    if r :| r in t.rows && r.id == id {
      var i :| 0 <= i < |t.rows| && t.rows[i] == r;
    }
  }

  /** An update is accepted exactly when a row has the id, no other row has the
      name, the fields and secrets are fine, and the subnets share no address with
      what any other row or local subnet holds; then that row has just these
      fields, with blank secrets keeping the stored ones, and every other row is
      as it was. Otherwise nothing changes. */
  lemma UpdateExact(c: Codec, t: State, conn: Connection, s: Secrets)
    requires Faithful(c) && Owned(c, t)
    ensures var (t', answer) := UpdateConnection(c, t, conn, s);
      && (answer.None? <==>
            && FieldsOk(c, conn) && Harmless(s.psk) && Harmless(s.password)
            && (exists r :: r in t.rows && r.id == conn.id)
            && (forall r :: r in t.rows && r.id != conn.id ==> r.name != conn.name)
            && RoutesFree(c, t, conn.subnets, conn.id))
      && (answer.Some? ==> t' == t)
      && (answer.None? ==>
            && t'.locals == t.locals && |t'.rows| == |t.rows|
            && forall k :: 0 <= k < |t.rows| ==>
                 if t.rows[k].id != conn.id then t'.rows[k] == t.rows[k]
                 else
                   && t'.rows[k].id == conn.id
                   && RowOf(c, t'.rows[k], conn, if s.psk == "" then t.rows[k].psk else s.psk,
                            if s.password == "" then t.rows[k].password else s.password))
  {
    hide Faithful, ValidateConnection, CheckConflicts, Join, Canonical, FieldsOk, RoutesFree, Subnets, StoredAs,
         Prefixes, Harmless, ValidField, Owned, HasName, HasId;
    FieldsExact(c, conn);
    HarmlessExact(s.psk);
    HarmlessExact(s.password);
    IdTaken(t, conn.id);
    NameTakenByOther(t, conn.name, conn.id);
    if ValidateConnection(c, conn) == None {
      ValidSubnets(c, conn);
      ConflictsFree(c, t, conn.subnets, conn.id);
      var (t', answer) := UpdateConnection(c, t, conn, s);
      if answer.None? {
        forall k | 0 <= k < |t.rows| && t.rows[k].id == conn.id
          ensures RowOf(c, t'.rows[k], conn, if s.psk == "" then t.rows[k].psk else s.psk,
                        if s.password == "" then t.rows[k].password else s.password)
        {
          StoredRow(c, t'.rows[k], conn.subnets);
        }
      }
    }
  }

  /** Enabling needs a row with the id and changes its flag and nothing else. */
  lemma EnableExact(t: State, id: int, enabled: bool)
    ensures var (t', answer) := SetConnectionEnabled(t, id, enabled);
      && (answer.None? <==> exists r :: r in t.rows && r.id == id)
      && t'.locals == t.locals && |t'.rows| == |t.rows|
      && forall k :: 0 <= k < |t.rows| ==>
           t'.rows[k] == if t.rows[k].id == id then t.rows[k].(enabled := enabled) else t.rows[k]
  {
    hide HasId;
    IdTaken(t, id);
  }

  lemma SetIPExact(c: Codec, t: State, id: int, ip: string)
    ensures var (t', answer) := SetHealthCheckIP(c, t, id, ip);
      && (answer.None? <==> AddressOk(c, ip) && exists r :: r in t.rows && r.id == id)
      && t'.locals == t.locals && |t'.rows| == |t.rows|
      && forall k :: 0 <= k < |t.rows| ==>
           t'.rows[k] == if answer.None? && t.rows[k].id == id then t.rows[k].(healthIP := ip) else t.rows[k]
  {
    hide HasId, AddressOk, TrimSpace;
    IdTaken(t, id);
    AddressExact(c, ip);
  }

  /** A delete takes out exactly the row with the id. */
  lemma DeleteExact(t: State, id: int)
    ensures var (t', answer) := DeleteConnection(t, id);
      && (answer.None? <==> exists r :: r in t.rows && r.id == id)
      && t'.locals == t.locals
      && forall r :: multiset(t'.rows)[r] == if r.id == id then 0 else multiset(t.rows)[r]
  {
    hide HasId, WithoutRow;
    IdTaken(t, id);
    forall r ensures multiset(WithoutRow(t.rows, id))[r] == if r.id == id then 0 else multiset(t.rows)[r] {
      WithoutCount(t.rows, id, r);
    }
  }

  lemma {:induction false} WithoutCount(rows: seq<Row>, id: int, r: Row)
    ensures multiset(WithoutRow(rows, id))[r] == if r.id == id then 0 else multiset(rows)[r]
  {
    if rows != [] {
      WithoutCount(rows[1..], id, r);
      assert rows == [rows[0]] + rows[1..];
    }
  }

  // ----- local subnets

  /** A local subnet is accepted exactly when it is one, its address is fine, and
      it shares no address with what anything else holds; then one is added, in
      canonical form, with just this address and flag under a new id. */
  lemma CreateLocalExact(c: Codec, t: State, local: LocalSubnet)
    requires Faithful(c) && Owned(c, t)
    ensures var (t', answer) := CreateLocalSubnet(c, t, local);
      && (answer.Ok? <==>
            && IsSubnet(c, local.cidr) && AddressOk(c, local.healthIP)
            && (forall r, y :: r in t.rows && y in Subnets(r) ==> !Clash(c, local.cidr, y))
            && (forall l :: l in t.locals ==> !Clash(c, local.cidr, l.cidr)))
      && (answer.Err? ==> t' == t)
      && (answer.Ok? ==>
            && t'.rows == t.rows && |t'.locals| == |t.locals| + 1 && t'.locals[..|t.locals|] == t.locals
            && var l := t'.locals[|t.locals|];
            && l.id == answer.value && (forall m :: m in t.locals ==> m.id < l.id)
            && l.healthIP == local.healthIP && l.enabled == local.enabled
            && StoredAs(c, local.cidr, l.cidr))
  {
    hide Faithful, Owned, IsSubnet, StoredAs, AddressOk, CheckConflicts, Clash, Subnets, ParseSubnet, HasCidr, TrimSpace,
         NextId;
    AddressExact(c, local.healthIP);
    SubnetExact(c, local.cidr);
    match ParseSubnet(c, local.cidr)
    case None =>
    case Some(p) =>
      LocalConflicts(c, t, local.cidr, p);
      var (t', answer) := CreateLocalSubnet(c, t, local);
      if CheckConflicts(c, t, [p], 0) == None {
        CidrIsNew(c, t, local.cidr, p);
      }
      if answer.Ok? {
        var l := t'.locals[|t.locals|];
        forall m | m in t.locals ensures m.id < l.id {
          var k :| 0 <= k < |t.locals| && t.locals[k] == m;
          assert LocalIds(t.locals)[k] < l.id;
        }
      }
  }

  lemma LocalConflicts(c: Codec, t: State, cidr: string, p: Prefix)
    requires Owned(c, t) && ParseSubnet(c, cidr) == Some(p)
    ensures CheckConflicts(c, t, [p], 0) == None <==>
      && (forall r, y :: r in t.rows && y in Subnets(r) ==> !Clash(c, cidr, y))
      && (forall l :: l in t.locals ==> !Clash(c, cidr, l.cidr))
  {
    hide Clash, ParseSubnet, CheckConflicts, SplitSubnets, ValidName, CanonicalText, MutuallyApart;
    assert AllParse(c, [cidr]);
    OnePrefix(c, cidr);
    ConflictsFree(c, t, [cidr], 0);
    forall r | r in t.rows ensures r.id != 0 {
      assert RowOk(c, r);
    }
    assert forall k: nat :: k < |[cidr]| ==> [cidr][k] == cidr;
    assert [cidr][0] == cidr;
  }

  /** A text already stored would share its addresses. */
  lemma CidrIsNew(c: Codec, t: State, cidr: string, p: Prefix)
    requires Faithful(c) && Owned(c, t) && ParseSubnet(c, cidr) == Some(p)
    requires forall l :: l in t.locals ==> !Clash(c, cidr, l.cidr)
    ensures !HasCidr(t.locals, c.format(p))
  {
    hide Faithful, Clash, ParseSubnet, Owned;
    if HasCidr(t.locals, c.format(p)) {
      var k :| 0 <= k < |t.locals| && t.locals[k].cidr == c.format(p);
      ParsedGood(c, cidr);
      ParseFormat(c, p);
      ClashExact(c, cidr, c.format(p));
      assert t.locals[k] in t.locals;
      OverlapsSelf(p);
    }
  }

  lemma OverlapsSelf(p: Prefix)
    requires p.Valid()
    ensures p.Overlaps(p)
  {
  }

  lemma LocalTaken(t: State, id: int)
    ensures HasLocal(t.locals, id) <==> exists l :: l in t.locals && l.id == id
  {
    if l :| l in t.locals && l.id == id {
      var i :| 0 <= i < |t.locals| && t.locals[i] == l;
    }
  }

  lemma EnableLocalExact(t: State, id: int, enabled: bool)
    ensures var (t', answer) := SetLocalSubnetEnabled(t, id, enabled);
      && (answer.None? <==> exists l :: l in t.locals && l.id == id)
      && t'.rows == t.rows && |t'.locals| == |t.locals|
      && forall k :: 0 <= k < |t.locals| ==>
           t'.locals[k] == if t.locals[k].id == id then t.locals[k].(enabled := enabled) else t.locals[k]
  {
    hide HasLocal;
    LocalTaken(t, id);
  }

  lemma DeleteLocalExact(t: State, id: int)
    ensures var (t', answer) := DeleteLocalSubnet(t, id);
      && (answer.None? <==> exists l :: l in t.locals && l.id == id)
      && t'.rows == t.rows
      && forall l :: multiset(t'.locals)[l] == if l.id == id then 0 else multiset(t.locals)[l]
  {
    hide HasLocal, WithoutLocal;
    LocalTaken(t, id);
    forall l ensures multiset(WithoutLocal(t.locals, id))[l] == if l.id == id then 0 else multiset(t.locals)[l] {
      WithoutLocalCount(t.locals, id, l);
    }
  }

  lemma {:induction false} WithoutLocalCount(locals: seq<LocalSubnet>, id: int, l: LocalSubnet)
    ensures multiset(WithoutLocal(locals, id))[l] == if l.id == id then 0 else multiset(locals)[l]
  {
    if locals != [] {
      WithoutLocalCount(locals[1..], id, l);
      assert locals == [locals[0]] + locals[1..];
    }
  }

  // ----- the listing

  predicate ByName(conns: seq<Connection>) {
    forall i, j :: 0 <= i < j < |conns| ==> Le(conns[i].name, conns[j].name)
  }

  /** The listing is every row, field by field, in the order of the names. */
  lemma ListingExact(rows: seq<Row>)
    ensures ByName(List(rows)) && |List(rows)| == |rows|
    ensures forall r :: r in rows ==>
      Connection(r.id, r.name, r.host, r.user, Subnets(r), r.healthIP, r.enabled) in List(rows)
  {
    ListSorted(rows);
    ListMembers(rows);
    ListMultiset(rows);
    SameMembers(List(rows), ScanAll(rows));
  }

  lemma {:induction false} ListSorted(rows: seq<Row>)
    ensures ByName(List(rows))
  {
    hide Le;
    if rows != [] {
      ListSorted(rows[1..]);
      InsertSorted(Scan(rows[0]), List(rows[1..]));
    }
  }

  lemma {:induction false} InsertSorted(x: Connection, xs: seq<Connection>)
    requires ByName(xs)
    ensures ByName(InsertByName(x, xs))
  {
    hide Le;
    if xs != [] {
      if Le(x.name, xs[0].name) {
        forall k | 0 <= k < |xs| ensures Le(x.name, xs[k].name) {
          if k > 0 {
            LeTransitive(x.name, xs[0].name, xs[k].name);
          }
        }
      } else {
        InsertSorted(x, xs[1..]);
        LeTotal(x.name, xs[0].name);
        var rest := InsertByName(x, xs[1..]);
        InsertByNameMembers(x, xs[1..]);
        forall k | 0 <= k < |rest| ensures Le(xs[0].name, rest[k].name) {
          assert rest[k] in multiset(rest);
          assert rest[k] == x || rest[k] in multiset(xs[1..]);
          if rest[k] != x {
            var j :| 0 <= j < |xs[1..]| && xs[1..][j] == rest[k];
            assert xs[j + 1] == rest[k];
          }
        }
      }
    }
  }
}
