/** The store object. Its methods run the checks and loops of internal/db and
    are proved against the functions of `Tables`. */
module Store {
  import opened Common
  import opened Text
  import opened Netip
  import opened Tables
  import opened Advertised
  import opened Ownership

  /** A list parses exactly when it is not empty, every entry is a CIDR with no
      host bits, and no two entries overlap. */
  method ParseSubnets(c: Codec, subnets: seq<string>) returns (r: Option<seq<Prefix>>)
    ensures r.Some? <==> GoodSubnets(c, subnets)
    ensures r.Some? ==> r.value == Prefixes(c, subnets)
  {
    if subnets == [] {
      return None;
    }
    var prefixes: seq<Prefix> := [];
    for i := 0 to |subnets|
      invariant prefixes == Prefixes(c, subnets[..i])
      invariant forall k :: 0 <= k < i ==> ParseSubnet(c, subnets[k]).Some?
      invariant MutuallyApart(prefixes)
    {
      var parsed := ParseSubnet(c, subnets[i]);
      if parsed.None? {
        return None;
      }
      var prefix := parsed.value;
      assert Prefixes(c, subnets)[i] == prefix;
      for j := 0 to |prefixes|
        invariant forall k :: 0 <= k < j ==> Apart(prefixes[k], prefix)
      {
        assert PrefixAt(c, subnets[j]) == prefixes[j];
        if prefixes[j].Overlaps(prefix) {
          assert !Apart(Prefixes(c, subnets)[j], Prefixes(c, subnets)[i]);
          return None;
        }
      }
      prefixes := prefixes + [prefix];
      assert subnets[..i + 1] == subnets[..i] + [subnets[i]];
    }
    assert subnets[..|subnets|] == subnets;
    return Some(prefixes);
  }

  /** No candidate overlaps a claim. */
  method CheckOverlap(candidates: seq<Prefix>, claimed: seq<Prefix>) returns (clear: bool)
    requires forall p :: p in candidates || p in claimed ==> p.Valid()
    ensures clear <==> AllApart(candidates, claimed)
  {
    for i := 0 to |candidates|
      invariant forall k, j :: 0 <= k < i && 0 <= j < |claimed| ==> Apart(candidates[k], claimed[j])
    {
      for j := 0 to |claimed|
        invariant forall k :: 0 <= k < j ==> Apart(candidates[i], claimed[k])
      {
        assert candidates[i] in candidates && claimed[j] in claimed;
        Laminar(claimed[j], candidates[i]);
        if claimed[j].Overlaps(candidates[i]) {
          assert !Apart(candidates[i], claimed[j]);
          return false;
        }
      }
    }
    return true;
  }

  /** The column text: canonical entries, comma-joined. */
  method JoinSubnets(c: Codec, subnets: seq<string>) returns (text: string)
    ensures text == Join(Canonical(c, subnets))
  {
    var canonical: seq<string> := [];
    for i := 0 to |subnets|
      invariant canonical == Canonical(c, subnets)[..i]
    {
      var parsed := ParseSubnet(c, subnets[i]);
      if parsed.None? {
        canonical := canonical + [TrimSpace(subnets[i])];
      } else {
        canonical := canonical + [c.format(parsed.value)];
      }
    }
    assert canonical == Canonical(c, subnets);
    return Join(canonical);
  }

  lemma {:induction false} ConnectionTextsSplit(conns: seq<Connection>, i: nat, except: int)
    requires i < |conns|
    ensures ConnectionTexts(conns[..i + 1], except) ==
      ConnectionTexts(conns[..i], except) + (if conns[i].id == except then [] else conns[i].subnets)
  {
    if i == 0 {
      assert conns[..1][1..] == [] && conns[..0] == [];
    } else {
      ConnectionTextsSplit(conns[1..], i - 1, except);
      assert conns[..i + 1][1..] == conns[1..][..i] && conns[..i][1..] == conns[1..][..i - 1];
    }
  }

  lemma {:induction false} EnabledTextsSplit(conns: seq<Connection>, i: nat)
    requires i < |conns|
    ensures EnabledTexts(conns[..i + 1]) == EnabledTexts(conns[..i]) + (if conns[i].enabled then conns[i].subnets else [])
  {
    if i == 0 {
      assert conns[..1][1..] == [] && conns[..0] == [];
    } else {
      EnabledTextsSplit(conns[1..], i - 1);
      assert conns[..i + 1][1..] == conns[1..][..i] && conns[..i][1..] == conns[1..][..i - 1];
    }
  }

  lemma {:induction false} EnabledLocalsSplit(locals: seq<LocalSubnet>, i: nat)
    requires i < |locals|
    ensures EnabledLocals(locals[..i + 1]) == EnabledLocals(locals[..i]) + (if locals[i].enabled then [locals[i].cidr] else [])
  {
    if i == 0 {
      assert locals[..1][1..] == [] && locals[..0] == [];
    } else {
      EnabledLocalsSplit(locals[1..], i - 1);
      assert locals[..i + 1][1..] == locals[1..][..i] && locals[..i][1..] == locals[1..][..i - 1];
    }
  }

  /** The prefixes so far are those of the texts so far. */
  predicate Parsed(c: Codec, claimed: seq<Prefix>, texts: seq<string>) {
    && AllParse(c, texts)
    && claimed == Prefixes(c, texts)
    && forall p :: p in claimed ==> p.Valid()
  }

  lemma NothingParsed(c: Codec)
    ensures Parsed(c, [], [])
  {
  }

  lemma ParsedMore(c: Codec, claimed: seq<Prefix>, texts: seq<string>, x: string)
    requires Parsed(c, claimed, texts) && ParseSubnet(c, x).Some?
    ensures Parsed(c, claimed + [ParseSubnet(c, x).value], texts + [x])
  {
    assert Prefixes(c, texts + [x]) == Prefixes(c, texts) + [PrefixAt(c, x)];
  }

  lemma NotAllParse(c: Codec, texts: seq<string>, x: string)
    requires x in texts && ParseSubnet(c, x).None?
    ensures !AllParse(c, texts)
  {
  }

  class Store {
    const codec: Codec
    var rows: seq<Row>
    var locals: seq<LocalSubnet>

    constructor (codec: Codec)
      ensures Contents() == EMPTY && this.codec == codec
    {
      this.codec := codec;
      rows, locals := [], [];
    }

    ghost function Contents(): State
      reads this
    {
      State(rows, locals)
    }

    /** Every claim but those of one connection; nothing when a stored text does
        not parse. */
    method ClaimedSubnets(except: int) returns (r: Option<seq<Prefix>>)
      ensures r.Some? <==> AllParse(codec, ClaimTexts(Contents(), except))
      ensures r.Some? ==> r.value == Prefixes(codec, ClaimTexts(Contents(), except))
      ensures r.Some? ==> forall p :: p in r.value ==> p.Valid()
    {
      hide ParseSubnet, List, ListLocals, Prefixes, AllParse;
      var conns := List(rows);
      ghost var texts := ConnectionTexts(conns, except);
      ConnectionTextsMembers(conns, except);
      NothingParsed(codec);
      var claimed: seq<Prefix> := [];
      for i := 0 to |conns|
        invariant Parsed(codec, claimed, ConnectionTexts(conns[..i], except))
      {
        ConnectionTextsSplit(conns, i, except);
        ghost var done := ConnectionTexts(conns[..i], except);
        assert done + [] == done;
        if conns[i].id == except {
          continue;
        }
        assert done + conns[i].subnets[..0] == done;
        for j := 0 to |conns[i].subnets|
          invariant Parsed(codec, claimed, done + conns[i].subnets[..j])
        {
          var parsed := ParseSubnet(codec, conns[i].subnets[j]);
          if parsed.None? {
            assert conns[i] in conns && conns[i].subnets[j] in conns[i].subnets;
            NotAllParse(codec, ClaimTexts(Contents(), except), conns[i].subnets[j]);
            return None;
          }
          ParsedMore(codec, claimed, done + conns[i].subnets[..j], conns[i].subnets[j]);
          claimed := claimed + [parsed.value];
          assert done + conns[i].subnets[..j + 1] == done + conns[i].subnets[..j] + [conns[i].subnets[j]];
        }
        assert conns[i].subnets[..|conns[i].subnets|] == conns[i].subnets;
      }
      assert conns[..|conns|] == conns;
      var locs := ListLocals(locals);
      ghost var cidrs := LocalTexts(locs);
      assert texts + cidrs[..0] == texts;
      for i := 0 to |locs|
        invariant Parsed(codec, claimed, texts + cidrs[..i])
      {
        var parsed := ParseSubnet(codec, locs[i].cidr);
        if parsed.None? {
          assert cidrs[i] in cidrs;
          NotAllParse(codec, ClaimTexts(Contents(), except), locs[i].cidr);
          return None;
        }
        ParsedMore(codec, claimed, texts + cidrs[..i], cidrs[i]);
        claimed := claimed + [parsed.value];
        assert texts + cidrs[..i + 1] == texts + cidrs[..i] + [cidrs[i]];
      }
      assert cidrs[..|locs|] == cidrs;
      return Some(claimed);
    }

    method CheckRouteConflicts(candidates: seq<Prefix>, except: int) returns (e: Option<Error>)
      requires forall p :: p in candidates ==> p.Valid()
      ensures e == CheckConflicts(codec, Contents(), candidates, except)
    {
      var claimed := ClaimedSubnets(except);
      if claimed.None? {
        return Some(CorruptRow);
      }
      var clear := CheckOverlap(candidates, claimed.value);
      return if clear then None else Some(RouteConflict);
    }

    method CreateConnection(conn: Connection, secrets: Secrets) returns (r: Result<int>)
      modifies this
      ensures (Contents(), r) == Tables.CreateConnection(codec, old(Contents()), conn, secrets)
    {
      var invalid := ValidateConnection(codec, conn);
      if invalid.Some? {
        return Err(invalid.value);
      }
      if secrets.psk == "" || secrets.password == "" {
        return Err(NoSecrets);
      }
      if ValidateSecrets(secrets).Some? {
        return Err(BadSecrets);
      }
      var candidates := ParseSubnets(codec, conn.subnets);
      assert forall p :: p in candidates.value ==> p.Valid();
      var conflict := CheckRouteConflicts(candidates.value, conn.id);
      if conflict.Some? {
        return Err(conflict.value);
      }
      if HasName(rows, conn.name, 0) {
        return Err(NotUnique);
      }
      var text := JoinSubnets(codec, conn.subnets);
      var id := NextId(RowIds(rows));
      rows := rows + [Row(id, conn.name, conn.host, conn.user, secrets.psk, secrets.password,
                          text, conn.healthIP, conn.enabled)];
      return Ok(id);
    }

    method UpdateConnection(conn: Connection, secrets: Secrets) returns (e: Option<Error>)
      modifies this
      ensures (Contents(), e) == Tables.UpdateConnection(codec, old(Contents()), conn, secrets)
    {
      var invalid := ValidateConnection(codec, conn);
      if invalid.Some? {
        return invalid;
      }
      if ValidateSecrets(secrets).Some? {
        return Some(BadSecrets);
      }
      if !HasId(rows, conn.id) {
        return Some(NotFound);
      }
      var candidates := ParseSubnets(codec, conn.subnets);
      assert forall p :: p in candidates.value ==> p.Valid();
      var conflict := CheckRouteConflicts(candidates.value, conn.id);
      if conflict.Some? {
        return conflict;
      }
      if HasName(rows, conn.name, conn.id) {
        return Some(NotUnique);
      }
      rows := MapRow(rows, conn.id, row => Updated(codec, row, conn, secrets));
      return None;
    }

    method SetConnectionEnabled(id: int, enabled: bool) returns (e: Option<Error>)
      modifies this
      ensures (Contents(), e) == Tables.SetConnectionEnabled(old(Contents()), id, enabled)
    {
      if !HasId(rows, id) {
        return Some(NotFound);
      }
      rows := MapRow(rows, id, (row: Row) => row.(enabled := enabled));
      return None;
    }

    method DeleteConnection(id: int) returns (e: Option<Error>)
      modifies this
      ensures (Contents(), e) == Tables.DeleteConnection(old(Contents()), id)
    {
      if !HasId(rows, id) {
        return Some(NotFound);
      }
      rows := WithoutRow(rows, id);
      return None;
    }

    method CreateLocalSubnet(local: LocalSubnet) returns (r: Result<int>)
      modifies this
      ensures (Contents(), r) == Tables.CreateLocalSubnet(codec, old(Contents()), local)
    {
      var parsed := ParseSubnet(codec, local.cidr);
      if parsed.None? {
        return Err(BadSubnets);
      }
      var conflict := CheckRouteConflicts([parsed.value], 0);
      if conflict.Some? {
        return Err(conflict.value);
      }
      if local.healthIP != "" && !codec.isAddr(TrimSpace(local.healthIP)) {
        return Err(BadHealthIP);
      }
      var cidr := codec.format(parsed.value);
      if HasCidr(locals, cidr) {
        return Err(NotUnique);
      }
      var id := NextId(LocalIds(locals));
      locals := locals + [LocalSubnet(id, cidr, local.healthIP, local.enabled)];
      return Ok(id);
    }

    /** The enabled texts, each once, in order. */
    method AdvertisedRoutes() returns (routes: seq<string>)
      ensures routes == Routes(Contents())
    {
      hide List, ListLocals, Sort, Collected;
      var conns, locs := List(rows), ListLocals(locals);
      NothingCollected();
      var seen: set<string>, found: seq<string> := {}, [];
      for i := 0 to |conns|
        invariant Collected(found, seen, EnabledTexts(conns[..i]))
      {
        EnabledTextsSplit(conns, i);
        ghost var before := EnabledTexts(conns[..i]);
        assert before + [] == before;
        if conns[i].enabled {
          assert before + conns[i].subnets[..0] == before;
          for j := 0 to |conns[i].subnets|
            invariant Collected(found, seen, before + conns[i].subnets[..j])
          {
            ghost var text := conns[i].subnets[..j];
            found, seen := Collect(found, seen, conns[i].subnets[j], before + text);
            assert before + conns[i].subnets[..j + 1] == before + text + [conns[i].subnets[j]];
          }
          assert conns[i].subnets[..|conns[i].subnets|] == conns[i].subnets;
        }
      }
      assert conns[..|conns|] == conns;
      ghost var before := EnabledTexts(conns);
      assert before + EnabledLocals(locs[..0]) == before;
      for i := 0 to |locs|
        invariant Collected(found, seen, before + EnabledLocals(locs[..i]))
      {
        EnabledLocalsSplit(locs, i);
        assert EnabledLocals(locs[..i]) + [] == EnabledLocals(locs[..i]);
        if locs[i].enabled {
          found, seen := Collect(found, seen, locs[i].cidr, before + EnabledLocals(locs[..i]));
          assert before + EnabledLocals(locs[..i + 1]) == before + EnabledLocals(locs[..i]) + [locs[i].cidr];
        }
      }
      assert locs[..|locs|] == locs;
      routes := Sort(found);
      SortedCollection(found, seen, Contents());
    }
  }

  /** The `seen` map and the list agree: one entry per text so far. */
  ghost predicate Collected(found: seq<string>, seen: set<string>, texts: seq<string>) {
    && Distinct(found)
    && (forall x :: x in found <==> x in texts)
    && (forall x :: x in found <==> x in seen)
  }

  lemma NothingCollected()
    ensures Collected([], {}, [])
  {
  }

  method Collect(found: seq<string>, seen: set<string>, x: string, ghost texts: seq<string>)
    returns (found': seq<string>, seen': set<string>)
    requires Collected(found, seen, texts)
    ensures Collected(found', seen', texts + [x])
  {
    if x in seen {
      return found, seen;
    }
    return found + [x], seen + {x};
  }

  lemma SortedCollection(found: seq<string>, seen: set<string>, t: State)
    requires Collected(found, seen, Texts(t))
    ensures Sort(found) == Routes(t)
  {
    SortSpec(found);
    SameMembers(found, Sort(found));
    DistinctCount(found);
    DistinctCount(Sort(found));
    RoutesSpec(t);
    OrderedUnique(Sort(found), Routes(t));
  }
}
