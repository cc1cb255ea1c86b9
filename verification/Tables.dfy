/** The store's two tables and what each operation does to them, as functions
    of the tables. `Store` is the object that holds them. */
module Tables {
  import opened Common
  import opened Text
  import opened Netip

  datatype Secrets = Secrets(psk: string, password: string)

  datatype Connection = Connection(
    id: int, name: string, host: string, user: string,
    subnets: seq<string>, healthIP: string, enabled: bool)

  /** A stored connection: the subnet list is one comma-joined column. */
  datatype Row = Row(
    id: int, name: string, host: string, user: string, psk: string, password: string,
    subnetText: string, healthIP: string, enabled: bool)

  datatype LocalSubnet = LocalSubnet(id: int, cidr: string, healthIP: string, enabled: bool)

  datatype State = State(rows: seq<Row>, locals: seq<LocalSubnet>)

  const EMPTY := State([], [])

  datatype Error =
    | BadName | NoHost | BadHost | NoUser | BadUser | BadSubnets | BadHealthIP
    | NoSecrets | BadSecrets | CorruptRow | RouteConflict | NotUnique | NotFound

  datatype Result<+T> = Ok(value: T) | Err(error: Error)

  // ----- validation (validate.go)

  predicate Alphanumeric(ch: char) {
    'a' <= ch <= 'z' || '0' <= ch <= '9'
  }

  predicate ValidName(name: string) {
    && 2 <= |name| <= 32
    && Alphanumeric(name[0]) && Alphanumeric(name[|name| - 1])
    && forall i :: 0 <= i < |name| ==> Alphanumeric(name[i]) || name[i] == '-'
  }

  predicate ValidField(value: string) {
    forall i :: 0 <= i < |value| ==> value[i] != '"' && !IsControl(value[i])
  }

  predicate ValidHost(value: string) {
    ValidField(value) && NoSpace(value)
  }

  predicate Apart(p: Prefix, q: Prefix) {
    p.Valid() && q.Valid() && !p.Overlaps(q)
  }

  predicate AllParse(c: Codec, subnets: seq<string>) {
    forall i :: 0 <= i < |subnets| ==> ParseSubnet(c, subnets[i]).Some?
  }

  function PrefixAt(c: Codec, subnet: string): Prefix {
    match ParseSubnet(c, subnet)
    case Some(p) => p
    case None => Prefix(V4, 0, 0)
  }

  function Prefixes(c: Codec, subnets: seq<string>): (ps: seq<Prefix>)
    ensures |ps| == |subnets|
  {
    seq(|subnets|, i requires 0 <= i < |subnets| => PrefixAt(c, subnets[i]))
  }

  predicate MutuallyApart(ps: seq<Prefix>) {
    forall i, j :: 0 <= i < j < |ps| ==> Apart(ps[i], ps[j])
  }

  /** What `ParseSubnets` accepts: a non-empty list of CIDRs, none overlapping
      another. */
  predicate GoodSubnets(c: Codec, subnets: seq<string>) {
    subnets != [] && AllParse(c, subnets) && MutuallyApart(Prefixes(c, subnets))
  }

  function ValidateSecrets(s: Secrets): Option<Error> {
    if ValidField(s.psk) && ValidField(s.password) then None else Some(BadSecrets)
  }

  function ValidateConnection(c: Codec, conn: Connection): Option<Error> {
    if !ValidName(conn.name) then Some(BadName)
    else if TrimSpace(conn.host) == "" then Some(NoHost)
    else if !ValidHost(conn.host) then Some(BadHost)
    else if TrimSpace(conn.user) == "" then Some(NoUser)
    else if !ValidHost(conn.user) then Some(BadUser)
    else if !GoodSubnets(c, conn.subnets) then Some(BadSubnets)
    else if conn.healthIP != "" && !c.isAddr(TrimSpace(conn.healthIP)) then Some(BadHealthIP)
    else None
  }

  // ----- reading (connections.go, subnets.go)

  function SplitSubnets(joined: string): seq<string> {
    if joined == "" then [] else Split(joined)
  }

  function Scan(row: Row): Connection {
    Connection(row.id, row.name, row.host, row.user, SplitSubnets(row.subnetText), row.healthIP, row.enabled)
  }

  function InsertByName(x: Connection, xs: seq<Connection>): seq<Connection> {
    if xs == [] then [x]
    else if Le(x.name, xs[0].name) then [x] + xs
    else [xs[0]] + InsertByName(x, xs[1..])
  }

  /** `ListConnections`: every row, ordered by name. */
  function List(rows: seq<Row>): seq<Connection> {
    if rows == [] then [] else InsertByName(Scan(rows[0]), List(rows[1..]))
  }

  function InsertByCidr(x: LocalSubnet, xs: seq<LocalSubnet>): seq<LocalSubnet> {
    if xs == [] then [x]
    else if Le(x.cidr, xs[0].cidr) then [x] + xs
    else [xs[0]] + InsertByCidr(x, xs[1..])
  }

  /** `ListLocalSubnets`: every local subnet, ordered by CIDR. */
  function ListLocals(locals: seq<LocalSubnet>): seq<LocalSubnet> {
    if locals == [] then [] else InsertByCidr(locals[0], ListLocals(locals[1..]))
  }

  /** The CIDR texts `claimedSubnets` walks over, the excepted row left out. */
  function ConnectionTexts(conns: seq<Connection>, except: int): seq<string> {
    if conns == [] then []
    else (if conns[0].id == except then [] else conns[0].subnets) + ConnectionTexts(conns[1..], except)
  }

  function LocalTexts(locals: seq<LocalSubnet>): seq<string> {
    seq(|locals|, i requires 0 <= i < |locals| => locals[i].cidr)
  }

  function ClaimTexts(t: State, except: int): seq<string> {
    ConnectionTexts(List(t.rows), except) + LocalTexts(ListLocals(t.locals))
  }

  predicate AllApart(candidates: seq<Prefix>, claimed: seq<Prefix>) {
    forall i, j :: 0 <= i < |candidates| && 0 <= j < |claimed| ==> Apart(candidates[i], claimed[j])
  }

  function CheckConflicts(c: Codec, t: State, candidates: seq<Prefix>, except: int): Option<Error> {
    var texts := ClaimTexts(t, except);
    if !AllParse(c, texts) then Some(CorruptRow)
    else if !AllApart(candidates, Prefixes(c, texts)) then Some(RouteConflict)
    else None
  }

  /** `joinSubnets`: each entry in canonical form, comma-joined. */
  function Canonical(c: Codec, subnets: seq<string>): (r: seq<string>)
    ensures |r| == |subnets|
  {
    seq(|subnets|, i requires 0 <= i < |subnets| =>
      match ParseSubnet(c, subnets[i])
      case Some(p) => c.format(p)
      case None => TrimSpace(subnets[i]))
  }

  // ----- writing

  predicate HasName(rows: seq<Row>, name: string, except: int) {
    exists i :: 0 <= i < |rows| && rows[i].name == name && rows[i].id != except
  }

  predicate HasId(rows: seq<Row>, id: int) {
    exists i :: 0 <= i < |rows| && rows[i].id == id
  }

  predicate HasLocal(locals: seq<LocalSubnet>, id: int) {
    exists i :: 0 <= i < |locals| && locals[i].id == id
  }

  predicate HasCidr(locals: seq<LocalSubnet>, cidr: string) {
    exists i :: 0 <= i < |locals| && locals[i].cidr == cidr
  }

  /** SQLite's choice for an INTEGER PRIMARY KEY: one more than the largest. */
  function NextId(ids: seq<int>): (next: int)
    ensures next >= 1 && forall i :: 0 <= i < |ids| ==> ids[i] < next
  {
    if ids == [] then 1
    else
      var rest := NextId(ids[1..]);
      if ids[0] < rest then rest else ids[0] + 1
  }

  function RowIds(rows: seq<Row>): seq<int> {
    seq(|rows|, i requires 0 <= i < |rows| => rows[i].id)
  }

  function LocalIds(locals: seq<LocalSubnet>): seq<int> {
    seq(|locals|, i requires 0 <= i < |locals| => locals[i].id)
  }

  function CreateConnection(c: Codec, t: State, conn: Connection, s: Secrets): (State, Result<int>) {
    var invalid := ValidateConnection(c, conn);
    if invalid.Some? then (t, Err(invalid.value))
    else if s.psk == "" || s.password == "" then (t, Err(NoSecrets))
    else if ValidateSecrets(s).Some? then (t, Err(BadSecrets))
    else
      var conflict := CheckConflicts(c, t, Prefixes(c, conn.subnets), conn.id);
      if conflict.Some? then (t, Err(conflict.value))
      else if HasName(t.rows, conn.name, 0) then (t, Err(NotUnique))
      else
        var id := NextId(RowIds(t.rows));
        var row := Row(id, conn.name, conn.host, conn.user, s.psk, s.password,
                       Join(Canonical(c, conn.subnets)), conn.healthIP, conn.enabled);
        (t.(rows := t.rows + [row]), Ok(id))
  }

  function Updated(c: Codec, row: Row, conn: Connection, s: Secrets): Row {
    Row(row.id, conn.name, conn.host, conn.user,
        if s.psk != "" then s.psk else row.psk,
        if s.password != "" then s.password else row.password,
        Join(Canonical(c, conn.subnets)), conn.healthIP, conn.enabled)
  }

  /** `UPDATE … WHERE id = ?` */
  function MapRow(rows: seq<Row>, id: int, f: Row -> Row): seq<Row> {
    seq(|rows|, i requires 0 <= i < |rows| => if rows[i].id == id then f(rows[i]) else rows[i])
  }

  function MapLocal(locals: seq<LocalSubnet>, id: int, f: LocalSubnet -> LocalSubnet): seq<LocalSubnet> {
    seq(|locals|, i requires 0 <= i < |locals| => if locals[i].id == id then f(locals[i]) else locals[i])
  }

  function UpdateConnection(c: Codec, t: State, conn: Connection, s: Secrets): (State, Option<Error>) {
    var invalid := ValidateConnection(c, conn);
    if invalid.Some? then (t, invalid)
    else if ValidateSecrets(s).Some? then (t, Some(BadSecrets))
    else if !HasId(t.rows, conn.id) then (t, Some(NotFound))
    else
      var conflict := CheckConflicts(c, t, Prefixes(c, conn.subnets), conn.id);
      if conflict.Some? then (t, conflict)
      else if HasName(t.rows, conn.name, conn.id) then (t, Some(NotUnique))
      else (t.(rows := MapRow(t.rows, conn.id, row => Updated(c, row, conn, s))), None)
  }

  function SetConnectionEnabled(t: State, id: int, enabled: bool): (State, Option<Error>) {
    if !HasId(t.rows, id) then (t, Some(NotFound))
    else (t.(rows := MapRow(t.rows, id, (row: Row) => row.(enabled := enabled))), None)
  }

  function SetHealthCheckIP(c: Codec, t: State, id: int, ip: string): (State, Option<Error>) {
    if ip != "" && !c.isAddr(TrimSpace(ip)) then (t, Some(BadHealthIP))
    else if !HasId(t.rows, id) then (t, Some(NotFound))
    else (t.(rows := MapRow(t.rows, id, (row: Row) => row.(healthIP := ip))), None)
  }

  function WithoutRow(rows: seq<Row>, id: int): seq<Row> {
    if rows == [] then []
    else (if rows[0].id == id then [] else [rows[0]]) + WithoutRow(rows[1..], id)
  }

  function DeleteConnection(t: State, id: int): (State, Option<Error>) {
    if !HasId(t.rows, id) then (t, Some(NotFound))
    else (t.(rows := WithoutRow(t.rows, id)), None)
  }

  function CreateLocalSubnet(c: Codec, t: State, local: LocalSubnet): (State, Result<int>) {
    match ParseSubnet(c, local.cidr)
    case None => (t, Err(BadSubnets))
    case Some(p) =>
      var conflict := CheckConflicts(c, t, [p], 0);
      if conflict.Some? then (t, Err(conflict.value))
      else if local.healthIP != "" && !c.isAddr(TrimSpace(local.healthIP)) then (t, Err(BadHealthIP))
      else if HasCidr(t.locals, c.format(p)) then (t, Err(NotUnique))
      else
        var id := NextId(LocalIds(t.locals));
        (t.(locals := t.locals + [LocalSubnet(id, c.format(p), local.healthIP, local.enabled)]), Ok(id))
  }

  function SetLocalSubnetEnabled(t: State, id: int, enabled: bool): (State, Option<Error>) {
    if !HasLocal(t.locals, id) then (t, Some(NotFound))
    else (t.(locals := MapLocal(t.locals, id, (l: LocalSubnet) => l.(enabled := enabled))), None)
  }

  function WithoutLocal(locals: seq<LocalSubnet>, id: int): seq<LocalSubnet> {
    if locals == [] then []
    else (if locals[0].id == id then [] else [locals[0]]) + WithoutLocal(locals[1..], id)
  }

  function DeleteLocalSubnet(t: State, id: int): (State, Option<Error>) {
    if !HasLocal(t.locals, id) then (t, Some(NotFound))
    else (t.(locals := WithoutLocal(t.locals, id)), None)
  }

  // ----- runs

  datatype Op =
    | Create(conn: Connection, secrets: Secrets)
    | Update(conn: Connection, secrets: Secrets)
    | Enable(id: int, enabled: bool)
    | SetIP(id: int, ip: string)
    | Delete(id: int)
    | CreateLocal(local: LocalSubnet)
    | EnableLocal(id: int, enabled: bool)
    | DeleteLocal(id: int)

  function Apply(c: Codec, t: State, op: Op): State {
    match op
    case Create(conn, secrets) => CreateConnection(c, t, conn, secrets).0
    case Update(conn, secrets) => UpdateConnection(c, t, conn, secrets).0
    case Enable(id, enabled) => SetConnectionEnabled(t, id, enabled).0
    case SetIP(id, ip) => SetHealthCheckIP(c, t, id, ip).0
    case Delete(id) => DeleteConnection(t, id).0
    case CreateLocal(local) => CreateLocalSubnet(c, t, local).0
    case EnableLocal(id, enabled) => SetLocalSubnetEnabled(t, id, enabled).0
    case DeleteLocal(id) => DeleteLocalSubnet(t, id).0
  }

  /** A caller creating a connection names no existing row: the conflict check
      leaves out the row whose id the new connection carries. */
  predicate Legal(t: State, op: Op) {
    op.Create? ==> !HasId(t.rows, op.conn.id)
  }
}
