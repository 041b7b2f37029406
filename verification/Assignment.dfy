/**
  Bulk creation of allocations on a node: every address of a network with every
  port of a list of ports and ranges (app/Services/Allocations/AssignmentService.php).
*/
module Assignment {
  import opened Wrappers
  import opened Database
  import opened PortStrings

  datatype Error =
    | CidrOutOfRange
    | CouldNotParse
    | InvalidPortMapping
    | TooManyPortsInRange
    | PortOutOfRange
    | RowRejected

  // ---------------------------------------------------------------------
  // Addresses and ports
  // ---------------------------------------------------------------------

  /** What is typed as the address: a host that may resolve to one address, or a network whose base may be one. */
  datatype Address = Host(resolved: Option<Ip>) | Cidr(base: Option<Ip>, bits: string)

  const CIDR_MAX_BITS := 25
  const CIDR_MIN_BITS := 32

  predicate CidrInRange(address: Address) {
    address.Cidr? ==> IsDigits(address.bits) && CIDR_MAX_BITS <= ToInt(address.bits) <= CIDR_MIN_BITS
  }

  function Pow2(n: nat): (r: nat)
    ensures r > 0
  {
    if n == 0 then 1 else 2 * Pow2(n - 1)
  }

  /** The addresses of a network, from its first one. */
  function Network(base: Ip, size: nat): seq<Ip>
    requires size > 0
  {
    seq(size, k requires 0 <= k < size => base - base % size + k)
  }

  function Addresses(address: Address): (r: Result<seq<Ip>, Error>)
    ensures r.Success? ==> r.value != []
  {
    if !CidrInRange(address) then Failure(CidrOutOfRange)
    else match address
      case Host(None) => Failure(CouldNotParse)
      case Host(Some(ip)) => Success([ip])
      case Cidr(None, _) => Failure(CouldNotParse)
      case Cidr(Some(base), bits) => Success(Network(base, Pow2(32 - ToInt(bits))))
  }

  predicate InRange(port: int) {
    PORT_FLOOR <= port <= PORT_CEIL
  }

  /** The ports of one entry of the list. */
  function Block(entry: string): Result<seq<int>, Error> {
    if !IsDigits(entry) && ParseRange(entry).None? then Failure(InvalidPortMapping)
    else if ParseRange(entry).Some? then
      var (a, b) := ParseRange(entry).value;
      if |Span(a, b)| > PORT_RANGE_LIMIT then Failure(TooManyPortsInRange)
      else if a < PORT_FLOOR || b > PORT_CEIL then Failure(PortOutOfRange)
      else Success(Span(a, b))
    else if !InRange(ToInt(entry)) then Failure(PortOutOfRange)
    else Success([ToInt(entry)])
  }

  /** One port, as typed. */
  lemma EntryOfPort(n: nat)
    ensures Block(Decimal(n)) == if 1024 <= n <= 65535 then Success([n]) else Failure(PortOutOfRange)
    ensures Block("") == Failure(InvalidPortMapping)
  {
    TextIsNoRange(n);
    DecimalReadsBack(n);
  }

  /**
    A range, as typed: from either end to the other, at most a thousand ports,
    and only the first number is held against the floor and the second against
    the ceiling.
  */
  lemma EntryOfRange(a: nat, b: nat, end: string)
    requires end == "" || end == "\n"
    ensures var r := Block(Decimal(a) + "-" + Decimal(b) + end);
      && (r == Failure(InvalidPortMapping) <==> !(1000 <= a <= 99999 && 1000 <= b <= 99999))
      && (r == Failure(TooManyPortsInRange) <==>
        1000 <= a <= 99999 && 1000 <= b <= 99999 && (b - a >= 1000 || a - b >= 1000))
      && (r.Success? <==> -1000 < b - a < 1000 && 1024 <= a <= 99999 && 1000 <= b <= 65535)
      && (r.Success? ==> |r.value| == (if a <= b then b - a else a - b) + 1)
      && (r.Success? ==> forall k | 0 <= k < |r.value| :: r.value[k] == if a <= b then a + k else a - k)
  {
    RangeReadsBack(a, b, end);
  }

  lemma Quotient(n: nat, q: nat, size: nat)
    requires size > 0
    ensures n / size == q <==> q * size <= n < q * size + size
  {
    assert n == (n / size) * size + n % size;
    if n / size < q {
      assert (n / size + 1) * size <= q * size;
    } else if q < n / size {
      assert (q + 1) * size <= (n / size) * size;
    }
  }

  /**
    The addresses of a network with 25 to 32 bits are those that agree with its
    base in these bits, in ascending order.
  */
  lemma NetworkHoldsIff(base: Ip, bits: nat, ip: Ip)
    ensures var r := Addresses(Cidr(Some(base), Decimal(bits)));
      && (r.Success? <==> 25 <= bits <= 32)
      && (r.Success? ==> (ip in r.value <==> ip / Pow2(32 - bits) == base / Pow2(32 - bits)))
      && (r.Success? ==> forall k | 0 <= k < |r.value| :: r.value[k] == r.value[0] + k)
  {
    DecimalReadsBack(bits);
    if 25 <= bits <= 32 {
      var size := Pow2(32 - bits);
      var first := base - base % size;
      var ips := Network(base, size);
      assert base == (base / size) * size + base % size;
      Quotient(ip, base / size, size);
      if first <= ip < first + size {
        assert ips[ip - first] == ip;
      }
    }
  }

  predicate AllParse(entries: seq<string>) {
    forall k | 0 <= k < |entries| :: Block(entries[k]).Success?
  }

  /** The ports of all entries, in the order of the list. */
  function Ports(entries: seq<string>): seq<int>
    requires AllParse(entries)
  {
    if entries == [] then [] else Ports(entries[..|entries| - 1]) + Block(entries[|entries| - 1]).value
  }

  // ---------------------------------------------------------------------
  // Rows
  // ---------------------------------------------------------------------

  /** What all rows of one call have in common. */
  datatype Common = Common(node: Id, aliasName: Option<string>, owner: Option<Id>)

  function RowFor(c: Common, ip: Ip, port: int): Allocation {
    Allocation(c.node, ip, port, c.aliasName, c.owner, None)
  }

  function RowsAt(c: Common, ip: Ip, ports: seq<int>): (rows: seq<Allocation>)
    ensures |rows| == |ports|
    ensures forall k | 0 <= k < |ports| :: rows[k] == RowFor(c, ip, ports[k])
  {
    seq(|ports|, k requires 0 <= k < |ports| => RowFor(c, ip, ports[k]))
  }

  /** The rows of a call: address by address, and for each of them port by port. */
  function Rows(c: Common, addresses: seq<Ip>, ports: seq<int>): seq<Allocation> {
    if addresses == [] then []
    else Rows(c, addresses[..|addresses| - 1], ports) + RowsAt(c, addresses[|addresses| - 1], ports)
  }

  /** The model rule on ports and the unique key let all rows in, one after the other. */
  ghost predicate Acceptable(m: map<Id, Allocation>, rows: seq<Allocation>) {
    && (forall k | 0 <= k < |rows| :: InRange(rows[k].port))
    && (forall k, a | 0 <= k < |rows| && a in m :: !SameKey(rows[k], m[a]))
    && (forall j, k | 0 <= j < k < |rows| :: !SameKey(rows[j], rows[k]))
  }

  /** The table with rows added under the identifiers after `last`. */
  function Inserted(m: map<Id, Allocation>, last: Id, rows: seq<Allocation>): map<Id, Allocation> {
    if rows == [] then m
    else Inserted(m, last, rows[..|rows| - 1])[last + |rows| := rows[|rows| - 1]]
  }

  function NewIds(last: Id, n: nat): seq<Id> {
    seq(n, k => last + 1 + k)
  }

  lemma {:induction false} InsertedKeys(m: map<Id, Allocation>, last: Id, rows: seq<Allocation>)
    ensures forall a | a in Inserted(m, last, rows) :: a in m || last < a <= last + |rows|
    ensures forall a | a in m :: a in Inserted(m, last, rows)
    ensures forall a: Id | last < a <= last + |rows| ::
      a in Inserted(m, last, rows) && Inserted(m, last, rows)[a] == rows[a - last - 1]
    ensures forall a | a in m && !(last < a <= last + |rows|) :: Inserted(m, last, rows)[a] == m[a]
  {
    if rows != [] {
      InsertedKeys(m, last, rows[..|rows| - 1]);
    }
  }

  lemma InsertedOne(m: map<Id, Allocation>, last: Id, rows: seq<Allocation>, row: Allocation)
    ensures Inserted(m, last, rows)[last + |rows| + 1 := row] == Inserted(m, last, rows + [row])
  {
    assert (rows + [row])[..|rows|] == rows;
  }

  /** The table after the rows has room for one more. */
  ghost predicate Fits(m: map<Id, Allocation>, row: Allocation) {
    InRange(row.port) && forall a | a in m :: !SameKey(row, m[a])
  }

  /** A row fits after others exactly when the longer list is acceptable. */
  lemma AcceptableOne(m: map<Id, Allocation>, last: Id, rows: seq<Allocation>, row: Allocation)
    requires Acceptable(m, rows) && forall a | a in m :: a <= last
    ensures Fits(Inserted(m, last, rows), row) <==> Acceptable(m, rows + [row])
  {
    if Fits(Inserted(m, last, rows), row) {
      FitsThenAcceptable(m, last, rows, row);
    }
    if Acceptable(m, rows + [row]) {
      AcceptableThenFits(m, last, rows, row);
    }
  }

  lemma FitsThenAcceptable(m: map<Id, Allocation>, last: Id, rows: seq<Allocation>, row: Allocation)
    requires Acceptable(m, rows) && forall a | a in m :: a <= last
    requires Fits(Inserted(m, last, rows), row)
    ensures Acceptable(m, rows + [row])
  {
    var m' := Inserted(m, last, rows);
    InsertedKeys(m, last, rows);
    forall a | a in m
      ensures !SameKey(row, m[a])
    {
      assert m'[a] == m[a];
    }
    forall j | 0 <= j < |rows|
      ensures !SameKey(rows[j], row)
    {
      assert last + 1 + j in m' && m'[last + 1 + j] == rows[j];
    }
  }

  lemma AcceptableThenFits(m: map<Id, Allocation>, last: Id, rows: seq<Allocation>, row: Allocation)
    requires Acceptable(m, rows + [row]) && forall a | a in m :: a <= last
    ensures Fits(Inserted(m, last, rows), row)
  {
    var m', all := Inserted(m, last, rows), rows + [row];
    InsertedKeys(m, last, rows);
    assert all[|rows|] == row;
    forall a | a in m'
      ensures !SameKey(row, m'[a])
    {
      if a in m {
        assert m'[a] == m[a] && !SameKey(all[|rows|], m[a]);
      } else {
        assert m'[a] == all[a - last - 1] && !SameKey(all[a - last - 1], all[|rows|]);
      }
    }
  }

  lemma AcceptablePrefix(m: map<Id, Allocation>, rows: seq<Allocation>, all: seq<Allocation>)
    requires rows <= all && Acceptable(m, all)
    ensures Acceptable(m, rows)
  {
    assert forall k | 0 <= k < |rows| :: rows[k] == all[k];
  }

  lemma InsertKeepsInv(t: Tables, last: Id, rows: seq<Allocation>)
    requires Inv(t) && Acceptable(t.allocations, rows)
    requires forall a | a in t.allocations :: a <= last
    requires forall k | 0 <= k < |rows| && rows[k].owner.Some? :: rows[k].owner.value in t.servers
    ensures Inv(t.(allocations := Inserted(t.allocations, last, rows)))
  {
    var m := Inserted(t.allocations, last, rows);
    var t' := t.(allocations := m);
    InsertedKeys(t.allocations, last, rows);
    OtherPartsKept(t, m);
    InsertedUnique(t.allocations, last, rows);
    forall s | s in t.servers
      ensures t.servers[s].allocation in Owned(t', s)
    {
      assert t.servers[s].allocation in Owned(t, s);
    }
  }

  lemma InsertedUnique(m: map<Id, Allocation>, last: Id, rows: seq<Allocation>)
    requires UniqueKeys(m) && Acceptable(m, rows) && forall a | a in m :: a <= last
    ensures UniqueKeys(Inserted(m, last, rows))
  {
    var m' := Inserted(m, last, rows);
    InsertedKeys(m, last, rows);
    forall a, b | a in m' && b in m' && a != b
      ensures !SameKey(m'[a], m'[b])
    {
      if a in m && b in m {
        assert SameKey(m[a], m[b]) ==> a == b;
      } else if a in m {
        assert !SameKey(rows[b - last - 1], m[a]);
      } else if b in m {
        assert !SameKey(rows[a - last - 1], m[b]);
      } else {
        var i, j := a - last - 1, b - last - 1;
        assert !SameKey(rows[i], rows[j]) && !SameKey(rows[j], rows[i]);
      }
    }
  }

  // ---------------------------------------------------------------------
  // The service
  // ---------------------------------------------------------------------

  /** The call has added `rows` to the table `m`, and `ids` are their identifiers. */
  ghost predicate Progress(db: Panel, m: map<Id, Allocation>, last: Id, rows: seq<Allocation>, ids: seq<Id>)
    reads db
  {
    && Acceptable(m, rows) && db.allocations == Inserted(m, last, rows)
    && db.lastAllocation == last + |rows| && ids == NewIds(last, |rows|)
  }

  /** The model refuses a row when its port is out of range or its key is taken. */
  method CreateRow(db: Panel, row: Allocation) returns (id: Option<Id>)
    requires db.Numbered()
    modifies db`allocations, db`lastAllocation
    ensures db.Numbered()
    ensures id.Some? <==> Fits(old(db.allocations), row)
    ensures id.Some? ==>
      (id.value == db.lastAllocation == old(db.lastAllocation) + 1
       && db.allocations == old(db.allocations)[id.value := row])
    ensures id.None? ==> db.allocations == old(db.allocations) && db.lastAllocation == old(db.lastAllocation)
  {
    var taken := set a | a in db.allocations && SameKey(row, db.allocations[a]);
    assert taken == {} <==> forall a | a in db.allocations :: !SameKey(row, db.allocations[a]) by {
      assert forall a | a in db.allocations && SameKey(row, db.allocations[a]) :: a in taken;
    }
    if !InRange(row.port) || taken != {} {
      return None;
    }
    db.lastAllocation := db.lastAllocation + 1;
    db.allocations := db.allocations[db.lastAllocation := row];
    return Some(db.lastAllocation);
  }

  /** The rows `done` are already in the table `m`; `rows` are created after them. */
  method CreateRows(db: Panel, ghost m: map<Id, Allocation>, ghost last: Id, ghost done: seq<Allocation>,
      ids: seq<Id>, rows: seq<Allocation>) returns (ok: bool, ids': seq<Id>)
    requires db.Numbered() && (forall a | a in m :: a <= last)
    requires Progress(db, m, last, done, ids)
    modifies db`allocations, db`lastAllocation
    ensures db.Numbered() && db.lastAllocation >= old(db.lastAllocation)
    ensures ok <==> Acceptable(m, done + rows)
    ensures ok ==> Progress(db, m, last, done + rows, ids')
  {
    ok, ids' := true, ids;
    assert done + rows[..0] == done;
    for k := 0 to |rows|
      invariant db.Numbered() && db.lastAllocation >= old(db.lastAllocation)
      invariant Progress(db, m, last, done + rows[..k], ids')
    {
      ghost var before := done + rows[..k];
      assert before + [rows[k]] == done + rows[..k + 1];
      AcceptableOne(m, last, before, rows[k]);
      InsertedOne(m, last, before, rows[k]);
      var id := CreateRow(db, rows[k]);
      if id.None? {
        if Acceptable(m, done + rows) {
          AcceptablePrefix(m, done + rows[..k + 1], done + rows);
        }
        return false, ids';
      }
      ids' := ids' + [id.value];
    }
    assert rows[..|rows|] == rows;
  }

  /** One entry of the list for one address: parsed, then created. */
  method CreateEntry(db: Panel, c: Common, ip: Ip, entry: string, ghost m: map<Id, Allocation>, ghost last: Id,
      ghost done: seq<Allocation>, ids: seq<Id>) returns (r: Result<seq<Id>, Error>)
    requires db.Numbered() && (forall a | a in m :: a <= last)
    requires Progress(db, m, last, done, ids)
    modifies db`allocations, db`lastAllocation
    ensures db.Numbered() && db.lastAllocation >= old(db.lastAllocation)
    ensures r.Success? <==> Block(entry).Success? && Acceptable(m, done + RowsAt(c, ip, Block(entry).value))
    ensures r.Success? ==> Progress(db, m, last, done + RowsAt(c, ip, Block(entry).value), r.value)
    ensures r.Failure? ==> r.error == if Block(entry).Failure? then Block(entry).error else RowRejected
  {
    if !IsDigits(entry) && ParseRange(entry).None? {
      return Failure(InvalidPortMapping);
    }
    var newAllocations: seq<Allocation> := [];
    if ParseRange(entry).Some? {
      var (a, b) := ParseRange(entry).value;
      var block := Span(a, b);
      if |block| > PORT_RANGE_LIMIT {
        return Failure(TooManyPortsInRange);
      }
      if a < PORT_FLOOR || b > PORT_CEIL {
        return Failure(PortOutOfRange);
      }
      for k := 0 to |block|
        invariant newAllocations == RowsAt(c, ip, block[..k])
      {
        newAllocations := newAllocations + [RowFor(c, ip, block[k])];
      }
      assert block[..|block|] == block;
    } else {
      if ToInt(entry) < PORT_FLOOR || ToInt(entry) > PORT_CEIL {
        return Failure(PortOutOfRange);
      }
      newAllocations := newAllocations + [RowFor(c, ip, ToInt(entry))];
    }
    assert newAllocations == RowsAt(c, ip, Block(entry).value);
    var ok, ids' := CreateRows(db, m, last, done, ids, newAllocations);
    if !ok {
      return Failure(RowRejected);
    }
    return Success(ids');
  }

  // ---------------------------------------------------------------------
  // Prefixes of the work
  // ---------------------------------------------------------------------

  /** The rows of finished addresses, then those of one address for a prefix of the ports. */
  ghost function RowsSoFar(c: Common, done: seq<Allocation>, ip: Ip, entries: seq<string>, n: nat): seq<Allocation>
    requires n <= |entries| && AllParse(entries[..n])
  {
    done + RowsAt(c, ip, Ports(entries[..n]))
  }

  lemma RowsAtConcat(c: Common, ip: Ip, p: seq<int>, q: seq<int>)
    ensures RowsAt(c, ip, p + q) == RowsAt(c, ip, p) + RowsAt(c, ip, q)
  {
  }

  lemma ParseStep(entries: seq<string>, n: nat)
    requires n < |entries|
    ensures AllParse(entries[..n + 1]) <==> AllParse(entries[..n]) && Block(entries[n]).Success?
  {
    var longer, shorter := entries[..n + 1], entries[..n];
    assert longer[n] == entries[n];
    assert forall k | 0 <= k < n :: longer[k] == shorter[k];
  }

  lemma SoFarStep(c: Common, done: seq<Allocation>, ip: Ip, entries: seq<string>, n: nat)
    requires n < |entries| && AllParse(entries[..n]) && Block(entries[n]).Success?
    ensures AllParse(entries[..n + 1])
    ensures Ports(entries[..n + 1]) == Ports(entries[..n]) + Block(entries[n]).value
    ensures RowsSoFar(c, done, ip, entries, n + 1)
      == RowsSoFar(c, done, ip, entries, n) + RowsAt(c, ip, Block(entries[n]).value)
  {
    ParseStep(entries, n);
    assert entries[..n + 1][..n] == entries[..n];
    RowsAtConcat(c, ip, Ports(entries[..n]), Block(entries[n]).value);
  }

  /** Every prefix of a list that parses, parses, and its ports come first. */
  lemma {:induction false} PortsPrefix(entries: seq<string>, n: nat)
    requires AllParse(entries) && n <= |entries|
    ensures AllParse(entries[..n]) && Ports(entries[..n]) <= Ports(entries)
    decreases |entries| - n
  {
    if n == |entries| {
      assert entries[..n] == entries;
    } else {
      PortsPrefix(entries, n + 1);
      ParseStep(entries, n);
      assert entries[..n + 1][..n] == entries[..n];
    }
  }

  lemma {:induction false} RowsPrefix(c: Common, addresses: seq<Ip>, ports: seq<int>, i: nat)
    requires i <= |addresses|
    ensures Rows(c, addresses[..i], ports) <= Rows(c, addresses, ports)
    decreases |addresses| - i
  {
    if i == |addresses| {
      assert addresses[..i] == addresses;
    } else {
      RowsPrefix(c, addresses, ports, i + 1);
      assert addresses[..i + 1][..i] == addresses[..i];
    }
  }

  lemma RowsStep(c: Common, addresses: seq<Ip>, ports: seq<int>, i: nat)
    requires i < |addresses|
    ensures Rows(c, addresses[..i + 1], ports) == Rows(c, addresses[..i], ports) + RowsAt(c, addresses[i], ports)
  {
    assert addresses[..i + 1][..i] == addresses[..i];
  }

  /** If the whole is acceptable, so is everything on the way. */
  lemma SoFarAcceptable(m: map<Id, Allocation>, c: Common, addresses: seq<Ip>, entries: seq<string>, i: nat, n: nat)
    requires i < |addresses| && n <= |entries|
    requires Accepted(m, c, addresses, entries)
    ensures AllParse(entries[..n])
    ensures Acceptable(m, RowsSoFar(c, Rows(c, addresses[..i], Ports(entries)), addresses[i], entries, n))
  {
    var done := Rows(c, addresses[..i], Ports(entries));
    PortsPrefix(entries, n);
    RowsStep(c, addresses, Ports(entries), i);
    RowsPrefix(c, addresses, Ports(entries), i + 1);
    var some, all := RowsAt(c, addresses[i], Ports(entries[..n])), RowsAt(c, addresses[i], Ports(entries));
    assert some <= all;
    assert done + some <= done + all;
    AcceptablePrefix(m, done + some, Rows(c, addresses, Ports(entries)));
  }

  // ---------------------------------------------------------------------
  // Bulk assignment
  // ---------------------------------------------------------------------

  /** Every entry parses, and the model and the unique key accept all the rows. */
  ghost predicate Accepted(m: map<Id, Allocation>, c: Common, addresses: seq<Ip>, entries: seq<string>) {
    AllParse(entries) && Acceptable(m, Rows(c, addresses, Ports(entries)))
  }

  /** The first entry that does not parse, or the length of the list. */
  function FirstBad(entries: seq<string>): (k: nat)
    ensures k <= |entries| && AllParse(entries[..k])
    ensures k < |entries| ==> Block(entries[k]).Failure?
  {
    if entries == [] then 0
    else
      var last := |entries| - 1;
      var k := FirstBad(entries[..last]);
      assert entries[..last][..k] == entries[..k];
      if k < last || Block(entries[last]).Failure? then k
      else
        ParseStep(entries, last);
        last + 1
  }

  /** The error of a call that is not accepted: the first entry that does not parse, unless a row is refused before. */
  ghost function ErrorOf(m: map<Id, Allocation>, c: Common, ip: Ip, entries: seq<string>): Error {
    var k := FirstBad(entries);
    if k < |entries| && Acceptable(m, RowsAt(c, ip, Ports(entries[..k]))) then Block(entries[k]).error else RowRejected
  }

  /** Work stopped at entry `n`, with all entries before it done. */
  ghost predicate StoppedAt(m: map<Id, Allocation>, c: Common, done: seq<Allocation>, ip: Ip, entries: seq<string>,
      n: nat, error: Error)
  {
    && n < |entries| && AllParse(entries[..n]) && Acceptable(m, RowsSoFar(c, done, ip, entries, n))
    && !(AllParse(entries[..n + 1]) && Acceptable(m, RowsSoFar(c, done, ip, entries, n + 1)))
    && error == if Block(entries[n]).Failure? then Block(entries[n]).error else RowRejected
  }

  lemma FirstBadIs(entries: seq<string>, n: nat)
    requires n < |entries| && AllParse(entries[..n]) && Block(entries[n]).Failure?
    ensures FirstBad(entries) == n
  {
    ParseAt(entries, n);
    ParseAt(entries, FirstBad(entries));
  }

  lemma ParseAt(entries: seq<string>, n: nat)
    requires n <= |entries| && AllParse(entries[..n])
    ensures forall j | 0 <= j < n :: Block(entries[j]).Success?
  {
    assert forall j | 0 <= j < n :: entries[..n][j] == entries[j];
  }

  /** For the first address, stopping is explained by the first entry that does not parse, or by a row. */
  lemma FirstErrorExplained(m: map<Id, Allocation>, c: Common, ip: Ip, entries: seq<string>, n: nat, error: Error)
    requires StoppedAt(m, c, [], ip, entries, n, error)
    ensures error == ErrorOf(m, c, ip, entries)
  {
    assert RowsSoFar(c, [], ip, entries, n) == RowsAt(c, ip, Ports(entries[..n]));
    if Block(entries[n]).Failure? {
      FirstBadIs(entries, n);
    } else {
      ParseStep(entries, n);
      var k := FirstBad(entries);
      ParseAt(entries, n + 1);
      PortsPrefix(entries[..k], n + 1);
      assert entries[..k][..n + 1] == entries[..n + 1];
      var some, more := RowsAt(c, ip, Ports(entries[..n + 1])), RowsAt(c, ip, Ports(entries[..k]));
      assert RowsSoFar(c, [], ip, entries, n + 1) == some && some <= more;
      if Acceptable(m, more) {
        AcceptablePrefix(m, some, more);
      }
    }
  }

  /** Later addresses are only reached when every entry parses. */
  lemma LaterErrorExplained(m: map<Id, Allocation>, c: Common, ip: Ip, done: seq<Allocation>, at: Ip,
      entries: seq<string>, n: nat, error: Error)
    requires AllParse(entries) && StoppedAt(m, c, done, at, entries, n, error)
    ensures error == ErrorOf(m, c, ip, entries)
  {
  }

  /** The loop over the entries, for one address. */
  method CreateForAddress(db: Panel, c: Common, ip: Ip, entries: seq<string>, ghost m: map<Id, Allocation>,
      ghost last: Id, ghost done: seq<Allocation>, ids: seq<Id>) returns (r: Result<seq<Id>, Error>, ghost stop: nat)
    requires db.Numbered() && (forall a | a in m :: a <= last)
    requires Progress(db, m, last, done, ids)
    modifies db`allocations, db`lastAllocation
    ensures db.Numbered() && db.lastAllocation >= old(db.lastAllocation)
    ensures r.Success? ==> AllParse(entries)
    ensures r.Success? ==>
      Progress(db, m, last, done + RowsAt(c, ip, Ports(entries)), r.value)
    ensures r.Failure? ==> StoppedAt(m, c, done, ip, entries, stop, r.error)
  {
    var ids' := ids;
    stop := 0;
    assert RowsSoFar(c, done, ip, entries, 0) == done;
    for n := 0 to |entries|
      invariant db.Numbered() && AllParse(entries[..n]) && db.lastAllocation >= old(db.lastAllocation)
      invariant Progress(db, m, last, RowsSoFar(c, done, ip, entries, n), ids')
    {
      var created := CreateEntry(db, c, ip, entries[n], m, last, RowsSoFar(c, done, ip, entries, n), ids');
      ParseStep(entries, n);
      if Block(entries[n]).Success? {
        SoFarStep(c, done, ip, entries, n);
      }
      if created.Failure? {
        return Failure(created.error), n;
      }
      ids' := created.value;
    }
    assert entries[..|entries|] == entries;
    return Success(ids'), 0;
  }

  /** The loop over the addresses. */
  method CreateAll(db: Panel, c: Common, addresses: seq<Ip>, entries: seq<string>) returns (r: Result<seq<Id>, Error>)
    requires db.Numbered() && addresses != []
    modifies db`allocations, db`lastAllocation
    ensures db.Numbered() && db.lastAllocation >= old(db.lastAllocation)
    ensures r.Success? <==> Accepted(old(db.allocations), c, addresses, entries)
    ensures r.Success? ==> var rows := Rows(c, addresses, Ports(entries));
      db.allocations == Inserted(old(db.allocations), old(db.lastAllocation), rows)
      && r.value == NewIds(old(db.lastAllocation), |rows|)
    ensures r.Failure? ==> r.error == ErrorOf(old(db.allocations), c, addresses[0], entries)
  {
    ghost var m, last := db.allocations, db.lastAllocation;
    ghost var done: seq<Allocation> := [];
    var ids: seq<Id> := [];
    for i := 0 to |addresses|
      invariant db.Numbered()
      invariant i == 0 ==> done == []
      invariant i > 0 ==> AllParse(entries) && done == Rows(c, addresses[..i], Ports(entries))
      invariant Progress(db, m, last, done, ids) && last <= db.lastAllocation
    {
      ghost var stop;
      var created;
      created, stop := CreateForAddress(db, c, addresses[i], entries, m, last, done, ids);
      if AllParse(entries) {
        assert done == Rows(c, addresses[..i], Ports(entries));
        RowsStep(c, addresses, Ports(entries), i);
      }
      if created.Failure? {
        if Accepted(m, c, addresses, entries) {
          SoFarAcceptable(m, c, addresses, entries, i, stop + 1);
        }
        if i == 0 {
          FirstErrorExplained(m, c, addresses[0], entries, stop, created.error);
        } else {
          LaterErrorExplained(m, c, addresses[0], done, addresses[i], entries, stop, created.error);
        }
        return created;
      }
      ids := created.value;
      done := done + RowsAt(c, addresses[i], Ports(entries));
    }
    assert addresses[..|addresses|] == addresses;
    return Success(ids);
  }

  /** Why a call fails, if it does. */
  ghost function Reason(m: map<Id, Allocation>, c: Common, address: Address, entries: seq<string>): Error {
    match Addresses(address)
    case Failure(error) => error
    case Success(ips) => ErrorOf(m, c, ips[0], entries)
  }

  /** The tables after a successful call. */
  function Assigned(t: Tables, last: Id, c: Common, addresses: seq<Ip>, entries: seq<string>): Tables
    requires AllParse(entries)
  {
    t.(allocations := Inserted(t.allocations, last, Rows(c, addresses, Ports(entries))))
  }

  /**
    `AssignmentService::handle`: all rows or none. It succeeds exactly when the
    address is usable and everything is accepted.
  */
  method Handle(db: Panel, address: Address, entries: seq<string>, c: Common) returns (r: Result<seq<Id>, Error>)
    requires db.Valid() && (c.owner.Some? ==> c.owner.value in db.servers)
    modifies db
    ensures db.Valid()
    ensures r.Success? <==>
      (Addresses(address).Success? && Accepted(old(db.allocations), c, Addresses(address).value, entries))
    ensures r.Success? ==>
      && db.View() == Assigned(old(db.View()), old(db.lastAllocation), c, Addresses(address).value, entries)
      && r.value == NewIds(old(db.lastAllocation), |Rows(c, Addresses(address).value, Ports(entries))|)
    ensures r.Failure? ==> db.View() == old(db.View())
    ensures r.Failure? ==> r.error == Reason(old(db.allocations), c, address, entries)
    ensures db.lastServer == old(db.lastServer) && db.lastTransfer == old(db.lastTransfer)
  {
    var parsed := Addresses(address);
    if parsed.Failure? {
      return Failure(parsed.error);
    }
    var saved := db.View();
    ghost var last := db.lastAllocation;
    r := CreateAll(db, c, parsed.value, entries);
    if r.Failure? {
      db.Rollback(saved);
      return;
    }
    RowsHaveOwner(c, parsed.value, Ports(entries));
    InsertKeepsInv(saved, last, Rows(c, parsed.value, Ports(entries)));
  }

  lemma {:induction false} RowsHaveOwner(c: Common, addresses: seq<Ip>, ports: seq<int>)
    ensures forall k | 0 <= k < |Rows(c, addresses, ports)| :: Rows(c, addresses, ports)[k].owner == c.owner
  {
    if addresses != [] {
      RowsHaveOwner(c, addresses[..|addresses| - 1], ports);
    }
  }

  // ---------------------------------------------------------------------
  // What a success means
  // ---------------------------------------------------------------------

  lemma {:induction false} RowsCount(c: Common, addresses: seq<Ip>, ports: seq<int>)
    ensures |Rows(c, addresses, ports)| == |addresses| * |ports|
  {
    if addresses != [] {
      RowsCount(c, addresses[..|addresses| - 1], ports);
      assert (|addresses| - 1) * |ports| + |ports| == |addresses| * |ports|;
    }
  }

  lemma IndexBound(i: nat, j: nat, n: nat, w: nat)
    requires i < n && j < w
    ensures 0 <= i * w + j < n * w
  {
    assert (i + 1) * w <= n * w;
  }

  /** Row `i * |ports| + j` is for address `i` and port `j`. */
  lemma {:induction false} RowsAreAddressMajor(c: Common, addresses: seq<Ip>, ports: seq<int>, i: nat, j: nat)
    requires i < |addresses| && j < |ports|
    ensures i * |ports| + j < |Rows(c, addresses, ports)|
    ensures Rows(c, addresses, ports)[i * |ports| + j] == RowFor(c, addresses[i], ports[j])
    decreases |addresses|
  {
    var init := addresses[..|addresses| - 1];
    RowsCount(c, init, ports);
    RowsCount(c, addresses, ports);
    IndexBound(i, j, |addresses|, |ports|);
    if i < |init| {
      RowsAreAddressMajor(c, init, ports, i, j);
    }
  }

  /** The sum of the block sizes. */
  function BlockSizes(entries: seq<string>): nat
    requires AllParse(entries)
  {
    if entries == [] then 0 else BlockSizes(entries[..|entries| - 1]) + |Block(entries[|entries| - 1]).value|
  }

  lemma {:induction false} PortsCount(entries: seq<string>)
    requires AllParse(entries)
    ensures |Ports(entries)| == BlockSizes(entries) <= PORT_RANGE_LIMIT * |entries|
    ensures forall k | 0 <= k < |entries| :: 1 <= |Block(entries[k]).value| <= PORT_RANGE_LIMIT
  {
    if entries != [] {
      PortsCount(entries[..|entries| - 1]);
      assert forall k | 0 <= k < |entries| - 1 :: entries[..|entries| - 1][k] == entries[k];
    }
  }

  lemma {:induction false} Pow2Grows(a: nat, b: nat)
    requires a <= b
    ensures Pow2(a) <= Pow2(b)
    decreases b - a
  {
    if a < b {
      Pow2Grows(a, b - 1);
    }
  }

  lemma Pow2Of7()
    ensures Pow2(7) == 128
  {
    assert Pow2(4) == 16;
    assert Pow2(6) == 64;
  }

  /** A usable address stands for at most 128 distinct addresses. */
  lemma AtMost128Addresses(address: Address)
    requires Addresses(address).Success?
    ensures var ips := Addresses(address).value;
      1 <= |ips| <= 128 && forall i, j | 0 <= i < j < |ips| :: ips[i] != ips[j]
  {
    if address.Cidr? {
      Pow2Grows(32 - ToInt(address.bits), 7);
      Pow2Of7();
    }
  }

  /** `m'` is `m` with new rows under exactly these identifiers, all of them with a port in range. */
  ghost predicate AddsExactly(m: map<Id, Allocation>, m': map<Id, Allocation>, ids: seq<Id>) {
    && (forall a | a in m :: a in m' && m'[a] == m[a])
    && (forall a | a in m' && a !in m :: a in ids)
    && (forall k | 0 <= k < |ids| :: ids[k] in m' && ids[k] !in m && 1024 <= m'[ids[k]].port <= 65535)
    && (forall j, k | 0 <= j < k < |ids| :: ids[j] != ids[k])
  }

  /**
    A successful call adds exactly |addresses| times the sum of the block sizes
    new rows with ports in range and keeps all other rows and the unique key.
  */
  lemma BulkAssignmentResult(m: map<Id, Allocation>, last: Id, c: Common, ips: seq<Ip>, entries: seq<string>)
    requires UniqueKeys(m) && (forall a | a in m :: a <= last) && Accepted(m, c, ips, entries)
    ensures var rows := Rows(c, ips, Ports(entries));
      && |rows| == |ips| * BlockSizes(entries)
      && UniqueKeys(Inserted(m, last, rows))
      && AddsExactly(m, Inserted(m, last, rows), NewIds(last, |rows|))
  {
    var rows := Rows(c, ips, Ports(entries));
    RowsCount(c, ips, Ports(entries));
    PortsCount(entries);
    InsertedUnique(m, last, rows);
    InsertedExactly(m, last, rows);
  }

  lemma InsertedExactly(m: map<Id, Allocation>, last: Id, rows: seq<Allocation>)
    requires (forall a | a in m :: a <= last) && Acceptable(m, rows)
    ensures AddsExactly(m, Inserted(m, last, rows), NewIds(last, |rows|))
  {
    var m', ids := Inserted(m, last, rows), NewIds(last, |rows|);
    InsertedKeys(m, last, rows);
    forall a | a in m' && a !in m
      ensures a in ids
    {
      assert ids[a - last - 1] == a;
    }
  }

  /** The row behind place `k` of an answer. */
  function RowAt(m: map<Id, Allocation>, ids: seq<Id>, k: nat): Option<Allocation> {
    if k < |ids| && ids[k] in m then Some(m[ids[k]]) else None
  }

  lemma InsertedAt(m: map<Id, Allocation>, last: Id, rows: seq<Allocation>, k: nat)
    requires k < |rows|
    ensures RowAt(Inserted(m, last, rows), NewIds(last, |rows|), k) == Some(rows[k])
  {
    InsertedKeys(m, last, rows);
  }

  /** The identifier at place `i * |ports| + j` of the answer is that of address `i` and port `j`. */
  lemma BulkAssignmentOrder(m: map<Id, Allocation>, last: Id, c: Common, ips: seq<Ip>, ports: seq<int>, i: nat, j: nat)
    requires i < |ips| && j < |ports|
    ensures var rows := Rows(c, ips, ports);
      RowAt(Inserted(m, last, rows), NewIds(last, |rows|), i * |ports| + j)
        == Some(Allocation(c.node, ips[i], ports[j], c.aliasName, c.owner, None))
  {
    RowsAreAddressMajor(c, ips, ports, i, j);
    InsertedAt(m, last, Rows(c, ips, ports), i * |ports| + j);
  }
}
