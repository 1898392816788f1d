/** The lease allocator of `ipam.rs` with the transaction wrappers of `persistence.rs`. */
module Leases {
  import opened Wrappers
  import opened Subnet

  const MAX_MAC_ATTEMPTS: nat := 8

  datatype Row = Row(vmId: nat, ipv4: nat, mac: nat, microNetworkId: nat, active: bool)

  /** The `network_leases` table and the `user_version` counter. */
  datatype Table = Table(rows: seq<Row>, revision: nat)

  datatype Lease = Lease(vmId: nat, ipv4: nat, mac: nat)

  datatype IpamError =
    | Database
    | PoolExhausted(network: nat, prefix: nat)
    | MacPoolExhausted
    | AlreadyLeased(vmId: nat)
    | NotLeased(vmId: nat)

  /** The database calls a transaction makes; any of them may fail. */
  datatype Statement =
    | ReadLease | ReleaseRow | CheckLease | ReadIps | ReadMacs | InsertRow | BumpRevision | Commit

  type Faults = set<Statement>
  type MacHash = (nat, nat) -> nat

  // ----- Specification of one statement each

  predicate HoldsLease(rows: seq<Row>, vmId: nat) {
    exists i :: 0 <= i < |rows| && rows[i].active && rows[i].vmId == vmId
  }

  function ActiveIps(rows: seq<Row>): set<nat> {
    set i | 0 <= i < |rows| && rows[i].active :: rows[i].ipv4
  }

  function ActiveMacs(rows: seq<Row>): set<nat> {
    set i | 0 <= i < |rows| && rows[i].active :: rows[i].mac
  }

  /** The row `SELECT ... WHERE vm_id = ? AND released_at IS NULL` returns first. */
  function ActiveRow(rows: seq<Row>, vmId: nat): (found: Option<Row>)
    ensures found.None? <==> !HoldsLease(rows, vmId)
    ensures found.Some? ==> found.value in rows && found.value.active && found.value.vmId == vmId
  {
    if rows == [] then None
    else if rows[0].active && rows[0].vmId == vmId then Some(rows[0])
    else
      assert rows == rows[..1] + rows[1..];
      ActiveRow(rows[1..], vmId)
  }

  function Released(rows: seq<Row>, vmId: nat): seq<Row> {
    seq(|rows|, i requires 0 <= i < |rows| =>
      if rows[i].active && rows[i].vmId == vmId then rows[i].(active := false) else rows[i])
  }

  /** Lowest address of `lo..hi` outside `unavailable`. */
  function LowestFree(lo: nat, hi: nat, unavailable: set<nat>): (free: Option<nat>)
    ensures free.None? <==> forall a :: lo <= a < hi ==> a in unavailable
    ensures free.Some? ==> lo <= free.value < hi && free.value !in unavailable
    ensures free.Some? ==> forall a :: lo <= a < free.value ==> a in unavailable
    decreases hi - lo
  {
    if lo >= hi then None
    else if lo !in unavailable then Some(lo)
    else LowestFree(lo + 1, hi, unavailable)
  }

  lemma SearchStep(lo: nat, hi: nat, taken: set<nat>, excluded: set<nat>)
    requires lo < hi
    ensures LowestFree(lo, hi, taken + excluded) ==
            if lo !in taken && lo !in excluded then Some(lo) else LowestFree(lo + 1, hi, taken + excluded)
  {
  }

  function FirstFreeMac(derive: MacHash, vmId: nat, salt: nat, taken: set<nat>): (free: Option<nat>)
    requires salt <= MAX_MAC_ATTEMPTS
    ensures free.None? <==> forall k :: salt <= k < MAX_MAC_ATTEMPTS ==> derive(vmId, k) in taken
    ensures free.Some? ==> free.value !in taken
    ensures free.Some? ==>
              exists k :: salt <= k < MAX_MAC_ATTEMPTS && free.value == derive(vmId, k)
                && forall j :: salt <= j < k ==> derive(vmId, j) in taken
    decreases MAX_MAC_ATTEMPTS - salt
  {
    if salt == MAX_MAC_ATTEMPTS then None
    else if derive(vmId, salt) !in taken then Some(derive(vmId, salt))
    else FirstFreeMac(derive, vmId, salt + 1, taken)
  }

  /** The three partial unique indexes. */
  predicate IndexesAllow(rows: seq<Row>, row: Row) {
    !HoldsLease(rows, row.vmId) && row.ipv4 !in ActiveIps(rows) && row.mac !in ActiveMacs(rows)
  }

  // ----- Specification of the operations inside one open transaction

  function AllocateInTx(t: Table, derive: MacHash, vmId: nat, subnet: SubnetSpec,
                        excluded: set<nat>, faults: Faults): (Table, Result<Lease, IpamError>)
    requires subnet.Valid()
  {
    if CheckLease in faults then (t, Err(Database))
    else if HoldsLease(t.rows, vmId) then (t, Err(AlreadyLeased(vmId)))
    else if ReadIps in faults then (t, Err(Database))
    else
      var ip := LowestFree(subnet.HostStart(), subnet.Broadcast(), ActiveIps(t.rows) + excluded);
      if ip.None? then (t, Err(PoolExhausted(subnet.network, subnet.prefix)))
      else if ReadMacs in faults then (t, Err(Database))
      else
        var mac := FirstFreeMac(derive, vmId, 0, ActiveMacs(t.rows));
        if mac.None? then (t, Err(MacPoolExhausted))
        else
          var row := Row(vmId, ip.value, mac.value, subnet.microNetworkId, true);
          if InsertRow in faults || !IndexesAllow(t.rows, row) then (t, Err(Database))
          else
            var inserted := t.(rows := t.rows + [row]);
            if BumpRevision in faults then (inserted, Err(Database))
            else (inserted.(revision := t.revision + 1), Ok(Lease(vmId, ip.value, mac.value)))
  }

  function ReleaseInTx(t: Table, vmId: nat, faults: Faults): (Table, Result<(), IpamError>) {
    if ReleaseRow in faults then (t, Err(Database))
    else if !HoldsLease(t.rows, vmId) then (t, Err(NotLeased(vmId)))
    else (t.(rows := Released(t.rows, vmId)), Ok(()))
  }

  function RotateInTx(t: Table, derive: MacHash, vmId: nat, subnet: SubnetSpec,
                      unavailable: set<nat>, faults: Faults): (Table, Result<Lease, IpamError>)
    requires subnet.Valid()
  {
    if ReadLease in faults then (t, Err(Database))
    else
      var current := ActiveRow(t.rows, vmId);
      if current.None? then (t, Err(NotLeased(vmId)))
      else
        var (freed, released) := ReleaseInTx(t, vmId, faults);
        if released.Err? then (freed, Err(released.error))
        else AllocateInTx(freed, derive, vmId, subnet, unavailable + {current.value.ipv4}, faults)
  }

  // ----- The store

  /** The shared connection: fields are what the open transaction sees. */
  class LeaseStore {
    const derive: MacHash
    var rows: seq<Row>
    var revision: nat

    constructor (derive: MacHash)
      ensures this.derive == derive && View() == Table([], 0)
    {
      this.derive := derive;
      rows, revision := [], 0;
    }

    ghost function View(): Table
      reads this
    {
      Table(rows, revision)
    }

    method FindFreeAddress(subnet: SubnetSpec, taken: set<nat>, excluded: set<nat>) returns (free: Option<nat>)
      requires subnet.Valid()
      ensures free == LowestFree(subnet.HostStart(), subnet.Broadcast(), taken + excluded)
    {
      var hosts, start, stop := subnet.HostAddresses(), subnet.HostStart(), subnet.Broadcast();
      for i := 0 to |hosts|
        invariant LowestFree(start + i, stop, taken + excluded) == LowestFree(start, stop, taken + excluded)
      {
        SearchStep(start + i, stop, taken, excluded);
        assert hosts[i] == start + i;
        if hosts[i] !in taken && hosts[i] !in excluded {
          return Some(hosts[i]);
        }
      }
      return None;
    }

    method FindFreeMac(vmId: nat, taken: set<nat>) returns (free: Option<nat>)
      ensures free == FirstFreeMac(derive, vmId, 0, taken)
    {
      for salt := 0 to MAX_MAC_ATTEMPTS
        invariant FirstFreeMac(derive, vmId, salt, taken) == FirstFreeMac(derive, vmId, 0, taken)
      {
        var candidate := derive(vmId, salt);
        if candidate !in taken {
          return Some(candidate);
        }
      }
      return None;
    }

    method AllocateExcluding(vmId: nat, subnet: SubnetSpec, excluded: set<nat>, faults: Faults)
      returns (r: Result<Lease, IpamError>)
      requires subnet.Valid()
      modifies this
      ensures (View(), r) == AllocateInTx(old(View()), derive, vmId, subnet, excluded, faults)
    {
      if CheckLease in faults { return Err(Database); }
      if HoldsLease(rows, vmId) { return Err(AlreadyLeased(vmId)); }
      if ReadIps in faults { return Err(Database); }
      var ip := FindFreeAddress(subnet, ActiveIps(rows), excluded);
      if ip.None? { return Err(PoolExhausted(subnet.network, subnet.prefix)); }
      if ReadMacs in faults { return Err(Database); }
      var mac := FindFreeMac(vmId, ActiveMacs(rows));
      if mac.None? { return Err(MacPoolExhausted); }
      var row := Row(vmId, ip.value, mac.value, subnet.microNetworkId, true);
      if InsertRow in faults || !IndexesAllow(rows, row) { return Err(Database); }
      rows := rows + [row];
      if BumpRevision in faults { return Err(Database); }
      revision := revision + 1;
      return Ok(Lease(vmId, ip.value, mac.value));
    }

    method ReleaseActive(vmId: nat, faults: Faults) returns (r: Result<(), IpamError>)
      modifies this
      ensures (View(), r) == ReleaseInTx(old(View()), vmId, faults)
    {
      if ReleaseRow in faults { return Err(Database); }
      if !HoldsLease(rows, vmId) { return Err(NotLeased(vmId)); }
      rows := Released(rows, vmId);
      return Ok(());
    }

    method Rotate(vmId: nat, subnet: SubnetSpec, unavailable: set<nat>, faults: Faults)
      returns (r: Result<Lease, IpamError>)
      requires subnet.Valid()
      modifies this
      ensures (View(), r) == RotateInTx(old(View()), derive, vmId, subnet, unavailable, faults)
    {
      if ReadLease in faults { return Err(Database); }
      var current := ActiveRow(rows, vmId);
      if current.None? { return Err(NotLeased(vmId)); }
      var released := ReleaseActive(vmId, faults);
      if released.Err? { return Err(released.error); }
      r := AllocateExcluding(vmId, subnet, unavailable + {current.value.ipv4}, faults);
    }

    /** `Store::allocate_lease`: an early return drops the transaction, which rolls it back. */
    method AllocateLease(vmId: nat, subnet: SubnetSpec, faults: Faults) returns (r: Result<Lease, IpamError>)
      requires subnet.Valid()
      modifies this
      ensures (View(), ToAny(r)) == Execute(old(View()), derive, Allocate(vmId, subnet, faults))
      ensures r.Err? ==> View() == old(View())
    {
      var rows0, revision0 := rows, revision;
      r := AllocateExcluding(vmId, subnet, {}, faults);
      if r.Ok? && Commit in faults {
        r := Err(Database);
      }
      if r.Err? {
        rows, revision := rows0, revision0;
      }
    }

    method RotateLease(vmId: nat, subnet: SubnetSpec, unavailable: set<nat>, faults: Faults)
      returns (r: Result<Lease, IpamError>)
      requires subnet.Valid()
      modifies this
      ensures (View(), ToAny(r)) == Execute(old(View()), derive, RotateOp(vmId, subnet, unavailable, faults))
      ensures r.Err? ==> View() == old(View())
    {
      var rows0, revision0 := rows, revision;
      r := Rotate(vmId, subnet, unavailable, faults);
      if r.Ok? && Commit in faults {
        r := Err(Database);
      }
      if r.Err? {
        rows, revision := rows0, revision0;
      }
    }

    method ReleaseLease(vmId: nat, faults: Faults) returns (r: Result<(), IpamError>)
      modifies this
      ensures View() == Execute(old(View()), derive, Release(vmId, faults)).0
      ensures r.Ok? <==> Execute(old(View()), derive, Release(vmId, faults)).1.Ok?
      ensures r.Err? ==> View() == old(View()) && Execute(old(View()), derive, Release(vmId, faults)).1 == Err(r.error)
    {
      var rows0, revision0 := rows, revision;
      r := ReleaseActive(vmId, faults);
      if r.Ok? {
        if BumpRevision in faults || Commit in faults {
          r := Err(Database);
        } else {
          revision := revision + 1;
        }
      }
      if r.Err? {
        rows, revision := rows0, revision0;
      }
    }
  }

  // ----- Whole transactions and runs of them

  datatype Op =
    | Allocate(vmId: nat, subnet: SubnetSpec, faults: Faults)
    | RotateOp(vmId: nat, subnet: SubnetSpec, unavailable: set<nat>, faults: Faults)
    | Release(vmId: nat, faults: Faults)
  {
    predicate Valid() {
      !Release? ==> subnet.Valid()
    }
  }

  function ToAny(r: Result<Lease, IpamError>): Result<Option<Lease>, IpamError> {
    match r
    case Ok(lease) => Ok(Some(lease))
    case Err(e) => Err(e)
  }

  /** A transaction commits or leaves the table as it was. */
  function Execute(t: Table, derive: MacHash, op: Op): (Table, Result<Option<Lease>, IpamError>)
    requires op.Valid()
  {
    var (t', r) :=
      match op
      case Allocate(vmId, subnet, faults) =>
        var (a, lease) := AllocateInTx(t, derive, vmId, subnet, {}, faults);
        (a, ToAny(lease))
      case RotateOp(vmId, subnet, unavailable, faults) =>
        var (a, lease) := RotateInTx(t, derive, vmId, subnet, unavailable, faults);
        (a, ToAny(lease))
      case Release(vmId, faults) =>
        var (a, released) := ReleaseInTx(t, vmId, faults);
        if released.Err? then (a, Err(released.error))
        else if BumpRevision in faults then (a, Err(Database))
        else (a.(revision := a.revision + 1), Ok(None));
    if r.Err? then (t, r)
    else if Commit in op.faults then (t, Err(Database))
    else (t', r)
  }

  ghost predicate Sound(t: Table, derive: MacHash) {
    && (forall i, j :: 0 <= i < j < |t.rows| && t.rows[i].active && t.rows[j].active ==>
          && t.rows[i].vmId != t.rows[j].vmId
          && t.rows[i].ipv4 != t.rows[j].ipv4
          && t.rows[i].mac != t.rows[j].mac)
    && (forall i :: 0 <= i < |t.rows| && t.rows[i].active ==> DerivedMac(derive, t.rows[i]))
  }

  ghost predicate DerivedMac(derive: MacHash, row: Row) {
    exists k :: 0 <= k < MAX_MAC_ATTEMPTS && row.mac == derive(row.vmId, k)
  }

  /** History is append-only: a row once written changes only by being released. */
  ghost predicate Extends(before: seq<Row>, after: seq<Row>) {
    && |before| <= |after|
    && forall i :: 0 <= i < |before| ==> after[i] == before[i] || after[i] == before[i].(active := false)
  }

  lemma FirstFreeHost(subnet: SubnetSpec, taken: set<nat>, excluded: set<nat>)
    requires subnet.Valid()
    ensures
      var ip := LowestFree(subnet.HostStart(), subnet.Broadcast(), taken + excluded);
      && (ip.None? <==> forall a: nat :: subnet.IsHost(a) ==> a in taken || a in excluded)
      && (ip.Some? ==>
            && subnet.IsHost(ip.value) && ip.value !in taken && ip.value !in excluded
            && forall a: nat :: subnet.IsHost(a) && a < ip.value ==> a in taken || a in excluded)
  {
    var free := taken + excluded;
    var ip := LowestFree(subnet.HostStart(), subnet.Broadcast(), free);
    forall a: nat | subnet.IsHost(a) && (ip.None? || a < ip.value) ensures a in taken || a in excluded {
      assert a in free;
    }
    if ip.Some? {
      assert subnet.IsHost(ip.value) && ip.value !in free;
    }
  }

  /** The MAC of the lowest salt that no active row has. */
  ghost predicate MacIsFirstFree(rows: seq<Row>, derive: MacHash, vmId: nat, mac: nat) {
    && mac !in ActiveMacs(rows)
    && exists k :: 0 <= k < MAX_MAC_ATTEMPTS && mac == derive(vmId, k)
         && forall j :: 0 <= j < k ==> derive(vmId, j) in ActiveMacs(rows)
  }

  /** Each conclusion of a committed or failed allocation inside a transaction. */
  lemma AllocateOutcome(t: Table, derive: MacHash, vmId: nat, subnet: SubnetSpec, excluded: set<nat>)
    requires subnet.Valid()
    ensures
      var (t', r) := AllocateInTx(t, derive, vmId, subnet, excluded, {});
      var full := forall a: nat :: subnet.IsHost(a) ==> a in ActiveIps(t.rows) || a in excluded;
      var noMac := forall k :: 0 <= k < MAX_MAC_ATTEMPTS ==> derive(vmId, k) in ActiveMacs(t.rows);
      && (r == Err(AlreadyLeased(vmId)) <==> HoldsLease(t.rows, vmId))
      && (r == Err(PoolExhausted(subnet.network, subnet.prefix)) <==> !HoldsLease(t.rows, vmId) && full)
      && (r == Err(MacPoolExhausted) <==> !HoldsLease(t.rows, vmId) && !full && noMac)
      && (r.Ok? <==> !HoldsLease(t.rows, vmId) && !full && !noMac)
      && (r.Ok? ==>
            && r.value.vmId == vmId && subnet.IsHost(r.value.ipv4)
            && MacIsFirstFree(t.rows, derive, vmId, r.value.mac)
            && r.value.ipv4 !in ActiveIps(t.rows) && r.value.ipv4 !in excluded
            && (forall a: nat :: subnet.IsHost(a) && a < r.value.ipv4 ==> a in ActiveIps(t.rows) || a in excluded)
            && t' == Table(t.rows + [Row(vmId, r.value.ipv4, r.value.mac, subnet.microNetworkId, true)],
                           t.revision + 1))
  {
    FirstFreeHost(subnet, ActiveIps(t.rows), excluded);
  }

  // ----- Every transaction keeps the table sound

  lemma ReleasedFacts(rows: seq<Row>, vmId: nat)
    ensures !HoldsLease(Released(rows, vmId), vmId)
    ensures Extends(rows, Released(rows, vmId))
    ensures forall i :: 0 <= i < |rows| && rows[i].vmId != vmId ==> Released(rows, vmId)[i] == rows[i]
    ensures ActiveIps(Released(rows, vmId)) <= ActiveIps(rows)
    ensures ActiveMacs(Released(rows, vmId)) <= ActiveMacs(rows)
  {
  }

  lemma ReleasedSound(t: Table, derive: MacHash, vmId: nat)
    requires Sound(t, derive)
    ensures Sound(t.(rows := Released(t.rows, vmId)), derive)
  {
    var rows := Released(t.rows, vmId);
    forall i | 0 <= i < |rows| && rows[i].active
      ensures DerivedMac(derive, rows[i])
    {
      assert rows[i] == t.rows[i];
    }
  }

  /** An allocation adds at most one row, at the end, for an address of its own subnet. */
  lemma AllocateInTxSound(t: Table, derive: MacHash, vmId: nat, subnet: SubnetSpec, excluded: set<nat>, faults: Faults)
    requires subnet.Valid() && Sound(t, derive)
    ensures
      var (t', r) := AllocateInTx(t, derive, vmId, subnet, excluded, faults);
      && Sound(t', derive)
      && Extends(t.rows, t'.rows)
      && (r.Ok? ==>
            && subnet.IsHost(r.value.ipv4)
            && t' == Table(t.rows + [Row(vmId, r.value.ipv4, r.value.mac, subnet.microNetworkId, true)],
                           t.revision + 1))
  {
    var (t', r) := AllocateInTx(t, derive, vmId, subnet, excluded, faults);
    if t'.rows != t.rows {
      var row := t'.rows[|t.rows|];
      assert t'.rows == t.rows + [row];
      assert DerivedMac(derive, row);
      forall i | 0 <= i < |t.rows| && t.rows[i].active
        ensures t.rows[i].vmId != row.vmId && t.rows[i].ipv4 != row.ipv4 && t.rows[i].mac != row.mac
      {
        assert t.rows[i].ipv4 in ActiveIps(t.rows) && t.rows[i].mac in ActiveMacs(t.rows);
      }
    }
  }

  /** The operation that put this row's address in place drew it from its own subnet. */
  ghost predicate DrawnBy(row: Row, op: Op)
    requires op.Valid()
  {
    && !op.Release?
    && row.vmId == op.vmId && row.microNetworkId == op.subnet.microNetworkId
    && op.subnet.IsHost(row.ipv4)
  }

  /** What one transaction may do to the table. */
  ghost predicate Advances(t: Table, t': Table, derive: MacHash, op: Op, ok: bool)
    requires op.Valid()
  {
    && Sound(t', derive)
    && Extends(t.rows, t'.rows)
    && (!ok ==> t' == t)
    && (ok ==> t'.revision == t.revision + 1)
    && (|t'.rows| == |t.rows|
        || (ok && |t'.rows| == |t.rows| + 1 && t'.rows[|t.rows|].active && DrawnBy(t'.rows[|t.rows|], op)))
  }

  lemma AllocateSound(t: Table, derive: MacHash, op: Op)
    requires op.Allocate? && op.Valid() && Sound(t, derive)
    ensures Advances(t, Execute(t, derive, op).0, derive, op, Execute(t, derive, op).1.Ok?)
  {
    AllocateInTxSound(t, derive, op.vmId, op.subnet, {}, op.faults);
  }

  lemma ReleaseSound(t: Table, derive: MacHash, op: Op)
    requires op.Release? && Sound(t, derive)
    ensures Advances(t, Execute(t, derive, op).0, derive, op, Execute(t, derive, op).1.Ok?)
  {
    ReleasedFacts(t.rows, op.vmId);
    ReleasedSound(t, derive, op.vmId);
  }

  lemma RotateSound(t: Table, derive: MacHash, op: Op)
    requires op.RotateOp? && op.Valid() && Sound(t, derive)
    ensures Advances(t, Execute(t, derive, op).0, derive, op, Execute(t, derive, op).1.Ok?)
  {
    var current := ActiveRow(t.rows, op.vmId);
    if current.Some? {
      ReleasedFacts(t.rows, op.vmId);
      ReleasedSound(t, derive, op.vmId);
      var freed, excluded := t.(rows := Released(t.rows, op.vmId)), op.unavailable + {current.value.ipv4};
      AllocateInTxSound(freed, derive, op.vmId, op.subnet, excluded, op.faults);
      var (after, _) := AllocateInTx(freed, derive, op.vmId, op.subnet, excluded, op.faults);
      ExtendsTransitive(t.rows, freed.rows, after.rows);
    }
  }

  lemma ExecuteSound(t: Table, derive: MacHash, op: Op)
    requires op.Valid() && Sound(t, derive)
    ensures Advances(t, Execute(t, derive, op).0, derive, op, Execute(t, derive, op).1.Ok?)
  {
    match op
    case Allocate(_, _, _) => AllocateSound(t, derive, op);
    case Release(_, _) => ReleaseSound(t, derive, op);
    case RotateOp(_, _, _, _) => RotateSound(t, derive, op);
  }

  // ----- Runs

  ghost predicate ValidOps(ops: seq<Op>) {
    forall i :: 0 <= i < |ops| ==> ops[i].Valid()
  }

  function Run(derive: MacHash, ops: seq<Op>): Table
    requires ValidOps(ops)
  {
    if ops == [] then Table([], 0)
    else Execute(Run(derive, ops[..|ops| - 1]), derive, ops[|ops| - 1]).0
  }

  function CommittedChanges(derive: MacHash, ops: seq<Op>): nat
    requires ValidOps(ops)
  {
    if ops == [] then 0
    else
      var before := ops[..|ops| - 1];
      CommittedChanges(derive, before) +
      if Execute(Run(derive, before), derive, ops[|ops| - 1]).1.Ok? then 1 else 0
  }

  /** After any sequence of committed and rolled-back transactions, over any subnets: one
      active row per VM, distinct active addresses, distinct active MACs, and a revision that
      counts the committed changes. */
  lemma {:induction false} RunSound(derive: MacHash, ops: seq<Op>)
    requires ValidOps(ops)
    ensures Sound(Run(derive, ops), derive)
    ensures Run(derive, ops).revision == CommittedChanges(derive, ops)
  {
    if ops != [] {
      var before := ops[..|ops| - 1];
      RunSound(derive, before);
      ExecuteSound(Run(derive, before), derive, ops[|ops| - 1]);
    }
  }

  /** The operation commits after `before`, and its row, an address drawn from its own subnet,
      becomes row `i`. */
  ghost predicate Appends(derive: MacHash, before: seq<Op>, op: Op, i: nat, row: Row)
    requires ValidOps(before) && op.Valid()
  {
    var t := Run(derive, before);
    var (t', r) := Execute(t, derive, op);
    r.Ok? && i == |t.rows| && |t'.rows| == i + 1 && t'.rows[i] == row && DrawnBy(row, op)
  }

  ghost predicate AppendedBy(derive: MacHash, ops: seq<Op>, k: nat, i: nat, row: Row) {
    k < |ops| && ValidOps(ops[..k]) && ops[k].Valid() && Appends(derive, ops[..k], ops[k], i, row)
  }

  /** Every row of the table, released or not, was appended by a committed operation. */
  lemma {:induction false} RowAppended(derive: MacHash, ops: seq<Op>, i: nat) returns (k: nat)
    requires ValidOps(ops) && i < |Run(derive, ops).rows|
    ensures AppendedBy(derive, ops, k, i, Run(derive, ops).rows[i].(active := true))
  {
    var n := |ops| - 1;
    var before := ops[..n];
    RunSound(derive, before);
    ExecuteSound(Run(derive, before), derive, ops[n]);
    if i < |Run(derive, before).rows| {
      k := RowAppended(derive, before, i);
      assert before[..k] == ops[..k];
    } else {
      k := n;
    }
  }

  /** So every active address was drawn by the committed operation that put its row in the
      table, and lies strictly between gateway and broadcast of that operation's subnet, and
      inside its block, exactly when the gateway does not wrap; past that, only for a network
      of 255.255.255.255 whose block the address is in. */
  lemma ActiveAddressesAreAssignable(derive: MacHash, ops: seq<Op>, i: nat) returns (k: nat)
    requires ValidOps(ops)
    requires i < |Run(derive, ops).rows| && Run(derive, ops).rows[i].active
    ensures AppendedBy(derive, ops, k, i, Run(derive, ops).rows[i])
    ensures
      var subnet, address := ops[k].subnet, Run(derive, ops).rows[i].ipv4;
      StrictlyInside(subnet, address) <==>
        subnet.GatewayFits() || (subnet.network == 0xFFFF_FFFF && subnet.Base() <= address)
  {
    k := RowAppended(derive, ops, i);
    HostInsideExactly(ops[k].subnet, Run(derive, ops).rows[i].ipv4);
  }

  lemma {:induction false} HistoryIsAppendOnly(derive: MacHash, ops: seq<Op>, later: seq<Op>)
    requires ValidOps(ops) && ValidOps(ops + later)
    ensures Extends(Run(derive, ops).rows, Run(derive, ops + later).rows)
    ensures Run(derive, ops).revision <= Run(derive, ops + later).revision
    decreases |later|
  {
    if later == [] {
      assert ops + later == ops;
    } else {
      var init, last := later[..|later| - 1], later[|later| - 1];
      assert ops + later == ops + init + [last];
      OneMoreExtends(derive, ops + init, last);
      HistoryIsAppendOnly(derive, ops, init);
      ExtendsTransitive(Run(derive, ops).rows, Run(derive, ops + init).rows, Run(derive, ops + init + [last]).rows);
    }
  }

  lemma OneMoreExtends(derive: MacHash, ops: seq<Op>, last: Op)
    requires ValidOps(ops + [last])
    ensures ValidOps(ops) && Extends(Run(derive, ops).rows, Run(derive, ops + [last]).rows)
    ensures Run(derive, ops).revision <= Run(derive, ops + [last]).revision
  {
    var all := ops + [last];
    assert all[..|ops|] == ops && all[|ops|] == last;
    assert forall i :: 0 <= i < |ops| ==> ops[i] == all[i];
    RunSound(derive, ops);
    ExecuteSound(Run(derive, ops), derive, last);
  }

  lemma ExtendsTransitive(a: seq<Row>, b: seq<Row>, c: seq<Row>)
    requires Extends(a, b) && Extends(b, c)
    ensures Extends(a, c)
  {
  }

  // ----- Rotation

  /** Freeing a VM's own row gives back its address and MAC and nobody else's. */
  lemma ReleasedFreesOwn(t: Table, derive: MacHash, vmId: nat)
    requires Sound(t, derive) && HoldsLease(t.rows, vmId)
    ensures
      var own, rows := ActiveRow(t.rows, vmId).value, Released(t.rows, vmId);
      && ActiveIps(rows) + {own.ipv4} == ActiveIps(t.rows)
      && own.ipv4 !in ActiveIps(rows)
      && own.mac !in ActiveMacs(rows)
      && DerivedMac(derive, own)
  {
    var own, rows := ActiveRow(t.rows, vmId).value, Released(t.rows, vmId);
    var k :| 0 <= k < |t.rows| && t.rows[k] == own;
    assert DerivedMac(derive, t.rows[k]);
    forall i | 0 <= i < |rows| && rows[i].active
      ensures i != k && rows[i] == t.rows[i] && rows[i].mac != own.mac && rows[i].ipv4 != own.ipv4
    {
    }
    forall a | a in ActiveIps(t.rows)
      ensures a in ActiveIps(rows) + {own.ipv4}
    {
      var i :| 0 <= i < |t.rows| && t.rows[i].active && t.rows[i].ipv4 == a;
      if i != k {
        assert rows[i] == t.rows[i];
      }
    }
  }

  /** Releasing: it succeeds exactly when the VM holds a lease. Then every row of the VM is
      released, every other row is as it was, one change is counted, the VM holds nothing, and
      its address is free again, it alone. */
  lemma ReleaseOutcome(t: Table, derive: MacHash, vmId: nat)
    requires Sound(t, derive)
    ensures
      var (t', r) := Execute(t, derive, Release(vmId, {}));
      && (r.Ok? <==> HoldsLease(t.rows, vmId))
      && (r.Err? ==> r.error == NotLeased(vmId) && t' == t)
      && (r.Ok? ==>
            && r.value.None?
            && t'.revision == t.revision + 1
            && |t'.rows| == |t.rows|
            && (forall i :: 0 <= i < |t.rows| ==>
                  t'.rows[i] == if t.rows[i].vmId == vmId then t.rows[i].(active := false) else t.rows[i])
            && ActiveRow(t'.rows, vmId).None?
            && ActiveIps(t'.rows) == ActiveIps(t.rows) - {ActiveRow(t.rows, vmId).value.ipv4})
  {
    if HoldsLease(t.rows, vmId) {
      ReleasedFreesOwn(t, derive, vmId);
      ReleasedFacts(t.rows, vmId);
    }
  }

  /** A VM without a lease has nothing to rotate. */
  lemma RotateWithoutLease(t: Table, derive: MacHash, vmId: nat, subnet: SubnetSpec, unavailable: set<nat>)
    requires subnet.Valid() && !HoldsLease(t.rows, vmId)
    ensures Execute(t, derive, RotateOp(vmId, subnet, unavailable, {})) == (t, Err(NotLeased(vmId)))
  {
  }

  // ----- Database faults

  function StatementsOf(op: Op): Faults {
    match op
    case Allocate(_, _, _) => {CheckLease, ReadIps, ReadMacs, InsertRow, BumpRevision, Commit}
    case RotateOp(_, _, _, _) => {ReadLease, ReleaseRow, CheckLease, ReadIps, ReadMacs, InsertRow, BumpRevision, Commit}
    case Release(_, _) => {ReleaseRow, BumpRevision, Commit}
  }

  function Faultless(op: Op): Op {
    match op
    case Allocate(vmId, subnet, _) => Allocate(vmId, subnet, {})
    case RotateOp(vmId, subnet, unavailable, _) => RotateOp(vmId, subnet, unavailable, {})
    case Release(vmId, _) => Release(vmId, {})
  }

  /** A transaction commits exactly when it would without faults and no fault strikes one of its
      statements, and then does the same; otherwise the table is as it was, and the error is the
      database's or the one it would have met anyway. */
  lemma CommitsExactly(t: Table, derive: MacHash, op: Op)
    requires op.Valid()
    ensures
      var (t', r) := Execute(t, derive, op);
      var (clean, outcome) := Execute(t, derive, Faultless(op));
      && (r.Ok? <==> outcome.Ok? && op.faults !! StatementsOf(op))
      && (r.Ok? ==> t' == clean && r == outcome)
      && (r.Err? ==> t' == t && (r.error == Database || r == outcome))
  {
    match op
    case Allocate(vmId, subnet, faults) => AllocationFaults(t, derive, vmId, subnet, {}, faults);
    case Release(_, _) =>
    case RotateOp(vmId, subnet, unavailable, faults) => RotationFaults(t, derive, vmId, subnet, unavailable, faults);
  }

  lemma RotationFaults(
      t: Table, derive: MacHash, vmId: nat, subnet: SubnetSpec, unavailable: set<nat>, faults: Faults)
    requires subnet.Valid()
    ensures
      var (t', r) := RotateInTx(t, derive, vmId, subnet, unavailable, faults);
      var (clean, outcome) := RotateInTx(t, derive, vmId, subnet, unavailable, {});
      && (r.Ok? <==>
          outcome.Ok? && faults !! {ReadLease, ReleaseRow, CheckLease, ReadIps, ReadMacs, InsertRow, BumpRevision})
      && (r.Ok? ==> t' == clean && r == outcome)
      && (r.Err? ==> r.error == Database || r == outcome)
  {
    var current := ActiveRow(t.rows, vmId);
    if current.Some? {
      AllocationFaults(t.(rows := Released(t.rows, vmId)), derive, vmId, subnet,
                       unavailable + {current.value.ipv4}, faults);
    }
  }

  lemma AllocationFaults(
      t: Table, derive: MacHash, vmId: nat, subnet: SubnetSpec, excluded: set<nat>, faults: Faults)
    requires subnet.Valid()
    ensures
      var (t', r) := AllocateInTx(t, derive, vmId, subnet, excluded, faults);
      var (clean, outcome) := AllocateInTx(t, derive, vmId, subnet, excluded, {});
      && (r.Ok? <==> outcome.Ok? && faults !! {CheckLease, ReadIps, ReadMacs, InsertRow, BumpRevision})
      && (r.Ok? ==> t' == clean && r == outcome)
      && (r.Err? ==> r.error == Database || r == outcome)
  {
  }

  /** Rotating a VM that holds a lease: it moves to the lowest host address that nobody
      holds, that is not its old one and not unavailable, its old row stays as released
      history and every other row is unchanged; or there is no such address and nothing
      changes. Database faults aside, no other failure is possible: the MAC the VM gives
      up is always a candidate again. */
  lemma RotateOutcome(t: Table, derive: MacHash, vmId: nat, subnet: SubnetSpec, unavailable: set<nat>)
    requires subnet.Valid() && Sound(t, derive) && HoldsLease(t.rows, vmId)
    ensures
      var (t', r) := Execute(t, derive, RotateOp(vmId, subnet, unavailable, {}));
      var full := forall a: nat :: subnet.IsHost(a) ==> a in ActiveIps(t.rows) || a in unavailable;
      && (r.Err? <==> full)
      && (r.Err? ==> r.error == PoolExhausted(subnet.network, subnet.prefix) && t' == t)
      && (r.Ok? ==>
            && r.value.Some?
            && var lease := r.value.value;
            && lease.vmId == vmId
            && subnet.IsHost(lease.ipv4) && lease.ipv4 !in ActiveIps(t.rows) && lease.ipv4 !in unavailable
            && lease.ipv4 != ActiveRow(t.rows, vmId).value.ipv4
            && (forall a: nat :: subnet.IsHost(a) && a < lease.ipv4 ==> a in ActiveIps(t.rows) || a in unavailable)
            && t'.revision == t.revision + 1
            && |t'.rows| == |t.rows| + 1
            && t'.rows[|t.rows|] == Row(vmId, lease.ipv4, lease.mac, subnet.microNetworkId, true)
            && forall i :: 0 <= i < |t.rows| ==>
                 t'.rows[i] == if t.rows[i].vmId == vmId then t.rows[i].(active := false) else t.rows[i])
  {
    var own := ActiveRow(t.rows, vmId).value;
    var freed := t.(rows := Released(t.rows, vmId));
    ReleasedFacts(t.rows, vmId);
    ReleasedFreesOwn(t, derive, vmId);
    AllocateOutcome(freed, derive, vmId, subnet, unavailable + {own.ipv4});
    assert own.ipv4 in ActiveIps(t.rows);
  }

  // ----- Exhaustion, counted

  function CountActiveHosts(rows: seq<Row>, subnet: SubnetSpec): nat
    requires subnet.Valid()
  {
    if rows == [] then 0
    else
      var last := rows[|rows| - 1];
      CountActiveHosts(rows[..|rows| - 1], subnet) + if last.active && subnet.IsHost(last.ipv4) then 1 else 0
  }

  ghost function ActiveHosts(rows: seq<Row>, subnet: SubnetSpec): set<nat>
    requires subnet.Valid()
  {
    set a | a in ActiveIps(rows) && subnet.IsHost(a)
  }

  lemma {:induction false} CountIsCardinality(rows: seq<Row>, subnet: SubnetSpec)
    requires subnet.Valid()
    requires forall i, j :: 0 <= i < j < |rows| && rows[i].active && rows[j].active ==> rows[i].ipv4 != rows[j].ipv4
    ensures |ActiveHosts(rows, subnet)| == CountActiveHosts(rows, subnet)
  {
    if rows == [] {
      assert ActiveHosts(rows, subnet) == {};
    } else {
      var init, last := rows[..|rows| - 1], rows[|rows| - 1];
      CountIsCardinality(init, subnet);
      ActiveIpsOneMore(init, last);
      assert rows == init + [last];
      if last.active {
        assert last.ipv4 !in ActiveIps(init);
      }
      HostsOneMore(init, last, subnet);
    }
  }

  lemma ActiveIpsOneMore(rows: seq<Row>, last: Row)
    ensures ActiveIps(rows + [last]) == if last.active then ActiveIps(rows) + {last.ipv4} else ActiveIps(rows)
  {
    var all := rows + [last];
    forall a | a in ActiveIps(rows) || (last.active && a == last.ipv4) ensures a in ActiveIps(all) {
      if a in ActiveIps(rows) {
        var i :| 0 <= i < |rows| && rows[i].active && rows[i].ipv4 == a;
        assert all[i] == rows[i];
      } else {
        assert all[|rows|] == last;
      }
    }
  }

  lemma HostsOneMore(rows: seq<Row>, last: Row, subnet: SubnetSpec)
    requires subnet.Valid()
    requires ActiveIps(rows + [last]) == if last.active then ActiveIps(rows) + {last.ipv4} else ActiveIps(rows)
    ensures ActiveHosts(rows + [last], subnet) ==
            if last.active && subnet.IsHost(last.ipv4) then ActiveHosts(rows, subnet) + {last.ipv4}
            else ActiveHosts(rows, subnet)
  {
  }

  ghost function Interval(lo: nat, hi: nat): (s: set<nat>)
    ensures forall a :: a in s <==> lo <= a < hi
    ensures |s| == if lo < hi then hi - lo else 0
  {
    if lo >= hi then {} else Interval(lo, hi - 1) + {hi - 1}
  }

  lemma SubsetOfSameSize<T>(small: set<T>, large: set<T>)
    requires small <= large
    ensures |small| <= |large|
    ensures |small| == |large| <==> small == large
  {
    assert large == small + (large - small);
  }

  /** A plain allocation for a VM without a lease finds no address exactly when the active
      leases inside the subnet's host range number its usable addresses. */
  lemma ExhaustedExactlyAtCapacity(t: Table, derive: MacHash, vmId: nat, subnet: SubnetSpec)
    requires subnet.Valid() && Sound(t, derive) && !HoldsLease(t.rows, vmId)
    ensures CountActiveHosts(t.rows, subnet) <= subnet.UsableAddresses()
    ensures AllocateInTx(t, derive, vmId, subnet, {}, {}).1 == Err(PoolExhausted(subnet.network, subnet.prefix))
       <==> CountActiveHosts(t.rows, subnet) == subnet.UsableAddresses()
  {
    CountIsCardinality(t.rows, subnet);
    AllocateOutcome(t, derive, vmId, subnet, {});
    var hosts := Interval(subnet.HostStart(), subnet.HostStart() + subnet.UsableAddresses());
    SubsetOfSameSize(ActiveHosts(t.rows, subnet), hosts);
    if forall a: nat :: subnet.IsHost(a) ==> a in ActiveIps(t.rows) || a in {} {
      forall a | a in hosts
        ensures a in ActiveHosts(t.rows, subnet)
      {
        assert subnet.IsHost(a);
      }
    } else {
      var a: nat :| subnet.IsHost(a) && a !in ActiveIps(t.rows);
      assert a in hosts && a !in ActiveHosts(t.rows, subnet);
    }
  }
}
