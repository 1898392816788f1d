/** The `port_forwards` table of `persistence.rs`: replacing a VM's rows is all or nothing. */
module PortForwards {
  import opened Sequences
  import opened Wrappers

  datatype Protocol = Tcp | Udp

  datatype PortForward = PortForward(hostPort: nat, guestPort: nat, protocol: Protocol)

  datatype Row = Row(vmId: nat, forward: PortForward)

  datatype PortError =
    | DuplicatePortForward(hostPort: nat, protocol: Protocol)
    | Database

  /** Which database call fails: none, the delete, the insert of one entry, or the commit. */
  datatype Fault = NoFault | OnDelete | OnInsert(index: nat) | OnCommit

  predicate SamePair(a: PortForward, b: PortForward) {
    a.hostPort == b.hostPort && a.protocol == b.protocol
  }

  /** The unique index over host port and protocol, which also covers the primary key. */
  predicate Owned(rows: seq<Row>, forward: PortForward) {
    exists i :: 0 <= i < |rows| && SamePair(rows[i].forward, forward)
  }

  function Without(rows: seq<Row>, vmId: nat): seq<Row> {
    if rows == [] then []
    else Without(rows[..|rows| - 1], vmId) + if rows[|rows| - 1].vmId == vmId then [] else [rows[|rows| - 1]]
  }

  function RowsFor(vmId: nat, forwards: seq<PortForward>): seq<Row> {
    seq(|forwards|, (i: nat) requires i < |forwards| => Row(vmId, forwards[i]))
  }

  class PortTable {
    var rows: seq<Row>

    constructor ()
      ensures rows == []
    {
      rows := [];
    }

    /** A failed insert drops the open transaction, which restores the table. */
    method SetVmPortForwards(vmId: nat, forwards: seq<PortForward>, fault: Fault) returns (r: Result<(), PortError>)
      modifies this
      ensures r.Ok? ==> rows == Without(old(rows), vmId) + RowsFor(vmId, forwards)
      ensures r.Err? ==> rows == old(rows)
      ensures r == Replace(old(rows), vmId, forwards, fault).1
    {
      var saved := rows;
      if fault.OnDelete? {
        return Err(Database);
      }
      rows := Without(rows, vmId);
      ghost var others := rows;
      for i := 0 to |forwards|
        invariant rows == others + RowsFor(vmId, forwards[..i])
        invariant forall k :: 0 <= k < i ==> !Conflicts(others, forwards, k)
        invariant !(fault.OnInsert? && fault.index < i)
      {
        OwnedByOthersOrEarlier(others, vmId, forwards, i);
        if fault == OnInsert(i) {
          FirstTroubleIs(others, forwards, fault, 0, i);
          rows := saved;
          return Err(Database);
        }
        if Owned(rows, forwards[i]) {
          FirstTroubleIs(others, forwards, fault, 0, i);
          rows := saved;
          return Err(DuplicatePortForward(forwards[i].hostPort, forwards[i].protocol));
        }
        assert RowsFor(vmId, forwards[..i + 1]) == RowsFor(vmId, forwards[..i]) + [Row(vmId, forwards[i])];
        rows := rows + [Row(vmId, forwards[i])];
      }
      assert forwards[..|forwards|] == forwards;
      FirstTroubleIs(others, forwards, fault, 0, |forwards|);
      if fault.OnCommit? {
        rows := saved;
        return Err(Database);
      }
      return Ok(());
    }

    method ClearVmPortForwards(vmId: nat)
      modifies this
      ensures rows == Without(old(rows), vmId)
      ensures forall other :: Of(rows, other) == if other == vmId then [] else Of(old(rows), other)
    {
      forall other ensures Of(Without(rows, vmId), other) == if other == vmId then [] else Of(rows, other) {
        WithoutOf(rows, vmId, other);
      }
      rows := Without(rows, vmId);
    }
  }

  // ----- Reference definition

  /** Entry `i` clashes with another VM's row or with an earlier entry of the list. */
  predicate Conflicts(others: seq<Row>, forwards: seq<PortForward>, i: nat)
    requires i < |forwards|
  {
    Owned(others, forwards[i]) || exists k :: 0 <= k < i && SamePair(forwards[k], forwards[i])
  }

  /** First entry from `i` on that clashes or whose insert fails. */
  function FirstTrouble(others: seq<Row>, forwards: seq<PortForward>, fault: Fault, i: nat): (at: nat)
    requires i <= |forwards|
    ensures i <= at <= |forwards|
    ensures at < |forwards| ==> fault == OnInsert(at) || Conflicts(others, forwards, at)
    ensures forall k :: i <= k < at ==> fault != OnInsert(k) && !Conflicts(others, forwards, k)
    decreases |forwards| - i
  {
    if i == |forwards| || fault == OnInsert(i) || Conflicts(others, forwards, i) then i
    else FirstTrouble(others, forwards, fault, i + 1)
  }

  function Replace(rows: seq<Row>, vmId: nat, forwards: seq<PortForward>, fault: Fault)
    : (seq<Row>, Result<(), PortError>)
  {
    var others := Without(rows, vmId);
    var at := FirstTrouble(others, forwards, fault, 0);
    if fault.OnDelete? || (fault == OnInsert(at) && at < |forwards|) || (fault.OnCommit? && at == |forwards|)
    then (rows, Err(Database))
    else if at < |forwards|
    then (rows, Err(DuplicatePortForward(forwards[at].hostPort, forwards[at].protocol)))
    else (others + RowsFor(vmId, forwards), Ok(()))
  }

  lemma OwnedByOthersOrEarlier(others: seq<Row>, vmId: nat, forwards: seq<PortForward>, i: nat)
    requires i < |forwards|
    ensures Owned(others + RowsFor(vmId, forwards[..i]), forwards[i]) <==> Conflicts(others, forwards, i)
  {
    var rows, added := others + RowsFor(vmId, forwards[..i]), RowsFor(vmId, forwards[..i]);
    if Owned(others, forwards[i]) {
      var k :| 0 <= k < |others| && SamePair(others[k].forward, forwards[i]);
      assert rows[k] == others[k];
    } else if exists k :: 0 <= k < i && SamePair(forwards[k], forwards[i]) {
      var k :| 0 <= k < i && SamePair(forwards[k], forwards[i]);
      assert rows[|others| + k] == added[k] == Row(vmId, forwards[k]);
    } else {
      assert forall k :: 0 <= k < |rows| ==>
               rows[k] == if k < |others| then others[k] else Row(vmId, forwards[k - |others|]);
    }
  }

  lemma {:induction false} FirstTroubleIs(others: seq<Row>, forwards: seq<PortForward>, fault: Fault, i: nat, at: nat)
    requires i <= at <= |forwards|
    requires forall k :: i <= k < at ==> fault != OnInsert(k) && !Conflicts(others, forwards, k)
    requires at < |forwards| ==> fault == OnInsert(at) || Conflicts(others, forwards, at)
    ensures FirstTrouble(others, forwards, fault, i) == at
    decreases at - i
  {
    if i < at {
      FirstTroubleIs(others, forwards, fault, i + 1, at);
    }
  }

  predicate OtherOwns(rows: seq<Row>, vmId: nat, forward: PortForward) {
    exists i ::
      && 0 <= i < |rows| && rows[i].vmId != vmId
      && rows[i].forward.hostPort == forward.hostPort && rows[i].forward.protocol == forward.protocol
  }

  predicate UniquePairs(rows: seq<Row>) {
    forall i, j :: 0 <= i < j < |rows| ==>
      rows[i].forward.hostPort != rows[j].forward.hostPort || rows[i].forward.protocol != rows[j].forward.protocol
  }

  function Of(rows: seq<Row>, vmId: nat): seq<PortForward> {
    if rows == [] then []
    else Of(rows[..|rows| - 1], vmId) + if rows[|rows| - 1].vmId == vmId then [rows[|rows| - 1].forward] else []
  }

  lemma {:induction false} WithoutMembers(rows: seq<Row>, vmId: nat)
    ensures forall row :: row in Without(rows, vmId) <==> row in rows && row.vmId != vmId
  {
    if rows != [] {
      WithoutMembers(rows[..|rows| - 1], vmId);
      assert rows == rows[..|rows| - 1] + [rows[|rows| - 1]];
    }
  }

  lemma {:induction false} WithoutUnique(rows: seq<Row>, vmId: nat)
    requires UniquePairs(rows)
    ensures UniquePairs(Without(rows, vmId))
  {
    if rows != [] {
      var init, last := rows[..|rows| - 1], rows[|rows| - 1];
      WithoutUnique(init, vmId);
      WithoutMembers(init, vmId);
      forall i | 0 <= i < |Without(init, vmId)|
        ensures !SamePair(Without(init, vmId)[i].forward, last.forward)
      {
        assert Without(init, vmId)[i] in init;
      }
    }
  }

  /** The other VMs keep their rows, in order. */
  lemma {:induction false} WithoutOf(rows: seq<Row>, vmId: nat, other: nat)
    ensures Of(Without(rows, vmId), other) == if other == vmId then [] else Of(rows, other)
  {
    if rows != [] {
      var init, last := rows[..|rows| - 1], rows[|rows| - 1];
      WithoutOf(init, vmId, other);
      var kept := Without(init, vmId);
      if last.vmId == vmId {
        EmptyRight(kept);
      } else {
        OfSnoc(kept, last, other);
      }
      EmptyRight(Of(init, other));
    }
  }

  lemma OfSnoc(rows: seq<Row>, last: Row, vmId: nat)
    ensures Of(rows + [last], vmId) == if last.vmId == vmId then Of(rows, vmId) + [last.forward] else Of(rows, vmId)
  {
    assert (rows + [last])[..|rows|] == rows;
    EmptyRight(Of(rows, vmId));
  }

  lemma RowsForSnoc(vmId: nat, forwards: seq<PortForward>, last: PortForward)
    ensures RowsFor(vmId, forwards + [last]) == RowsFor(vmId, forwards) + [Row(vmId, last)]
  {
  }

  lemma {:induction false} OfAppended(rows: seq<Row>, vmId: nat, forwards: seq<PortForward>, other: nat)
    ensures Of(rows + RowsFor(vmId, forwards), other) == Of(rows, other) + if other == vmId then forwards else []
    decreases |forwards|
  {
    if forwards == [] {
      EmptyRight(rows);
      EmptyRight(Of(rows, other));
    } else {
      var init, last := forwards[..|forwards| - 1], forwards[|forwards| - 1];
      Snoc(forwards);
      OfAppended(rows, vmId, init, other);
      RowsForSnoc(vmId, init, last);
      Associative(rows, RowsFor(vmId, init), [Row(vmId, last)]);
      OfSnoc(rows + RowsFor(vmId, init), Row(vmId, last), other);
      Associative(Of(rows, other), init, [last]);
    }
  }

  /** The first `n` entries repeat no pair and take none of another VM's. */
  predicate ClashFree(rows: seq<Row>, vmId: nat, forwards: seq<PortForward>, n: nat)
    requires n <= |forwards|
  {
    && (forall i, j :: 0 <= i < j < n ==>
          forwards[i].hostPort != forwards[j].hostPort || forwards[i].protocol != forwards[j].protocol)
    && (forall k :: 0 <= k < n ==> !OtherOwns(rows, vmId, forwards[k]))
  }

  predicate FirstClash(rows: seq<Row>, vmId: nat, forwards: seq<PortForward>, at: nat) {
    && at < |forwards| && ClashFree(rows, vmId, forwards, at)
    && !ClashFree(rows, vmId, forwards, at + 1)
  }

  /** Replacing succeeds exactly when the list is free of clashes and no database call fails. A
      fault that strikes is what it reports, and otherwise the first entry that clashes: a fault
      on an insert strikes when no entry before it clashes, one on the commit when none does.
      On failure the table is as before. */
  lemma ReplaceOutcome(rows: seq<Row>, vmId: nat, forwards: seq<PortForward>, fault: Fault)
    ensures
      var (rows', r) := Replace(rows, vmId, forwards, fault);
      && (r.Ok? <==>
          && ClashFree(rows, vmId, forwards, |forwards|)
          && !fault.OnDelete? && !fault.OnCommit? && (fault.OnInsert? ==> fault.index >= |forwards|))
      && (r == Err(Database) <==>
          || fault.OnDelete?
          || (fault.OnInsert? && fault.index < |forwards| && ClashFree(rows, vmId, forwards, fault.index))
          || (fault.OnCommit? && ClashFree(rows, vmId, forwards, |forwards|)))
      && (r.Err? && r.error != Database ==>
            exists at: nat :: FirstClash(rows, vmId, forwards, at)
              && r.error == DuplicatePortForward(forwards[at].hostPort, forwards[at].protocol))
      && (r.Err? ==> rows' == rows)
  {
    var others := Without(rows, vmId);
    forall f: PortForward
      ensures Owned(others, f) <==> OtherOwns(rows, vmId, f)
    {
      OwnedByOther(rows, vmId, f);
    }
    var at := FirstTrouble(others, forwards, fault, 0);
    forall k | 0 <= k < at
      ensures !OtherOwns(rows, vmId, forwards[k]) && forall i :: 0 <= i < k ==> !SamePair(forwards[i], forwards[k])
    {
      assert !Conflicts(others, forwards, k);
    }
    assert ClashFree(rows, vmId, forwards, at);
    if at < |forwards| && Conflicts(others, forwards, at) {
      assert FirstClash(rows, vmId, forwards, at);
    }
  }

  /** On success the VM's rows are exactly the list and every other VM's are as before. */
  lemma ReplacedRows(rows: seq<Row>, vmId: nat, forwards: seq<PortForward>, fault: Fault, other: nat)
    requires Replace(rows, vmId, forwards, fault).1.Ok?
    ensures Of(Replace(rows, vmId, forwards, fault).0, other) == if other == vmId then forwards else Of(rows, other)
  {
    WithoutOf(rows, vmId, other);
    OfAppended(Without(rows, vmId), vmId, forwards, other);
  }

  lemma OwnedByOther(rows: seq<Row>, vmId: nat, f: PortForward)
    ensures Owned(Without(rows, vmId), f) <==> OtherOwns(rows, vmId, f)
  {
    WithoutMembers(rows, vmId);
    var others := Without(rows, vmId);
    if Owned(others, f) {
      var i :| 0 <= i < |others| && SamePair(others[i].forward, f);
      assert others[i] in rows;
    }
    if OtherOwns(rows, vmId, f) {
      var i :| 0 <= i < |rows| && rows[i].vmId != vmId && SamePair(rows[i].forward, f);
      assert rows[i] in others;
    }
  }

  // ----- Runs

  datatype Op = Set(vmId: nat, forwards: seq<PortForward>, fault: Fault) | Clear(vmId: nat)

  function Run(ops: seq<Op>): seq<Row> {
    if ops == [] then []
    else
      var rows := Run(ops[..|ops| - 1]);
      match ops[|ops| - 1]
      case Set(vmId, forwards, fault) => Replace(rows, vmId, forwards, fault).0
      case Clear(vmId) => Without(rows, vmId)
  }

  lemma AppendedUnique(others: seq<Row>, vmId: nat, forwards: seq<PortForward>)
    requires UniquePairs(others)
    requires forall k :: 0 <= k < |forwards| ==> !Conflicts(others, forwards, k)
    ensures UniquePairs(others + RowsFor(vmId, forwards))
  {
    var all := others + RowsFor(vmId, forwards);
    forall i, j | 0 <= i < j < |all| && j >= |others|
      ensures !SamePair(all[i].forward, all[j].forward)
    {
      assert all[j].forward == forwards[j - |others|] && !Conflicts(others, forwards, j - |others|);
      assert i >= |others| ==> all[i].forward == forwards[i - |others|];
    }
  }

  lemma ReplaceKeepsUnique(rows: seq<Row>, vmId: nat, forwards: seq<PortForward>, fault: Fault)
    requires UniquePairs(rows)
    ensures UniquePairs(Replace(rows, vmId, forwards, fault).0)
  {
    WithoutUnique(rows, vmId);
    if FirstTrouble(Without(rows, vmId), forwards, fault, 0) == |forwards| {
      AppendedUnique(Without(rows, vmId), vmId, forwards);
    }
  }

  /** A host port and protocol belong to at most one row, over every run. */
  lemma {:induction false} PairsStayUnique(ops: seq<Op>)
    ensures UniquePairs(Run(ops))
  {
    if ops != [] {
      var before := ops[..|ops| - 1];
      PairsStayUnique(before);
      match ops[|ops| - 1]
      case Set(vmId, forwards, fault) => ReplaceKeepsUnique(Run(before), vmId, forwards, fault);
      case Clear(vmId) => WithoutUnique(Run(before), vmId);
    }
  }
}
