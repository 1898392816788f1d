/** Bitwise operations on words, defined bit by bit, and the facts about prefix masks that CIDR
    arithmetic rests on. */
module Bits {

  function Pow2(n: nat): (r: nat)
    ensures r > 0
  {
    if n == 0 then 1 else 2 * Pow2(n - 1)
  }

  function And(x: nat, y: nat): nat {
    if x == 0 || y == 0 then 0
    else 2 * And(x / 2, y / 2) + if x % 2 == 1 && y % 2 == 1 then 1 else 0
  }

  function Or(x: nat, y: nat): nat
    decreases x + y
  {
    if x == 0 then y
    else if y == 0 then x
    else 2 * Or(x / 2, y / 2) + if x % 2 == 1 || y % 2 == 1 then 1 else 0
  }

  /** `!x` on 32 bits. */
  function Not(x: nat): nat
    requires x <= 0xFFFF_FFFF
  {
    0xFFFF_FFFF - x
  }

  /** `x` with its `low` lowest bits cleared: the start of the aligned block that holds it. */
  ghost function ClearLow(x: nat, low: nat): (r: nat)
    ensures r <= x < r + Pow2(low)
  {
    if low == 0 then x else 2 * ClearLow(x / 2, low - 1)
  }

  lemma {:induction false} Pow2Monotone(m: nat, n: nat)
    requires m <= n
    ensures Pow2(m) <= Pow2(n)
    decreases n - m
  {
    if m < n {
      Pow2Monotone(m, n - 1);
    }
  }

  lemma {:induction false} Pow2Add(m: nat, n: nat)
    ensures Pow2(m + n) == Pow2(m) * Pow2(n)
  {
    if m > 0 {
      Pow2Add(m - 1, n);
      assert Pow2(m) * Pow2(n) == 2 * (Pow2(m - 1) * Pow2(n));
    }
  }

  lemma MulMonotone(a: int, b: int, d: nat)
    requires a <= b
    ensures a * d <= b * d
  {
    assert (b - a) * d >= 0;
  }

  lemma Division(x: int, d: int) returns (q: int, r: int)
    requires d > 0
    ensures q == x / d && r == x % d
    ensures x == q * d + r && 0 <= r < d
  {
    q, r := x / d, x % d;
  }

  /** Quotient and remainder are unique. */
  lemma RemainderOf(x: int, d: nat, q: int, r: int)
    requires d > 0 && x == q * d + r && 0 <= r < d
    ensures x % d == r && x / d == q
  {
    var q', r' := Division(x, d);
    SameQuotient(d, q, r, q', r');
  }

  lemma SameQuotient(d: nat, q: int, r: int, q': int, r': int)
    requires q * d + r == q' * d + r' && 0 <= r < d && 0 <= r' < d
    ensures q == q' && r == r'
  {
    if q < q' {
      MulMonotone(q + 1, q', d);
    } else if q' < q {
      MulMonotone(q' + 1, q, d);
    }
  }

  lemma {:induction false} ClearLowIsMultiple(x: nat, low: nat) returns (q: nat)
    ensures ClearLow(x, low) == q * Pow2(low)
  {
    if low == 0 {
      q := x;
    } else {
      q := ClearLowIsMultiple(x / 2, low - 1);
      assert 2 * (q * Pow2(low - 1)) == q * Pow2(low);
    }
  }

  lemma {:induction false} ClearAll(x: nat, low: nat)
    requires x < Pow2(low)
    ensures ClearLow(x, low) == 0
  {
    if low > 0 {
      ClearAll(x / 2, low - 1);
    }
  }

  /** The aligned block that holds `x` ends within any multiple of its size above `x`. */
  lemma BlockBelow(x: nat, low: nat, blocks: nat) returns (q: nat)
    requires x < blocks * Pow2(low)
    ensures ClearLow(x, low) == q * Pow2(low) <= x < (q + 1) * Pow2(low) <= blocks * Pow2(low)
  {
    q := ClearLowIsMultiple(x, low);
    if q >= blocks {
      MulMonotone(blocks, q, Pow2(low));
    }
    MulMonotone(q + 1, blocks, Pow2(low));
  }

  lemma AndDigit(x: nat, y: nat, digit: nat)
    requires digit < 2
    ensures And(x, 2 * y + digit) == 2 * And(x / 2, y) + x % 2 * digit
  {
    assert (2 * y + digit) / 2 == y && (2 * y + digit) % 2 == digit;
  }

  /** A word that is all ones above bit `low` and zero below it clears exactly the low bits. */
  lemma {:induction false} AndHighMask(width: nat, x: nat, low: nat)
    requires low <= width && x < Pow2(width)
    ensures Pow2(low) <= Pow2(width)
    ensures And(x, Pow2(width) - Pow2(low)) == ClearLow(x, low)
  {
    Pow2Monotone(low, width);
    if low == width {
      ClearAll(x, low);
    } else if low == 0 {
      AndAllOnes(width, x);
    } else {
      AndHighMask(width - 1, x / 2, low - 1);
      AndDigit(x, Pow2(width - 1) - Pow2(low - 1), 0);
    }
  }

  lemma {:induction false} AndAllOnes(width: nat, x: nat)
    requires x < Pow2(width)
    ensures And(x, Pow2(width) - 1) == x
  {
    if width > 0 {
      AndAllOnes(width - 1, x / 2);
      AndDigit(x, Pow2(width - 1) - 1, 1);
    }
  }

  lemma OrDigit(x: nat, y: nat)
    ensures Or(x, 2 * y + 1) == 2 * Or(x / 2, y) + 1
  {
    assert (2 * y + 1) / 2 == y;
  }

  lemma {:induction false} OrLowMask(x: nat, low: nat)
    ensures Or(x, Pow2(low) - 1) == ClearLow(x, low) + Pow2(low) - 1
  {
    if low > 0 {
      OrLowMask(x / 2, low - 1);
      OrDigit(x, Pow2(low - 1) - 1);
    }
  }

  /** Subtracting from all ones flips every bit. */
  lemma {:induction false} ComplementFlipsBits(width: nat, x: nat)
    requires x < Pow2(width)
    ensures And(x, Pow2(width) - 1 - x) == 0 && Or(x, Pow2(width) - 1 - x) == Pow2(width) - 1
  {
    if width > 0 && x > 0 && x < Pow2(width) - 1 {
      ComplementFlipsBits(width - 1, x / 2);
      assert (Pow2(width) - 1 - x) / 2 == Pow2(width - 1) - 1 - x / 2;
    }
  }

  lemma ShiftedProduct(a: int, b: int)
    ensures (a - 1) * b == (b - 1) * a + (a - b)
  {
    assert (a - 1) * b == a * b - b;
    assert (b - 1) * a == a * b - a;
  }

  /** Shifting the all-ones word left, with the overflowing bits dropped. */
  lemma AllOnesShifted(width: nat, shift: nat)
    requires shift <= width
    ensures Pow2(shift) <= Pow2(width)
    ensures shift < width ==> ((Pow2(width) - 1) * Pow2(shift)) % Pow2(width) == Pow2(width) - Pow2(shift)
  {
    Pow2Monotone(shift, width);
    if shift < width {
      var q, r := Pow2(shift) - 1, Pow2(width) - Pow2(shift);
      ShiftedProduct(Pow2(width), Pow2(shift));
      RemainderOf((Pow2(width) - 1) * Pow2(shift), Pow2(width), q, r);
    }
  }
}

/** The subnet arithmetic of `ipam.rs`. */
module Subnet {
  import opened Bits

  type u32 = x: int | 0 <= x < 0x1_0000_0000

  /** `+ 1` on a `u32` in a release build, where overflow wraps. */
  function Successor(x: u32): u32 {
    if x == 0xFFFF_FFFF then 0 else x + 1
  }

  datatype SubnetSpec = SubnetSpec(microNetworkId: nat, network: u32, prefix: nat)
  {
    /** `parse` is the only producer and rejects longer prefixes. */
    predicate Valid() {
      prefix <= 32
    }

    function Mask(): nat
      requires Valid()
    {
      var shift := 32 - prefix;
      if shift < 32 then (0xFFFF_FFFF * Pow2(shift)) % 0x1_0000_0000 else 0
    }

    function Gateway(): u32 {
      Successor(network)
    }

    function Broadcast(): nat
      requires Valid()
    {
      Or(network, Not(Mask()))
    }

    predicate Contains(address: u32)
      requires Valid()
    {
      And(address, Mask()) == And(network, Mask())
    }

    predicate Overlaps(other: SubnetSpec)
      requires Valid() && other.Valid()
    {
      Contains(other.network) || other.Contains(network)
    }

    function HostStart(): u32 {
      Successor(Gateway())
    }

    /** The addresses `host_addresses` yields, in order. */
    function HostAddresses(): (hosts: seq<nat>)
      requires Valid()
    {
      if HostStart() < Broadcast() then seq(Broadcast() - HostStart(), (i: nat) => HostStart() + i) else []
    }

    predicate IsHost(address: nat)
      requires Valid()
    {
      HostStart() <= address < Broadcast()
    }

    /** `saturating_sub`. */
    function UsableAddresses(): nat
      requires Valid()
    {
      if HostStart() < Broadcast() then Broadcast() - HostStart() else 0
    }

    ghost function Size(): nat
      requires Valid()
    {
      Pow2(32 - prefix)
    }

    ghost function Base(): nat
      requires Valid()
    {
      ClearLow(network, 32 - prefix)
    }

    /** Neither the gateway nor its successor wraps past the end of the address space. */
    predicate GatewayFits() {
      network + 2 < 0x1_0000_0000
    }
  }

  lemma Pow2Of32()
    ensures Pow2(32) == 0x1_0000_0000
  {
    assert Pow2(8) == 256;
    Pow2Add(8, 8);
    Pow2Add(16, 16);
  }

  /** The mask is the `prefix` high bits, for every prefix including 0 and 32. */
  lemma MaskIsHighBits(s: SubnetSpec)
    requires s.Valid()
    ensures s.Size() <= 0x1_0000_0000
    ensures s.Mask() == 0x1_0000_0000 - s.Size()
  {
    Pow2Of32();
    AllOnesShifted(32, 32 - s.prefix);
  }

  /** `!mask` is the mask with every bit flipped: the `32 - prefix` low bits. */
  lemma HostMaskExactly(s: SubnetSpec)
    requires s.Valid()
    ensures s.Mask() <= 0xFFFF_FFFF && Not(s.Mask()) == s.Size() - 1
    ensures And(s.Mask(), Not(s.Mask())) == 0 && Or(s.Mask(), Not(s.Mask())) == 0xFFFF_FFFF
  {
    Pow2Of32();
    MaskIsHighBits(s);
    ComplementFlipsBits(32, s.Mask());
  }

  /** A subnet is the aligned block of `Size` addresses that holds its network address. */
  lemma BlockShape(s: SubnetSpec) returns (block: nat)
    requires s.Valid()
    ensures s.Base() == block * s.Size() <= s.network
    ensures s.network <= s.Broadcast() == (block + 1) * s.Size() - 1 < 0x1_0000_0000
  {
    BroadcastEndsBlock(s);
    Pow2Of32();
    Pow2Add(s.prefix, 32 - s.prefix);
    block := BlockBelow(s.network, 32 - s.prefix, Pow2(s.prefix));
  }

  lemma BroadcastEndsBlock(s: SubnetSpec)
    requires s.Valid()
    ensures s.Broadcast() == s.Base() + s.Size() - 1
  {
    HostMaskExactly(s);
    OrLowMask(s.network, 32 - s.prefix);
  }

  lemma ContainsComparesBases(s: SubnetSpec, address: u32)
    requires s.Valid()
    ensures s.Contains(address) <==> ClearLow(address, 32 - s.prefix) == s.Base()
  {
    MaskClearsLow(s, address);
    MaskClearsLow(s, s.network);
  }

  lemma MaskClearsLow(s: SubnetSpec, address: u32)
    requires s.Valid()
    ensures And(address, s.Mask()) == ClearLow(address, 32 - s.prefix)
  {
    Pow2Of32();
    MaskIsHighBits(s);
    AndHighMask(32, address, 32 - s.prefix);
  }

  /** `contains` is membership of the block from base to broadcast. */
  lemma ContainsIsInterval(s: SubnetSpec, address: u32)
    requires s.Valid()
    ensures s.Contains(address) <==> s.Base() <= address <= s.Broadcast()
  {
    ContainsComparesBases(s, address);
    var block := BlockShape(s);
    var q := ClearLowIsMultiple(address, 32 - s.prefix);
    if s.Base() <= address <= s.Broadcast() {
      SameQuotient(s.Size(), q, address - q * s.Size(), block, address - s.Base());
    }
  }

  /** Two blocks are nested or disjoint. */
  lemma NestedOrDisjoint(s: SubnetSpec, t: SubnetSpec)
    requires s.Valid() && t.Valid()
    ensures (forall a: u32 :: s.Contains(a) ==> t.Contains(a))
         || (forall a: u32 :: t.Contains(a) ==> s.Contains(a))
         || (forall a: u32 :: !(s.Contains(a) && t.Contains(a)))
  {
    if s.prefix >= t.prefix {
      LongerPrefixNests(s, t);
    } else {
      LongerPrefixNests(t, s);
    }
  }

  lemma LongerPrefixNests(s: SubnetSpec, t: SubnetSpec)
    requires s.Valid() && t.Valid() && s.prefix >= t.prefix
    ensures if t.Contains(s.network) then forall a: u32 :: s.Contains(a) ==> t.Contains(a)
            else forall a: u32 :: !(s.Contains(a) && t.Contains(a))
  {
    forall a: u32 | s.Contains(a)
      ensures t.Contains(a) <==> t.Contains(s.network)
    {
      SameSideOfBlock(s, t, a);
    }
  }

  lemma SameSideOfBlock(s: SubnetSpec, t: SubnetSpec, a: u32)
    requires s.Valid() && t.Valid() && s.prefix >= t.prefix && s.Contains(a)
    ensures t.Contains(a) <==> t.Contains(s.network)
  {
    var i := BlockShape(s);
    var j := BlockShape(t);
    ContainsIsInterval(s, a);
    ContainsIsInterval(t, a);
    ContainsIsInterval(t, s.network);
    var ratio := Pow2(s.prefix - t.prefix);
    Pow2Add(s.prefix - t.prefix, 32 - s.prefix);
    SmallBlockInOrOut(s.Size(), i, ratio, j, t.Size());
  }

  /** Block `i` of size `d` is inside or outside block `j` of size `ratio * d`. */
  lemma SmallBlockInOrOut(d: nat, i: nat, ratio: nat, j: nat, large: nat)
    requires large == ratio * d
    ensures (i + 1) * d <= j * large || (j + 1) * large <= i * d
         || (j * large <= i * d && (i + 1) * d <= (j + 1) * large)
  {
    var first, last := j * ratio, (j + 1) * ratio;
    assert j * large == first * d && (j + 1) * large == last * d;
    if i < first {
      MulMonotone(i + 1, first, d);
    } else if i >= last {
      MulMonotone(last, i, d);
    } else {
      MulMonotone(first, i, d);
      MulMonotone(i + 1, last, d);
    }
  }

  /** `overlaps` is true exactly when some address belongs to both blocks. */
  lemma OverlapsIffShared(s: SubnetSpec, t: SubnetSpec)
    requires s.Valid() && t.Valid()
    ensures s.Overlaps(t) <==> exists a: u32 :: s.Contains(a) && t.Contains(a)
    ensures s.Overlaps(t) <==> t.Overlaps(s)
  {
    ContainsIsInterval(s, s.network);
    ContainsIsInterval(t, t.network);
    var _ := BlockShape(s);
    var _ := BlockShape(t);
    if s.prefix >= t.prefix {
      LongerPrefixNests(s, t);
    } else {
      LongerPrefixNests(t, s);
    }
  }

  /** Each host address is offered once, in ascending order, and there are exactly
      `usable_addresses` of them. */
  lemma HostAddressesExactly(s: SubnetSpec)
    requires s.Valid()
    ensures |s.HostAddresses()| == s.UsableAddresses()
    ensures forall i, j :: 0 <= i < j < |s.HostAddresses()| ==> s.HostAddresses()[i] < s.HostAddresses()[j]
    ensures forall a: nat :: a in s.HostAddresses() <==> s.IsHost(a)
  {
    forall a: nat | s.IsHost(a)
      ensures a in s.HostAddresses()
    {
      assert s.HostAddresses()[a - s.HostStart()] == a;
    }
  }

  ghost predicate StrictlyInside(s: SubnetSpec, a: nat)
    requires s.Valid()
  {
    s.Gateway() < a < s.Broadcast() && s.Base() <= a
  }

  /** Of one offered address: whether it lies strictly between gateway and broadcast, inside the
      block. */
  lemma HostInsideExactly(s: SubnetSpec, a: nat)
    requires s.Valid() && s.IsHost(a)
    ensures StrictlyInside(s, a) <==> s.GatewayFits() || (s.network == 0xFFFF_FFFF && s.Base() <= a)
  {
    var _ := BlockShape(s);
  }

  /** Every offered address lies strictly between gateway and broadcast, inside the block,
      exactly when the gateway's successor does not wrap (or wraps in the block of all
      addresses). Otherwise a network address of 255.255.255.254 or .255 makes the release
      build offer addresses from the far end of the address space. */
  lemma HostsInsideIffGatewayFits(s: SubnetSpec)
    requires s.Valid()
    ensures (forall a: nat :: s.IsHost(a) ==> StrictlyInside(s, a))
       <==> s.GatewayFits() || (s.network == 0xFFFF_FFFF && s.prefix == 0)
  {
    if s.GatewayFits() {
      forall a: nat | s.IsHost(a) ensures StrictlyInside(s, a) {
        HostInsideExactly(s, a);
      }
    } else {
      WrappedBase(s);
      HostInsideExactly(s, 5);
      if s.network == 0xFFFF_FFFF && s.prefix == 0 {
        forall a: nat | s.IsHost(a) ensures StrictlyInside(s, a) {
          HostInsideExactly(s, a);
        }
      }
    }
  }

  /** The block at the very end of the address space starts in its upper half, unless it is the
      block of all addresses. */
  lemma WrappedBase(s: SubnetSpec)
    requires s.Valid() && !s.GatewayFits()
    ensures s.IsHost(5) && if s.prefix == 0 then s.Base() == 0 else s.Base() > 5
  {
    var block := BlockShape(s);
    Pow2Of32();
    if s.prefix == 0 {
      ClearAll(s.network, 32);
    } else {
      Pow2Monotone(32 - s.prefix, 31);
    }
  }

  /** Networks accepted as non-overlapping offer a common address exactly when the gateway of
      one of them wraps and the other offers any address at all. */
  lemma NonOverlappingShareHostExactly(s: SubnetSpec, t: SubnetSpec)
    requires s.Valid() && t.Valid() && !s.Overlaps(t)
    ensures (exists a: nat :: s.IsHost(a) && t.IsHost(a)) <==>
            (!s.GatewayFits() && t.UsableAddresses() > 0) || (!t.GatewayFits() && s.UsableAddresses() > 0)
  {
    if s.GatewayFits() && t.GatewayFits() {
      forall a: nat ensures !(s.IsHost(a) && t.IsHost(a)) {
        NonOverlappingShareNoHost(s, t, a);
      }
    } else if !s.GatewayFits() {
      WrappedOffersHost(s, t);
    } else {
      OverlapsIffShared(s, t);
      WrappedOffersHost(t, s);
    }
  }

  lemma NonOverlappingShareNoHost(s: SubnetSpec, t: SubnetSpec, a: nat)
    requires s.Valid() && t.Valid() && s.GatewayFits() && t.GatewayFits()
    requires !s.Overlaps(t)
    ensures !(s.IsHost(a) && t.IsHost(a))
  {
    if s.IsHost(a) && t.IsHost(a) {
      var _ := BlockShape(s);
      var _ := BlockShape(t);
      ContainsIsInterval(s, a);
      ContainsIsInterval(t, a);
      OverlapsIffShared(s, t);
    }
  }

  /** A network whose gateway wraps lies at the very end of the address space and offers the
      addresses from its beginning. */
  lemma WrappedOffersHost(s: SubnetSpec, t: SubnetSpec)
    requires s.Valid() && t.Valid() && !s.Overlaps(t) && !s.GatewayFits()
    ensures (exists a: nat :: s.IsHost(a) && t.IsHost(a)) <==> t.UsableAddresses() > 0
    ensures !t.GatewayFits() ==> s.UsableAddresses() > 0 && t.UsableAddresses() > 0
  {
    var _ := BlockShape(s);
    var _ := BlockShape(t);
    ContainsIsInterval(s, t.network);
    ContainsIsInterval(t, s.network);
    if t.UsableAddresses() > 0 {
      var a := if t.GatewayFits() then t.HostStart() else 1;
      assert s.IsHost(a) && t.IsHost(a);
    }
  }

  /** 255.255.255.255/24 does not overlap 10.0.0.0/24, and both offer 10.0.0.2. */
  lemma NonOverlappingSharedHostExample()
    ensures
      var s, t := SubnetSpec(0, 0xFFFF_FFFF, 24), SubnetSpec(1, 0x0A00_0000, 24);
      !s.Overlaps(t) && s.IsHost(0x0A00_0002) && t.IsHost(0x0A00_0002)
  {
    var s, t := SubnetSpec(0, 0xFFFF_FFFF, 24), SubnetSpec(1, 0x0A00_0000, 24);
    var i := BlockShape(s);
    var j := BlockShape(t);
    assert s.Size() == 256 && t.Size() == 256;
    ContainsIsInterval(s, t.network);
    ContainsIsInterval(t, s.network);
  }
}
