/** `IPAddressBlock` (model.py:123-155): the values a block derives from its identity
    address, containment, and the block's own iterator over its host addresses. The
    identity is used as given; it is never re-aligned to its true network address. */
module AddressBlocks {
  import opened Outcome
  import opened Bits
  import opened IPv4

  /** `get_num_usable_addresses`: 2^(32-L), every address of the block, identity and
      broadcast included. */
  function AddressCount(id: Address): (n: nat)
    ensures 1 <= n <= SPACE
    ensures id.prefix == 0 ==> n == SPACE
    ensures id.prefix == 31 ==> n == 2
    ensures id.prefix == 32 ==> n == 1
    ensures id.prefix <= 30 ==> n >= 4
  {
    BlockSizeBounds(id.prefix);
    Pow2(32 - id.prefix)
  }

  lemma BlockSizeBounds(l: Prefix)
    ensures 1 <= Pow2(32 - l) <= SPACE
    ensures l == 0 ==> Pow2(32 - l) == SPACE
    ensures l == 31 ==> Pow2(32 - l) == 2
    ensures l <= 30 ==> Pow2(32 - l) >= 4
  {
    PrefixPowerBounds(l);
    Pow2Of32();
    if l <= 30 {
      Pow2Monotone(2, 32 - l);
    }
  }

  /** `get_broadcast_address`: `(identity + count) - 1`. The intermediate sum is
      re-validated, so the top block of the address space has no broadcast address. */
  function Broadcast(id: Address): (r: Result<Address>)
    ensures r.Ok? <==> id.value + AddressCount(id) < SPACE
    ensures r.Ok? ==> r.value.value == id.value + AddressCount(id) - 1 && r.value.prefix == id.prefix
  {
    match Add(id, AddressCount(id))
    case Invalid => Invalid
    case Ok(past) => Sub(past, 1)
  }

  /** `get_lower_bound_address`: `identity + 1`. */
  function LowerBound(id: Address): (r: Result<Address>)
    ensures r.Ok? <==> id.value + 1 < SPACE
    ensures r.Ok? ==> r.value.value == id.value + 1 && r.value.prefix == id.prefix
  {
    Add(id, 1)
  }

  /** `get_upper_bound_address`: `(identity + count) - 2`, failing when the sum leaves the
      address space or the difference goes below 0. */
  function UpperBound(id: Address): (r: Result<Address>)
    ensures r.Ok? <==> 2 <= id.value + AddressCount(id) < SPACE
    ensures r.Ok? ==> r.value.value == id.value + AddressCount(id) - 2 && r.value.prefix == id.prefix
  {
    match Add(id, AddressCount(id))
    case Invalid => Invalid
    case Ok(past) => Sub(past, 2)
  }

  /** `contains(a)`: `identity <= a <= broadcast`, on values only. Python's chained
      comparison stops when its first half is false, so the broadcast address, which can
      fail, is formed only when identity <= a. */
  function Contains(id: Address, a: Address): (r: Result<bool>)
    ensures r == Ok(true) <==> id.value <= a.value < id.value + AddressCount(id) < SPACE
    ensures r == Invalid <==> id.value <= a.value && id.value + AddressCount(id) >= SPACE
  {
    if !Le(id, a) then Ok(false)
    else
      match Broadcast(id)
      case Invalid => Invalid
      case Ok(b) => Ok(Le(a, b))
  }

  /** For an identity aligned to its block size, below the top block, containment is
      "same network part under the block's prefix", whatever a's own prefix. */
  lemma ContainsIffSameNetwork(id: Address, a: Address)
    requires id.value % Pow2(32 - id.prefix) == 0
    requires id.value + AddressCount(id) < SPACE
    ensures Contains(id, a) == Ok(NetworkAddress(Address(a.value, id.prefix)).value == id.value)
  {
    var m := Pow2(32 - id.prefix);
    var x := a.value;
    var net := NetworkAddress(Address(x, id.prefix)).value;
    assert net == x - x % m;
    SameBlock(x, id.value, m);
  }

  /** Neither the broadcast address nor containment of any address at or above the
      identity can be computed for the block that ends at the top of the address space. */
  lemma TopBlockFails(id: Address, a: Address)
    requires id.value + AddressCount(id) == SPACE
    requires id.value <= a.value
    ensures Broadcast(id) == Invalid && Contains(id, a) == Invalid
    ensures UpperBound(id) == Invalid
  {
  }

  /** The addresses from..to inclusive, all with the given prefix; empty when from > to. */
  function Run(from: int, to: U32, prefix: Prefix): (r: seq<Address>)
    requires from >= 0
    ensures |r| == if from > to then 0 else to - from + 1
    ensures forall i :: 0 <= i < |r| ==> r[i] == Address(from + i, prefix)
  {
    if from > to then [] else seq(to - from + 1, i requires 0 <= i < to - from + 1 => Address(from + i, prefix))
  }

  /** What iterating a block yields: its lower bound through its upper bound, or a
      failure when either bound cannot be formed. Iteration fails exactly when the upper
      bound cannot be formed, and otherwise yields strictly increasing addresses with the
      block's prefix: count - 2 of them up to /30, none for /31 and /32. */
  function Hosts(id: Address): (r: Result<seq<Address>>)
    ensures r.Ok? <==> 2 <= id.value + AddressCount(id) < SPACE
    ensures r.Ok? ==>
      |r.value| == (if id.prefix <= 30 then AddressCount(id) - 2 else 0) &&
      (forall i :: 0 <= i < |r.value| ==> r.value[i].prefix == id.prefix) &&
      (forall i, j :: 0 <= i < j < |r.value| ==> r.value[i].value < r.value[j].value)
  {
    match LowerBound(id)
    case Invalid => Invalid
    case Ok(lo) =>
      match UpperBound(id)
      case Invalid => Invalid
      case Ok(hi) => Ok(Run(lo.value, hi.value, lo.prefix))
  }

  /** The hosts are exactly the addresses with the block's prefix that the block contains,
      other than the identity and the broadcast address. */
  lemma HostsAreInnerAddresses(id: Address, a: Address)
    requires Hosts(id).Ok?
    ensures a in Hosts(id).value <==>
      a.prefix == id.prefix && Contains(id, a) == Ok(true) &&
      a.value != id.value && a.value != Broadcast(id).value.value
  {
    var hs := Hosts(id).value;
    var lo := id.value + 1;
    if a.prefix == id.prefix && Contains(id, a) == Ok(true) && a.value != id.value
       && a.value != Broadcast(id).value.value {
      assert hs[a.value - lo] == a;
    }
  }

  /** An `IPAddressBlock` object. Iterating it stores state in the object itself:
      `__iter__` sets `current_address` and replaces the method `get_upper_bound_address`
      by the address it returned, so a block can be iterated once; `__next__` advances
      `current_address` with `+=`. */
  class AddressBlock {
    const identity: Address
    /** `current_address`, absent before the first `__iter__`. */
    var cursor: AddressCell?
    /** The upper bound `__iter__` stored over `get_upper_bound_address`. */
    var storedUpper: Option<Address>

    ghost predicate Valid()
      reads this, cursor
    {
      cursor != null ==> cursor.prefix == identity.prefix && cursor.value >= 1
    }

    ghost predicate Iterating()
      reads this
    {
      cursor != null && storedUpper.Some?
    }

    /** The addresses that `__next__` has still to yield. */
    ghost function Remaining(): seq<Address>
      reads this, cursor
      requires Valid() && Iterating()
    {
      Run(cursor.value, storedUpper.value.value, cursor.prefix)
    }

    constructor (id: Address)
      ensures identity == id && cursor == null && storedUpper == None
      ensures Valid()
    {
      identity := id;
      cursor := null;
      storedUpper := None;
    }

    /** `get_upper_bound_address()` on this object: once `__iter__` has stored its
        address under that name, calling it fails. */
    function UpperBoundAddress(): (r: Result<Address>)
      reads this
      ensures r.Ok? <==> storedUpper.None? && 2 <= identity.value + AddressCount(identity) < SPACE
      ensures r.Ok? ==> r.value.value == identity.value + AddressCount(identity) - 2
      ensures r.Ok? ==> r.value.prefix == identity.prefix
    {
      if storedUpper.Some? then Invalid else UpperBound(identity)
    }

    /** `__iter__`: the cursor is reset to the lower bound first; the upper bound is then
        computed and stored, which fails on every call after the first success. */
    method Iter() returns (ok: bool)
      requires Valid()
      modifies this
      ensures Valid()
      ensures ok <==> old(storedUpper).None? && Hosts(identity).Ok?
      ensures ok ==> Iterating() && Remaining() == Hosts(identity).value
      ensures LowerBound(identity).Ok? ==>
        cursor != null && fresh(cursor) && cursor.value == LowerBound(identity).value.value
      ensures LowerBound(identity).Invalid? ==> cursor == old(cursor)
      ensures storedUpper == if ok then Some(UpperBound(identity).value) else old(storedUpper)
    {
      var lower := LowerBound(identity);
      if lower.Invalid? {
        return false;
      }
      cursor := new AddressCell(lower.value);
      var upper := UpperBoundAddress();
      if upper.Invalid? {
        return false;
      }
      storedUpper := Some(upper.value);
      ok := true;
    }

    /** `__next__`: stop once the cursor passes the stored upper bound; otherwise advance
        the cursor in place and return a fresh address one below it. */
    method Next() returns (r: Option<Address>)
      requires Valid() && Iterating()
      modifies cursor
      ensures Valid() && Iterating()
      ensures old(Remaining()) == [] ==> r == None && Remaining() == [] && cursor.value == old(cursor.value)
      ensures old(Remaining()) != [] ==>
        r == Some(old(Remaining())[0]) && Remaining() == old(Remaining())[1..]
      ensures old(Remaining()) != [] ==> cursor.value == old(cursor.value) + 1
    {
      if cursor.value > storedUpper.value.value {
        r := None;
      } else {
        ghost var before := Remaining();
        cursor.AddInPlace(1);
        var back := cursor.Minus(1);
        r := Some(back.value);
        assert Remaining() == before[1..];
      }
    }
  }

  /** Iterating a fresh block twice: the second `__iter__` always fails, whether or not the
      first succeeded. */
  method IterateTwice(b: AddressBlock) returns (first: bool, second: bool)
    requires b.Valid() && b.storedUpper.None?
    modifies b
    ensures first <==> Hosts(b.identity).Ok?
    ensures !second
  {
    first := b.Iter();
    second := b.Iter();
  }

  /** Moving the head of the rest onto the end of what was taken keeps the whole. */
  lemma TakeHead(taken: seq<Address>, rest: seq<Address>)
    requires rest != []
    ensures (taken + [rest[0]]) + rest[1..] == taken + rest
  {
    assert rest == [rest[0]] + rest[1..];
  }

  /** `for h in block`, or `list(block)`: the iterator protocol run to its end. */
  method ListHosts(b: AddressBlock) returns (ok: bool, hosts: seq<Address>)
    requires b.Valid()
    modifies b
    ensures ok <==> old(b.storedUpper).None? && Hosts(b.identity).Ok?
    ensures ok ==> hosts == Hosts(b.identity).value
  {
    ok := b.Iter();
    hosts := [];
    if !ok {
      return;
    }
    ghost var all := b.Remaining();
    while true
      invariant b.Valid() && b.Iterating() && fresh(b.cursor)
      invariant hosts + b.Remaining() == all
      decreases |b.Remaining()|
    {
      ghost var rem := b.Remaining();
      var r := b.Next();
      if r.None? {
        assert hosts == all;
        break;
      }
      assert rem != [] && r.value == rem[0] && b.Remaining() == rem[1..];
      TakeHead(hosts, rem);
      hosts := hosts + [r.value];
    }
  }
}
