/** `Organization` and `Database` (model.py:160-201): ordered lists of blocks and of
    organizations, kept in insertion order and changed in place. */
module Registry {
  import opened IPv4
  import opened AddressBlocks

  // ---------------------------------------------------------------------------
  // `list.remove`: neither class defines `__eq__`, so the element removed is the first
  // one that is the same object.

  function FirstIndex<T(==)>(s: seq<T>, x: T): (i: nat)
    requires x in s
    ensures i < |s| && s[i] == x
    ensures forall j :: 0 <= j < i ==> s[j] != x
  {
    if s[0] == x then 0 else 1 + FirstIndex(s[1..], x)
  }

  /** The list after `remove(x)`: the first occurrence of x is gone, everything before it
      and after it is unchanged and in order. */
  function RemoveFirst<T(==)>(s: seq<T>, x: T): (r: seq<T>)
    requires x in s
    ensures |r| == |s| - 1
    ensures multiset(r) == multiset(s) - multiset{x}
    ensures r[..FirstIndex(s, x)] == s[..FirstIndex(s, x)]
    ensures r[FirstIndex(s, x)..] == s[FirstIndex(s, x) + 1..]
  {
    var i := FirstIndex(s, x);
    assert s == s[..i] + [x] + s[i + 1..];
    s[..i] + s[i + 1..]
  }

  // ---------------------------------------------------------------------------
  // Block totals

  /** `sum(block.get_num_usable_addresses() for block in blocks)`. */
  function SumCounts(blocks: seq<AddressBlock>): (n: nat)
    ensures n >= |blocks|
  {
    if blocks == [] then 0 else AddressCount(blocks[0].identity) + SumCounts(blocks[1..])
  }

  lemma {:induction false} SumCountsAppend(a: seq<AddressBlock>, b: seq<AddressBlock>)
    ensures SumCounts(a + b) == SumCounts(a) + SumCounts(b)
  {
    if a == [] {
      assert a + b == b;
    } else {
      assert (a + b)[1..] == a[1..] + b;
      SumCountsAppend(a[1..], b);
    }
  }

  lemma MoveToEnd(before: seq<AddressBlock>, b: AddressBlock, after: seq<AddressBlock>)
    ensures SumCounts(before + after + [b]) == SumCounts(before + [b] + after)
  {
    SumCountsAppend(before + after, [b]);
    SumCountsAppend(before, after);
    SumCountsAppend(before + [b], after);
    SumCountsAppend(before, [b]);
  }

  /** Removing a block and adding it back leaves the total where it was. */
  lemma RemoveThenAddKeepsTotal(blocks: seq<AddressBlock>, b: AddressBlock)
    requires b in blocks
    ensures SumCounts(RemoveFirst(blocks, b) + [b]) == SumCounts(blocks)
  {
    var i := FirstIndex(blocks, b);
    var removed := RemoveFirst(blocks, b);
    assert removed == removed[..i] + removed[i..];
    assert removed == blocks[..i] + blocks[i + 1..];
    assert blocks == blocks[..i] + [b] + blocks[i + 1..];
    MoveToEnd(blocks[..i], b, blocks[i + 1..]);
  }

  // ---------------------------------------------------------------------------
  // Name search

  /** Python's `query in name` on strings: query occurs in name as a contiguous substring
      (the empty query occurs in every name). */
  predicate Occurs(query: string, name: string)
    ensures Occurs(query, name) ==> |query| <= |name|
    ensures query <= name ==> Occurs(query, name)
    ensures Occurs(query, name) ==> forall i :: 0 <= i < |query| ==> query[i] in name
  {
    assert query <= name ==> query <= name[0..];
    exists k :: 0 <= k <= |name| - |query| && query <= name[k..]
  }

  /** The organizations whose name contains the query, in their original order. */
  function NameMatches(orgs: seq<Organization>, query: string): (r: seq<Organization>)
    ensures |r| <= |orgs|
    ensures forall i :: 0 <= i < |r| ==> r[i] in orgs && Occurs(query, r[i].name)
  {
    if orgs == [] then []
    else (if Occurs(query, orgs[0].name) then [orgs[0]] else []) + NameMatches(orgs[1..], query)
  }

  /** An organization is matched exactly when it is listed and its name contains the query. */
  lemma {:induction false} NameMatchesMembers(orgs: seq<Organization>, query: string, o: Organization)
    ensures o in NameMatches(orgs, query) <==> o in orgs && Occurs(query, o.name)
  {
    if orgs != [] {
      NameMatchesMembers(orgs[1..], query, o);
      assert orgs == [orgs[0]] + orgs[1..];
    }
  }

  /** Matching distributes over concatenation, so it keeps the registry's order. */
  lemma {:induction false} NameMatchesAppend(a: seq<Organization>, b: seq<Organization>, query: string)
    ensures NameMatches(a + b, query) == NameMatches(a, query) + NameMatches(b, query)
  {
    if a == [] {
      assert a + b == b;
    } else {
      assert (a + b)[1..] == a[1..] + b;
      NameMatchesAppend(a[1..], b, query);
    }
  }

  // ---------------------------------------------------------------------------
  // Organization

  class Organization {
    const name: string
    var blocks: seq<AddressBlock>

    /** `Organization(name, blocks)`: the given blocks are copied into a new list. */
    constructor (name: string, initial: seq<AddressBlock>)
      ensures this.name == name && blocks == initial
    {
      this.name := name;
      blocks := initial;
    }

    /** `total_usable_ip_addresses`: the sum of the block sizes. */
    function TotalUsableAddresses(): (n: nat)
      reads this
      ensures n >= |blocks|
      ensures blocks == [] ==> n == 0
    {
      SumCounts(blocks)
    }

    /** `add_ip_address_block`: append at the end. */
    method AddBlock(b: AddressBlock)
      modifies this
      ensures blocks == old(blocks) + [b]
      ensures TotalUsableAddresses() == old(TotalUsableAddresses()) + AddressCount(b.identity)
    {
      SumCountsAppend(blocks, [b]);
      blocks := blocks + [b];
    }

    /** `remove_ip_address_block`: drop the first occurrence of this very block; an
        absent block is an error and leaves the list as it was. */
    method RemoveBlock(b: AddressBlock) returns (ok: bool)
      modifies this
      ensures ok <==> b in old(blocks)
      ensures ok ==> blocks == RemoveFirst(old(blocks), b)
      ensures !ok ==> blocks == old(blocks)
    {
      ok := b in blocks;
      if ok {
        blocks := RemoveFirst(blocks, b);
      }
    }
  }

  // ---------------------------------------------------------------------------
  // Database

  class Database {
    var organizations: seq<Organization>

    constructor ()
      ensures organizations == []
    {
      organizations := [];
    }

    /** `add_organization`: append at the end. */
    method AddOrganization(o: Organization)
      modifies this
      ensures organizations == old(organizations) + [o]
    {
      organizations := organizations + [o];
    }

    /** `remove_organization`: drop the first occurrence of this very organization; an
        absent one (including the `None` a failed lookup returns) is an error. */
    method RemoveOrganization(o: Organization?) returns (ok: bool)
      modifies this
      ensures ok <==> o in old(organizations)
      ensures ok ==> o != null && organizations == RemoveFirst(old(organizations), o)
      ensures !ok ==> organizations == old(organizations)
    {
      ok := o in organizations;
      if ok {
        organizations := RemoveFirst(organizations, o);
      }
    }

    /** `get_organization_by_name`: the first organization with exactly this name, or
        `None`. */
    method GetOrganizationByName(name: string) returns (r: Organization?)
      ensures r == null ==> forall j :: 0 <= j < |organizations| ==> organizations[j].name != name
      ensures r != null ==>
        exists i :: 0 <= i < |organizations| && organizations[i] == r && r.name == name &&
          (forall j :: 0 <= j < i ==> organizations[j].name != name)
    {
      var i := 0;
      while i < |organizations|
        invariant 0 <= i <= |organizations|
        invariant forall j :: 0 <= j < i ==> organizations[j].name != name
      {
        if organizations[i].name == name {
          return organizations[i];
        }
        i := i + 1;
      }
      return null;
    }

    /** The name pass of `search_all`: every organization whose name contains the query,
        in insertion order. */
    method SearchByName(query: string) returns (matched: seq<Organization>)
      ensures matched == NameMatches(organizations, query)
    {
      matched := [];
      var i := 0;
      while i < |organizations|
        invariant 0 <= i <= |organizations|
        invariant matched == NameMatches(organizations[..i], query)
      {
        var o := organizations[i];
        assert organizations[..i + 1] == organizations[..i] + [o];
        NameMatchesAppend(organizations[..i], [o], query);
        if Occurs(query, o.name) {
          matched := matched + [o];
        }
        i := i + 1;
      }
      assert organizations[..i] == organizations;
    }
  }
}
