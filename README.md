# IPv4DB core in Dafny

This project models `model.py` of IPv4DB. IPv4DB is a small in-memory registry of which
organizations own which IPv4 address blocks. The model covers four classes:

- `IPAddress` is a 32-bit value with a prefix length (module `IPv4`, file `address.dfy`). It covers:
  - the strict text parser behind the constructor (dotted quads of decimal or 8-bit binary
    octets, a 32-bit binary or decimal token, an optional CIDR `/N` suffix as in section 3.1
    of RFC 4632);
  - the integer constructor;
  - dotted-decimal formatting;
  - subnet mask, network part and host part;
  - value-only ordering;
  - re-validated offsets `+`/`-`, and the unchecked in-place `+=`/`-=`.
- `IPAddressBlock` (module `AddressBlocks`, file `block.dfy`) covers:
  - the address count, broadcast address and host bounds derived from the identity address;
  - containment;
  - the block's own stateful iterator.
- `Organization` and `Database` (module `Registry`, file `registry.dfy`) are ordered lists of
  blocks and of organizations. They cover append, remove-first-same-object, first-match lookup
  by name, the block total and the name pass of `search_all`.

Supporting modules:

- `Outcome` holds `Result` and `Option`. Every exception the source raises becomes one
  `Invalid` result.
- `Bits` holds powers of two and a bitwise AND on naturals.
- `Text` holds the string primitives the parser and the formatter use. These are
  `isdigit`, `int(s)`, `int(s, 2)`, `str(n)`, `count`, `split` and `join`, on ASCII text.
- `Scenarios` evaluates the application's sample data on the model.

Behaviour of `model.py` worth knowing:

- A decimal or binary octet must be below 255 (model.py:31, 37). `255` and `11111111` are
  rejected, although the error messages at model.py:32 and 38 say "between 0 and 255
  (inclusive)". The model follows the checks.
- The subnet mask, the network part, the host part and `address + address` have prefix 0
  (model.py:64, 71, 74, 102). They do not keep the operand's prefix.
- `+` and `-` re-run the constructor's range check (model.py:101-107). So the block getters fail
  when `identity + count` reaches 2^32, for example for `0.0.0.0/0`. A block with value 0 and
  prefix /32 has no upper bound.
- A block can be iterated only once. `__iter__` stores an address over the method
  `get_upper_bound_address`, so a second `__iter__` fails (model.py:145-148).
- Neither `IPAddressBlock` nor `Organization` defines `__eq__`. Removal therefore deletes the
  first element that is the same object.
- `155.153.45.23/24` has the value 2610507031 (model.py:39).
- `model.py` has no usable-host count, no `ownsAddress`, no registry total and no four-part
  search result. Only the name-filter loop of `search_all` exists (model.py:193-201).
- The identity address is never re-aligned to its network address. Containment and iteration
  run from the identity as given.

## Model

| member | source | states |
|---|---|---|
| IPv4.FromInt | model.py:9-13 | The integer constructor accepts exactly the values in [0, 2^32) and keeps the given prefix. |
| IPv4.ParseOctet | model.py:27-39 | A dotted part is accepted only if it is all digits with 1-3 characters (decimal) or exactly 8 (binary), and its value is below 255. A 1-3 digit part is accepted iff its decimal value is below 255, and yields that value. An 8-digit part is accepted iff it is binary with value below 255, and yields that value. |
| IPv4.OctetEdges | model.py:28-38 | `254` and `11111110` are octet 254. `255`, `11111111`, `00000002`, `0002`, the empty part and `1a` are rejected. |
| IPv4.DottedValue | model.py:27-39 | Folding the parts gives a value below 256^n for n parts, or fails. |
| IPv4.DottedOk | model.py:27-39 | The fold succeeds exactly when every part is an accepted octet. |
| IPv4.DottedFour | model.py:27-39 | Four accepted octets give `((o0*256+o1)*256+o2)*256+o3`, most significant first. |
| IPv4.DottedRejects | model.py:28-38 | One rejected part rejects the whole dotted text. |
| IPv4.ParseBody | model.py:26-52 | The text after the suffix is removed keeps the given prefix. With three dots it is accepted iff every part is an octet. Otherwise accepted text is digits of length at most 10 or exactly 32. |
| IPv4.CidrSuffix | model.py:17-25 | A `/N` suffix with N at most 32 replaces the prefix argument: `body/N` parses as `body` with prefix N. |
| IPv4.ParseText | model.py:16-52 | Accepted text has at most one slash. Without a slash the prefix is the constructor's argument. With one, the suffix is all digits and becomes the prefix. |
| IPv4.ParseDotted | model.py:26-39 | A slash-free text with exactly three dots whose four parts are octets parses to their most-significant-first value, with the given prefix. |
| IPv4.ParseDottedRejects | model.py:26-39 | A slash-free, three-dot text with a part that is not an octet is rejected. |
| IPv4.ParseToken | model.py:40-52 | A slash-free token without three dots is accepted only if it is digits of length at most 10 or exactly 32. 32 characters are read in binary; up to 10 are decimal and must be below 2^32. |
| IPv4.FromText | model.py:16-52 | The string constructor, with its accumulating loop over the octets, returns exactly `ParseText`. |
| IPv4.OctetsReassemble | model.py:79-81 | The four base-256 digits `__repr__` extracts reassemble to the value. |
| IPv4.OctetsSplit | model.py:79-81 | Four octets placed into a value come back out as the same four digits. |
| IPv4.Show | model.py:76-82 | The formatted text has exactly three dots, and one slash iff the prefix is not 0. |
| IPv4.ShownOctets | model.py:79-82 | The four octet strings are the decimal spellings of the octets, most significant first. |
| IPv4.Repr | model.py:76-82 | `__repr__`, with its loop over the octets, returns the dotted text plus `/L` only when L != 0 (`Show`). |
| IPv4.ShowThenParse | model.py:76-82 | Re-parsing the formatted text gives back the same address exactly when every octet is at most 254; otherwise it is rejected. |
| IPv4.SubnetMask | model.py:63-64 | The mask has prefix 0, value 0 for /0 and 2^32-1 for /32. |
| IPv4.MaskSelectsNetwork | model.py:63-74 | AND with the mask keeps `v - v mod 2^(32-L)`. AND with the mask's complement keeps `v mod 2^(32-L)`. |
| IPv4.NetworkAddress | model.py:70-71 | The network part is the value rounded down to a multiple of 2^(32-L), with prefix 0. |
| IPv4.HostAddress | model.py:73-74 | The host part is the value mod 2^(32-L), with prefix 0. Python's `~mask` acts as the 32-bit complement on an in-range value. |
| IPv4.NetworkHostSplit | model.py:63-74 | Network plus host is the value. The network part is a multiple of the block size and the host part is below it. |
| IPv4.Lt | model.py:87-88 | `a < b` iff a's value is below b's; it implies `a != b`. |
| IPv4.Gt | model.py:90-91 | `a > b` iff a's value is above b's; it implies `a != b`. |
| IPv4.Le | model.py:93-94 | `a <= b` iff a's value is at most b's; equal addresses, or equal values, are `<=`. |
| IPv4.Ge | model.py:96-97 | `a >= b` iff a's value is at least b's; equal addresses, or equal values, are `>=`. |
| IPv4.OrderingIgnoresPrefix | model.py:84-97 | `<`, `<=`, `>`, `>=` form a total order on values. Two addresses with equal value and different prefix are mutually `<=` but not `==`. |
| IPv4.Add | model.py:99-101 | `a + k` succeeds iff `a.value + k` is in range; it keeps a's prefix. |
| IPv4.Sub | model.py:104-106 | `a - k` succeeds iff `a.value - k` is in range; it keeps a's prefix. |
| IPv4.AddAddress | model.py:99-102 | `a + b` succeeds iff the sum is below 2^32; the result has prefix 0. |
| IPv4.SubAddress | model.py:104-107 | `a - b` succeeds iff `b.value <= a.value`; the result has prefix 0. |
| IPv4.AddSubInverse | model.py:99-107 | Subtracting an offset undoes adding it, and the other way round. |
| IPv4.AddressCell.AddInPlace | model.py:109-114 | `+= k` changes only the value, by k, with no range check. |
| IPv4.AddressCell.AddAddressInPlace | model.py:109-114 | `+= other` adds other's value and keeps this object's prefix. |
| IPv4.AddressCell.SubInPlace | model.py:116-121 | `-= k` changes only the value, by -k, with no range check. |
| IPv4.AddressCell.SubAddressInPlace | model.py:116-121 | `-= other` subtracts other's value and keeps this object's prefix. |
| IPv4.AddressCell.Minus | model.py:104-106 | `self - k` on a mutated object re-validates and keeps its prefix. |
| AddressBlocks.AddressCount | model.py:139-140 | The count is 2^(32-L): between 1 and 2^32, 2^32 for /0, 2 for /31, 1 for /32, at least 4 up to /30. |
| AddressBlocks.Broadcast | model.py:130-131 | The broadcast is identity + count - 1 with the identity's prefix. It fails exactly when identity + count reaches 2^32. |
| AddressBlocks.LowerBound | model.py:133-134 | The lower bound is identity + 1. It fails only for the last address. |
| AddressBlocks.UpperBound | model.py:136-137 | The upper bound is identity + count - 2. It fails exactly when identity + count is 2^32 or more, or below 2. |
| AddressBlocks.Contains | model.py:142-143 | True iff identity <= a < identity + count < 2^32, whatever a's prefix. It fails iff identity <= a and the broadcast cannot be formed. |
| AddressBlocks.ContainsIffSameNetwork | model.py:142-143 | For an aligned identity below the top block, containment holds iff a's network part under the block's prefix is the identity. |
| AddressBlocks.TopBlockFails | model.py:130-143 | For a block that ends at 2^32, the broadcast, the upper bound and containment at or above the identity all fail. |
| AddressBlocks.Run | model.py:150-155 | The addresses from a start value to an end value inclusive: end - start + 1 of them, the i-th with value start + i and the given prefix, none when start > end. |
| AddressBlocks.Hosts | model.py:145-155 | Iteration succeeds iff the upper bound exists. It yields count - 2 strictly increasing addresses with the block's prefix up to /30, and none for /31 and /32. |
| AddressBlocks.HostsAreInnerAddresses | model.py:142-155 | The hosts are exactly the contained addresses with the block's prefix, other than the identity and the broadcast. |
| AddressBlocks.AddressBlock.constructor | model.py:124-125 | A new block holds the given address as its identity. It has no cursor and no stored upper bound until `__iter__` runs, and the block invariant holds. |
| AddressBlocks.AddressBlock.UpperBoundAddress | model.py:136-148 | `get_upper_bound_address()` succeeds only before `__iter__` has stored its value, and then equals identity + count - 2 with the identity's prefix. |
| AddressBlocks.AddressBlock.Iter | model.py:145-148 | `__iter__` resets the cursor to the lower bound first. It succeeds iff it is the first successful call and the bounds exist; the remaining sequence is then all the hosts. |
| AddressBlocks.AddressBlock.Next | model.py:150-155 | `__next__` returns the first remaining address and advances the cursor in place, or stops when none remain and leaves the cursor where it is. On success the cursor's value grows by exactly 1. |
| AddressBlocks.IterateTwice | model.py:145-148 | On a fresh block the first `__iter__` succeeds iff the hosts exist, and the second always fails. |
| AddressBlocks.ListHosts | model.py:145-155 | Running the iterator protocol to its end yields exactly the hosts, lower bound to upper bound. |
| Registry.FirstIndex | model.py:171-172 | The index found holds the element, and no earlier position does. |
| Registry.RemoveFirst | model.py:171-172 | `list.remove` drops one occurrence, the first. Everything before and after it is kept in order. |
| Registry.SumCounts | model.py:165-166 | The total of the block counts is at least the number of blocks. |
| Registry.SumCountsAppend | model.py:165-169 | The total over two concatenated lists is the sum of their totals. |
| Registry.RemoveThenAddKeepsTotal | model.py:165-172 | Removing a block and appending it again leaves the total unchanged. |
| Registry.Occurs | model.py:200 | `query in name`: a match is no longer than the name and uses only characters of the name; a prefix of the name always matches. |
| Registry.NameMatches | model.py:197-201 | The matches are no more than the organizations, and each is listed and has the query in its name. |
| Registry.NameMatchesMembers | model.py:197-201 | An organization is matched iff it is listed and its name contains the query as a substring. |
| Registry.NameMatchesAppend | model.py:197-201 | Matching distributes over concatenation, so the matches keep the registry's order. |
| Registry.Organization.constructor | model.py:161-163 | A new organization holds its name and a copy of the given blocks. |
| Registry.Organization.TotalUsableAddresses | model.py:165-166 | The total is at least the number of blocks, and 0 for none. |
| Registry.Organization.AddBlock | model.py:168-169 | The block is appended and the total grows by exactly its count. |
| Registry.Organization.RemoveBlock | model.py:171-172 | It succeeds iff the block object is held; it then removes its first occurrence, and otherwise changes nothing. |
| Registry.Database.constructor | model.py:178-179 | A new database holds no organizations. |
| Registry.Database.AddOrganization | model.py:181-182 | The organization is appended at the end. |
| Registry.Database.RemoveOrganization | model.py:184-185 | It succeeds iff the object is held (never for `None`). It then removes the first occurrence, and otherwise changes nothing. |
| Registry.Database.GetOrganizationByName | model.py:187-191 | It returns the first organization with exactly that name, or `None` iff there is none. |
| Registry.Database.SearchByName | model.py:197-201 | The name pass returns exactly the organizations whose name contains the query, in insertion order. |
| Bits.BitAnd | model.py:71-74 | `a & b` on non-negative integers is at most each operand. |
| Bits.AndLowOnes | model.py:73-74 | AND with k low one-bits keeps exactly the k low bits of the value. |
| Bits.AndHighOnes | model.py:70-71 | AND of a value below 2^n with the ones in bits k..n-1 clears its k low bits. |
| Text.IsDigits | model.py:21-41 | `str.isdigit`: at least one character, every one a decimal digit. A predicate with no contract of its own; `Text.DecimalString` shows every decimal spelling satisfies it. |
| Text.DecimalValue | model.py:23-50 | `int(s)` on a digit string, most significant digit first. No contract of its own; `Text.DecimalString` pins it: the spelling of n reads back as n. |
| Text.BinaryValue | model.py:31-44 | `int(s, 2)`, rejecting any character other than 0 and 1. No contract of its own; `Text.BinaryDigits`, `Text.BinaryBelow` and `Text.BinaryConcat` pin it. |
| Text.BinaryDigits | model.py:44-46 | `int(s, 2)` succeeds iff every character is 0 or 1. |
| Text.BinaryBelow | model.py:43-46 | A binary string of n digits has a value below 2^n. |
| Text.BinaryConcat | model.py:43-46 | Reading a concatenation in binary gives the first part shifted left by the length of the second, plus the second. |
| Text.DecimalString | model.py:80 | `str(n)` is a digit string that reads back as n, with at most three digits below 1000. |
| Text.Count | model.py:17-26 | `s.count(c)` for one character is at most the length of s. |
| Text.CountConcat | model.py:17-26 | The count over a concatenation is the sum of the counts. |
| Text.CountAbsent | model.py:17-26 | The count is 0 iff the character does not occur. |
| Text.Split | model.py:27 | `split` gives one more piece than there are separators, none containing the separator. |
| Text.Join | model.py:82 | `'.'.join(parts)`. No contract of its own; `Text.JoinSplit` and `Text.SplitJoin` pin it as the inverse of `split`. |
| Text.JoinSplit | model.py:82 | Joining the pieces of a split gives back the text. |
| Text.SplitJoin | model.py:82 | Splitting a join of separator-free pieces gives back the pieces. |
| Scenarios.BinaryTokenValue | application.py:228 | The 32 binary digits `00001111010101011110000110100101` have the value 257286565, the bytes 15, 85, 225 and 165. |
| Scenarios.BinaryWithSuffix | model.py:17-46 | A 32-digit binary token with a `/N` suffix parses to the token's value with prefix N. |
| Scenarios.BinaryTokenExample | application.py:228 | `00001111010101011110000110100101/24` parses to value 257286565 with prefix 24. |
| Scenarios.ParseExample | application.py:226 | `155.153.45.23/24` parses to value 2610507031 with prefix 24. |
| Scenarios.ShowExample | model.py:76-82 | That address formats back as `155.153.45.23/24`. |
| Scenarios.MaskExample | model.py:63-64 | Its /24 mask is `255.255.255.0` with prefix 0, and that text is rejected by the parser. |
| Scenarios.NetworkExample | model.py:70-74 | Its network part is 155.153.45.0 and its host part is 23, both with prefix 0. |
| Scenarios.BlockExample | application.py:232-233 | For 18.1.0.0/20: count 4096, bounds 18.1.0.1 and 18.1.15.254, broadcast 18.1.15.255, containment at both ends, and 4094 hosts. |
| Scenarios.ContainmentExample | application.py:230-231 | The misaligned 96.85.162.16/22 contains its identity and its broadcast, but not the addresses just outside them. |
| Scenarios.EdgeBlocks | model.py:130-155 | 0.0.0.0/0 has no broadcast and no hosts. The last address /32 and 0.0.0.0/32 cannot be iterated. A /31 or a /32 inside the space yields no hosts. |
| Scenarios.SampleTotal | application.py:226-235 | Google's two /24 blocks hold 512 addresses. |
| Scenarios.SampleDatabase | application.py:235-246 | The five sample organizations, Google, Amazon, SpaceX, Bala's Chicken Store and SpaceY, are added to a new database in that order. |
| Scenarios.SpaceMatches | model.py:197-201 | Among the five sample names, the query "Space" matches SpaceX and SpaceY only. |
| Scenarios.SampleRegistry | application.py:235-246 | In the five-organization registry, lookup finds SpaceY, and the query "Space" matches SpaceX and SpaceY in order. |
| Scenarios.SampleRemoval | model.py:184-191 | After SpaceY is removed from the five-organization registry, looking it up returns `None`. |

## Left out

- `application.py`, the Tkinter user interface with its dialogs, cards, theme and scaling handler, is not part of this model. It only calls the model.
- The address-resolution half of `search_all` and its four-part result are not in `model.py`. Only the name-filter loop is modelled.
- The constructor's runtime type dispatch is split into `FromInt` and `FromText`. The invalid-argument-type branch and `bool` passed as an integer are not modelled.
- The copy constructor `IPAddress(other)` and `get_copy` are not separate members. `Address` is an immutable value, so a copy is the value itself.
- IPv4.FromInt: the prefix argument is assumed to be in 0..32, as model.py:7 documents. A prefix outside that range would make the mask arithmetic produce floats or huge numbers.
- Exception messages, and the difference between `ValueError` and `Exception`, are not modelled. Every rejection is the single result `Invalid`.
- Digits are ASCII `0`-`9`. Unicode digits that Python's `isdigit` also accepts are not modelled.
- The `__repr__` of `IPAddressBlock` and of `Organization` are not modelled. They are display strings built from `IPv4.Show`.
- AddressBlocks.AddressBlock.Next: requires a successful `__iter__` first. Calling `__next__` on a block that was never iterated raises in the source, because `current_address` does not exist. Calling it after a failed `__iter__` also raises: a comparison against the bound method `get_upper_bound_address` (model.py:151), or against a missing `current_address`. The model leaves out those error paths.
- The sample organizations in `Scenarios` are built without their address blocks. `SampleTotal` covers Google's blocks separately.
- The identity address of a block is an immutable value in the model. The source stores the caller's `IPAddress` object, so a later `+=` on that object would move the block; that aliasing is not modelled.
- The iterator's cursor is a fresh object that nothing else references. A caller who keeps a yielded address is not affected by later `+=` on the cursor, because `__next__` returns a new object.
- `Organization` copies its initial blocks with `list(...)`. Passing a single block instead of a list, as application.py:236 does, is caller misuse and is not modelled.
