/** `IPAddress` (model.py:1-121): a 32-bit address value with a prefix length, its text
    parser, its dotted-decimal formatting, mask arithmetic, comparisons and offsets. */
module IPv4 {
  import opened Outcome
  import opened Bits
  import opened Text

  /** 2^32, the size of the address space. */
  const SPACE: int := 0x1_0000_0000

  type U32 = v: int | 0 <= v < 0x1_0000_0000

  /** The prefix length; 0 doubles as "no prefix given". */
  type Prefix = l: int | 0 <= l <= 32

  /** An address as the source's constructor leaves it. Python's `==` on two addresses
      compares both fields, which is exactly equality of this datatype. */
  datatype Address = Address(value: U32, prefix: Prefix)

  // ---------------------------------------------------------------------------
  // Construction

  /** `IPAddress(n, prefix)` for an integer n: only the value is range-checked. */
  function FromInt(n: int, prefix: Prefix): (r: Result<Address>)
    ensures r.Ok? <==> 0 <= n < SPACE
    ensures r.Ok? ==> r.value.value == n && r.value.prefix == prefix
  {
    if 0 <= n < SPACE then Ok(Address(n, prefix)) else Invalid
  }

  /** One dot-separated part: digits only; 8 characters are read in binary, 1 to 3 in
      decimal, any other length is rejected; the octet must be below 255. */
  function ParseOctet(part: string): (r: Result<nat>)
    ensures r.Ok? ==> r.value < 255
    ensures r.Ok? ==> IsDigits(part) && (|part| <= 3 || |part| == 8)
    ensures IsDigits(part) && |part| <= 3 ==>
      (r.Ok? <==> DecimalValue(part) < 255) && (r.Ok? ==> r.value == DecimalValue(part))
    ensures IsDigits(part) && |part| == 8 ==>
      (r.Ok? <==> BinaryValue(part).Some? && BinaryValue(part).value < 255) &&
      (r.Ok? ==> r.value == BinaryValue(part).value)
  {
    if !IsDigits(part) then Invalid
    else if |part| == 8 then
      match BinaryValue(part)
      case None => Invalid
      case Some(v) => if v < 255 then Ok(v) else Invalid
    else if |part| > 3 then Invalid
    else if DecimalValue(part) < 255 then Ok(DecimalValue(part))
    else Invalid
  }

  function Pow256(n: nat): nat
  {
    if n == 0 then 1 else 256 * Pow256(n - 1)
  }

  /** The value the constructor's loop accumulates, `value * 256 + octet` per part,
      failing at the first part that is not an octet. */
  function DottedValue(parts: seq<string>): (r: Result<nat>)
    ensures r.Ok? ==> r.value < Pow256(|parts|)
  {
    if parts == [] then Ok(0)
    else
      match DottedValue(parts[..|parts| - 1])
      case Invalid => Invalid
      case Ok(acc) =>
        match ParseOctet(parts[|parts| - 1])
        case Invalid => Invalid
        case Ok(octet) => Ok(acc * 256 + octet)
  }

  lemma {:induction false} DottedOk(parts: seq<string>)
    ensures DottedValue(parts).Ok? <==> forall i :: 0 <= i < |parts| ==> ParseOctet(parts[i]).Ok?
  {
    if parts != [] {
      var init := parts[..|parts| - 1];
      DottedOk(init);
      assert forall i :: 0 <= i < |init| ==> init[i] == parts[i];
    }
  }

  lemma DottedSnoc(parts: seq<string>, part: string)
    ensures DottedValue(parts + [part]) ==
      match DottedValue(parts)
      case Invalid => Invalid
      case Ok(acc) =>
        match ParseOctet(part)
        case Invalid => Invalid
        case Ok(octet) => Ok(acc * 256 + octet)
  {
    assert (parts + [part])[..|parts|] == parts;
  }

  /** Four octets, most significant first, make the value `((o0*256+o1)*256+o2)*256+o3`. */
  lemma DottedFour(parts: seq<string>, o0: nat, o1: nat, o2: nat, o3: nat)
    requires |parts| == 4
    requires ParseOctet(parts[0]) == Ok(o0) && ParseOctet(parts[1]) == Ok(o1)
    requires ParseOctet(parts[2]) == Ok(o2) && ParseOctet(parts[3]) == Ok(o3)
    ensures DottedValue(parts) == Ok(((o0 * 256 + o1) * 256 + o2) * 256 + o3)
  {
    var p0, p1, p2, p3 := parts[0], parts[1], parts[2], parts[3];
    DottedSnoc([], p0);
    assert [] + [p0] == [p0];
    DottedSnoc([p0], p1);
    assert [p0] + [p1] == [p0, p1];
    DottedSnoc([p0, p1], p2);
    assert [p0, p1] + [p2] == [p0, p1, p2];
    DottedSnoc([p0, p1, p2], p3);
    assert [p0, p1, p2] + [p3] == parts;
  }

  /** One part that is not an octet rejects the whole address. */
  lemma DottedRejects(parts: seq<string>, i: nat)
    requires i < |parts| && ParseOctet(parts[i]).Invalid?
    ensures DottedValue(parts) == Invalid
  {
    DottedOk(parts);
  }

  /** The part of the constructor after the CIDR suffix is taken off (model.py:26-52). */
  function ParseBody(body: string, prefix: Prefix): (r: Result<Address>)
    ensures r.Ok? ==> r.value.prefix == prefix
    ensures Count(body, '.') == 3 ==> (r.Ok? <==> DottedValue(Split(body, '.')).Ok?)
    ensures Count(body, '.') != 3 && r.Ok? ==> IsDigits(body) && (|body| <= 10 || |body| == 32)
  {
    if Count(body, '.') == 3 then
      match DottedValue(Split(body, '.'))
      case Invalid => Invalid
      case Ok(v) =>
        // four octets below 255 never leave the address space
        assert Pow256(4) == SPACE;
        Ok(Address(v, prefix))
    else if !IsDigits(body) then Invalid
    else if |body| == 32 then
      match BinaryValue(body)
      case None => Invalid
      case Some(v) => FromInt(v, prefix)
    else if |body| > 10 then Invalid
    else FromInt(DecimalValue(body), prefix)
  }

  /** `IPAddress(s, prefixArg)` for a string s (model.py:16-52). */
  function ParseText(s: string, prefixArg: Prefix): (r: Result<Address>)
    ensures r.Ok? ==> Count(s, '/') <= 1
    ensures r.Ok? && Count(s, '/') == 0 ==> r.value.prefix == prefixArg
    ensures r.Ok? && Count(s, '/') == 1 ==>
      IsDigits(Split(s, '/')[1]) && r.value.prefix == DecimalValue(Split(s, '/')[1])
  {
    var slashes := Count(s, '/');
    if slashes > 1 then Invalid
    else if slashes == 1 then
      var pieces := Split(s, '/');
      if !IsDigits(pieces[1]) || DecimalValue(pieces[1]) > 32 then Invalid
      else ParseBody(pieces[0], DecimalValue(pieces[1]))
    else ParseBody(s, prefixArg)
  }

  lemma ParseDottedBody(s: string, p: Prefix)
    requires Count(s, '/') == 0 && Count(s, '.') == 3
    ensures ParseText(s, p) == if DottedValue(Split(s, '.')).Ok? then Ok(Address(DottedValue(Split(s, '.')).value, p)) else Invalid
  {
    assert ParseText(s, p) == ParseBody(s, p);
  }

  /** A slash-free text with exactly three dots is four octets, most significant first. */
  lemma ParseDotted(s: string, p: Prefix, o0: nat, o1: nat, o2: nat, o3: nat)
    requires Count(s, '/') == 0 && Count(s, '.') == 3
    requires var parts := Split(s, '.');
      ParseOctet(parts[0]) == Ok(o0) && ParseOctet(parts[1]) == Ok(o1) &&
      ParseOctet(parts[2]) == Ok(o2) && ParseOctet(parts[3]) == Ok(o3)
    ensures ParseText(s, p) == Ok(Address(((o0 * 256 + o1) * 256 + o2) * 256 + o3, p))
  {
    ParseDottedBody(s, p);
    DottedFour(Split(s, '.'), o0, o1, o2, o3);
  }

  /** One of the four parts that is not an octet rejects the text. */
  lemma ParseDottedRejects(s: string, p: Prefix, i: nat)
    requires Count(s, '/') == 0 && Count(s, '.') == 3
    requires i < 4 && ParseOctet(Split(s, '.')[i]).Invalid?
    ensures ParseText(s, p) == Invalid
  {
    ParseDottedBody(s, p);
    DottedRejects(Split(s, '.'), i);
  }

  /** A slash-free text without exactly three dots is one token: 32 characters are read
      in binary, up to 10 in decimal below 2^32, and 11 to 31 or more than 32 are
      rejected. */
  lemma ParseToken(s: string, p: Prefix)
    requires Count(s, '/') == 0 && Count(s, '.') != 3
    ensures ParseText(s, p).Ok? ==> IsDigits(s) && (|s| <= 10 || |s| == 32)
    ensures IsDigits(s) && |s| == 32 ==>
      (ParseText(s, p).Ok? <==> BinaryValue(s).Some?) &&
      (BinaryValue(s).Some? ==> ParseText(s, p) == Ok(Address(BinaryValue(s).value, p)))
    ensures IsDigits(s) && |s| <= 10 ==>
      ParseText(s, p) == if DecimalValue(s) < SPACE then Ok(Address(DecimalValue(s), p)) else Invalid
  {
    if IsDigits(s) && |s| == 32 && BinaryValue(s).Some? {
      BinaryBelow(s);
      Pow2Of32();
    }
  }

  /** A `/N` suffix replaces the prefix argument: the text before the slash is parsed as
      if N had been passed to the constructor. */
  lemma CidrSuffix(body: string, suffix: string, p: Prefix)
    requires '/' !in body && '/' !in suffix
    requires IsDigits(suffix) && DecimalValue(suffix) <= 32
    ensures ParseText(body + "/" + suffix, p) == ParseText(body, DecimalValue(suffix))
  {
    var s := body + "/" + suffix;
    CountAbsent(body, '/');
    CountAbsent(suffix, '/');
    CountConcat(body + "/", suffix, '/');
    CountConcat(body, "/", '/');
    SplitFirst(body, suffix, '/');
    SplitWithout(suffix, '/');
    assert Split(s, '/') == [body, suffix];
  }

  lemma AllOnes()
    ensures BinaryValue("11111110") == Some(254) && BinaryValue("11111111") == Some(255)
  {
    assert BinaryValue("1") == Some(1) by { assert "1"[..0] == ""; }
    assert BinaryValue("11") == Some(3) by { assert "11"[..1] == "1"; }
    assert BinaryValue("111") == Some(7) by { assert "111"[..2] == "11"; }
    assert BinaryValue("1111") == Some(15) by { assert "1111"[..3] == "111"; }
    assert BinaryValue("11111") == Some(31) by { assert "11111"[..4] == "1111"; }
    assert BinaryValue("111111") == Some(63) by { assert "111111"[..5] == "11111"; }
    assert BinaryValue("1111111") == Some(127) by { assert "1111111"[..6] == "111111"; }
    assert "11111110"[..7] == "1111111" && "11111111"[..7] == "1111111";
  }

  /** The octet bound is `< 255` for both spellings, so `255` and `11111111` are refused;
      an 8-digit part is always read in binary, so `00000002` is refused too. */
  lemma OctetEdges()
    ensures ParseOctet("254") == Ok(254) && ParseOctet("255") == Invalid
    ensures ParseOctet("11111110") == Ok(254) && ParseOctet("11111111") == Invalid
    ensures ParseOctet("00000002") == Invalid && ParseOctet("0002") == Invalid
    ensures ParseOctet("") == Invalid && ParseOctet("1a") == Invalid
  {
    assert DecimalValue("254") == 254 by {
      assert "254"[..2] == "25" && "25"[..1] == "2" && "2"[..0] == "";
    }
    assert DecimalValue("255") == 255 by {
      assert "255"[..2] == "25" && "25"[..1] == "2" && "2"[..0] == "";
    }
    AllOnes();
    assert "00000002"[7] == '2';
    assert !IsDigit("1a"[1]);
  }

  /** The constructor on a string, with its loop over the dotted parts. */
  method FromText(s: string, prefixArg: Prefix) returns (r: Result<Address>)
    ensures r == ParseText(s, prefixArg)
  {
    var body, prefix := s, prefixArg;
    var slashes := Count(s, '/');
    if slashes > 1 {
      return Invalid;
    }
    if slashes == 1 {
      var pieces := Split(s, '/');
      if !IsDigits(pieces[1]) || DecimalValue(pieces[1]) > 32 {
        return Invalid;
      }
      body, prefix := pieces[0], DecimalValue(pieces[1]);
    }
    if Count(body, '.') == 3 {
      var parts := Split(body, '.');
      var acc := 0;
      var i := 0;
      while i < |parts|
        invariant 0 <= i <= |parts|
        invariant DottedValue(parts[..i]) == Ok(acc)
      {
        var octet := ParseOctet(parts[i]);
        if octet.Invalid? {
          DottedOk(parts);
          return Invalid;
        }
        assert parts[..i + 1][..i] == parts[..i];
        acc := acc * 256 + octet.value;
        i := i + 1;
      }
      assert parts[..i] == parts;
      assert Pow256(4) == SPACE;
      r := Ok(Address(acc, prefix));
    } else if !IsDigits(body) {
      r := Invalid;
    } else if |body| == 32 {
      var bits := BinaryValue(body);
      r := if bits.None? then Invalid else FromInt(bits.value, prefix);
    } else if |body| > 10 {
      r := Invalid;
    } else {
      r := FromInt(DecimalValue(body), prefix);
    }
  }

  // ---------------------------------------------------------------------------
  // Formatting

  /** The first n base-256 digits of v, least significant first. */
  function OctetsLE(v: nat, n: nat): (os: seq<nat>)
    ensures |os| == n
    ensures forall i :: 0 <= i < n ==> os[i] < 256
  {
    if n == 0 then [] else [v % 256] + OctetsLE(v / 256, n - 1)
  }

  function DecimalStrings(os: seq<nat>): (ss: seq<string>)
    ensures |ss| == |os|
  {
    if os == [] then [] else [DecimalString(os[0])] + DecimalStrings(os[1..])
  }

  lemma {:induction false} DecimalStringsAt(os: seq<nat>, i: nat)
    requires i < |os|
    ensures DecimalStrings(os)[i] == DecimalString(os[i])
  {
    if i > 0 {
      DecimalStringsAt(os[1..], i - 1);
    }
  }

  lemma DecimalStringsStep(v: nat, n: nat)
    ensures DecimalStrings(OctetsLE(v, n + 1)) == [DecimalString(v % 256)] + DecimalStrings(OctetsLE(v / 256, n))
  {
    var rest := OctetsLE(v / 256, n);
    assert OctetsLE(v, n + 1) == [v % 256] + rest;
    assert ([v % 256] + rest)[1..] == rest;
  }

  function Reverse<T>(s: seq<T>): (r: seq<T>)
    ensures |r| == |s|
  {
    seq(|s|, i requires 0 <= i < |s| => s[|s| - 1 - i])
  }

  /** `repr(a)`: four decimal octets, most significant first, then `/L` when L is not 0. */
  function Show(a: Address): (s: string)
    ensures Count(s, '.') == 3
    ensures Count(s, '/') == if a.prefix == 0 then 0 else 1
  {
    ShowShape(a);
    Join(ShownOctets(a), '.')
      + (if a.prefix != 0 then "/" + DecimalString(a.prefix) else "")
  }

  lemma ShowShape(a: Address)
    ensures var s := Join(ShownOctets(a), '.') + (if a.prefix != 0 then "/" + DecimalString(a.prefix) else "");
      Count(s, '.') == 3 && Count(s, '/') == if a.prefix == 0 then 0 else 1
  {
    var body := Join(ShownOctets(a), '.');
    ShownOctetsSeparable(a);
    CountAbsent(body, '/');
    var tail := if a.prefix != 0 then "/" + DecimalString(a.prefix) else "";
    CountConcat(body, tail, '.');
    CountConcat(body, tail, '/');
    if a.prefix != 0 {
      var digits := DecimalString(a.prefix);
      NoCharInDigits(digits, '.');
      NoCharInDigits(digits, '/');
      CountAbsent(digits, '.');
      CountAbsent(digits, '/');
      CountConcat("/", digits, '.');
      CountConcat("/", digits, '/');
    }
  }

  /** `__repr__` with its loop over the four octets (model.py:76-82). */
  method Repr(a: Address) returns (s: string)
    ensures s == Show(a)
  {
    var digits: seq<string> := [];
    var v: nat := a.value;
    for i := 0 to 4
      invariant |digits| == i
      invariant digits + DecimalStrings(OctetsLE(v, 4 - i)) == DecimalStrings(OctetsLE(a.value, 4))
    {
      DecimalStringsStep(v, 3 - i);
      assert digits + DecimalStrings(OctetsLE(v, 4 - i))
          == (digits + [DecimalString(v % 256)]) + DecimalStrings(OctetsLE(v / 256, 3 - i));
      digits := digits + [DecimalString(v % 256)];
      v := v / 256;
    }
    assert digits + [] == digits;
    s := Join(Reverse(digits), '.');
    if a.prefix != 0 {
      s := s + "/" + DecimalString(a.prefix);
    }
  }

  /** The octets of an address, most significant first, rebuild its value. */
  lemma OctetsReassemble(v: U32)
    ensures var os := OctetsLE(v, 4);
      ((os[3] * 256 + os[2]) * 256 + os[1]) * 256 + os[0] == v
  {
    var v1 := v / 256;
    var v2 := v1 / 256;
    var v3 := v2 / 256;
    assert OctetsLE(v3, 1) == [v3 % 256] + OctetsLE(v3 / 256, 0);
    assert OctetsLE(v2, 2) == [v2 % 256] + OctetsLE(v3, 1);
    assert OctetsLE(v1, 3) == [v1 % 256] + OctetsLE(v2, 2);
    assert OctetsLE(v, 4) == [v % 256] + OctetsLE(v1, 3);
    assert v3 < 256;
  }

  /** Four octets, least significant first, are what `OctetsLE` takes back out of the
      value they make: the converse of `OctetsReassemble`. */
  lemma OctetsSplit(o0: nat, o1: nat, o2: nat, o3: nat)
    requires o0 < 256 && o1 < 256 && o2 < 256 && o3 < 256
    ensures OctetsLE(((o3 * 256 + o2) * 256 + o1) * 256 + o0, 4) == [o0, o1, o2, o3]
  {
    var v2 := o3 * 256 + o2;
    var v1 := v2 * 256 + o1;
    var v := v1 * 256 + o0;
    DivModUnique(v, 256, v1, o0);
    DivModUnique(v1, 256, v2, o1);
    DivModUnique(v2, 256, o3, o2);
    DivModUnique(o3, 256, 0, o3);
    assert OctetsLE(o3, 1) == [o3] + OctetsLE(0, 0);
    assert OctetsLE(v2, 2) == [o2] + OctetsLE(o3, 1);
    assert OctetsLE(v1, 3) == [o1] + OctetsLE(v2, 2);
    assert OctetsLE(v, 4) == [o0] + OctetsLE(v1, 3);
  }

  /** A formatted octet re-parses to itself exactly when it is below 255. */
  lemma OctetRoundTrip(o: nat)
    requires o < 256
    ensures ParseOctet(DecimalString(o)) == if o < 255 then Ok(o) else Invalid
  {
  }

  predicate OctetsBelow255(a: Address)
  {
    var os := OctetsLE(a.value, 4);
    os[0] < 255 && os[1] < 255 && os[2] < 255 && os[3] < 255
  }

  lemma NoCharInDigits(s: string, c: char)
    requires AllDigits(s) && !IsDigit(c)
    ensures c !in s
  {
  }

  lemma {:induction false} JoinWithout(parts: seq<string>, c: char, d: char)
    requires |parts| >= 1 && c != d
    requires forall i :: 0 <= i < |parts| ==> d !in parts[i]
    ensures d !in Join(parts, c)
  {
    if |parts| > 1 {
      JoinWithout(parts[1..], c, d);
    }
  }

  /** The dotted part of Show(a): one decimal string per octet, most significant first. */
  function ShownOctets(a: Address): (parts: seq<string>)
    ensures var os := OctetsLE(a.value, 4);
      parts == [DecimalString(os[3]), DecimalString(os[2]), DecimalString(os[1]), DecimalString(os[0])]
  {
    var os := OctetsLE(a.value, 4);
    DecimalStringsAt(os, 0);
    DecimalStringsAt(os, 1);
    DecimalStringsAt(os, 2);
    DecimalStringsAt(os, 3);
    Reverse(DecimalStrings(os))
  }

  lemma ShownOctetsSeparable(a: Address)
    ensures forall i :: 0 <= i < 4 ==> '.' !in ShownOctets(a)[i] && '/' !in ShownOctets(a)[i]
    ensures '/' !in Join(ShownOctets(a), '.')
    ensures Split(Join(ShownOctets(a), '.'), '.') == ShownOctets(a)
    ensures Count(Join(ShownOctets(a), '.'), '.') == 3
  {
    var parts := ShownOctets(a);
    forall i | 0 <= i < 4
      ensures '.' !in parts[i] && '/' !in parts[i]
    {
      NoCharInDigits(parts[i], '.');
      NoCharInDigits(parts[i], '/');
    }
    JoinWithout(parts, '.', '/');
    SplitJoin(parts, '.');
  }

  lemma ShownOctetsValue(a: Address)
    ensures DottedValue(ShownOctets(a)) == if OctetsBelow255(a) then Ok(a.value) else Invalid
  {
    var os := OctetsLE(a.value, 4);
    var parts := ShownOctets(a);
    OctetRoundTrip(os[3]);
    OctetRoundTrip(os[2]);
    OctetRoundTrip(os[1]);
    OctetRoundTrip(os[0]);
    if OctetsBelow255(a) {
      DottedFour(parts, os[3], os[2], os[1], os[0]);
      OctetsReassemble(a.value);
    } else if os[3] >= 255 {
      DottedRejects(parts, 0);
    } else if os[2] >= 255 {
      DottedRejects(parts, 1);
    } else if os[1] >= 255 {
      DottedRejects(parts, 2);
    } else {
      DottedRejects(parts, 3);
    }
  }

  /** The dotted part of Show(a) parses back to a's value, unless an octet is 255. */
  lemma DottedRoundTrip(a: Address, p: Prefix)
    ensures '/' !in Join(ShownOctets(a), '.')
    ensures ParseBody(Join(ShownOctets(a), '.'), p) == if OctetsBelow255(a) then Ok(Address(a.value, p)) else Invalid
  {
    ShownOctetsSeparable(a);
    ShownOctetsValue(a);
  }

  /** Formatting then parsing with the default prefix gives back the address exactly when
      no octet is 255; `255` is refused by the parser's `< 255` bound. */
  lemma ShowThenParse(a: Address)
    ensures ParseText(Show(a), 0) == if OctetsBelow255(a) then Ok(a) else Invalid
  {
    var body := Join(ShownOctets(a), '.');
    DottedRoundTrip(a, a.prefix);
    DottedRoundTrip(a, 0);
    CountAbsent(body, '/');
    if a.prefix == 0 {
      assert Show(a) == body;
    } else {
      var suffix := DecimalString(a.prefix);
      NoCharInDigits(suffix, '/');
      assert Show(a) == body + "/" + suffix;
      CidrSuffix(body, suffix, 0);
    }
  }

  // ---------------------------------------------------------------------------
  // Mask, network part and host part

  lemma PrefixPowerBounds(l: Prefix)
    ensures 1 <= Pow2(32 - l) <= SPACE
  {
    Pow2Monotone(32 - l, 32);
    Pow2Of32();
  }

  /** `get_subnet_mask`: the prefix's leading one-bits, as an address with prefix 0. */
  function SubnetMask(a: Address): (m: Address)
    ensures m.prefix == 0
    ensures a.prefix == 0 ==> m.value == 0
    ensures a.prefix == 32 ==> m.value == SPACE - 1
  {
    PrefixPowerBounds(a.prefix);
    Pow2Of32();
    Address(SPACE - Pow2(32 - a.prefix), 0)
  }

  /** Masking an in-range value with the subnet mask keeps its network part, and masking
      with the mask's 32-bit complement keeps its host part. */
  lemma MaskSelectsNetwork(a: Address, v: U32)
    ensures BitAnd(v, SubnetMask(a).value) == v - v % Pow2(32 - a.prefix)
    ensures BitAnd(v, SPACE - 1 - SubnetMask(a).value) == v % Pow2(32 - a.prefix)
  {
    Pow2Of32();
    AndHighOnes(v, 32, 32 - a.prefix);
    AndLowOnes(v, 32 - a.prefix);
    LowBitsIsMod(v, 32 - a.prefix);
  }

  /** `get_network_address`: `value & mask`; the result carries prefix 0. */
  function NetworkAddress(a: Address): (n: Address)
    ensures n.prefix == 0
    ensures n.value == a.value - a.value % Pow2(32 - a.prefix)
  {
    MaskSelectsNetwork(a, a.value);
    Address(BitAnd(a.value, SubnetMask(a).value), 0)
  }

  /** `get_host_address`: `value & ~mask`. Python's `~mask` is `-mask - 1`, whose set bits
      are the 32-bit complement of the mask plus every bit above bit 31, and an in-range
      value has none of the latter. */
  function HostAddress(a: Address): (h: Address)
    ensures h.prefix == 0
    ensures h.value == a.value % Pow2(32 - a.prefix)
  {
    MaskSelectsNetwork(a, a.value);
    Address(BitAnd(a.value, SPACE - 1 - SubnetMask(a).value), 0)
  }

  /** The network and host parts add up to the address, the network part is a multiple of
      the block size 2^(32-L) and the host part is below it. */
  lemma NetworkHostSplit(a: Address)
    ensures NetworkAddress(a).value + HostAddress(a).value == a.value
    ensures NetworkAddress(a).value % Pow2(32 - a.prefix) == 0
    ensures HostAddress(a).value < Pow2(32 - a.prefix)
  {
    var m := Pow2(32 - a.prefix);
    var q := a.value / m;
    assert a.value == m * q + a.value % m;
    DivModUnique(a.value - a.value % m, m, q, 0);
  }

  // ---------------------------------------------------------------------------
  // Comparisons (model.py:84-97): `==` is datatype equality; the orderings look at the
  // value only.

  /** `a < b`: a strict order on values; the prefixes play no part. */
  predicate Lt(a: Address, b: Address)
    ensures Lt(a, b) <==> a.value < b.value
    ensures Lt(a, b) ==> a != b
  {
    a.value < b.value
  }

  /** `a <= b`: holds for equal addresses, and for equal values whatever the prefixes. */
  predicate Le(a: Address, b: Address)
    ensures Le(a, b) <==> a.value <= b.value
    ensures a == b || a.value == b.value ==> Le(a, b)
  {
    a.value <= b.value
  }

  /** `a > b`: the mirror image of `<`. */
  predicate Gt(a: Address, b: Address)
    ensures Gt(a, b) <==> b.value < a.value
    ensures Gt(a, b) ==> a != b
  {
    a.value > b.value
  }

  /** `a >= b`: the mirror image of `<=`. */
  predicate Ge(a: Address, b: Address)
    ensures Ge(a, b) <==> b.value <= a.value
    ensures a == b || a.value == b.value ==> Ge(a, b)
  {
    a.value >= b.value
  }

  /** The orderings form one total order on values that ignores the prefix, so two
      addresses can be mutually `<=` without being `==`. */
  lemma OrderingIgnoresPrefix(a: Address, b: Address)
    ensures Le(a, b) && Le(b, a) <==> a.value == b.value
    ensures a == b ==> Le(a, b) && Ge(a, b)
    ensures Lt(a, b) <==> !Ge(a, b)
    ensures Gt(a, b) <==> Lt(b, a)
    ensures Le(a, b) || Le(b, a)
    ensures a.value == b.value && a.prefix != b.prefix ==> Le(a, b) && Le(b, a) && a != b
  {
  }

  // ---------------------------------------------------------------------------
  // Offsets (model.py:99-107): every result is re-validated by the constructor.

  /** `a + k` for an integer k: keeps a's prefix. */
  function Add(a: Address, k: int): (r: Result<Address>)
    ensures r.Ok? <==> 0 <= a.value + k < SPACE
    ensures r.Ok? ==> r.value.value == a.value + k && r.value.prefix == a.prefix
  {
    FromInt(a.value + k, a.prefix)
  }

  /** `a - k` for an integer k: keeps a's prefix. */
  function Sub(a: Address, k: int): (r: Result<Address>)
    ensures r.Ok? <==> 0 <= a.value - k < SPACE
    ensures r.Ok? ==> r.value.value == a.value - k && r.value.prefix == a.prefix
  {
    FromInt(a.value - k, a.prefix)
  }

  /** `a + b` for another address: the result has prefix 0. */
  function AddAddress(a: Address, b: Address): (r: Result<Address>)
    ensures r.Ok? <==> a.value + b.value < SPACE
    ensures r.Ok? ==> r.value.value == a.value + b.value && r.value.prefix == 0
  {
    FromInt(a.value + b.value, 0)
  }

  /** `a - b` for another address: the result has prefix 0. */
  function SubAddress(a: Address, b: Address): (r: Result<Address>)
    ensures r.Ok? <==> b.value <= a.value
    ensures r.Ok? ==> r.value.value == a.value - b.value && r.value.prefix == 0
  {
    FromInt(a.value - b.value, 0)
  }

  /** Subtracting an offset undoes adding it, and the other way round. */
  lemma AddSubInverse(a: Address, k: int)
    ensures Add(a, k).Ok? ==> Sub(Add(a, k).value, k) == Ok(a)
    ensures Sub(a, k).Ok? ==> Add(Sub(a, k).value, k) == Ok(a)
  {
  }

  // ---------------------------------------------------------------------------
  // In-place offsets (model.py:109-121)

  /** An `IPAddress` object seen through `+=` and `-=`: these rebind the value of the
      object itself, keep its prefix and skip the range check, so the value may leave
      [0, 2^32). */
  class AddressCell {
    var value: int
    var prefix: Prefix

    constructor (a: Address)
      ensures value == a.value && prefix == a.prefix
    {
      value := a.value;
      prefix := a.prefix;
    }

    /** `self += k` */
    method AddInPlace(k: int)
      modifies this
      ensures value == old(value) + k && prefix == old(prefix)
    {
      value := value + k;
    }

    /** `self += other` */
    method AddAddressInPlace(other: Address)
      modifies this
      ensures value == old(value) + other.value && prefix == old(prefix)
    {
      value := value + other.value;
    }

    /** `self -= k` */
    method SubInPlace(k: int)
      modifies this
      ensures value == old(value) - k && prefix == old(prefix)
    {
      value := value - k;
    }

    /** `self -= other` */
    method SubAddressInPlace(other: Address)
      modifies this
      ensures value == old(value) - other.value && prefix == old(prefix)
    {
      value := value - other.value;
    }

    /** `self - k`: a fresh, re-validated address with this object's prefix. */
    function Minus(k: int): (r: Result<Address>)
      reads this
      ensures r.Ok? <==> 0 <= value - k < SPACE
      ensures r.Ok? ==> r.value.value == value - k && r.value.prefix == prefix
    {
      FromInt(value - k, prefix)
    }
  }
}
