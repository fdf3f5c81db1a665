/** The application's sample data (application.py:226-246) evaluated on the model: the
    address 155.153.45.23/24, its mask, network and host parts, the blocks 18.1.0.0/20 and
    96.85.162.16/22, and a registry holding the sample organizations. */
module Scenarios {
  import opened Outcome
  import opened Bits
  import opened Text
  import opened IPv4
  import opened AddressBlocks
  import opened Registry

  lemma Spellings()
    ensures DecimalString(155) == "155" && DecimalString(153) == "153"
    ensures DecimalString(45) == "45" && DecimalString(23) == "23" && DecimalString(24) == "24"
  {
    assert DecimalString(15) == "15";
  }

  lemma JoinExample()
    ensures Join(["155", "153", "45", "23"], '.') == "155.153.45.23"
  {
    assert ["45", "23"][1..] == ["23"];
    assert ["153", "45", "23"][1..] == ["45", "23"];
    assert ["155", "153", "45", "23"][1..] == ["153", "45", "23"];
  }

  lemma ShowExample()
    ensures Show(Address(2610507031, 24)) == "155.153.45.23/24"
  {
    OctetsSplit(23, 45, 153, 155);
    Spellings();
    JoinExample();
  }

  lemma ParseExample()
    ensures ParseText("155.153.45.23/24", 0) == Ok(Address(2610507031, 24))
  {
    ShowExample();
    OctetsSplit(23, 45, 153, 155);
    ShowThenParse(Address(2610507031, 24));
  }

  lemma Pow2Small()
    ensures Pow2(8) == 256 && Pow2(12) == 4096
  {
    Pow2Add(4, 4);
    Pow2Add(4, 8);
  }

  lemma Byte0()
    ensures BinaryValue("00001111") == Some(15)
  {
    assert BinaryValue("0") == Some(0) by { assert "0"[..0] == ""; }
    assert BinaryValue("00") == Some(0) by { assert "00"[..1] == "0"; }
    assert BinaryValue("000") == Some(0) by { assert "000"[..2] == "00"; }
    assert BinaryValue("0000") == Some(0) by { assert "0000"[..3] == "000"; }
    assert BinaryValue("00001") == Some(1) by { assert "00001"[..4] == "0000"; }
    assert BinaryValue("000011") == Some(3) by { assert "000011"[..5] == "00001"; }
    assert BinaryValue("0000111") == Some(7) by { assert "0000111"[..6] == "000011"; }
    assert "00001111"[..7] == "0000111";
  }

  lemma Byte1()
    ensures BinaryValue("01010101") == Some(85)
  {
    assert BinaryValue("0") == Some(0) by { assert "0"[..0] == ""; }
    assert BinaryValue("01") == Some(1) by { assert "01"[..1] == "0"; }
    assert BinaryValue("010") == Some(2) by { assert "010"[..2] == "01"; }
    assert BinaryValue("0101") == Some(5) by { assert "0101"[..3] == "010"; }
    assert BinaryValue("01010") == Some(10) by { assert "01010"[..4] == "0101"; }
    assert BinaryValue("010101") == Some(21) by { assert "010101"[..5] == "01010"; }
    assert BinaryValue("0101010") == Some(42) by { assert "0101010"[..6] == "010101"; }
    assert "01010101"[..7] == "0101010";
  }

  lemma Byte2()
    ensures BinaryValue("11100001") == Some(225)
  {
    assert BinaryValue("1") == Some(1) by { assert "1"[..0] == ""; }
    assert BinaryValue("11") == Some(3) by { assert "11"[..1] == "1"; }
    assert BinaryValue("111") == Some(7) by { assert "111"[..2] == "11"; }
    assert BinaryValue("1110") == Some(14) by { assert "1110"[..3] == "111"; }
    assert BinaryValue("11100") == Some(28) by { assert "11100"[..4] == "1110"; }
    assert BinaryValue("111000") == Some(56) by { assert "111000"[..5] == "11100"; }
    assert BinaryValue("1110000") == Some(112) by { assert "1110000"[..6] == "111000"; }
    assert "11100001"[..7] == "1110000";
  }

  lemma Byte3()
    ensures BinaryValue("10100101") == Some(165)
  {
    assert BinaryValue("1") == Some(1) by { assert "1"[..0] == ""; }
    assert BinaryValue("10") == Some(2) by { assert "10"[..1] == "1"; }
    assert BinaryValue("101") == Some(5) by { assert "101"[..2] == "10"; }
    assert BinaryValue("1010") == Some(10) by { assert "1010"[..3] == "101"; }
    assert BinaryValue("10100") == Some(20) by { assert "10100"[..4] == "1010"; }
    assert BinaryValue("101001") == Some(41) by { assert "101001"[..5] == "10100"; }
    assert BinaryValue("1010010") == Some(82) by { assert "1010010"[..6] == "101001"; }
    assert "10100101"[..7] == "1010010";
  }

  /** Appending an 8-bit binary group shifts the value left by one byte. */
  lemma AppendByte(a: string, b: string, va: nat, vb: nat)
    requires |b| == 8 && BinaryValue(a) == Some(va) && BinaryValue(b) == Some(vb)
    ensures BinaryValue(a + b) == Some(va * 256 + vb)
  {
    Pow2Small();
    BinaryConcat(a, b);
    ShlIsMul(va, 8);
  }

  /** Four 8-bit binary groups read together give the byte values in base 256. */
  lemma FourBytesValue(b0: string, b1: string, b2: string, b3: string, v0: nat, v1: nat, v2: nat, v3: nat)
    requires |b1| == 8 && |b2| == 8 && |b3| == 8
    requires BinaryValue(b0) == Some(v0) && BinaryValue(b1) == Some(v1)
    requires BinaryValue(b2) == Some(v2) && BinaryValue(b3) == Some(v3)
    ensures BinaryValue(b0 + b1 + b2 + b3) == Some(((v0 * 256 + v1) * 256 + v2) * 256 + v3)
  {
    AppendByte(b0, b1, v0, v1);
    AppendByte(b0 + b1, b2, v0 * 256 + v1, v2);
    AppendByte(b0 + b1 + b2, b3, (v0 * 256 + v1) * 256 + v2, v3);
  }

  /** A 32-character binary token with a CIDR suffix parses to the token's value with the
      suffix as prefix. */
  lemma BinaryWithSuffix(t: string, suffix: string, v: nat)
    requires |t| == 32 && BinaryValue(t) == Some(v) && v < SPACE
    requires IsDigits(suffix) && '/' !in suffix && DecimalValue(suffix) <= 32
    ensures ParseText(t + "/" + suffix, 0) == Ok(Address(v, DecimalValue(suffix)))
  {
    BinaryDigits(t);
    assert forall i :: 0 <= i < |t| ==> t[i] == '0' || t[i] == '1';
    assert IsDigits(t);
    assert '/' !in t && '.' !in t;
    CountAbsent(t, '/');
    CountAbsent(t, '.');
    CidrSuffix(t, suffix, 0);
    ParseToken(t, DecimalValue(suffix));
  }

  /** The 32 binary digits of the sample token are 15, 85, 225 and 165 byte by byte. */
  lemma BinaryTokenValue()
    ensures BinaryValue("00001111010101011110000110100101") == Some(257286565)
  {
    Byte0(); Byte1(); Byte2(); Byte3();
    FourBytesValue("00001111", "01010101", "11100001", "10100101", 15, 85, 225, 165);
    assert "00001111" + "01010101" + "11100001" + "10100101" == "00001111010101011110000110100101";
  }

  /** `00001111010101011110000110100101/24` (application.py:228) is a 32-bit binary token with
      a CIDR suffix: value 257286565 (15.85.225.165) with prefix 24. */
  lemma BinaryTokenExample()
    ensures ParseText("00001111010101011110000110100101/24", 0) == Ok(Address(257286565, 24))
  {
    assert DecimalValue("24") == 24 by {
      assert "24"[..1] == "2" && "2"[..0] == "";
    }
    BinaryTokenValue();
    BinaryWithSuffix("00001111010101011110000110100101", "24", 257286565);
    assert "00001111010101011110000110100101" + "/" + "24" == "00001111010101011110000110100101/24";
  }

  lemma MaskText()
    ensures Join([DecimalString(255), DecimalString(255), DecimalString(255), DecimalString(0)], '.')
      == "255.255.255.0"
  {
    assert DecimalString(255) == "255" by {
      assert DecimalString(25) == "25";
    }
    assert ["255", "0"][1..] == ["0"];
    assert ["255", "255", "0"][1..] == ["255", "0"];
    assert ["255", "255", "255", "0"][1..] == ["255", "255", "0"];
  }

  lemma MaskExample()
    ensures SubnetMask(Address(2610507031, 24)) == Address(4294967040, 0)
    ensures Show(Address(4294967040, 0)) == "255.255.255.0"
    ensures ParseText("255.255.255.0", 0) == Invalid
  {
    Pow2Small();
    Pow2Of32();
    OctetsSplit(0, 255, 255, 255);
    MaskText();
    ShowThenParse(Address(4294967040, 0));
  }

  lemma NetworkExample()
    ensures NetworkAddress(Address(2610507031, 24)) == Address(2610507008, 0)
    ensures HostAddress(Address(2610507031, 24)) == Address(23, 0)
  {
    Pow2Small();
    DivModUnique(2610507031, 256, 10197293, 23);
  }

  lemma BlockExample()
    ensures AddressCount(Address(302055424, 20)) == 4096
    ensures LowerBound(Address(302055424, 20)) == Ok(Address(302055425, 20))
    ensures UpperBound(Address(302055424, 20)) == Ok(Address(302059518, 20))
    ensures Broadcast(Address(302055424, 20)) == Ok(Address(302059519, 20))
    ensures Contains(Address(302055424, 20), Address(302059519, 0)) == Ok(true)
    ensures Contains(Address(302055424, 20), Address(302059520, 0)) == Ok(false)
    ensures Contains(Address(302055424, 20), Address(302055423, 0)) == Ok(false)
    ensures Hosts(Address(302055424, 20)).Ok? && |Hosts(Address(302055424, 20)).value| == 4094
  {
    Pow2Small();
  }

  lemma EdgeBlocks()
    ensures Broadcast(Address(0, 0)).Invalid? && Hosts(Address(0, 0)).Invalid?
    ensures Contains(Address(0, 0), Address(1, 0)).Invalid?
    ensures Hosts(Address(SPACE - 1, 32)).Invalid?
    ensures Hosts(Address(0, 32)).Invalid?
    ensures Hosts(Address(167772160, 31)) == Ok([])
    ensures Hosts(Address(167772160, 32)) == Ok([])
  {
    BlockSizeBounds(0);
    BlockSizeBounds(31);
    BlockSizeBounds(32);
  }

  /** 96.85.162.16/22 is not aligned to its 1024-address size; the block is used as given,
      so it spans 96.85.162.16 through 96.85.166.15. */
  lemma ContainmentExample()
    ensures AddressCount(Address(1616224784, 22)) == 1024
    ensures Contains(Address(1616224784, 22), Address(1616224784, 0)) == Ok(true)
    ensures Contains(Address(1616224784, 22), Address(1616225807, 0)) == Ok(true)
    ensures Contains(Address(1616224784, 22), Address(1616224783, 0)) == Ok(false)
    ensures Contains(Address(1616224784, 22), Address(1616225808, 0)) == Ok(false)
  {
    Pow2Add(2, 8);
    Pow2Small();
  }

  lemma TwoSlash24(b1: AddressBlock, b2: AddressBlock)
    requires b1.identity.prefix == 24 && b2.identity.prefix == 24
    ensures SumCounts([b1, b2]) == 512
  {
    Pow2Small();
    assert AddressCount(b1.identity) == 256 && AddressCount(b2.identity) == 256;
    assert [b1, b2][1..] == [b2] && [b2][1..] == [];
    assert SumCounts([b2]) == AddressCount(b2.identity) + SumCounts([]);
  }

  /** A name without the letter `p` cannot contain "Space". */
  lemma NotSpace(name: string)
    requires 'p' !in name
    ensures !Occurs("Space", name)
  {
    assert "Space"[1] == 'p';
  }

  lemma SpaceNames()
    ensures Occurs("Space", "SpaceX") && Occurs("Space", "SpaceY")
    ensures !Occurs("Space", "Google") && !Occurs("Space", "Amazon")
    ensures !Occurs("Space", "Bala's Chicken Store")
  {
    assert "Space" <= "SpaceX"[0..] && "Space" <= "SpaceY"[0..];
    NotSpace("Google");
    NotSpace("Amazon");
    NotSpace("Bala's Chicken Store");
  }

  /** Of three organizations, a query matching the outer two and not the middle one
      selects the outer two. */
  lemma KeepSkipKeep(x: Organization, b: Organization, y: Organization, q: string)
    requires Occurs(q, x.name) && !Occurs(q, b.name) && Occurs(q, y.name)
    ensures NameMatches([x, b, y], q) == [x, y]
  {
    assert [x, b, y][1..] == [b, y] && [b, y][1..] == [y] && [y][1..] == [];
    assert NameMatches([y], q) == [y] + NameMatches([], q);
    assert NameMatches([b, y], q) == NameMatches([y], q);
  }

  /** Two leading organizations the query does not match add nothing. */
  lemma SkipTwo(g: Organization, a: Organization, rest: seq<Organization>, q: string)
    requires !Occurs(q, g.name) && !Occurs(q, a.name)
    ensures NameMatches([g, a] + rest, q) == NameMatches(rest, q)
  {
    assert ([g, a] + rest)[1..] == [a] + rest && ([a] + rest)[1..] == rest;
  }

  lemma SkipTwoKeepSkipKeep(g: Organization, a: Organization, x: Organization, b: Organization,
                            y: Organization, q: string)
    requires !Occurs(q, g.name) && !Occurs(q, a.name)
    requires Occurs(q, x.name) && !Occurs(q, b.name) && Occurs(q, y.name)
    ensures NameMatches([g, a, x, b, y], q) == [x, y]
  {
    KeepSkipKeep(x, b, y, q);
    SkipTwo(g, a, [x, b, y], q);
    assert [g, a] + [x, b, y] == [g, a, x, b, y];
  }

  lemma SpaceMatches(g: Organization, a: Organization, x: Organization, b: Organization, y: Organization)
    requires g.name == "Google" && a.name == "Amazon" && x.name == "SpaceX"
    requires b.name == "Bala's Chicken Store" && y.name == "SpaceY"
    ensures NameMatches([g, a, x, b, y], "Space") == [x, y]
  {
    SpaceNames();
    SkipTwoKeepSkipKeep(g, a, x, b, y, "Space");
  }

  /** Google's two /24 blocks (application.py:226-235) hold 512 addresses. */
  method SampleTotal() returns (total: nat)
    ensures total == 512
  {
    var b1 := new AddressBlock(Address(2610507031, 24));
    var b2 := new AddressBlock(Address(257286565, 24));
    var google := new Organization("Google", [b1, b2]);
    TwoSlash24(b1, b2);
    total := google.TotalUsableAddresses();
  }

  lemma RemoveLast(g: Organization, a: Organization, x: Organization, b: Organization, y: Organization)
    requires g != y && a != y && x != y && b != y
    ensures y in [g, a, x, b, y] && RemoveFirst([g, a, x, b, y], y) == [g, a, x, b]
  {
    assert FirstIndex([g, a, x, b, y], y) == 4;
  }

  /** The five sample organizations of application.py:235-246 (without their blocks),
      added to a new database in order. */
  method SampleDatabase() returns (db: Database, orgs: seq<Organization>)
    ensures fresh(db) && db.organizations == orgs && |orgs| == 5
    ensures orgs[0].name == "Google" && orgs[1].name == "Amazon" && orgs[2].name == "SpaceX"
    ensures orgs[3].name == "Bala's Chicken Store" && orgs[4].name == "SpaceY"
    ensures forall i :: 0 <= i < 4 ==> orgs[i] != orgs[4]
  {
    var google := new Organization("Google", []);
    var amazon := new Organization("Amazon", []);
    var spacex := new Organization("SpaceX", []);
    var bala := new Organization("Bala's Chicken Store", []);
    var spacey := new Organization("SpaceY", []);
    db := new Database();
    db.AddOrganization(google);
    db.AddOrganization(amazon);
    db.AddOrganization(spacex);
    db.AddOrganization(bala);
    db.AddOrganization(spacey);
    orgs := [google, amazon, spacex, bala, spacey];
  }

  /** In that registry lookup by name finds SpaceY, and a name query for "Space" finds
      SpaceX and SpaceY in insertion order. */
  method SampleRegistry() returns (found: Organization?, matched: seq<Organization>)
    ensures found != null && found.name == "SpaceY"
    ensures |matched| == 2 && matched[0].name == "SpaceX" && matched[1].name == "SpaceY"
  {
    var db, orgs := SampleDatabase();
    found := db.GetOrganizationByName("SpaceY");
    SpaceMatches(orgs[0], orgs[1], orgs[2], orgs[3], orgs[4]);
    assert orgs == [orgs[0], orgs[1], orgs[2], orgs[3], orgs[4]];
    matched := db.SearchByName("Space");
  }

  /** Removing SpaceY from that registry succeeds, and looking it up afterwards finds
      nothing. */
  method SampleRemoval() returns (ok: bool, gone: Organization?)
    ensures ok && gone == null
  {
    var db, orgs := SampleDatabase();
    assert orgs == [orgs[0], orgs[1], orgs[2], orgs[3], orgs[4]];
    RemoveLast(orgs[0], orgs[1], orgs[2], orgs[3], orgs[4]);
    ok := db.RemoveOrganization(orgs[4]);
    assert db.organizations == orgs[..4];
    gone := db.GetOrganizationByName("SpaceY");
  }
}
