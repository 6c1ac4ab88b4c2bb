/**
 * Dotted addresses whose four parts are written in any of the three radixes. The branch of the
 * normalisation (src/validation/network-security.ts) is chosen by the first part, and reads no other
 * radix but that one and decimal.
 */
module MixedSpellings {
  import opened Text
  import opened NetworkSecurity

  datatype Radix = Dec | Oct | Hex

  predicate Writes(p: string, v: nat, r: Radix) {
    match r
    case Dec => DecimalPart(p, v)
    case Oct => OctalPart(p, v)
    case Hex => HexPart(p, v)
  }

  /** The byte that part `i` of a dotted address stands for. */
  function ByteAt(n: nat, i: nat): nat
    requires i < 4
  {
    Byte(n, 3 - i)
  }

  /** `host` writes the 32-bit address `n` byte by byte, each part in its own radix. */
  predicate SpellsDotted(host: string, n: nat, radixes: seq<Radix>) {
    var parts := Split(host, '.');
    && n <= 0xFFFF_FFFF && |parts| == |radixes| == 4
    && Writes(parts[0], ByteAt(n, 0), radixes[0]) && Writes(parts[1], ByteAt(n, 1), radixes[1])
    && Writes(parts[2], ByteAt(n, 2), radixes[2]) && Writes(parts[3], ByteAt(n, 3), radixes[3])
  }

  /** Which parts the branch chosen by the first part turns into decimal. */
  predicate Read(first: Radix, r: Radix) {
    r == Dec || r == first
  }

  function ReadPart(first: Radix, p: string, v: nat, r: Radix): string {
    if Read(first, r) then Decimal(v) else p
  }

  /** The parts of the normal form: those read come out in decimal, the others as they were. */
  function NormalParts(host: string, n: nat, radixes: seq<Radix>): seq<string>
    requires SpellsDotted(host, n, radixes)
  {
    var parts, first := Split(host, '.'), radixes[0];
    [ReadPart(first, parts[0], ByteAt(n, 0), radixes[0]), ReadPart(first, parts[1], ByteAt(n, 1), radixes[1]),
     ReadPart(first, parts[2], ByteAt(n, 2), radixes[2]), ReadPart(first, parts[3], ByteAt(n, 3), radixes[3])]
  }

  // ----- One part

  lemma WrittenShape(p: string, v: nat, r: Radix)
    requires Writes(p, v, r)
    ensures '.' !in p && p != "" && '0' <= p[0] <= '9'
    ensures r != Dec ==> p[0] == '0' && |p| >= 2 && p != Decimal(v)
    ensures AllDigits(p) <==> r != Hex
  {
    DecimalShape(v);
    if r == Dec {
      forall i | 0 <= i < |p| ensures p[i] != '.' {
        assert '0' <= Decimal(v)[i] <= '9';
      }
    } else if r == Hex {
      assert DigitValue(p[1]) == 16;
      forall i | 0 <= i < |p| ensures p[i] != '.' {
        assert i >= 2 ==> p[2..][i - 2] == p[i];
      }
    } else {
      forall i | 0 <= i < |p| ensures p[i] != '.' && DigitValue(p[i]) < 10 {
        assert DigitValue(p[i]) < 8;
      }
    }
  }

  /** The octal branch leaves hexadecimal parts alone, the hexadecimal branch octal ones. */
  lemma OtherRadixKept(p: string, v: nat)
    ensures Writes(p, v, Hex) ==> FromOctal(p) == p
    ensures Writes(p, v, Oct) ==> FromHex(p) == p
  {
    if Writes(p, v, Hex) {
      assert DigitValue(p[1..][0]) == 16;
    }
    if Writes(p, v, Oct) {
      assert DigitValue(p[1]) < 8;
    }
  }

  lemma PartRead(p: string, v: nat, r: Radix)
    requires Writes(p, v, r)
    ensures FromOctal(p) == ReadPart(Oct, p, v, r)
    ensures FromHex(p) == ReadPart(Hex, p, v, r)
    ensures p == ReadPart(Dec, p, v, r)
  {
    hide FromOctal, FromHex, Decimal, DigitValue;
    PartKept(p, v);
    OtherRadixKept(p, v);
  }

  // ----- The whole host

  lemma AllPartsRead(host: string, n: nat, rs: seq<Radix>)
    requires SpellsDotted(host, n, rs)
    ensures
      var parts, q := Split(host, '.'), NormalParts(host, n, rs);
      && (rs[0] == Dec ==> q == parts)
      && (rs[0] == Oct ==> q == Mapped(parts, FromOctal))
      && (rs[0] == Hex ==> q == Mapped(parts, FromHex))
  {
    hide Split, FromOctal, FromHex, ReadPart, Mapped, Byte, Writes;
    var parts := Split(host, '.');
    PartRead(parts[0], ByteAt(n, 0), rs[0]);
    PartRead(parts[1], ByteAt(n, 1), rs[1]);
    PartRead(parts[2], ByteAt(n, 2), rs[2]);
    PartRead(parts[3], ByteAt(n, 3), rs[3]);
    Mapped4(parts, FromOctal);
    Mapped4(parts, FromHex);
    assert parts == [parts[0], parts[1], parts[2], parts[3]];
  }

  /** The first part alone decides the branch. */
  lemma BranchByFirst(host: string, n: nat, rs: seq<Radix>)
    requires SpellsDotted(host, n, rs)
    ensures
      var parts := Split(host, '.');
      Normalize(host) ==
      match rs[0]
      case Dec => host
      case Oct => Join(Mapped(parts, FromOctal), '.')
      case Hex => Join(Mapped(parts, FromHex), '.')
  {
    hide Split, FromOctal, FromHex, Mapped, Join, Byte, Quad, Expanded, Decimal, Value;
    var p := Split(host, '.')[0];
    WrittenShape(p, ByteAt(n, 0), rs[0]);
    DecimalShape(ByteAt(n, 0));
    Beginning(host);
    match rs[0] {
      case Dec =>
      case Oct => assert DigitValue(p[1]) < 8;
      case Hex =>
        assert DigitValue(p[2]) < 16;
        assert host[2..][|p| - 2] == '.' && DigitValue('.') == 16;
    }
  }

  lemma NormalFormIs(host: string, n: nat, rs: seq<Radix>)
    requires SpellsDotted(host, n, rs)
    ensures Normalize(host) == Join(NormalParts(host, n, rs), '.')
    ensures Split(Normalize(host), '.') == NormalParts(host, n, rs)
  {
    hide Split, FromOctal, FromHex, Mapped, Join, Byte, Normalize, Decimal, Writes;
    var parts, q := Split(host, '.'), NormalParts(host, n, rs);
    JoinSplit(host, '.');
    BranchByFirst(host, n, rs);
    AllPartsRead(host, n, rs);
    forall i | 0 <= i < 4 ensures '.' !in q[i] {
      WrittenShape(parts[i], ByteAt(n, i), rs[i]);
      NoDot(ByteAt(n, i));
    }
    SplitJoin(q, '.');
  }

  lemma NoDot(v: nat)
    ensures '.' !in Decimal(v)
  {
    DecimalShape(v);
  }

  /**
   * A dotted spelling normalises to its quad exactly when every part is decimal or in the radix of the
   * first part; so octal and hexadecimal parts may not follow a decimal one, nor one another.
   */
  lemma DottedNormalizesIff(host: string, n: nat, rs: seq<Radix>)
    requires SpellsDotted(host, n, rs)
    ensures Normalize(host) == Quad(n) <==> forall i | 0 <= i < 4 :: Read(rs[0], rs[i])
  {
    hide Split, Join, Byte, Normalize, Decimal, Writes;
    var parts, q := Split(host, '.'), NormalParts(host, n, rs);
    NormalFormIs(host, n, rs);
    QuadSplits(n);
    assert QuadParts(n) == [Decimal(ByteAt(n, 0)), Decimal(ByteAt(n, 1)), Decimal(ByteAt(n, 2)), Decimal(ByteAt(n, 3))];
    forall i | 0 <= i < 4 ensures q[i] == Decimal(ByteAt(n, i)) <==> Read(rs[0], rs[i]) {
      WrittenShape(parts[i], ByteAt(n, i), rs[i]);
    }
    if forall i | 0 <= i < 4 :: Read(rs[0], rs[i]) {
      assert q == QuadParts(n);
    } else {
      var i :| 0 <= i < 4 && !Read(rs[0], rs[i]);
      assert q[i] != QuadParts(n)[i];
    }
  }

  // ----- Which of them are blocked

  /** Part `i` comes out in decimal. */
  predicate Shown(rs: seq<Radix>, i: nat)
    requires i < |rs|
  {
    Read(rs[0], rs[i])
  }

  /** Part `i` comes out as digits, be it in decimal or as an octal part left alone. */
  predicate InDigits(rs: seq<Radix>, i: nat)
    requires i < |rs|
  {
    Shown(rs, i) || rs[i] == Oct
  }

  /** What the patterns need to see of an address in one of the internal ranges. */
  predicate Seen(n: nat, rs: seq<Radix>)
    requires |rs| == 4
  {
    if n == 0 then Shown(rs, 1) && Shown(rs, 2) && Shown(rs, 3)
    else
      && InDigits(rs, 2) && InDigits(rs, 3)
      && if Byte(n, 3) == 127 || Byte(n, 3) == 10 then InDigits(rs, 1) else Shown(rs, 1)
  }

  lemma NormalPart(first: Radix, p: string, v: nat, r: Radix)
    requires Writes(p, v, r)
    ensures
      var q := ReadPart(first, p, v, r);
      && q != "" && '0' <= q[0] <= '9'
      && (AllDigits(q) <==> Read(first, r) || r == Oct)
      && (!Read(first, r) ==> q[0] == '0' && |q| >= 2)
  {
    WrittenShape(p, v, r);
    DecimalShape(v);
  }

  /** Where a part that stays as it was stands, none of the numbers of the patterns does. */
  lemma UnreadMatchesNothing(q: string)
    requires |q| >= 2 && q[0] == '0'
    ensures q !in {"0", "10", "127", "168", "169", "172", "192", "254"} && !Private172(q)
  {
  }

  /** The second part, against the numbers the patterns ask for. */
  lemma SecondDecides(n: nat, first: Radix, p: string, r: Radix)
    requires n <= 0xFFFF_FFFF && Writes(p, ByteAt(n, 1), r)
    ensures
      var q, v, shown := ReadPart(first, p, ByteAt(n, 1), r), ByteAt(n, 1), Read(first, r);
      && (q == "254" <==> shown && v == 254) && (q == "168" <==> shown && v == 168)
      && (Private172(q) <==> shown && 16 <= v <= 31) && (q == "0" <==> shown && v == 0)
  {
    hide Decimal, Private172, Byte, Writes;
    var v := ByteAt(n, 1);
    if Read(first, r) {
      LiteralDecimals();
      DecimalIs(v, 254);
      DecimalIs(v, 168);
      DecimalIs(v, 0);
      Private172Is(v);
    } else {
      NormalPart(first, p, v, r);
      UnreadMatchesNothing(p);
    }
  }

  lemma ZeroDecides(first: Radix, p: string, v: nat, r: Radix)
    requires Writes(p, v, r)
    ensures ReadPart(first, p, v, r) == "0" <==> Read(first, r) && v == 0
  {
    hide Decimal, Writes;
    if Read(first, r) {
      LiteralDecimals();
      DecimalIs(v, 0);
    } else {
      NormalPart(first, p, v, r);
      UnreadMatchesNothing(p);
    }
  }

  lemma FirstDecides(v: nat)
    ensures
      var q := Decimal(v);
      && (q == "127" <==> v == 127) && (q == "10" <==> v == 10) && (q == "172" <==> v == 172)
      && (q == "192" <==> v == 192) && (q == "169" <==> v == 169) && (q == "0" <==> v == 0)
  {
    hide Decimal;
    LiteralDecimals();
    DecimalIs(v, 127);
    DecimalIs(v, 10);
    DecimalIs(v, 172);
    DecimalIs(v, 192);
    DecimalIs(v, 169);
    DecimalIs(v, 0);
  }

  /** The patterns on a host that starts with a digit, in terms of its four pieces. */
  lemma PatternsOnPieces(h: string, q: seq<string>)
    requires |q| == 4 && h != "" && '0' <= h[0] <= '9' && h == Join(q, '.') && Split(h, '.') == q
    ensures
      MatchesLocalhost(h, q) || MatchesPrivate(q) || MatchesMetadata(h) || MatchesLinkLocal(q) <==>
        || (AllDigits(q[2]) && AllDigits(q[3])
            && (|| ((q[0] == "127" || q[0] == "10") && AllDigits(q[1]))
                || (q[0] == "172" && Private172(q[1])) || (q[0] == "192" && q[1] == "168")
                || (q[0] == "169" && q[1] == "254")))
        || q == ["0", "0", "0", "0"]
  {
    hide Split, Join, AllDigits, Private172, Lowered;
    LoweredStart(h);
    assert Lowered(h) != "localhost" && Lowered(h) != "metadata.google.internal"
           && Lowered(h) != "instance-data.ec2.internal";
    LiteralHosts();
    ServiceDigits();
    assert h == "0.0.0.0" <==> q == ["0", "0", "0", "0"];
    assert h == "169.254.169.254" ==> q == ["169", "254", "169", "254"];
    assert h == "169.254.169.253" ==> q == ["169", "254", "169", "253"];
  }

  lemma LiteralHosts()
    ensures Split("0.0.0.0", '.') == ["0", "0", "0", "0"] && Join(["0", "0", "0", "0"], '.') == "0.0.0.0"
    ensures Split("169.254.169.254", '.') == ["169", "254", "169", "254"]
    ensures Split("169.254.169.253", '.') == ["169", "254", "169", "253"]
  {
    hide Split, Join;
    Pieces("0", "0", "0", "0");
    Pieces("169", "254", "169", "254");
    Pieces("169", "254", "169", "253");
    assert "0" + "." + "0" + "." + "0" + "." + "0" == "0.0.0.0";
    assert "169" + "." + "254" + "." + "169" + "." + "254" == "169.254.169.254";
    assert "169" + "." + "254" + "." + "169" + "." + "253" == "169.254.169.253";
  }

  lemma ServiceDigits()
    ensures AllDigits("169") && AllDigits("254") && AllDigits("253")
  {
  }

  lemma Pieces(a: string, b: string, c: string, d: string)
    requires '.' !in a && '.' !in b && '.' !in c && '.' !in d
    ensures Join([a, b, c, d], '.') == a + "." + b + "." + c + "." + d
    ensures Split(a + "." + b + "." + c + "." + d, '.') == [a, b, c, d]
  {
    Join4(a, b, c, d);
    SplitJoin([a, b, c, d], '.');
  }

  /**
   * However the four parts are written, the host is blocked exactly when the address lies in one of the
   * internal ranges and the patterns get to see what they need of it.
   */
  lemma DottedBlockedIff(host: string, n: nat, rs: seq<Radix>)
    requires SpellsDotted(host, n, rs)
    ensures IsBlockedHost(host) <==> Internal(n) && Seen(n, rs)
  {
    hide Split, Join, Byte, Normalize, Decimal, Writes, AllDigits, Private172, ReadPart,
         MatchesLocalhost, MatchesPrivate, MatchesMetadata, MatchesLinkLocal, InBlock;
    var parts, q := Split(host, '.'), NormalParts(host, n, rs);
    NormalFormIs(host, n, rs);
    NormalPart(rs[0], parts[0], ByteAt(n, 0), rs[0]);
    NormalPart(rs[0], parts[1], ByteAt(n, 1), rs[1]);
    NormalPart(rs[0], parts[2], ByteAt(n, 2), rs[2]);
    NormalPart(rs[0], parts[3], ByteAt(n, 3), rs[3]);
    StartsWithDigit(q);
    PatternsOnPieces(Normalize(host), q);
    FirstIsDecimal(parts[0], ByteAt(n, 0), rs[0]);
    FirstDecides(ByteAt(n, 0));
    SecondDecides(n, rs[0], parts[1], rs[1]);
    ZeroDecides(rs[0], parts[2], ByteAt(n, 2), rs[2]);
    ZeroDecides(rs[0], parts[3], ByteAt(n, 3), rs[3]);
    BytesDecide(n);
  }

  lemma FirstIsDecimal(p: string, v: nat, r: Radix)
    ensures ReadPart(r, p, v, r) == Decimal(v)
  {
  }

  lemma StartsWithDigit(q: seq<string>)
    requires |q| == 4 && q[0] != "" && '0' <= q[0][0] <= '9'
    ensures Join(q, '.') != "" && '0' <= Join(q, '.')[0] <= '9'
  {
    Join4(q[0], q[1], q[2], q[3]);
    assert q == [q[0], q[1], q[2], q[3]];
  }

  // ----- Two addresses the patterns do not see

  lemma PrivatePassesInOctal()
    ensures SpellsDotted("172.020.0.1", Address(172, 16, 0, 1), [Dec, Oct, Dec, Dec])
    ensures Internal(Address(172, 16, 0, 1)) && !IsBlockedHost("172.020.0.1")
  {
    hide Split, Join, IsBlockedHost, Writes, Address, Internal, Byte;
    Pieces("172", "020", "0", "1");
    assert "172" + "." + "020" + "." + "0" + "." + "1" == "172.020.0.1";
    TheAddresses();
    WrittenLiterals();
    DottedBlockedIff("172.020.0.1", Address(172, 16, 0, 1), [Dec, Oct, Dec, Dec]);
  }

  lemma LoopbackPassesInHex()
    ensures SpellsDotted("127.0x0.0.1", Address(127, 0, 0, 1), [Dec, Hex, Dec, Dec])
    ensures Internal(Address(127, 0, 0, 1)) && !IsBlockedHost("127.0x0.0.1")
  {
    hide Split, Join, IsBlockedHost, Writes, Address, Internal, Byte;
    Pieces("127", "0x0", "0", "1");
    assert "127" + "." + "0x0" + "." + "0" + "." + "1" == "127.0x0.0.1";
    TheAddresses();
    WrittenLiterals();
    DottedBlockedIff("127.0x0.0.1", Address(127, 0, 0, 1), [Dec, Hex, Dec, Dec]);
  }

  lemma TheAddresses()
    ensures
      var n := Address(172, 16, 0, 1);
      && 0 < n <= 0xFFFF_FFFF && Internal(n)
      && Byte(n, 3) == 172 && Byte(n, 2) == 16 && Byte(n, 1) == 0 && Byte(n, 0) == 1
    ensures
      var n := Address(127, 0, 0, 1);
      && 0 < n <= 0xFFFF_FFFF && Internal(n)
      && Byte(n, 3) == 127 && Byte(n, 2) == 0 && Byte(n, 1) == 0 && Byte(n, 0) == 1
  {
    assert Address(172, 16, 0, 1) == 0xAC10_0001 && Address(127, 0, 0, 1) == 0x7F00_0001;
    assert InBlock(0xAC10_0001, 172, 16, 0x10_0000) && InBlock(0x7F00_0001, 127, 0, 0x100_0000);
  }

  lemma WrittenLiterals()
    ensures Writes("172", 172, Dec) && Writes("127", 127, Dec) && Writes("0", 0, Dec) && Writes("1", 1, Dec)
    ensures Writes("020", 16, Oct) && Writes("0x0", 0, Hex)
  {
    LiteralDecimals();
    assert "020"[..2] == "02" && "02"[..1] == "0" && "0"[..0] == "";
    assert Value("0", 8) == 0 && Value("02", 8) == 2;
    assert "0x0"[2..] == "0" && Value("0", 16) == 0;
  }
}
