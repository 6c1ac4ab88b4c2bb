/**
 * All spellings of an IPv4 address with one to four parts, each part decimal, octal or hexadecimal, the
 * last one filling the bytes that remain: which of them the normalisation and the blocking of
 * src/validation/network-security.ts understand.
 */
module AddressSpellings {
  import opened Wrappers
  import opened Text
  import opened NetworkSecurity
  import opened MixedSpellings

  /** What the last of `k` parts stands for. */
  function Tail(n: nat, k: nat): nat {
    match k
    case 1 => n
    case 2 => n % 0x100_0000
    case 3 => n % 0x1_0000
    case _ => n % 0x100
  }

  function PartValue(n: nat, k: nat, i: nat): nat
    requires i < k <= 4
  {
    if i < k - 1 then Byte(n, 3 - i) else Tail(n, k)
  }

  /** `host` writes the 32-bit address `n` in as many parts as there are radixes. */
  predicate SpellsParts(host: string, n: nat, rs: seq<Radix>) {
    var parts := Split(host, '.');
    && n <= 0xFFFF_FFFF && 1 <= |rs| <= 4 && |parts| == |rs|
    && forall i | 0 <= i < |rs| :: Writes(parts[i], PartValue(n, |rs|, i), rs[i])
  }

  /** What parseInt with base ten makes of a part: of a hexadecimal one, only the leading zero. */
  function InDecimal(p: string, r: Radix): nat {
    if r == Hex then 0 else Value(p, 10)
  }

  /** A hexadecimal number without its 0x. */
  function Unmarked(host: string): string {
    if |host| >= 2 then host[2..] else ""
  }

  /** The address the code takes a host of fewer than four parts for, if it recognises one. */
  function ReadAs(host: string, rs: seq<Radix>): Option<nat>
    requires 1 <= |rs| <= 3 && |Split(host, '.')| == |rs|
  {
    var parts := Split(host, '.');
    match |rs|
    case 1 =>
      if |host| > 10 then None
      else if rs[0] == Hex then Some(Value(Unmarked(host), 16))
      else if Value(host, 10) <= 0xFFFF_FFFF then Some(Value(host, 10))
      else None
    case 2 =>
      if rs[0] != Dec || rs[1] == Hex then None
      else Some(Value(parts[0], 10) * 0x100_0000 + Value(parts[1], 10) % 0x100_0000)
    case _ =>
      if rs[0] != Dec || rs[2] == Hex || InDecimal(parts[1], rs[1]) > 255 then None
      else Some(Value(parts[0], 10) * 0x100_0000 + InDecimal(parts[1], rs[1]) * 0x1_0000
                + Value(parts[2], 10) % 0x1_0000)
  }

  // ----- One part

  lemma OnePiece(host: string)
    requires |Split(host, '.')| == 1
    ensures Split(host, '.') == [host] && '.' !in host
  {
    JoinSplit(host, '.');
    RestHasNone(host, '.');
  }

  function Ten(k: nat): nat {
    if k == 0 then 1 else 10 * Ten(k - 1)
  }

  lemma {:induction false} DecimalLength(n: nat, k: nat)
    requires n < Ten(k) && k >= 1
    ensures |Decimal(n)| <= k
  {
    if n >= 10 {
      assert Ten(1) == 10;
      DecimalLength(n / 10, k - 1);
    }
  }

  lemma AtMostTenDigits(n: nat)
    requires n <= 0xFFFF_FFFF
    ensures |Decimal(n)| <= 10
  {
    assert Ten(5) == 100000;
    assert Ten(10) == 10000000000;
    DecimalLength(n, 10);
  }

  lemma HexMarked(p: string, v: nat)
    requires HexPart(p, v)
    ensures |p| >= 3 && HasHexMark(p) && IsDigits(p[2..], 16) && Value(p[2..], 16) == v && !AllDigits(p)
  {
    assert DigitValue(p[1]) == 16;
  }

  lemma OctalUnmarked(p: string, v: nat)
    requires OctalPart(p, v)
    ensures AllDigits(p) && !HasHexMark(p)
  {
    assert DigitValue(p[1]) < 8;
  }

  lemma NumberRead(host: string, n: nat, r: Radix)
    requires |Split(host, '.')| == 1 && n <= 0xFFFF_FFFF && Writes(host, n, r)
    ensures
      var m := if r == Hex then n else Value(host, 10);
      Normalize(host) == if |host| <= 10 && m <= 0xFFFF_FFFF then Quad(m) else host
    ensures r == Dec ==> |host| <= 10 && Value(host, 10) == n
  {
    OnePiece(host);
    hide Split, Value, Quad, Decimal, Expanded, Join, Mapped, DigitValue;
    match r {
      case Dec =>
        DecimalParsed(n);
        AtMostTenDigits(n);
      case Oct => OctalUnmarked(host, n);
      case Hex => HexMarked(host, n);
    }
  }

  // ----- Two and three parts

  lemma ParsedInDecimal(p: string, v: nat, r: Radix)
    requires Writes(p, v, r)
    ensures ParseInt(p, 10) == Some(InDecimal(p, r))
  {
    WrittenShape(p, v, r);
    if r == Hex {
      assert DigitValue(p[1]) == 16 && DigitValue(p[0]) == 0;
      assert DigitPrefix(p, 10) == ['0'] + DigitPrefix(p[1..], 10) == "0";
      assert "0"[..0] == "";
    } else {
      ParseDigits(p, 10);
    }
  }

  /** What the shorthand branch pushes. */
  lemma Pushed(parts: seq<string>, values: seq<nat>, rs: seq<Radix>)
    requires 2 <= |parts| <= 3 && |values| == |rs| == |parts|
    requires forall i | 0 <= i < |parts| :: Writes(parts[i], values[i], rs[i])
    ensures
      var x := Value(parts[|parts| - 1], 10);
      Expanded(parts) ==
      if |parts| == 2
      then [Some(InDecimal(parts[0], rs[0]) as int), Some(Byte(x, 2) as int), Some(Byte(x, 1) as int),
            Some(Byte(x, 0) as int)]
      else [Some(InDecimal(parts[0], rs[0]) as int), Some(InDecimal(parts[1], rs[1]) as int),
            Some(Byte(x, 1) as int), Some(Byte(x, 0) as int)]
  {
    hide Byte, Value, ParseInt, Writes, InDecimal;
    Leading23(parts);
    ParsedInDecimal(parts[0], values[0], rs[0]);
    ParsedInDecimal(parts[1], values[1], rs[1]);
  }

  lemma TopByte(a: nat, low: nat)
    requires a < 256 && low < 0x100_0000
    ensures
      var m := a * 0x100_0000 + low;
      m <= 0xFFFF_FFFF && Byte(m, 3) == a && m % 0x100_0000 == low
  {
    assert (a * 0x100_0000 + low) / 0x100_0000 == a;
  }

  lemma SecondByte(b: nat, low: nat)
    requires b < 256 && low < 0x1_0000
    ensures
      var m := b * 0x1_0000 + low;
      m < 0x100_0000 && Byte(m, 2) == b && m % 0x1_0000 == low
  {
    assert (b * 0x1_0000 + low) / 0x1_0000 == b;
  }

  /** The address of two parts: a top byte, and the low three bytes of a number. */
  lemma ComposedOfTwo(a: nat, x: nat)
    requires a < 256
    ensures
      var m := a * 0x100_0000 + x % 0x100_0000;
      && m <= 0xFFFF_FFFF && Byte(m, 3) == a
      && Byte(m, 2) == Byte(x, 2) && Byte(m, 1) == Byte(x, 1) && Byte(m, 0) == Byte(x, 0)
  {
    hide Byte;
    TopByte(a, x % 0x100_0000);
    LowBytes(x);
    LowBytes(a * 0x100_0000 + x % 0x100_0000);
  }

  /** The address of three parts: two bytes, and the low two bytes of a number. */
  lemma ComposedOfThree(a: nat, b: nat, x: nat)
    requires a < 256 && b < 256
    ensures
      var m := a * 0x100_0000 + b * 0x1_0000 + x % 0x1_0000;
      && m <= 0xFFFF_FFFF && Byte(m, 3) == a && Byte(m, 2) == b
      && Byte(m, 1) == Byte(x, 1) && Byte(m, 0) == Byte(x, 0)
  {
    hide Byte;
    var low := b * 0x1_0000 + x % 0x1_0000;
    SecondByte(b, x % 0x1_0000);
    TopByte(a, low);
    var m := a * 0x100_0000 + b * 0x1_0000 + x % 0x1_0000;
    assert m == a * 0x100_0000 + low;
    LowBytes(x);
    LowBytes(low);
    LowBytes(m);
  }

  /** The branch taken by a host of two or three parts. */
  lemma BranchOfFew(host: string, v: nat, r: Radix)
    requires 2 <= |Split(host, '.')| <= 3 && Writes(Split(host, '.')[0], v, r)
    ensures
      var parts := Split(host, '.');
      Normalize(host) ==
      match r
      case Oct => Join(Mapped(parts, FromOctal), '.')
      case Hex => Join(Mapped(parts, FromHex), '.')
      case Dec =>
        if AllDigits(parts[|parts| - 1]) && AreOctets(Expanded(parts)) then Dotted(Expanded(parts)) else host
  {
    hide Split, FromOctal, FromHex, Mapped, Join, Quad, Expanded, Decimal, Value, Dotted, AreOctets;
    var p := Split(host, '.')[0];
    WrittenShape(p, v, r);
    DecimalShape(v);
    Beginning(host);
    match r {
      case Dec =>
      case Oct => assert DigitValue(p[1]) < 8;
      case Hex =>
        assert DigitValue(p[2]) < 16;
        assert host[2..][|p| - 2] == '.' && DigitValue('.') == 16;
    }
  }

  /** A host whose normal form is none of the quads: as many pieces as it had parts, starting with a digit. */
  ghost predicate Unrecognised(host: string, k: nat) {
    |Split(Normalize(host), '.')| == k && Normalize(host) != "" && '0' <= Normalize(host)[0] <= '9'
  }

  lemma JoinStart(q: seq<string>)
    requires q != [] && q[0] != "" && '0' <= q[0][0] <= '9' && forall i | 0 <= i < |q| :: '.' !in q[i]
    ensures Split(Join(q, '.'), '.') == q && Join(q, '.') != "" && '0' <= Join(q, '.')[0] <= '9'
  {
    SplitJoin(q, '.');
    FirstPiece(Join(q, '.'), '.');
  }

  lemma OtherFirst(host: string, n: nat, rs: seq<Radix>)
    requires SpellsParts(host, n, rs) && 2 <= |rs| <= 3 && rs[0] != Dec
    ensures Unrecognised(host, |rs|)
  {
    hide Split, Join, Normalize, Mapped, FromOctal, FromHex, Decimal, Writes, PartValue, ReadPart;
    var parts := Split(host, '.');
    var q := Mapped(parts, if rs[0] == Oct then FromOctal else FromHex);
    BranchOfFew(host, PartValue(n, |rs|, 0), rs[0]);
    MappedEach(parts, FromOctal);
    MappedEach(parts, FromHex);
    forall i | 0 <= i < |q| ensures q[i] == ReadPart(rs[0], parts[i], PartValue(n, |rs|, i), rs[i]) && '.' !in q[i] {
      PartRead(parts[i], PartValue(n, |rs|, i), rs[i]);
      ReadHasNoDot(rs[0], parts[i], PartValue(n, |rs|, i), rs[i]);
    }
    NormalPart(rs[0], parts[0], PartValue(n, |rs|, 0), rs[0]);
    JoinStart(q);
  }

  lemma ReadHasNoDot(first: Radix, p: string, v: nat, r: Radix)
    requires Writes(p, v, r)
    ensures '.' !in ReadPart(first, p, v, r)
  {
    WrittenShape(p, v, r);
    NoDot(v);
  }

  lemma LeftAlone(host: string, n: nat, rs: seq<Radix>)
    requires SpellsParts(host, n, rs) && Normalize(host) == host
    ensures Unrecognised(host, |rs|)
  {
    hide Split, Normalize, Writes, PartValue;
    var p := Split(host, '.')[0];
    WrittenShape(p, PartValue(n, |rs|, 0), rs[0]);
    FirstPiece(host, '.');
  }

  lemma DecimalReads(p: string, v: nat)
    requires Writes(p, v, Dec)
    ensures Value(p, 10) == v && InDecimal(p, Dec) == v
  {
    DecimalParsed(v);
  }

  lemma QuadOfOctets(m: nat, octets: seq<Option<int>>)
    requires octets ==
             [Some(Byte(m, 3) as int), Some(Byte(m, 2) as int), Some(Byte(m, 1) as int), Some(Byte(m, 0) as int)]
    ensures AreOctets(octets) && Dotted(octets) == Quad(m)
  {
  }

  lemma TwoDecimal(host: string, n: nat, rs: seq<Radix>)
    requires SpellsParts(host, n, rs) && |rs| == 2 && rs[0] == Dec
    ensures match ReadAs(host, rs) case None => Normalize(host) == host
                                   case Some(m) => m <= 0xFFFF_FFFF && Normalize(host) == Quad(m)
  {
    hide Split, Normalize, Expanded, Dotted, Quad, Decimal, Value, Byte, AreOctets, Writes, AllDigits;
    var parts := Split(host, '.');
    var v0, v1 := PartValue(n, 2, 0), PartValue(n, 2, 1);
    assert Writes(parts[0], v0, rs[0]) && Writes(parts[1], v1, rs[1]);
    BranchOfFew(host, v0, Dec);
    WrittenShape(parts[1], v1, rs[1]);
    if rs[1] != Hex {
      var x := Value(parts[1], 10);
      DecimalReads(parts[0], v0);
      Pushed(parts, [v0, v1], rs);
      ComposedOfTwo(v0, x);
      QuadOfOctets(v0 * 0x100_0000 + x % 0x100_0000, Expanded(parts));
    }
  }

  lemma ThreeDecimal(host: string, n: nat, rs: seq<Radix>)
    requires SpellsParts(host, n, rs) && |rs| == 3 && rs[0] == Dec
    ensures match ReadAs(host, rs) case None => Normalize(host) == host
                                   case Some(m) => m <= 0xFFFF_FFFF && Normalize(host) == Quad(m)
  {
    hide Split, Normalize, Expanded, Dotted, Quad, Decimal, Value, Byte, AreOctets, Writes, AllDigits, InDecimal;
    var parts := Split(host, '.');
    var v0, v1, v2 := PartValue(n, 3, 0), PartValue(n, 3, 1), PartValue(n, 3, 2);
    assert Writes(parts[0], v0, rs[0]) && Writes(parts[1], v1, rs[1]) && Writes(parts[2], v2, rs[2]);
    BranchOfFew(host, v0, Dec);
    WrittenShape(parts[2], v2, rs[2]);
    if rs[2] != Hex {
      var x, b := Value(parts[2], 10), InDecimal(parts[1], rs[1]);
      DecimalReads(parts[0], v0);
      Pushed(parts, [v0, v1, v2], rs);
      if b <= 255 {
        ComposedOfThree(v0, b, x);
        QuadOfOctets(v0 * 0x100_0000 + b * 0x1_0000 + x % 0x1_0000, Expanded(parts));
      } else {
        TooLarge(Expanded(parts));
      }
    }
  }

  lemma TooLarge(octets: seq<Option<int>>)
    requires |octets| == 4 && octets[1].Some? && octets[1].value > 255
    ensures !AreOctets(octets)
  {
  }

  /** With fewer than four parts, the code takes the host for exactly one address, or leaves it no address. */
  lemma ReadAsIs(host: string, n: nat, rs: seq<Radix>)
    requires SpellsParts(host, n, rs) && |rs| <= 3
    ensures match ReadAs(host, rs) case None => Unrecognised(host, |rs|)
                                   case Some(m) => m <= 0xFFFF_FFFF && Normalize(host) == Quad(m)
  {
    hide Split, Normalize, Quad, Value, Byte, Writes, Unrecognised;
    var parts := Split(host, '.');
    assert Writes(parts[0], PartValue(n, |rs|, 0), rs[0]);
    if |rs| == 1 {
      OnePiece(host);
      if rs[0] == Hex {
        HexDigitsOf(host, n);
      }
      NumberRead(host, n, rs[0]);
    } else {
      if rs[0] != Dec {
        OtherFirst(host, n, rs);
      } else if |rs| == 2 {
        TwoDecimal(host, n, rs);
      } else {
        ThreeDecimal(host, n, rs);
      }
    }
    if Normalize(host) == host {
      LeftAlone(host, n, rs);
    }
  }

  lemma HexDigitsOf(host: string, n: nat)
    requires Writes(host, n, Hex)
    ensures Value(Unmarked(host), 16) == n
  {
    HexMarked(host, n);
  }

  // ----- Main results

  lemma SumOfBytes(n: nat)
    requires n <= 0xFFFF_FFFF
    ensures n == Address(Byte(n, 3), Byte(n, 2), Byte(n, 1), Byte(n, 0))
  {
    assert n / 0x1_0000 / 0x100 == n / 0x100_0000;
    assert n / 0x100 / 0x100 == n / 0x1_0000;
  }

  lemma QuadInjective(m: nat, n: nat)
    requires m <= 0xFFFF_FFFF && n <= 0xFFFF_FFFF
    ensures Quad(m) == Quad(n) <==> m == n
  {
    if Quad(m) == Quad(n) {
      hide Address, Byte, Decimal, Split, Join, Quad;
      QuadSplits(m);
      QuadSplits(n);
      PartsEqual(Byte(n, 3), Byte(n, 2), Byte(n, 1), Byte(n, 0), m);
      SumOfBytes(m);
      SumOfBytes(n);
    }
  }

  /**
   * Which spellings the normalisation understands. Four parts: each decimal or in the radix of the first.
   * Fewer: a decimal first part, no hexadecimal last one, and parts whose digits, read in decimal, have the
   * value they stand for - as decimal ones do, and octal ones below eight. One: also a hexadecimal number
   * within the length the pattern allows.
   */
  predicate Understood(host: string, n: nat, rs: seq<Radix>)
    requires SpellsParts(host, n, rs)
  {
    var parts := Split(host, '.');
    match |rs|
    case 1 => rs[0] == Dec || (|host| <= 10 && (rs[0] == Hex || Value(host, 10) == n))
    case 2 => rs[0] == Dec && rs[1] != Hex && Value(parts[1], 10) % 0x100_0000 == n % 0x100_0000
    case 3 =>
      && rs[0] == Dec && rs[2] != Hex
      && InDecimal(parts[1], rs[1]) == Byte(n, 2) && Value(parts[2], 10) % 0x1_0000 == n % 0x1_0000
    case _ => forall i | 0 <= i < 4 :: Read(rs[0], rs[i])
  }

  lemma SpellsFour(host: string, n: nat, rs: seq<Radix>)
    requires SpellsParts(host, n, rs) && |rs| == 4
    ensures SpellsDotted(host, n, rs)
  {
    hide Split, Writes;
    var parts := Split(host, '.');
    assert Writes(parts[0], PartValue(n, 4, 0), rs[0]) && Writes(parts[1], PartValue(n, 4, 1), rs[1]);
    assert Writes(parts[2], PartValue(n, 4, 2), rs[2]) && Writes(parts[3], PartValue(n, 4, 3), rs[3]);
  }

  lemma Recomposed(n: nat)
    requires n <= 0xFFFF_FFFF
    ensures n == Byte(n, 3) * 0x100_0000 + n % 0x100_0000
    ensures n == Byte(n, 3) * 0x100_0000 + Byte(n, 2) * 0x1_0000 + n % 0x1_0000
  {
    assert n / 0x1_0000 / 0x100 == n / 0x100_0000;
  }

  lemma SameAddressOfThree(a: nat, b: nat, c: nat, b': nat, c': nat)
    requires b < 256 && b' < 256 && c < 0x1_0000 && c' < 0x1_0000
    ensures a * 0x100_0000 + b * 0x1_0000 + c == a * 0x100_0000 + b' * 0x1_0000 + c' <==> b == b' && c == c'
  {
  }

  lemma UnderstoodIsRead(host: string, n: nat, rs: seq<Radix>)
    requires SpellsParts(host, n, rs) && |rs| <= 3
    ensures ReadAs(host, rs) == Some(n) <==> Understood(host, n, rs)
  {
    hide Split, Value, Byte, Writes;
    var parts := Split(host, '.');
    assert Writes(parts[0], PartValue(n, |rs|, 0), rs[0]);
    if |rs| == 1 {
      OnePiece(host);
      NumberRead(host, n, rs[0]);
      if rs[0] == Hex {
        HexDigitsOf(host, n);
      }
    } else if rs[0] == Dec {
      DecimalReads(parts[0], Byte(n, 3));
      Recomposed(n);
      if |rs| == 3 && InDecimal(parts[1], rs[1]) <= 255 {
        SameAddressOfThree(Byte(n, 3), Byte(n, 2), n % 0x1_0000,
                           InDecimal(parts[1], rs[1]), Value(parts[2], 10) % 0x1_0000);
      }
    }
  }

  /** A spelling with one to four parts in any radixes becomes its quad exactly when it is understood. */
  lemma NormalizesIff(host: string, n: nat, rs: seq<Radix>)
    requires SpellsParts(host, n, rs)
    ensures Normalize(host) == Quad(n) <==> Understood(host, n, rs)
  {
    hide Split, Normalize, Quad, Value, Byte, Writes;
    if |rs| == 4 {
      SpellsFour(host, n, rs);
      DottedNormalizesIff(host, n, rs);
    } else {
      ReadAsIs(host, n, rs);
      UnderstoodIsRead(host, n, rs);
      match ReadAs(host, rs) {
        case None => QuadSplits(n);
        case Some(m) => QuadInjective(m, n);
      }
    }
  }

  /** A normal form without four pieces matches no pattern. */
  lemma UnrecognisedPasses(host: string, k: nat)
    requires Unrecognised(host, k) && k != 4
    ensures !IsBlockedHost(host)
  {
    hide Split, Normalize, Lowered;
    LiteralHosts();
    LoweredStart(Normalize(host));
    assert Lowered(Normalize(host)) != "localhost" && Lowered(Normalize(host)) != "metadata.google.internal"
           && Lowered(Normalize(host)) != "instance-data.ec2.internal";
  }

  /**
   * However an address is spelled, its host is blocked exactly when - with four parts - the address is
   * internal and the patterns see what they need of it, or - with fewer - the code takes the host for an
   * internal address, be it the one spelled or another.
   */
  lemma BlockedIff(host: string, n: nat, rs: seq<Radix>)
    requires SpellsParts(host, n, rs)
    ensures |rs| == 4 ==> (IsBlockedHost(host) <==> Internal(n) && Seen(n, rs))
    ensures |rs| <= 3 ==>
              (IsBlockedHost(host) <==> ReadAs(host, rs).Some? && Internal(ReadAs(host, rs).value))
  {
    hide Split, Normalize, Quad, Value, Byte, Writes, IsBlockedHost, Unrecognised;
    if |rs| == 4 {
      SpellsFour(host, n, rs);
      DottedBlockedIff(host, n, rs);
    } else {
      ReadAsIs(host, n, rs);
      match ReadAs(host, rs) {
        case None => UnrecognisedPasses(host, |rs|);
        case Some(m) => QuadBlocked(host, m);
      }
    }
  }

  /** A spelling that is understood is blocked exactly when its address is internal. */
  lemma UnderstoodBlockedIff(host: string, n: nat, rs: seq<Radix>)
    requires SpellsParts(host, n, rs) && Understood(host, n, rs)
    ensures IsBlockedHost(host) <==> Internal(n)
  {
    hide Split, Normalize, Quad, Value, Byte, Writes, IsBlockedHost, Understood;
    NormalizesIff(host, n, rs);
    QuadBlocked(host, n);
  }

  /** All-decimal spellings are understood, whatever the number of parts. */
  lemma DecimalUnderstood(host: string, n: nat, rs: seq<Radix>)
    requires SpellsParts(host, n, rs) && forall i | 0 <= i < |rs| :: rs[i] == Dec
    ensures Understood(host, n, rs)
  {
    hide Split, Value, Byte, Writes;
    var parts := Split(host, '.');
    forall i | 0 <= i < |rs| ensures Value(parts[i], 10) == PartValue(n, |rs|, i) {
      assert Writes(parts[i], PartValue(n, |rs|, i), rs[i]);
      DecimalReads(parts[i], PartValue(n, |rs|, i));
    }
    if |rs| == 4 {
      assert forall i | 0 <= i < 4 :: Read(rs[0], rs[i]);
    }
  }

  // ----- Internal addresses the code does not recognise

  /** A spelling that the code takes for no address, of an address that is internal. */
  ghost predicate Passes(host: string, n: nat, rs: seq<Radix>) {
    SpellsParts(host, n, rs) && Internal(n) && !IsBlockedHost(host)
  }

  lemma TwoPieces(a: string, b: string)
    requires '.' !in a && '.' !in b
    ensures Split(a + "." + b, '.') == [a, b]
  {
    SplitJoin([a, b], '.');
    Joined(a, b);
  }

  lemma Joined(a: string, b: string)
    ensures Join([a, b], '.') == a + "." + b
  {
    assert [a, b][..1] == [a];
  }

  lemma TwoPartsPass(a: string, b: string, top: nat, low: nat, rs: seq<Radix>)
    requires |rs| == 2 && (rs[0] != Dec || rs[1] == Hex)
    requires Writes(a, top, rs[0]) && Writes(b, low, rs[1]) && top in {10, 127} && low < 0x100_0000
    ensures Passes(a + "." + b, top * 0x100_0000 + low, rs)
  {
    hide Split, Writes, IsBlockedHost, Value, Byte, InDecimal;
    var host, n := a + "." + b, top * 0x100_0000 + low;
    WrittenShape(a, top, rs[0]);
    WrittenShape(b, low, rs[1]);
    TwoPieces(a, b);
    TopByte(top, low);
    BytesDecide(n);
    BlockedIff(host, n, rs);
  }

  lemma ShortForms()
    ensures Writes("0x7f", 127, Hex) && Writes("0177", 127, Oct) && Writes("0x1", 1, Hex)
    ensures Writes("1", 1, Dec) && Writes("10", 10, Dec)
  {
    LiteralDecimals();
    assert "0x7f"[2..] == "7f" && "7f"[..1] == "7" && "7"[..0] == "";
    assert Value("7", 16) == 7;
    assert "0177"[..3] == "017" && "017"[..2] == "01" && "01"[..1] == "0" && "0"[..0] == "";
    assert Value("0", 8) == 0 && Value("01", 8) == 1 && Value("017", 8) == 15;
    assert "0x1"[2..] == "1" && "1"[..0] == "";
  }

  /** Two parts of which the first is not decimal, or the last hexadecimal. */
  lemma ShorthandPasses()
    ensures Passes("0x7f.1", 0x7F00_0001, [Hex, Dec])
    ensures Passes("0177.1", 0x7F00_0001, [Oct, Dec])
    ensures Passes("10.0x1", 0x0A00_0001, [Dec, Hex])
  {
    hide Passes, Writes;
    ShortForms();
    TwoPartsPass("0x7f", "1", 127, 1, [Hex, Dec]);
    TwoPartsPass("0177", "1", 127, 1, [Oct, Dec]);
    TwoPartsPass("10", "0x1", 10, 1, [Dec, Hex]);
    assert "0x7f" + "." + "1" == "0x7f.1" && "0177" + "." + "1" == "0177.1" && "10" + "." + "0x1" == "10.0x1";
  }

  /** A number longer than the pattern allows, in octal or with leading zeros in hexadecimal. */
  lemma LongNumberPasses(host: string, n: nat, r: Radix)
    requires r != Dec && |host| > 10 && '.' !in host && Writes(host, n, r) && n <= 0xFFFF_FFFF && Internal(n)
    ensures Passes(host, n, [r])
  {
    hide Writes, IsBlockedHost, Value, Internal;
    SplitNone(host, '.');
    BlockedIff(host, n, [r]);
  }

  function Zeros(k: nat): string {
    if k == 0 then "" else Zeros(k - 1) + "0"
  }

  function Shifted(v: nat, k: nat): nat {
    if k == 0 then v else Shifted(v, k - 1) * 8
  }

  lemma {:induction false} ZerosAppended(s: string, k: nat)
    requires IsDigits(s, 8)
    ensures IsDigits(s + Zeros(k), 8) && Value(s + Zeros(k), 8) == Shifted(Value(s, 8), k)
  {
    hide Value, IsDigits;
    if k == 0 {
      assert s + "" == s;
    } else {
      ZerosAppended(s, k - 1);
      var rest := s + Zeros(k - 1);
      assert s + Zeros(k) == rest + [DigitChar(0)];
      DigitsSnoc(rest, 0, 8);
    }
  }

  lemma OctalTwelve()
    ensures IsDigits("012", 8) && Value("012", 8) == 10
  {
    assert "012"[..2] == "01" && "01"[..1] == "0" && "0"[..0] == "";
    assert Value("0", 8) == 0 && Value("01", 8) == 1;
  }

  lemma EightZeros()
    ensures Zeros(8) == "00000000" && Shifted(10, 8) == 0x0A00_0000
  {
    assert Zeros(4) == "0000" && Shifted(10, 4) == 40960;
  }

  /** 10.0.0.0 as an octal number of eleven digits. */
  lemma OctalNumberPasses()
    ensures Passes("01200000000", 0x0A00_0000, [Oct])
  {
    var s := "01200000000";
    hide Value, Passes, Zeros, Shifted, IsDigits;
    OctalTwelve();
    EightZeros();
    ZerosAppended("012", 8);
    assert "012" + "00000000" == s;
    assert InBlock(0x0A00_0000, 10, 0, 0x100_0000);
    LongNumberPasses(s, 0x0A00_0000, Oct);
  }
}
