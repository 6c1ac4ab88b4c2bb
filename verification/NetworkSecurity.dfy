/**
 * IPv4 spelling normalisation and host blocking (src/validation/network-security.ts), for hosts without
 * a colon or bracket. Regular expressions are written out as conditions on the pieces between dots.
 */
module NetworkSecurity {
  import opened Wrappers
  import opened Text

  // ----- parseInt and the regular expressions

  predicate IsSpace(c: char) {
    c == ' ' || '\t' <= c <= '\r'
  }

  function TrimLeft(s: string): string {
    if s != "" && IsSpace(s[0]) then TrimLeft(s[1..]) else s
  }

  /** The longest prefix of digits in the base. */
  function DigitPrefix(s: string, base: nat): string {
    if s == "" || DigitValue(s[0]) >= base then "" else [s[0]] + DigitPrefix(s[1..], base)
  }

  predicate HasHexMark(s: string) {
    |s| >= 2 && s[0] == '0' && Lower(s[1]) == 'x'
  }

  /** JavaScript's parseInt; None is NaN. */
  function ParseInt(s: string, base: nat): Option<int> {
    var t := TrimLeft(s);
    var negative := t != "" && t[0] == '-';
    var unsigned := if t != "" && (t[0] == '-' || t[0] == '+') then t[1..] else t;
    var digits := DigitPrefix(if base == 16 && HasHexMark(unsigned) then unsigned[2..] else unsigned, base);
    if digits == "" then None
    else Some(if negative then 0 - Value(digits, base) else Value(digits, base) as int)
  }

  /** String(parseInt(s, base)). */
  function Reprinted(s: string, base: nat): string {
    match ParseInt(s, base)
    case None => "NaN"
    case Some(n) => if n < 0 then "-" + Decimal(-n) else Decimal(n)
  }

  /** ^\d+$ */
  predicate AllDigits(s: string) {
    s != "" && IsDigits(s, 10)
  }

  // ----- normalizeIPEncoding

  function Byte(n: nat, k: nat): (b: nat)
    requires k < 4
    ensures b < 256
  {
    match k
    case 0 => n % 256
    case 1 => n / 0x100 % 256
    case 2 => n / 0x1_0000 % 256
    case _ => n / 0x100_0000 % 256
  }

  function Quad(n: nat): string {
    Join([Decimal(Byte(n, 3)), Decimal(Byte(n, 2)), Decimal(Byte(n, 1)), Decimal(Byte(n, 0))], '.')
  }

  /** An octet of the dotted octal branch: rewritten only if it is 0 followed by octal digits. */
  function FromOctal(octet: string): string {
    if "0" <= octet && |octet| > 1 && IsDigits(octet[1..], 8) then Reprinted(octet, 8) else octet
  }

  function FromHex(octet: string): string {
    if HasHexMark(octet) then Reprinted(octet, 16) else octet
  }

  function Mapped(parts: seq<string>, f: string -> string): seq<string> {
    if parts == [] then [] else Mapped(parts[..|parts| - 1], f) + [f(parts[|parts| - 1])]
  }

  /** The numbers of all parts but the last. */
  function Leading(parts: seq<string>): seq<Option<int>> {
    if |parts| <= 1 then [] else Leading(parts[..|parts| - 1]) + [ParseInt(parts[|parts| - 2], 10)]
  }

  /** The last part of a shorthand fills the remaining bytes: two or three, as there are two or three parts. */
  function Remaining(lastNum: nat, count: nat): seq<Option<int>> {
    match count
    case 3 => [Some(Byte(lastNum, 2) as int), Some(Byte(lastNum, 1) as int), Some(Byte(lastNum, 0) as int)]
    case 2 => [Some(Byte(lastNum, 1) as int), Some(Byte(lastNum, 0) as int)]
    case _ => []
  }

  predicate IsOctet(o: Option<int>) {
    o.Some? && 0 <= o.value <= 255
  }

  predicate AreOctets(octets: seq<Option<int>>) {
    |octets| == 4 && forall i | 0 <= i < 4 :: IsOctet(octets[i])
  }

  function Expanded(parts: seq<string>): seq<Option<int>>
    requires parts != []
  {
    var lead := Leading(parts);
    lead + Remaining(Value(parts[|parts| - 1], 10), if |lead| <= 4 then 4 - |lead| else 0)
  }

  function Dotted(octets: seq<Option<int>>): string
    requires AreOctets(octets)
  {
    Join([Decimal(octets[0].value), Decimal(octets[1].value), Decimal(octets[2].value), Decimal(octets[3].value)], '.')
  }

  function Normalize(host: string): string {
    if AllDigits(host) && |host| <= 10 && Value(host, 10) <= 0xFFFF_FFFF then Quad(Value(host, 10))
    else if HasHexMark(host) && 3 <= |host| <= 10 && IsDigits(host[2..], 16) && Value(host[2..], 16) <= 0xFFFF_FFFF then
      Quad(Value(host[2..], 16))
    else NormalizeDotted(host)
  }

  /** The branches for hosts written with dots. */
  function NormalizeDotted(host: string): string {
    var parts := Split(host, '.');
    if |host| >= 2 && host[0] == '0' && '0' <= host[1] <= '7' && '.' in host then
      Join(Mapped(parts, FromOctal), '.')
    else if HasHexMark(host) && |host| >= 3 && DigitValue(host[2]) < 16 && '.' in host then
      Join(Mapped(parts, FromHex), '.')
    else if 2 <= |parts| < 4 && AllDigits(parts[0]) && AllDigits(parts[|parts| - 1])
            && AreOctets(Expanded(parts)) then
      Dotted(Expanded(parts))
    else host
  }

  lemma {:induction false} DigitPrefixAll(s: string, base: nat)
    requires IsDigits(s, base)
    ensures DigitPrefix(s, base) == s
  {
    if s == "" {
    } else {
      DigitPrefixAll(s[1..], base);
    }
  }

  lemma ParseDigits(s: string, base: nat)
    requires s != "" && IsDigits(s, base) && base <= 16
    ensures ParseInt(s, base) == Some(Value(s, base))
  {
    assert DigitValue(s[0]) < 16;
    DigitPrefixAll(s, base);
    assert |s| >= 2 ==> DigitValue(s[1]) < 16;
  }

  lemma ParseHex(s: string)
    requires HasHexMark(s) && |s| >= 3 && IsDigits(s[2..], 16)
    ensures ParseInt(s, 16) == Some(Value(s[2..], 16))
  {
    DigitPrefixAll(s[2..], 16);
  }

  lemma {:induction false} LeadingLength(parts: seq<string>)
    requires parts != []
    ensures |Leading(parts)| == |parts| - 1
  {
    if |parts| > 1 {
      LeadingLength(parts[..|parts| - 1]);
    }
  }

  // ----- The code's own form

  /** The shorthand branch: pushes the leading octets in a loop, then the bytes of the last part. */
  method ExpandShorthand(parts: seq<string>) returns (octets: seq<Option<int>>)
    requires 2 <= |parts| < 4 && AllDigits(parts[|parts| - 1])
    ensures octets == Expanded(parts)
  {
    octets := [];
    var i := 0;
    while i < |parts| - 1
      invariant 0 <= i <= |parts| - 1
      invariant octets == Leading(parts[..i + 1])
    {
      assert parts[..i + 2][..i + 1] == parts[..i + 1];
      octets := octets + [ParseInt(parts[i], 10)];
      i := i + 1;
    }
    assert parts[..i + 1] == parts;
    LeadingLength(parts);
    ParseDigits(parts[|parts| - 1], 10);
    var lastNum: nat := ParseInt(parts[|parts| - 1], 10).value;
    var remainingBytes := 4 - |octets|;
    if remainingBytes == 3 {
      octets := octets + [Some(Byte(lastNum, 2) as int)];
      octets := octets + [Some(Byte(lastNum, 1) as int)];
      octets := octets + [Some(Byte(lastNum, 0) as int)];
    } else if remainingBytes == 2 {
      octets := octets + [Some(Byte(lastNum, 1) as int)];
      octets := octets + [Some(Byte(lastNum, 0) as int)];
    }
  }

  method NormalizeIPEncoding(host: string) returns (r: string)
    ensures r == Normalize(host)
  {
    if AllDigits(host) && |host| <= 10 {
      ParseDigits(host, 10);
      var num := ParseInt(host, 10).value;
      if num <= 0xFFFF_FFFF {
        return Quad(num);
      }
    }
    if HasHexMark(host) && 3 <= |host| <= 10 && IsDigits(host[2..], 16) {
      ParseHex(host);
      var num := ParseInt(host, 16).value;
      if num <= 0xFFFF_FFFF {
        return Quad(num);
      }
    }
    r := NormalizeDottedHost(host);
  }

  method NormalizeDottedHost(host: string) returns (r: string)
    ensures r == NormalizeDotted(host)
  {
    hide Split, Join, Mapped, FromOctal, FromHex, Expanded, Dotted, DigitValue;
    var parts := Split(host, '.');
    if |host| >= 2 && host[0] == '0' && '0' <= host[1] <= '7' && '.' in host {
      return Join(Mapped(parts, FromOctal), '.');
    }
    if HasHexMark(host) && |host| >= 3 && DigitValue(host[2]) < 16 && '.' in host {
      return Join(Mapped(parts, FromHex), '.');
    }
    if |parts| >= 2 && AllDigits(parts[0]) && AllDigits(parts[|parts| - 1]) && |parts| < 4 {
      var octets := ExpandShorthand(parts);
      if AreOctets(octets) {
        return Dotted(octets);
      }
    }
    r := host;
  }

  // ----- Spellings of an address

  function Address(a: nat, b: nat, c: nat, d: nat): nat {
    a * 0x100_0000 + b * 0x1_0000 + c * 0x100 + d
  }

  /** 0 and then octal digits. */
  predicate OctalPart(p: string, v: nat) {
    |p| >= 2 && p[0] == '0' && IsDigits(p, 8) && Value(p, 8) == v
  }

  /** 0x and then hexadecimal digits, in either case. */
  predicate HexPart(p: string, v: nat) {
    HasHexMark(p) && |p| >= 3 && IsDigits(p[2..], 16) && Value(p[2..], 16) == v
  }

  predicate DecimalPart(p: string, v: nat) {
    p == Decimal(v)
  }

  datatype Notation =
    | Number                         // decimal, at most ten digits
    | HexNumber                      // 0x and at most eight digits
    | DottedDecimal
    | DottedOctal                    // first part octal, the others octal or decimal
    | DottedHex                      // first part hexadecimal, the others hexadecimal or decimal
    | TwoParts                       // a.b with b filling three bytes
    | ThreeParts                     // a.b.c with c filling two bytes

  predicate EachPart(parts: seq<string>, n: nat, ok: (string, nat) -> bool) {
    && |parts| == 4
    && ok(parts[0], Byte(n, 3)) && ok(parts[1], Byte(n, 2)) && ok(parts[2], Byte(n, 1)) && ok(parts[3], Byte(n, 0))
  }

  /** `host` writes the 32-bit address `n` in the given notation. */
  predicate Spells(host: string, n: nat, notation: Notation) {
    var parts := Split(host, '.');
    && n <= 0xFFFF_FFFF
    && match notation
       case Number => AllDigits(host) && |host| <= 10 && Value(host, 10) == n
       case HexNumber => HexPart(host, n) && |host| <= 10
       case DottedDecimal => EachPart(parts, n, DecimalPart)
       case DottedOctal =>
         && EachPart(parts, n, (p: string, v: nat) => OctalPart(p, v) || DecimalPart(p, v))
         && OctalPart(parts[0], Byte(n, 3))
       case DottedHex =>
         && EachPart(parts, n, (p: string, v: nat) => HexPart(p, v) || DecimalPart(p, v))
         && HexPart(parts[0], Byte(n, 3))
       case TwoParts =>
         |parts| == 2 && parts[0] == Decimal(Byte(n, 3)) && parts[1] == Decimal(n % 0x100_0000)
       case ThreeParts =>
         |parts| == 3 && parts[0] == Decimal(Byte(n, 3)) && parts[1] == Decimal(Byte(n, 2))
         && parts[2] == Decimal(n % 0x1_0000)
  }

  lemma JoinSnoc(init: seq<string>, last: string, sep: char)
    ensures Join(init + [last], sep) == if init == [] then last else Join(init, sep) + [sep] + last
  {
    assert (init + [last])[..|init|] == init;
  }

  lemma {:induction false} JoinSplit(s: string, sep: char)
    ensures Join(Split(s, sep), sep) == s
  {
    if s == "" {
    } else {
      var before, c := s[..|s| - 1], s[|s| - 1];
      JoinSplit(before, sep);
      assert s == before + [c];
      SplitSnoc(before, c, sep);
      hide Complete, Rest, Join;
      JoinSnoc(Complete(before, sep), Rest(before, sep), sep);
      if c == sep {
        JoinSnoc(Split(before, sep), "", sep);
      } else {
        JoinSnoc(Complete(before, sep), Rest(before, sep) + [c], sep);
      }
    }
  }

  /** A host with a dot starts with its first piece and that dot. */
  lemma {:induction false} FirstPiece(s: string, sep: char)
    ensures |Split(s, sep)| >= 2 ==> Split(s, sep)[0] + [sep] <= s
    ensures |Split(s, sep)| == 1 ==> Split(s, sep)[0] == s
  {
    if s == "" {
    } else {
      var before, c := s[..|s| - 1], s[|s| - 1];
      FirstPiece(before, sep);
      assert s == before + [c];
    }
  }

  lemma {:induction false} DecimalShape(v: nat)
    ensures AllDigits(Decimal(v))
    ensures forall i | 0 <= i < |Decimal(v)| :: '0' <= Decimal(v)[i] <= '9'
    ensures Decimal(v)[0] == '0' ==> v == 0 && Decimal(v) == "0"
  {
    DecimalValue(v);
    if v >= 10 {
      DecimalShape(v / 10);
    }
  }

  /** How a host with a dot begins, given its first piece. */
  lemma Beginning(host: string)
    requires |Split(host, '.')| >= 2 && Split(host, '.')[0] != ""
    ensures
      var p := Split(host, '.')[0];
      && |host| > |p| && '.' in host && !AllDigits(host)
      && host[0] == p[0] && host[|p|] == '.' && (|p| >= 2 ==> host[1] == p[1]) && (|p| >= 3 ==> host[2] == p[2])
  {
    var p := Split(host, '.')[0];
    FirstPiece(host, '.');
    assert host[|p|] == (p + ['.'])[|p|];
    assert DigitValue(host[|p|]) == 16;
  }

  lemma PartKept(p: string, v: nat)
    ensures OctalPart(p, v) ==> FromOctal(p) == Decimal(v)
    ensures HexPart(p, v) ==> FromHex(p) == Decimal(v)
    ensures DecimalPart(p, v) ==> FromOctal(p) == Decimal(v) && FromHex(p) == Decimal(v)
  {
    if OctalPart(p, v) {
      ParseDigits(p, 8);
    }
    if HexPart(p, v) {
      ParseHex(p);
    }
    DecimalShape(v);
  }

  lemma {:induction false} MappedEach(parts: seq<string>, f: string -> string)
    ensures |Mapped(parts, f)| == |parts|
    ensures forall i | 0 <= i < |parts| :: Mapped(parts, f)[i] == f(parts[i])
  {
    if parts == [] {
    } else {
      MappedEach(parts[..|parts| - 1], f);
    }
  }

  lemma Mapped4(parts: seq<string>, f: string -> string)
    requires |parts| == 4
    ensures Mapped(parts, f) == [f(parts[0]), f(parts[1]), f(parts[2]), f(parts[3])]
  {
    hide Mapped;
    MappedEach(parts, f);
  }

  lemma NumberSpelled(host: string, n: nat)
    requires Spells(host, n, Number) || Spells(host, n, HexNumber)
    ensures Normalize(host) == Quad(n)
  {
    if Spells(host, n, HexNumber) {
      assert DigitValue(host[1]) == 16;
    }
  }

  lemma DottedDecimalSpelled(host: string, n: nat)
    requires Spells(host, n, DottedDecimal)
    ensures Normalize(host) == Quad(n) == host
  {
    JoinSplit(host, '.');
    DecimalShape(Byte(n, 3));
    Beginning(host);
    assert Split(host, '.') == [Decimal(Byte(n, 3)), Decimal(Byte(n, 2)), Decimal(Byte(n, 1)), Decimal(Byte(n, 0))];
  }

  lemma DottedOctalSpelled(host: string, n: nat)
    requires Spells(host, n, DottedOctal)
    ensures Normalize(host) == Quad(n)
  {
    var parts := Split(host, '.');
    Beginning(host);
    assert DigitValue(parts[0][1]) < 8;
    Mapped4(parts, FromOctal);
    PartKept(parts[0], Byte(n, 3));
    PartKept(parts[1], Byte(n, 2));
    PartKept(parts[2], Byte(n, 1));
    PartKept(parts[3], Byte(n, 0));
  }

  lemma DottedHexSpelled(host: string, n: nat)
    requires Spells(host, n, DottedHex)
    ensures Normalize(host) == Quad(n)
  {
    var parts := Split(host, '.');
    Beginning(host);
    assert DigitValue(parts[0][2]) < 16;
    assert host[2..][|parts[0]| - 2] == '.' && DigitValue('.') == 16;
    Mapped4(parts, FromHex);
    PartKept(parts[0], Byte(n, 3));
    PartKept(parts[1], Byte(n, 2));
    PartKept(parts[2], Byte(n, 1));
    PartKept(parts[3], Byte(n, 0));
  }

  lemma Leading23(parts: seq<string>)
    ensures |parts| == 2 ==> Leading(parts) == [ParseInt(parts[0], 10)]
    ensures |parts| == 3 ==> Leading(parts) == [ParseInt(parts[0], 10), ParseInt(parts[1], 10)]
  {
    if |parts| == 3 {
      assert Leading(parts[..2]) == Leading(parts[..2][..1]) + [ParseInt(parts[0], 10)];
    }
  }

  lemma DecimalParsed(v: nat)
    ensures ParseInt(Decimal(v), 10) == Some(v) && Value(Decimal(v), 10) == v && AllDigits(Decimal(v))
  {
    DecimalValue(v);
    ParseDigits(Decimal(v), 10);
  }

  lemma DivisionIs(x: nat, r: nat)
    ensures r < 0x100 ==> (x * 0x100 + r) / 0x100 == x && (x * 0x100 + r) % 0x100 == r
    ensures r < 0x1_0000 ==> (x * 0x1_0000 + r) / 0x1_0000 == x
  {
  }

  /** The bytes of a number written as q * 256^2 + b1 * 256 + b0. */
  lemma TwoBytes(n: nat, q: nat, b1: nat, b0: nat)
    requires n == q * 0x1_0000 + b1 * 0x100 + b0 && b1 < 0x100 && b0 < 0x100
    ensures n % 0x100 == b0 && n / 0x100 == q * 0x100 + b1 && n / 0x100 % 0x100 == b1 && n / 0x1_0000 == q
  {
    DivisionIs(q * 0x100 + b1, b0);
    DivisionIs(q, b1);
    DivisionIs(q, b1 * 0x100 + b0);
  }

  lemma LowBytes(n: nat)
    ensures Byte(n % 0x100_0000, 2) == Byte(n, 2) && Byte(n % 0x100_0000, 1) == Byte(n, 1)
    ensures Byte(n % 0x100_0000, 0) == Byte(n, 0)
    ensures Byte(n % 0x1_0000, 1) == Byte(n, 1) && Byte(n % 0x1_0000, 0) == Byte(n, 0)
  {
    var m, r := n / 0x1_0000, n % 0x1_0000;
    var b1, b0 := r / 0x100, r % 0x100;
    TwoBytes(n, m, b1, b0);
    TwoBytes(r, 0, b1, b0);
    var q, b2 := m / 0x100, m % 0x100;
    var low := b2 * 0x1_0000 + r;
    assert n == q * 0x100_0000 + low && low < 0x100_0000;
    assert n % 0x100_0000 == low;
    TwoBytes(low, b2, b1, b0);
  }

  /** A host of two or three decimal parts reaches the shorthand branch. */
  lemma ShorthandReached(host: string, v: nat, octets: seq<nat>)
    requires 2 <= |Split(host, '.')| <= 3 && Split(host, '.')[0] == Decimal(v)
    requires AllDigits(Split(host, '.')[|Split(host, '.')| - 1])
    requires |octets| == 4 && forall i | 0 <= i < 4 :: octets[i] < 256
    requires Expanded(Split(host, '.')) == [Some(octets[0]), Some(octets[1]), Some(octets[2]), Some(octets[3])]
    ensures Normalize(host) ==
            Join([Decimal(octets[0]), Decimal(octets[1]), Decimal(octets[2]), Decimal(octets[3])], '.')
  {
    hide Split, Join, Mapped, Value, Expanded, Decimal;
    DecimalShape(v);
    Beginning(host);
  }

  lemma PartsExpand(parts: seq<string>, a: nat, b: nat, last: nat)
    requires |parts| in {2, 3} && parts[0] == Decimal(a) && parts[|parts| - 1] == Decimal(last)
    requires |parts| == 3 ==> parts[1] == Decimal(b)
    ensures AllDigits(parts[|parts| - 1])
    ensures Expanded(parts) ==
            if |parts| == 2
            then [Some(a as int), Some(Byte(last, 2) as int), Some(Byte(last, 1) as int), Some(Byte(last, 0) as int)]
            else [Some(a as int), Some(b as int), Some(Byte(last, 1) as int), Some(Byte(last, 0) as int)]
  {
    Leading23(parts);
    DecimalParsed(a);
    DecimalParsed(b);
    DecimalParsed(last);
  }

  lemma TwoPartsSpelled(host: string, n: nat)
    requires Spells(host, n, TwoParts)
    ensures Normalize(host) == Quad(n)
  {
    var last := n % 0x100_0000;
    PartsExpand(Split(host, '.'), Byte(n, 3), 0, last);
    ShorthandReached(host, Byte(n, 3), [Byte(n, 3), Byte(last, 2), Byte(last, 1), Byte(last, 0)]);
    LowBytes(n);
  }

  lemma ThreePartsSpelled(host: string, n: nat)
    requires Spells(host, n, ThreeParts)
    ensures Normalize(host) == Quad(n)
  {
    var last := n % 0x1_0000;
    PartsExpand(Split(host, '.'), Byte(n, 3), Byte(n, 2), last);
    ShorthandReached(host, Byte(n, 3), [Byte(n, 3), Byte(n, 2), Byte(last, 1), Byte(last, 0)]);
    LowBytes(n);
  }

  /** Every spelling of a 32-bit address normalises to the same dotted quad. */
  lemma SpellingsNormalize(host: string, n: nat, notation: Notation)
    requires Spells(host, n, notation)
    ensures Normalize(host) == Quad(n)
  {
    match notation {
      case Number => NumberSpelled(host, n);
      case HexNumber => NumberSpelled(host, n);
      case DottedDecimal => DottedDecimalSpelled(host, n);
      case DottedOctal => DottedOctalSpelled(host, n);
      case DottedHex => DottedHexSpelled(host, n);
      case TwoParts => TwoPartsSpelled(host, n);
      case ThreeParts => ThreePartsSpelled(host, n);
    }
  }

  // ----- isBlockedHost

  function Lowered(s: string): string {
    if s == "" then "" else Lowered(s[..|s| - 1]) + [Lower(s[|s| - 1])]
  }

  /** The part of the pattern 172.(16-31) between the first two dots: 1[6-9]|2\d|3[0-1]. */
  predicate Private172(p: string) {
    && |p| == 2
    && (|| (p[0] == '1' && '6' <= p[1] <= '9')
        || (p[0] == '2' && '0' <= p[1] <= '9')
        || (p[0] == '3' && '0' <= p[1] <= '1'))
  }

  predicate MatchesLocalhost(h: string, p: seq<string>) {
    || Lowered(h) == "localhost"
    || (|p| == 4 && p[0] == "127" && AllDigits(p[1]) && AllDigits(p[2]) && AllDigits(p[3]))
    || h == "0.0.0.0"
  }

  predicate MatchesPrivate(p: seq<string>) {
    && |p| == 4 && AllDigits(p[2]) && AllDigits(p[3])
    && (|| (p[0] == "10" && AllDigits(p[1]))
        || (p[0] == "172" && Private172(p[1]))
        || (p[0] == "192" && p[1] == "168"))
  }

  predicate MatchesMetadata(h: string) {
    || h == "169.254.169.254" || h == "169.254.169.253"
    || Lowered(h) == "metadata.google.internal" || Lowered(h) == "instance-data.ec2.internal"
  }

  predicate MatchesLinkLocal(p: seq<string>) {
    |p| == 4 && p[0] == "169" && p[1] == "254" && AllDigits(p[2]) && AllDigits(p[3])
  }

  /** The blocking decision for a host without colon or bracket: all patterns that contain no colon. */
  predicate IsBlockedHost(host: string) {
    var h := Normalize(host);
    var p := Split(h, '.');
    MatchesLocalhost(h, p) || MatchesPrivate(p) || MatchesMetadata(h) || MatchesLinkLocal(p)
  }

  /** Membership in the block of `size` addresses starting at a.b.0.0. */
  predicate InBlock(n: nat, a: nat, b: nat, size: nat) {
    Address(a, b, 0, 0) <= n < Address(a, b, 0, 0) + size
  }

  /** 127/8, 0.0.0.0, link-local 169.254/16, and the private blocks of section 3 of RFC 1918. */
  predicate Internal(n: nat) {
    || InBlock(n, 127, 0, 0x100_0000)
    || n == 0
    || InBlock(n, 169, 254, 0x1_0000)
    || InBlock(n, 10, 0, 0x100_0000)
    || InBlock(n, 172, 16, 0x10_0000)
    || InBlock(n, 192, 168, 0x1_0000)
  }

  function Decimals(a: nat, b: nat, c: nat, d: nat): seq<string> {
    [Decimal(a), Decimal(b), Decimal(c), Decimal(d)]
  }

  function QuadParts(n: nat): seq<string> {
    Decimals(Byte(n, 3), Byte(n, 2), Byte(n, 1), Byte(n, 0))
  }

  lemma DecimalsSplit(a: nat, b: nat, c: nat, d: nat)
    ensures Split(Join(Decimals(a, b, c, d), '.'), '.') == Decimals(a, b, c, d)
    ensures
      var parts := Decimals(a, b, c, d);
      && AllDigits(parts[0]) && AllDigits(parts[1]) && AllDigits(parts[2]) && AllDigits(parts[3])
      && Join(parts, '.') != "" && '0' <= Join(parts, '.')[0] <= '9'
  {
    var parts := Decimals(a, b, c, d);
    DecimalShape(a);
    DecimalShape(b);
    DecimalShape(c);
    DecimalShape(d);
    SplitJoin(parts, '.');
    FirstPiece(Join(parts, '.'), '.');
    assert Join(parts, '.')[0] == parts[0][0];
  }

  lemma QuadSplits(n: nat)
    ensures Split(Quad(n), '.') == QuadParts(n)
    ensures var p := QuadParts(n); AllDigits(p[0]) && AllDigits(p[1]) && AllDigits(p[2]) && AllDigits(p[3])
    ensures Quad(n) != "" && '0' <= Quad(n)[0] <= '9'
  {
    DecimalsSplit(Byte(n, 3), Byte(n, 2), Byte(n, 1), Byte(n, 0));
  }

  /** Decimal notation is unambiguous. */
  lemma DecimalIs(v: nat, w: nat)
    ensures Decimal(v) == Decimal(w) <==> v == w
  {
    DecimalValue(v);
    DecimalValue(w);
  }

  lemma Private172Is(v: nat)
    requires v < 256
    ensures Private172(Decimal(v)) <==> 16 <= v <= 31
  {
    if v >= 10 {
      assert Decimal(v) == Decimal(v / 10) + [DigitChar(v % 10)];
    }
  }

  lemma {:induction false} LoweredStart(s: string)
    requires s != ""
    ensures Lowered(s) != "" && Lowered(s)[0] == Lower(s[0])
  {
    if |s| > 1 {
      LoweredStart(s[..|s| - 1]);
    }
  }

  /** A quad read back byte by byte. */
  lemma BytesDecide(n: nat)
    requires n <= 0xFFFF_FFFF
    ensures InBlock(n, 127, 0, 0x100_0000) <==> Byte(n, 3) == 127
    ensures InBlock(n, 10, 0, 0x100_0000) <==> Byte(n, 3) == 10
    ensures InBlock(n, 169, 254, 0x1_0000) <==> Byte(n, 3) == 169 && Byte(n, 2) == 254
    ensures InBlock(n, 192, 168, 0x1_0000) <==> Byte(n, 3) == 192 && Byte(n, 2) == 168
    ensures InBlock(n, 172, 16, 0x10_0000) <==> Byte(n, 3) == 172 && 16 <= Byte(n, 2) <= 31
    ensures n == 0 <==> Byte(n, 3) == Byte(n, 2) == Byte(n, 1) == Byte(n, 0) == 0
  {
  }

  lemma DecimalSnoc(n: nat, c: nat)
    requires n > 0 && c < 10
    ensures Decimal(10 * n + c) == Decimal(n) + [DigitChar(c)]
  {
    assert (10 * n + c) / 10 == n && (10 * n + c) % 10 == c;
  }

  lemma Digits3(a: nat, b: nat, c: nat)
    requires a < 10 && b < 10 && c < 10
    ensures a == b == 0 ==> Decimal(c) == [DigitChar(c)]
    ensures a == 0 && b != 0 ==> Decimal(10 * b + c) == [DigitChar(b), DigitChar(c)]
    ensures a != 0 ==> Decimal(100 * a + 10 * b + c) == [DigitChar(a), DigitChar(b), DigitChar(c)]
  {
    hide DigitChar;
    assert Decimal(a) == [DigitChar(a)] && Decimal(b) == [DigitChar(b)] && Decimal(c) == [DigitChar(c)];
    hide Decimal;
    if a != 0 {
      DecimalSnoc(a, b);
      DecimalSnoc(10 * a + b, c);
    } else if b != 0 {
      DecimalSnoc(b, c);
    }
  }

  lemma LiteralDecimals()
    ensures Decimal(0) == "0" && Decimal(1) == "1" && Decimal(10) == "10"
    ensures Decimal(127) == "127" && Decimal(169) == "169"
    ensures Decimal(253) == "253" && Decimal(254) == "254" && Decimal(172) == "172" && Decimal(192) == "192"
    ensures Decimal(168) == "168"
  {
    hide Decimal;
    Digits3(0, 0, 0);
    Digits3(0, 0, 1);
    Digits3(0, 1, 0);
    Digits3(1, 2, 7);
    Digits3(1, 6, 9);
    Digits3(2, 5, 3);
    Digits3(2, 5, 4);
    Digits3(1, 7, 2);
    Digits3(1, 9, 2);
    Digits3(1, 6, 8);
  }

  lemma Join4(a: string, b: string, c: string, d: string)
    ensures Join([a, b, c, d], '.') == a + "." + b + "." + c + "." + d
  {
    assert [a, b, c, d][..3] == [a, b, c] && [a, b, c][..2] == [a, b] && [a, b][..1] == [a];
    assert Join([a, b], '.') == a + "." + b;
    assert Join([a, b, c], '.') == a + "." + b + "." + c;
  }

  /** A quad equals a literal one only if its numbers do. */
  lemma QuadIs(n: nat, a: nat, b: nat, c: nat, d: nat)
    requires Quad(n) == Join(Decimals(a, b, c, d), '.')
    ensures Byte(n, 3) == a && Byte(n, 2) == b && Byte(n, 1) == c && Byte(n, 0) == d
  {
    hide Split, Join, Decimals, Decimal, Byte, AllDigits;
    QuadSplits(n);
    DecimalsSplit(a, b, c, d);
    PartsEqual(a, b, c, d, n);
  }

  lemma PartsEqual(a: nat, b: nat, c: nat, d: nat, n: nat)
    requires QuadParts(n) == Decimals(a, b, c, d)
    ensures Byte(n, 3) == a && Byte(n, 2) == b && Byte(n, 1) == c && Byte(n, 0) == d
  {
    hide Decimal, Byte;
    var p, q := Decimals(a, b, c, d), QuadParts(n);
    assert p[0] == q[0] && p[1] == q[1] && p[2] == q[2] && p[3] == q[3];
    DecimalIs(Byte(n, 3), a);
    DecimalIs(Byte(n, 2), b);
    DecimalIs(Byte(n, 1), c);
    DecimalIs(Byte(n, 0), d);
  }

  lemma LiteralQuads(n: nat)
    ensures Quad(n) == "0.0.0.0" <==> Byte(n, 3) == Byte(n, 2) == Byte(n, 1) == Byte(n, 0) == 0
    ensures Quad(n) == "169.254.169.254" ==> Byte(n, 3) == 169 && Byte(n, 2) == 254
    ensures Quad(n) == "169.254.169.253" ==> Byte(n, 3) == 169 && Byte(n, 2) == 254
  {
    hide Decimal, Join, Byte;
    LiteralDecimals();
    Join4("0", "0", "0", "0");
    Join4("169", "254", "169", "254");
    Join4("169", "254", "169", "253");
    if Quad(n) == "0.0.0.0" {
      QuadIs(n, 0, 0, 0, 0);
    }
    if Quad(n) == "169.254.169.254" {
      QuadIs(n, 169, 254, 169, 254);
    }
    if Quad(n) == "169.254.169.253" {
      QuadIs(n, 169, 254, 169, 253);
    }
  }

  lemma QuadIsNoName(n: nat)
    ensures Lowered(Quad(n)) != "localhost" && Lowered(Quad(n)) != "metadata.google.internal"
    ensures Lowered(Quad(n)) != "instance-data.ec2.internal"
  {
    QuadSplits(n);
    LoweredStart(Quad(n));
  }

  lemma PartsDecide(n: nat)
    requires n <= 0xFFFF_FFFF
    ensures
      var p := QuadParts(n);
      && (p[0] == "127" <==> Byte(n, 3) == 127) && (p[0] == "10" <==> Byte(n, 3) == 10)
      && (p[0] == "169" <==> Byte(n, 3) == 169) && (p[1] == "254" <==> Byte(n, 2) == 254)
      && (p[0] == "192" <==> Byte(n, 3) == 192) && (p[1] == "168" <==> Byte(n, 2) == 168)
      && (p[0] == "172" <==> Byte(n, 3) == 172) && (Private172(p[1]) <==> 16 <= Byte(n, 2) <= 31)
  {
    hide Decimal, Private172, Byte;
    LiteralDecimals();
    DecimalIs(Byte(n, 3), 127);
    DecimalIs(Byte(n, 3), 10);
    DecimalIs(Byte(n, 3), 169);
    DecimalIs(Byte(n, 2), 254);
    DecimalIs(Byte(n, 3), 192);
    DecimalIs(Byte(n, 2), 168);
    DecimalIs(Byte(n, 3), 172);
    Private172Is(Byte(n, 2));
  }

  /** A host that normalises to a quad is blocked exactly when that address is internal. */
  lemma QuadBlocked(host: string, n: nat)
    requires n <= 0xFFFF_FFFF && Normalize(host) == Quad(n)
    ensures IsBlockedHost(host) <==> Internal(n)
  {
    QuadSplits(n);
    QuadIsNoName(n);
    LiteralQuads(n);
    PartsDecide(n);
    BytesDecide(n);
  }

  /**
   * The pattern tests agree with the numbers: in each of these notations, a host is blocked exactly when
   * its address lies in one of the internal ranges.
   */
  lemma BlockedExactly(host: string, n: nat, notation: Notation)
    requires Spells(host, n, notation)
    ensures IsBlockedHost(host) <==> Internal(n)
  {
    SpellingsNormalize(host, n, notation);
    QuadBlocked(host, n);
  }

  /** Normalising twice is normalising once, on every spelled address. */
  lemma NormalizeIdempotent(host: string, n: nat, notation: Notation)
    requires Spells(host, n, notation)
    ensures Spells(Normalize(host), n, DottedDecimal)
    ensures Normalize(Normalize(host)) == Normalize(host)
  {
    SpellingsNormalize(host, n, notation);
    QuadSplits(n);
    SpellingsNormalize(Quad(n), n, DottedDecimal);
  }
}
