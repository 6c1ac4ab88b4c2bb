/**
 * Hosts that are no proper spelling of an address but are read as one all the same, or could be
 * (normalizeIPEncoding and isBlockedHost of src/validation/network-security.ts).
 */
module LooseShorthand {
  import opened Wrappers
  import opened Text
  import opened NetworkSecurity

  // ----- What parseInt makes of a number with something around it

  predicate AllSpaces(s: string) {
    forall i | 0 <= i < |s| :: IsSpace(s[i])
  }

  lemma {:induction false} Trimmed(pad: string, rest: string)
    requires AllSpaces(pad) && (rest != "" ==> !IsSpace(rest[0]))
    ensures TrimLeft(pad + rest) == rest
  {
    if pad == "" {
      assert pad + rest == rest;
    } else {
      assert (pad + rest)[1..] == pad[1..] + rest;
      Trimmed(pad[1..], rest);
    }
  }

  lemma {:induction false} DigitsTaken(digits: string, tail: string)
    requires IsDigits(digits, 10) && (tail != "" ==> DigitValue(tail[0]) >= 10)
    ensures DigitPrefix(digits + tail, 10) == digits
  {
    if digits == "" {
      assert digits + tail == tail;
    } else {
      assert (digits + tail)[1..] == digits[1..] + tail;
      DigitsTaken(digits[1..], tail);
    }
  }

  /** White space, a sign or none, the digits, and a rest that begins with no digit. */
  predicate Loose(m: string, pad: string, sign: string, digits: string, tail: string) {
    && m == pad + sign + digits + tail
    && AllSpaces(pad) && sign in ["", "+", "-"] && IsDigits(digits, 10)
    && (tail != "" ==> DigitValue(tail[0]) >= 10)
    && (sign == "" && digits == "" && tail != "" ==> !IsSpace(tail[0]) && tail[0] != '+' && tail[0] != '-')
  }

  /** What follows the white space decides. */
  lemma ParsedAfterSpace(m: string, sign: string, unsigned: string)
    requires TrimLeft(m) == sign + unsigned && sign in ["", "+", "-"]
    requires sign == "" && unsigned != "" ==> unsigned[0] != '+' && unsigned[0] != '-'
    ensures
      var digits := DigitPrefix(unsigned, 10);
      ParseInt(m, 10) ==
      if digits == "" then None else Some(if sign == "-" then 0 - Value(digits, 10) else Value(digits, 10) as int)
  {
    hide Value, TrimLeft, DigitPrefix;
    var t := TrimLeft(m);
    if sign == "" {
      assert t == unsigned;
    } else {
      assert t[0] == sign[0] && t[1..] == unsigned;
    }
  }

  lemma StartsPlainly(sign: string, digits: string, tail: string)
    requires Loose(sign + digits + tail, "", sign, digits, tail)
    ensures var t := sign + digits + tail; t != "" ==> !IsSpace(t[0])
    ensures sign == "" && digits + tail != "" ==> (digits + tail)[0] != '+' && (digits + tail)[0] != '-'
  {
    if digits != "" {
      assert DigitValue(digits[0]) < 10;
    }
    assert DigitValue('+') == DigitValue('-') == DigitValue(' ') == 16;
  }

  lemma Regrouped(pad: string, sign: string, digits: string, tail: string)
    ensures pad + sign + digits + tail == pad + (sign + (digits + tail))
    ensures sign + digits + tail == sign + (digits + tail)
  {
  }

  lemma LooselyParsed(m: string, pad: string, sign: string, digits: string, tail: string)
    requires Loose(m, pad, sign, digits, tail)
    ensures ParseInt(m, 10) ==
            if digits == "" then None
            else Some(if sign == "-" then 0 - Value(digits, 10) else Value(digits, 10) as int)
  {
    hide Value, TrimLeft, DigitPrefix, ParseInt, IsDigits;
    Regrouped(pad, sign, digits, tail);
    Regrouped("", sign, digits, tail);
    assert Loose(sign + digits + tail, "", sign, digits, tail);
    StartsPlainly(sign, digits, tail);
    Trimmed(pad, sign + (digits + tail));
    DigitsTaken(digits, tail);
    ParsedAfterSpace(m, sign, digits + tail);
  }

  // ----- The middle of a shorthand

  /** The code does not take the host for one that begins in octal. */
  predicate NotOctalStart(first: string) {
    !(|first| >= 2 && first[0] == '0' && '0' <= first[1] <= '7')
  }

  lemma ThreeSplit(a: string, m: string, c: string)
    requires '.' !in a && '.' !in m && '.' !in c
    ensures Split(Join([a, m, c], '.'), '.') == [a, m, c]
    ensures Join([a, m, c], '.') == a + "." + m + "." + c
  {
    SplitJoin([a, m, c], '.');
    assert [a, m, c][..2] == [a, m] && [a, m][..1] == [a];
    assert Join([a, m], '.') == a + "." + m;
  }

  lemma DigitsAreDotless(s: string)
    requires AllDigits(s)
    ensures '.' !in s && 0 < |s| && '0' <= s[0] <= '9' && (|s| >= 2 ==> '0' <= s[1] <= '9')
  {
    assert DigitValue('.') == 16;
    assert DigitValue(s[0]) < 10;
    assert |s| >= 2 ==> DigitValue(s[1]) < 10;
  }

  /** Hosts of three parts with decimal digits first and last go to the shorthand branch. */
  lemma GoesToShorthand(a: string, m: string, c: string)
    requires AllDigits(a) && AllDigits(c) && '.' !in m && NotOctalStart(a)
    ensures
      var host, parts := a + "." + m + "." + c, [a, m, c];
      && Split(host, '.') == parts
      && Normalize(host) == if AreOctets(Expanded(parts)) then Dotted(Expanded(parts)) else host
  {
    hide Split, Join, Expanded, Dotted, Mapped, FromOctal, FromHex, AreOctets;
    var host := a + "." + m + "." + c;
    DigitsAreDotless(a);
    DigitsAreDotless(c);
    ThreeSplit(a, m, c);
    assert host[|a|] == '.' && DigitValue('.') == 16;
    assert !AllDigits(host);
    assert |a| >= 2 ==> host[1] == a[1];
    assert !HasHexMark(host);
  }

  lemma ThreeExpanded(a: string, m: string, c: string)
    requires AllDigits(a) && AllDigits(c)
    ensures
      var y := Value(c, 10);
      Expanded([a, m, c]) == [Some(Value(a, 10)), ParseInt(m, 10), Some(Byte(y, 1)), Some(Byte(y, 0))]
  {
    hide Value, ParseInt, IsDigits, Leading;
    Leading23([a, m, c]);
    ParseDigits(a, 10);
  }

  /**
   * The middle part of a.m.c is read as parseInt reads it: white space and a sign before the number and
   * anything behind it are ignored, so such a host is taken for an address; without digits, with a negative
   * number or with numbers above 255 it stays as it is.
   */
  lemma MiddleRead(a: string, m: string, c: string, pad: string, sign: string, digits: string, tail: string)
    requires AllDigits(a) && AllDigits(c) && '.' !in m && NotOctalStart(a) && Loose(m, pad, sign, digits, tail)
    ensures
      var host, x, v, y := a + "." + m + "." + c, Value(a, 10), Value(digits, 10), Value(c, 10);
      Normalize(host) ==
      if digits != "" && x <= 255 && v <= 255 && (sign != "-" || v == 0)
      then Join([Decimal(x), Decimal(v), Decimal(y / 256 % 256), Decimal(y % 256)], '.')
      else host
  {
    hide Normalize, Value, ParseInt, Join, Decimal, Expanded, Loose;
    GoesToShorthand(a, m, c);
    ThreeExpanded(a, m, c);
    LooselyParsed(m, pad, sign, digits, tail);
  }

  /** Blanks and letters do not hide an internal address: 10. 5x.3 is blocked like 10.5.0.3. */
  lemma LooseBlockedIff(a: string, m: string, c: string, pad: string, sign: string, digits: string, tail: string)
    requires AllDigits(a) && AllDigits(c) && '.' !in m && NotOctalStart(a) && Loose(m, pad, sign, digits, tail)
    requires
      digits != "" && Value(a, 10) <= 255 && Value(digits, 10) <= 255 && (sign != "-" || Value(digits, 10) == 0)
    ensures
      var x, v, y := Value(a, 10), Value(digits, 10), Value(c, 10);
      IsBlockedHost(a + "." + m + "." + c) <==> Internal(Address(x, v, y / 256 % 256, y % 256))
  {
    var x, v, y := Value(a, 10), Value(digits, 10), Value(c, 10);
    var n := Address(x, v, y / 256 % 256, y % 256);
    MiddleRead(a, m, c, pad, sign, digits, tail);
    BytesOf(x, v, y / 256 % 256, y % 256);
    hide Normalize, Value, Join, Decimal, IsBlockedHost, Internal, Byte, Address;
    assert Normalize(a + "." + m + "." + c) == Quad(n);
    QuadBlocked(a + "." + m + "." + c, n);
  }

  lemma HighBytes(n: nat, high: nat, low: nat)
    requires n == high * 0x1_0000 + low && low < 0x1_0000
    ensures n / 0x1_0000 == high && n / 0x100_0000 == high / 0x100 && n / 0x100 % 0x100 == low / 0x100
    ensures n % 0x100 == low % 0x100
  {
  }

  lemma BytesOf(a: nat, b: nat, c: nat, d: nat)
    requires a < 256 && b < 256 && c < 256 && d < 256
    ensures
      var n := Address(a, b, c, d);
      n <= 0xFFFF_FFFF && Byte(n, 3) == a && Byte(n, 2) == b && Byte(n, 1) == c && Byte(n, 0) == d
  {
    HighBytes(Address(a, b, c, d), a * 0x100 + b, c * 0x100 + d);
  }

  // ----- Four parts and more

  /** A host of four parts or more is only ever rewritten if it begins in octal or in hexadecimal. */
  lemma ManyPartsKept(host: string)
    requires |Split(host, '.')| >= 4
    requires NotOctalStart(host) && !(HasHexMark(host) && |host| >= 3 && DigitValue(host[2]) < 16)
    ensures Normalize(host) == host
  {
    hide Split, Join, Mapped, Expanded, Value;
    DotsInside(host);
  }

  lemma DotsInside(host: string)
    requires |Split(host, '.')| >= 2
    ensures '.' in host && !AllDigits(host) && (HasHexMark(host) && |host| >= 3 ==> !IsDigits(host[2..], 16))
  {
    FirstPiece(host, '.');
    var p := Split(host, '.')[0];
    hide Split;
    assert host[|p|] == (p + ['.'])[|p|] == '.' && DigitValue('.') == 16;
    if HasHexMark(host) {
      assert host[0] != '.' && host[1] != '.';
      assert host[2..][|p| - 2] == '.';
    }
  }

  lemma TwoDigits(p: string, b: nat, c: nat)
    requires 0 < b < 10 && c < 10 && p == [DigitChar(b), DigitChar(c)]
    ensures p == Decimal(10 * b + c)
  {
    hide Decimal, DigitChar;
    Digits3(0, b, c);
  }

  lemma Private172Iff(p: string)
    ensures Private172(p) <==> exists v: nat :: 16 <= v <= 31 && p == Decimal(v)
  {
    if Private172(p) {
      var b, c := p[0] as int - '0' as int, p[1] as int - '0' as int;
      TwoDigits(p, b, c);
      assert 16 <= 10 * b + c <= 31;
    }
    hide Private172, Decimal;
    forall v: nat | 16 <= v <= 31 && p == Decimal(v) ensures Private172(p) {
      Private172Is(v);
    }
  }

  /**
   * Four parts of decimal digits that do not begin in octal, be they above 255 or written with leading
   * zeros, are blocked exactly by the leading parts as they are written.
   */
  lemma FourDecimalsBlockedIff(host: string, p: seq<string>)
    requires p == Split(host, '.') && |p| == 4 && NotOctalStart(p[0])
    requires AllDigits(p[0]) && AllDigits(p[1]) && AllDigits(p[2]) && AllDigits(p[3])
    ensures IsBlockedHost(host) <==>
            || p[0] == "127" || p[0] == "10" || host == "0.0.0.0"
            || (p[0] == "169" && p[1] == "254") || (p[0] == "192" && p[1] == "168")
            || (p[0] == "172" && exists v: nat :: 16 <= v <= 31 && p[1] == Decimal(v))
  {
    hide Split, Normalize, Private172, Decimal, AllDigits;
    StartsWithDigit(host, p[0]);
    ManyPartsKept(host);
    Private172Iff(p[1]);
    LoweredStart(host);
    MetadataQuads(host);
    assert Lowered(host)[0] == host[0];
  }

  lemma StartsWithDigit(host: string, first: string)
    requires |Split(host, '.')| >= 2 && first == Split(host, '.')[0] && AllDigits(first) && NotOctalStart(first)
    ensures host != "" && '0' <= host[0] <= '9' && NotOctalStart(host) && !HasHexMark(host)
  {
    DigitsAreDotless(first);
    FirstPiece(host, '.');
    assert first + ['.'] <= host;
    assert host[0] == first[0] && (|first| >= 2 ==> host[1] == first[1]) && (|first| == 1 ==> host[1] == '.');
  }

  lemma MetadataQuads(host: string)
    ensures host == "169.254.169.254" || host == "169.254.169.253" ==>
              Split(host, '.')[0] == "169" && |Split(host, '.')| >= 2 && Split(host, '.')[1] == "254"
  {
    MetadataSplit("254");
    MetadataSplit("253");
    hide Split;
    assert "169.254.169." + "254" == "169.254.169.254" && "169.254.169." + "253" == "169.254.169.253";
  }

  lemma MetadataSplit(last: string)
    requires '.' !in last
    ensures Split("169.254.169." + last, '.') == ["169", "254", "169", last]
  {
    hide Join, Split;
    SplitJoin(["169", "254", "169", last], '.');
    Join4("169", "254", "169", last);
    assert "169" + "." + "254" + "." + "169" + "." == "169.254.169.";
    assert "169" + "." + "254" + "." + "169" + "." + last == "169.254.169." + last;
  }
}
