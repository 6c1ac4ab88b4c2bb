/** Splitting, joining and number notation on strings. */
module Text {

  // ----- String.prototype.split and join on one separator character

  /** The pieces that end at a separator. */
  function Complete(s: string, sep: char): seq<string> {
    if s == "" then []
    else
      var before, c := s[..|s| - 1], s[|s| - 1];
      if c == sep then Complete(before, sep) + [Rest(before, sep)] else Complete(before, sep)
  }

  /** What follows the last separator. */
  function Rest(s: string, sep: char): string {
    if s == "" then ""
    else
      var before, c := s[..|s| - 1], s[|s| - 1];
      if c == sep then "" else Rest(before, sep) + [c]
  }

  function Split(s: string, sep: char): seq<string> {
    Complete(s, sep) + [Rest(s, sep)]
  }

  function Join(pieces: seq<string>, sep: char): string {
    if pieces == [] then ""
    else if |pieces| == 1 then pieces[0]
    else Join(pieces[..|pieces| - 1], sep) + [sep] + pieces[|pieces| - 1]
  }

  lemma {:induction false} SplitNone(s: string, sep: char)
    requires sep !in s
    ensures Complete(s, sep) == [] && Rest(s, sep) == s
  {
    if s == "" {
    } else {
      SplitNone(s[..|s| - 1], sep);
    }
  }

  lemma {:induction false} RestHasNone(s: string, sep: char)
    ensures sep !in Rest(s, sep)
  {
    if s == "" {
    } else {
      RestHasNone(s[..|s| - 1], sep);
    }
  }

  lemma SplitSnoc(s: string, c: char, sep: char)
    ensures c == sep ==> Complete(s + [c], sep) == Complete(s, sep) + [Rest(s, sep)] && Rest(s + [c], sep) == ""
    ensures c != sep ==> Complete(s + [c], sep) == Complete(s, sep) && Rest(s + [c], sep) == Rest(s, sep) + [c]
  {
    assert (s + [c])[..|s|] == s;
  }

  /** Text that arrives later only ever extends the last piece and what follows it. */
  lemma {:induction false} SplitConcat(a: string, b: string, sep: char)
    ensures Complete(a + b, sep) == Complete(a, sep) + Complete(Rest(a, sep) + b, sep)
    ensures Rest(a + b, sep) == Rest(Rest(a, sep) + b, sep)
  {
    hide Complete, Rest;
    var r := Rest(a, sep);
    if b == "" {
      assert a + b == a && r + b == r;
      RestHasNone(a, sep);
      SplitNone(r, sep);
    } else {
      var b', c := b[..|b| - 1], b[|b| - 1];
      SplitConcat(a, b', sep);
      assert a + b == (a + b') + [c] && r + b == (r + b') + [c];
      SplitSnoc(a + b', c, sep);
      SplitSnoc(r + b', c, sep);
    }
  }

  lemma {:induction false} SplitJoin(pieces: seq<string>, sep: char)
    requires pieces != [] && forall i | 0 <= i < |pieces| :: sep !in pieces[i]
    ensures Split(Join(pieces, sep), sep) == pieces
  {
    var init, last := pieces[..|pieces| - 1], pieces[|pieces| - 1];
    SplitNone(last, sep);
    if |pieces| == 1 {
      assert pieces == [last];
    } else {
      SplitJoin(init, sep);
      SplitJoinTwo(Join(init, sep), last, sep);
      assert Join(pieces, sep) == Join(init, sep) + [sep] + last;
      assert pieces == init + [last];
    }
  }

  lemma SplitJoinTwo(s: string, last: string, sep: char)
    requires sep !in last
    ensures Split(s + [sep] + last, sep) == Split(s, sep) + [last]
  {
    hide Complete, Rest;
    SplitNone(last, sep);
    SplitSnoc(s, sep, sep);
    SplitConcat(s + [sep], last, sep);
    assert "" + last == last;
  }

  // ----- Numbers in a base from 2 to 16

  function DigitChar(d: nat): char
    requires d < 16
  {
    "0123456789abcdef"[d]
  }

  function Lower(c: char): char {
    if 'A' <= c <= 'Z' then (c as int - 'A' as int + 'a' as int) as char else c
  }

  /** The value of a digit character; 16 for any other character. */
  function DigitValue(c: char): nat {
    var l := Lower(c);
    if '0' <= l <= '9' then l as int - '0' as int
    else if 'a' <= l <= 'f' then l as int - 'a' as int + 10
    else 16
  }

  predicate IsDigits(s: string, base: nat) {
    forall i | 0 <= i < |s| :: DigitValue(s[i]) < base
  }

  function Value(s: string, base: nat): nat {
    if s == "" then 0 else Value(s[..|s| - 1], base) * base + DigitValue(s[|s| - 1])
  }

  function Decimal(n: nat): (s: string)
    ensures s != ""
  {
    if n < 10 then [DigitChar(n)] else Decimal(n / 10) + [DigitChar(n % 10)]
  }

  lemma DigitRoundTrip(d: nat)
    requires d < 16
    ensures DigitValue(DigitChar(d)) == d
  {
  }

  lemma DigitsSnoc(s: string, d: nat, base: nat)
    requires d < base <= 16 && IsDigits(s, base)
    ensures IsDigits(s + [DigitChar(d)], base) && Value(s + [DigitChar(d)], base) == Value(s, base) * base + d
  {
    DigitRoundTrip(d);
    assert (s + [DigitChar(d)])[..|s|] == s;
  }

  lemma {:induction false} DecimalValue(n: nat)
    ensures IsDigits(Decimal(n), 10) && Value(Decimal(n), 10) == n
  {
    var q, r := n / 10, n % 10;
    if n < 10 {
      DigitsSnoc("", n, 10);
      assert "" + [DigitChar(n)] == [DigitChar(n)];
    } else {
      DecimalValue(q);
      DigitsSnoc(Decimal(q), r, 10);
    }
  }
}
