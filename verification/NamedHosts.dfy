/** Hosts that are names, not addresses (src/validation/network-security.ts): which of them are blocked. */
module NamedHosts {
  import opened Wrappers
  import opened Text
  import opened NetworkSecurity
  import opened MixedSpellings

  predicate IsLetter(c: char) {
    'a' <= Lower(c) <= 'z'
  }

  predicate StartsWithLetter(s: string) {
    s != "" && IsLetter(s[0])
  }

  /** What follows the last dot: in a domain name, the top-level domain. */
  function LastLabel(host: string): string {
    Rest(host, '.')
  }

  lemma LetterIsNoDigit(p: string)
    requires StartsWithLetter(p)
    ensures !AllDigits(p) && !HasHexMark(p) && p[0] != '0'
    ensures FromOctal(p) == p && FromHex(p) == p
  {
    assert DigitValue(p[0]) >= 10;
  }

  lemma LettersApart()
    ensures !StartsWithLetter("0") && !StartsWithLetter("10") && !StartsWithLetter("127") && !StartsWithLetter("169")
    ensures !StartsWithLetter("172") && !StartsWithLetter("192")
  {
  }

  /** A host that starts with a letter is left alone. */
  lemma LetterFirst(host: string)
    requires StartsWithLetter(host)
    ensures Normalize(host) == host && StartsWithLetter(Split(host, '.')[0])
  {
    hide Split, Value, Join, Mapped, Expanded;
    LetterIsNoDigit(host);
    FirstPiece(host, '.');
    SplitNonEmpty(host);
    assert DigitValue('.') == 16 && Split(host, '.')[0] != "" by {
      FirstPieceNonEmpty(host);
    }
    assert Split(host, '.')[0][0] == host[0];
    LetterIsNoDigit(Split(host, '.')[0]);
  }

  lemma SplitNonEmpty(host: string)
    ensures |Split(host, '.')| >= 1 && Split(host, '.')[|Split(host, '.')| - 1] == LastLabel(host)
  {
  }

  lemma FirstPieceNonEmpty(host: string)
    requires host != "" && host[0] != '.'
    ensures Split(host, '.')[0] != "" && Split(host, '.')[0][0] == host[0]
  {
    FirstPiece(host, '.');
  }

  /** None of the blocked names starts like this. */
  predicate StartsLikeNoName(s: string) {
    s != "" && Lower(s[0]) !in {'l', 'm', 'i'}
  }

  /** In a host whose last label starts with a letter, that label survives the normalisation. */
  lemma LabelKept(host: string)
    requires StartsWithLetter(LastLabel(host)) && !StartsWithLetter(host)
    ensures StartsWithLetter(LastLabel(Normalize(host))) && StartsLikeNoName(Normalize(host))
  {
    hide Split, Value, Join, Mapped, Expanded, Rest, FromOctal, FromHex;
    var parts := Split(host, '.');
    SplitNonEmpty(host);
    Several(host);
    LetterIsNoDigit(LastLabel(host));
    if host != "" && host[0] == '0' {
      MappedLabels(host, FromOctal);
      MappedLabels(host, FromHex);
    }
  }

  lemma Several(host: string)
    requires StartsWithLetter(LastLabel(host)) && !StartsWithLetter(host)
    ensures |Split(host, '.')| >= 2 && '.' in host && host != "" && !AllDigits(host)
    ensures HasHexMark(host) ==> !IsDigits(host[2..], 16)
  {
    FirstPiece(host, '.');
    SplitNonEmpty(host);
    JoinSplit(host, '.');
    if '.' !in host {
      SplitNone(host, '.');
    }
    var i :| 0 <= i < |host| && host[i] == '.';
    assert DigitValue(host[i]) == 16;
    if HasHexMark(host) {
      assert i >= 2 && host[2..][i - 2] == '.';
    }
    SeparatorSplits(host);
  }

  lemma {:induction false} SeparatorSplits(s: string)
    ensures '.' in s ==> |Split(s, '.')| >= 2
  {
    if s == "" {
    } else {
      var before, c := s[..|s| - 1], s[|s| - 1];
      assert s == before + [c];
      SeparatorSplits(before);
    }
  }

  lemma {:induction false} PiecesDotless(s: string)
    ensures forall i | 0 <= i < |Complete(s, '.')| :: '.' !in Complete(s, '.')[i]
    ensures '.' !in Rest(s, '.')
  {
    RestHasNone(s, '.');
    if s == "" {
    } else {
      PiecesDotless(s[..|s| - 1]);
    }
  }

  lemma OctetDotless(p: string)
    requires '.' !in p
    ensures '.' !in FromOctal(p) && '.' !in FromHex(p)
  {
    ReprintedDotless(p, 8);
    ReprintedDotless(p, 16);
  }

  lemma ReprintedDotless(p: string, base: nat)
    ensures '.' !in Reprinted(p, base)
  {
    match ParseInt(p, base) {
      case None =>
      case Some(n) => DecimalShape(if n < 0 then -n else n);
    }
  }

  /** Rewriting the pieces of a host that starts with zero changes neither the last label nor how it starts. */
  lemma MappedLabels(host: string, f: string -> string)
    requires StartsWithLetter(LastLabel(host)) && host != "" && host[0] == '0' && |Split(host, '.')| >= 2
    requires f == FromOctal || f == FromHex
    ensures
      var h := Join(Mapped(Split(host, '.'), f), '.');
      StartsWithLetter(LastLabel(h)) && StartsLikeNoName(h)
  {
    hide Split, Join, Mapped, FromOctal, FromHex;
    var parts := Split(host, '.');
    var q := Mapped(parts, f);
    MappedEach(parts, f);
    PiecesDotless(host);
    SplitPieces(host);
    forall i | 0 <= i < |q| ensures '.' !in q[i] {
      OctetDotless(parts[i]);
    }
    SplitJoin(q, '.');
    SplitNonEmpty(host);
    SplitNonEmpty(Join(q, '.'));
    LetterIsNoDigit(LastLabel(host));
    FirstPieceNonEmpty(host);
    ZeroStarts(parts[0]);
    FirstPiece(Join(q, '.'), '.');
  }

  lemma SplitPieces(host: string)
    ensures forall i | 0 <= i < |Split(host, '.')| ::
              Split(host, '.')[i] in Complete(host, '.') || Split(host, '.')[i] == Rest(host, '.')
  {
  }

  lemma ZeroStarts(p: string)
    requires p != "" && p[0] == '0'
    ensures StartsLikeNoName(FromOctal(p)) && StartsLikeNoName(FromHex(p))
  {
    ReprintedStart(p, 8);
    ReprintedStart(p, 16);
  }

  lemma ReprintedStart(p: string, base: nat)
    ensures StartsLikeNoName(Reprinted(p, base))
  {
    match ParseInt(p, base) {
      case None =>
      case Some(n) => DecimalShape(if n < 0 then -n else n);
    }
  }

  // ----- Main result

  /** No address pattern fits a host with a label that is no number where the pattern has one. */
  lemma NoAddress(h: string)
    requires h != "" && (StartsWithLetter(Split(h, '.')[0]) || StartsWithLetter(LastLabel(h)))
    ensures !MatchesPrivate(Split(h, '.')) && !MatchesLinkLocal(Split(h, '.'))
    ensures MatchesLocalhost(h, Split(h, '.')) || MatchesMetadata(h) <==>
            Lowered(h) in {"localhost", "metadata.google.internal", "instance-data.ec2.internal"}
  {
    hide Split, Join, Lowered, Private172, Rest;
    var p := Split(h, '.');
    SplitNonEmpty(h);
    if StartsWithLetter(p[0]) {
      LetterIsNoDigit(p[0]);
      LettersApart();
    } else {
      LetterIsNoDigit(LastLabel(h));
    }
    LiteralHosts();
    ServiceDigits();
  }

  lemma NoName(h: string)
    requires StartsLikeNoName(h)
    ensures Lowered(h) !in {"localhost", "metadata.google.internal", "instance-data.ec2.internal"}
  {
    LoweredStart(h);
  }

  /**
   * Names: a host that starts with a letter, or whose last label does, is blocked exactly when, ignoring
   * case, it is one of the three names of the list. No ordinary domain is blocked, and no listed name passes.
   */
  lemma NamedHostBlockedIff(host: string)
    requires StartsWithLetter(host) || StartsWithLetter(LastLabel(host))
    ensures IsBlockedHost(host) <==>
            Lowered(host) in {"localhost", "metadata.google.internal", "instance-data.ec2.internal"}
  {
    hide Split, Lowered, Normalize, MatchesLocalhost, MatchesPrivate, MatchesMetadata, MatchesLinkLocal, Rest;
    if StartsWithLetter(host) {
      LetterFirst(host);
      NoAddress(host);
    } else {
      Several(host);
      LabelKept(host);
      NoAddress(Normalize(host));
      NoName(Normalize(host));
      NoName(host);
    }
  }

  /** Lowering looks at each character for itself. */
  lemma {:induction false} LoweredEach(s: string)
    ensures |Lowered(s)| == |s| && forall i | 0 <= i < |s| :: Lowered(s)[i] == Lower(s[i])
  {
    if s == "" {
    } else {
      LoweredEach(s[..|s| - 1]);
    }
  }

  lemma NamesAreBlocked()
    ensures IsBlockedHost("localhost") && IsBlockedHost("LocalHost")
    ensures IsBlockedHost("metadata.google.internal") && IsBlockedHost("instance-data.ec2.internal")
    ensures !IsBlockedHost("api.github.com")
  {
    hide IsBlockedHost, Lowered;
    LoweredEach("localhost");
    LoweredEach("LocalHost");
    LoweredEach("metadata.google.internal");
    LoweredEach("instance-data.ec2.internal");
    LoweredEach("api.github.com");
    assert Lowered("localhost") == "localhost" && Lowered("LocalHost") == "localhost";
    assert Lowered("metadata.google.internal") == "metadata.google.internal";
    assert Lowered("instance-data.ec2.internal") == "instance-data.ec2.internal";
    NamedHostBlockedIff("localhost");
    NamedHostBlockedIff("LocalHost");
    NamedHostBlockedIff("metadata.google.internal");
    NamedHostBlockedIff("instance-data.ec2.internal");
    NamedHostBlockedIff("api.github.com");
  }
}
