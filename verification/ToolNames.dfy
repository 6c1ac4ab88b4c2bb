/** The mcp__server__tool name grammar (src/utils/utils.ts). */
module ToolNames {
  import opened Wrappers

  const MARK := "__"
  const SCHEME := "mcp__"

  datatype Error = InvalidFormat

  /** [a-zA-Z0-9_-] */
  predicate IsNameChar(c: char) {
    'a' <= c <= 'z' || 'A' <= c <= 'Z' || '0' <= c <= '9' || c == '_' || c == '-'
  }

  predicate MarkAt(s: string, i: nat) {
    i + 1 < |s| && s[i] == '_' && s[i + 1] == '_'
  }

  /** (?:(?!__)[a-zA-Z0-9_-])+ matched from `from` to `to`; the lookahead sees the text beyond the match. */
  ghost predicate MatchesPart(s: string, from: nat, to: nat)
    requires to <= |s|
  {
    from < to && forall i | from <= i < to :: IsNameChar(s[i]) && !MarkAt(s, i)
  }

  /** The regular expression: some way to match both groups, with whatever backtracking it takes. */
  ghost predicate MatchesPattern(name: string) {
    && SCHEME <= name
    && exists j: nat :: GroupsSplitAt(name, j)
  }

  ghost predicate GroupsSplitAt(name: string, j: nat) {
    && |SCHEME| <= j && j + 2 <= |name| && MarkAt(name, j)
    && MatchesPart(name, |SCHEME|, j) && MatchesPart(name, j + 2, |name|)
  }

  /** String.prototype.split('__'): cuts at each mark, scanning from the left. */
  function SplitOnMark(s: string): (parts: seq<string>)
    ensures parts != []
    decreases |s|
  {
    if s == "" then [""]
    else if MarkAt(s, 0) then [""] + SplitOnMark(s[2..])
    else
      var rest := SplitOnMark(s[1..]);
      [[s[0]] + rest[0]] + rest[1..]
  }

  function ExtractServerName(name: string): Result<string, Error> {
    var parts := SplitOnMark(name);
    if |parts| != 3 || parts[1] == "" then Failure(InvalidFormat) else Success(parts[1])
  }

  predicate IsPart(s: string) {
    s != "" && forall i | 0 <= i < |s| :: IsNameChar(s[i])
  }

  /** Where the leftmost mark is; the length if there is none. */
  function FirstMark(s: string): (i: nat)
    ensures i <= |s| && (i < |s| ==> MarkAt(s, i)) && forall k | 0 <= k < i :: !MarkAt(s, k)
  {
    if s == "" || MarkAt(s, 0) then 0
    else
      var i := FirstMark(s[1..]);
      assert forall k | 0 < k < i + 1 :: MarkAt(s, k) == MarkAt(s[1..], k - 1);
      i + 1
  }

  lemma {:induction false} SplitAtFirstMark(s: string)
    ensures
      var i := FirstMark(s);
      SplitOnMark(s) == if i == |s| then [s] else [s[..i]] + SplitOnMark(s[i + 2..])
  {
    if s != "" && !MarkAt(s, 0) {
      SplitAtFirstMark(s[1..]);
      var i := FirstMark(s[1..]);
      assert s == [s[0]] + s[1..];
      if i < |s[1..]| {
        assert s[..i + 1] == [s[0]] + s[1..][..i];
        assert s[1..][i + 2..] == s[i + 3..];
      }
    }
  }

  lemma FirstMarkIs(s: string, j: nat)
    requires j <= |s| && (j < |s| ==> MarkAt(s, j)) && forall k | 0 <= k < j :: !MarkAt(s, k)
    ensures FirstMark(s) == j
  {
  }

  /** The name starts with the scheme exactly when the first piece is "mcp". */
  lemma SchemeIsFirstPiece(name: string)
    ensures SCHEME <= name ==> SplitOnMark(name) == ["mcp"] + SplitOnMark(name[|SCHEME|..])
    ensures |SplitOnMark(name)| >= 2 && SplitOnMark(name)[0] == "mcp" ==> SCHEME <= name
  {
    SplitAtFirstMark(name);
    if SCHEME <= name {
      assert name[..|SCHEME|] == SCHEME;
      assert name[0] == 'm' && name[1] == 'c' && name[2] == 'p' && name[3] == '_' && name[4] == '_';
      FirstMarkIs(name, 3);
      assert name[..3] == "mcp";
    }
    var i := FirstMark(name);
    if i < |name| && name[..i] == "mcp" {
      assert name[..5] == name[..3] + [name[3], name[4]];
    }
  }

  /** Marks and characters after the first `n` characters. */
  lemma Shifted(s: string, n: nat)
    requires n <= |s|
    ensures forall k: nat | k < |s| - n :: s[n..][k] == s[k + n] && (MarkAt(s[n..], k) <==> MarkAt(s, k + n))
  {
  }

  /** The two groups can only be separated by the leftmost mark after the scheme. */
  lemma SeparatedByFirstMark(name: string, j: nat)
    requires SCHEME <= name && GroupsSplitAt(name, j)
    ensures j == |SCHEME| + FirstMark(name[|SCHEME|..])
  {
    var rest := name[|SCHEME|..];
    Shifted(name, |SCHEME|);
    assert MarkAt(rest, j - |SCHEME|);
    forall k: nat | k < j - |SCHEME| ensures !MarkAt(rest, k) {
      assert !MarkAt(name, k + |SCHEME|);
    }
    FirstMarkIs(rest, j - |SCHEME|);
  }

  lemma PartIsNamePart(s: string, from: nat, to: nat)
    requires from <= to <= |s|
    requires forall i | from <= i < to :: !MarkAt(s, i)
    ensures MatchesPart(s, from, to) <==> IsPart(s[from..to])
  {
    if IsPart(s[from..to]) {
      forall i | from <= i < to ensures IsNameChar(s[i]) {
        assert s[from..to][i - from] == s[i];
      }
    }
  }

  lemma SecondPart(s: string, from: nat)
    requires from <= |s|
    ensures MatchesPart(s, from, |s|) <==> FirstMark(s[from..]) == |s| - from && IsPart(s[from..])
  {
    Shifted(s, from);
    if MatchesPart(s, from, |s|) {
      forall k: nat | k < |s| - from ensures !MarkAt(s[from..], k) {
        assert !MarkAt(s, k + from);
      }
      FirstMarkIs(s[from..], |s| - from);
      PartIsNamePart(s, from, |s|);
    } else if FirstMark(s[from..]) == |s| - from {
      forall i | from <= i < |s| ensures !MarkAt(s, i) {
        assert !MarkAt(s[from..], i - from);
      }
      PartIsNamePart(s, from, |s|);
    }
    assert s[from..|s|] == s[from..];
  }

  lemma GroupsAreParts(name: string, i: nat)
    requires SCHEME <= name && i == FirstMark(name[|SCHEME|..]) < |name| - |SCHEME|
    ensures
      var rest := name[|SCHEME|..];
      MatchesPattern(name) <==>
      FirstMark(rest[i + 2..]) == |rest| - i - 2 && IsPart(rest[..i]) && IsPart(rest[i + 2..])
  {
    var rest, j := name[|SCHEME|..], i + |SCHEME|;
    Shifted(name, |SCHEME|);
    forall k | |SCHEME| <= k < j ensures !MarkAt(name, k) {
      assert !MarkAt(rest, k - |SCHEME|);
    }
    PartIsNamePart(name, |SCHEME|, j);
    SecondPart(name, j + 2);
    assert name[|SCHEME|..j] == rest[..i] && name[j + 2..] == rest[i + 2..];
    assert MarkAt(name, j);
    assert GroupsSplitAt(name, j) <==> MatchesPart(name, |SCHEME|, j) && MatchesPart(name, j + 2, |name|);
    forall j': nat | GroupsSplitAt(name, j') ensures j' == j {
      SeparatedByFirstMark(name, j');
    }
  }

  /**
   * The grammar: a name matches the regular expression exactly when cutting it at "__" from the left
   * gives "mcp" and two non-empty pieces over the alphabet; and then the server is the middle piece.
   */
  lemma GrammarIsSplit(name: string)
    ensures
      var parts := SplitOnMark(name);
      MatchesPattern(name) <==> |parts| == 3 && parts[0] == "mcp" && IsPart(parts[1]) && IsPart(parts[2])
    ensures MatchesPattern(name) ==> ExtractServerName(name) == Success(SplitOnMark(name)[1])
  {
    SchemeIsFirstPiece(name);
    if SCHEME <= name {
      var rest := name[|SCHEME|..];
      var i := FirstMark(rest);
      SplitAtFirstMark(rest);
      forall j: nat | GroupsSplitAt(name, j) ensures i < |rest| {
        SeparatedByFirstMark(name, j);
      }
      if i < |rest| {
        GroupsAreParts(name, i);
        SplitAtFirstMark(rest[i + 2..]);
      }
    }
  }

  /** The alphabet by character codes: 0-9, A-Z, a-z, the hyphen and the underscore of ASCII. */
  lemma NameAlphabet(c: char)
    ensures
      var n := c as int;
      IsNameChar(c) <==> 48 <= n <= 57 || 65 <= n <= 90 || 97 <= n <= 122 || n == 45 || n == 95
  {
  }

  function Print(server: string, tool: string): string {
    SCHEME + server + MARK + tool
  }

  /** A server name without marks. */
  predicate Markless(s: string) {
    FirstMark(s) == |s|
  }

  /** In "server__tool" the leftmost mark is the written one, unless the server ends in an underscore. */
  lemma WrittenMark(server: string, tool: string)
    requires server != "" && Markless(server)
    ensures FirstMark(server + MARK + tool) == if server[|server| - 1] == '_' then |server| - 1 else |server|
  {
    var rest := server + MARK + tool;
    forall k: nat | k + 1 < |server| ensures !MarkAt(rest, k) {
      assert !MarkAt(server, k);
    }
    FirstMarkIs(rest, if server[|server| - 1] == '_' then |server| - 1 else |server|);
  }

  /** What extractServerName sees of a printed name: the scheme, then the pieces of what follows it. */
  lemma PrintedPieces(server: string, tool: string)
    ensures
      var rest := server + MARK + tool;
      var i := FirstMark(rest);
      i < |rest| && SplitOnMark(Print(server, tool)) == ["mcp", rest[..i]] + SplitOnMark(rest[i + 2..])
  {
    hide SplitOnMark, FirstMark;
    var name, rest := Print(server, tool), server + MARK + tool;
    assert name == SCHEME + rest;
    AfterScheme(rest);
    HasMark(server, tool);
    SchemeIsFirstPiece(name);
    SplitAtFirstMark(rest);
  }

  lemma AfterScheme(rest: string)
    ensures SCHEME <= SCHEME + rest && (SCHEME + rest)[|SCHEME|..] == rest
  {
  }

  lemma HasMark(server: string, tool: string)
    ensures FirstMark(server + MARK + tool) < |server + MARK + tool|
  {
    hide FirstMark;
    assert MarkAt(server + MARK + tool, |server|);
  }

  /** The leftmost mark is the written one exactly when nothing before it ends or holds a mark. */
  lemma WrittenMarkIff(server: string, tool: string)
    requires server != ""
    ensures FirstMark(server + MARK + tool) == |server| <==> Markless(server) && server[|server| - 1] != '_'
  {
    var rest := server + MARK + tool;
    if Markless(server) {
      WrittenMark(server, tool);
    } else {
      assert MarkAt(rest, FirstMark(server));
    }
  }

  /**
   * Round trip, on all strings: the server of a printed name is read back exactly when server and tool
   * hold no mark, and the server is not empty and does not end in an underscore.
   */
  lemma ExtractedIff(server: string, tool: string)
    ensures ExtractServerName(Print(server, tool)) == Success(server) <==>
            server != "" && Markless(server) && server[|server| - 1] != '_' && Markless(tool)
  {
    hide FirstMark, SplitOnMark;
    var rest := server + MARK + tool;
    var i := FirstMark(rest);
    PrintedPieces(server, tool);
    if server != "" {
      WrittenMarkIff(server, tool);
      if i == |server| {
        assert rest[..i] == server && rest[i + 2..] == tool;
        PiecesOfMarkless(tool);
      } else {
        assert |rest[..i]| != |server|;
      }
    }
  }

  lemma PiecesOfMarkless(s: string)
    ensures |SplitOnMark(s)| == 1 <==> Markless(s)
  {
    SplitAtFirstMark(s);
  }

  /** Free of marks, and no mark begins at its end when one follows. */
  predicate EndsBeforeMark(s: string) {
    Markless(s) && (s == "" || s[|s| - 1] != '_')
  }

  lemma MarkAfterPiece(s: string, rest: string)
    ensures FirstMark(s + MARK + rest) == |s| <==> EndsBeforeMark(s)
  {
    if s == "" {
      FirstMarkIs(s + MARK + rest, 0);
    } else {
      WrittenMarkIff(s, rest);
    }
  }

  lemma PiecesAfterMark(s: string, rest: string)
    requires EndsBeforeMark(s)
    ensures SplitOnMark(s + MARK + rest) == [s] + SplitOnMark(rest)
  {
    hide SplitOnMark;
    var whole := s + MARK + rest;
    MarkAfterPiece(s, rest);
    SplitAtFirstMark(whole);
    assert whole[..|s|] == s && whole[|s| + 2..] == rest;
  }

  /** The name is three pieces, the second of them `server`, joined by marks that are the only ones. */
  ghost predicate ThreePieces(name: string, first: string, server: string, last: string) {
    name == first + MARK + server + MARK + last && EndsBeforeMark(first) && EndsBeforeMark(server) && Markless(last)
  }

  /**
   * What is extracted from any name whatever: a server exactly when the name is three pieces with that
   * server, not empty, in the middle; the first piece is not looked at. Every other name is refused.
   */
  lemma ExtractsMiddle(name: string, server: string)
    ensures ExtractServerName(name) == Success(server) <==>
            server != "" && exists first, last :: ThreePieces(name, first, server, last)
  {
    hide SplitOnMark, FirstMark;
    forall first, last | ThreePieces(name, first, server, last) ensures SplitOnMark(name) == [first, server, last] {
      assert first + MARK + server + MARK + last == first + MARK + (server + MARK + last);
      PiecesAfterMark(first, server + MARK + last);
      PiecesAfterMark(server, last);
      PiecesOfMarkless(last);
      SplitAtFirstMark(last);
    }
    if ExtractServerName(name) == Success(server) {
      ThreePiecesOf(name);
      var p := SplitOnMark(name);
      assert ThreePieces(name, p[0], server, p[2]);
    }
  }

  lemma CutAtMark(s: string, i: nat)
    requires MarkAt(s, i)
    ensures s == s[..i] + MARK + s[i + 2..]
  {
  }

  lemma TakeOne(s: string)
    requires |SplitOnMark(s)| >= 2
    ensures
      var p, i := SplitOnMark(s), FirstMark(s);
      i + 2 <= |s| && s == p[0] + MARK + s[i + 2..] && EndsBeforeMark(p[0]) && p == [p[0]] + SplitOnMark(s[i + 2..])
  {
    hide SplitOnMark, FirstMark, EndsBeforeMark;
    SplitAtFirstMark(s);
    var i := FirstMark(s);
    CutAtMark(s, i);
    MarkAfterPiece(s[..i], s[i + 2..]);
  }

  lemma LastPiece(s: string)
    requires |SplitOnMark(s)| == 1
    ensures SplitOnMark(s) == [s] && Markless(s)
  {
    PiecesOfMarkless(s);
    SplitAtFirstMark(s);
  }

  lemma ThreePiecesOf(name: string)
    requires |SplitOnMark(name)| == 3
    ensures var p := SplitOnMark(name); ThreePieces(name, p[0], p[1], p[2])
  {
    hide SplitOnMark, FirstMark, Markless, EndsBeforeMark;
    TakeOne(name);
    var p, rest := SplitOnMark(name), name[FirstMark(name) + 2..];
    TwoPiecesOf(rest);
    assert SplitOnMark(rest) == [p[1], p[2]];
    assert p[0] + MARK + (p[1] + MARK + p[2]) == p[0] + MARK + p[1] + MARK + p[2];
  }

  lemma TwoPiecesOf(rest: string)
    requires |SplitOnMark(rest)| == 2
    ensures var p := SplitOnMark(rest); rest == p[0] + MARK + p[1] && EndsBeforeMark(p[0]) && Markless(p[1])
  {
    hide SplitOnMark, FirstMark, Markless, EndsBeforeMark;
    TakeOne(rest);
    var last := rest[FirstMark(rest) + 2..];
    LastPiece(last);
  }

  /** Splitting a printed name gives both names back exactly when no mark is in them or across the written one. */
  lemma PrintedServer(server: string, tool: string)
    ensures SplitOnMark(Print(server, tool)) == ["mcp", server, tool] <==>
            Markless(server) && Markless(tool) && (server == "" || server[|server| - 1] != '_')
  {
    hide SplitOnMark;
    var rest := server + MARK + tool;
    var i := FirstMark(rest);
    PrintedPieces(server, tool);
    if server == "" {
      FirstMarkIs(rest, 0);
    } else {
      WrittenMarkIff(server, tool);
    }
    hide FirstMark;
    PiecesOfMarkless(tool);
    SplitAtFirstMark(tool);
    if i == |server| {
      assert rest[..i] == server && rest[i + 2..] == tool;
    } else {
      assert SplitOnMark(Print(server, tool))[1] == rest[..i] && |rest[..i]| != |server|;
    }
  }

  /** Printing is injective on servers without marks that do not end in an underscore. */
  lemma PrintInjective(server: string, tool: string, server': string, tool': string)
    requires server != "" && Markless(server) && server[|server| - 1] != '_'
    requires server' != "" && Markless(server') && server'[|server'| - 1] != '_'
    requires Print(server, tool) == Print(server', tool')
    ensures server == server' && tool == tool'
  {
    var rest, rest' := server + MARK + tool, server' + MARK + tool';
    assert rest == Print(server, tool)[|SCHEME|..] && rest' == Print(server', tool')[|SCHEME|..];
    WrittenMark(server, tool);
    WrittenMark(server', tool');
    assert server == rest[..|server|] && server' == rest'[..|server'|];
    assert tool == rest[|server| + 2..] && tool' == rest'[|server'| + 2..];
  }
}
