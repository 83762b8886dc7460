/** The guard that keeps schema statements out of data migrations: leading blanks and comments are
    stripped and the first token is compared with the schema-changing keywords. */
module Trivia {
  import opened Common
  import opened Text

  predicate HasPrefix(s: string, p: string) {
    |p| <= |s| && s[..|p|] == p
  }

  /** The first occurrence of `mark` at or behind `from`. */
  function Find(s: string, mark: string, from: nat): (r: Option<nat>)
    requires from <= |s|
    ensures r.Some? ==> from <= r.value <= |s| && HasPrefix(s[r.value..], mark)
    ensures forall i :: from <= i < (if r.Some? then r.value else |s| + 1) ==> !HasPrefix(s[i..], mark)
    decreases |s| - from
  {
    if HasPrefix(s[from..], mark) then Some(from) else if from == |s| then None else Find(s, mark, from + 1)
  }

  /** What follows the first occurrence of `mark`, or nothing. */
  function After(s: string, mark: string): (r: string)
    ensures |r| <= |s|
  {
    var k := Find(s, mark, 0);
    if k.Some? then s[k.value + |mark|..] else ""
  }

  predicate Opens(s: string) {
    HasPrefix(s, "--") || HasPrefix(s, "/*")
  }

  /** The text behind the comment `s` opens. */
  function Behind(s: string): (r: string)
    requires Opens(s)
    ensures |r| < |s|
  {
    if HasPrefix(s, "--") then After(s[2..], "\n") else After(s[2..], "*/")
  }

  function Strip(s: string): (r: string)
    ensures |r| <= |s| && !Opens(r) && (r != "" ==> !IsWhitespace(r[0]))
    decreases |s|
  {
    var rest := TrimStart(s);
    if Opens(rest) then Strip(Behind(rest)) else rest
  }

  lemma OpenerIsSolid(s: string)
    requires Opens(s)
    ensures s != "" && (s[0] == '-' || s[0] == '/')
  {
    assert s[0] == s[..2][0];
  }

  lemma StripComment(s: string)
    requires Opens(s)
    ensures Strip(s) == Strip(Behind(s))
  {
    OpenerIsSolid(s);
    SolidStays(s);
  }

  /** `strip_leading_trivia`: each round shortens what is left. */
  method StripLeadingTrivia(sql: string) returns (rest: string)
    ensures rest == Strip(sql)
  {
    rest := TrimStart(sql);
    while Opens(rest)
      invariant TrimStart(rest) == rest && Strip(rest) == Strip(sql)
      decreases |rest|
    {
      ghost var before := rest;
      if HasPrefix(rest, "--") {
        rest := After(rest[2..], "\n");
      } else {
        rest := After(rest[2..], "*/");
      }
      assert rest == Behind(before);
      TrimTwice(rest);
      rest := TrimStart(rest);
    }
  }

  lemma TrimTwice(s: string)
    ensures TrimStart(TrimStart(s)) == TrimStart(s) && Strip(TrimStart(s)) == Strip(s)
  {
    SolidStays(TrimStart(s));
  }

  /** Nothing is left to strip from a stripped text. */
  lemma StripTwice(s: string)
    ensures Strip(Strip(s)) == Strip(s)
  {
    SolidStays(Strip(s));
  }

  // ---------------------------------------------------------------- what trivia is

  datatype Piece = Space(blank: string) | Line(body: string) | Block(body: string)

  /** A line comment ends at its first newline, a block comment at its first end mark. */
  predicate WfPiece(p: Piece) {
    match p
    case Space(blank) => Blank(blank)
    case Line(body) => '\n' !in body
    case Block(body) => forall k :: 0 <= k < |body| ==> !HasPrefix((body + "*/")[k..], "*/")
  }

  function PieceText(p: Piece): string {
    match p
    case Space(blank) => blank
    case Line(body) => "--" + body + "\n"
    case Block(body) => "/*" + body + "*/"
  }

  predicate WfPieces(ps: seq<Piece>) {
    forall i :: 0 <= i < |ps| ==> WfPiece(ps[i])
  }

  function TriviaText(ps: seq<Piece>): string {
    if ps == [] then "" else PieceText(ps[0]) + TriviaText(ps[1..])
  }

  lemma AfterMark(body: string, mark: string, s: string)
    requires mark != "" && forall i :: 0 <= i < |body| ==> !HasPrefix((body + mark + s)[i..], mark)
    ensures After(body + mark + s, mark) == s
  {
    var t := body + mark + s;
    assert t[|body|..] == mark + s;
    assert (mark + s)[..|mark|] == mark;
    assert Find(t, mark, 0) == Some(|body|);
  }

  lemma LineStripped(body: string, s: string)
    requires WfPiece(Line(body))
    ensures Strip("--" + body + "\n" + s) == Strip(s)
  {
    var t, u := "--" + body + "\n" + s, body + "\n" + s;
    assert t == "--" + u && t[..2] == "--" && t[2..] == u;
    forall i | 0 <= i < |body| ensures !HasPrefix(u[i..], "\n") {
      assert u[i..][..1] == [body[i]];
    }
    AfterMark(body, "\n", s);
    StripComment(t);
  }

  lemma BlockStripped(body: string, s: string)
    requires WfPiece(Block(body))
    ensures Strip("/*" + body + "*/" + s) == Strip(s)
  {
    var t, u := "/*" + body + "*/" + s, body + "*/" + s;
    assert t == "/*" + u && t[..2] == "/*" && t[2..] == u;
    forall i | 0 <= i < |body| ensures !HasPrefix(u[i..], "*/") {
      assert u[i..][..2] == (body + "*/")[i..][..2];
    }
    AfterMark(body, "*/", s);
    assert !HasPrefix(t, "--");
    StripComment(t);
  }

  lemma PieceStripped(p: Piece, s: string)
    requires WfPiece(p)
    ensures Strip(PieceText(p) + s) == Strip(s)
  {
    match p
    case Space(blank) => TrimStartBlank(blank, s);
    case Line(body) => LineStripped(body, s);
    case Block(body) => BlockStripped(body, s);
  }

  /** Any run of blanks, newline-ended line comments and closed block comments in front of a text is
      invisible. */
  lemma {:induction false} TriviaIsInvisible(ps: seq<Piece>, s: string)
    requires WfPieces(ps)
    ensures Strip(TriviaText(ps) + s) == Strip(s)
    ensures LeadingDdlKeyword(TriviaText(ps) + s) == LeadingDdlKeyword(s)
    decreases ps
  {
    if ps == [] {
      assert TriviaText(ps) + s == s;
    } else {
      var rest := TriviaText(ps[1..]) + s;
      assert TriviaText(ps) + s == PieceText(ps[0]) + rest;
      PieceStripped(ps[0], rest);
      TriviaIsInvisible(ps[1..], s);
    }
  }

  // ---------------------------------------------------------------- nothing but trivia is stripped

  /** A comment that never ends. */
  predicate Unclosed(s: string) {
    || (HasPrefix(s, "--") && '\n' !in s)
    || (HasPrefix(s, "/*") && forall k :: 2 <= k <= |s| ==> !HasPrefix(s[k..], "*/"))
  }

  lemma CutAtMark(s: string, mark: string)
    requires Find(s, mark, 0).Some?
    ensures var k := Find(s, mark, 0).value; s == s[..k] + mark + After(s, mark)
  {
    var k := Find(s, mark, 0).value;
    assert s[k..] == mark + s[k..][|mark|..];
    assert s[k..][|mark|..] == s[k + |mark|..];
  }

  /** The comment at the front of `s`, or the finding that it never ends. */
  lemma FirstComment(s: string) returns (p: Option<Piece>)
    requires Opens(s)
    ensures p.Some? ==> WfPiece(p.value) && s == PieceText(p.value) + Behind(s)
    ensures p.None? ==> Unclosed(s) && Behind(s) == ""
  {
    if HasPrefix(s, "--") {
      p := LineAtFront(s);
    } else {
      p := BlockAtFront(s);
    }
  }

  lemma LineAtFront(s: string) returns (p: Option<Piece>)
    requires HasPrefix(s, "--")
    ensures p.Some? ==> WfPiece(p.value) && s == PieceText(p.value) + After(s[2..], "\n")
    ensures p.None? ==> '\n' !in s && After(s[2..], "\n") == ""
  {
    var body, k := s[2..], Find(s[2..], "\n", 0);
    assert s == "--" + body;
    if k.Some? {
      CutAtMark(body, "\n");
      NoNewline(body, k.value);
      p := Some(Line(body[..k.value]));
      assert s == "--" + (body[..k.value] + "\n" + After(body, "\n"));
    } else {
      NoNewline(body, |body|);
      p := None;
    }
  }

  lemma NoNewline(s: string, n: nat)
    requires n <= |s| && forall i :: 0 <= i < n ==> !HasPrefix(s[i..], "\n")
    ensures '\n' !in s[..n]
  {
    forall i | 0 <= i < n ensures s[i] != '\n' {
      assert s[i..][..1] == [s[i]];
    }
  }

  lemma BlockAtFront(s: string) returns (p: Option<Piece>)
    requires HasPrefix(s, "/*")
    ensures p.Some? ==> WfPiece(p.value) && s == PieceText(p.value) + After(s[2..], "*/")
    ensures p.None? ==> Unclosed(s) && After(s[2..], "*/") == ""
  {
    var body, k := s[2..], Find(s[2..], "*/", 0);
    assert s == "/*" + body;
    if k.Some? {
      CutAtMark(body, "*/");
      NoEndMark(body, k.value);
      p := Some(Block(body[..k.value]));
      assert s == "/*" + (body[..k.value] + "*/" + After(body, "*/"));
    } else {
      forall j | 2 <= j <= |s| ensures !HasPrefix(s[j..], "*/") {
        assert s[j..] == body[j - 2..];
      }
      p := None;
    }
  }

  lemma NoEndMark(s: string, k: nat)
    requires k + 2 <= |s| && s[k..k + 2] == "*/" && forall i :: 0 <= i < k ==> !HasPrefix(s[i..], "*/")
    ensures WfPiece(Block(s[..k]))
  {
    assert s[..k + 2] == s[..k] + "*/";
    forall i | 0 <= i < k ensures !HasPrefix((s[..k] + "*/")[i..], "*/") {
      assert s[..k + 2][i..][..2] == s[i..][..2];
    }
  }

  /** What stripping leaves of a text that is trivia and then `rest`. */
  ghost predicate Leaves(s: string, rest: string) {
    rest == Strip(s) || (Strip(s) == "" && Unclosed(rest))
  }

  /** Every text is trivia followed by what stripping leaves, unless a comment in it never ends;
      then nothing is left. */
  lemma {:induction false} OnlyTriviaIsStripped(s: string) returns (ps: seq<Piece>, rest: string)
    ensures WfPieces(ps) && s == TriviaText(ps) + rest && Leaves(s, rest)
    decreases |s|
  {
    var blank, t := LeadingBlank(s);
    if Opens(t) {
      var p := FirstComment(t);
      if p.Some? {
        var qs, r := OnlyTriviaIsStripped(Behind(t));
        Assemble(s, blank, t, p.value, qs, r);
        return [blank, p.value] + qs, r;
      }
      NothingToStrip();
    }
    return [blank], t;
  }

  lemma NothingToStrip()
    ensures Strip("") == ""
  {
  }

  /** The blanks in front of a text, and the text they stand before. */
  lemma LeadingBlank(s: string) returns (blank: Piece, t: string)
    ensures WfPiece(blank) && s == PieceText(blank) + t && s == TriviaText([blank]) + t
    ensures Strip(s) == if Opens(t) then Strip(Behind(t)) else t
  {
    t := TrimStart(s);
    var k := |s| - |t|;
    blank := Space(s[..k]);
    Halves(s, k);
    OneInFront(blank, []);
    NothingAdded(blank);
  }

  lemma Halves(s: string, k: nat)
    requires k <= |s|
    ensures s == s[..k] + s[k..]
  {
  }

  lemma NothingAdded(p: Piece)
    ensures [p] + [] == [p] && PieceText(p) + TriviaText([]) == PieceText(p)
  {
  }

  lemma Assemble(s: string, blank: Piece, t: string, p: Piece, qs: seq<Piece>, r: string)
    requires WfPiece(blank) && WfPiece(p) && WfPieces(qs)
    requires s == PieceText(blank) + t && t == PieceText(p) + (TriviaText(qs) + r)
    ensures WfPieces([blank, p] + qs) && s == TriviaText([blank, p] + qs) + r
  {
    var rest := [p] + qs;
    TwoInFront(blank, p, qs);
    OneInFront(blank, rest);
    OneInFront(p, qs);
    Shift(PieceText(blank), PieceText(p), TriviaText(qs), r);
  }

  lemma TwoInFront(x: Piece, y: Piece, zs: seq<Piece>)
    ensures [x, y] + zs == [x] + ([y] + zs)
  {
  }

  lemma Shift(a: string, b: string, c: string, d: string)
    ensures a + (b + (c + d)) == a + (b + c) + d
  {
  }

  lemma OneInFront(p: Piece, ps: seq<Piece>)
    ensures TriviaText([p] + ps) == PieceText(p) + TriviaText(ps)
  {
    assert ([p] + ps)[1..] == ps;
  }

  // ---------------------------------------------------------------- the keyword guard

  const DDL_KEYWORDS := ["CREATE", "ALTER", "DROP", "TRUNCATE"]

  predicate IsTokenChar(c: char) {
    'a' <= c <= 'z' || 'A' <= c <= 'Z' || '0' <= c <= '9' || c == '_'
  }

  /** `starts_with_keyword`. */
  predicate StartsWithKeyword(body: string, keyword: string) {
    && |keyword| <= |body|
    && Lower(body[..|keyword|]) == Lower(keyword)
    && (|body| == |keyword| || !IsTokenChar(body[|keyword|]))
  }

  function FirstMatch(body: string, keywords: seq<string>): (r: Option<string>)
    ensures r.Some? ==> r.value in keywords && StartsWithKeyword(body, r.value)
    ensures r.None? ==> forall k :: k in keywords ==> !StartsWithKeyword(body, k)
  {
    if keywords == [] then None
    else if StartsWithKeyword(body, keywords[0]) then Some(keywords[0])
    else FirstMatch(body, keywords[1..])
  }

  /** `leading_ddl_keyword`. */
  function LeadingDdlKeyword(sql: string): Option<string> {
    FirstMatch(Strip(sql), DDL_KEYWORDS)
  }

  lemma KeywordsStartApart(j: string, k: string)
    requires j in DDL_KEYWORDS && k in DDL_KEYWORDS && LowerChar(j[0]) == LowerChar(k[0])
    ensures j == k
  {
  }

  lemma SameInitial(body: string, k: string)
    requires k != "" && StartsWithKeyword(body, k)
    ensures LowerChar(body[0]) == LowerChar(k[0])
  {
    assert Lower(body[..|k|])[0] == LowerChar(body[0]) && Lower(k)[0] == LowerChar(k[0]);
  }

  lemma OneMatches(body: string, k: string)
    requires k in DDL_KEYWORDS && StartsWithKeyword(body, k)
    ensures FirstMatch(body, DDL_KEYWORDS) == Some(k)
  {
    var found := FirstMatch(body, DDL_KEYWORDS).value;
    SameInitial(body, k);
    SameInitial(body, found);
    KeywordsStartApart(found, k);
  }

  /** At most one keyword ever matches, and it is the one reported. */
  lemma OneKeywordMatches(sql: string, k: string)
    requires k in DDL_KEYWORDS
    ensures LeadingDdlKeyword(sql) == Some(k) <==> StartsWithKeyword(Strip(sql), k)
  {
    if StartsWithKeyword(Strip(sql), k) {
      OneMatches(Strip(sql), k);
    }
  }

  lemma StarIsNoKeyword(body: string)
    requires body != "" && body[0] == '*'
    ensures FirstMatch(body, DDL_KEYWORDS) == None
  {
    forall k | k in DDL_KEYWORDS ensures !StartsWithKeyword(body, k) {
      if |k| <= |body| {
        assert Lower(body[..|k|])[0] == '*' != LowerChar(k[0]) == Lower(k)[0];
      }
    }
  }

  lemma StarStays(sql: string)
    ensures Strip("*/" + sql) == "*/" + sql
  {
    var tail := "*/" + sql;
    assert tail[..2] == "*/" && tail[0] == '*';
    SolidStays(tail);
  }

  lemma OpenerInBlock()
    ensures WfPiece(Block("/*"))
  {
    assert "/*" + "*/" == "/**/";
    assert "/**/"[0..][..2] == "/*" && "/**/"[1..][..2] == "**";
  }

  /** Comments do not nest: the rest of an outer comment hides any keyword behind it. */
  lemma NestedCommentHides(sql: string)
    ensures LeadingDdlKeyword("/*" + "/*" + "*/" + ("*/" + sql)) == None
  {
    OpenerInBlock();
    BlockStripped("/*", "*/" + sql);
    StarStays(sql);
    StarIsNoKeyword("*/" + sql);
  }
}
