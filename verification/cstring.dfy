/**
 * The C library string routines the bootstrap code relies on, over
 * character sequences: the C string a zero-terminated buffer holds,
 * strstr, and strtok_r.
 */
module CString {
  import opened Wrappers

  const NUL: char := '\0'

  /** Delimiter sets passed to strtok_r. */
  const SPACE_TAB: set<char> := {' ', '\t'}
  const TAB: set<char> := {'\t'}
  const NEWLINE: set<char> := {'\n'}

  /** The C string a character buffer holds: everything before its first NUL. */
  function CStr(buf: seq<char>): (s: seq<char>)
    ensures |s| <= |buf| && s == buf[..|s|]
    ensures NUL !in s
    ensures |s| < |buf| ==> buf[|s|] == NUL
  {
    if buf == [] || buf[0] == NUL then [] else [buf[0]] + CStr(buf[1..])
  }

  /** `needle` occurs in `hay` starting at index `i`. */
  predicate OccursAt(hay: seq<char>, needle: seq<char>, i: nat)
  {
    i + |needle| <= |hay| && hay[i..i + |needle|] == needle
  }

  /** The first occurrence of `needle` in `hay` at or after `i`. */
  function FindFrom(hay: seq<char>, needle: seq<char>, i: nat): (r: Option<nat>)
    ensures r.Some? ==> i <= r.value && OccursAt(hay, needle, r.value)
    ensures r.Some? ==> forall j: nat :: i <= j < r.value ==> !OccursAt(hay, needle, j)
    ensures r.None? ==> forall j: nat :: i <= j ==> !OccursAt(hay, needle, j)
    decreases |hay| - i
  {
    if i + |needle| > |hay| then None
    else if hay[i..i + |needle|] == needle then Some(i)
    else FindFrom(hay, needle, i + 1)
  }

  /** strstr: the index of the first occurrence of `needle` in `hay`, None for a null result. */
  function StrStr(hay: seq<char>, needle: seq<char>): (r: Option<nat>)
    ensures r.Some? ==> OccursAt(hay, needle, r.value)
    ensures r.Some? ==> forall j: nat :: j < r.value ==> !OccursAt(hay, needle, j)
    ensures r.None? ==> forall j: nat :: !OccursAt(hay, needle, j)
  {
    FindFrom(hay, needle, 0)
  }

  /** The first index at or after `from` that is not a delimiter (|s| if there is none). */
  function SkipDelims(s: seq<char>, from: nat, delims: set<char>): (k: nat)
    requires from <= |s|
    ensures from <= k <= |s|
    ensures forall j :: from <= j < k ==> s[j] in delims
    ensures k < |s| ==> s[k] !in delims
    decreases |s| - from
  {
    if from == |s| || s[from] !in delims then from else SkipDelims(s, from + 1, delims)
  }

  /** The first index at or after `from` that is a delimiter (|s| if there is none). */
  function SpanTo(s: seq<char>, from: nat, delims: set<char>): (k: nat)
    requires from <= |s|
    ensures from <= k <= |s|
    ensures forall j :: from <= j < k ==> s[j] !in delims
    ensures k < |s| ==> s[k] in delims
    decreases |s| - from
  {
    if from == |s| || s[from] in delims then from else SpanTo(s, from + 1, delims)
  }

  /**
   * The token strtok_r finds when it resumes scanning the C string `s` at
   * `from`: leading delimiters are skipped and the token runs to the next
   * delimiter or the end. The result is the half-open range of the token;
   * None is the null pointer strtok_r returns when only delimiters remain.
   */
  function NextToken(s: seq<char>, from: nat, delims: set<char>): (r: Option<(nat, nat)>)
    requires from <= |s|
    ensures r.Some? ==> from <= r.value.0 < r.value.1 <= |s|
    ensures r.Some? ==> forall j :: from <= j < r.value.0 ==> s[j] in delims
    ensures r.Some? ==> forall j :: r.value.0 <= j < r.value.1 ==> s[j] !in delims
    ensures r.Some? && r.value.1 < |s| ==> s[r.value.1] in delims
    ensures r.None? <==> forall j :: from <= j < |s| ==> s[j] in delims
  {
    var b := SkipDelims(s, from, delims);
    if b == |s| then None else Some((b, SpanTo(s, b, delims)))
  }

  /**
   * Where strtok_r's save pointer resumes after a token that ended at `e`:
   * past the delimiter it overwrote with NUL, or at the end of the string.
   */
  function Resume(s: seq<char>, e: nat): (k: nat)
    requires e <= |s|
    ensures e <= k <= |s|
  {
    if e < |s| then e + 1 else e
  }

  /**
   * strtok_r called with a (non-null) string `s`: the token it returns, and
   * the C string that starts at the same address afterwards, since the
   * delimiter that ended the token has been overwritten with NUL.
   */
  function Strtok(s: seq<char>, delims: set<char>): (r: (Option<seq<char>>, seq<char>))
    ensures r.1 <= s
    ensures r.0.Some? ==> 0 < |r.0.value| <= |r.1| && r.1[|r.1| - |r.0.value|..] == r.0.value
    ensures r.0.Some? ==> forall j :: 0 <= j < |r.0.value| ==> r.0.value[j] !in delims
    ensures r.0.None? <==> forall j :: 0 <= j < |s| ==> s[j] in delims
    ensures r.0.None? ==> r.1 == s
    ensures r.0.Some? ==>
      var b := SkipDelims(s, 0, delims); var e := SpanTo(s, b, delims);
      r == (Some(s[b..e]), s[..e])
  {
    match NextToken(s, 0, delims)
    case None => (None, s)
    case Some((b, e)) => (Some(s[b..e]), s[..e])
  }

  /**
   * All the tokens of the C string `s` from `from` on, as a loop of
   * strtok_r calls (the first with the string, later ones with NULL)
   * returns them. Runs of delimiters never produce an empty token.
   */
  function Tokens(s: seq<char>, from: nat, delims: set<char>): (ts: seq<seq<char>>)
    requires from <= |s|
    ensures forall k | 0 <= k < |ts| :: |ts[k]| > 0
    ensures forall k, j | 0 <= k < |ts| && 0 <= j < |ts[k]| :: ts[k][j] !in delims
    decreases |s| - from
  {
    match NextToken(s, from, delims)
    case None => []
    case Some((b, e)) => [s[b..e]] + Tokens(s, Resume(s, e), delims)
  }

  /**
   * One more strtok_r call: if the tokens before `from` are `done`, the
   * tokens before where the scan resumes are `done` and the next token.
   */
  lemma TokensStep(s: seq<char>, from: nat, delims: set<char>, done: seq<seq<char>>)
    requires from <= |s| && NextToken(s, from, delims).Some?
    requires Tokens(s, 0, delims) == done + Tokens(s, from, delims)
    ensures var (b, e) := NextToken(s, from, delims).value;
      Tokens(s, 0, delims) == (done + [s[b..e]]) + Tokens(s, Resume(s, e), delims)
  {
    var (b, e) := NextToken(s, from, delims).value;
    var rest := Tokens(s, Resume(s, e), delims);
    assert Tokens(s, from, delims) == [s[b..e]] + rest;
    assert done + ([s[b..e]] + rest) == (done + [s[b..e]]) + rest;
  }

  /** The strtok_r loop at a token: that token, then the tokens from where the scan resumes. */
  lemma TokensAt(s: seq<char>, from: nat, delims: set<char>, b: nat, e: nat)
    requires from <= |s| && NextToken(s, from, delims) == Some((b, e))
    ensures e <= |s| && Tokens(s, from, delims) == [s[b..e]] + Tokens(s, Resume(s, e), delims)
  {
  }

  /** A newline at `from` is skipped: the strtok_r loop hands out the same lines from the next position. */
  lemma TokensAtNewline(s: seq<char>, from: nat)
    requires from < |s| && s[from] == '\n'
    ensures Tokens(s, from, NEWLINE) == Tokens(s, from + 1, NEWLINE)
  {
    assert SkipDelims(s, from, NEWLINE) == SkipDelims(s, from + 1, NEWLINE);
    assert NextToken(s, from, NEWLINE) == NextToken(s, from + 1, NEWLINE);
  }

  /**
   * Newline-free text from `from` to `e`, ended by a newline or the end of
   * the string: the strtok_r loop hands it out as the next line.
   */
  lemma TokensAtLine(s: seq<char>, from: nat, e: nat)
    requires from < e <= |s| && '\n' !in s[from..e]
    requires e == |s| || s[e] == '\n'
    ensures Tokens(s, from, NEWLINE) == [s[from..e]] + Tokens(s, Resume(s, e), NEWLINE)
  {
    forall j | from <= j < e
      ensures s[j] !in NEWLINE
    {
      assert s[j] == s[from..e][j - from];
    }
    assert SkipDelims(s, from, NEWLINE) == from;
    assert SpanTo(s, from, NEWLINE) == e;
    TokensAt(s, from, NEWLINE, from, e);
  }

  /**
   * A text cut at every newline: the pieces (the raw lines, empty ones
   * included) joined back with a newline between consecutive ones.
   */
  function JoinLines(raw: seq<seq<char>>): seq<char>
    requires |raw| >= 1
  {
    if |raw| == 1 then raw[0] else raw[0] + "\n" + JoinLines(raw[1..])
  }

  /** The raw lines that are not empty, in order. */
  function NonEmpty(raw: seq<seq<char>>): seq<seq<char>>
  {
    if raw == [] then []
    else if raw[0] == [] then NonEmpty(raw[1..])
    else [raw[0]] + NonEmpty(raw[1..])
  }

  /** Where the first raw line of a joined text ends: at the end, or at a newline followed by the other lines. */
  lemma JoinLinesHead(s: seq<char>, from: nat, raw: seq<seq<char>>)
    requires |raw| >= 1 && from <= |s| && s[from..] == JoinLines(raw)
    ensures from + |raw[0]| <= |s| && s[from..from + |raw[0]|] == raw[0]
    ensures |raw| == 1 ==> from + |raw[0]| == |s|
    ensures |raw| > 1 ==>
      from + |raw[0]| < |s| && s[from + |raw[0]|] == '\n' && s[from + |raw[0]| + 1..] == JoinLines(raw[1..])
  {
    var n := |raw[0]|;
    var t := s[from..];
    if |raw| > 1 {
      var rest := JoinLines(raw[1..]);
      assert t == raw[0] + "\n" + rest;
      assert t[..n] == raw[0] && t[n] == '\n' && t[n + 1..] == rest;
      assert s[from + n] == t[n];
      assert s[from + n + 1..] == t[n + 1..];
    }
    assert s[from..from + n] == t[..n];
  }

  /**
   * The raw lines lie in `s` from `from` on: each one in place and free of
   * newlines, followed by a newline, the last one running to the end of the
   * string.
   */
  predicate LinesAt(s: seq<char>, from: nat, raw: seq<seq<char>>)
    decreases |raw|
  {
    |raw| >= 1 && from + |raw[0]| <= |s| && s[from..from + |raw[0]|] == raw[0] && '\n' !in raw[0] &&
    if |raw| == 1 then from + |raw[0]| == |s|
    else from + |raw[0]| < |s| && s[from + |raw[0]|] == '\n' && LinesAt(s, from + |raw[0]| + 1, raw[1..])
  }

  /** A joined text holds its raw lines in place. */
  lemma {:induction false} JoinLinesAt(s: seq<char>, from: nat, raw: seq<seq<char>>)
    requires |raw| >= 1 && from <= |s| && s[from..] == JoinLines(raw)
    requires forall i | 0 <= i < |raw| :: '\n' !in raw[i]
    ensures LinesAt(s, from, raw)
    decreases |raw|
  {
    JoinLinesHead(s, from, raw);
    if |raw| > 1 {
      assert forall i | 0 <= i < |raw[1..]| :: '\n' !in raw[1..][i] by {
        assert forall i | 0 <= i < |raw[1..]| :: raw[1..][i] == raw[i + 1];
      }
      JoinLinesAt(s, from + |raw[0]| + 1, raw[1..]);
    }
  }

  /** The last raw line, running to the end of the string: handed out unless empty, and nothing after it. */
  lemma TokensLastLine(s: seq<char>, from: nat, raw: seq<seq<char>>)
    requires |raw| == 1 && from + |raw[0]| == |s| && s[from..from + |raw[0]|] == raw[0] && '\n' !in raw[0]
    ensures Tokens(s, from, NEWLINE) == NonEmpty(raw)
  {
    assert raw[1..] == [];
    assert NextToken(s, |s|, NEWLINE).None?;
    if raw[0] != [] {
      TokensAtLine(s, from, |s|);
    }
  }

  /** A raw line followed by a newline: handed out unless empty, then the lines after the newline. */
  lemma TokensLineThen(s: seq<char>, from: nat, piece: seq<char>, next: nat)
    requires next == from + |piece| + 1 <= |s| && s[from..from + |piece|] == piece && '\n' !in piece
    requires s[from + |piece|] == '\n'
    ensures piece == [] ==> Tokens(s, from, NEWLINE) == Tokens(s, next, NEWLINE)
    ensures piece != [] ==> Tokens(s, from, NEWLINE) == [piece] + Tokens(s, next, NEWLINE)
  {
    if piece == [] {
      assert next == from + 1;
      TokensAtNewline(s, from);
    } else {
      var e := from + |piece|;
      assert Resume(s, e) == next;
      TokensAtLine(s, from, e);
    }
  }

  /** Raw lines in place, more than one: the first one, its newline, and the others after it. */
  lemma LinesAtFirst(s: seq<char>, from: nat, raw: seq<seq<char>>, next: nat)
    requires LinesAt(s, from, raw) && |raw| > 1 && next == from + |raw[0]| + 1
    ensures next <= |s| && s[from..from + |raw[0]|] == raw[0] && '\n' !in raw[0]
    ensures s[from + |raw[0]|] == '\n' && LinesAt(s, next, raw[1..])
  {
  }

  /** The non-empty raw lines: the first one unless it is empty, then those of the others. */
  lemma NonEmptyFirst(raw: seq<seq<char>>)
    requires |raw| >= 1
    ensures raw[0] == [] ==> NonEmpty(raw) == NonEmpty(raw[1..])
    ensures raw[0] != [] ==> NonEmpty(raw) == [raw[0]] + NonEmpty(raw[1..])
  {
  }

  /** The strtok_r loop over raw lines in place at `from` hands out exactly the non-empty ones. */
  lemma {:induction false} TokensOfLines(s: seq<char>, from: nat, raw: seq<seq<char>>)
    requires LinesAt(s, from, raw)
    ensures from <= |s| && Tokens(s, from, NEWLINE) == NonEmpty(raw)
    decreases |raw|
  {
    if |raw| == 1 {
      TokensLastLine(s, from, raw);
    } else {
      var next := from + |raw[0]| + 1;
      LinesAtFirst(s, from, raw, next);
      TokensLineThen(s, from, raw[0], next);
      TokensOfLines(s, next, raw[1..]);
      NonEmptyFirst(raw);
    }
  }

  /**
   * Splitting a text with a strtok_r loop on newlines hands out every
   * non-empty line, in order, and nothing else: empty lines vanish.
   */
  lemma LinesOfText(raw: seq<seq<char>>)
    requires |raw| >= 1 && forall i | 0 <= i < |raw| :: '\n' !in raw[i]
    ensures Tokens(JoinLines(raw), 0, NEWLINE) == NonEmpty(raw)
  {
    var s := JoinLines(raw);
    assert s[0..] == s;
    JoinLinesAt(s, 0, raw);
    TokensOfLines(s, 0, raw);
  }

  /** strtok_r on a string that starts with a token: the token runs to the first delimiter, where the string is cut. */
  lemma StrtokFromToken(s: seq<char>, delims: set<char>)
    requires |s| > 0 && s[0] !in delims
    ensures var e := SpanTo(s, 0, delims); Strtok(s, delims) == (Some(s[..e]), s[..e])
  {
    assert SkipDelims(s, 0, delims) == 0;
    assert NextToken(s, 0, delims) == Some((0, SpanTo(s, 0, delims)));
  }

  /** strtok_r on a string without delimiters returns the whole string and leaves it as it was. */
  lemma StrtokWhole(s: seq<char>, delims: set<char>)
    requires |s| > 0 && forall j :: 0 <= j < |s| ==> s[j] !in delims
    ensures Strtok(s, delims) == (Some(s), s)
  {
    StrtokFromToken(s, delims);
    assert SpanTo(s, 0, delims) == |s|;
    assert s[..|s|] == s;
  }

  /** A buffer with a NUL at `n` holds no more of a C string than its first `n` characters do. */
  lemma {:induction false} CStrOfTerminated(buf: seq<char>, n: nat)
    requires n < |buf| && buf[n] == NUL
    ensures CStr(buf) == CStr(buf[..n])
  {
    if n > 0 && buf[0] != NUL {
      assert buf[1..][n - 1] == NUL;
      CStrOfTerminated(buf[1..], n - 1);
      assert buf[..n][1..] == buf[1..][..n - 1];
    }
  }
}
