/**
 * Normalisation of the raw `suggestions` text returned by the design endpoint
 * (bot/frontend/src/app/page.tsx, lines 45-51):
 *
 *   split on /\n|\. /  ->  trim every piece  ->  drop empty pieces
 *
 * followed by the test /^[0-9]+\./ on the first surviving piece.
 */
module Suggestions {

  import opened Wrappers

  // ---------------------------------------------------------------------------
  // Characters
  // ---------------------------------------------------------------------------

  /** The characters `String.prototype.trim` strips: ECMAScript's WhiteSpace and LineTerminator. */
  predicate IsWs(c: char) {
    c == '\t' || c == '\n' || c == '\U{000B}' || c == '\U{000C}' || c == '\r' || c == ' '
    || c == '\U{00A0}' || c == '\U{1680}' || ('\U{2000}' <= c <= '\U{200A}')
    || c == '\U{2028}' || c == '\U{2029}' || c == '\U{202F}' || c == '\U{205F}'
    || c == '\U{3000}' || c == '\U{FEFF}'
  }

  predicate AllWs(s: string) {
    forall i :: 0 <= i < |s| ==> IsWs(s[i])
  }

  /** Empty, or starting and ending with a character `trim` keeps. */
  predicate Bordered(s: string) {
    s == [] || (!IsWs(s[0]) && !IsWs(s[|s| - 1]))
  }

  predicate IsDigit(c: char) {
    '0' <= c <= '9'
  }

  // ---------------------------------------------------------------------------
  // Splitting on /\n|\. /
  // ---------------------------------------------------------------------------

  /** `s` begins with the two-character separator ". ". */
  predicate StartsDotSpace(s: string) {
    |s| >= 2 && s[0] == '.' && s[1] == ' '
  }

  /** One of the two texts the regular expression /\n|\. / matches. */
  predicate IsSeparator(sep: string) {
    sep == "\n" || sep == ". "
  }

  /** No position of `s` starts a match of /\n|\. /. */
  predicate SeparatorFree(s: string) {
    forall i :: 0 <= i < |s| ==> s[i] != '\n' && !(s[i] == '.' && i + 1 < |s| && s[i + 1] == ' ')
  }

  /**
   * `s.split(/\n|\. /)`: the pieces between successive leftmost matches.
   * The two alternatives begin with different characters, so at most one of
   * them matches at any position; neither matches the empty string, so
   * `"".split(...)` is `[""]`.
   */
  function Split(s: string): (r: seq<string>)
    ensures |r| >= 1
    decreases |s|
  {
    if |s| == 0 then [""]
    else if s[0] == '\n' then [""] + Split(s[1..])
    else if StartsDotSpace(s) then [""] + Split(s[2..])
    else
      var rest := Split(s[1..]);
      [[s[0]] + rest[0]] + rest[1..]
  }

  /** No piece holds a separator; the first piece is a prefix of the text. */
  lemma {:induction false} SplitPiecesAreSeparatorFree(s: string)
    ensures Split(s)[0] <= s
    ensures forall p :: p in Split(s) ==> SeparatorFree(p)
    decreases |s|
  {
    if |s| == 0 {
    } else if s[0] == '\n' {
      SplitPiecesAreSeparatorFree(s[1..]);
    } else if StartsDotSpace(s) {
      SplitPiecesAreSeparatorFree(s[2..]);
    } else {
      SplitPiecesAreSeparatorFree(s[1..]);
      var rest := Split(s[1..]);
      assert rest[0] in rest;
      var p := [s[0]] + rest[0];
      assert SeparatorFree(p) by {
        forall i | 0 <= i < |p|
          ensures p[i] != '\n' && !(p[i] == '.' && i + 1 < |p| && p[i + 1] == ' ')
        {
          if i == 0 {
            if p[0] == '.' && 1 < |p| { assert p[1] == rest[0][0] == s[1]; }
          } else {
            assert p[i] == rest[0][i - 1];
            if i + 1 < |p| { assert p[i + 1] == rest[0][i]; }
          }
        }
      }
      forall q | q in Split(s) ensures SeparatorFree(q) {
        if q != p { assert q in rest; }
      }
    }
  }

  /** The texts the regular expression matched, in order: what `split` throws away. */
  function Separators(s: string): (r: seq<string>)
    ensures forall sep :: sep in r ==> IsSeparator(sep)
    decreases |s|
  {
    if |s| == 0 then []
    else if s[0] == '\n' then ["\n"] + Separators(s[1..])
    else if StartsDotSpace(s) then [". "] + Separators(s[2..])
    else Separators(s[1..])
  }

  /** Pieces interleaved with separators: p0 + s0 + p1 + s1 + ... + pn. */
  function Join(pieces: seq<string>, seps: seq<string>): string
    requires |pieces| == |seps| + 1
    decreases |seps|
  {
    if |seps| == 0 then pieces[0]
    else pieces[0] + seps[0] + Join(pieces[1..], seps[1..])
  }

  lemma JoinConsChar(c: char, pieces: seq<string>, seps: seq<string>)
    requires |pieces| == |seps| + 1
    ensures Join([[c] + pieces[0]] + pieces[1..], seps) == [c] + Join(pieces, seps)
  {
    var q := [[c] + pieces[0]] + pieces[1..];
    assert q[1..] == pieces[1..];
  }

  lemma JoinConsSeparator(sep: string, pieces: seq<string>, seps: seq<string>)
    requires |pieces| == |seps| + 1
    ensures Join([""] + pieces, [sep] + seps) == sep + Join(pieces, seps)
  {
    var q, t := [""] + pieces, [sep] + seps;
    assert q[0] == "" && t[0] == sep && q[1..] == pieces && t[1..] == seps;
    assert Join(q, t) == q[0] + t[0] + Join(pieces, seps);
    assert q[0] + t[0] == sep;
  }

  /** Splitting loses nothing: putting the matched separators back rebuilds the text. */
  lemma {:induction false} SplitRoundTrip(s: string)
    ensures |Split(s)| == |Separators(s)| + 1
    ensures Join(Split(s), Separators(s)) == s
    decreases |s|
  {
    if |s| == 0 {
    } else if s[0] == '\n' {
      SplitRoundTrip(s[1..]);
      JoinConsSeparator("\n", Split(s[1..]), Separators(s[1..]));
      assert s == "\n" + s[1..];
    } else if StartsDotSpace(s) {
      SplitRoundTrip(s[2..]);
      JoinConsSeparator(". ", Split(s[2..]), Separators(s[2..]));
      assert s == ". " + s[2..];
    } else {
      SplitRoundTrip(s[1..]);
      JoinConsChar(s[0], Split(s[1..]), Separators(s[1..]));
      assert s == [s[0]] + s[1..];
    }
  }

  /**
   * Split is the only decomposition of `s` into separator-free pieces joined by
   * separators: any such decomposition is the one `split` returns.
   */
  lemma {:induction false} SplitUnique(s: string, pieces: seq<string>, seps: seq<string>)
    requires |pieces| == |seps| + 1
    requires forall sep :: sep in seps ==> IsSeparator(sep)
    requires forall p :: p in pieces ==> SeparatorFree(p)
    requires Join(pieces, seps) == s
    ensures Split(s) == pieces && Separators(s) == seps
    decreases |s|
  {
    var p0 := pieces[0];
    assert p0 in pieces;
    if |p0| > 0 {
      var tail := [p0[1..]] + pieces[1..];
      assert p0 == [p0[0]] + p0[1..];
      assert [[p0[0]] + tail[0]] + tail[1..] == pieces;
      JoinConsChar(p0[0], tail, seps);
      assert s == [p0[0]] + Join(tail, seps);
      assert s[0] == p0[0] && s[1..] == Join(tail, seps);
      assert SeparatorFree(p0[1..]) by {
        forall i | 0 <= i < |p0[1..]|
          ensures p0[1..][i] != '\n' && !(p0[1..][i] == '.' && i + 1 < |p0[1..]| && p0[1..][i + 1] == ' ')
        {
          assert p0[1..][i] == p0[i + 1];
        }
      }
      forall p | p in tail ensures SeparatorFree(p) {
        if p != p0[1..] { assert p in pieces; }
      }
      SplitUnique(s[1..], tail, seps);
      assert s[0] != '\n';
      assert !StartsDotSpace(s) by {
        if |s| >= 2 && s[0] == '.' {
          if |p0| >= 2 {
            assert s[1] == p0[1];
          } else if |seps| > 0 {
            assert s == p0 + seps[0] + Join(pieces[1..], seps[1..]);
            assert s[1] == seps[0][0];
          }
        }
      }
    } else if |seps| == 0 {
      assert s == "";
    } else {
      var rest := Join(pieces[1..], seps[1..]);
      assert s == seps[0] + rest;
      assert seps[0] in seps;
      forall p | p in pieces[1..] ensures SeparatorFree(p) { assert p in pieces; }
      forall sep | sep in seps[1..] ensures IsSeparator(sep) { assert sep in seps; }
      assert pieces == [""] + pieces[1..];
      assert seps == [seps[0]] + seps[1..];
      if seps[0] == "\n" {
        assert s[1..] == rest;
        SplitUnique(rest, pieces[1..], seps[1..]);
      } else {
        assert seps[0] == ". ";
        assert s[0] == seps[0][0] && s[1] == seps[0][1];
        assert s[2..] == rest;
        SplitUnique(rest, pieces[1..], seps[1..]);
      }
    }
  }

  // ---------------------------------------------------------------------------
  // Trimming
  // ---------------------------------------------------------------------------

  /** Every character of `s` outside the index range [lo, hi) is whitespace. */
  predicate WsOutside(s: string, lo: int, hi: int) {
    forall i :: 0 <= i < |s| && !(lo <= i < hi) ==> IsWs(s[i])
  }

  /** `s.trimStart()`: the suffix left after dropping leading whitespace. */
  function TrimStart(s: string): (r: string)
    ensures |r| <= |s| && r == s[|s| - |r|..]
    ensures r == [] || !IsWs(r[0])
    decreases |s|
  {
    if |s| > 0 && IsWs(s[0]) then TrimStart(s[1..]) else s
  }

  /** `s.trimEnd()`: the prefix left after dropping trailing whitespace. */
  function TrimEnd(s: string): (r: string)
    ensures |r| <= |s| && r == s[..|r|]
    ensures r == [] || !IsWs(r[|r| - 1])
    decreases |s|
  {
    if |s| > 0 && IsWs(s[|s| - 1]) then TrimEnd(s[..|s| - 1]) else s
  }

  /** Everything `trimStart` drops is whitespace. */
  lemma {:induction false} TrimStartDropsWs(s: string)
    ensures WsOutside(s, |s| - |TrimStart(s)|, |s|)
    decreases |s|
  {
    if |s| > 0 && IsWs(s[0]) {
      var u := s[1..];
      TrimStartDropsWs(u);
      var d := |s| - |TrimStart(s)|;
      forall i | 0 < i < d ensures IsWs(s[i]) {
        assert s[i] == u[i - 1];
      }
    }
  }

  /** Everything `trimEnd` drops is whitespace. */
  lemma {:induction false} TrimEndDropsWs(s: string)
    ensures WsOutside(s, 0, |TrimEnd(s)|)
    decreases |s|
  {
    if |s| > 0 && IsWs(s[|s| - 1]) {
      var u := s[..|s| - 1];
      TrimEndDropsWs(u);
      var n := |TrimEnd(s)|;
      forall i | n <= i < |s| - 1 ensures IsWs(s[i]) {
        assert s[i] == u[i];
      }
    }
  }

  /** `s` is `r` with whitespace (possibly none) added on either side, `r` starting at index `k`. */
  predicate FramedAt(s: string, r: string, k: int) {
    0 <= k <= |s| - |r| && s[k..k + |r|] == r && WsOutside(s, k, k + |r|)
  }

  /** `s` is `r` with whitespace (possibly none) added on either side. */
  ghost predicate Framed(s: string, r: string) {
    exists k :: FramedAt(s, r, k)
  }

  /** `s.trim()`: whitespace removed from both ends. */
  function Trim(s: string): (r: string)
    ensures |r| <= |s| && Bordered(r)
  {
    var t := TrimStart(s);
    assert TrimEnd(t) == [] || TrimEnd(t)[0] == t[0];
    TrimEnd(t)
  }

  /** Trimming leaves a bordered text that `s` frames with whitespace. */
  lemma TrimFrames(s: string)
    ensures Bordered(Trim(s)) && Framed(s, Trim(s))
  {
    var t := TrimStart(s);
    var r := TrimEnd(t);
    var k := |s| - |t|;
    TrimStartDropsWs(s);
    TrimEndDropsWs(t);
    assert t == s[k..] && r == t[..|r|];
    assert r == s[k..k + |r|];
    forall i | 0 <= i < |s| && !(k <= i < k + |r|) ensures IsWs(s[i]) {
      if i >= k {
        assert s[i] == t[i - k];
        assert |r| <= i - k < |t|;
      }
    }
    assert WsOutside(s, k, k + |r|);
    assert FramedAt(s, r, k);
    assert r != [] ==> r[0] == t[0];
  }

  /** If `s` is `r` framed by whitespace, trimming the start leaves `r` followed by the trailing frame. */
  lemma TrimStartOfFramed(s: string, k: nat)
    requires k <= |s| && WsOutside(s, k, |s|) && (k < |s| ==> !IsWs(s[k]))
    ensures TrimStart(s) == s[k..]
  {
    var t := TrimStart(s);
    var d := |s| - |t|;
    TrimStartDropsWs(s);
    if t != [] { assert t[0] == s[d]; }
  }

  lemma TrimEndOfFramed(s: string, n: nat)
    requires n <= |s| && WsOutside(s, 0, n) && (n > 0 ==> !IsWs(s[n - 1]))
    ensures TrimEnd(s) == s[..n]
  {
    var t := TrimEnd(s);
    TrimEndDropsWs(s);
    if t != [] { assert t[|t| - 1] == s[|t| - 1]; }
  }

  /** Trim is the only way to strip surrounding whitespace down to a bordered text. */
  lemma TrimUnique(s: string, r: string)
    requires Framed(s, r) && Bordered(r)
    ensures Trim(s) == r
  {
    var k :| FramedAt(s, r, k);
    if r == [] {
      assert WsOutside(s, |s|, |s|);
      TrimStartOfFramed(s, |s|);
    } else {
      assert r[0] == s[k];
      assert s[k + |r| - 1] == r[|r| - 1];
      assert WsOutside(s, k, |s|);
      TrimStartOfFramed(s, k);
      var t := s[k..];
      assert t[..|r|] == r;
      assert WsOutside(t, 0, |r|) by {
        forall i | 0 <= i < |t| && !(0 <= i < |r|) ensures IsWs(t[i]) { assert t[i] == s[k + i]; }
      }
      TrimEndOfFramed(t, |r|);
    }
  }

  /** Trimming twice is trimming once. */
  lemma TrimIdempotent(s: string)
    ensures Trim(Trim(s)) == Trim(s)
  {
    var r := Trim(s);
    TrimFrames(s);
    assert FramedAt(r, r, 0);
    TrimUnique(r, r);
  }

  /** Trimming only cuts characters off the ends, so it never creates a separator. */
  lemma TrimKeepsSeparatorFree(s: string)
    requires SeparatorFree(s)
    ensures SeparatorFree(Trim(s))
  {
    var t := TrimStart(s);
    SuffixKeepsSeparatorFree(s, |s| - |t|);
    PrefixKeepsSeparatorFree(t, |TrimEnd(t)|);
  }

  /** A suffix of a separator-free text is separator-free. */
  lemma SuffixKeepsSeparatorFree(s: string, k: nat)
    requires k <= |s| && SeparatorFree(s)
    ensures SeparatorFree(s[k..])
  {
    var r := s[k..];
    forall i | 0 <= i < |r|
      ensures r[i] != '\n' && !(r[i] == '.' && i + 1 < |r| && r[i + 1] == ' ')
    {
      assert r[i] == s[k + i];
      if i + 1 < |r| { assert r[i + 1] == s[k + i + 1]; }
    }
  }

  /** A prefix of a separator-free text is separator-free. */
  lemma PrefixKeepsSeparatorFree(s: string, n: nat)
    requires n <= |s| && SeparatorFree(s)
    ensures SeparatorFree(s[..n])
  {
    var r := s[..n];
    forall i | 0 <= i < |r|
      ensures r[i] != '\n' && !(r[i] == '.' && i + 1 < |r| && r[i + 1] == ' ')
    {
      assert r[i] == s[i];
      if i + 1 < |r| { assert r[i + 1] == s[i + 1]; }
    }
  }

  // ---------------------------------------------------------------------------
  // map(trim) and filter(s => s.length > 0)
  // ---------------------------------------------------------------------------

  /** `map(s => s.trim())`. */
  function TrimAll(pieces: seq<string>): (r: seq<string>)
    ensures |r| == |pieces|
    ensures forall i :: 0 <= i < |r| ==> Bordered(r[i]) && |r[i]| <= |pieces[i]|
  {
    seq(|pieces|, i requires 0 <= i < |pieces| => Trim(pieces[i]))
  }

  /** `filter(s => s.length > 0)`. */
  function DropEmpty(xs: seq<string>): (r: seq<string>)
    ensures |r| <= |xs|
    ensures forall i :: 0 <= i < |r| ==> |r[i]| > 0
    decreases |xs|
  {
    if |xs| == 0 then []
    else (if |xs[0]| > 0 then [xs[0]] else []) + DropEmpty(xs[1..])
  }

  /** The filter keeps exactly the non-empty elements. */
  lemma {:induction false} DropEmptyMembers(xs: seq<string>)
    ensures |DropEmpty(xs)| <= |xs|
    ensures forall x :: x in DropEmpty(xs) <==> x in xs && |x| > 0
    decreases |xs|
  {
    if |xs| > 0 {
      DropEmptyMembers(xs[1..]);
      assert xs == [xs[0]] + xs[1..];
    }
  }

  /** Filtering distributes over concatenation: survivors keep their relative order. */
  lemma {:induction false} DropEmptyAppend(a: seq<string>, b: seq<string>)
    ensures DropEmpty(a + b) == DropEmpty(a) + DropEmpty(b)
    decreases |a|
  {
    if |a| == 0 {
      assert a + b == b;
    } else {
      assert (a + b)[0] == a[0];
      assert (a + b)[1..] == a[1..] + b;
      DropEmptyAppend(a[1..], b);
    }
  }

  /** A list with no empty element passes the filter unchanged. */
  lemma {:induction false} DropEmptyKeepsAll(xs: seq<string>)
    requires forall i :: 0 <= i < |xs| ==> |xs[i]| > 0
    ensures DropEmpty(xs) == xs
    decreases |xs|
  {
    if |xs| > 0 {
      DropEmptyKeepsAll(xs[1..]);
      assert xs == [xs[0]] + xs[1..];
    }
  }

  /** Nothing survives the filter exactly when every element is empty. */
  lemma {:induction false} DropEmptyNothing(xs: seq<string>)
    ensures DropEmpty(xs) == [] <==> forall i :: 0 <= i < |xs| ==> xs[i] == []
    decreases |xs|
  {
    if |xs| > 0 {
      DropEmptyNothing(xs[1..]);
      if forall i :: 0 <= i < |xs| ==> xs[i] == [] {
        assert forall i :: 0 <= i < |xs[1..]| ==> xs[1..][i] == xs[i + 1];
      } else {
        var i :| 0 <= i < |xs| && xs[i] != [];
        if i > 0 { assert xs[1..][i - 1] == xs[i]; }
      }
    }
  }

  // ---------------------------------------------------------------------------
  // The whole chain
  // ---------------------------------------------------------------------------

  /** `response.data.suggestions || ""`: an absent or empty field reads as "". */
  function RawSuggestions(field: Option<string>): (r: string)
    ensures field.Some? && field.value != "" ==> r == field.value
    ensures field.None? ==> r == ""
  {
    match field
    case Some(s) => s
    case None => ""
  }

  /** `suggestionArray` (lines 46-49). */
  function SuggestionArray(raw: string): (r: seq<string>)
    ensures |r| <= |Split(raw)|
    ensures forall i :: 0 <= i < |r| ==> |r[i]| > 0
  {
    DropEmpty(TrimAll(Split(raw)))
  }

  /**
   * Every suggestion is non-empty, already trimmed, and holds neither a
   * newline nor ". ": each occurrence was consumed as a separator.
   */
  lemma SuggestionsAreClean(raw: string)
    ensures forall x :: x in SuggestionArray(raw) ==> |x| > 0 && Trim(x) == x && SeparatorFree(x)
  {
    var pieces := Split(raw);
    var trimmed := TrimAll(pieces);
    SplitPiecesAreSeparatorFree(raw);
    DropEmptyMembers(trimmed);
    forall i | 0 <= i < |trimmed| ensures Trim(trimmed[i]) == trimmed[i] && SeparatorFree(trimmed[i]) {
      assert pieces[i] in pieces;
      TrimIdempotent(pieces[i]);
      TrimKeepsSeparatorFree(pieces[i]);
    }
  }

  /** Every element is a trimmed piece of the split text, in the split's order. */
  lemma SuggestionArrayIsFilteredPieces(raw: string)
    ensures |SuggestionArray(raw)| <= |Split(raw)|
    ensures forall x :: x in SuggestionArray(raw) ==> exists p :: p in Split(raw) && Trim(p) == x
  {
    DropEmptyMembers(TrimAll(Split(raw)));
    forall x | x in SuggestionArray(raw) ensures exists p :: p in Split(raw) && Trim(p) == x {
      var t := TrimAll(Split(raw));
      var i :| 0 <= i < |t| && t[i] == x;
      assert Split(raw)[i] in Split(raw);
    }
  }

  /** Whitespace, newlines and ". " separators only. */
  predicate Blank(s: string) {
    forall i :: 0 <= i < |s| ==> IsWs(s[i]) || StartsDotSpace(s[i..])
  }

  lemma BlankSuffix(s: string, k: nat)
    requires Blank(s) && k <= |s|
    ensures Blank(s[k..])
  {
    var t := s[k..];
    forall i | 0 <= i < |t| ensures IsWs(t[i]) || StartsDotSpace(t[i..]) {
      assert t[i] == s[i + k];
      assert t[i..] == s[i + k..];
    }
  }

  lemma {:induction false} BlankPiecesAreWhitespace(s: string)
    requires Blank(s)
    ensures forall p :: p in Split(s) ==> AllWs(p)
    decreases |s|
  {
    if |s| == 0 {
    } else if s[0] == '\n' {
      BlankSuffix(s, 1);
      BlankPiecesAreWhitespace(s[1..]);
    } else if StartsDotSpace(s) {
      BlankSuffix(s, 2);
      BlankPiecesAreWhitespace(s[2..]);
    } else {
      BlankSuffix(s, 1);
      BlankPiecesAreWhitespace(s[1..]);
      var rest := Split(s[1..]);
      assert s[0..] == s;
      assert IsWs(s[0]);
      assert rest[0] in rest;
      var p := [s[0]] + rest[0];
      assert AllWs(p) by { forall i | 0 <= i < |p| ensures IsWs(p[i]) { if i > 0 { assert p[i] == rest[0][i - 1]; } } }
      forall q | q in Split(s) ensures AllWs(q) {
        if q != p { assert q in rest[1..]; assert q in rest; }
      }
    }
  }

  lemma TrimOfWhitespace(s: string)
    requires AllWs(s)
    ensures Trim(s) == []
  {
    assert FramedAt(s, [], 0);
    TrimUnique(s, []);
  }

  /** The result is empty exactly when every split piece is whitespace only. */
  lemma NothingSurvivesIff(raw: string)
    ensures SuggestionArray(raw) == [] <==> forall p :: p in Split(raw) ==> AllWs(p)
  {
    var pieces := Split(raw);
    var t := TrimAll(pieces);
    DropEmptyNothing(t);
    if forall p :: p in pieces ==> AllWs(p) {
      forall i | 0 <= i < |t| ensures t[i] == [] {
        assert pieces[i] in pieces;
        TrimOfWhitespace(pieces[i]);
      }
    }
    if SuggestionArray(raw) == [] {
      forall p | p in pieces ensures AllWs(p) {
        var i :| 0 <= i < |pieces| && pieces[i] == p;
        assert t[i] == [];
        TrimFrames(p);
        var k :| FramedAt(p, [], k);
      }
    }
  }

  // ---------------------------------------------------------------------------
  // The numbering test /^[0-9]+\./ (line 51)
  // ---------------------------------------------------------------------------

  /** Length of the longest all-digit prefix. */
  function DigitRun(s: string): (n: nat)
    ensures n <= |s|
    ensures forall i :: 0 <= i < n ==> IsDigit(s[i])
    ensures n < |s| ==> !IsDigit(s[n])
    decreases |s|
  {
    if |s| > 0 && IsDigit(s[0]) then 1 + DigitRun(s[1..]) else 0
  }

  /** Greedy scan: the digit run is non-empty and a '.' follows it. */
  predicate MatchesOrdinal(s: string)
    ensures MatchesOrdinal(s) ==> 2 <= |s| && IsDigit(s[0])
  {
    var n := DigitRun(s);
    1 <= n < |s| && s[n] == '.'
  }

  /** The regular expression's meaning: some non-empty all-digit prefix is followed by '.'. */
  ghost predicate OrdinalPrefix(s: string) {
    exists k :: 1 <= k < |s| && s[k] == '.' && forall i :: 0 <= i < k ==> IsDigit(s[i])
  }

  lemma MatchesOrdinalIff(s: string)
    ensures MatchesOrdinal(s) <==> OrdinalPrefix(s)
  {
    var n := DigitRun(s);
    if OrdinalPrefix(s) {
      var k :| 1 <= k < |s| && s[k] == '.' && forall i :: 0 <= i < k ==> IsDigit(s[i]);
      assert n == k;
    }
  }

  /** `/^[0-9]+\./.test(suggestionArray[0] || "")`. */
  predicate IsNumbered(items: seq<string>)
    ensures IsNumbered(items) ==> |items| > 0 && 2 <= |items[0]| && IsDigit(items[0][0])
  {
    MatchesOrdinal(if |items| > 0 then items[0] else "")
  }

  /** The list is numbered exactly when it has a first item and that item starts with digits and a '.'. */
  lemma IsNumberedIff(items: seq<string>)
    ensures IsNumbered(items) <==> |items| > 0 && OrdinalPrefix(items[0])
  {
    MatchesOrdinalIff(if |items| > 0 then items[0] else "");
  }

  /** Absent, empty, or blank text yields no suggestions and an unnumbered list. */
  lemma BlankTextYieldsNothing(raw: string)
    requires Blank(raw)
    ensures SuggestionArray(raw) == [] && !IsNumbered(SuggestionArray(raw))
  {
    BlankPiecesAreWhitespace(raw);
    NothingSurvivesIff(raw);
  }

  lemma AbsentSuggestionsYieldNothing(field: Option<string>)
    requires field.None? || field == Some("")
    ensures SuggestionArray(RawSuggestions(field)) == []
    ensures !IsNumbered(SuggestionArray(RawSuggestions(field)))
  {
    BlankTextYieldsNothing("");
  }

  /**
   * When every piece of the split is already non-empty and trimmed, trimming
   * and filtering change nothing: the suggestions are exactly the pieces.
   */
  lemma CleanPiecesSurvive(raw: string)
    requires forall p :: p in Split(raw) ==> |p| > 0 && Bordered(p)
    ensures SuggestionArray(raw) == Split(raw)
  {
    var pieces := Split(raw);
    var trimmed := TrimAll(pieces);
    forall i | 0 <= i < |pieces| ensures trimmed[i] == pieces[i] {
      assert pieces[i] in pieces;
      assert FramedAt(pieces[i], pieces[i], 0);
      TrimUnique(pieces[i], pieces[i]);
    }
    assert trimmed == pieces;
    DropEmptyKeepsAll(pieces);
  }

  /**
   * A text written as clean, separator-free pieces joined by separators
   * normalises to exactly those pieces.
   */
  lemma CleanDecompositionSurvives(raw: string, pieces: seq<string>, seps: seq<string>)
    requires |pieces| == |seps| + 1
    requires forall sep :: sep in seps ==> IsSeparator(sep)
    requires forall p :: p in pieces ==> SeparatorFree(p) && |p| > 0 && Bordered(p)
    requires Join(pieces, seps) == raw
    ensures SuggestionArray(raw) == pieces
  {
    SplitUnique(raw, pieces, seps);
    CleanPiecesSurvive(raw);
  }

  /** Digits only: no separator can start inside `d`. */
  lemma DigitsAreSeparatorFree(d: string)
    requires forall i :: 0 <= i < |d| ==> IsDigit(d[i])
    ensures SeparatorFree(d) && Bordered(d) && !MatchesOrdinal(d)
  {
    assert DigitRun(d) == |d|;
  }

  lemma SplitOrdinalLine(d: string, t: string)
    requires SeparatorFree(d) && SeparatorFree(t)
    ensures Split(d + ". " + t) == [d, t]
  {
    var s := d + ". " + t;
    assert [d, t][1..] == [t];
    assert Join([d, t], [". "]) == s;
    forall p | p in [d, t] ensures SeparatorFree(p) { }
    SplitUnique(s, [d, t], [". "]);
  }

  /** Two "N. text" lines: each number and each text becomes an item of its own. */
  lemma NumberedLinesAreSplit(d1: string, t1: string, d2: string, t2: string)
    requires |d1| > 0 && forall i :: 0 <= i < |d1| ==> IsDigit(d1[i])
    requires |d2| > 0 && forall i :: 0 <= i < |d2| ==> IsDigit(d2[i])
    requires |t1| > 0 && Bordered(t1) && SeparatorFree(t1)
    requires |t2| > 0 && Bordered(t2) && SeparatorFree(t2)
    ensures SuggestionArray(d1 + ". " + t1 + "\n" + d2 + ". " + t2) == [d1, t1, d2, t2]
    ensures !IsNumbered(SuggestionArray(d1 + ". " + t1 + "\n" + d2 + ". " + t2))
  {
    DigitsAreSeparatorFree(d1);
    DigitsAreSeparatorFree(d2);
    var pieces := [d1, t1, d2, t2];
    assert pieces[1..] == [t1, d2, t2] && pieces[1..][1..] == [d2, t2] && pieces[1..][1..][1..] == [t2];
    assert Join(pieces, [". ", "\n", ". "]) == d1 + ". " + t1 + "\n" + d2 + ". " + t2;
    CleanDecompositionSurvives(d1 + ". " + t1 + "\n" + d2 + ". " + t2, pieces, [". ", "\n", ". "]);
  }

  /**
   * An ordinary numbered line "N. text" is cut at its ". ": the number becomes
   * an item of its own, and since "N" has no '.' the list is not numbered.
   */
  lemma NumberedLineIsSplit(d: string, t: string)
    requires |d| > 0 && forall i :: 0 <= i < |d| ==> IsDigit(d[i])
    requires |t| > 0 && Bordered(t) && SeparatorFree(t)
    ensures SuggestionArray(d + ". " + t) == [d, t]
    ensures !IsNumbered(SuggestionArray(d + ". " + t))
  {
    DigitsAreSeparatorFree(d);
    SplitOrdinalLine(d, t);
    CleanPiecesSurvive(d + ". " + t);
    assert !MatchesOrdinal([d, t][0]);
  }
}
