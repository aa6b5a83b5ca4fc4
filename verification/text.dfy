/**
 * The Python string operations the question builder relies on, over `seq<char>`:
 * `str.split()`, `" ".join(...)`, `str.strip()`, substring containment (`in`),
 * and the first case-insensitive occurrence that a compiled, escaped,
 * `re.IGNORECASE` pattern finds and `sub(..., count=1)` replaces.
 */
module Text {
  import opened Wrappers

  /** The characters Python's `str.isspace()` accepts; `split()` and `strip()` use this set. */
  predicate IsSpace(c: char) {
    var n := c as int;
    || (9 <= n <= 13) || (28 <= n <= 32) || n == 0x85 || n == 0xA0 || n == 0x1680
    || (0x2000 <= n <= 0x200A) || n == 0x2028 || n == 0x2029 || n == 0x202F
    || n == 0x205F || n == 0x3000
  }

  /** A run of characters with no whitespace in it (possibly empty). */
  predicate NoSpace(s: string) {
    forall i :: 0 <= i < |s| ==> !IsSpace(s[i])
  }

  /** A word as `str.split()` produces it: nonempty and free of whitespace. */
  predicate IsWord(w: string) {
    |w| > 0 && NoSpace(w)
  }

  predicate AllWords(ws: seq<string>) {
    forall i :: 0 <= i < |ws| ==> IsWord(ws[i])
  }

  predicate AllSpace(s: string) {
    forall i :: 0 <= i < |s| ==> IsSpace(s[i])
  }

  // ---------------------------------------------------------------------------
  // join and split

  /** `sep.join(ws)`. */
  function Join(ws: seq<string>, sep: string): string
  {
    if |ws| == 0 then ""
    else if |ws| == 1 then ws[0]
    else ws[0] + sep + Join(ws[1..], sep)
  }

  /** Length of the leading non-whitespace run of `s`. */
  function WordPrefixLength(s: string): (n: nat)
    ensures n <= |s|
    ensures NoSpace(s[..n])
    ensures n < |s| ==> IsSpace(s[n])
  {
    if |s| == 0 || IsSpace(s[0]) then 0
    else
      var n := 1 + WordPrefixLength(s[1..]);
      assert s[..n] == [s[0]] + s[1..][..n - 1];
      n
  }

  /** `s.split()` with no separator: the maximal whitespace-free runs of `s`, in order. */
  function Split(s: string): (ws: seq<string>)
    ensures AllWords(ws)
    ensures AllSpace(s) <==> ws == []
    decreases |s|
  {
    if |s| == 0 then []
    else if IsSpace(s[0]) then
      var ws := Split(s[1..]);
      assert AllSpace(s) <==> AllSpace(s[1..]) by {
        if AllSpace(s[1..]) {
          forall i | 0 <= i < |s| ensures IsSpace(s[i]) {
            if i > 0 { assert s[i] == s[1..][i - 1]; }
          }
        }
      }
      ws
    else
      var n := WordPrefixLength(s);
      [s[..n]] + Split(s[n..])
  }

  /** The last two elements of `ws`, or all of them when there are fewer: Python's `ws[-2:]`. */
  function LastTwo<T>(ws: seq<T>): (r: seq<T>)
    ensures |r| == if |ws| < 2 then |ws| else 2
    ensures r == ws[|ws| - |r|..]
  {
    if |ws| <= 2 then ws else ws[|ws| - 2..]
  }

  lemma {:induction false} WordPrefixLengthOfWord(w: string, t: string)
    requires NoSpace(w)
    requires |t| == 0 || IsSpace(t[0])
    ensures WordPrefixLength(w + t) == |w|
  {
    if |w| > 0 {
      assert (w + t)[0] == w[0];
      assert (w + t)[1..] == w[1..] + t;
      assert NoSpace(w[1..]) by {
        forall i | 0 <= i < |w[1..]| ensures !IsSpace(w[1..][i]) {
          assert w[1..][i] == w[i + 1];
        }
      }
      WordPrefixLengthOfWord(w[1..], t);
    } else {
      assert w + t == t;
    }
  }

  /** Splitting words joined by single spaces gives the words back. */
  lemma {:induction false} SplitJoin(ws: seq<string>)
    requires AllWords(ws)
    ensures Split(Join(ws, " ")) == ws
  {
    if |ws| == 1 {
      var w := ws[0];
      WordPrefixLengthOfWord(w, "");
      assert w + "" == w;
      assert w[..|w|] == w && w[|w|..] == "";
    } else if |ws| > 1 {
      var w, rest := ws[0], Join(ws[1..], " ");
      var s := w + " " + rest;
      assert s == w + (" " + rest);
      WordPrefixLengthOfWord(w, " " + rest);
      assert s[..|w|] == w;
      assert s[|w|..] == " " + rest;
      assert (" " + rest)[1..] == rest;
      SplitJoin(ws[1..]);
      assert ws == [w] + ws[1..];
    }
  }

  // ---------------------------------------------------------------------------
  // strip

  function LeadingSpaces(s: string): (n: nat)
    ensures n <= |s|
    ensures AllSpace(s[..n])
    ensures n < |s| ==> !IsSpace(s[n])
  {
    if |s| > 0 && IsSpace(s[0]) then
      var n := 1 + LeadingSpaces(s[1..]);
      assert s[..n] == [s[0]] + s[1..][..n - 1];
      n
    else 0
  }

  function TrailingSpaces(s: string): (n: nat)
    ensures n <= |s|
    ensures AllSpace(s[|s| - n..])
    ensures n < |s| ==> !IsSpace(s[|s| - 1 - n])
  {
    if |s| > 0 && IsSpace(s[|s| - 1]) then
      var init := s[..|s| - 1];
      var m := TrailingSpaces(init);
      var tail := s[|s| - 1 - m..];
      assert AllSpace(tail) by {
        forall i | 0 <= i < |tail| ensures IsSpace(tail[i]) {
          if i < m {
            assert tail[i] == s[|s| - 1 - m + i] == init[|init| - m + i];
            assert init[|init| - m..][i] == init[|init| - m + i];
          }
        }
      }
      assert m + 1 < |s| ==> s[|s| - 1 - (m + 1)] == init[|init| - 1 - m];
      m + 1
    else 0
  }

  /** `r` is `s` less a run of whitespace at its start and another at its end. */
  predicate Trims(s: string, r: string) {
    exists a :: 0 <= a && a + |r| <= |s| && s[a..a + |r|] == r && AllSpace(s[..a]) && AllSpace(s[a + |r|..])
  }

  /** `s.strip()`: `s` with its leading and trailing whitespace removed. */
  function Strip(s: string): (r: string)
    ensures |r| <= |s|
    ensures r == "" || (!IsSpace(r[0]) && !IsSpace(r[|r| - 1]))
    ensures |s| > 0 && !IsSpace(s[0]) && !IsSpace(s[|s| - 1]) ==> r == s
    ensures r == "" <==> AllSpace(s)
    ensures Trims(s, r)
  {
    var lead := LeadingSpaces(s);
    var rest := s[lead..];
    var trail := TrailingSpaces(rest);
    assert lead == |s| ==> AllSpace(s) by {
      if lead == |s| { assert s[..lead] == s; }
    }
    assert lead < |s| ==> !AllSpace(s);
    var r := rest[..|rest| - trail];
    StripFrame(s, lead, rest, trail, r);
    r
  }

  /** The middle of `s` between a leading and a trailing whitespace run trims `s`. */
  lemma StripFrame(s: string, lead: nat, rest: string, trail: nat, r: string)
    requires lead <= |s| && rest == s[lead..] && AllSpace(s[..lead])
    requires trail <= |rest| && AllSpace(rest[|rest| - trail..])
    requires r == rest[..|rest| - trail]
    ensures Trims(s, r)
  {
    assert r == s[lead..lead + |r|];
    assert rest[|rest| - trail..] == s[lead + |r|..];
  }

  // ---------------------------------------------------------------------------
  // substring containment

  predicate OccursAt(s: string, sub: string, i: nat) {
    i + |sub| <= |s| && s[i..i + |sub|] == sub
  }

  /** Python's `sub in s`. */
  predicate Contains(s: string, sub: string) {
    exists i :: 0 <= i <= |s| - |sub| && OccursAt(s, sub, i)
  }

  // ---------------------------------------------------------------------------
  // case-insensitive first match

  /** ASCII lower-casing, standing in for the case folding of `re.IGNORECASE`. */
  function Lower(c: char): char {
    if 'A' <= c <= 'Z' then (c as int + 32) as char else c
  }

  predicate EqualIgnoringCase(a: string, b: string) {
    |a| == |b| && forall k :: 0 <= k < |a| ==> Lower(a[k]) == Lower(b[k])
  }

  /** The escaped literal `pat` matches `text` at position `i`, ignoring case. */
  predicate MatchesAt(text: string, pat: string, i: nat) {
    i + |pat| <= |text| && EqualIgnoringCase(text[i..i + |pat|], pat)
  }

  /** `i` is the leftmost position at which `pat` matches `text`. */
  predicate FirstMatchAt(text: string, pat: string, i: nat) {
    MatchesAt(text, pat, i) && forall j :: 0 <= j < i ==> !MatchesAt(text, pat, j)
  }

  function FirstMatchFrom(text: string, pat: string, from: nat): (r: Option<nat>)
    ensures r.Some? ==> from <= r.value && MatchesAt(text, pat, r.value)
    ensures forall j: nat :: from <= j && (r.None? || j < r.value) ==> !MatchesAt(text, pat, j)
    decreases |text| - from
  {
    if from + |pat| > |text| then None
    else if MatchesAt(text, pat, from) then Some(from)
    else FirstMatchFrom(text, pat, from + 1)
  }

  /** Where a case-insensitive search for `pat` first succeeds, if anywhere. */
  function FirstMatch(text: string, pat: string): (r: Option<nat>)
    ensures r.Some? ==> FirstMatchAt(text, pat, r.value)
    ensures r.None? <==> forall j: nat :: !MatchesAt(text, pat, j)
  {
    FirstMatchFrom(text, pat, 0)
  }

  /**
   * `re.compile(re.escape(pat), re.IGNORECASE).sub(repl, text, count=1)` for a
   * replacement free of backslashes: the first case-insensitive occurrence of
   * `pat` becomes `repl`; with no occurrence the text comes back unchanged.
   */
  function ReplaceFirstIgnoringCase(text: string, pat: string, repl: string): (r: string)
    ensures (forall j: nat :: !MatchesAt(text, pat, j)) ==> r == text
    ensures forall i: nat :: FirstMatchAt(text, pat, i) ==>
      && |r| == |text| - |pat| + |repl|
      && r[..i] == text[..i]
      && r[i..i + |repl|] == repl
      && r[i + |repl|..] == text[i + |pat|..]
  {
    match FirstMatch(text, pat)
    case None => text
    case Some(i) =>
      assert forall j: nat :: FirstMatchAt(text, pat, j) ==> j == i;
      text[..i] + repl + text[i + |pat|..]
  }

  /**
   * Putting the replaced phrase back where the replacement sits gives the
   * original text, up to the case of that span.
   */
  lemma RestoreReplaced(text: string, pat: string, repl: string, i: nat)
    requires FirstMatchAt(text, pat, i)
    ensures var r := ReplaceFirstIgnoringCase(text, pat, repl);
      && EqualIgnoringCase(r[..i] + pat + r[i + |repl|..], text)
      && r[..i] + text[i..i + |pat|] + r[i + |repl|..] == text
  {
    var r := ReplaceFirstIgnoringCase(text, pat, repl);
    var before, span, after := text[..i], text[i..i + |pat|], text[i + |pat|..];
    assert r[..i] == before && r[i + |repl|..] == after;
    assert text == before + span + after;
    SwapIgnoringCase(before, pat, span, after);
  }

  lemma SwapIgnoringCase(before: string, x: string, y: string, after: string)
    requires EqualIgnoringCase(x, y)
    ensures EqualIgnoringCase(before + x + after, before + y + after)
  {
  }
}
