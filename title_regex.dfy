/**
 * The regular expression `/<title>(.*?)<\/title>/i` as used by `String.prototype.match`
 * (a non-global regex, so the first match is returned).
 *
 * Matching semantics modelled:
 *  - the match starts at the leftmost position where the whole pattern can match;
 *  - the tag text is matched ASCII case-insensitively (without the `u` flag, a non-ASCII
 *    character never canonicalises to an ASCII one, so for the letters of `title` this is exact);
 *  - `(.*?)` is lazy: at a given start the shortest capture is taken;
 *  - `.` matches any character except the line terminators LF, CR, U+2028 and U+2029.
 */
module TitleRegex {
  import opened Optional

  /** The opening and closing tags, in lower case. */
  const OpenTag: string := "<title>"
  const CloseTag: string := "</title>"

  /**
   * A successful match: its start index, counted in Unicode scalar values (JavaScript counts
   * UTF-16 code units, which differ when an astral character comes first), and capture group 1.
   */
  datatype Match = Match(index: nat, capture: string)

  /** Lower-cases an ASCII upper-case letter and leaves every other character alone. */
  function AsciiLower(c: char): char {
    if 'A' <= c <= 'Z' then (c as int + 32) as char else c
  }

  /** The characters `.` refuses to match. */
  predicate IsLineTerminator(c: char) {
    c == '\n' || c == '\r' || c == '\U{2028}' || c == '\U{2029}'
  }

  /** `tag` (given in lower case) occurs in `s` at position `i`, ignoring ASCII case. */
  predicate TagAt(s: string, i: nat, tag: string) {
    i + |tag| <= |s| && forall j :: 0 <= j < |tag| ==> AsciiLower(s[i + j]) == tag[j]
  }

  /** `s[a..b]` exists and holds no line terminator, so `.*` can consume it. */
  predicate LineFree(s: string, a: nat, b: nat) {
    a <= b <= |s| && forall q :: a <= q < b ==> !IsLineTerminator(s[q])
  }

  /** The whole pattern matches at position `i` with a capture of length `k`. */
  predicate MatchAt(s: string, i: nat, k: nat) {
    TagAt(s, i, OpenTag) && LineFree(s, i + |OpenTag|, i + |OpenTag| + k) && TagAt(s, i + |OpenTag| + k, CloseTag)
  }

  /** No start position in `[a, b)` admits a match, whatever the capture length. */
  ghost predicate NoMatchBetween(s: string, a: nat, b: nat) {
    forall p: nat, k: nat :: a <= p < b ==> !MatchAt(s, p, k)
  }

  /** `m` is the match the regex engine reports: a match, leftmost, and with the shortest capture there. */
  ghost predicate IsFirstMatch(s: string, m: Match) {
    && MatchAt(s, m.index, |m.capture|)
    && m.capture == s[m.index + |OpenTag|..m.index + |OpenTag| + |m.capture|]
    && NoMatchBetween(s, 0, m.index)
    && (forall k: nat :: k < |m.capture| ==> !MatchAt(s, m.index, k))
  }

  /**
   * The lazy `(.*?)<\/title>` part: from position `j`, the first position `p` at which the
   * closing tag matches with no line terminator in `s[j..p]`.
   */
  function LazyClose(s: string, j: nat): (r: Option<nat>)
    requires j <= |s|
    ensures r.Some? ==> j <= r.value && LineFree(s, j, r.value) && TagAt(s, r.value, CloseTag)
    ensures r.Some? ==> forall q :: j <= q < r.value ==> !TagAt(s, q, CloseTag)
    ensures r.None? ==> forall p :: j <= p && LineFree(s, j, p) ==> !TagAt(s, p, CloseTag)
    decreases |s| - j
  {
    if TagAt(s, j, CloseTag) then Some(j)
    else if j < |s| && !IsLineTerminator(s[j]) then LazyClose(s, j + 1)
    else None
  }

  /** One attempt of the regex engine at start position `i`: the opening tag, then the lazy capture. */
  function TryAt(s: string, i: nat): (r: Option<Match>)
    requires i <= |s|
    ensures r.Some? ==> r.value.index == i && MatchAt(s, i, |r.value.capture|)
    ensures r.Some? ==> r.value.capture == s[i + |OpenTag|..i + |OpenTag| + |r.value.capture|]
    ensures r.Some? ==> forall k: nat :: k < |r.value.capture| ==> !MatchAt(s, i, k)
    ensures r.None? ==> forall k: nat :: !MatchAt(s, i, k)
  {
    if TagAt(s, i, OpenTag) then
      var close := LazyClose(s, i + |OpenTag|);
      if close.Some? then Some(Match(i, s[i + |OpenTag|..close.value])) else None
    else
      None
  }

  /** The regex engine's scan: try every start position from `i` on, leftmost first. */
  function Search(s: string, i: nat): (r: Option<Match>)
    requires i <= |s|
    ensures r.Some? ==> i <= r.value.index && MatchAt(s, r.value.index, |r.value.capture|)
    ensures r.Some? ==> r.value.capture == s[r.value.index + |OpenTag|..r.value.index + |OpenTag| + |r.value.capture|]
    ensures r.Some? ==> NoMatchBetween(s, i, r.value.index)
    ensures r.Some? ==> forall k: nat :: k < |r.value.capture| ==> !MatchAt(s, r.value.index, k)
    ensures r.None? ==> NoMatchBetween(s, i, |s| + 1)
    decreases |s| - i
  {
    var here := TryAt(s, i);
    if here.Some? then here
    else if i < |s| then Search(s, i + 1)
    else None
  }

  /** `content.match(/<title>(.*?)<\/title>/i)`: the first match, or `None` for JavaScript's `null`. */
  function Exec(s: string): (r: Option<Match>)
    ensures r.Some? ==> IsFirstMatch(s, r.value)
    ensures r.None? <==> forall p: nat, k: nat :: !MatchAt(s, p, k)
  {
    Search(s, 0)
  }

  /** The match the regex reports is unique: any first match is the one `Exec` returns. */
  lemma ExecIsTheFirstMatch(s: string, m: Match)
    requires IsFirstMatch(s, m)
    ensures Exec(s) == Some(m)
  {
    var r := Exec(s);
    assert MatchAt(s, m.index, |m.capture|);
    var n := r.value;
    assert MatchAt(s, n.index, |n.capture|);
    assert n.index == m.index;
    assert |n.capture| == |m.capture|;
  }

  /** A tag found inside a slice of `s` is found in `s` at the shifted position. */
  lemma TagInSlice(s: string, off: nat, t: string, q: nat, tag: string)
    requires off + |t| <= |s| && t == s[off..off + |t|]
    ensures TagAt(t, q, tag) ==> TagAt(s, off + q, tag)
  {
  }

  /**
   * What the lazy `.*?` guarantees of a reported capture: it holds no line terminator, and
   * no closing tag starts anywhere inside it (not even one running past its end).
   */
  lemma CaptureIsClean(s: string, m: Match)
    requires Exec(s) == Some(m)
    ensures forall q :: 0 <= q < |m.capture| ==> !IsLineTerminator(m.capture[q])
    ensures forall q :: m.index + |OpenTag| <= q < m.index + |OpenTag| + |m.capture| ==> !TagAt(s, q, CloseTag)
    ensures forall q: nat :: !TagAt(m.capture, q, CloseTag)
  {
    var start := m.index + |OpenTag|;
    forall q | 0 <= q < |m.capture|
      ensures !IsLineTerminator(m.capture[q])
    {
      assert m.capture[q] == s[start + q];
    }
    forall q | start <= q < start + |m.capture|
      ensures !TagAt(s, q, CloseTag)
    {
      assert TagAt(s, q, CloseTag) ==> MatchAt(s, m.index, q - start);
    }
    forall q: nat
      ensures !TagAt(m.capture, q, CloseTag)
    {
      TagInSlice(s, start, m.capture, q, CloseTag);
    }
  }

  /** A reported match sits between an opening and a closing tag, exactly as in the content. */
  lemma MatchIsTagged(s: string, m: Match)
    requires Exec(s) == Some(m)
    ensures m.index + |OpenTag| + |m.capture| + |CloseTag| <= |s|
    ensures TagAt(s, m.index, OpenTag)
    ensures s[m.index + |OpenTag|..m.index + |OpenTag| + |m.capture|] == m.capture
    ensures TagAt(s, m.index + |OpenTag| + |m.capture|, CloseTag)
  {
  }

  /**
   * A line terminator after an opening tag, with no closing tag before it, rules out a match
   * at that opening tag: `.` cannot step over it.
   */
  lemma LineTerminatorBlocksMatch(s: string, i: nat, p: nat)
    requires TagAt(s, i, OpenTag)
    requires i + |OpenTag| <= p < |s| && IsLineTerminator(s[p])
    requires forall q :: i + |OpenTag| <= q <= p ==> !TagAt(s, q, CloseTag)
    ensures forall k: nat :: !MatchAt(s, i, k)
  {
    forall k: nat
      ensures !MatchAt(s, i, k)
    {
      if i + |OpenTag| + k <= p {
        assert !TagAt(s, i + |OpenTag| + k, CloseTag);
      } else {
        assert !LineFree(s, i + |OpenTag|, i + |OpenTag| + k);
      }
    }
  }
}
