/**
 * Finding the revision a language file is compatible with: the token after
 * a `// cset:` marker, as matched by the pattern
 * `//[ \t]*cset:[ \t]*([0-9A-F[a-f]*)`, written out here by hand.
 */
module CsetMarker {
  import opened Wrappers
  import opened Text

  /** The class `[ \t]`. */
  predicate IsBlank(c: char) {
    c == ' ' || c == '\t'
  }

  /** The class `[0-9A-F[a-f]`, which admits a literal `[` as well. */
  predicate IsCsetChar(c: char) {
    ('0' <= c <= '9') || ('A' <= c <= 'F') || ('a' <= c <= 'f') || c == '['
  }

  /** `[ \t]*` from position `i`: the end of the longest run of blanks there. */
  function BlanksEnd(s: string, i: nat): (j: nat)
    requires i <= |s|
    ensures i <= j <= |s|
    ensures forall k :: i <= k < j ==> IsBlank(s[k])
    ensures j == |s| || !IsBlank(s[j])
    decreases |s| - i
  {
    if i < |s| && IsBlank(s[i]) then BlanksEnd(s, i + 1) else i
  }

  /** `[0-9A-F[a-f]*` from position `i`: the end of the longest run of token characters there. */
  function TokenEnd(s: string, i: nat): (j: nat)
    requires i <= |s|
    ensures i <= j <= |s|
    ensures forall k :: i <= k < j ==> IsCsetChar(s[k])
    ensures j == |s| || !IsCsetChar(s[j])
    decreases |s| - i
  {
    if i < |s| && IsCsetChar(s[i]) then TokenEnd(s, i + 1) else i
  }

  /**
   * The greedy regex semantics of the pattern, stated declaratively: a match
   * starting at `p` whose `cset:` sits at `i` and whose captured group
   * `token` starts at `j`. Both `[ \t]*` runs and the group are as long as
   * they can be.
   */
  ghost predicate CapturesAt(line: string, p: nat, i: nat, j: nat, token: string) {
    p + 2 <= i && i + 5 <= j && j + |token| <= |line|
    && line[p..p + 2] == "//"
    && (forall k :: p + 2 <= k < i ==> IsBlank(line[k]))
    && line[i..i + 5] == "cset:"
    && (forall k :: i + 5 <= k < j ==> IsBlank(line[k]))
    && (j == |line| || !IsBlank(line[j]))
    && line[j..j + |token|] == token
    && (forall k :: 0 <= k < |token| ==> IsCsetChar(token[k]))
    && (j + |token| == |line| || !IsCsetChar(line[j + |token|]))
  }

  /** The group the pattern captures when anchored at position `p`, if it matches there. */
  function MatchAt(line: string, p: nat): (token: Option<string>)
    requires p <= |line|
    ensures token.Some? ==> forall k :: 0 <= k < |token.value| ==> IsCsetChar(token.value[k])
  {
    if p + 2 <= |line| && line[p] == '/' && line[p + 1] == '/' then
      var i := BlanksEnd(line, p + 2);
      if i + 5 <= |line| && line[i] == 'c' && line[i + 1] == 's' && line[i + 2] == 'e'
         && line[i + 3] == 't' && line[i + 4] == ':' then
        var j := BlanksEnd(line, i + 5);
        Some(line[j..TokenEnd(line, j)])
      else None
    else None
  }

  /** Every group MatchAt returns is one the pattern captures. */
  lemma MatchAtSound(line: string, p: nat)
    requires p <= |line| && MatchAt(line, p).Some?
    ensures exists i, j :: CapturesAt(line, p, i, j, MatchAt(line, p).value)
  {
    var i := BlanksEnd(line, p + 2);
    var j := BlanksEnd(line, i + 5);
    assert CapturesAt(line, p, i, j, MatchAt(line, p).value);
  }

  /** Every group the pattern captures at `p` is the one MatchAt returns. */
  lemma MatchAtComplete(line: string, p: nat, i: nat, j: nat, token: string)
    requires CapturesAt(line, p, i, j, token)
    ensures MatchAt(line, p) == Some(token)
  {
    assert line[i] == 'c';
    assert BlanksEnd(line, p + 2) == i;
    assert BlanksEnd(line, i + 5) == j;
    assert TokenEnd(line, j) == j + |token|;
  }

  /** A successful search: where the match starts, and the group it captured. */
  datatype Match = Match(start: nat, token: string)

  /** `re.search` from position `p` on: the leftmost position where the pattern matches. */
  function SearchFrom(line: string, p: nat): (m: Option<Match>)
    requires p <= |line|
    ensures m.Some? ==>
      p <= m.value.start <= |line| && MatchAt(line, m.value.start) == Some(m.value.token)
      && forall q :: p <= q < m.value.start ==> MatchAt(line, q).None?
    ensures m.None? ==> forall q :: p <= q <= |line| ==> MatchAt(line, q).None?
    decreases |line| - p
  {
    match MatchAt(line, p)
    case Some(token) => Some(Match(p, token))
    case None => if p == |line| then None else SearchFrom(line, p + 1)
  }

  /** `cset_pattern.search(line)`. */
  function Search(line: string): (m: Option<Match>)
    ensures m.Some? ==>
      m.value.start <= |line| && MatchAt(line, m.value.start) == Some(m.value.token)
      && forall q :: 0 <= q < m.value.start ==> MatchAt(line, q).None?
    ensures m.None? ==> forall q :: 0 <= q <= |line| ==> MatchAt(line, q).None?
  {
    SearchFrom(line, 0)
  }

  /** A line carries a changeset when its leftmost match captured more than 4 characters. */
  predicate HasCset(line: string) {
    var m := Search(line);
    m.Some? && |m.value.token| > 4
  }

  /** The position of the first line satisfying `qualifies`, or the number of lines when none does. */
  function FirstWhere(lines: seq<string>, qualifies: string -> bool): (n: nat)
    ensures n <= |lines|
    ensures forall k :: 0 <= k < n ==> !qualifies(lines[k])
    ensures n < |lines| ==> qualifies(lines[n])
  {
    if lines == [] || qualifies(lines[0]) then 0
    else
      var rest := FirstWhere(lines[1..], qualifies);
      assert forall k :: 1 <= k < |lines| ==> lines[k] == lines[1..][k - 1];
      rest + 1
  }

  /** Lines added after the first qualifying one do not move it. */
  lemma FirstWhereAppend(a: seq<string>, b: seq<string>, qualifies: string -> bool)
    requires FirstWhere(a, qualifies) < |a|
    ensures FirstWhere(a + b, qualifies) == FirstWhere(a, qualifies)
  {
    var n := FirstWhere(a, qualifies);
    assert (a + b)[n] == a[n];
    assert forall k :: 0 <= k < n ==> (a + b)[k] == a[k];
  }

  /**
   * The changeset `get_cset` reports for a file: the token of the first line
   * that carries one, or None when no line does. A reported changeset is
   * longer than 4 characters, all drawn from `[0-9A-F[a-f]`.
   */
  function FirstCset(lines: seq<string>): (cset: Option<string>)
    ensures cset.Some? ==>
      |cset.value| > 4 && forall k :: 0 <= k < |cset.value| ==> IsCsetChar(cset.value[k])
    ensures cset.None? <==> forall k :: 0 <= k < |lines| ==> !HasCset(lines[k])
    ensures cset.Some? ==>
      exists n :: 0 <= n < |lines| && HasCset(lines[n])
        && (forall k :: 0 <= k < n ==> !HasCset(lines[k]))
        && cset.value == Search(lines[n]).value.token
  {
    var n := FirstWhere(lines, HasCset);
    if n < |lines| then
      assert HasCset(lines[n]) && forall k :: 0 <= k < n ==> !HasCset(lines[k]);
      Some(Search(lines[n]).value.token)
    else None
  }

  /** Once a line carries a changeset, the lines after it are never looked at. */
  lemma FirstCsetIgnoresLaterLines(a: seq<string>, b: seq<string>)
    requires FirstCset(a).Some?
    ensures FirstCset(a + b) == FirstCset(a)
  {
    FirstWhereAppend(a, b, HasCset);
    var n := FirstWhere(a, HasCset);
    assert (a + b)[n] == a[n];
  }

  /**
   * `get_cset`: scan the lines of an opened file, stopping at the first
   * changeset.
   */
  method GetCset(handle: seq<string>) returns (cset: Option<string>)
    ensures cset == FirstCset(handle)
  {
    for k := 0 to |handle|
      invariant forall j :: 0 <= j < k ==> !HasCset(handle[j])
    {
      var m := Search(handle[k]);
      if m.Some? && |m.value.token| > 4 {
        assert HasCset(handle[k]);
        assert FirstWhere(handle, HasCset) == k;
        return Some(m.value.token);
      }
    }
    assert FirstWhere(handle, HasCset) == |handle|;
    return None;
  }
}
