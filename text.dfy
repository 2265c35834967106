/**
 * The few pieces of Python's `str` and text-file behaviour that the
 * compatibility checker relies on: `rstrip()`, `find()`, `split('\n')`
 * and iterating over the lines of a file opened in text mode.
 */
module Text {

  /** Python's `str.isspace()`: exactly the characters `rstrip()` removes. */
  predicate IsSpace(c: char) {
    var n := c as int;
    (0x09 <= n <= 0x0D) || (0x1C <= n <= 0x20) || n == 0x85 || n == 0xA0 || n == 0x1680
    || (0x2000 <= n <= 0x200A) || n == 0x2028 || n == 0x2029 || n == 0x202F
    || n == 0x205F || n == 0x3000
  }

  predicate AllSpace(s: string) {
    forall k :: 0 <= k < |s| ==> IsSpace(s[k])
  }

  /**
   * `s.rstrip()`: the longest prefix of `s` that does not end in whitespace
   * and after which only whitespace follows.
   */
  function RStrip(s: string): (r: string)
    ensures r <= s
    ensures AllSpace(s[|r|..])
    ensures r == [] || !IsSpace(r[|r| - 1])
  {
    if s != [] && IsSpace(s[|s| - 1]) then RStrip(s[..|s| - 1]) else s
  }

  /** The three facts RStrip promises determine its result. */
  lemma RStripUnique(s: string, t: string)
    requires t <= s && AllSpace(s[|t|..])
    requires t == [] || !IsSpace(t[|t| - 1])
    ensures RStrip(s) == t
  {
  }

  /** Trailing whitespace added to a line is removed again by `rstrip()`. */
  lemma RStripAppendSpace(s: string, w: string)
    requires AllSpace(w)
    ensures RStrip(s + w) == RStrip(s)
  {
    var t := RStrip(s);
    assert (s + w)[|t|..] == s[|t|..] + w;
    RStripUnique(s + w, t);
  }

  /** A character that is not whitespace survives `rstrip()`. */
  lemma RStripKeeps(s: string, k: nat)
    requires k < |s| && !IsSpace(s[k])
    ensures k < |RStrip(s)|
  {
  }

  /** `s.find(c)`: the index of the first `c` in `s`, or -1 when there is none. */
  function Find(s: string, c: char): (i: int)
    ensures -1 <= i < |s|
    ensures i == -1 <==> c !in s
    ensures 0 <= i ==> s[i] == c && c !in s[..i]
  {
    if s == [] then -1
    else if s[0] == c then 0
    else
      var j := Find(s[1..], c);
      assert s[1..] == s[1..][..|s| - 1];
      if j < 0 then -1
      else
        assert s[..j + 1] == [s[0]] + s[1..][..j];
        j + 1
  }

  /** Searching a prefix that already holds `c` finds the same first `c`. */
  lemma FindInPrefix(t: string, s: string, c: char)
    requires t <= s && c in t
    ensures Find(t, c) == Find(s, c)
  {
  }

  /** Python's `sep.join(pieces)`. */
  function Join(pieces: seq<string>, sep: char): string {
    if pieces == [] then []
    else if |pieces| == 1 then pieces[0]
    else pieces[0] + [sep] + Join(pieces[1..], sep)
  }

  /**
   * `s.split(sep)` for a one-character separator: the pieces between
   * separators, always at least one, none holding `sep`, joined back to `s`.
   */
  function Split(s: string, sep: char): (pieces: seq<string>)
    ensures |pieces| >= 1
    ensures forall k :: 0 <= k < |pieces| ==> sep !in pieces[k]
    ensures Join(pieces, sep) == s
    decreases |s|
  {
    var i := Find(s, sep);
    if i < 0 then [s]
    else
      var rest := Split(s[i + 1..], sep);
      assert s == s[..i] + [sep] + s[i + 1..];
      assert ([s[..i]] + rest)[1..] == rest;
      [s[..i]] + rest
  }

  /** Splitting undoes joining pieces that hold no separator. */
  lemma {:induction false} SplitJoin(pieces: seq<string>, sep: char)
    requires |pieces| >= 1
    requires forall k :: 0 <= k < |pieces| ==> sep !in pieces[k]
    ensures Split(Join(pieces, sep), sep) == pieces
  {
    var s := Join(pieces, sep);
    if |pieces| == 1 {
      assert Find(s, sep) == -1;
    } else {
      var p := pieces[0];
      var rest := Join(pieces[1..], sep);
      assert s == p + [sep] + rest;
      assert s[..|p|] == p && s[|p|] == sep;
      assert Find(s, sep) == |p| by {
        FindInPrefix(p + [sep], s, sep);
        assert Find(p + [sep], sep) == |p|;
      }
      assert s[|p| + 1..] == rest;
      SplitJoin(pieces[1..], sep);
      assert pieces == [p] + pieces[1..];
    }
  }

  function Concat(lines: seq<string>): string {
    if lines == [] then [] else lines[0] + Concat(lines[1..])
  }

  /**
   * The lines a text-mode file iterator yields for contents `s`: each line
   * runs up to and including the next newline, and the rest after the last
   * newline, if not empty, is the last line. Together they spell out `s`.
   */
  function Lines(s: string): (lines: seq<string>)
    ensures Concat(lines) == s
    decreases |s|
  {
    if s == [] then []
    else
      var i := Find(s, '\n');
      if i < 0 then [s]
      else
        var rest := Lines(s[i + 1..]);
        assert s == s[..i + 1] + s[i + 1..];
        assert ([s[..i + 1]] + rest)[1..] == rest;
        [s[..i + 1]] + rest
  }

  /** No line is empty, and every line but the last ends in its only newline. */
  ghost predicate WellFormedLines(lines: seq<string>) {
    (forall k :: 0 <= k < |lines| ==> lines[k] != [] && '\n' !in lines[k][..|lines[k]| - 1])
    && (forall k :: 0 <= k < |lines| - 1 ==> lines[k][|lines[k]| - 1] == '\n')
  }

  lemma ConsLine(line: string, rest: seq<string>)
    requires line != [] && line[|line| - 1] == '\n' && '\n' !in line[..|line| - 1]
    requires WellFormedLines(rest)
    ensures WellFormedLines([line] + rest)
  {
    var lines := [line] + rest;
    assert forall k :: 1 <= k < |lines| ==> lines[k] == rest[k - 1];
  }

  /** The lines of a file are well formed. */
  lemma {:induction false} LinesShape(s: string)
    ensures WellFormedLines(Lines(s))
    decreases |s|
  {
    if s != [] {
      var i := Find(s, '\n');
      if i < 0 {
        assert Lines(s) == [s];
        assert s[..|s| - 1] <= s;
      } else {
        var line := s[..i + 1];
        var rest := Lines(s[i + 1..]);
        assert Lines(s) == [line] + rest;
        LinesShape(s[i + 1..]);
        assert line[..|line| - 1] == s[..i];
        ConsLine(line, rest);
      }
    }
  }
}
