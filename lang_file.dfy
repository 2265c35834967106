/**
 * Reading the string names out of a language file: lines of the form
 * `NAME :value`, blank lines and `#` comments.
 */
module LangFile {
  import opened Wrappers
  import opened Text

  /**
   * `process_langline`: the string name a line declares, if any. A line is
   * skipped when it is only whitespace, when its first character is `#`, or
   * when it holds no `:`. Otherwise the name is the text before the first
   * `:`, without its trailing whitespace; leading whitespace is kept.
   */
  function ProcessLangLine(line: string): Option<string> {
    var stripped := RStrip(line);
    if |stripped| == 0 || stripped[0] == '#' then None
    else
      var i := Find(stripped, ':');
      if i < 0 then None
      else Some(RStrip(stripped[..i]))
  }

  /**
   * What `process_langline` computes, in terms of the original line: no
   * name exactly for blank lines, comments and lines without `:`; otherwise
   * a prefix of the line without `:` and without trailing whitespace, with
   * only whitespace between it and the first `:`.
   */
  lemma ProcessLangLineSpec(line: string)
    ensures ProcessLangLine(line).None? <==> AllSpace(line) || line[0] == '#' || ':' !in line
    ensures ProcessLangLine(line).Some? ==>
      var n, i := ProcessLangLine(line).value, Find(line, ':');
      n <= line && |n| <= i && AllSpace(line[|n|..i])
      && ':' !in n && (n == [] || !IsSpace(n[|n| - 1]))
  {
    var stripped := RStrip(line);
    StrippedLine(line);
    if |stripped| != 0 && stripped[0] != '#' {
      var i := Find(stripped, ':');
      if 0 <= i {
        NameBeforeColon(line, stripped, i);
      }
    }
  }

  /** What stripping a line keeps: its first character, and any `:`. */
  lemma StrippedLine(line: string)
    ensures RStrip(line) == [] <==> AllSpace(line)
    ensures RStrip(line) != [] ==> RStrip(line)[0] == line[0]
    ensures ':' in RStrip(line) <==> ':' in line
  {
    var r := RStrip(line);
    if AllSpace(line) {
      RStripUnique(line, []);
    }
    if ':' in line {
      RStripKeeps(line, Find(line, ':'));
      assert r[Find(line, ':')] == ':';
    }
  }

  /** The name cut from the stripped line before its first `:`. */
  lemma NameBeforeColon(line: string, stripped: string, i: int)
    requires stripped == RStrip(line) && i == Find(stripped, ':') && 0 <= i
    ensures var n := RStrip(stripped[..i]);
      n <= line && i == Find(line, ':') && |n| <= i && AllSpace(line[|n|..i])
      && ':' !in n && (n == [] || !IsSpace(n[|n| - 1]))
  {
    FindInPrefix(stripped, line, ':');
    var n := RStrip(stripped[..i]);
    assert stripped[..i] == line[..i];
    assert line[|n|..i] == stripped[..i][|n|..];
    assert n == line[..i][..|n|];
    assert ':' !in line[..i];
  }

  /**
   * Whitespace or a newline at the end of a line never changes its name, so
   * the pieces of `split('\n')` and the lines of a file iterator, which keep
   * their `'\n'`, give the same names.
   */
  lemma ProcessLangLineTrailingSpace(line: string, w: string)
    requires AllSpace(w)
    ensures ProcessLangLine(line + w) == ProcessLangLine(line)
  {
    RStripAppendSpace(line, w);
  }

  /**
   * A declaration `name:value` yields its name without trailing whitespace,
   * unless the name starts with `#`, which makes the whole line a comment.
   * An empty name (a line starting with `:`) is a name too.
   */
  lemma ProcessDeclaration(name: string, value: string)
    requires ':' !in name
    ensures ProcessLangLine(name + ":" + value)
         == if name != [] && name[0] == '#' then None else Some(RStrip(name))
  {
    var line := name + ":" + value;
    var head := name + ":";
    assert head <= line && line[|name|] == ':';
    var stripped := RStrip(line);
    RStripKeeps(line, |name|);
    assert head <= stripped;
    assert Find(stripped, ':') == |name| by {
      FindInPrefix(head, stripped, ':');
      assert Find(head, ':') == |name|;
    }
    assert stripped[..|name|] == name;
    assert stripped[0] == (if name == [] then ':' else name[0]);
  }

  /**
   * The loop both drivers run: apply `f` to every line, in order, and keep
   * the results that are present.
   */
  function FilterMap(lines: seq<string>, f: string -> Option<string>): (kept: seq<string>)
    ensures |kept| <= |lines|
  {
    if lines == [] then []
    else
      var init := FilterMap(lines[..|lines| - 1], f);
      match f(lines[|lines| - 1])
      case Some(n) => init + [n]
      case None => init
  }

  /** The positions of the lines `f` gives a result for, in increasing order. */
  function KeptLines(lines: seq<string>, f: string -> Option<string>): (idx: seq<nat>)
    ensures forall j :: 0 <= j < |idx| ==> idx[j] < |lines| && f(lines[idx[j]]).Some?
    ensures forall j, j' :: 0 <= j < j' < |idx| ==> idx[j] < idx[j']
    ensures forall k :: 0 <= k < |lines| && f(lines[k]).Some? ==> k in idx
  {
    if lines == [] then []
    else
      var init := KeptLines(lines[..|lines| - 1], f);
      if f(lines[|lines| - 1]).Some? then init + [|lines| - 1] else init
  }

  /**
   * Order is kept and duplicates are not merged: the j-th result comes from
   * the j-th line that gives one, and every such line contributes one.
   */
  lemma {:induction false} FilterMapInOrder(lines: seq<string>, f: string -> Option<string>)
    ensures |FilterMap(lines, f)| == |KeptLines(lines, f)|
    ensures forall j :: 0 <= j < |FilterMap(lines, f)| ==>
      f(lines[KeptLines(lines, f)[j]]) == Some(FilterMap(lines, f)[j])
  {
    if lines != [] {
      var init := lines[..|lines| - 1];
      FilterMapInOrder(init, f);
      forall j | 0 <= j < |KeptLines(init, f)|
        ensures lines[KeptLines(init, f)[j]] == init[KeptLines(init, f)[j]]
      {
      }
    }
  }

  /** Filtering distributes over concatenation of line sequences. */
  lemma {:induction false} FilterMapAppend(a: seq<string>, b: seq<string>, f: string -> Option<string>)
    ensures FilterMap(a + b, f) == FilterMap(a, f) + FilterMap(b, f)
    decreases |b|
  {
    if b == [] {
      assert a + b == a;
    } else {
      var b' := b[..|b| - 1];
      assert (a + b)[..|a + b| - 1] == a + b';
      FilterMapAppend(a, b', f);
    }
  }

  /** Lines that give no result contribute nothing. */
  lemma {:induction false} FilterMapOfNone(lines: seq<string>, f: string -> Option<string>)
    requires forall k :: 0 <= k < |lines| ==> f(lines[k]).None?
    ensures FilterMap(lines, f) == []
  {
    if lines != [] {
      FilterMapOfNone(lines[..|lines| - 1], f);
    }
  }

  /**
   * The names the loops of `get_langfile_rev` and `get_langfile` collect:
   * the name of every declaring line, in the order of the lines.
   */
  function StringNames(lines: seq<string>): (names: seq<string>)
    ensures |names| <= |lines|
  {
    FilterMap(lines, ProcessLangLine)
  }

  /** Inserting a line that declares nothing, anywhere, leaves the names unchanged. */
  lemma InsertNoise(a: seq<string>, noise: string, b: seq<string>)
    requires ProcessLangLine(noise).None?
    ensures StringNames(a + [noise] + b) == StringNames(a + b)
  {
    FilterMapAppend(a + [noise], b, ProcessLangLine);
    FilterMapAppend(a, b, ProcessLangLine);
    assert (a + [noise])[..|a|] == a;
  }

  /**
   * The two ways the script turns text into lines agree: `split('\n')` on
   * the text fetched for a revision, and iterating over the file on disk.
   */
  lemma {:induction false} SplitAgreesWithLines(s: string)
    ensures StringNames(Split(s, '\n')) == StringNames(Lines(s))
    decreases |s|
  {
    var i := Find(s, '\n');
    if i < 0 {
      assert Split(s, '\n') == [s];
      if s == [] {
        assert RStrip(s) == [];
        assert StringNames([s]) == StringNames([s][..0]);
      } else {
        assert Lines(s) == [s];
      }
    } else {
      var rest := s[i + 1..];
      var line := s[..i + 1];
      assert Split(s, '\n') == [s[..i]] + Split(rest, '\n');
      assert Lines(s) == [line] + Lines(rest);
      assert line == s[..i] + "\n";
      ProcessLangLineTrailingSpace(s[..i], "\n");
      SplitAgreesWithLines(rest);
      FilterMapAppend([s[..i]], Split(rest, '\n'), ProcessLangLine);
      FilterMapAppend([line], Lines(rest), ProcessLangLine);
      assert StringNames([s[..i]]) == StringNames([line]) by {
        assert [s[..i]][..0] == [line][..0];
      }
    }
  }

  /**
   * The loop both `get_langfile_rev` and `get_langfile` run over their
   * lines: append the name of every line that declares one.
   */
  method CollectNames(lines: seq<string>) returns (names: seq<string>)
    ensures names == StringNames(lines)
  {
    names := [];
    for k := 0 to |lines|
      invariant names == FilterMap(lines[..k], ProcessLangLine)
    {
      assert lines[..k + 1][..k] == lines[..k];
      var n := ProcessLangLine(lines[k]);
      if n.Some? {
        names := names + [n.value];
      }
    }
    assert lines[..|lines|] == lines;
  }

  /**
   * `get_langfile_rev`: the names in a language file as it was at revision
   * `rev`, whose text `fetch` retrieves (the `hg cat` call); a failed
   * retrieval gives no names at all.
   */
  method GetLangfileRev(fetch: (string, string) -> Option<string>, name: string, rev: string)
    returns (names: Option<seq<string>>)
    ensures fetch(name, rev).None? ==> names.None?
    ensures fetch(name, rev).Some? ==> names == Some(StringNames(Split(fetch(name, rev).value, '\n')))
  {
    var txt := fetch(name, rev);
    if txt.None? {
      return None;
    }
    var lines := CollectNames(Split(txt.value, '\n'));
    return Some(lines);
  }

  /** `get_langfile`: the names in the language file `fname` as it is on disk. */
  method GetLangfile(readFile: string -> string, fname: string) returns (names: seq<string>)
    ensures names == StringNames(Lines(readFile(fname)))
  {
    names := CollectNames(Lines(readFile(fname)));
  }
}
