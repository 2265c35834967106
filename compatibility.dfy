/**
 * The script's verdict: the names in the language file at the recorded
 * changeset must equal, as an ordered list, the names in the current file.
 */
module Compatibility {
  import opened Wrappers
  import opened Text
  import opened LangFile
  import opened CsetMarker

  /** How a run ends: a clean exit status, or an uncaught failure of `hg cat`. */
  datatype Outcome = Exit(status: nat) | RetrievalFailed

  /**
   * `sys.exit(min_comp_strings != now_strings)`: a boolean exit argument
   * becomes status 1 when the lists differ and 0 when they are equal.
   */
  function ExitStatus(minCompStrings: seq<string>, nowStrings: seq<string>): (status: nat)
    ensures status <= 1
    ensures status == 0 <==> minCompStrings == nowStrings
  {
    if minCompStrings != nowStrings then 1 else 0
  }

  /** Lists of names that differ in length, or hold the same names in another order, fail. */
  lemma OrderAndLengthMatter(a: seq<string>, b: seq<string>)
    requires |a| != |b| || (multiset(a) == multiset(b) && a != b)
    ensures ExitStatus(a, b) == 1
  {
  }

  /**
   * What a run of the script ends with, given its argument vector (the
   * program name first), the contents of files on disk and the `hg cat`
   * retrieval.
   */
  function Verdict(argv: seq<string>, readFile: string -> string,
                   fetch: (string, string) -> Option<string>): Outcome
  {
    if |argv| != 3 then Exit(1)
    else
      match FirstCset(Lines(readFile(argv[2])))
      case None => Exit(1)
      case Some(cset) =>
        match fetch(argv[1], cset)
        case None => RetrievalFailed
        case Some(txt) =>
          Exit(ExitStatus(StringNames(Split(txt, '\n')), StringNames(Lines(readFile(argv[1])))))
  }

  /**
   * A run passes exactly when there are two arguments, the second file
   * names a changeset, the language file at that changeset can be
   * retrieved, and its names equal those of the current file in order.
   */
  lemma VerdictPassesIff(argv: seq<string>, readFile: string -> string,
                         fetch: (string, string) -> Option<string>)
    ensures Verdict(argv, readFile, fetch) == Exit(0) <==>
      |argv| == 3
      && FirstCset(Lines(readFile(argv[2]))).Some?
      && fetch(argv[1], FirstCset(Lines(readFile(argv[2]))).value).Some?
      && StringNames(Split(fetch(argv[1], FirstCset(Lines(readFile(argv[2]))).value).value, '\n'))
         == StringNames(Lines(readFile(argv[1])))
  {
  }

  /**
   * Every other run fails: status 1 for a wrong argument count or a missing
   * changeset, and a retrieval failure only when `hg cat` fails for a
   * changeset that was found. No other outcome exists.
   */
  lemma NonZeroExits(argv: seq<string>, readFile: string -> string,
                     fetch: (string, string) -> Option<string>)
    ensures |argv| != 3 ==> Verdict(argv, readFile, fetch) == Exit(1)
    ensures |argv| == 3 && FirstCset(Lines(readFile(argv[2]))).None? ==>
      Verdict(argv, readFile, fetch) == Exit(1)
    ensures Verdict(argv, readFile, fetch) == RetrievalFailed ==>
      |argv| == 3
      && FirstCset(Lines(readFile(argv[2]))).Some?
      && fetch(argv[1], FirstCset(Lines(readFile(argv[2]))).value).None?
    ensures Verdict(argv, readFile, fetch) in {Exit(0), Exit(1), RetrievalFailed}
  {
  }

  /**
   * A language file that has not changed since the recorded changeset is
   * compatible with it: the text `hg cat` returns and the same text read
   * from disk give the same names.
   */
  lemma UnchangedFilePasses(argv: seq<string>, readFile: string -> string,
                            fetch: (string, string) -> Option<string>, cset: string)
    requires |argv| == 3
    requires FirstCset(Lines(readFile(argv[2]))) == Some(cset)
    requires fetch(argv[1], cset) == Some(readFile(argv[1]))
    ensures Verdict(argv, readFile, fetch) == Exit(0)
  {
    SplitAgreesWithLines(readFile(argv[1]));
  }

  /**
   * Adding a new string anywhere in a file that was compatible with the old
   * revision (lines `a + b`) makes it incompatible.
   */
  lemma NewStringFails(baseline: seq<string>, a: seq<string>, b: seq<string>, decl: string)
    requires StringNames(a + b) == StringNames(baseline)
    requires ProcessLangLine(decl).Some?
    ensures ExitStatus(StringNames(baseline), StringNames(a + [decl] + b)) == 1
  {
    FilterMapAppend(a + [decl], b, ProcessLangLine);
    FilterMapAppend(a, b, ProcessLangLine);
    assert (a + [decl])[..|a|] == a;
  }

  /**
   * The script itself: check the argument count, find the changeset, fetch
   * the old names, read the current names, and compare.
   */
  method Run(argv: seq<string>, readFile: string -> string,
             fetch: (string, string) -> Option<string>) returns (outcome: Outcome)
    ensures outcome == Verdict(argv, readFile, fetch)
  {
    if |argv| != 3 {
      return Exit(1);
    }
    var languageName, csetFile := argv[1], argv[2];
    var cset := GetCset(Lines(readFile(csetFile)));
    if cset.None? {
      return Exit(1);
    }
    var minCompStrings := GetLangfileRev(fetch, languageName, cset.value);
    if minCompStrings.None? {
      return RetrievalFailed;
    }
    var nowStrings := GetLangfile(readFile, languageName);
    return Exit(ExitStatus(minCompStrings.value, nowStrings));
  }
}
