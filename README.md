# Language-file compatibility check, modelled in Dafny

BusyBee, a GameScript for OpenTTD, ships language files of `NAME :text`
lines. Its script `check_lang_compatibility.py` makes sure the current
language file still declares exactly the same string names, in the same
order, as the file did at a recorded Mercurial changeset. That changeset is
written in another file as a `// cset: <token>` marker.

This project models that script:

- `Text`: the Python string and file behaviour it relies on. `rstrip()` uses
  the exact whitespace set of Python's `str.isspace()`. Also `find()`,
  `split('\n')` (with `join` as its inverse), and iterating over the lines of
  a text file (`Lines`: every line keeps its `'\n'`).
- `LangFile`: `process_langline` and the two loops that collect string names.
  `get_langfile_rev` splits the text that `hg cat` returns. `get_langfile`
  iterates over the file on disk.
- `CsetMarker`: the pattern `//[ \t]*cset:[ \t]*([0-9A-F[a-f]*)` as a
  hand-written matcher, with `re.search` leftmost-match semantics.
  `CapturesAt` is a declarative statement of what the greedy pattern
  captures, and two lemmas prove the matcher agrees with it. `get_cset` is
  the scan that stops at the first line whose leftmost match captured more
  than 4 characters.
- `Compatibility`: mapping `min_comp_strings != now_strings` to the exit
  status, and `Run`, the script's top level. `Verdict` specifies `Run`.
- `Scenarios`: concrete lines worked through the model.

The surrounding world is passed in as parameters:
- Reading a file is `readFile: string -> string`, which gives the decoded text.
- `hg cat -r <rev> <file>` is `fetch: (string, string) -> Option<string>`,
  where `None` means the command failed.
- The command line is `argv`, with the program name first.

A Mercurial changeset id is hexadecimal. The pattern at
check_lang_compatibility.py:97 also admits `[` inside the token, and so does
the one repeated in `get_cset`'s docstring (line 106). The model follows
line 97, which also allows tabs where the docstring shows only spaces.
`Scenarios.BracketsAreTokenCharacters` shows a token made only of `[`
being accepted as a changeset.

## Model

| member | source | states |
|---|---|---|
| Text.RStrip | check_lang_compatibility.py:37 | `rstrip()` returns the prefix of the line with only whitespace after it and no whitespace at its end; these three facts determine it |
| Text.RStripAppendSpace | check_lang_compatibility.py:37 | appending whitespace to a string does not change what `rstrip()` returns |
| Text.Find | check_lang_compatibility.py:41-43 | `find(':')` gives -1 exactly when there is no `:`, otherwise the index of the first `:` |
| Text.Split | check_lang_compatibility.py:69 | `split('\n')` gives at least one piece, no piece contains `'\n'`, and joining the pieces gives back the text |
| Text.SplitJoin | check_lang_compatibility.py:69 | splitting undoes joining, for pieces that contain no separator |
| Text.Lines | check_lang_compatibility.py:89 | iterating over a text file gives lines that, put back together, spell out the contents |
| Text.LinesShape | check_lang_compatibility.py:89 | those lines are non-empty, and every line but the last ends in its only `'\n'` |
| LangFile.ProcessLangLine | check_lang_compatibility.py:27-45 | `process_langline` itself: the name a line declares, if any; `ProcessLangLineSpec` states what it is |
| LangFile.ProcessLangLineSpec | check_lang_compatibility.py:27-45 | no name exactly when the line is all whitespace, starts with `#`, or has no `:`; otherwise the name is a prefix of the line, contains no `:`, does not end in whitespace, and only whitespace lies between it and the first `:` |
| LangFile.ProcessLangLineTrailingSpace | check_lang_compatibility.py:37 | trailing whitespace or a newline added to a line does not change its name |
| LangFile.ProcessDeclaration | check_lang_compatibility.py:37-45 | `name:value` gives back `name` without its trailing whitespace, including the empty name; it gives nothing when `name` starts with `#` |
| LangFile.StringNames | check_lang_compatibility.py:68-74 | the list both loops build: the names of the declaring lines, in order, never more names than lines |
| LangFile.FilterMap | check_lang_compatibility.py:68-74 | keeping the result of every line that gives one never yields more names than lines |
| LangFile.KeptLines | check_lang_compatibility.py:70-72 | the indices of the lines that give a name, strictly increasing, none missing |
| LangFile.FilterMapInOrder | check_lang_compatibility.py:68-74 | the j-th collected name comes from the j-th declaring line: order is kept and duplicates are not merged |
| LangFile.FilterMapAppend | check_lang_compatibility.py:88-95 | collecting names over two concatenated runs of lines gives the first run's names followed by the second's |
| LangFile.FilterMapOfNone | check_lang_compatibility.py:37-43 | lines that are blank, comments or lack a `:` give no names |
| LangFile.InsertNoise | check_lang_compatibility.py:70-72 | inserting a line that declares nothing leaves the names unchanged |
| LangFile.SplitAgreesWithLines | check_lang_compatibility.py:69-70 | for the same text, the `split('\n')` pieces and the file's lines give the same names |
| LangFile.CollectNames | check_lang_compatibility.py:68-74 | the loop appending the name of each declaring line ends with the names of all declaring lines, in order |
| LangFile.GetLangfileRev | check_lang_compatibility.py:48-74 | a failed retrieval gives no names; otherwise the result is the names of the `split('\n')` pieces of the retrieved text |
| LangFile.GetLangfile | check_lang_compatibility.py:76-95 | the names of the lines of the file on disk |
| CsetMarker.BlanksEnd | check_lang_compatibility.py:97 | a greedy `[ \t]*` run: every character up to the result is a blank, and the next one is not |
| CsetMarker.TokenEnd | check_lang_compatibility.py:97 | a greedy `[0-9A-F[a-f]*` run: every character up to the result is in the class, and the next one is not |
| CsetMarker.MatchAt | check_lang_compatibility.py:97 | a match anchored at a position captures only `[0-9A-F[a-f]` characters |
| CsetMarker.MatchAtSound | check_lang_compatibility.py:97 | whatever the matcher captures is a capture of the pattern, with maximal blank runs and a maximal token |
| CsetMarker.MatchAtComplete | check_lang_compatibility.py:97 | every capture of the pattern at a position is the one the matcher returns, so the capture is unique |
| CsetMarker.Search | check_lang_compatibility.py:111 | `cset_pattern.search(line)`: the leftmost position where the pattern matches with its capture, and nothing exactly when no position matches |
| CsetMarker.HasCset | check_lang_compatibility.py:112 | `m and len(m.group(1)) > 4`: the line's leftmost match exists and captured more than 4 characters |
| CsetMarker.SearchFrom | check_lang_compatibility.py:111 | `re.search` reports the leftmost position where the pattern matches, and nothing when none does |
| CsetMarker.FirstWhere | check_lang_compatibility.py:110-114 | the first line that qualifies, here one whose leftmost match captured more than 4 characters; no line before it qualifies |
| CsetMarker.FirstWhereAppend | check_lang_compatibility.py:110-114 | lines added after the first qualifying one do not move it |
| CsetMarker.FirstCset | check_lang_compatibility.py:110-117 | a reported changeset is longer than 4 characters and made of `[0-9A-F[a-f]`; it is the token of the leftmost match on the first qualifying line; none is reported exactly when no line qualifies |
| CsetMarker.FirstCsetIgnoresLaterLines | check_lang_compatibility.py:112-114 | once a line qualifies, the lines after it cannot change the result |
| CsetMarker.GetCset | check_lang_compatibility.py:99-117 | the scan over the lines of the opened file, with its early return, gives the changeset of the first qualifying line |
| Compatibility.ExitStatus | check_lang_compatibility.py:134-137 | the status is 0 or 1, and it is 0 exactly when the two name lists are equal as ordered lists |
| Compatibility.OrderAndLengthMatter | check_lang_compatibility.py:134 | lists of different lengths, or with the same names in another order, give status 1 |
| Compatibility.Verdict | check_lang_compatibility.py:119-137 | the script's decision: exit 1 on a wrong argument count or a missing changeset, a retrieval failure when `hg cat` fails, otherwise the status of comparing the two name lists; `VerdictPassesIff` and `NonZeroExits` state its cases |
| Compatibility.VerdictPassesIff | check_lang_compatibility.py:119-137 | a run exits 0 exactly when there are two arguments, a changeset is found, the old file is retrieved, and the name lists are equal |
| Compatibility.NonZeroExits | check_lang_compatibility.py:119-137 | a wrong argument count or a missing changeset gives status 1; a retrieval failure happens only when a changeset was found and `hg cat` failed; no outcome other than status 0, status 1 or a retrieval failure exists |
| Compatibility.UnchangedFilePasses | check_lang_compatibility.py:126-137 | a language file whose current text equals its text at the changeset passes |
| Compatibility.NewStringFails | check_lang_compatibility.py:134-136 | inserting a declaring line anywhere in a file that was compatible makes it fail |
| Compatibility.Run | check_lang_compatibility.py:119-137 | returns exit 1 for a wrong argument count or a missing changeset, a retrieval failure when `hg cat` fails, and otherwise the status of the comparison |
| Scenarios.SpaceBeforeColon | check_lang_compatibility.py:45 | `key  :value` declares `key` |
| Scenarios.IndentedHashIsNoComment | check_lang_compatibility.py:37-39 | `  #x:y` declares `  #x`, while `#x:y` is a comment |
| Scenarios.EmptyName | check_lang_compatibility.py:41-45 | `:value` followed by a newline declares the empty name |
| Scenarios.ShortTokenIsNoCset | check_lang_compatibility.py:112 | `// cset: abcd` carries no changeset |
| Scenarios.FiveCharTokenIsCset | check_lang_compatibility.py:112-114 | `// cset: abcde` carries the changeset `abcde` |
| Scenarios.BracketsAreTokenCharacters | check_lang_compatibility.py:97 | `//cset:[[[[[` carries the changeset `[[[[[` |
| Scenarios.LaterMatchQualifies | check_lang_compatibility.py:97 | in `//cset:ab //cset:abcde`, a match at the second marker would capture `abcde` |
| Scenarios.LeftmostMatchOnly | check_lang_compatibility.py:111-112 | that same line carries no changeset, because only its leftmost match, which captures `ab`, is considered |

## Left out

- Running `hg cat -r <rev> <file>` with a copy of the environment in which `HGPLAIN` is set (check_lang_compatibility.py:61-66). This is an external process. It is the `fetch` parameter, and its failure is the `RetrievalFailed` outcome. In Python that is an uncaught exception, not a clean exit.
- `readFile` is total: a cset file or language file that cannot be opened or decoded is not represented. In the script that is an uncaught `FileNotFoundError` or `UnicodeDecodeError` (check_lang_compatibility.py:86, 109). A failed `hg cat` does have its own outcome, `RetrievalFailed`.
- Opening, decoding (UTF-8) and closing files. This is I/O. `readFile` supplies the decoded text. The `hg cat` output (check_lang_compatibility.py:66) is decoded with the locale's preferred encoding instead, so for a non-ASCII file under a non-UTF-8 locale `fetch` may not return the text `readFile` gives, and the hypothesis of `UnchangedFilePasses` then does not hold. Universal-newline translation of `\r\n` and `\r` is assumed to have happened already, for both the file and the `hg cat` output.
- The printed messages: the usage error, "No change set number found.", the header line, and the incompatibility message. Only the exit status and the outcome are modelled.
- Python's general regular-expression engine. Only the one fixed pattern is modelled, by a hand-written matcher.
- Gruntfile.js: a build task that runs `make`. It has no logic to model.
- The whitespace set is Python's `str.isspace()` table fixed as character codes. Changes to that table between Unicode versions are not followed.
