# commitizen: command-line decisions and the version bump, in Dafny

This project models two pieces of commitizen, the tool that bumps versions from
conventional commits. Both are sequential decision logic, written as they appear
in `commitizen/cli.py` and `commitizen/bump.py`, and proved against
specification functions.

**The command line (module `Cli`)**

- `ParseKwargs`: an argparse action that stores one `key=value` token in a
  dictionary held on the namespace. It changes that dictionary in place and
  refuses malformed tokens.
- `parse_no_raise`: turns the `--no-raise` list into exit codes.
- `commitizen_excepthook`: chooses the exit code, mapping codes the user chose
  not to raise to `EXPECTED_EXIT`.
- In `main`: the check that extra git arguments follow a `--` separator, and
  the default plugin name.

**The bump (module `Bump`)**

- `find_increment`: the highest of PATCH, MINOR and MAJOR any line of any
  commit message calls for.
- `_bump_with_regex`: replaces the version on the lines a regex selects, and
  reports whether anything changed.
- `_files_and_regexes`: resolves the `path:regex` version-file patterns to a
  sorted set of (file, regex) pairs.
- `update_version_in_files`: rewrites each resolved file in turn, and stops at
  the first inconsistency when asked to check.

**Supporting modules**

- `Strings`: the Python `str` operations used (`split`, `join`, `replace`,
  `strip`, `isdecimal`, iterating a file by lines).
- `Order`: Python's ordering of strings and of pairs of strings, and `sorted()`
  of a set.
- `Wrappers`: `Option` and `Result`.

**Modelling decisions**

- Regex search, `group(1)`, `re.match` and `re.escape` are uninterpreted. They
  are the fields of `Bump.RegexEngine`.
- `os.path.splitdrive` and `glob.iglob` are uninterpreted too, as the fields of
  `Bump.PathFunctions`.
- The `ExitCode` enumeration is a map from name to code.
- The file system is the class `Bump.FileSystem`: a map from path to text,
  plus the list of paths written so far.
- The namespace is the class `Cli.Namespace`: its dictionary-valued
  attributes.
- Each loop of the source is a method with a loop. Its postcondition ties the
  result, or the new state, to a specification function. The properties the
  source promises are proved about those functions as lemmas.

## Model

| member | source | states |
|---|---|---|
| Cli.KeyValue | commitizen/cli.py:55-65 | A token is accepted exactly when it holds '=' and does not start with it. The key is the text before the first '=' and is non-empty. The value is the rest with leading and trailing quote characters removed. Both refusals give the same "expect a key=value format" error. |
| Cli.KeyValueRoundTrip | commitizen/cli.py:60-65 | For any non-empty key without '=' and any value, even one holding further '=' signs, `key=value` gives back that key and the unquoted value. |
| Cli.StripEnclosingQuotes | commitizen/cli.py:65 | A value wrapped in one quote character on each side, whose own ends are not quotes, comes back exactly. |
| Strings.StripIsTrim | commitizen/cli.py:65 | `strip(chars)` returns a contiguous slice of its input, and everything dropped on either side is in `chars`, so characters inside the slice are never removed. |
| Strings.Strip | commitizen/cli.py:65 | The stripped text is no longer than the input, and neither of its ends is one of the stripped characters. |
| Cli.ParseKwargs.Call | commitizen/cli.py:46-66 | A non-string value leaves the namespace as it was. A malformed token raises the format error and changes nothing. Otherwise the dictionary under `dest` keeps its other entries, an absent or empty one counting as `{}`, and gains or overwrites `key` with the unquoted value. No other attribute changes. |
| Cli.ParseNoRaise | commitizen/cli.py:580-599 | The codes returned are those of the comma-separated items in order, unknown names skipped (`NoRaiseCodes` of the split input). |
| Cli.NoRaiseCodesMembers | commitizen/cli.py:586-599 | A code is in the result exactly when some item names it, as a decimal number or, after whitespace is stripped, as an exit-code name. |
| Cli.NoRaiseCodesBound | commitizen/cli.py:586-599 | The result never has more codes than there are items. |
| Cli.ParseNoRaiseBound | commitizen/cli.py:586-599 | The result has at most one code more than there are commas in the `--no-raise` text. |
| Strings.SplitCount | commitizen/cli.py:586 | `split(sep)` yields exactly one piece more than there are separators in the string. |
| Cli.NoRaiseCodesAppend | commitizen/cli.py:588-598 | Order is preserved: the codes of two lists of items joined together are the codes of the first list followed by those of the second. |
| Cli.PaddedNumberIsAName | commitizen/cli.py:589-594 | The decimal test applies to the unstripped item, so `" 1"` is not the number 1: it is looked up as the name "1" and skipped unless such a name exists. |
| Strings.JoinSplit | commitizen/cli.py:586 | Joining the pieces of `split` with the separator gives back the original string. |
| Strings.Split | commitizen/cli.py:586 | `split` always yields at least one piece, and no piece holds the separator. |
| Cli.Excepthook | commitizen/cli.py:551-572 | Non-commitizen exceptions go to Python's own hook. A commitizen exception exits with EXPECTED_EXIT when its code is in the `no_raise` list, and with its own code otherwise. It prints the message exactly when there is one, and the traceback exactly in debug mode. |
| Cli.NoRaiseSilences | commitizen/cli.py:569-572 | End to end from the `--no-raise` text: when some item names the exception's code, the exit code is EXPECTED_EXIT; otherwise it is the exception's own code, which may itself equal EXPECTED_EXIT's. |
| Cli.ExtraCliArgs | commitizen/cli.py:644-663 | No unknown arguments record nothing. Arguments without any `--` are refused with the whole list in the message. Arguments before the first `--` are refused, naming exactly those before it. Otherwise the tokens after the leading `--` are joined with single spaces, with the warning exactly when `--` stands alone. |
| Cli.ExtraCliArgsRoundTrip | commitizen/cli.py:662-663 | When there is at least one token after `--` and none of them holds a space, splitting the joined string on spaces gives those tokens back. |
| Strings.SplitJoin | commitizen/cli.py:662 | Joining one or more pieces that do not hold the separator, then splitting, gives the pieces back. |
| Cli.ApplyName | commitizen/cli.py:667-670 | A non-empty `--name` sets the name. Without one and without a configuration file, the name is `cz_conventional_commits`. Otherwise the settings are left as read. No other setting changes, and at most the key "name" is added. |
| Bump.Higher | commitizen/bump.py:50-54 | The running increment is replaced only by a higher-ranked one under None < PATCH < MINOR < MAJOR. The result is one of the two arguments and has the larger rank. |
| Bump.FirstMatchIsFirst | commitizen/bump.py:40-43 | When no key matches, the keyword calls for no bump. Otherwise the increment is the value of the first key, in insertion order, that matches it. That value may itself be None. |
| Bump.NoneKeyHidesLater | commitizen/bump.py:40-43 | A key whose value is None and which matches before any other ends the search. The keyword then calls for no bump, even when a later key would match. |
| Bump.MatchIncrement | commitizen/bump.py:39-43 | The loop with `break` finds the value of the first matching key (`FirstMatch`). |
| Bump.ScanMessage | commitizen/bump.py:34-57 | Scanning the lines of one message raises the running increment to the highest any of its lines calls for. Leaving the message once MAJOR is reached gives the same result. |
| Bump.FindIncrement | commitizen/bump.py:22-59 | The result is the highest increment over all commits (`HighestInCommits`). The early exit at MAJOR leaves only the current message. |
| Bump.HighestIsMaxOverLines | commitizen/bump.py:31-54 | The result is the maximum over every line of every message. No line calls for more. Unless the result is None (no commits, or no line calls for a bump), some line calls for exactly it. |
| Bump.HighestInCommitsIsMax | commitizen/bump.py:33-54 | No commit calls for more than the result, and unless the result is None some commit calls for exactly it. |
| Bump.HighestInLinesIsMax | commitizen/bump.py:34-54 | No line of a message calls for more than the message's increment, and unless that is None some line calls for exactly it. |
| Bump.HighestInCommitsMonotone | commitizen/bump.py:50-54 | More commits never lower the increment. |
| Bump.HighestInLinesPrefix | commitizen/bump.py:56-57 | The increment over a prefix of the lines never exceeds the one over all of them. Hence MAJOR on a prefix is MAJOR on the whole message. |
| Bump.BumpWithRegex | commitizen/bump.py:121-142 | A missing file is an error. Otherwise the flag is `VersionFound` and the text is `BumpedText`: every line passed through the selective replacement, in order. |
| Bump.BumpLinesPointwise | commitizen/bump.py:132-140 | A line the regex does not select is kept verbatim. A selected line has every occurrence of the current version replaced by the new one. |
| Bump.VersionFoundIff | commitizen/bump.py:128-139 | The flag is true exactly when the versions differ and some selected line contains the current version, so it is false when the two versions are equal. |
| Bump.SomeLineChangedIff | commitizen/bump.py:128-139 | The flag set while scanning is true exactly when some line is changed by the bump. |
| Bump.BumpedTextUnchanged | commitizen/bump.py:128-142 | When the flag is false, the text written back is exactly the text read. |
| Strings.ReplaceChanges | commitizen/bump.py:137-138 | `replace(old, new)` changes a line exactly when `old` and `new` differ and `old` occurs in it. |
| Strings.ReplaceLength | commitizen/bump.py:137 | For a non-empty current version (the old string), the replaced line's length changes by the number of replacements times the length difference. |
| Strings.Lines | commitizen/bump.py:132 | Iterating a file yields non-empty lines that concatenate back to the text. Each line ends at its first newline, and only the last may lack one. |
| Bump.PartitionColon | commitizen/bump.py:110 | Without ':' the whole text is the path and the regex is empty. Otherwise the path is the text before the first ':' and the regex everything after it. |
| Bump.PatternPartsWithRegex | commitizen/bump.py:109-113 | For `path:regex` after the drive, with no ':' in the path, the file pattern is the drive plus the path. The regex is kept, or is the escaped version when it is empty. Further ':' stay in the regex. |
| Bump.PatternPartsWithoutRegex | commitizen/bump.py:109-113 | A pattern without ':' after its drive is all path, and its regex is the escaped version. |
| Bump.ResolvedEntriesMembers | commitizen/bump.py:107-116 | A (file, regex) pair is resolved exactly when some pattern's glob yields the file with that pattern's regex. |
| Bump.AddMatches | commitizen/bump.py:115-116 | The inner loop adds every globbed file paired with the regex to the set. |
| Bump.FilesAndRegexes | commitizen/bump.py:103-118 | The result is strictly sorted, hence free of duplicates. It holds exactly the resolved pairs. |
| Order.Sorted | commitizen/bump.py:118 | `sorted()` of a set of pairs is strictly increasing and holds exactly the set's elements. |
| Order.SortedOf | commitizen/bump.py:118 | The value of `sorted()` is a strictly increasing sequence of exactly the set's elements. |
| Order.SortedUnique | commitizen/bump.py:118 | Only one such sequence exists, so the order in which files are processed is determined. |
| Order.PairLessTotal | commitizen/bump.py:118 | Any two distinct pairs are ordered one way or the other (Python tuple order). |
| Order.PairLessTransitive | commitizen/bump.py:118 | Python's tuple order on pairs of strings is transitive. |
| Order.StrLessTotal | commitizen/bump.py:118 | Python's string order is total. |
| Bump.FileSystem.Write | commitizen/bump.py:97-98 | Writing a file replaces its text, touches no other file, and records the write. |
| Bump.BumpFile | commitizen/bump.py:81-99 | One entry: a failure (missing file, or a failed consistency check) writes nothing. Otherwise the file is rewritten with the bumped text and the write recorded. |
| Bump.RewriteFiles | commitizen/bump.py:79-100 | The loop over the entries produces exactly the result, the final files and the writes of `UpdateRun`. |
| Bump.UpdateVersionInFiles | commitizen/bump.py:62-100 | The files are processed in the order `sorted()` gives the resolved pairs. Result, files and writes are those of `UpdateRun` over that order. |
| Bump.UpdateRunOk | commitizen/bump.py:79-100 | No file is created or removed. Without an error the returned list, and the list of writes, are exactly the processed paths in order, unchanged files included. |
| Bump.UpdateRunFrame | commitizen/bump.py:79-100 | A file that no entry names is neither created, removed nor changed by the run, whatever its outcome. |
| Bump.UpdateRunBumpsOnce | commitizen/bump.py:80-98 | After a run without error, a file that exactly one entry names holds its original text bumped under that entry's regex. |
| Bump.UpdateRunUnchecked | commitizen/bump.py:89-100 | Without the consistency check, a run over files that all exist succeeds. |
| Bump.UpdateRunStopsAtFirstMiss | commitizen/bump.py:89-94 | A consistency error arises only with the check on. It stops at an entry whose file, as the earlier entries left it, shows no change. The entries before it all succeeded and were written; that file and all later ones are not. |

## Left out

- Python's regular expressions: `search`, `group(1)`, `re.match` and `re.escape` are uninterpreted functions. Their semantics is not modelled.
- `glob.iglob` and `os.path.splitdrive` are uninterpreted functions of the pattern. The glob does not see files the run itself writes, which matches the source, since `_files_and_regexes` finishes before any write.
- `isdecimal` is ASCII digits only. `strip()` with no argument removes the ASCII whitespace Python removes; Unicode digits and spaces are not modelled.
- File encodings, newline translation on reading and writing, and `smart_open`'s handling of line endings. A file is its text, and iterating it splits after each '\n'.
- A missing or unreadable version file: Python raises from `open`. Here it is the error value `FileNotFound`, and the run stops there as the exception would stop it.
- Logging (`logger.debug`, `logger.warning`, `out.warn`) and the printing of messages. The excepthook and the extra-argument check report *whether* they print or warn, as flags.
- `sys.exit` and the call to Python's original excepthook: `Cli.Excepthook` returns the decision instead.
- `argparse` itself and the argument table, `cli(data)`, `argcomplete`, `parse_known_args`, the `NoCommandFoundError` path, `config.read_cfg` and the installation of `sys.excepthook`. This is command-line plumbing around the modelled decisions.
- The `ExitCode` enumeration, defined in `commitizen/exceptions.py`, which is not part of this model: it is a map from names to codes that must contain EXPECTED_EXIT.
- `Cli.ParseKwargs.Call`: only dictionary-valued namespace attributes are modelled. A non-dictionary value already stored under `dest` is not.
- `Bump.FindIncrement`: takes the commit messages rather than `GitCommit` objects. `git.py` is not part of this model.
- `Bump.FindIncrement`: the increments map is a list of (pattern, increment) pairs in insertion order. Its values are None, PATCH, MINOR or MAJOR, the members of `VERSION_TYPES`. Any other value makes `VERSION_TYPES.index` raise `ValueError` in the source; such values and that error are not modelled.
- `Bump.FindIncrement`: a regex whose first group does not take part in a match gives `group(1) == None`, and `re.match` then raises `TypeError`. The model treats such a line like one with no match.
- `create_commit_message`: a thin `string.Template` wrapper whose default template lives in a module that is not part of this model.
- `commitizen/git.py` and `commitizen/providers/` are not part of this model.
- Concurrency and other processes changing the files between the read and the write of one entry are not modelled.
