/**
 * The version-bump core of commitizen (commitizen/bump.py): choosing the
 * increment a list of commits calls for, and rewriting the version in the
 * configured version files.
 */
module Bump {
  import opened Wrappers
  import opened Strings
  import opened Order

  /** The increments of `VERSION_TYPES`; `None` stands for "no bump". */
  datatype Increment = Patch | Minor | Major

  /** The position in `VERSION_TYPES = [None, PATCH, MINOR, MAJOR]`. */
  function Rank(i: Option<Increment>): nat
  {
    match i
    case None => 0
    case Some(Patch) => 1
    case Some(Minor) => 2
    case Some(Major) => 3
  }

  /** The running increment after seeing `candidate`: replaced only by a higher one. */
  function Higher(current: Option<Increment>, candidate: Option<Increment>): (r: Option<Increment>)
    ensures Rank(r) == if Rank(current) < Rank(candidate) then Rank(candidate) else Rank(current)
    ensures r == current || r == candidate
  {
    if Rank(current) < Rank(candidate) then candidate else current
  }

  /**
   * `increments_map` in insertion order: each key is a pattern, each value the
   * increment it calls for, where None (a `null` in the configuration) calls
   * for no bump and still ends the search when its key matches first.
   */
  type IncrementsMap = seq<(string, Option<Increment>)>

  /**
   * The pieces of Python's `re` module the core uses, left uninterpreted:
   * `search(p, s)` is whether `re.search(p, s)` finds a match, `firstGroup(p, s)`
   * is `group(1)` of that match (None when there is no match), `matchAt(p, s)`
   * is whether `re.match(p, s)` matches at the start, `escape(s)` is `re.escape(s)`.
   */
  datatype RegexEngine = RegexEngine(
    search: (string, string) -> bool,
    firstGroup: (string, string) -> Option<string>,
    matchAt: (string, string) -> bool,
    escape: string -> string)

  // ---------------------------------------------------------------- find_increment

  /**
   * The increment of the first key of `incrementsMap`, in insertion order,
   * that matches the start of `keyword`; None when no key matches.
   */
  function FirstMatch(incrementsMap: IncrementsMap, keyword: string, re: RegexEngine)
    : Option<Increment>
  {
    if incrementsMap == [] then None
    else if re.matchAt(incrementsMap[0].0, keyword) then incrementsMap[0].1
    else FirstMatch(incrementsMap[1..], keyword, re)
  }

  /**
   * What `FirstMatch` answers: None when no key matches; otherwise `r` is the
   * value of the first key that matches, which may itself be None.
   */
  ghost predicate IsFirstMatch(incrementsMap: IncrementsMap, keyword: string, re: RegexEngine, r: Option<Increment>)
  {
    || (r == None && forall i :: 0 <= i < |incrementsMap| ==> !re.matchAt(incrementsMap[i].0, keyword))
    || exists i :: 0 <= i < |incrementsMap| && re.matchAt(incrementsMap[i].0, keyword)
                   && r == incrementsMap[i].1
                   && forall j :: 0 <= j < i ==> !re.matchAt(incrementsMap[j].0, keyword)
  }

  /** `FirstMatch` finds the first key that matches, in insertion order. */
  lemma {:induction false} FirstMatchIsFirst(incrementsMap: IncrementsMap, keyword: string, re: RegexEngine)
    ensures IsFirstMatch(incrementsMap, keyword, re, FirstMatch(incrementsMap, keyword, re))
  {
    if incrementsMap != [] && !re.matchAt(incrementsMap[0].0, keyword) {
      FirstMatchIsFirst(incrementsMap[1..], keyword, re);
      FirstMatchSkip(incrementsMap, keyword, re, FirstMatch(incrementsMap[1..], keyword, re));
    } else if incrementsMap != [] {
      assert re.matchAt(incrementsMap[0].0, keyword);
    }
  }

  /** Skipping a first key that does not match keeps the first-match property. */
  lemma FirstMatchSkip(incrementsMap: IncrementsMap, keyword: string, re: RegexEngine, r: Option<Increment>)
    requires incrementsMap != [] && !re.matchAt(incrementsMap[0].0, keyword)
    requires IsFirstMatch(incrementsMap[1..], keyword, re, r)
    ensures IsFirstMatch(incrementsMap, keyword, re, r)
  {
    var tail := incrementsMap[1..];
    assert forall i :: 0 < i < |incrementsMap| ==> incrementsMap[i] == tail[i - 1];
    if exists i :: 0 <= i < |tail| && re.matchAt(tail[i].0, keyword) && r == tail[i].1
                   && forall j :: 0 <= j < i ==> !re.matchAt(tail[j].0, keyword) {
      var i :| 0 <= i < |tail| && re.matchAt(tail[i].0, keyword) && r == tail[i].1
               && forall j :: 0 <= j < i ==> !re.matchAt(tail[j].0, keyword);
      assert re.matchAt(incrementsMap[i + 1].0, keyword);
    }
  }

  /**
   * A key with a None value that matches before any other hides every later
   * key: the keyword calls for no bump even when a later key would match.
   */
  lemma {:induction false} NoneKeyHidesLater(incrementsMap: IncrementsMap, k: nat, keyword: string, re: RegexEngine)
    requires k < |incrementsMap| && incrementsMap[k].1 == None && re.matchAt(incrementsMap[k].0, keyword)
    requires forall j :: 0 <= j < k ==> !re.matchAt(incrementsMap[j].0, keyword)
    ensures FirstMatch(incrementsMap, keyword, re) == None
  {
    if k > 0 {
      var tail := incrementsMap[1..];
      assert tail[k - 1] == incrementsMap[k];
      assert forall j :: 0 <= j < k - 1 ==> tail[j] == incrementsMap[j + 1];
      NoneKeyHidesLater(tail, k - 1, keyword, re);
    }
  }

  /** The increment one line of a commit message calls for. */
  function LineIncrement(line: string, regex: string, incrementsMap: IncrementsMap, re: RegexEngine)
    : Option<Increment>
  {
    match re.firstGroup(regex, line)
    case None => None
    case Some(keyword) => FirstMatch(incrementsMap, keyword, re)
  }

  /** The highest increment any of `lines` calls for. */
  function HighestInLines(lines: seq<string>, regex: string, incrementsMap: IncrementsMap,
                          re: RegexEngine): Option<Increment>
  {
    if lines == [] then None
    else Higher(HighestInLines(lines[..|lines| - 1], regex, incrementsMap, re),
                LineIncrement(lines[|lines| - 1], regex, incrementsMap, re))
  }

  /** The highest increment any line of any of the commit messages calls for. */
  function HighestInCommits(messages: seq<string>, regex: string, incrementsMap: IncrementsMap,
                            re: RegexEngine): Option<Increment>
  {
    if messages == [] then None
    else Higher(HighestInCommits(messages[..|messages| - 1], regex, incrementsMap, re),
                CommitIncrement(messages[|messages| - 1], regex, incrementsMap, re))
  }

  /** The highest increment the lines of one commit message call for. */
  function CommitIncrement(message: string, regex: string, incrementsMap: IncrementsMap,
                           re: RegexEngine): Option<Increment>
  {
    HighestInLines(Split(message, '\n'), regex, incrementsMap, re)
  }

  /**
   * `HighestInLines` is the maximum: no line calls for more, and unless it is
   * None some line calls for exactly it.
   */
  lemma {:induction false} HighestInLinesIsMax(lines: seq<string>, regex: string,
                                               incrementsMap: IncrementsMap, re: RegexEngine)
    ensures var h := HighestInLines(lines, regex, incrementsMap, re);
            && (forall i :: 0 <= i < |lines| ==> Rank(LineIncrement(lines[i], regex, incrementsMap, re)) <= Rank(h))
            && (h == None || exists i :: 0 <= i < |lines| && LineIncrement(lines[i], regex, incrementsMap, re) == h)
  {
    if lines != [] {
      var init := lines[..|lines| - 1];
      HighestInLinesIsMax(init, regex, incrementsMap, re);
      assert forall i :: 0 <= i < |init| ==> init[i] == lines[i];
    }
  }

  /**
   * `HighestInCommits` is the maximum over the commits: no commit calls for
   * more, and unless it is None some commit calls for exactly it.
   */
  lemma {:induction false} HighestInCommitsIsMax(messages: seq<string>, regex: string,
                                                 incrementsMap: IncrementsMap, re: RegexEngine)
    ensures var h := HighestInCommits(messages, regex, incrementsMap, re);
            && (forall c :: 0 <= c < |messages| ==> Rank(CommitIncrement(messages[c], regex, incrementsMap, re)) <= Rank(h))
            && (h == None || exists c :: 0 <= c < |messages| && CommitIncrement(messages[c], regex, incrementsMap, re) == h)
  {
    if messages != [] {
      var init := messages[..|messages| - 1];
      HighestInCommitsIsMax(init, regex, incrementsMap, re);
      assert forall c :: 0 <= c < |init| ==> init[c] == messages[c];
    }
  }

  /**
   * `find_increment`'s result is the maximum over every line of every
   * message: no line calls for more, and unless the result is None (which it
   * is for no commits, or when no line calls for a bump) some line calls for
   * exactly it.
   */
  lemma HighestIsMaxOverLines(messages: seq<string>, regex: string,
                              incrementsMap: IncrementsMap, re: RegexEngine)
    ensures var h := HighestInCommits(messages, regex, incrementsMap, re);
            && (forall c, i :: 0 <= c < |messages| && 0 <= i < |Split(messages[c], '\n')| ==>
                  Rank(LineIncrement(Split(messages[c], '\n')[i], regex, incrementsMap, re)) <= Rank(h))
            && (h == None || exists c, i :: 0 <= c < |messages| && 0 <= i < |Split(messages[c], '\n')|
                                            && LineIncrement(Split(messages[c], '\n')[i], regex, incrementsMap, re) == h)
  {
    var h := HighestInCommits(messages, regex, incrementsMap, re);
    HighestInCommitsIsMax(messages, regex, incrementsMap, re);
    forall c, i | 0 <= c < |messages| && 0 <= i < |Split(messages[c], '\n')|
      ensures Rank(LineIncrement(Split(messages[c], '\n')[i], regex, incrementsMap, re)) <= Rank(h)
    {
      LineBelowCommit(messages[c], i, regex, incrementsMap, re);
    }
    if h != None {
      var c :| 0 <= c < |messages| && CommitIncrement(messages[c], regex, incrementsMap, re) == h;
      var lines := Split(messages[c], '\n');
      HighestInLinesIsMax(lines, regex, incrementsMap, re);
      var i :| 0 <= i < |lines| && LineIncrement(lines[i], regex, incrementsMap, re) == h;
      assert LineIncrement(Split(messages[c], '\n')[i], regex, incrementsMap, re) == h;
    }
  }

  lemma LineBelowCommit(message: string, i: nat, regex: string,
                        incrementsMap: IncrementsMap, re: RegexEngine)
    requires i < |Split(message, '\n')|
    ensures Rank(LineIncrement(Split(message, '\n')[i], regex, incrementsMap, re))
            <= Rank(CommitIncrement(message, regex, incrementsMap, re))
  {
    HighestInLinesIsMax(Split(message, '\n'), regex, incrementsMap, re);
  }

  /** The highest increment over a prefix of the lines never exceeds that over all of them. */
  lemma {:induction false} HighestInLinesPrefix(lines: seq<string>, k: nat, regex: string,
                                                incrementsMap: IncrementsMap, re: RegexEngine)
    requires k <= |lines|
    ensures Rank(HighestInLines(lines[..k], regex, incrementsMap, re)) <= Rank(HighestInLines(lines, regex, incrementsMap, re))
    decreases |lines|
  {
    if k < |lines| {
      HighestInLinesPrefix(lines[..|lines| - 1], k, regex, incrementsMap, re);
      assert lines[..|lines| - 1][..k] == lines[..k];
    } else {
      assert lines[..k] == lines;
    }
  }

  /** More commits never lower the increment. */
  lemma {:induction false} HighestInCommitsMonotone(messages: seq<string>, more: seq<string>, regex: string,
                                                    incrementsMap: IncrementsMap, re: RegexEngine)
    ensures Rank(HighestInCommits(messages, regex, incrementsMap, re))
            <= Rank(HighestInCommits(messages + more, regex, incrementsMap, re))
    decreases |more|
  {
    if more == [] {
      assert messages + more == messages;
    } else {
      var all := messages + more;
      var init := more[..|more| - 1];
      HighestInCommitsMonotone(messages, init, regex, incrementsMap, re);
      assert all[..|all| - 1] == messages + init;
      var prev := HighestInCommits(messages + init, regex, incrementsMap, re);
      var last := CommitIncrement(all[|all| - 1], regex, incrementsMap, re);
      assert HighestInCommits(all, regex, incrementsMap, re) == Higher(prev, last);
    }
  }

  /** The inner loop of `find_increment`: the value of the first key matching `keyword`. */
  method MatchIncrement(incrementsMap: IncrementsMap, keyword: string, re: RegexEngine)
    returns (newIncrement: Option<Increment>)
    ensures newIncrement == FirstMatch(incrementsMap, keyword, re)
  {
    newIncrement := None;
    var k := 0;
    while k < |incrementsMap|
      invariant 0 <= k <= |incrementsMap|
      invariant FirstMatch(incrementsMap[k..], keyword, re) == FirstMatch(incrementsMap, keyword, re)
    {
      if re.matchAt(incrementsMap[k].0, keyword) {
        newIncrement := incrementsMap[k].1;
        break;
      }
      assert incrementsMap[k..][1..] == incrementsMap[k + 1..];
      k := k + 1;
    }
  }

  /**
   * `find_increment`: the highest increment any line of any commit message
   * calls for. Once MAJOR is reached the rest of that message is skipped,
   * which cannot change the result.
   */
  method FindIncrement(messages: seq<string>, regex: string, incrementsMap: IncrementsMap,
                       re: RegexEngine)
    returns (increment: Option<Increment>)
    ensures increment == HighestInCommits(messages, regex, incrementsMap, re)
  {
    increment := None;
    var c := 0;
    while c < |messages|
      invariant 0 <= c <= |messages|
      invariant increment == HighestInCommits(messages[..c], regex, incrementsMap, re)
    {
      HighestInCommitsStep(messages, c, regex, incrementsMap, re);
      increment := ScanMessage(Split(messages[c], '\n'), increment, regex, incrementsMap, re);
      c := c + 1;
    }
    assert messages[..c] == messages;
  }

  /**
   * The loop of `find_increment` over the lines of one message: raises the
   * running increment to the highest any line calls for, and leaves the
   * message as soon as the increment is MAJOR.
   */
  method ScanMessage(lines: seq<string>, start: Option<Increment>, regex: string,
                     incrementsMap: IncrementsMap, re: RegexEngine)
    returns (increment: Option<Increment>)
    ensures increment == Higher(start, HighestInLines(lines, regex, incrementsMap, re))
  {
    increment := start;
    var l := 0;
    while l < |lines|
      invariant 0 <= l <= |lines|
      invariant increment == Higher(start, HighestInLines(lines[..l], regex, incrementsMap, re))
    {
      var message := lines[l];
      HighestInLinesStep(lines, l, start, regex, incrementsMap, re);
      var result := re.firstGroup(regex, message);
      if result.Some? {
        var foundKeyword := result.value;
        var newIncrement := MatchIncrement(incrementsMap, foundKeyword, re);
        if Rank(increment) < Rank(newIncrement) {
          increment := newIncrement;
        }
        if increment == Some(Major) {
          HighestInLinesPrefix(lines, l + 1, regex, incrementsMap, re);
          return;
        }
      }
      l := l + 1;
    }
    assert lines[..l] == lines;
  }

  lemma HighestInLinesStep(lines: seq<string>, l: nat, before: Option<Increment>, regex: string,
                           incrementsMap: IncrementsMap, re: RegexEngine)
    requires l < |lines|
    ensures Higher(before, HighestInLines(lines[..l + 1], regex, incrementsMap, re))
            == Higher(Higher(before, HighestInLines(lines[..l], regex, incrementsMap, re)),
                      LineIncrement(lines[l], regex, incrementsMap, re))
  {
    assert lines[..l + 1][..l] == lines[..l];
  }

  lemma HighestInCommitsStep(messages: seq<string>, c: nat, regex: string,
                             incrementsMap: IncrementsMap, re: RegexEngine)
    requires c < |messages|
    ensures HighestInCommits(messages[..c + 1], regex, incrementsMap, re)
            == Higher(HighestInCommits(messages[..c], regex, incrementsMap, re),
                      HighestInLines(Split(messages[c], '\n'), regex, incrementsMap, re))
  {
    assert messages[..c + 1][..c] == messages[..c];
  }

  // ---------------------------------------------------------------- _bump_with_regex

  /** One line after the bump: replaced throughout when the regex selects it, else kept. */
  function BumpLine(line: string, currentVersion: string, newVersion: string, selects: string -> bool): string
  {
    if selects(line) then Replace(line, currentVersion, newVersion) else line
  }

  /** True when the bump changes `line`. */
  predicate LineChanged(line: string, currentVersion: string, newVersion: string, selects: string -> bool)
  {
    BumpLine(line, currentVersion, newVersion, selects) != line
  }

  function BumpLines(lines: seq<string>, currentVersion: string, newVersion: string, selects: string -> bool)
    : (r: seq<string>)
    ensures |r| == |lines|
  {
    if lines == [] then []
    else [BumpLine(lines[0], currentVersion, newVersion, selects)]
         + BumpLines(lines[1..], currentVersion, newVersion, selects)
  }

  /**
   * Line by line, in the original order: a line the regex does not select is
   * kept verbatim, a selected one has every occurrence of the current
   * version replaced.
   */
  lemma {:induction false} BumpLinesPointwise(lines: seq<string>, currentVersion: string, newVersion: string,
                                              selects: string -> bool)
    ensures var r := BumpLines(lines, currentVersion, newVersion, selects);
            forall i :: 0 <= i < |lines| ==>
              r[i] == if selects(lines[i]) then Replace(lines[i], currentVersion, newVersion) else lines[i]
  {
    if lines != [] {
      BumpLinesPointwise(lines[1..], currentVersion, newVersion, selects);
      var r := BumpLines(lines, currentVersion, newVersion, selects);
      forall i | 1 <= i < |lines|
        ensures r[i] == if selects(lines[i]) then Replace(lines[i], currentVersion, newVersion) else lines[i]
      {
        assert lines[1..][i - 1] == lines[i];
      }
    }
  }

  /** The file text after the bump. */
  function BumpedText(text: string, currentVersion: string, newVersion: string, selects: string -> bool): string
  {
    Concat(BumpLines(Lines(text), currentVersion, newVersion, selects))
  }

  /** Some one of `lines` is changed by the bump (the flag after scanning them in order). */
  predicate SomeLineChanged(lines: seq<string>, currentVersion: string, newVersion: string, selects: string -> bool)
  {
    lines != []
    && (SomeLineChanged(lines[..|lines| - 1], currentVersion, newVersion, selects)
        || LineChanged(lines[|lines| - 1], currentVersion, newVersion, selects))
  }

  lemma {:induction false} SomeLineChangedIff(lines: seq<string>, currentVersion: string, newVersion: string,
                                              selects: string -> bool)
    ensures SomeLineChanged(lines, currentVersion, newVersion, selects) <==>
              exists i :: 0 <= i < |lines| && LineChanged(lines[i], currentVersion, newVersion, selects)
  {
    if lines != [] {
      var n := |lines| - 1;
      var init := lines[..n];
      SomeLineChangedIff(init, currentVersion, newVersion, selects);
      if SomeLineChanged(lines, currentVersion, newVersion, selects) {
        if !LineChanged(lines[n], currentVersion, newVersion, selects) {
          var i :| 0 <= i < |init| && LineChanged(init[i], currentVersion, newVersion, selects);
          assert lines[i] == init[i];
        }
      } else {
        forall i | 0 <= i < |lines| ensures !LineChanged(lines[i], currentVersion, newVersion, selects) {
          if i < n {
            assert lines[i] == init[i];
          }
        }
      }
    }
  }

  /** `current_version_found`: some line of the text was changed. */
  predicate VersionFound(text: string, currentVersion: string, newVersion: string, selects: string -> bool)
  {
    SomeLineChanged(Lines(text), currentVersion, newVersion, selects)
  }

  /**
   * The flag is set exactly when the versions differ and some selected line
   * contains the current version; in particular never when they are equal.
   */
  lemma VersionFoundIff(text: string, currentVersion: string, newVersion: string, selects: string -> bool)
    ensures VersionFound(text, currentVersion, newVersion, selects) <==>
              currentVersion != newVersion
              && exists i :: 0 <= i < |Lines(text)| && selects(Lines(text)[i]) && Contains(Lines(text)[i], currentVersion)
  {
    var lines := Lines(text);
    SomeLineChangedIff(lines, currentVersion, newVersion, selects);
    forall i | 0 <= i < |lines|
      ensures LineChanged(lines[i], currentVersion, newVersion, selects) <==>
                selects(lines[i]) && currentVersion != newVersion && Contains(lines[i], currentVersion)
    {
      ReplaceChanges(lines[i], currentVersion, newVersion);
    }
  }

  lemma {:induction false} BumpLinesUnchanged(lines: seq<string>, currentVersion: string, newVersion: string,
                                              selects: string -> bool)
    requires forall i :: 0 <= i < |lines| ==> !LineChanged(lines[i], currentVersion, newVersion, selects)
    ensures BumpLines(lines, currentVersion, newVersion, selects) == lines
  {
    if lines != [] {
      BumpLinesUnchanged(lines[1..], currentVersion, newVersion, selects);
      assert lines == [lines[0]] + lines[1..];
    }
  }

  /** When the flag stays false the text is written back exactly as it was read. */
  lemma BumpedTextUnchanged(text: string, currentVersion: string, newVersion: string, selects: string -> bool)
    requires !VersionFound(text, currentVersion, newVersion, selects)
    ensures BumpedText(text, currentVersion, newVersion, selects) == text
  {
    SomeLineChangedIff(Lines(text), currentVersion, newVersion, selects);
    BumpLinesUnchanged(Lines(text), currentVersion, newVersion, selects);
  }

  /** The lines a compiled `regex` selects: those where `search` finds a match. */
  function Selector(re: RegexEngine, regex: string): string -> bool
  {
    (line: string) => re.search(regex, line)
  }

  /**
   * The errors of `update_version_in_files`: the consistency check failing,
   * or a version file that cannot be opened (Python's `open` raising).
   */
  datatype BumpError = CurrentVersionNotFound(message: string) | FileNotFound(path: string)

  /**
   * The files the bump reads and writes: path to text, and the paths written
   * so far, in order (rewriting a file with its own text is still a write).
   */
  class FileSystem {
    var contents: map<string, string>
    var writes: seq<string>

    constructor (contents: map<string, string>)
      ensures this.contents == contents && writes == []
    {
      this.contents := contents;
      writes := [];
    }

    /** `open(path, "w").write(text)`. */
    method Write(path: string, text: string)
      modifies this
      ensures contents == old(contents)[path := text]
      ensures writes == old(writes) + [path]
    {
      contents := contents[path := text];
      writes := writes + [path];
    }
  }

  /**
   * `_bump_with_regex`: reads the file, replaces the current version by the
   * new one on the lines `regex` selects, and says whether anything changed.
   */
  method BumpWithRegex(fs: FileSystem, versionFilepath: string, currentVersion: string, newVersion: string,
                       regex: string, re: RegexEngine)
    returns (r: Result<(bool, string), BumpError>)
    ensures versionFilepath !in fs.contents ==> r == Err(FileNotFound(versionFilepath))
    ensures versionFilepath in fs.contents ==>
              var text := fs.contents[versionFilepath];
              r == Ok((VersionFound(text, currentVersion, newVersion, Selector(re, regex)),
                       BumpedText(text, currentVersion, newVersion, Selector(re, regex))))
  {
    if versionFilepath !in fs.contents {
      return Err(FileNotFound(versionFilepath));
    }
    var text := fs.contents[versionFilepath];
    ghost var selects := Selector(re, regex);
    var fileLines := Lines(text);
    var currentVersionFound := false;
    var lines: seq<string> := [];
    var i := 0;
    while i < |fileLines|
      invariant 0 <= i <= |fileLines|
      invariant lines == BumpLines(fileLines[..i], currentVersion, newVersion, selects)
      invariant currentVersionFound == SomeLineChanged(fileLines[..i], currentVersion, newVersion, selects)
    {
      var line := fileLines[i];
      BumpLinesStep(fileLines, i, currentVersion, newVersion, selects);
      i := i + 1;
      if !re.search(regex, line) {
        lines := lines + [line];
        continue;
      }
      var bumpedLine := Replace(line, currentVersion, newVersion);
      if bumpedLine != line {
        currentVersionFound := true;
      }
      lines := lines + [bumpedLine];
    }
    assert fileLines[..i] == fileLines;
    r := Ok((currentVersionFound, Concat(lines)));
  }

  lemma BumpLinesStep(lines: seq<string>, i: nat, currentVersion: string, newVersion: string,
                      selects: string -> bool)
    requires i < |lines|
    ensures BumpLines(lines[..i + 1], currentVersion, newVersion, selects)
            == BumpLines(lines[..i], currentVersion, newVersion, selects)
               + [BumpLine(lines[i], currentVersion, newVersion, selects)]
    ensures SomeLineChanged(lines[..i + 1], currentVersion, newVersion, selects)
            == (SomeLineChanged(lines[..i], currentVersion, newVersion, selects)
                || LineChanged(lines[i], currentVersion, newVersion, selects))
  {
    assert lines[..i + 1] == lines[..i] + [lines[i]];
    BumpLinesAppend(lines[..i], [lines[i]], currentVersion, newVersion, selects);
    assert lines[..i + 1][..i] == lines[..i];
  }

  lemma {:induction false} BumpLinesAppend(a: seq<string>, b: seq<string>, currentVersion: string, newVersion: string,
                                           selects: string -> bool)
    ensures BumpLines(a + b, currentVersion, newVersion, selects)
            == BumpLines(a, currentVersion, newVersion, selects) + BumpLines(b, currentVersion, newVersion, selects)
  {
    if a == [] {
      assert a + b == b;
    } else {
      var ab := a + b;
      assert ab[0] == a[0] && ab[1..] == a[1..] + b;
      BumpLinesAppend(a[1..], b, currentVersion, newVersion, selects);
      var head := [BumpLine(a[0], currentVersion, newVersion, selects)];
      var front := BumpLines(a[1..], currentVersion, newVersion, selects);
      var back := BumpLines(b, currentVersion, newVersion, selects);
      calc {
        BumpLines(ab, currentVersion, newVersion, selects);
        head + BumpLines(a[1..] + b, currentVersion, newVersion, selects);
        head + (front + back);
        { assert head + (front + back) == (head + front) + back; }
        (head + front) + back;
      }
    }
  }

  // ---------------------------------------------------------------- _files_and_regexes

  /** A resolved version file: its path and the regex that selects its lines. */
  type Entry = Pair

  /**
   * The platform's path functions, left uninterpreted: `os.path.splitdrive`
   * and the paths `glob.iglob` yields for a pattern.
   */
  datatype PathFunctions = PathFunctions(splitDrive: string -> (string, string), glob: string -> seq<string>)

  /**
   * `s.partition(":")` without the separator: the text before the first ':'
   * and the text after it, which is empty when there is no ':'.
   */
  function PartitionColon(s: string): (r: (string, string))
    ensures ':' !in s ==> r == (s, "")
    ensures ':' in s ==> ':' !in r.0 && s == r.0 + ":" + r.1
  {
    if ':' !in s then (s, "")
    else
      var i := FirstIndex(s, ':');
      assert s == s[..i] + ":" + s[i + 1..];
      (s[..i], s[i + 1..])
  }

  /** The glob pattern and the regex one `version_files` entry stands for. */
  function PatternParts(pattern: string, version: string, re: RegexEngine, paths: PathFunctions): (string, string)
  {
    var (drive, tail) := paths.splitDrive(pattern);
    var (path, regex) := PartitionColon(tail);
    (drive + path, if regex == "" then re.escape(version) else regex)
  }

  /**
   * A pattern `path:regex` whose path has no ':' keeps its regex, and takes
   * the escaped version when the regex is empty; the path is split at the
   * first ':', so the regex may hold further ':'.
   */
  lemma PatternPartsWithRegex(pattern: string, path: string, regex: string, version: string,
                              re: RegexEngine, paths: PathFunctions)
    requires ':' !in path && paths.splitDrive(pattern).1 == path + ":" + regex
    ensures PatternParts(pattern, version, re, paths)
            == (paths.splitDrive(pattern).0 + path, if regex == "" then re.escape(version) else regex)
  {
    var tail := path + ":" + regex;
    FirstIndexAfter(path, regex, ':');
    assert tail[..|path|] == path && tail[|path| + 1..] == regex;
  }

  /** A pattern without ':' is all path, and its regex is the escaped version. */
  lemma PatternPartsWithoutRegex(pattern: string, version: string, re: RegexEngine, paths: PathFunctions)
    requires ':' !in paths.splitDrive(pattern).1
    ensures PatternParts(pattern, version, re, paths)
            == (paths.splitDrive(pattern).0 + paths.splitDrive(pattern).1, re.escape(version))
  {
  }

  /** The (file, regex) pairs one pattern contributes: every file its glob yields. */
  function PatternEntries(pattern: string, version: string, re: RegexEngine, paths: PathFunctions): set<Entry>
  {
    var (filepath, regex) := PatternParts(pattern, version, re, paths);
    set f | f in paths.glob(filepath) :: (f, regex)
  }

  /** The pairs all the patterns contribute. */
  function ResolvedEntries(patterns: seq<string>, version: string, re: RegexEngine, paths: PathFunctions)
    : set<Entry>
  {
    if patterns == [] then {}
    else ResolvedEntries(patterns[..|patterns| - 1], version, re, paths)
         + PatternEntries(patterns[|patterns| - 1], version, re, paths)
  }

  /** A pair is resolved exactly when some pattern contributes it. */
  lemma {:induction false} ResolvedEntriesMembers(patterns: seq<string>, version: string, re: RegexEngine,
                                                  paths: PathFunctions, e: Entry)
    ensures e in ResolvedEntries(patterns, version, re, paths) <==>
              exists k :: 0 <= k < |patterns| && e in PatternEntries(patterns[k], version, re, paths)
  {
    if patterns != [] {
      var init := patterns[..|patterns| - 1];
      ResolvedEntriesMembers(init, version, re, paths, e);
      assert forall k :: 0 <= k < |init| ==> init[k] == patterns[k];
    }
  }

  /**
   * `_files_and_regexes`: every file each pattern's glob yields, paired with
   * the pattern's regex, without duplicates and in sorted order.
   */
  method FilesAndRegexes(patterns: seq<string>, version: string, re: RegexEngine, paths: PathFunctions)
    returns (r: seq<Entry>)
    ensures StrictlySorted(r)
    ensures Elements(r) == ResolvedEntries(patterns, version, re, paths)
  {
    var out: set<Entry> := {};
    var i := 0;
    while i < |patterns|
      invariant 0 <= i <= |patterns|
      invariant out == ResolvedEntries(patterns[..i], version, re, paths)
    {
      var pattern := patterns[i];
      var (drive, tail) := paths.splitDrive(pattern);
      var (path, regex) := PartitionColon(tail);
      var filepath := drive + path;
      if regex == "" {
        regex := re.escape(version);
      }
      assert (filepath, regex) == PatternParts(pattern, version, re, paths);
      out := AddMatches(out, paths.glob(filepath), regex);
      assert patterns[..i + 1][..i] == patterns[..i] && patterns[..i + 1][i] == pattern;
      i := i + 1;
    }
    assert patterns[..i] == patterns;
    r := Sorted(out);
  }

  /** The inner loop of `_files_and_regexes`: every globbed file paired with the regex. */
  method AddMatches(out: set<Entry>, files: seq<string>, regex: string) returns (r: set<Entry>)
    ensures r == out + set f | f in files :: (f, regex)
  {
    r := out;
    var j := 0;
    while j < |files|
      invariant 0 <= j <= |files|
      invariant r == out + set f | f in files[..j] :: (f, regex)
    {
      assert files[..j + 1] == files[..j] + [files[j]];
      r := r + {(files[j], regex)};
      j := j + 1;
    }
    assert files[..j] == files;
  }

  // ---------------------------------------------------------------- update_version_in_files

  /** The message of the `CurrentVersionNotFoundError` raised for `path`. */
  function NotFoundMessage(currentVersion: string, path: string): string
  {
    "Current version " + currentVersion + " is not found in " + path + ".\n"
    + "The version defined in commitizen configuration and the ones in "
    + "version_files are possibly inconsistent."
  }

  /** A run of `update_version_in_files`: what it returns, the files afterwards, the paths it wrote. */
  datatype Run = Run(result: Result<seq<string>, BumpError>, contents: map<string, string>, writes: seq<string>)

  /** `prefix` put in front of a successful result; an error passes through. */
  function Prepend(prefix: seq<string>, result: Result<seq<string>, BumpError>): Result<seq<string>, BumpError>
  {
    if result.Ok? then Ok(prefix + result.value) else result
  }

  /** The files of `entries`, in order. */
  function PathsOf(entries: seq<Entry>): (r: seq<string>)
    ensures |r| == |entries| && forall i :: 0 <= i < |entries| ==> r[i] == entries[i].0
  {
    if entries == [] then [] else [entries[0].0] + PathsOf(entries[1..])
  }

  /**
   * One turn of the loop of `update_version_in_files` on the files as they
   * stand: the error it stops with, or the new text of the entry's file.
   */
  function EntryOutcome(contents: map<string, string>, entry: Entry, currentVersion: string,
                        newVersion: string, checkConsistency: bool, re: RegexEngine): Result<string, BumpError>
  {
    var (path, regex) := entry;
    if path !in contents then Err(FileNotFound(path))
    else
      var text := contents[path];
      var selects := Selector(re, regex);
      if checkConsistency && !VersionFound(text, currentVersion, newVersion, selects) then
        Err(CurrentVersionNotFound(NotFoundMessage(currentVersion, path)))
      else
        Ok(BumpedText(text, currentVersion, newVersion, selects))
  }

  /**
   * The loop of `update_version_in_files` over resolved entries, starting
   * from `contents`: each file is read as it stands (an earlier entry for the
   * same path may already have rewritten it), bumped, and written back.
   */
  function UpdateRun(contents: map<string, string>, entries: seq<Entry>, currentVersion: string,
                     newVersion: string, checkConsistency: bool, re: RegexEngine): Run
    decreases |entries|
  {
    if entries == [] then Run(Ok([]), contents, [])
    else
      match EntryOutcome(contents, entries[0], currentVersion, newVersion, checkConsistency, re)
      case Err(e) => Run(Err(e), contents, [])
      case Ok(text) =>
        var path := entries[0].0;
        var rest := UpdateRun(contents[path := text], entries[1..], currentVersion, newVersion, checkConsistency, re);
        Run(Prepend([path], rest.result), rest.contents, [path] + rest.writes)
  }

  /**
   * Without an error every entry's file is written, unchanged ones too, and
   * the list returned is exactly those paths in processing order; no file
   * is created or removed.
   */
  lemma {:induction false} UpdateRunOk(contents: map<string, string>, entries: seq<Entry>, currentVersion: string,
                                       newVersion: string, checkConsistency: bool, re: RegexEngine)
    ensures var run := UpdateRun(contents, entries, currentVersion, newVersion, checkConsistency, re);
            && run.contents.Keys == contents.Keys
            && (run.result.Ok? ==> run.result.value == PathsOf(entries) && run.writes == PathsOf(entries))
  {
    if entries != [] && entries[0].0 in contents {
      var (path, regex) := entries[0];
      var selects := Selector(re, regex);
      var text := contents[path];
      if !(checkConsistency && !VersionFound(text, currentVersion, newVersion, selects)) {
        UpdateRunOk(contents[path := BumpedText(text, currentVersion, newVersion, selects)],
                    entries[1..], currentVersion, newVersion, checkConsistency, re);
      }
    }
  }

  /** A file that no entry names is neither created, removed nor changed by the run, whatever its outcome. */
  lemma {:induction false} UpdateRunFrame(contents: map<string, string>, entries: seq<Entry>, currentVersion: string,
                                          newVersion: string, checkConsistency: bool, re: RegexEngine, path: string)
    requires forall i :: 0 <= i < |entries| ==> entries[i].0 != path
    ensures var run := UpdateRun(contents, entries, currentVersion, newVersion, checkConsistency, re);
            && (path in run.contents <==> path in contents)
            && (path in contents ==> run.contents[path] == contents[path])
  {
    if entries != [] {
      var outcome := EntryOutcome(contents, entries[0], currentVersion, newVersion, checkConsistency, re);
      if outcome.Ok? {
        var tail := entries[1..];
        assert forall i :: 0 <= i < |tail| ==> tail[i] == entries[i + 1];
        UpdateRunFrame(contents[entries[0].0 := outcome.value], tail, currentVersion, newVersion,
                       checkConsistency, re, path);
      }
    }
  }

  /**
   * After a run without error, a file that exactly one entry names holds its
   * original text bumped under that entry's regex.
   */
  lemma {:induction false} UpdateRunBumpsOnce(contents: map<string, string>, entries: seq<Entry>, currentVersion: string,
                                              newVersion: string, checkConsistency: bool, re: RegexEngine, k: nat)
    requires k < |entries|
    requires forall i :: 0 <= i < |entries| && i != k ==> entries[i].0 != entries[k].0
    requires UpdateRun(contents, entries, currentVersion, newVersion, checkConsistency, re).result.Ok?
    ensures var (path, regex) := entries[k];
            var run := UpdateRun(contents, entries, currentVersion, newVersion, checkConsistency, re);
            && path in contents && path in run.contents
            && run.contents[path] == BumpedText(contents[path], currentVersion, newVersion, Selector(re, regex))
  {
    UpdateRunOk(contents, entries, currentVersion, newVersion, checkConsistency, re);
    var outcome := EntryOutcome(contents, entries[0], currentVersion, newVersion, checkConsistency, re);
    assert outcome.Ok?;
    var next := contents[entries[0].0 := outcome.value];
    var tail := entries[1..];
    assert forall i :: 0 <= i < |tail| ==> tail[i] == entries[i + 1];
    if k == 0 {
      UpdateRunFrame(next, tail, currentVersion, newVersion, checkConsistency, re, entries[0].0);
    } else {
      assert tail[k - 1] == entries[k];
      UpdateRunBumpsOnce(next, tail, currentVersion, newVersion, checkConsistency, re, k - 1);
      assert entries[0].0 != entries[k].0;
    }
  }

  /** Without the consistency check, a run over files that all exist always succeeds. */
  lemma {:induction false} UpdateRunUnchecked(contents: map<string, string>, entries: seq<Entry>,
                                              currentVersion: string, newVersion: string, re: RegexEngine)
    requires forall i :: 0 <= i < |entries| ==> entries[i].0 in contents
    ensures UpdateRun(contents, entries, currentVersion, newVersion, false, re).result == Ok(PathsOf(entries))
  {
    if entries != [] {
      var (path, regex) := entries[0];
      var next := contents[path := BumpedText(contents[path], currentVersion, newVersion, Selector(re, regex))];
      assert forall i :: 0 <= i < |entries[1..]| ==> entries[1..][i].0 in next by {
        forall i | 0 <= i < |entries[1..]| ensures entries[1..][i].0 in next {
          assert entries[1..][i] == entries[i + 1];
        }
      }
      UpdateRunUnchecked(next, entries[1..], currentVersion, newVersion, re);
      UpdateRunOk(next, entries[1..], currentVersion, newVersion, false, re);
    }
  }

  /**
   * A failed consistency check stops at the first entry whose file does not
   * contain the current version on a selected line: every entry before it was
   * bumped and written, that file is not written, and no later one is.
   */
  lemma {:induction false} UpdateRunStopsAtFirstMiss(contents: map<string, string>, entries: seq<Entry>,
                                                     currentVersion: string, newVersion: string,
                                                     checkConsistency: bool, re: RegexEngine, message: string)
    requires UpdateRun(contents, entries, currentVersion, newVersion, checkConsistency, re).result
             == Err(CurrentVersionNotFound(message))
    ensures checkConsistency
    ensures exists k :: 0 <= k < |entries| && MissAt(contents, entries, k, currentVersion, newVersion, re, message)
  {
    var outcome := EntryOutcome(contents, entries[0], currentVersion, newVersion, checkConsistency, re);
    if outcome.Err? {
      MissAtFirst(contents, entries, currentVersion, newVersion, re, message);
    } else {
      var next := contents[entries[0].0 := outcome.value];
      UpdateRunStopsAtFirstMiss(next, entries[1..], currentVersion, newVersion, checkConsistency, re, message);
      var k :| 0 <= k < |entries[1..]| && MissAt(next, entries[1..], k, currentVersion, newVersion, re, message);
      MissAtStep(contents, entries, k, currentVersion, newVersion, re, message);
    }
  }

  lemma MissAtFirst(contents: map<string, string>, entries: seq<Entry>, currentVersion: string,
                    newVersion: string, re: RegexEngine, message: string)
    requires entries != []
    requires EntryOutcome(contents, entries[0], currentVersion, newVersion, true, re)
             == Err(CurrentVersionNotFound(message))
    ensures MissAt(contents, entries, 0, currentVersion, newVersion, re, message)
  {
    assert entries[..0] == [];
  }

  lemma MissAtStep(contents: map<string, string>, entries: seq<Entry>, k: nat, currentVersion: string,
                   newVersion: string, re: RegexEngine, message: string)
    requires k + 1 < |entries|
    requires EntryOutcome(contents, entries[0], currentVersion, newVersion, true, re).Ok?
    requires var next := contents[entries[0].0 := EntryOutcome(contents, entries[0], currentVersion, newVersion, true, re).value];
             MissAt(next, entries[1..], k, currentVersion, newVersion, re, message)
    ensures MissAt(contents, entries, k + 1, currentVersion, newVersion, re, message)
  {
    assert entries[..k + 1][1..] == entries[1..][..k];
    assert entries[..k + 1][0] == entries[0];
    assert entries[..k + 1] != [];
    assert entries[k + 1] == entries[1..][k];
  }

  /**
   * The run stopped at entry `k`: the entries before it succeeded, its file
   * (as they left it) does not show the current version on a selected line,
   * and the final files and writes are those of the entries before it.
   */
  ghost predicate MissAt(contents: map<string, string>, entries: seq<Entry>, k: nat, currentVersion: string,
                         newVersion: string, re: RegexEngine, message: string)
    requires k < |entries|
  {
    var before := UpdateRun(contents, entries[..k], currentVersion, newVersion, true, re);
    var run := UpdateRun(contents, entries, currentVersion, newVersion, true, re);
    && before.result.Ok?
    && entries[k].0 in before.contents
    && !VersionFound(before.contents[entries[k].0], currentVersion, newVersion, Selector(re, entries[k].1))
    && message == NotFoundMessage(currentVersion, entries[k].0)
    && run.contents == before.contents
    && run.writes == before.writes
  }

  /**
   * The run of the remaining `entries` once the paths `updated` have been
   * written: the state a partial run of the loop has to agree with.
   */
  ghost function Resume(updated: seq<string>, contents: map<string, string>, entries: seq<Entry>,
                        currentVersion: string, newVersion: string, checkConsistency: bool, re: RegexEngine): Run
  {
    var rest := UpdateRun(contents, entries, currentVersion, newVersion, checkConsistency, re);
    Run(Prepend(updated, rest.result), rest.contents, updated + rest.writes)
  }

  lemma ResumeStop(updated: seq<string>, contents: map<string, string>, entries: seq<Entry>,
                   currentVersion: string, newVersion: string, checkConsistency: bool, re: RegexEngine)
    requires entries != []
    requires EntryOutcome(contents, entries[0], currentVersion, newVersion, checkConsistency, re).Err?
    ensures var outcome := EntryOutcome(contents, entries[0], currentVersion, newVersion, checkConsistency, re);
            Resume(updated, contents, entries, currentVersion, newVersion, checkConsistency, re)
            == Run(Err(outcome.error), contents, updated)
  {
    assert updated + [] == updated;
  }

  lemma ResumeWrite(updated: seq<string>, contents: map<string, string>, entries: seq<Entry>,
                    currentVersion: string, newVersion: string, checkConsistency: bool, re: RegexEngine)
    requires entries != []
    requires EntryOutcome(contents, entries[0], currentVersion, newVersion, checkConsistency, re).Ok?
    ensures var outcome := EntryOutcome(contents, entries[0], currentVersion, newVersion, checkConsistency, re);
            var path := entries[0].0;
            Resume(updated, contents, entries, currentVersion, newVersion, checkConsistency, re)
            == Resume(updated + [path], contents[path := outcome.value], entries[1..], currentVersion, newVersion,
                      checkConsistency, re)
  {
    var path := entries[0].0;
    var text := EntryOutcome(contents, entries[0], currentVersion, newVersion, checkConsistency, re).value;
    var next := UpdateRun(contents[path := text], entries[1..], currentVersion, newVersion, checkConsistency, re);
    assert updated + ([path] + next.writes) == (updated + [path]) + next.writes;
    if next.result.Ok? {
      assert updated + ([path] + next.result.value) == (updated + [path]) + next.result.value;
    }
  }

  /**
   * The body of the loop of `update_version_in_files` for one entry: bump the
   * file, stop when the consistency check fails, otherwise write the file.
   */
  method BumpFile(fs: FileSystem, entry: Entry, currentVersion: string, newVersion: string,
                  checkConsistency: bool, re: RegexEngine)
    returns (outcome: Result<string, BumpError>)
    modifies fs
    ensures outcome == EntryOutcome(old(fs.contents), entry, currentVersion, newVersion, checkConsistency, re)
    ensures outcome.Err? ==> fs.contents == old(fs.contents) && fs.writes == old(fs.writes)
    ensures outcome.Ok? ==> fs.contents == old(fs.contents)[entry.0 := outcome.value]
                            && fs.writes == old(fs.writes) + [entry.0]
  {
    var (path, regex) := entry;
    var bumped := BumpWithRegex(fs, path, currentVersion, newVersion, regex, re);
    if bumped.Err? {
      return Err(bumped.error);
    }
    var (currentVersionFound, versionFile) := bumped.value;
    if checkConsistency && !currentVersionFound {
      return Err(CurrentVersionNotFound(NotFoundMessage(currentVersion, path)));
    }
    fs.Write(path, versionFile);
    outcome := Ok(versionFile);
  }

  /**
   * `update_version_in_files`: resolves the version files, then bumps and
   * rewrites each in sorted order, stopping at the first failure.
   */
  method UpdateVersionInFiles(fs: FileSystem, currentVersion: string, newVersion: string, files: seq<string>,
                              checkConsistency: bool, re: RegexEngine, paths: PathFunctions)
    returns (r: Result<seq<string>, BumpError>)
    modifies fs
    ensures var run := UpdateRun(old(fs.contents), SortedOf(ResolvedEntries(files, currentVersion, re, paths)),
                                 currentVersion, newVersion, checkConsistency, re);
            && r == run.result
            && fs.contents == run.contents
            && fs.writes == old(fs.writes) + run.writes
  {
    var entries := FilesAndRegexes(files, currentVersion, re, paths);
    SortedUnique(entries, SortedOf(ResolvedEntries(files, currentVersion, re, paths)));
    r := RewriteFiles(fs, entries, currentVersion, newVersion, checkConsistency, re);
  }

  /**
   * The loop of `update_version_in_files` over the resolved entries: for
   * each, bump the file; with `checkConsistency`, stop with an error when
   * the version was not found; otherwise write the file and record its path.
   */
  method RewriteFiles(fs: FileSystem, entries: seq<Entry>, currentVersion: string, newVersion: string,
                      checkConsistency: bool, re: RegexEngine)
    returns (r: Result<seq<string>, BumpError>)
    modifies fs
    ensures var run := UpdateRun(old(fs.contents), entries, currentVersion, newVersion, checkConsistency, re);
            && r == run.result
            && fs.contents == run.contents
            && fs.writes == old(fs.writes) + run.writes
  {
    ghost var run := UpdateRun(fs.contents, entries, currentVersion, newVersion, checkConsistency, re);
    var updated: seq<string> := [];
    var i := 0;
    assert Resume(updated, fs.contents, entries[i..], currentVersion, newVersion, checkConsistency, re) == run by {
      assert entries[i..] == entries;
      assert updated + run.writes == run.writes;
      assert run.result.Ok? ==> updated + run.result.value == run.result.value;
    }
    while i < |entries|
      invariant 0 <= i <= |entries|
      invariant fs.writes == old(fs.writes) + updated
      invariant Resume(updated, fs.contents, entries[i..], currentVersion, newVersion, checkConsistency, re) == run
    {
      assert entries[i..][0] == entries[i] && entries[i..][1..] == entries[i + 1..];
      ghost var contents := fs.contents;
      var outcome := BumpFile(fs, entries[i], currentVersion, newVersion, checkConsistency, re);
      if outcome.Err? {
        ResumeStop(updated, contents, entries[i..], currentVersion, newVersion, checkConsistency, re);
        return Err(outcome.error);
      }
      ResumeWrite(updated, contents, entries[i..], currentVersion, newVersion, checkConsistency, re);
      updated := updated + [entries[i].0];
      i := i + 1;
    }
    assert entries[i..] == [] && updated + [] == updated;
    r := Ok(updated);
  }
}
