/**
 * The decision logic of commitizen's command-line entry point (commitizen/cli.py):
 * the `key=value` option action, the `--no-raise` list parser, the exit code the
 * exception hook chooses, the `--` separator check on unknown arguments and the
 * default plugin name.
 */
module Cli {
  import opened Wrappers
  import opened Strings

  /** `InvalidCommandArgumentError` with its message. */
  datatype CliError = InvalidCommandArgument(message: string)

  /** How Python formats an optional option string inside an f-string. */
  function OptionText(optionString: Option<string>): string
  {
    match optionString
    case Some(o) => o
    case None => "None"
  }

  /** The error raised for a token that is not of the form `key=value`. */
  function KeyValueFormatError(optionString: Option<string>): CliError
  {
    InvalidCommandArgument("Option " + OptionText(optionString) + " expect a key=value format")
  }

  /** The characters `value.strip("'\"")` removes. */
  const Quotes: set<char> := {'\'', '"'}

  /**
   * What one `key=value` token contributes: the key is the text before the
   * first '=', the value the rest with surrounding quotes removed. A token
   * with no '=' or with an empty key is refused.
   */
  function KeyValue(token: string, optionString: Option<string>): (r: Result<(string, string), CliError>)
    ensures r.Ok? <==> '=' in token && token[0] != '='
    ensures r.Ok? ==> var key := r.value.0;
                      key != [] && '=' !in key && |key| < |token| && token[..|key| + 1] == key + "="
                      && r.value.1 == Strip(token[|key| + 1..], Quotes)
    ensures r.Err? ==> r.error == KeyValueFormatError(optionString)
  {
    if '=' !in token then Err(KeyValueFormatError(optionString))
    else
      var i := FirstIndex(token, '=');
      var key, value := token[..i], token[i + 1..];
      if key == [] then Err(KeyValueFormatError(optionString))
      else
        assert |key| == i && token[|key| + 1..] == value;
        Ok((key, Strip(value, Quotes)))
  }

  /**
   * A key without '=' followed by '=' and any value (which may itself hold '='
   * signs) is accepted: the key comes back unchanged and the value unquoted.
   */
  lemma KeyValueRoundTrip(key: string, value: string, optionString: Option<string>)
    requires key != [] && '=' !in key
    ensures KeyValue(key + "=" + value, optionString) == Ok((key, Strip(value, Quotes)))
  {
    var token := key + "=" + value;
    FirstIndexAfter(key, value, '=');
    assert token[0] == key[0] && token[|key|] == '=';
    assert token[..|key|] == key && token[|key| + 1..] == value;
  }

  /** Quotes around a value whose own ends are not quotes are removed, and nothing else is. */
  lemma StripEnclosingQuotes(value: string, q: char)
    requires q in Quotes
    requires value == [] || (value[0] !in Quotes && value[|value| - 1] !in Quotes)
    ensures Strip([q] + value + [q], Quotes) == value
  {
    var s := [q] + value + [q];
    var lead := StripLeading(s, Quotes);
    if value == [] {
      assert lead == [];
    } else {
      assert s[1..] == value + [q];
      assert StripLeading(s[1..], Quotes) == s[1..];
      assert lead == value + [q];
      assert lead[..|lead| - 1] == value;
      assert StripTrailing(lead[..|lead| - 1], Quotes) == value;
    }
  }

  /** The value argparse hands to an action: a string, or anything else (a list, None). */
  datatype ArgValues = Text(text: string) | NotText

  /**
   * The argparse namespace, reduced to its dictionary-valued attributes: a
   * name missing from `dicts` is an attribute that is unset, None or an empty
   * dictionary, which `getattr(...) or {}` treats alike.
   */
  class Namespace {
    var dicts: map<string, map<string, string>>

    constructor ()
      ensures dicts == map[]
    {
      dicts := map[];
    }

    /** The dictionary held under `name`, `{}` when there is none. */
    function DictAt(name: string): map<string, string>
      reads this
    {
      if name in dicts then dicts[name] else map[]
    }
  }

  /** The `ParseKwargs` argparse action, bound to the attribute it fills. */
  class ParseKwargs {
    const dest: string

    constructor (dest: string)
      ensures this.dest == dest
    {
      this.dest := dest;
    }

    /**
     * Stores one `key=value` token in the dictionary under `dest`. A
     * non-string `values` is ignored; a malformed token is refused (the
     * returned error) before anything is changed. Otherwise the entries
     * already there are kept and `key` is set to the unquoted value,
     * replacing any earlier value for the same key.
     */
    method Call(namespace: Namespace, values: ArgValues, optionString: Option<string>)
      returns (raised: Option<CliError>)
      modifies namespace
      ensures values.NotText? ==> raised == None && namespace.dicts == old(namespace.dicts)
      ensures values.Text? && KeyValue(values.text, optionString).Err? ==>
                raised == Some(KeyValue(values.text, optionString).error)
                && namespace.dicts == old(namespace.dicts)
      ensures values.Text? && KeyValue(values.text, optionString).Ok? ==>
                var (key, value) := KeyValue(values.text, optionString).value;
                raised == None
                && namespace.dicts == old(namespace.dicts)[dest := old(namespace.DictAt(dest))[key := value]]
    {
      if values.NotText? {
        return None;
      }
      var token := values.text;
      if '=' !in token {
        return Some(KeyValueFormatError(optionString));
      }
      var kwargs := namespace.DictAt(dest);
      var i := FirstIndex(token, '=');
      var key, value := token[..i], token[i + 1..];
      if key == [] {
        return Some(KeyValueFormatError(optionString));
      }
      assert KeyValue(token, optionString) == Ok((key, Strip(value, Quotes)));
      kwargs := kwargs[key := Strip(value, Quotes)];
      namespace.dicts := namespace.dicts[dest := kwargs];
      raised := None;
    }
  }

  /** The exit code one `--no-raise` item names, if any. */
  function NoRaiseCode(item: string, exitCodes: map<string, int>): Option<int>
  {
    if IsDecimal(item) then Some(DecimalValue(item))
    else
      var name := Strip(item, Whitespace);
      if name in exitCodes then Some(exitCodes[name]) else None
  }

  /** The code of one item as a list of zero or one elements. */
  function CodeOf(item: string, exitCodes: map<string, int>): seq<int>
  {
    match NoRaiseCode(item, exitCodes)
    case Some(c) => [c]
    case None => []
  }

  /** The exit codes a list of items names, in item order, unknown names left out. */
  function NoRaiseCodes(items: seq<string>, exitCodes: map<string, int>): seq<int>
  {
    if items == [] then [] else CodeOf(items[0], exitCodes) + NoRaiseCodes(items[1..], exitCodes)
  }

  /** The codes of a concatenation are the codes of each part, in order. */
  lemma {:induction false} NoRaiseCodesAppend(a: seq<string>, b: seq<string>, exitCodes: map<string, int>)
    ensures NoRaiseCodes(a + b, exitCodes) == NoRaiseCodes(a, exitCodes) + NoRaiseCodes(b, exitCodes)
  {
    if a != [] {
      NoRaiseCodesAppend(a[1..], b, exitCodes);
      assert (a + b)[0] == a[0] && (a + b)[1..] == a[1..] + b;
      var h := CodeOf(a[0], exitCodes);
      assert NoRaiseCodes(a + b, exitCodes) == h + NoRaiseCodes(a[1..] + b, exitCodes);
    } else {
      assert a + b == b;
    }
  }

  lemma NoRaiseCodesStep(items: seq<string>, i: nat, exitCodes: map<string, int>)
    requires i < |items|
    ensures NoRaiseCodes(items[..i + 1], exitCodes) == NoRaiseCodes(items[..i], exitCodes) + CodeOf(items[i], exitCodes)
  {
    NoRaiseCodesAppend(items[..i], [items[i]], exitCodes);
    assert items[..i + 1] == items[..i] + [items[i]];
  }

  /** No item yields more than one code. */
  lemma {:induction false} NoRaiseCodesBound(items: seq<string>, exitCodes: map<string, int>)
    ensures |NoRaiseCodes(items, exitCodes)| <= |items|
  {
    if items != [] {
      NoRaiseCodesBound(items[1..], exitCodes);
    }
  }

  /** A code is in the result exactly when some item names it. */
  lemma {:induction false} NoRaiseCodesMembers(items: seq<string>, exitCodes: map<string, int>, c: int)
    ensures c in NoRaiseCodes(items, exitCodes) <==>
              exists i :: 0 <= i < |items| && NoRaiseCode(items[i], exitCodes) == Some(c)
  {
    if items != [] {
      NoRaiseCodesMembers(items[1..], exitCodes, c);
      if c in NoRaiseCodes(items[1..], exitCodes) {
        var i :| 0 <= i < |items[1..]| && NoRaiseCode(items[1..][i], exitCodes) == Some(c);
        assert NoRaiseCode(items[i + 1], exitCodes) == Some(c);
      }
      if exists i :: 0 <= i < |items| && NoRaiseCode(items[i], exitCodes) == Some(c) {
        var i :| 0 <= i < |items| && NoRaiseCode(items[i], exitCodes) == Some(c);
        if i > 0 {
          assert NoRaiseCode(items[1..][i - 1], exitCodes) == Some(c);
        }
      }
    }
  }

  /** `parse_no_raise` returns at most one code more than there are commas in its input. */
  lemma ParseNoRaiseBound(commaSeparated: string, exitCodes: map<string, int>)
    ensures |NoRaiseCodes(Split(commaSeparated, ','), exitCodes)| <= multiset(commaSeparated)[','] + 1
  {
    NoRaiseCodesBound(Split(commaSeparated, ','), exitCodes);
    SplitCount(commaSeparated, ',');
  }

  /**
   * The decimal test sees the item before whitespace is stripped: a number
   * with leading blanks is looked up as a name.
   */
  lemma PaddedNumberIsAName(digits: string, exitCodes: map<string, int>)
    requires IsDecimal(digits)
    ensures NoRaiseCode(" " + digits, exitCodes) == if digits in exitCodes then Some(exitCodes[digits]) else None
  {
    var item := " " + digits;
    assert item[0] == ' ' && item[1..] == digits;
    assert !IsDecimal(item);
    assert '0' <= digits[0] <= '9' && '0' <= digits[|digits| - 1] <= '9';
    assert digits[0] !in Whitespace && digits[|digits| - 1] !in Whitespace;
    assert StripLeading(digits, Whitespace) == digits;
    assert StripLeading(item, Whitespace) == digits;
    assert StripTrailing(digits, Whitespace) == digits;
    assert Strip(item, Whitespace) == digits;
  }

  /** `parse_no_raise`: the comma-separated items turned into exit codes, in order. */
  method ParseNoRaise(commaSeparated: string, exitCodes: map<string, int>) returns (codes: seq<int>)
    ensures codes == NoRaiseCodes(Split(commaSeparated, ','), exitCodes)
  {
    var items := Split(commaSeparated, ',');
    codes := [];
    var i := 0;
    while i < |items|
      invariant 0 <= i <= |items|
      invariant codes == NoRaiseCodes(items[..i], exitCodes)
    {
      var item := items[i];
      NoRaiseCodesStep(items, i, exitCodes);
      i := i + 1;
      if IsDecimal(item) {
        codes := codes + [DecimalValue(item)];
        continue;
      }
      var name := Strip(item, Whitespace);
      if name !in exitCodes {
        assert CodeOf(item, exitCodes) == [];
        continue;
      }
      codes := codes + [exitCodes[name]];
    }
    assert items[..i] == items;
  }

  /** The name of the exit code used for exceptions the user chose not to raise. */
  const ExpectedExitName: string := "EXPECTED_EXIT"

  /** The exception reaching the hook: a commitizen exception or any other. */
  datatype Raised = CommitizenException(exitCode: int, message: string) | OtherException

  /**
   * What the hook does: hand the exception to Python's own hook, or exit with
   * a code after printing the message (when there is one) and, in debug mode,
   * the traceback.
   */
  datatype HookOutcome = Delegate | Exit(code: int, printsMessage: bool, printsTraceback: bool)

  /**
   * `commitizen_excepthook`; `noRaise` is the parsed `--no-raise` list, empty
   * when the option was not given.
   */
  function Excepthook(value: Raised, debug: bool, noRaise: seq<int>, exitCodes: map<string, int>): (h: HookOutcome)
    requires ExpectedExitName in exitCodes
    ensures h.Delegate? <==> value.OtherException?
    ensures h.Exit? ==> h.printsMessage == (value.message != "") && h.printsTraceback == debug
    ensures h.Exit? && value.exitCode in noRaise ==> h.code == exitCodes[ExpectedExitName]
    ensures h.Exit? && value.exitCode !in noRaise ==> h.code == value.exitCode
  {
    match value
    case OtherException => Delegate
    case CommitizenException(code, message) =>
      Exit(if code in noRaise then exitCodes[ExpectedExitName] else code, message != "", debug)
  }

  /**
   * End to end: an exception whose code some `--no-raise` item names (by
   * number or by name) ends the program with EXPECTED_EXIT; one that no item
   * names keeps its own code.
   */
  lemma NoRaiseSilences(commaSeparated: string, exitCodes: map<string, int>, code: int, message: string)
    requires ExpectedExitName in exitCodes
    ensures var items := Split(commaSeparated, ',');
            var h := Excepthook(CommitizenException(code, message), false,
                                NoRaiseCodes(items, exitCodes), exitCodes);
            h.code == if exists i :: 0 <= i < |items| && NoRaiseCode(items[i], exitCodes) == Some(code)
                      then exitCodes[ExpectedExitName] else code
  {
    NoRaiseCodesMembers(Split(commaSeparated, ','), exitCodes, code);
  }

  /** What `main` records for the arguments after `--`, and whether it warns that there are none. */
  datatype ExtraArgs = ExtraArgs(joined: string, warnsIncomplete: bool)

  /** The error for unknown arguments given without any `--`. */
  function NoSeparatorError(unknownArgs: seq<string>): CliError
  {
    InvalidCommandArgument("Invalid commitizen arguments were found: `" + Join(unknownArgs, ' ')
                           + "`. Please use -- separator for extra git args")
  }

  /** The error for arguments standing before the first `--`. */
  function BeforeSeparatorError(before: seq<string>): CliError
  {
    InvalidCommandArgument("Invalid commitizen arguments were found before -- separator: `"
                           + Join(before, ' ') + "`. ")
  }

  /**
   * The check `main` applies to the arguments argparse did not recognise: none
   * at all records nothing; otherwise they must start with `--`, and the rest
   * is passed on as one space-separated string.
   */
  function ExtraCliArgs(unknownArgs: seq<string>): (r: Result<Option<ExtraArgs>, CliError>)
    ensures r == Ok(None) <==> unknownArgs == []
    ensures r.Err? <==> unknownArgs != [] && unknownArgs[0] != "--"
    ensures r.Err? && "--" !in unknownArgs ==> r.error == NoSeparatorError(unknownArgs)
    ensures r.Err? && "--" in unknownArgs ==>
              exists pos :: 0 < pos < |unknownArgs| && unknownArgs[pos] == "--" && "--" !in unknownArgs[..pos]
                            && r.error == BeforeSeparatorError(unknownArgs[..pos])
    ensures r.Ok? && r.value.Some? ==>
              r.value.value == ExtraArgs(Join(unknownArgs[1..], ' '), |unknownArgs| == 1)
  {
    if unknownArgs == [] then Ok(None)
    else if "--" !in unknownArgs then Err(NoSeparatorError(unknownArgs))
    else if unknownArgs[0] != "--" then
      var pos := FirstIndex(unknownArgs, "--");
      Err(BeforeSeparatorError(unknownArgs[..pos]))
    else Ok(Some(ExtraArgs(Join(unknownArgs[1..], ' '), |unknownArgs| == 1)))
  }

  /**
   * The joined extra arguments split back on spaces into the tokens after
   * `--`, provided there is at least one and none holds a space.
   */
  lemma ExtraCliArgsRoundTrip(unknownArgs: seq<string>)
    requires |unknownArgs| >= 2 && unknownArgs[0] == "--"
    requires forall i :: 1 <= i < |unknownArgs| ==> ' ' !in unknownArgs[i]
    ensures ExtraCliArgs(unknownArgs).Ok?
    ensures Split(ExtraCliArgs(unknownArgs).value.value.joined, ' ') == unknownArgs[1..]
  {
    var rest := unknownArgs[1..];
    assert forall i :: 0 <= i < |rest| ==> ' ' !in rest[i] by {
      forall i | 0 <= i < |rest| ensures ' ' !in rest[i] {
        assert rest[i] == unknownArgs[i + 1];
      }
    }
    SplitJoin(rest, ' ');
  }

  /** The plugin name used when neither `--name` nor a configuration file gives one. */
  const DefaultName: string := "cz_conventional_commits"

  /**
   * The configuration settings after `main` applies the name: a non-empty
   * `--name` wins; otherwise, without a configuration file, the default
   * name is set; otherwise the settings are left as read.
   */
  function ApplyName(settings: map<string, string>, argName: Option<string>, configPath: Option<string>)
    : (s: map<string, string>)
    ensures s.Keys == settings.Keys + (if (argName.Some? && argName.value != "") || configPath.None? then {"name"} else {})
    ensures forall k :: k in settings && k != "name" ==> k in s && s[k] == settings[k]
    ensures argName.Some? && argName.value != "" ==> "name" in s && s["name"] == argName.value
    ensures (argName.None? || argName.value == "") && configPath.None? ==> "name" in s && s["name"] == DefaultName
    ensures (argName.None? || argName.value == "") && configPath.Some? ==> s == settings
  {
    if argName.Some? && argName.value != "" then settings["name" := argName.value]
    else if configPath.None? then settings["name" := DefaultName]
    else settings
  }
}
