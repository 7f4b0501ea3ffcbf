/** `load_dotenv`: the first `.env` file found walking up from the package
    directory is read line by line into the process environment, without
    overriding variables that already hold a non-empty value. */
module Env {
  import opened Wrappers
  import opened Text

  /** One `key=value` line after parsing. */
  datatype Assignment = Assignment(key: string, value: string)

  /** The environment after loading, and whether an assignment raised (the
      exception leaves the assignments made before it in place). */
  datatype Load = Load(env: map<string, string>, failed: bool)

  /** A stripped line that the loader passes over: blank, a comment, or
      without `=`. */
  predicate Ignored(line: string)
  {
    line == [] || line[0] == '#' || '=' !in line
  }

  /** One line of the file: stripped, skipped when ignorable, otherwise split
      at its first `=`; the key is stripped, the value stripped and then rid
      of surrounding quote characters. */
  function ParseLine(raw: string): (a: Option<Assignment>)
    ensures a.None? <==> Ignored(Strip(raw))
  {
    var line := Strip(raw);
    if Ignored(line) then None
    else
      var i := IndexOf(line, '=');
      Some(Assignment(Strip(line[..i]), StripQuotes(Strip(line[i + 1..]))))
  }

  /** The key is taken from before the first `=`, so it never holds one. */
  lemma KeyHasNoEquals(raw: string)
    requires ParseLine(raw).Some?
    ensures '=' !in ParseLine(raw).value.key
  {
    var line := Strip(raw);
    var i := IndexOf(line, '=');
    var p, q := TrimSlice(line[..i], false);
    assert forall k | 0 <= k < |ParseLine(raw).value.key| :: ParseLine(raw).value.key[k] == line[p + k];
  }

  /** `not os.environ.get(key)`: the variable is missing or empty. */
  predicate Unset(env: map<string, string>, key: string)
  {
    key !in env || env[key] == ""
  }

  /** Whether `os.environ[key] = value` succeeds on a POSIX system: the name
      must be non-empty, and neither part may hold a NUL character. */
  predicate Settable(a: Assignment)
  {
    a.key != "" && '\0' !in a.key && '\0' !in a.value
  }

  /** The loop over the lines of one file. With `skipEmptyKeys` a line with
      an empty key is passed over instead of being assigned. */
  function LoadLines(env: map<string, string>, lines: seq<string>, skipEmptyKeys: bool): (r: Load)
    ensures env.Keys <= r.env.Keys
    decreases |lines|
  {
    if lines == [] then Load(env, false)
    else
      var a := ParseLine(lines[0]);
      if a.None? || !Unset(env, a.value.key) || (skipEmptyKeys && a.value.key == "") then
        LoadLines(env, lines[1..], skipEmptyKeys)
      else if !Settable(a.value) then Load(env, true)
      else LoadLines(env[a.value.key := a.value.value], lines[1..], skipEmptyKeys)
  }

  /** The `.env` file that is read: the first one found among the ancestors,
      nearest first. */
  function DotenvFile(ancestors: seq<Option<string>>): (f: Option<string>)
    ensures f.Some? <==> exists i :: 0 <= i < |ancestors| && ancestors[i].Some?
    ensures f.Some? ==> exists i :: (0 <= i < |ancestors| && ancestors[i] == f &&
      forall j | 0 <= j < i :: ancestors[j].None?)
  {
    if ancestors == [] then None
    else if ancestors[0].Some? then ancestors[0]
    else
      var f := DotenvFile(ancestors[1..]);
      if f.Some? then
        ghost var i :| 0 <= i < |ancestors| - 1 && ancestors[1..][i] == f &&
          forall j | 0 <= j < i :: ancestors[1..][j].None?;
        assert ancestors[i + 1] == f;
        f
      else
        assert forall i | 0 <= i < |ancestors| - 1 :: ancestors[i + 1] == ancestors[1..][i];
        f
  }

  /** `load_dotenv`. `ancestors[i]` is the text of `.env` in the i-th
      directory walking upward, `None` where there is no such file; `env`
      is the environment before the call. */
  method LoadDotenv(ancestors: seq<Option<string>>, env: map<string, string>)
    returns (env': map<string, string>, failed: bool)
    ensures DotenvFile(ancestors).None? ==> env' == env && !failed
    ensures DotenvFile(ancestors).Some? ==>
      Load(env', failed) == LoadLines(env, SplitLines(DotenvFile(ancestors).value), false)
  {
    env', failed := env, false;
    for d := 0 to |ancestors|
      invariant DotenvFile(ancestors) == DotenvFile(ancestors[d..])
      invariant env' == env && !failed
    {
      assert ancestors[d..][1..] == ancestors[d + 1..];
      if ancestors[d].Some? {
        var lines := SplitLines(ancestors[d].value);
        for k := 0 to |lines|
          invariant !failed
          invariant LoadLines(env, lines, false) == LoadLines(env', lines[k..], false)
        {
          assert lines[k..][1..] == lines[k + 1..];
          var a := ParseLine(lines[k]);
          if a.Some? && Unset(env', a.value.key) {
            if !Settable(a.value) {
              failed := true;
              return;
            }
            env' := env'[a.value.key := a.value.value];
          }
        }
        return;
      }
    }
  }

  /** A variable that already holds a non-empty value is never overwritten. */
  lemma {:induction false} KeepsSetVariables(env: map<string, string>, lines: seq<string>, skip: bool, key: string)
    requires !Unset(env, key)
    ensures key in LoadLines(env, lines, skip).env
    ensures LoadLines(env, lines, skip).env[key] == env[key]
    decreases |lines|
  {
    if lines != [] {
      var a := ParseLine(lines[0]);
      if a.None? || !Unset(env, a.value.key) || (skip && a.value.key == "") {
        KeepsSetVariables(env, lines[1..], skip, key);
      } else if Settable(a.value) {
        KeepsSetVariables(env[a.value.key := a.value.value], lines[1..], skip, key);
      }
    }
  }

  /** The value of the first assignment to `key` whose value is non-empty. */
  function FirstNonEmpty(lines: seq<string>, key: string): (v: Option<string>)
    ensures v.Some? ==> v.value != ""
  {
    if lines == [] then None
    else
      var a := ParseLine(lines[0]);
      if a.Some? && a.value.key == key && a.value.value != "" then Some(a.value.value)
      else FirstNonEmpty(lines[1..], key)
  }

  /** Within one file the first non-empty assignment of an unset variable
      wins: earlier empty assignments are overwritten, later ones ignored. */
  lemma {:induction false} FirstNonEmptyWins(env: map<string, string>, lines: seq<string>, key: string)
    requires Unset(env, key) && !LoadLines(env, lines, false).failed
    requires FirstNonEmpty(lines, key).Some?
    ensures key in LoadLines(env, lines, false).env
    ensures LoadLines(env, lines, false).env[key] == FirstNonEmpty(lines, key).value
    decreases |lines|
  {
    var a := ParseLine(lines[0]);
    if a.None? || !Unset(env, a.value.key) {
      FirstNonEmptyWins(env, lines[1..], key);
    } else {
      var env1 := env[a.value.key := a.value.value];
      if a.value.key == key && a.value.value != "" {
        KeepsSetVariables(env1, lines[1..], false, key);
      } else {
        FirstNonEmptyWins(env1, lines[1..], key);
      }
    }
  }

  /** Only the variables the file assigns can change. */
  lemma {:induction false} OnlyAssignedChange(env: map<string, string>, lines: seq<string>, skip: bool, key: string)
    requires forall l <- lines :: ParseLine(l).Some? ==> ParseLine(l).value.key != key
    ensures key in LoadLines(env, lines, skip).env <==> key in env
    ensures key in env ==> LoadLines(env, lines, skip).env[key] == env[key]
    decreases |lines|
  {
    if lines != [] {
      var a := ParseLine(lines[0]);
      if a.None? || !Unset(env, a.value.key) || (skip && a.value.key == "") {
        OnlyAssignedChange(env, lines[1..], skip, key);
      } else if Settable(a.value) {
        OnlyAssignedChange(env[a.value.key := a.value.value], lines[1..], skip, key);
      }
    }
  }

  /** The value keeps every `=` after the first one. */
  lemma SplitsAtFirstEquals()
    ensures ParseLine("A=b=c") == Some(Assignment("A", "b=c"))
  {
    ExampleLine();
    ParseLineSplit("A=b=c", "A=b=c", 1);
    ExampleParts();
  }

  /** "A=b=c" is kept whole by the strip and has its first `=` at 1. */
  lemma ExampleLine()
    ensures Strip("A=b=c") == "A=b=c" && !Ignored("A=b=c") && IndexOf("A=b=c", '=') == 1
    ensures "A=b=c"[..1] == "A" && "A=b=c"[2..] == "b=c"
  {
    TrimKeptEnds("A=b=c", false);
    assert "A=b=c"[1] == '=';
  }

  /** The key and value of "A=b=c" are kept whole by their strips. */
  lemma ExampleParts()
    ensures Strip("A") == "A" && StripQuotes(Strip("b=c")) == "b=c"
  {
    TrimKeptEnds("A", false);
    TrimKeptEnds("b=c", false);
    TrimKeptEnds("b=c", true);
  }

  /** A line that is not passed over is split at its first `=`. */
  lemma ParseLineSplit(raw: string, line: string, i: nat)
    requires Strip(raw) == line && !Ignored(line) && IndexOf(line, '=') == i
    ensures ParseLine(raw) == Some(Assignment(Strip(line[..i]), StripQuotes(Strip(line[i + 1..]))))
  {
  }

  /** Comments and lines without `=` are skipped. */
  lemma SkipsCommentsAndBareWords()
    ensures ParseLine("# KEY=v") == None
    ensures ParseLine("KEY") == None
  {
    SkipsComment();
    SkipsBareWord();
  }

  /** A comment line is passed over. */
  lemma SkipsComment()
    ensures ParseLine("# KEY=v") == None
  {
    TrimKeptEnds("# KEY=v", false);
  }

  /** A line without `=` is passed over. */
  lemma SkipsBareWord()
    ensures ParseLine("KEY") == None
  {
    TrimKeptEnds("KEY", false);
  }

  /** A line with an empty key, such as `=x`, reaches `os.environ[""] = "x"`,
      which raises and ends the whole load. */
  lemma EmptyKeyAborts(env: map<string, string>)
    requires "" !in env
    ensures LoadLines(env, ["=x"], false) == Load(env, true)
  {
    assert Strip("=x") == "=x";
    assert IndexOf("=x", '=') == 0;
    assert Strip("") == "";
  }

  /** A parsed line takes its key and value from the line's own characters. */
  lemma ParsedPartsFromLine(raw: string, c: char)
    requires c !in raw && ParseLine(raw).Some?
    ensures c !in ParseLine(raw).value.key && c !in ParseLine(raw).value.value
  {
    var line := Strip(raw);
    TrimWithout(raw, false, c);
    var i := IndexOf(line, '=');
    assert c !in line[..i] && c !in line[i + 1..];
    TrimWithout(line[..i], false, c);
    TrimWithout(line[i + 1..], false, c);
    TrimWithout(Strip(line[i + 1..]), true, c);
  }

  /** Passing over empty keys, a file without NUL characters always loads. */
  lemma {:induction false} CorrectedNeverAborts(env: map<string, string>, lines: seq<string>)
    requires forall l <- lines :: '\0' !in l
    ensures !LoadLines(env, lines, true).failed
    decreases |lines|
  {
    if lines != [] {
      var a := ParseLine(lines[0]);
      if a.Some? {
        ParsedPartsFromLine(lines[0], '\0');
      }
      if a.None? || !Unset(env, a.value.key) || a.value.key == "" {
        CorrectedNeverAborts(env, lines[1..]);
      } else {
        CorrectedNeverAborts(env[a.value.key := a.value.value], lines[1..]);
      }
    }
  }
}
