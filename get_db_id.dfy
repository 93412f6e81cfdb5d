/** scripts/get-db-id.mjs: look up the id of a D1 database and either print
    it or append it to the GitHub Actions environment file. The wrangler
    command and the JSON parse of its output are an input outcome. */
module GetDbId {
  import opened JsText

  const DEFAULT_DATABASE_NAME := "hello_world"
  const DEFAULT_VARIABLE := "D1_DATABASE_ID"
  const GITHUB_ENV_FLAG := "--github-env"
  const GITHUB_ENV_ASSIGNMENT := "--github-env="
  const GITHUB_ENV_UNSET := "GITHUB_ENV is not set. This option is only available within GitHub Actions."

  /** What `wrangler d1 info <name> --json` followed by `JSON.parse` gives:
      a failure (the command's or the parser's message), or the `uuid`
      property of the parsed value (Missing when it has none). */
  datatype Info = Unavailable(message: string) | Parsed(uuid: Value)

  /** Where `runCli` sends the id, or the message it exits with. */
  datatype Output =
    | Printed(text: string)
    | Appended(file: string, line: string)
    | Failed(message: string)

  function MissingIdMessage(databaseName: string): string {
    "Could not find a database id in the response for \"" + databaseName + "\"."
  }

  /** `fetchDatabaseId(databaseName)`: the parsed `uuid` when it is truthy;
      an error naming the database when it is not. */
  function FetchDatabaseId(databaseName: string, info: Info): (r: Result<Value>)
    ensures r.Ok? <==> info.Parsed? && Truthy(info.uuid)
    ensures r.Ok? ==> r.value == info.uuid && Truthy(r.value)
    ensures info.Parsed? && !Truthy(info.uuid) ==> r == Err(MissingIdMessage(databaseName))
    ensures info.Unavailable? ==> r == Err(info.message)
  {
    match info
    case Unavailable(message) => Err(message)
    case Parsed(uuid) => if Truthy(uuid) then Ok(uuid) else Err(MissingIdMessage(databaseName))
  }

  /** The arguments the loop of `runCli` consumes as flags. */
  predicate IsFlag(arg: string) {
    arg == GITHUB_ENV_FLAG || StartsWith(arg, GITHUB_ENV_ASSIGNMENT)
  }

  /** `githubEnvVariable` after the loop: set by the last `--github-env`
      or `--github-env=NAME`, null when neither occurs. */
  function GithubEnvVariable(args: seq<string>): (v: Option<string>)
    decreases |args|
  {
    if args == [] then None
    else
      var last := args[|args| - 1];
      if last == GITHUB_ENV_FLAG then Some(DEFAULT_VARIABLE)
      else if StartsWith(last, GITHUB_ENV_ASSIGNMENT) then Some(OrDefault(SecondPiece(last, '='), DEFAULT_VARIABLE))
      else GithubEnvVariable(args[..|args| - 1])
  }

  /** The line `writeGithubEnv` appends to the environment file. */
  function EnvFileLine(variableName: string, databaseId: Value): (line: string)
    ensures |line| > 0 && line[|line| - 1] == '\n'
    ensures '\n' !in variableName && '\n' !in ToText(databaseId) ==> '\n' !in line[..|line| - 1]
    ensures '=' !in variableName ==>
      Split(line[..|line| - 1], '=') == [variableName] + Split(ToText(databaseId), '=')
  {
    var line := variableName + "=" + ToText(databaseId) + "\n";
    assert line[..|line| - 1] == variableName + ['='] + ToText(databaseId);
    if '=' !in variableName then
      SplitAfterSeparator(variableName, '=', ToText(databaseId));
      line
    else line
  }

  /** `runCli(argv)`: the argument loop, then the lookup, then exactly one
      of printing the id, appending `NAME=<id>` to the file named by
      GITHUB_ENV, or failing with the message of the error. */
  method RunCli(argv: seq<string>, info: Info, githubEnvFile: Option<string>) returns (output: Output)
    ensures var args := CommandArgs(argv);
      var fetched := FetchDatabaseId(FirstOr(Unconsumed(args, IsFlag), DEFAULT_DATABASE_NAME), info);
      var variable := GithubEnvVariable(args);
      && (fetched.Err? ==> output == Failed(fetched.error))
      && (fetched.Ok? && variable.None? ==> output == Printed(ToText(fetched.value)))
      && (fetched.Ok? && variable.Some? && githubEnvFile.Some? && githubEnvFile.value != "" ==>
            output == Appended(githubEnvFile.value, EnvFileLine(variable.value, fetched.value)))
      && (fetched.Ok? && variable.Some? && (githubEnvFile.None? || githubEnvFile.value == "") ==>
            output == Failed(GITHUB_ENV_UNSET))
  {
    var args := CommandArgs(argv);
    var positional: seq<string> := [];
    var githubEnvVariable: Option<string> := None;

    for i := 0 to |args|
      invariant positional == Unconsumed(args[..i], IsFlag)
      invariant githubEnvVariable == GithubEnvVariable(args[..i])
    {
      var arg := args[i];
      UnconsumedStep(args, IsFlag, i);
      assert args[..i + 1][..i] == args[..i];
      if arg == GITHUB_ENV_FLAG {
        githubEnvVariable := Some(DEFAULT_VARIABLE);
        continue;
      }
      if StartsWith(arg, GITHUB_ENV_ASSIGNMENT) {
        var variableName := SecondPiece(arg, '=');
        githubEnvVariable := Some(OrDefault(variableName, DEFAULT_VARIABLE));
        continue;
      }
      positional := positional + [arg];
    }
    assert args[..|args|] == args;

    var databaseName := FirstOr(positional, DEFAULT_DATABASE_NAME);
    var fetched := FetchDatabaseId(databaseName, info);
    if fetched.Err? {
      return Failed(fetched.error);
    }
    if githubEnvVariable.Some? {
      if githubEnvFile.None? || githubEnvFile.value == "" {
        return Failed(GITHUB_ENV_UNSET);
      }
      return Appended(githubEnvFile.value, EnvFileLine(githubEnvVariable.value, fetched.value));
    }
    return Printed(ToText(fetched.value));
  }

  /** The variable is chosen by the last `--github-env` form: the bare flag
      selects D1_DATABASE_ID, `--github-env=NAME` selects the part of NAME
      before any further `=`, and an empty NAME falls back to D1_DATABASE_ID. */
  lemma {:induction false} GithubEnvVariableLast(args: seq<string>, i: nat)
    requires i < |args| && IsFlag(args[i])
    requires forall j :: i < j < |args| ==> !IsFlag(args[j])
    ensures args[i] == GITHUB_ENV_FLAG ==> GithubEnvVariable(args) == Some(DEFAULT_VARIABLE)
    ensures args[i] != GITHUB_ENV_FLAG ==>
      var name := args[i][|GITHUB_ENV_ASSIGNMENT|..];
      GithubEnvVariable(args) == Some(OrDefault(Some(Split(name, '=')[0]), DEFAULT_VARIABLE))
    decreases |args|
  {
    if i < |args| - 1 {
      var init := args[..|args| - 1];
      assert init[i] == args[i];
      forall j | i < j < |init| ensures !IsFlag(init[j]) { assert init[j] == args[j]; }
      GithubEnvVariableLast(init, i);
    } else if args[i] != GITHUB_ENV_FLAG {
      var name := args[i][|GITHUB_ENV_ASSIGNMENT|..];
      assert args[i] == GITHUB_ENV_FLAG + "=" + name;
      FlagValue(GITHUB_ENV_FLAG, name);
    }
  }

  /** With neither form of the flag the variable stays null. */
  lemma {:induction false} GithubEnvVariableUnset(args: seq<string>)
    requires forall j :: 0 <= j < |args| ==> !IsFlag(args[j])
    ensures GithubEnvVariable(args) == None
    decreases |args|
  {
    if args != [] {
      var init := args[..|args| - 1];
      forall j | 0 <= j < |init| ensures !IsFlag(init[j]) { assert init[j] == args[j]; }
      GithubEnvVariableUnset(init);
    }
  }

  /** A selected variable name is never empty. */
  lemma {:induction false} GithubEnvVariableNonEmpty(args: seq<string>)
    ensures GithubEnvVariable(args).Some? ==> GithubEnvVariable(args).value != ""
    decreases |args|
  {
    if args != [] {
      GithubEnvVariableNonEmpty(args[..|args| - 1]);
    }
  }
}
