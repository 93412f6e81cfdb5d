/** scripts/ensure-db.mjs: make sure a D1 database exists, write its id into
    the wrangler configuration and, for a database it had to create, apply
    the migrations. The wrangler commands, the configuration write and the
    migration run are input outcomes; what `main` does with them is the
    trace of effects it requests and how it ends. */
module EnsureDb {
  import opened JsText
  import GetDbId

  const DEFAULT_DATABASE_NAME := "hello_world"
  const DEFAULT_WRANGLER_PATH := "wrangler.toml"
  const WRANGLER_FLAG := "--wrangler"
  const WRANGLER_ASSIGNMENT := "--wrangler="
  const NO_MIGRATIONS := "--no-migrations"
  const MISSING_WRANGLER_VALUE := "--wrangler requires a value, e.g. --wrangler=../wrangler.toml"

  datatype Options = Options(databaseName: string, wranglerPath: string, runMigrations: bool)

  /** The arguments the loop of `parseArguments` consumes instead of
      pushing them onto `positional`. */
  predicate IsRecognised(arg: string) {
    StartsWith(arg, WRANGLER_ASSIGNMENT) || arg == WRANGLER_FLAG || arg == NO_MIGRATIONS
  }

  /** `wranglerPath` after the loop: `wrangler.toml` unless a
      `--wrangler=PATH` reassigned it, the last one deciding. */
  function WranglerPath(args: seq<string>): string
    decreases |args|
  {
    if args == [] then DEFAULT_WRANGLER_PATH
    else
      var last := args[|args| - 1];
      if StartsWith(last, WRANGLER_ASSIGNMENT) then OrDefault(SecondPiece(last, '='), DEFAULT_WRANGLER_PATH)
      else WranglerPath(args[..|args| - 1])
  }

  /** `parseArguments(argv)`: a bare `--wrangler` throws; otherwise the
      first positional names the database, the last `--wrangler=PATH`
      gives the path and any `--no-migrations` switches the migrations
      off. */
  method ParseArguments(argv: seq<string>) returns (r: Result<Options>)
    ensures var args := CommandArgs(argv);
      && (r.Err? <==> WRANGLER_FLAG in args)
      && (r.Err? ==> r.error == MISSING_WRANGLER_VALUE)
      && (r.Ok? ==> r.value.databaseName == FirstOr(Unconsumed(args, IsRecognised), DEFAULT_DATABASE_NAME))
      && (r.Ok? ==> r.value.wranglerPath == WranglerPath(args))
      && (r.Ok? ==> (r.value.runMigrations <==> NO_MIGRATIONS !in args))
  {
    var args := CommandArgs(argv);
    var positional: seq<string> := [];
    var wranglerPath := DEFAULT_WRANGLER_PATH;
    var runMigrations := true;

    for i := 0 to |args|
      invariant WRANGLER_FLAG !in args[..i]
      invariant positional == Unconsumed(args[..i], IsRecognised)
      invariant wranglerPath == WranglerPath(args[..i])
      invariant runMigrations <==> NO_MIGRATIONS !in args[..i]
    {
      var arg := args[i];
      UnconsumedStep(args, IsRecognised, i);
      InLongerPrefix(args, i, WRANGLER_FLAG);
      InLongerPrefix(args, i, NO_MIGRATIONS);
      WranglerPathStep(args, i);
      if StartsWith(arg, WRANGLER_ASSIGNMENT) {
        WranglerAssignmentIsNotBareFlag(arg);
        var value := SecondPiece(arg, '=');
        wranglerPath := OrDefault(value, DEFAULT_WRANGLER_PATH);
      } else if arg == WRANGLER_FLAG {
        return Err(MISSING_WRANGLER_VALUE);
      } else if arg == NO_MIGRATIONS {
        runMigrations := false;
      } else {
        positional := positional + [arg];
      }
    }
    assert args[..|args|] == args;

    var databaseName := FirstOr(positional, DEFAULT_DATABASE_NAME);
    return Ok(Options(databaseName, wranglerPath, runMigrations));
  }

  lemma WranglerPathStep(args: seq<string>, i: nat)
    requires i < |args|
    ensures WranglerPath(args[..i + 1]) ==
      if StartsWith(args[i], WRANGLER_ASSIGNMENT) then OrDefault(SecondPiece(args[i], '='), DEFAULT_WRANGLER_PATH)
      else WranglerPath(args[..i])
  {
    assert args[..i + 1][..i] == args[..i];
  }

  /** An argument the loop takes as `--wrangler=V` is neither the bare
      `--wrangler` nor `--no-migrations`, so the first branch of the loop
      leaves both flag facts unchanged. */
  lemma WranglerAssignmentIsNotBareFlag(arg: string)
    requires StartsWith(arg, WRANGLER_ASSIGNMENT)
    ensures arg != WRANGLER_FLAG && arg != NO_MIGRATIONS
  {
    assert arg[..|WRANGLER_ASSIGNMENT|][2] == 'w';
  }

  /** The last `--wrangler=V` decides the path: the part of V before any
      further `=`, or `wrangler.toml` when that part is empty. */
  lemma {:induction false} WranglerPathLast(args: seq<string>, i: nat)
    requires i < |args| && StartsWith(args[i], WRANGLER_ASSIGNMENT)
    requires forall j :: i < j < |args| ==> !StartsWith(args[j], WRANGLER_ASSIGNMENT)
    ensures var name := args[i][|WRANGLER_ASSIGNMENT|..];
      WranglerPath(args) == OrDefault(Some(Split(name, '=')[0]), DEFAULT_WRANGLER_PATH)
    decreases |args|
  {
    if i < |args| - 1 {
      var init := args[..|args| - 1];
      assert init[i] == args[i];
      forall j | i < j < |init| ensures !StartsWith(init[j], WRANGLER_ASSIGNMENT) { assert init[j] == args[j]; }
      WranglerPathLast(init, i);
    } else {
      var name := args[i][|WRANGLER_ASSIGNMENT|..];
      assert args[i] == WRANGLER_FLAG + "=" + name;
      FlagValue(WRANGLER_FLAG, name);
    }
  }

  /** Without any `--wrangler=` the path is `wrangler.toml`. */
  lemma {:induction false} WranglerPathDefault(args: seq<string>)
    requires forall j :: 0 <= j < |args| ==> !StartsWith(args[j], WRANGLER_ASSIGNMENT)
    ensures WranglerPath(args) == DEFAULT_WRANGLER_PATH
    decreases |args|
  {
    if args != [] {
      var init := args[..|args| - 1];
      forall j | 0 <= j < |init| ensures !StartsWith(init[j], WRANGLER_ASSIGNMENT) { assert init[j] == args[j]; }
      WranglerPathDefault(init);
    }
  }

  /** `--wrangler=a=b` keeps only `a`: the text after the second `=` is
      dropped. */
  lemma WranglerPathDropsSecondAssignment()
    ensures WranglerPath(["--wrangler=a=b"]) == "a"
  {
    var arg := "--wrangler=a=b";
    assert arg == WRANGLER_FLAG + "=" + "a=b";
    FlagValue(WRANGLER_FLAG, "a=b");
    assert Split("a=b", '=')[0] == "a" by {
      assert "a=b"[1..] == "=b";
      assert Split("=b", '=')[0] == "";
    }
    assert ["--wrangler=a=b"][..0] == [];
  }

  // ---------------------------------------------------------------------
  // ensureDatabase and main

  /** What `ensureDatabase` returns. */
  datatype Ensured = Ensured(databaseId: Value, created: bool)

  /** `ensureDatabase(databaseName)`: the id of the existing database when
      the lookup (`fetchDatabaseId`) succeeds; otherwise whatever creating
      the database gives, an id or the error it throws. */
  function EnsureDatabase(databaseName: string, lookup: GetDbId.Info, create: Result<Value>): (r: Result<Ensured>)
    ensures var found := GetDbId.FetchDatabaseId(databaseName, lookup);
      && (found.Ok? ==> r == Ok(Ensured(found.value, false)))
      && (found.Err? && create.Ok? ==> r == Ok(Ensured(create.value, true)))
      && (found.Err? && create.Err? ==> r == Err(create.error))
    ensures r.Ok? ==> (r.value.created <==> GetDbId.FetchDatabaseId(databaseName, lookup).Err?)
  {
    var found := GetDbId.FetchDatabaseId(databaseName, lookup);
    if found.Ok? then Ok(Ensured(found.value, false))
    else if create.Ok? then Ok(Ensured(create.value, true))
    else Err(create.error)
  }

  /** The effects `main` requests, in order. */
  datatype Effect =
    | WriteConfig(databaseId: Value, wranglerPath: string)
    | ApplyMigrations(databaseName: string)

  /** How `main` ends: the argument error escapes (it is thrown before the
      `try`), an error inside the `try` is printed before exit code 1, or
      all went well. */
  datatype Outcome = Uncaught(message: string) | ExitedWith1(message: string) | Done

  /** `main()`: parse the arguments, ensure the database, write the id to
      the configuration, then apply the migrations when the database was
      created here and they were not switched off. `write` and `migrate`
      are what the configuration write and the migration command throw,
      if anything. */
  method Run(argv: seq<string>, lookup: GetDbId.Info, create: Result<Value>,
             write: Option<string>, migrate: Option<string>)
    returns (effects: seq<Effect>, outcome: Outcome)
    ensures var args := CommandArgs(argv);
      var name := FirstOr(Unconsumed(args, IsRecognised), DEFAULT_DATABASE_NAME);
      var ensured := EnsureDatabase(name, lookup, create);
      var migrates := ensured.Ok? && ensured.value.created && NO_MIGRATIONS !in args;
      && (WRANGLER_FLAG in args ==> effects == [] && outcome == Uncaught(MISSING_WRANGLER_VALUE))
      && (WRANGLER_FLAG !in args && ensured.Err? ==> effects == [] && outcome == ExitedWith1(ensured.error))
      && (WRANGLER_FLAG !in args && ensured.Ok? ==>
            |effects| >= 1 && effects[0] == WriteConfig(ensured.value.databaseId, WranglerPath(args)))
      && (WRANGLER_FLAG !in args && ensured.Ok? && write.Some? ==>
            |effects| == 1 && outcome == ExitedWith1(write.value))
      && (WRANGLER_FLAG !in args && ensured.Ok? && write.None? ==>
            effects[1..] == (if migrates then [ApplyMigrations(name)] else [])
            && outcome == (if migrates && migrate.Some? then ExitedWith1(migrate.value) else Done))
  {
    effects := [];
    var parsed := ParseArguments(argv);
    if parsed.Err? {
      return effects, Uncaught(parsed.error);
    }
    var options := parsed.value;

    var ensured := EnsureDatabase(options.databaseName, lookup, create);
    if ensured.Err? {
      return effects, ExitedWith1(ensured.error);
    }
    effects := effects + [WriteConfig(ensured.value.databaseId, options.wranglerPath)];
    if write.Some? {
      return effects, ExitedWith1(write.value);
    }

    if ensured.value.created && options.runMigrations {
      effects := effects + [ApplyMigrations(options.databaseName)];
      if migrate.Some? {
        return effects, ExitedWith1(migrate.value);
      }
    }
    return effects, Done;
  }
}
