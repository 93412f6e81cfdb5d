/** Greeting resolution of src/index.js: where the request was served from,
    the provenance note, the built-in fallback, and the choice between the
    HELLO_WORLD_DB row and that fallback. The D1 query is an input outcome. */
module Greeting {
  import opened JsText

  const FALLBACK_NOTE := "This greeting is served from a built-in fallback message."
  const FALLBACK_WARNING := "Create a D1 database and bind it as HELLO_WORLD_DB to serve content from D1."
  const DEFAULT_GREETING := "Hello World"
  const UNKNOWN_LOCATION := "an unknown location"
  const NOTE_PREFIX := "This greeting is served from a Cloudflare D1 database utilizing infrastructure in "
  const MISSING_BINDING := "The HELLO_WORLD_DB binding is not configured."
  const NO_ROWS := "No greeting rows were returned from the database."

  /** The location fields of `request.cf` that the worker reads. */
  datatype Cf = Cf(city: Value, region: Value, country: Value, colo: Value)

  /** The request: its `url`, and `cf` when it is present and an object. */
  datatype Request = Request(url: Value, cf: Option<Cf>)

  /** What `env.HELLO_WORLD_DB` is and what reading the first greeting row
      from it does: no binding (a falsy value), a binding without `prepare`,
      a row (its `message` field), no row, or a thrown error (its message,
      or `String(error)` for a thrown non-Error). */
  datatype Database =
    | Unbound
    | NotADatabase
    | Row(message: Value)
    | NoRow
    | Fails(reason: string)

  /** The environment: its variables and the database binding. */
  datatype Env = Env(vars: map<string, Value>, binding: Database)

  /** The resolver's result; `warning` is null on the database path. */
  datatype GreetingResult = GreetingResult(message: Value, note: string, warning: Option<string>)

  /** `[city, region, country].filter(Boolean)`, as strings. */
  function TruthyTexts(vs: seq<Value>): (r: seq<string>)
    ensures |r| <= |vs|
    ensures r == [] <==> forall i :: 0 <= i < |vs| ==> !Truthy(vs[i])
    decreases |vs|
  {
    if vs == [] then []
    else (if Truthy(vs[0]) then [ToText(vs[0])] else []) + TruthyTexts(vs[1..])
  }

  /** `parts.join(", ")`. */
  function JoinComma(parts: seq<string>): string
    decreases |parts|
  {
    if parts == [] then ""
    else if |parts| == 1 then parts[0]
    else parts[0] + ", " + JoinComma(parts[1..])
  }

  /** `describeInfrastructureLocation(request)`. */
  function DescribeInfrastructureLocation(request: Request): (r: Option<string>)
    ensures request.cf.None? ==> r == None
    ensures request.cf.Some? ==> var cf := request.cf.value;
      var truthy := Truthy(cf.city) || Truthy(cf.region) || Truthy(cf.country);
      && (truthy ==> r == Some(JoinComma(TruthyTexts([cf.city, cf.region, cf.country]))))
      && (!truthy && Truthy(cf.colo) ==> r == Some("the " + ToText(cf.colo) + " data center"))
      && (!truthy && !Truthy(cf.colo) ==> r == None)
  {
    match request.cf
    case None => None
    case Some(cf) =>
      var vs := [cf.city, cf.region, cf.country];
      assert vs[0] == cf.city && vs[1] == cf.region && vs[2] == cf.country;
      var parts := TruthyTexts(vs);
      if |parts| > 0 then Some(JoinComma(parts))
      else if Truthy(cf.colo) then Some("the " + ToText(cf.colo) + " data center")
      else None
  }

  lemma TruthyTextsCons(v: Value, rest: seq<Value>)
    ensures TruthyTexts([v] + rest) == (if Truthy(v) then [ToText(v)] else []) + TruthyTexts(rest)
  {
    assert ([v] + rest)[0] == v && ([v] + rest)[1..] == rest;
  }

  /** The filtered location fields keep the order city, region, country. */
  lemma LocationParts(cf: Cf)
    ensures TruthyTexts([cf.city, cf.region, cf.country]) ==
      (if Truthy(cf.city) then [ToText(cf.city)] else [])
      + (if Truthy(cf.region) then [ToText(cf.region)] else [])
      + (if Truthy(cf.country) then [ToText(cf.country)] else [])
  {
    assert [cf.city, cf.region, cf.country] == [cf.city] + ([cf.region] + ([cf.country] + []));
    TruthyTextsCons(cf.city, [cf.region] + ([cf.country] + []));
    TruthyTextsCons(cf.region, [cf.country] + []);
    TruthyTextsCons(cf.country, []);
  }

  /** The three location fields appear in the text in the order city,
      region, country, each only when truthy. */
  lemma LocationOrder(cf: Cf)
    ensures Truthy(cf.city) || Truthy(cf.region) || Truthy(cf.country) ==>
      DescribeInfrastructureLocation(Request(Missing, Some(cf))) == Some(JoinComma(
        (if Truthy(cf.city) then [ToText(cf.city)] else [])
        + (if Truthy(cf.region) then [ToText(cf.region)] else [])
        + (if Truthy(cf.country) then [ToText(cf.country)] else [])))
    ensures Truthy(cf.city) && Truthy(cf.region) && Truthy(cf.country) ==>
      DescribeInfrastructureLocation(Request(Missing, Some(cf)))
        == Some(ToText(cf.city) + ", " + ToText(cf.region) + ", " + ToText(cf.country))
    ensures Truthy(cf.city) && !Truthy(cf.region) && Truthy(cf.country) ==>
      DescribeInfrastructureLocation(Request(Missing, Some(cf)))
        == Some(ToText(cf.city) + ", " + ToText(cf.country))
    ensures !Truthy(cf.city) && !Truthy(cf.region) && Truthy(cf.country) ==>
      DescribeInfrastructureLocation(Request(Missing, Some(cf))) == Some(ToText(cf.country))
  {
    var a, b, c := ToText(cf.city), ToText(cf.region), ToText(cf.country);
    var r := Request(Missing, Some(cf));
    LocationParts(cf);
    if Truthy(cf.city) && Truthy(cf.region) && Truthy(cf.country) {
      var parts := TruthyTexts([cf.city, cf.region, cf.country]);
      assert parts == [a, b, c];
      assert JoinComma([c]) == c;
      assert JoinComma([b, c]) == b + ", " + JoinComma([c]);
      assert JoinComma([a, b, c]) == a + ", " + JoinComma([b, c]);
      assert a + ", " + (b + ", " + c) == a + ", " + b + ", " + c;
      assert DescribeInfrastructureLocation(r) == Some(JoinComma(parts));
    }
    if Truthy(cf.city) && !Truthy(cf.region) && Truthy(cf.country) {
      var parts := TruthyTexts([cf.city, cf.region, cf.country]);
      assert parts == [a, c];
      assert JoinComma([c]) == c;
      assert JoinComma([a, c]) == a + ", " + JoinComma([c]);
      assert DescribeInfrastructureLocation(r) == Some(JoinComma(parts));
    }
    if !Truthy(cf.city) && !Truthy(cf.region) && Truthy(cf.country) {
      var parts := TruthyTexts([cf.city, cf.region, cf.country]);
      assert parts == [c];
      assert DescribeInfrastructureLocation(r) == Some(JoinComma(parts));
    }
  }

  /** `formatDatabaseNote(locationLabel)`: the note names the trimmed location,
      or "an unknown location" when the location is null or blank. */
  function FormatDatabaseNote(location: Option<string>): (r: string)
    ensures StartsWith(r, NOTE_PREFIX) && r[|r| - 1] == '.'
    ensures var place := r[|NOTE_PREFIX|..|r| - 1];
      && (location.Some? && !AllSpace(location.value) ==> place == Trim(location.value))
      && (location.None? || AllSpace(location.value) ==> place == UNKNOWN_LOCATION)
      && !AllSpace(place)
  {
    var place := if location.Some? && Trim(location.value) != "" then Trim(location.value) else UNKNOWN_LOCATION;
    assert UNKNOWN_LOCATION[0] == 'a';
    var r := NOTE_PREFIX + place + ".";
    assert r[|NOTE_PREFIX|..|r| - 1] == place;
    assert r[..|NOTE_PREFIX|] == NOTE_PREFIX;
    r
  }

  /** The warning shown with the fallback: FALLBACK_WARNING, followed by the
      reason in parentheses when there is one. */
  function FallbackWarning(reason: string): (w: string)
    ensures StartsWith(w, FALLBACK_WARNING)
    ensures reason == "" ==> w == FALLBACK_WARNING
    ensures reason != "" ==> w[|FALLBACK_WARNING|..] == " (" + reason + ")"
  {
    var w := if reason != "" then FALLBACK_WARNING + " (" + reason + ")" else FALLBACK_WARNING;
    assert w[..|FALLBACK_WARNING|] == FALLBACK_WARNING;
    w
  }

  /** `resolveFallbackGreeting(env, reason)`: the trimmed DEFAULT_GREETING
      when it is not blank, else "Hello World"; always FALLBACK_NOTE and a
      non-empty warning. A DEFAULT_GREETING that is neither nullish nor a
      string has no `trim` and makes the call throw. */
  function ResolveFallbackGreeting(vars: map<string, Value>, reason: string): (r: Result<GreetingResult>)
    ensures r.Err? <==> Get(vars, "DEFAULT_GREETING").Other?
    ensures r.Err? ==> r.error == NotAFunction(TrimOf("DEFAULT_GREETING"))
    ensures r.Ok? ==> r.value.note == FALLBACK_NOTE
    ensures r.Ok? ==> r.value.warning == Some(FallbackWarning(reason)) && r.value.warning.value != ""
    ensures r.Ok? ==> r.value.message.Str? && r.value.message.s != ""
    ensures r.Ok? ==> var d := Get(vars, "DEFAULT_GREETING");
      r.value.message.s == if d.Str? && !AllSpace(d.s) then Trim(d.s) else DEFAULT_GREETING
  {
    match TrimmedOr(Get(vars, "DEFAULT_GREETING"), "DEFAULT_GREETING", DEFAULT_GREETING)
    case Err(e) => Err(e)
    case Ok(message) =>
      assert |FallbackWarning(reason)| >= |FALLBACK_WARNING| > 0;
      Ok(GreetingResult(Str(message), FALLBACK_NOTE, Some(FallbackWarning(reason))))
  }

  /** `readGreetingFromDatabase(database)`: the first row's message when it
      is truthy, otherwise the error that the source throws. */
  function ReadGreetingFromDatabase(db: Database): (r: Result<Value>)
    ensures r.Ok? <==> db.Row? && Truthy(db.message)
    ensures r.Ok? ==> r.value == db.message
    ensures db.Unbound? || db.NotADatabase? ==> r == Err(MISSING_BINDING)
    ensures db.NoRow? || (db.Row? && !Truthy(db.message)) ==> r == Err(NO_ROWS)
    ensures db.Fails? ==> r == Err(db.reason)
  {
    match db
    case Unbound => Err(MISSING_BINDING)
    case NotADatabase => Err(MISSING_BINDING)
    case Row(m) => if Truthy(m) then Ok(m) else Err(NO_ROWS)
    case NoRow => Err(NO_ROWS)
    case Fails(reason) => Err(reason)
  }

  /** True when the greeting comes from the database row. */
  predicate ServedFromDatabase(db: Database) {
    db.Row? && Truthy(db.message)
  }

  /** The reason recorded when the database cannot serve the greeting. */
  function FailureReason(db: Database): string
    requires !ServedFromDatabase(db)
  {
    ReadGreetingFromDatabase(db).error
  }

  /** `resolveGreeting(env, locationLabel)`; the try/catch is the case split
      on the outcome of the read. It never throws on account of the
      database: it throws only when the fallback is needed and
      DEFAULT_GREETING has no `trim`. A warning is present exactly when the
      message came from the fallback, and the message is never falsy. */
  function ResolveGreeting(env: Env, location: Option<string>): (r: Result<GreetingResult>)
    ensures r.Err? <==> !ServedFromDatabase(env.binding) && Get(env.vars, "DEFAULT_GREETING").Other?
    ensures r.Ok? ==> (r.value.warning.None? <==> ServedFromDatabase(env.binding))
    ensures r.Ok? ==> Truthy(r.value.message)
  {
    if env.binding.Unbound? then ResolveFallbackGreeting(env.vars, MISSING_BINDING)
    else
      match ReadGreetingFromDatabase(env.binding)
      case Ok(message) => Ok(GreetingResult(message, FormatDatabaseNote(location), None))
      case Err(reason) => ResolveFallbackGreeting(env.vars, reason)
  }

  /** The cases of the resolver: a truthy row message is served verbatim
      with the database note and no warning; every other outcome gives the
      fallback with the reason of the failure. */
  lemma ResolveGreetingCases(env: Env, location: Option<string>)
    ensures ServedFromDatabase(env.binding) ==>
      ResolveGreeting(env, location) == Ok(GreetingResult(env.binding.message, FormatDatabaseNote(location), None))
    ensures !ServedFromDatabase(env.binding) ==>
      ResolveGreeting(env, location) == ResolveFallbackGreeting(env.vars, FailureReason(env.binding))
    ensures env.binding.Unbound? || env.binding.NotADatabase? ==>
      ResolveGreeting(env, location) == ResolveFallbackGreeting(env.vars, MISSING_BINDING)
    ensures env.binding.Fails? ==>
      ResolveGreeting(env, location) == ResolveFallbackGreeting(env.vars, env.binding.reason)
  {
  }

  /** A failure reason is carried into the warning, in parentheses. */
  lemma FallbackWarningMentionsReason(env: Env, location: Option<string>)
    requires env.binding.Fails? && env.binding.reason != ""
    requires ResolveGreeting(env, location).Ok?
    ensures var w := ResolveGreeting(env, location).value.warning;
      w == Some(FALLBACK_WARNING + " (" + env.binding.reason + ")")
  {
    ResolveGreetingCases(env, location);
  }
}
