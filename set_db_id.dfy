/** scripts/set-db-id.mjs: write a D1 database id into every
    `database_id = "..."` entry of a wrangler configuration text. The id
    comes from an environment variable or from the wrangler lookup; the
    file read and write are left out, the text is a parameter and the
    rewritten text the result. */
module SetDbId {
  import opened JsText
  import GetDbId

  const DEFAULT_DATABASE_NAME := "hello_world"
  const DEFAULT_WRANGLER_PATH := "wrangler.toml"
  const DEFAULT_ENV_VAR := "D1_DATABASE_ID"
  const ENV_FLAG := "--env"
  const ENV_ASSIGNMENT := "--env="
  const WRANGLER_ASSIGNMENT := "--wrangler="
  const KEY := "database_id"

  // ---------------------------------------------------------------------
  // The pattern /(database_id\s*=\s*")[^"]+(")/g

  /** `\s*c`: white space, then the character `c`. */
  predicate IsSpacedChar(s: string, c: char) {
    |s| >= 1 && s[|s| - 1] == c && AllSpace(s[..|s| - 1])
  }

  /** Group 1 of the pattern: `database_id`, then `\s*=`, then `\s*"`. */
  predicate IsEntryPrefix(p: string) {
    StartsWith(p, KEY)
    && exists j :: |KEY| < j < |p| && IsSpacedChar(p[|KEY|..j], '=') && IsSpacedChar(p[j..], '"')
  }

  /** `[^"]+`: the quoted value the pattern replaces. */
  predicate IsEntryValue(v: string) {
    v != [] && '"' !in v
  }

  /** The length of the `\s*c` at the start of `t`, if there is one. As
      `c` is no white space, `\s*` cannot give back a character to let
      `c` match elsewhere. */
  function SpacedChar(t: string, c: char): (n: Option<nat>)
    requires !IsSpace(c)
    ensures n.Some? ==> 1 <= n.value <= |t| && IsSpacedChar(t[..n.value], c)
  {
    var i := LeadingSpaces(t);
    if i < |t| && t[i] == c then
      assert t[..i + 1][..i] == t[..i];
      Some(i + 1)
    else None
  }

  lemma SpacedCharComplete(s: string, c: char, rest: string)
    requires !IsSpace(c) && IsSpacedChar(s, c)
    ensures SpacedChar(s + rest, c) == Some(|s|)
  {
    var sp := s[..|s| - 1];
    assert s + rest == sp + ([c] + rest);
    LeadingSpacesOfPadded(sp, [c] + rest);
  }

  /** Number of characters before the first `"` of `s` (all of `s` when it
      holds none). */
  function UnquotedLength(s: string): (n: nat)
    ensures n <= |s|
    ensures '"' !in s[..n]
    ensures n < |s| ==> s[n] == '"'
    decreases |s|
  {
    if s == [] || s[0] == '"' then 0
    else
      var m := UnquotedLength(s[1..]);
      assert s[..1 + m] == [s[0]] + s[1..][..m];
      1 + m
  }

  /** Where the pattern matches at the start of `t`: the match is
      `t[..e]`, its group 1 is `t[..k]` and the replaced value `t[k..e - 1]`.
      `[^"]+` stops at the first quote, so the match is unique. */
  function PrefixLength(t: string): (k: Option<nat>)
    ensures k.Some? ==> k.value <= |t|
  {
    if !StartsWith(t, KEY) then None
    else
      var i := SpacedChar(t[|KEY|..], '=');
      if i.None? then None
      else
        var i2 := SpacedChar(t[|KEY| + i.value..], '"');
        if i2.None? then None
        else Some(|KEY| + i.value + i2.value)
  }

  /** The outcome of trying the pattern at one position: the match
      `t[..e]` with group 1 `t[..k]`, or none. */
  datatype Match = NotFound | Found(k: nat, e: nat)

  function MatchAt(t: string): (m: Match)
    ensures m.Found? ==> m.k < m.e <= |t| && t[m.e - 1] == '"'
  {
    var k := PrefixLength(t);
    if k.None? then NotFound
    else
      var n := UnquotedLength(t[k.value..]);
      if n == 0 || k.value + n >= |t| then NotFound
      else Found(k.value, k.value + n + 1)
  }

  /** A match consists of group 1, a value of the form `[^"]+` and the
      closing quote. */
  lemma MatchAtSound(t: string)
    requires MatchAt(t).Found?
    ensures var k, e := MatchAt(t).k, MatchAt(t).e;
      IsEntryPrefix(t[..k]) && IsEntryValue(t[k..e - 1]) && t[e - 1] == '"'
  {
    var k := PrefixLength(t).value;
    PrefixLengthSound(t);
    ValueSound(t, k, UnquotedLength(t[k..]));
  }

  /** The characters before the first quote, when there are some, are a
      `[^"]+` value. */
  lemma ValueSound(t: string, k: nat, n: nat)
    requires k <= |t| && n == UnquotedLength(t[k..]) && n > 0
    ensures IsEntryValue(t[k..k + n])
  {
    assert t[k..k + n] == t[k..][..n];
  }

  /** Group 1 as PrefixLength finds it is `database_id\s*=\s*"`. */
  lemma PrefixLengthSound(t: string)
    requires PrefixLength(t).Some?
    ensures IsEntryPrefix(t[..PrefixLength(t).value])
  {
    var i := SpacedChar(t[|KEY|..], '=').value;
    var j := |KEY| + i;
    var i2 := SpacedChar(t[j..], '"').value;
    assert t[|KEY|..][..i] == t[|KEY|..j];
    assert t[j..][..i2] == t[j..j + i2];
    PrefixFromSteps(t, j, j + i2);
  }

  lemma PrefixFromSteps(t: string, j: nat, k: nat)
    requires StartsWith(t, KEY) && |KEY| < j < k <= |t|
    requires IsSpacedChar(t[|KEY|..j], '=') && IsSpacedChar(t[j..k], '"')
    ensures IsEntryPrefix(t[..k])
  {
    var p := t[..k];
    assert p[..|KEY|] == t[..|KEY|];
    assert p[|KEY|..j] == t[|KEY|..j];
    assert p[j..] == t[j..k];
  }

  /** Every way of writing an entry at the start of a text is recognised,
      with exactly that prefix and value. */
  lemma MatchAtEntry(p: string, v: string, rest: string)
    requires IsEntryPrefix(p) && IsEntryValue(v)
    ensures MatchAt(p + v + "\"" + rest) == Found(|p|, |p| + |v| + 1)
  {
    var j :| |KEY| < j < |p| && IsSpacedChar(p[|KEY|..j], '=') && IsSpacedChar(p[j..], '"');
    var t := p + v + "\"" + rest;
    assert t[..|KEY|] == p[..|KEY|];
    assert t[|KEY|..j] == p[|KEY|..j];
    assert t[j..|p|] == p[j..];
    assert t[|p|..|p| + |v|] == v;
    EntryAt(t, j, |p|, |v|);
  }

  /** An entry whose `=` ends at `j`, whose group 1 ends at `k` and whose
      value has length `n`, as positions in the text. */
  lemma EntryAt(t: string, j: nat, k: nat, n: nat)
    requires StartsWith(t, KEY) && |KEY| < j < k && k + n < |t|
    requires IsSpacedChar(t[|KEY|..j], '=') && IsSpacedChar(t[j..k], '"')
    requires IsEntryValue(t[k..k + n]) && t[k + n] == '"'
    ensures MatchAt(t) == Found(k, k + n + 1)
  {
    EqualsStep(t, j, k);
    QuoteStep(t, j, k);
    assert t[k..] == t[k..k + n] + t[k + n..];
    UnquotedPrefix(t[k..k + n], t[k + n..]);
    MatchAtSteps(t, j, k, n);
  }

  lemma EqualsStep(t: string, j: nat, k: nat)
    requires |KEY| < j < k <= |t| && IsSpacedChar(t[|KEY|..j], '=')
    ensures SpacedChar(t[|KEY|..], '=') == Some(j - |KEY|)
  {
    assert t[|KEY|..] == t[|KEY|..j] + t[j..];
    SpacedCharComplete(t[|KEY|..j], '=', t[j..]);
  }

  lemma QuoteStep(t: string, j: nat, k: nat)
    requires j < k <= |t| && IsSpacedChar(t[j..k], '"')
    ensures SpacedChar(t[j..], '"') == Some(k - j)
  {
    assert t[j..] == t[j..k] + t[k..];
    SpacedCharComplete(t[j..k], '"', t[k..]);
  }

  /** MatchAt, step by step. */
  lemma MatchAtSteps(t: string, j: nat, k: nat, n: nat)
    requires StartsWith(t, KEY) && |KEY| < j < k
    requires SpacedChar(t[|KEY|..], '=') == Some(j - |KEY|)
    requires k <= |t| && SpacedChar(t[j..], '"') == Some(k - j)
    requires k + n < |t| && n > 0
    requires UnquotedLength(t[k..]) == n
    ensures MatchAt(t) == Found(k, k + n + 1)
  {
    PrefixSteps(t, j, k);
  }

  /** PrefixLength, step by step. */
  lemma PrefixSteps(t: string, j: nat, k: nat)
    requires StartsWith(t, KEY) && |KEY| < j < k <= |t|
    requires SpacedChar(t[|KEY|..], '=') == Some(j - |KEY|)
    requires SpacedChar(t[j..], '"') == Some(k - j)
    ensures PrefixLength(t) == Some(k)
  {
  }

  lemma {:induction false} UnquotedPrefix(v: string, rest: string)
    requires '"' !in v && rest != [] && rest[0] == '"'
    ensures UnquotedLength(v + rest) == |v|
    decreases |v|
  {
    if v != [] {
      assert (v + rest)[1..] == v[1..] + rest;
      UnquotedPrefix(v[1..], rest);
    }
  }

  /** `database_id = ""` is no match: the value must not be empty. */
  lemma EmptyValueNotMatched(p: string, rest: string)
    requires IsEntryPrefix(p)
    ensures MatchAt(p + "\"" + rest) == NotFound
  {
    var j :| |KEY| < j < |p| && IsSpacedChar(p[|KEY|..j], '=') && IsSpacedChar(p[j..], '"');
    var t := p + "\"" + rest;
    assert t[..|KEY|] == p[..|KEY|];
    assert t[|KEY|..j] == p[|KEY|..j];
    assert t[j..|p|] == p[j..];
    EqualsStep(t, j, |p|);
    QuoteStep(t, j, |p|);
    PrefixSteps(t, j, |p|);
    assert t[|p|..][0] == '"';
  }

  // ---------------------------------------------------------------------
  // Global replacement

  /** The text as `replace` walks it: characters outside any match, and
      the matches with their group 1 and replaced value. */
  datatype Piece = Plain(c: char) | Entry(prefix: string, value: string)

  /** The left-to-right scan of a global `replace`: try the pattern at the
      current position; on a match continue after it, otherwise keep one
      character and move on. */
  function Scan(t: string): seq<Piece>
    decreases |t|
  {
    if t == [] then []
    else
      match MatchAt(t)
      case Found(k, e) => [Entry(t[..k], t[k..e - 1])] + Scan(t[e..])
      case NotFound => [Plain(t[0])] + Scan(t[1..])
  }

  /** Every entry the scan finds is a match of the pattern. */
  lemma {:induction false} ScanEntries(t: string)
    ensures forall i :: 0 <= i < |Scan(t)| && Scan(t)[i].Entry? ==>
      IsEntryPrefix(Scan(t)[i].prefix) && IsEntryValue(Scan(t)[i].value)
    decreases |t|
  {
    if t != [] {
      match MatchAt(t)
      case Found(k, e) =>
        MatchAtSound(t);
        ScanEntries(t[e..]);
      case NotFound =>
        ScanEntries(t[1..]);
    }
  }

  /** The text a piece stands for. */
  function PieceText(q: Piece): string {
    match q
    case Plain(c) => [c]
    case Entry(prefix, value) => prefix + value + "\""
  }

  /** What the replacement makes of a piece: `${prefix}${databaseId}${suffix}`
      for a match, the character itself otherwise. */
  function PieceRewrite(q: Piece, databaseId: string): string {
    match q
    case Plain(c) => [c]
    case Entry(prefix, _) => prefix + databaseId + "\""
  }

  /** The text the pieces came from. */
  function Render(ps: seq<Piece>): string
    decreases |ps|
  {
    if ps == [] then [] else PieceText(ps[0]) + Render(ps[1..])
  }

  /** The replacement: every entry becomes `${prefix}${databaseId}${suffix}`
      and every other character stays. */
  function Rewrite(ps: seq<Piece>, databaseId: string): string
    decreases |ps|
  {
    if ps == [] then [] else PieceRewrite(ps[0], databaseId) + Rewrite(ps[1..], databaseId)
  }

  /** How many times the callback runs. */
  function Count(ps: seq<Piece>): nat
    decreases |ps|
  {
    if ps == [] then 0 else (if ps[0].Entry? then 1 else 0) + Count(ps[1..])
  }

  /** A match cut into group 1, the value and the closing quote, followed
      by the rest of the text, is the text. */
  lemma MatchPieces(t: string, k: nat, e: nat)
    requires k < e <= |t| && t[e - 1] == '"'
    ensures t[..k] + t[k..e - 1] + "\"" + t[e..] == t
  {
    assert t[..e - 1] == t[..k] + t[k..e - 1];
    assert t[..e] == t[..e - 1] + [t[e - 1]];
    assert t[..e] + t[e..] == t;
  }

  lemma RenderCons(q: Piece, ps: seq<Piece>)
    ensures Render([q] + ps) == PieceText(q) + Render(ps)
  {
    assert ([q] + ps)[0] == q && ([q] + ps)[1..] == ps;
  }

  lemma RewriteCons(q: Piece, ps: seq<Piece>, databaseId: string)
    ensures Rewrite([q] + ps, databaseId) == PieceRewrite(q, databaseId) + Rewrite(ps, databaseId)
    ensures Count([q] + ps) == (if q.Entry? then 1 else 0) + Count(ps)
  {
    assert ([q] + ps)[0] == q && ([q] + ps)[1..] == ps;
  }

  /** The scan at a match: the entry, then the scan after it. */
  lemma ScanFound(t: string, k: nat, e: nat)
    requires MatchAt(t) == Found(k, e)
    ensures Scan(t) == [Entry(t[..k], t[k..e - 1])] + Scan(t[e..])
  {
  }

  lemma RenderFoundStep(t: string, k: nat, e: nat)
    requires MatchAt(t) == Found(k, e)
    requires Render(Scan(t[e..])) == t[e..]
    ensures Render(Scan(t)) == t
  {
    ScanFound(t, k, e);
    RenderCons(Entry(t[..k], t[k..e - 1]), Scan(t[e..]));
    MatchPieces(t, k, e);
  }

  lemma RenderNotFoundStep(t: string)
    requires t != [] && MatchAt(t).NotFound?
    requires Render(Scan(t[1..])) == t[1..]
    ensures Render(Scan(t)) == t
  {
    assert Scan(t) == [Plain(t[0])] + Scan(t[1..]);
    RenderCons(Plain(t[0]), Scan(t[1..]));
    assert [t[0]] + t[1..] == t;
  }

  /** The scan loses nothing: the plain characters and the matches put
      back together give the original text. */
  lemma {:induction false} RenderScan(t: string)
    ensures Render(Scan(t)) == t
    decreases |t|
  {
    if t != [] {
      var m := MatchAt(t);
      if m.Found? {
        RenderScan(t[m.e..]);
        RenderFoundStep(t, m.k, m.e);
      } else {
        RenderScan(t[1..]);
        RenderNotFoundStep(t);
      }
    }
  }

  /** The replacement count is zero exactly when the pattern matches at no
      position of the text. */
  lemma {:induction false} CountZeroIffNoMatch(t: string)
    ensures Count(Scan(t)) == 0 <==> forall p :: 0 <= p < |t| ==> MatchAt(t[p..]).NotFound?
    decreases |t|
  {
    if t != [] {
      assert t[0..] == t;
      match MatchAt(t)
      case Found(_, _) =>
      case NotFound =>
        CountZeroIffNoMatch(t[1..]);
        assert Scan(t) == [Plain(t[0])] + Scan(t[1..]);
        assert forall p :: 1 <= p < |t| ==> t[p..] == t[1..][p - 1..];
        if forall p :: 0 <= p < |t[1..]| ==> MatchAt(t[1..][p..]).NotFound? {
          forall p | 0 <= p < |t| ensures MatchAt(t[p..]).NotFound? {
            if p > 0 { assert t[p..] == t[1..][p - 1..]; }
          }
        }
        if forall p :: 0 <= p < |t| ==> MatchAt(t[p..]).NotFound? {
          forall p | 0 <= p < |t[1..]| ensures MatchAt(t[1..][p..]).NotFound? {
            assert t[1..][p..] == t[p + 1..];
          }
        }
    }
  }

  /** The pieces with the value of every entry set to `databaseId`; the
      characters outside the entries and the prefixes stay as they are. */
  function WithValue(ps: seq<Piece>, databaseId: string): (qs: seq<Piece>)
    ensures |qs| == |ps|
    ensures forall i :: 0 <= i < |ps| ==>
      qs[i] == (if ps[i].Entry? then Entry(ps[i].prefix, databaseId) else ps[i])
    decreases |ps|
  {
    if ps == [] then []
    else [if ps[0].Entry? then Entry(ps[0].prefix, databaseId) else ps[0]] + WithValue(ps[1..], databaseId)
  }

  /** The replacement is the scanned text with only the entry values
      exchanged: together with RenderScan, every character outside the
      replaced values is kept, in order. */
  lemma {:induction false} RewriteIsRenderWithValue(ps: seq<Piece>, databaseId: string)
    ensures Rewrite(ps, databaseId) == Render(WithValue(ps, databaseId))
    decreases |ps|
  {
    if ps != [] {
      var q := if ps[0].Entry? then Entry(ps[0].prefix, databaseId) else ps[0];
      RewriteIsRenderWithValue(ps[1..], databaseId);
      RenderCons(q, WithValue(ps[1..], databaseId));
      assert WithValue(ps, databaseId) == [q] + WithValue(ps[1..], databaseId);
    }
  }

  function NoEntriesMessage(wranglerPath: string): string {
    "Could not find any database_id entries in " + wranglerPath + "."
  }

  /** One step of the replacement at a match: group 1, the id and the
      closing quote, then the replacement of the rest. */
  lemma RewriteFound(t: string, databaseId: string)
    requires MatchAt(t).Found?
    ensures var k, e := MatchAt(t).k, MatchAt(t).e;
      && Rewrite(Scan(t), databaseId) == t[..k] + databaseId + "\"" + Rewrite(Scan(t[e..]), databaseId)
      && Count(Scan(t)) == 1 + Count(Scan(t[e..]))
  {
    var k, e := MatchAt(t).k, MatchAt(t).e;
    ScanFound(t, k, e);
    RewriteCons(Entry(t[..k], t[k..e - 1]), Scan(t[e..]), databaseId);
  }

  /** One step of the replacement where the pattern does not match: the
      character is kept. */
  lemma RewriteNotFound(t: string, databaseId: string)
    requires t != [] && MatchAt(t).NotFound?
    ensures Rewrite(Scan(t), databaseId) == [t[0]] + Rewrite(Scan(t[1..]), databaseId)
    ensures Count(Scan(t)) == Count(Scan(t[1..]))
  {
    assert Scan(t) == [Plain(t[0])] + Scan(t[1..]);
    RewriteCons(Plain(t[0]), Scan(t[1..]), databaseId);
  }

  /** `updateWranglerToml(databaseId, wranglerPath)` on the text of the
      file: the replace callback increments the counter, and a count of
      zero is an error with nothing to write. */
  method UpdateWranglerToml(databaseId: string, wranglerPath: string, original: string)
    returns (r: Result<string>)
    ensures r.Err? <==> Count(Scan(original)) == 0
    ensures r.Err? ==> r.error == NoEntriesMessage(wranglerPath)
    ensures r.Ok? ==> r.value == Rewrite(Scan(original), databaseId)
  {
    var replacements := 0;
    var updated := "";
    var rest := original;
    while rest != []
      invariant replacements + Count(Scan(rest)) == Count(Scan(original))
      invariant updated + Rewrite(Scan(rest), databaseId) == Rewrite(Scan(original), databaseId)
      decreases |rest|
    {
      var m := MatchAt(rest);
      if m.Found? {
        RewriteFound(rest, databaseId);
        var piece := rest[..m.k] + databaseId + "\"";
        ConcatAssoc(updated, piece, Rewrite(Scan(rest[m.e..]), databaseId));
        replacements := replacements + 1;
        updated := updated + piece;
        rest := rest[m.e..];
      } else {
        RewriteNotFound(rest, databaseId);
        ConcatAssoc(updated, [rest[0]], Rewrite(Scan(rest[1..]), databaseId));
        updated := updated + [rest[0]];
        rest := rest[1..];
      }
    }
    if replacements == 0 {
      return Err(NoEntriesMessage(wranglerPath));
    }
    return Ok(updated);
  }

  // ---------------------------------------------------------------------
  // The id from the environment

  function UnsetMessage(variableName: string): string {
    "Environment variable " + variableName + " is not set or empty."
  }

  /** `readDatabaseIdFromEnv(variableName)`, with `process.env[variableName]`
      as `value`: an unset or empty value is an error, any other value is
      returned trimmed (so a blank value gives the empty id). */
  function ReadDatabaseIdFromEnv(variableName: string, value: Option<string>): (r: Result<string>)
    ensures r.Err? <==> value.None? || value.value == ""
    ensures r.Err? ==> r.error == UnsetMessage(variableName)
    ensures r.Ok? ==> r.value == Trim(value.value)
    ensures r.Ok? ==> (r.value == "" <==> AllSpace(value.value))
  {
    if value.None? || value.value == "" then Err(UnsetMessage(variableName))
    else Ok(Trim(value.value))
  }

  // ---------------------------------------------------------------------
  // Arguments

  datatype Options = Options(databaseName: string, wranglerPath: string, envVar: Option<string>)

  /** The arguments the loop of `parseArguments` consumes as flags. */
  predicate IsFlag(arg: string) {
    arg == ENV_FLAG || StartsWith(arg, ENV_ASSIGNMENT) || StartsWith(arg, WRANGLER_ASSIGNMENT)
  }

  /** `envVar` after the loop: set by the last `--env` or `--env=NAME`. */
  function EnvVar(args: seq<string>): Option<string>
    decreases |args|
  {
    if args == [] then None
    else
      var last := args[|args| - 1];
      if last == ENV_FLAG then Some(DEFAULT_ENV_VAR)
      else if StartsWith(last, ENV_ASSIGNMENT) then Some(OrDefault(SecondPiece(last, '='), DEFAULT_ENV_VAR))
      else EnvVar(args[..|args| - 1])
  }

  /** `wranglerPath` after the loop: set by the last `--wrangler=PATH`. */
  function WranglerFlag(args: seq<string>): Option<string>
    decreases |args|
  {
    if args == [] then None
    else
      var last := args[|args| - 1];
      if StartsWith(last, WRANGLER_ASSIGNMENT) then Some(OrDefault(SecondPiece(last, '='), DEFAULT_WRANGLER_PATH))
      else WranglerFlag(args[..|args| - 1])
  }

  /** `parseArguments(argv)`: the loop, then the database name from the
      first positional and the path from the flag, else the second
      positional, else `wrangler.toml`. */
  method ParseArguments(argv: seq<string>) returns (options: Options)
    ensures var args := CommandArgs(argv); var pos := Unconsumed(args, IsFlag);
      && options.databaseName == FirstOr(pos, DEFAULT_DATABASE_NAME)
      && options.envVar == EnvVar(args)
      && (WranglerFlag(args).Some? ==> options.wranglerPath == WranglerFlag(args).value)
      && (WranglerFlag(args).None? && |pos| >= 2 ==> options.wranglerPath == pos[1])
      && (WranglerFlag(args).None? && |pos| < 2 ==> options.wranglerPath == DEFAULT_WRANGLER_PATH)
  {
    var args := CommandArgs(argv);
    var positional: seq<string> := [];
    var envVar: Option<string> := None;
    var wranglerPath: Option<string> := None;

    for i := 0 to |args|
      invariant positional == Unconsumed(args[..i], IsFlag)
      invariant envVar == EnvVar(args[..i])
      invariant wranglerPath == WranglerFlag(args[..i])
    {
      var arg := args[i];
      UnconsumedStep(args, IsFlag, i);
      assert args[..i + 1][..i] == args[..i];
      if arg == ENV_FLAG || StartsWith(arg, ENV_ASSIGNMENT) {
        assert arg[2] == 'e';
      }
      if arg == ENV_FLAG {
        envVar := Some(DEFAULT_ENV_VAR);
        continue;
      }
      if StartsWith(arg, ENV_ASSIGNMENT) {
        var value := SecondPiece(arg, '=');
        envVar := Some(OrDefault(value, DEFAULT_ENV_VAR));
        continue;
      }
      if StartsWith(arg, WRANGLER_ASSIGNMENT) {
        var value := SecondPiece(arg, '=');
        wranglerPath := Some(OrDefault(value, DEFAULT_WRANGLER_PATH));
        continue;
      }
      positional := positional + [arg];
    }
    assert args[..|args|] == args;

    var databaseName := FirstOr(positional, DEFAULT_DATABASE_NAME);
    var path := if wranglerPath.Some? then wranglerPath.value
                else if |positional| >= 2 then positional[1]
                else DEFAULT_WRANGLER_PATH;
    return Options(databaseName, path, envVar);
  }

  /** The last `--env` form decides: the bare flag gives D1_DATABASE_ID,
      `--env=NAME` the part of NAME before any further `=`, and an empty
      NAME D1_DATABASE_ID. */
  lemma {:induction false} EnvVarLast(args: seq<string>, i: nat)
    requires i < |args| && (args[i] == ENV_FLAG || StartsWith(args[i], ENV_ASSIGNMENT))
    requires forall j :: i < j < |args| ==> args[j] != ENV_FLAG && !StartsWith(args[j], ENV_ASSIGNMENT)
    ensures args[i] == ENV_FLAG ==> EnvVar(args) == Some(DEFAULT_ENV_VAR)
    ensures args[i] != ENV_FLAG ==>
      var name := args[i][|ENV_ASSIGNMENT|..];
      EnvVar(args) == Some(OrDefault(Some(Split(name, '=')[0]), DEFAULT_ENV_VAR))
    decreases |args|
  {
    if i < |args| - 1 {
      var init := args[..|args| - 1];
      assert init[i] == args[i];
      forall j | i < j < |init| ensures init[j] != ENV_FLAG && !StartsWith(init[j], ENV_ASSIGNMENT) {
        assert init[j] == args[j];
      }
      EnvVarLast(init, i);
    } else if args[i] != ENV_FLAG {
      var name := args[i][|ENV_ASSIGNMENT|..];
      assert args[i] == ENV_FLAG + "=" + name;
      FlagValue(ENV_FLAG, name);
    }
  }

  /** The last `--wrangler=PATH` decides, with the part of PATH before any
      further `=`, or `wrangler.toml` when that part is empty. */
  lemma {:induction false} WranglerFlagLast(args: seq<string>, i: nat)
    requires i < |args| && StartsWith(args[i], WRANGLER_ASSIGNMENT)
    requires forall j :: i < j < |args| ==> !StartsWith(args[j], WRANGLER_ASSIGNMENT)
    ensures var path := args[i][|WRANGLER_ASSIGNMENT|..];
      WranglerFlag(args) == Some(OrDefault(Some(Split(path, '=')[0]), DEFAULT_WRANGLER_PATH))
    decreases |args|
  {
    if i < |args| - 1 {
      var init := args[..|args| - 1];
      assert init[i] == args[i];
      forall j | i < j < |init| ensures !StartsWith(init[j], WRANGLER_ASSIGNMENT) {
        assert init[j] == args[j];
      }
      WranglerFlagLast(init, i);
    } else {
      var path := args[i][|WRANGLER_ASSIGNMENT|..];
      assert args[i] == "--wrangler" + "=" + path;
      FlagValue("--wrangler", path);
    }
  }

  /** Without a `--wrangler=` argument the flag leaves the path null, so
      the second positional or the default applies. */
  lemma {:induction false} WranglerFlagUnset(args: seq<string>)
    requires forall j :: 0 <= j < |args| ==> !StartsWith(args[j], WRANGLER_ASSIGNMENT)
    ensures WranglerFlag(args) == None
    decreases |args|
  {
    if args != [] {
      var init := args[..|args| - 1];
      forall j | 0 <= j < |init| ensures !StartsWith(init[j], WRANGLER_ASSIGNMENT) { assert init[j] == args[j]; }
      WranglerFlagUnset(init);
    }
  }

  /** A path chosen by the flag and a variable chosen by `--env` are never
      empty. */
  lemma {:induction false} FlagValuesNonEmpty(args: seq<string>)
    ensures WranglerFlag(args).Some? ==> WranglerFlag(args).value != ""
    ensures EnvVar(args).Some? ==> EnvVar(args).value != ""
    decreases |args|
  {
    if args != [] {
      FlagValuesNonEmpty(args[..|args| - 1]);
    }
  }

  // ---------------------------------------------------------------------
  // main

  /** `main()`: parse the arguments, take the id from the chosen
      environment variable or else from the lookup, and rewrite the
      configuration text; every error ends the script with its message.
      `envValues` stands for `process.env`. */
  method Run(argv: seq<string>, envValues: map<string, string>, info: GetDbId.Info, original: string)
    returns (r: Result<string>)
    ensures var args := CommandArgs(argv);
      var name := FirstOr(Unconsumed(args, IsFlag), DEFAULT_DATABASE_NAME);
      var id: Result<string> :=
        if EnvVar(args).Some? then
          ReadDatabaseIdFromEnv(EnvVar(args).value, if EnvVar(args).value in envValues then Some(envValues[EnvVar(args).value]) else None)
        else
          match GetDbId.FetchDatabaseId(name, info)
          case Ok(v) => Ok(ToText(v))
          case Err(e) => Err(e);
      && (id.Err? ==> r == id)
      && (id.Ok? ==> (r.Ok? <==> Count(Scan(original)) > 0))
      && (id.Ok? && r.Ok? ==> r.value == Rewrite(Scan(original), id.value))
  {
    var options := ParseArguments(argv);
    var databaseId: Result<string>;
    if options.envVar.Some? {
      var name := options.envVar.value;
      databaseId := ReadDatabaseIdFromEnv(name, if name in envValues then Some(envValues[name]) else None);
    } else {
      var fetched := GetDbId.FetchDatabaseId(options.databaseName, info);
      databaseId := if fetched.Ok? then Ok(ToText(fetched.value)) else Err(fetched.error);
    }
    if databaseId.Err? {
      return Err(databaseId.error);
    }
    r := UpdateWranglerToml(databaseId.value, options.wranglerPath, original);
  }
}
