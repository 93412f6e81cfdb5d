/** The few JavaScript values and string operations the worker and the
    provisioning scripts rely on: nullable results, truthiness, `String(v)`,
    `trim()`, `startsWith()` and `split()` on one character. */
module JsText {

  /** `null` (None) or a value (Some). */
  datatype Option<T> = None | Some(value: T)

  /** A returned value, or the message of the `Error` that was thrown. */
  datatype Result<T> = Ok(value: T) | Err(error: string)

  /** A JavaScript value as the core sees it: `undefined`/`null`, a string,
      or any other value (a number, a boolean, an object) given by what
      `String(v)` prints for it and by whether it is truthy. */
  datatype Value =
    | Missing
    | Str(s: string)
    | Other(text: string, truthy: bool)

  /** `Boolean(v)`: the empty string and the nullish values are falsy. */
  predicate Truthy(v: Value) {
    match v
    case Missing => false
    case Str(s) => s != ""
    case Other(_, t) => t
  }

  /** `env?.KEY`: the value bound to `key`, or Missing. */
  function Get(vars: map<string, Value>, key: string): Value {
    if key in vars then vars[key] else Missing
  }

  /** `String(v)`. The core only converts truthy values, so the text chosen
      for Missing (that of `undefined`) is never observed. */
  function ToText(v: Value): string {
    match v
    case Missing => "undefined"
    case Str(s) => s
    case Other(t, _) => t
  }

  /** The characters `String.prototype.trim` removes and that `\s` matches:
      WhiteSpace and LineTerminator of ECMA-262, section 12.2 and 12.3. */
  predicate IsSpace(c: char) {
    c == '\t' || c == '\n' || c == '\U{B}' || c == '\U{C}' || c == '\r' || c == ' '
    || c == '\U{A0}' || c == '\U{1680}' || ('\U{2000}' <= c <= '\U{200A}')
    || c == '\U{2028}' || c == '\U{2029}' || c == '\U{202F}' || c == '\U{205F}'
    || c == '\U{3000}' || c == '\U{FEFF}'
  }

  predicate AllSpace(s: string) {
    forall i :: 0 <= i < |s| ==> IsSpace(s[i])
  }

  /** Number of white-space characters at the start of `s`. */
  function LeadingSpaces(s: string): (n: nat)
    ensures n <= |s|
    ensures AllSpace(s[..n])
    ensures n < |s| ==> !IsSpace(s[n])
  {
    if s == [] || !IsSpace(s[0]) then 0
    else
      var m := LeadingSpaces(s[1..]);
      assert s[..1 + m] == [s[0]] + s[1..][..m];
      1 + m
  }

  /** Number of white-space characters at the end of `s`. */
  function TrailingSpaces(s: string): (n: nat)
    ensures n <= |s|
    ensures AllSpace(s[|s| - n..])
    ensures n < |s| ==> !IsSpace(s[|s| - 1 - n])
  {
    if s == [] || !IsSpace(s[|s| - 1]) then 0
    else
      var init := s[..|s| - 1];
      var m := TrailingSpaces(init);
      assert s[|s| - (1 + m)..] == init[|init| - m..] + [s[|s| - 1]];
      1 + m
  }

  /** `s.trim()`: `s` with white space removed from both ends. */
  function Trim(s: string): (r: string)
    ensures |r| <= |s|
    ensures r == [] <==> AllSpace(s)
    ensures r == [] || (!IsSpace(r[0]) && !IsSpace(r[|r| - 1]))
  {
    var i := LeadingSpaces(s);
    var rest := s[i..];
    var j := TrailingSpaces(rest);
    if rest == [] then []
    else
      assert !IsSpace(rest[0]);
      assert j < |rest|;
      assert !AllSpace(s) by { assert !IsSpace(s[i]); }
      rest[..|rest| - j]
  }

  lemma {:induction false} LeadingSpacesOfPadded(a: string, m: string)
    requires AllSpace(a)
    requires m == [] || !IsSpace(m[0])
    ensures LeadingSpaces(a + m) == |a|
    decreases |a|
  {
    if a != [] {
      assert (a + m)[1..] == a[1..] + m;
      LeadingSpacesOfPadded(a[1..], m);
    }
  }

  lemma {:induction false} TrailingSpacesOfPadded(m: string, b: string)
    requires AllSpace(b)
    requires m == [] || !IsSpace(m[|m| - 1])
    ensures TrailingSpaces(m + b) == |b|
    decreases |b|
  {
    if b != [] {
      assert (m + b)[..|m + b| - 1] == m + b[..|b| - 1];
      TrailingSpacesOfPadded(m, b[..|b| - 1]);
    }
  }

  /** Trimming white space around a core that starts and ends with a
      non-space character gives back exactly that core. Together with the
      contract of Trim this determines Trim completely. */
  lemma TrimOfPadded(a: string, m: string, b: string)
    requires AllSpace(a) && AllSpace(b)
    requires m == [] || (!IsSpace(m[0]) && !IsSpace(m[|m| - 1]))
    ensures Trim(a + m + b) == m
  {
    var s := a + m + b;
    assert s == a + (m + b);
    if m == [] {
      assert AllSpace(s) by {
        forall k | 0 <= k < |s| ensures IsSpace(s[k]) {
          if k < |a| { assert s[k] == a[k]; } else { assert s[k] == b[k - |a|]; }
        }
      }
    } else {
      LeadingSpacesOfPadded(a, m + b);
      assert s[|a|..] == m + b;
      TrailingSpacesOfPadded(m, b);
      assert (m + b)[..|m + b| - |b|] == m;
    }
  }

  /** A text that starts and ends with a non-space character is its own trim. */
  lemma TrimUnpadded(m: string)
    requires m != [] && !IsSpace(m[0]) && !IsSpace(m[|m| - 1])
    ensures Trim(m) == m
  {
    TrimOfPadded([], m, []);
    assert [] + m + [] == m;
  }

  /** `trim()` is idempotent. */
  lemma TrimIdempotent(s: string)
    ensures Trim(Trim(s)) == Trim(s)
  {
    var r := Trim(s);
    TrimOfPadded([], r, []);
    assert [] + r + [] == r;
  }

  /** Concatenation regroups freely; the proofs that build a text piece by
      piece use it to pass between `a + b + c` and `a + (b + c)`. */
  lemma ConcatAssoc<T>(a: seq<T>, b: seq<T>, c: seq<T>)
    ensures a + b + c == a + (b + c)
  {
  }

  /** `s.startsWith(p)`. */
  predicate StartsWith(s: string, p: string) {
    |p| <= |s| && s[..|p|] == p
  }

  /** `s.split(sep)` for a one-character separator: the pieces between
      separators, in order; there is always at least one piece. */
  function Split(s: string, sep: char): (r: seq<string>)
    ensures |r| >= 1
    ensures forall k :: 0 <= k < |r| ==> sep !in r[k]
    decreases |s|
  {
    if s == [] then [""]
    else if s[0] == sep then [""] + Split(s[1..], sep)
    else
      var t := Split(s[1..], sep);
      [[s[0]] + t[0]] + t[1..]
  }

  /** `parts.join(sep)` for a one-character separator. */
  function Join(parts: seq<string>, sep: char): string
    requires |parts| >= 1
    decreases |parts|
  {
    if |parts| == 1 then parts[0] else parts[0] + [sep] + Join(parts[1..], sep)
  }

  /** Splitting loses nothing: joining the pieces gives the string back. */
  lemma {:induction false} JoinSplit(s: string, sep: char)
    ensures Join(Split(s, sep), sep) == s
    decreases |s|
  {
    if s == [] {
    } else if s[0] == sep {
      var t := Split(s[1..], sep);
      JoinSplit(s[1..], sep);
      assert ([""] + t)[1..] == t;
    } else {
      var t := Split(s[1..], sep);
      JoinSplit(s[1..], sep);
      var r := [[s[0]] + t[0]] + t[1..];
      if |t| == 1 {
        assert Join(r, sep) == [s[0]] + t[0];
      } else {
        assert r[1..] == t[1..];
        assert Join(t, sep) == t[0] + [sep] + Join(t[1..], sep);
      }
    }
  }

  /** The piece after the first separator of `p + [sep] + rest`, where `p`
      holds no separator, is the first piece of `rest`: the text up to the
      next separator or the end. */
  lemma {:induction false} SplitAfterSeparator(p: string, sep: char, rest: string)
    requires sep !in p
    ensures Split(p + [sep] + rest, sep) == [p] + Split(rest, sep)
    decreases |p|
  {
    var s := p + [sep] + rest;
    if p == [] {
      assert s[0] == sep && s[1..] == rest;
    } else {
      assert s[0] == p[0] && s[1..] == p[1..] + [sep] + rest;
      SplitAfterSeparator(p[1..], sep, rest);
      assert [p[0]] + p[1..] == p;
    }
  }

  /** The first piece of `s.split(sep)` is the longest prefix of `s` that
      holds no separator. */
  lemma {:induction false} SplitFirstPiece(s: string, sep: char)
    ensures StartsWith(s, Split(s, sep)[0])
    ensures |Split(s, sep)[0]| < |s| ==> s[|Split(s, sep)[0]|] == sep
    decreases |s|
  {
    if s != [] && s[0] != sep {
      SplitFirstPiece(s[1..], sep);
    }
  }

  /** `const [, value] = s.split(sep)`: the second piece, or None
      (`undefined`) when `s` holds no separator. */
  function SecondPiece(s: string, sep: char): (r: Option<string>)
    ensures r.Some? ==> sep !in r.value
  {
    var parts := Split(s, sep);
    if |parts| >= 2 then Some(parts[1]) else None
  }

  /** `value || fallback` for a string-or-undefined `value`. */
  function OrDefault(value: Option<string>, fallback: string): (r: string)
    ensures r == fallback || value == Some(r)
    ensures r != "" <==> fallback != "" || (value.Some? && value.value != "")
    ensures value.Some? && value.value != "" ==> r == value.value
  {
    if value.Some? && value.value != "" then value.value else fallback
  }

  /** The value of `flag=v` split on `=` is the part of `v` before its own
      first `=` (or all of `v`): the pieces after a second `=` are lost. */
  lemma FlagValue(flag: string, v: string)
    requires '=' !in flag
    ensures SecondPiece(flag + "=" + v, '=') == Some(Split(v, '=')[0])
    ensures StartsWith(v, Split(v, '=')[0])
    ensures |Split(v, '=')[0]| < |v| ==> v[|Split(v, '=')[0]|] == '='
  {
    SplitAfterSeparator(flag, '=', v);
    assert flag + "=" + v == flag + ['='] + v;
    SplitFirstPiece(v, '=');
  }

  /** `argv.slice(2)`: the arguments after the interpreter and the script. */
  function CommandArgs(argv: seq<string>): (args: seq<string>)
    ensures |argv| >= 2 ==> argv[..2] + args == argv
    ensures |args| == if |argv| >= 2 then |argv| - 2 else 0
  {
    if |argv| < 2 then [] else argv[2..]
  }

  /** The arguments an argument loop pushes onto `positional`: those it
      does not consume as flags, in their order. */
  function Unconsumed(args: seq<string>, consumed: string -> bool): (p: seq<string>)
    ensures |p| <= |args|
    ensures forall k :: 0 <= k < |p| ==> !consumed(p[k]) && p[k] in args
    decreases |args|
  {
    if args == [] then []
    else
      var last := args[|args| - 1];
      var init := Unconsumed(args[..|args| - 1], consumed);
      assert forall k :: 0 <= k < |init| ==> init[k] in args by {
        forall k | 0 <= k < |init| ensures init[k] in args {
          assert init[k] in args[..|args| - 1];
        }
      }
      init + (if consumed(last) then [] else [last])
  }

  /** One more argument: the loop pushes it unless it consumes it. */
  lemma UnconsumedStep(args: seq<string>, consumed: string -> bool, i: nat)
    requires i < |args|
    ensures Unconsumed(args[..i + 1], consumed) ==
      Unconsumed(args[..i], consumed) + (if consumed(args[i]) then [] else [args[i]])
  {
    assert args[..i + 1][..i] == args[..i];
  }

  /** Membership in a prefix one element longer. */
  lemma InLongerPrefix<T>(s: seq<T>, i: nat, x: T)
    requires i < |s|
    ensures x in s[..i + 1] <==> x in s[..i] || x == s[i]
  {
    assert s[..i + 1] == s[..i] + [s[i]];
  }

  /** The first positional is the first argument the loop does not
      consume; the later ones do not change it. */
  lemma {:induction false} FirstUnconsumed(args: seq<string>, consumed: string -> bool, i: nat)
    requires i < |args| && !consumed(args[i])
    requires forall j :: 0 <= j < i ==> consumed(args[j])
    ensures Unconsumed(args, consumed) != [] && Unconsumed(args, consumed)[0] == args[i]
    ensures forall fallback :: FirstOr(Unconsumed(args, consumed), fallback) == args[i]
    decreases |args|
  {
    var init := args[..|args| - 1];
    if i < |args| - 1 {
      assert init[i] == args[i];
      forall j | 0 <= j < i ensures consumed(init[j]) { assert init[j] == args[j]; }
      FirstUnconsumed(init, consumed, i);
    } else {
      forall j | 0 <= j < |init| ensures consumed(init[j]) { assert init[j] == args[j]; }
      NoneUnconsumed(init, consumed);
    }
  }

  /** When the loop consumes every argument there is no positional. */
  lemma {:induction false} NoneUnconsumed(args: seq<string>, consumed: string -> bool)
    requires forall j :: 0 <= j < |args| ==> consumed(args[j])
    ensures Unconsumed(args, consumed) == []
    ensures forall fallback :: FirstOr(Unconsumed(args, consumed), fallback) == fallback
    decreases |args|
  {
    if args != [] {
      var init := args[..|args| - 1];
      forall j | 0 <= j < |init| ensures consumed(init[j]) { assert init[j] == args[j]; }
      NoneUnconsumed(init, consumed);
    }
  }

  /** `const [x = fallback] = items`: the first item, or the fallback when
      there is none (an empty string is an item and is kept). */
  function FirstOr(items: seq<string>, fallback: string): (r: string)
    ensures items != [] ==> r == items[0]
    ensures items == [] ==> r == fallback
  {
    if items != [] then items[0] else fallback
  }

  /** The message of the TypeError V8 raises for calling `expr` when it is
      not a function, as `env?.X?.trim()` does on a value that is neither
      nullish nor a string. */
  function NotAFunction(expr: string): string {
    expr + " is not a function"
  }

  /** The expression `env?.KEY?.trim` as a TypeError names it. */
  function TrimOf(key: string): string {
    "env?." + key + "?.trim"
  }

  /** `env?.KEY?.trim() || fallback`: the trimmed string when it is not
      empty, the fallback for a nullish or blank value, and a TypeError for
      any other value, whose `trim` is not a function. */
  function TrimmedOr(v: Value, key: string, fallback: string): (r: Result<string>)
    ensures v.Missing? ==> r == Ok(fallback)
    ensures v.Str? && !AllSpace(v.s) ==> r == Ok(Trim(v.s))
    ensures v.Str? && AllSpace(v.s) ==> r == Ok(fallback)
    ensures v.Other? <==> r.Err?
    ensures r.Err? ==> r.error == NotAFunction(TrimOf(key))
  {
    match v
    case Missing => Ok(fallback)
    case Str(s) => var t := Trim(s); Ok(if t != "" then t else fallback)
    case Other(_, _) => Err(NotAFunction(TrimOf(key)))
  }
}
