/** `normalizeRepositoryValue` and `resolveRepositorySlug` of src/index.js:
    the `owner/repo` slug of the repository whose release badge the page
    shows, taken from a slug, an https GitHub URL or an SSH remote. The three
    regular expressions are written out as character-class predicates. */
module Repository {
  import opened JsText

  /** `[A-Za-z0-9_.-]` */
  predicate IsSlugChar(c: char) {
    ('A' <= c <= 'Z') || ('a' <= c <= 'z') || ('0' <= c <= '9') || c == '_' || c == '.' || c == '-'
  }

  /** `[A-Za-z0-9_.-]+` */
  predicate IsSlugPart(s: string) {
    |s| > 0 && forall i :: 0 <= i < |s| ==> IsSlugChar(s[i])
  }

  /** REPOSITORY_SLUG_PATTERN, `^[A-Za-z0-9_.-]+\/[A-Za-z0-9_.-]+$`. */
  predicate IsSlug(s: string) {
    exists k :: 0 <= k < |s| && s[k] == '/' && IsSlugPart(s[..k]) && IsSlugPart(s[k + 1..])
  }

  /** Every character of a slug is a slug character or `/`. */
  lemma SlugChars(s: string, i: nat)
    requires IsSlug(s) && i < |s|
    ensures IsSlugChar(s[i]) || s[i] == '/'
  {
    var k :| 0 <= k < |s| && s[k] == '/' && IsSlugPart(s[..k]) && IsSlugPart(s[k + 1..]);
    if i < k { assert s[..k][i] == s[i]; }
    else if i > k { assert s[k + 1..][i - k - 1] == s[i]; }
  }

  /** Appending slug characters to a slug keeps it a slug. */
  lemma SlugAppend(x: string, g: string)
    requires IsSlug(x)
    requires forall i :: 0 <= i < |g| ==> IsSlugChar(g[i])
    ensures IsSlug(x + g)
  {
    var k :| 0 <= k < |x| && x[k] == '/' && IsSlugPart(x[..k]) && IsSlugPart(x[k + 1..]);
    var s := x + g;
    assert s[..k] == x[..k];
    var tail, want := s[k + 1..], x[k + 1..] + g;
    assert tail == want by {
      forall i | 0 <= i < |tail| ensures tail[i] == want[i] {
        if k + 1 + i < |x| {
          assert tail[i] == x[k + 1 + i];
        } else {
          assert tail[i] == g[k + 1 + i - |x|];
        }
      }
    }
    assert s[k] == '/';
  }

  /** Case folding of the `i` flag; without the `u` flag it only relates
      the ASCII letters. */
  function LowerAscii(c: char): char {
    if 'A' <= c <= 'Z' then (c as int + 32) as char else c
  }

  predicate EqualsIgnoreCase(a: string, b: string) {
    |a| == |b| && forall i :: 0 <= i < |a| ==> LowerAscii(a[i]) == LowerAscii(b[i])
  }

  predicate StartsWithIgnoreCase(s: string, p: string) {
    |p| <= |s| && EqualsIgnoreCase(s[..|p|], p)
  }

  const HTTPS_PREFIX := "https://github.com/"
  const HTTP_PREFIX := "http://github.com/"
  const SSH_PREFIX := "git@github.com:"

  /** A character that folds to a slug character is one. */
  lemma FoldedSlugChar(c: char, d: char)
    requires IsSlugChar(d) && LowerAscii(c) == LowerAscii(d)
    ensures IsSlugChar(c)
  {
  }

  /** Text that matches `\.git` case-insensitively is made of slug characters. */
  lemma GitSuffixChars(g: string)
    requires EqualsIgnoreCase(g, ".git")
    ensures forall i :: 0 <= i < |g| ==> IsSlugChar(g[i])
    ensures g[|g| - 1] != '/'
  {
    forall i | 0 <= i < |g| ensures IsSlugChar(g[i]) {
      FoldedSlugChar(g[i], ".git"[i]);
    }
    FoldedSlugChar(g[3], 't');
  }

  /** Group 1 of `^https?:\/\/github\.com\/([A-Za-z0-9_.-]+\/[A-Za-z0-9_.-]+)(?:\.git)?\/?$`
      with the `i` flag. The group is greedy and `.git` consists of slug
      characters, so any `.git` suffix stays inside the capture. */
  function GithubUrlCapture(t: string): (r: Option<string>)
    ensures r.Some? ==> IsSlug(r.value)
  {
    var n := if StartsWithIgnoreCase(t, HTTPS_PREFIX) then |HTTPS_PREFIX|
             else if StartsWithIgnoreCase(t, HTTP_PREFIX) then |HTTP_PREFIX|
             else 0;
    if n == 0 then None
    else
      var rest := t[n..];
      var x := if rest != [] && rest[|rest| - 1] == '/' then rest[..|rest| - 1] else rest;
      if IsSlug(x) then Some(x) else None
  }

  /** Group 1 of `^git@github\.com:([A-Za-z0-9_.-]+\/[A-Za-z0-9_.-]+)(?:\.git)?$`
      with the `i` flag; here too `.git` stays inside the capture. */
  function SshCapture(t: string): (r: Option<string>)
    ensures r.Some? ==> IsSlug(r.value)
  {
    if StartsWithIgnoreCase(t, SSH_PREFIX) && IsSlug(t[|SSH_PREFIX|..]) then Some(t[|SSH_PREFIX|..])
    else None
  }

  /** Reference reading of the URL pattern: `t` is the scheme and host, then
      `x` for the capture group, `g` for `(?:\.git)?` and `sl` for `\/?`. */
  predicate GithubUrlParts(t: string, x: string, g: string, sl: string) {
    && IsSlug(x)
    && (g == "" || EqualsIgnoreCase(g, ".git"))
    && (sl == "" || sl == "/")
    && |x| + |g| + |sl| <= |t|
    && var n := |t| - (|x| + |g| + |sl|);
       t[n..] == x + g + sl
       && (EqualsIgnoreCase(t[..n], HTTPS_PREFIX) || EqualsIgnoreCase(t[..n], HTTP_PREFIX))
  }

  /** Reference reading of the SSH pattern: prefix, capture `x`, then `g`
      for `(?:\.git)?`. */
  predicate SshParts(t: string, x: string, g: string) {
    && IsSlug(x)
    && (g == "" || EqualsIgnoreCase(g, ".git"))
    && |x| + |g| <= |t|
    && var n := |t| - (|x| + |g|);
       t[n..] == x + g && EqualsIgnoreCase(t[..n], SSH_PREFIX)
  }

  /** Whatever the URL pattern captures, it matched with that capture and an
      empty `.git` group. */
  lemma GithubUrlCaptureSound(t: string)
    requires GithubUrlCapture(t).Some?
    ensures var x := GithubUrlCapture(t).value;
      GithubUrlParts(t, x, "", "") || GithubUrlParts(t, x, "", "/")
  {
    var x := GithubUrlCapture(t).value;
    var n := if StartsWithIgnoreCase(t, HTTPS_PREFIX) then |HTTPS_PREFIX| else |HTTP_PREFIX|;
    var rest := t[n..];
    if rest != [] && rest[|rest| - 1] == '/' {
      assert rest == x + "/";
      UrlParts(t, n, x, "/");
    } else {
      assert rest == x + "";
      UrlParts(t, n, x, "");
    }
  }

  lemma UrlParts(t: string, n: nat, x: string, sl: string)
    requires n <= |t| && (EqualsIgnoreCase(t[..n], HTTPS_PREFIX) || EqualsIgnoreCase(t[..n], HTTP_PREFIX))
    requires IsSlug(x) && (sl == "" || sl == "/") && t[n..] == x + sl
    ensures GithubUrlParts(t, x, "", sl)
  {
    assert x + "" + sl == x + sl;
  }

  /** Greediness: for every way the URL pattern matches `t`, the capture is
      the slug together with whatever the `.git` group could have taken. */
  lemma GithubUrlCaptureGreedy(t: string, x: string, g: string, sl: string)
    requires GithubUrlParts(t, x, g, sl)
    ensures GithubUrlCapture(t) == Some(x + g)
  {
    var n := |t| - (|x| + |g| + |sl|);
    assert t[..n] == t[..n][..n];
    if EqualsIgnoreCase(t[..n], HTTPS_PREFIX) {
      assert t[..|HTTPS_PREFIX|] == t[..n];
    } else {
      assert n == |HTTP_PREFIX|;
      assert LowerAscii(t[4]) == ':' by { assert t[..n][4] == t[4]; }
      assert !StartsWithIgnoreCase(t, HTTPS_PREFIX);
      assert t[..|HTTP_PREFIX|] == t[..n];
    }
    var rest := t[n..];
    assert rest == (x + g) + sl;
    if g != "" { GitSuffixChars(g); }
    SlugAppend(x, g);
    var xg := x + g;
    assert xg[|xg| - 1] != '/' by {
      if g == "" { SlugChars(x, |x| - 1); var k :| 0 <= k < |x| && x[k] == '/' && IsSlugPart(x[..k]) && IsSlugPart(x[k + 1..]);
                   assert x[k + 1..][|x| - k - 2] == x[|x| - 1]; }
      else { assert xg[|xg| - 1] == g[|g| - 1]; }
    }
    if sl == "/" {
      assert rest[|rest| - 1] == '/';
      assert rest[..|rest| - 1] == xg;
    } else {
      assert rest == xg;
    }
  }

  lemma SshCaptureSound(t: string)
    requires SshCapture(t).Some?
    ensures SshParts(t, SshCapture(t).value, "")
  {
    var x := SshCapture(t).value;
    assert t[|t| - |x|..] == x;
    assert t[..|t| - |x|] == t[..|SSH_PREFIX|];
  }

  lemma SshCaptureGreedy(t: string, x: string, g: string)
    requires SshParts(t, x, g)
    ensures SshCapture(t) == Some(x + g)
  {
    var n := |t| - (|x| + |g|);
    assert t[..|SSH_PREFIX|] == t[..n];
    if g != "" { GitSuffixChars(g); }
    SlugAppend(x, g);
  }

  /** `normalizeRepositoryValue`: the trimmed slug as it is, else the
      captured `owner/repo` of an https GitHub URL or an SSH remote, else
      null; non-strings give null. */
  function NormalizeRepositoryValue(v: Value): (r: Option<string>)
    ensures r.Some? ==> IsSlug(r.value)
    ensures !v.Str? ==> r == None
  {
    match v
    case Str(s) =>
      var t := Trim(s);
      if IsSlug(t) then Some(t)
      else
        (match GithubUrlCapture(t)
         case Some(x) => Some(x)
         case None => SshCapture(t))
    case _ => None
  }

  /** A trimmed slug is returned unchanged. */
  lemma NormalizeSlug(s: string)
    requires IsSlug(Trim(s))
    ensures NormalizeRepositoryValue(Str(s)) == Some(Trim(s))
  {
  }

  /** `t` holds a character at `i` that can stand neither in a slug nor as
      its separator, so it is no slug. */
  lemma NotSlugAt(t: string, i: nat)
    requires i < |t| && !IsSlugChar(t[i]) && t[i] != '/'
    ensures !IsSlug(t)
  {
    if IsSlug(t) { SlugChars(t, i); }
  }

  /** An https GitHub URL (any case, optional `.git`, optional trailing `/`)
      gives the captured slug, `.git` included when present. */
  lemma NormalizeGithubUrl(s: string, x: string, g: string, sl: string)
    requires GithubUrlParts(Trim(s), x, g, sl)
    ensures NormalizeRepositoryValue(Str(s)) == Some(x + g)
  {
    var t := Trim(s);
    var n := |t| - (|x| + |g| + |sl|);
    var i := if EqualsIgnoreCase(t[..n], HTTPS_PREFIX) then 5 else 4;
    assert t[..n][i] == t[i];
    assert LowerAscii(t[i]) == ':';
    NotSlugAt(t, i);
    GithubUrlCaptureGreedy(t, x, g, sl);
  }

  /** A `git@github.com:` remote gives the captured slug. */
  lemma NormalizeSsh(s: string, x: string, g: string)
    requires SshParts(Trim(s), x, g)
    ensures NormalizeRepositoryValue(Str(s)) == Some(x + g)
  {
    var t := Trim(s);
    var n := |t| - (|x| + |g|);
    assert t[..|SSH_PREFIX|] == t[..n];
    SshIsNoUrl(t);
    SshCaptureGreedy(t, x, g);
  }

  /** Text that starts with the SSH prefix is neither a slug (it has `@`)
      nor an http(s) URL (it starts with `g`). */
  lemma SshIsNoUrl(t: string)
    requires StartsWithIgnoreCase(t, SSH_PREFIX)
    ensures !IsSlug(t) && GithubUrlCapture(t) == None
  {
    var p := t[..|SSH_PREFIX|];
    assert p[3] == t[3] && p[0] == t[0];
    assert t[3] == '@';
    NotSlugAt(t, 3);
    assert LowerAscii(t[0]) == 'g';
    FirstCharDiffers(t, HTTPS_PREFIX);
    FirstCharDiffers(t, HTTP_PREFIX);
  }

  lemma FirstCharDiffers(t: string, p: string)
    requires t != [] && p != [] && LowerAscii(t[0]) != LowerAscii(p[0])
    ensures !StartsWithIgnoreCase(t, p)
  {
    if |p| <= |t| {
      assert t[..|p|][0] == t[0];
    }
  }

  /** Anything else gives null: a result is the trimmed slug, or the capture
      of one of the two patterns. */
  lemma NormalizeOnlyThese(v: Value)
    requires NormalizeRepositoryValue(v).Some?
    ensures v.Str?
    ensures var t, y := Trim(v.s), NormalizeRepositoryValue(v).value;
      (IsSlug(t) && y == t) || GithubUrlParts(t, y, "", "") || GithubUrlParts(t, y, "", "/")
      || SshParts(t, y, "")
  {
    var t := Trim(v.s);
    if !IsSlug(t) {
      if GithubUrlCapture(t).Some? { GithubUrlCaptureSound(t); } else { SshCaptureSound(t); }
    }
  }


  lemma EqualsIgnoreCaseReflexive(a: string)
    ensures EqualsIgnoreCase(a, a)
  {
  }

  /** The `.git` suffix is not stripped from a URL: the greedy group
      absorbs it, so `https://github.com/o/r.git` gives `o/r.git`. */
  lemma GitSuffixKeptInUrl(x: string)
    requires IsSlug(x)
    ensures NormalizeRepositoryValue(Str(HTTPS_PREFIX + x + ".git")) == Some(x + ".git")
  {
    var t := HTTPS_PREFIX + x + ".git";
    assert t[0] == 'h' && t[|t| - 1] == 't';
    TrimUnpadded(t);
    UrlWithGitSuffix(x);
    NormalizeGithubUrl(t, x, ".git", "");
  }

  lemma UrlWithGitSuffix(x: string)
    requires IsSlug(x)
    ensures GithubUrlParts(HTTPS_PREFIX + x + ".git", x, ".git", "")
  {
    var t := HTTPS_PREFIX + x + ".git";
    var n := |t| - (|x| + |".git"| + |""|);
    assert n == |HTTPS_PREFIX|;
    assert t[n..] == x + ".git" + "";
    assert t[..n] == HTTPS_PREFIX;
    EqualsIgnoreCaseReflexive(HTTPS_PREFIX);
    EqualsIgnoreCaseReflexive(".git");
  }

  /** Nor from an SSH remote: `git@github.com:o/r.git` gives `o/r.git`. */
  lemma GitSuffixKeptInRemote(x: string)
    requires IsSlug(x)
    ensures NormalizeRepositoryValue(Str(SSH_PREFIX + x + ".git")) == Some(x + ".git")
  {
    var t := SSH_PREFIX + x + ".git";
    assert t[0] == 'g' && t[|t| - 1] == 't';
    TrimUnpadded(t);
    RemoteWithGitSuffix(x);
    NormalizeSsh(t, x, ".git");
  }

  lemma RemoteWithGitSuffix(x: string)
    requires IsSlug(x)
    ensures SshParts(SSH_PREFIX + x + ".git", x, ".git")
  {
    var t := SSH_PREFIX + x + ".git";
    assert t[|SSH_PREFIX|..] == x + ".git";
    assert t[..|SSH_PREFIX|] == SSH_PREFIX;
    EqualsIgnoreCaseReflexive(SSH_PREFIX);
    EqualsIgnoreCaseReflexive(".git");
  }

  /** The environment keys `resolveRepositorySlug` tries, in order. */
  const REPOSITORY_KEYS: seq<string> :=
    ["SITE_REPOSITORY", "GITHUB_REPOSITORY", "CF_PAGES_REPO_FULL_NAME", "REPOSITORY", "WRANGLER_REPOSITORY"]

  function Candidates(vars: map<string, Value>): (c: seq<Value>)
    ensures |c| == |REPOSITORY_KEYS|
    ensures forall i :: 0 <= i < |c| ==> c[i] == Get(vars, REPOSITORY_KEYS[i])
  {
    seq(|REPOSITORY_KEYS|, i requires 0 <= i < |REPOSITORY_KEYS| => Get(vars, REPOSITORY_KEYS[i]))
  }

  /** The first candidate that normalises (a slug is never empty, so the
      source's truthiness test is the same as non-null). */
  function FirstNormalized(candidates: seq<Value>): (r: Option<string>)
    ensures r.Some? ==> IsSlug(r.value)
    decreases |candidates|
  {
    if candidates == [] then None
    else
      match NormalizeRepositoryValue(candidates[0])
      case Some(x) => Some(x)
      case None => FirstNormalized(candidates[1..])
  }

  /** The search returns the normalisation of the first usable candidate. */
  lemma {:induction false} FirstNormalizedIsFirst(candidates: seq<Value>, i: nat)
    requires i < |candidates| && NormalizeRepositoryValue(candidates[i]).Some?
    requires forall j :: 0 <= j < i ==> NormalizeRepositoryValue(candidates[j]).None?
    ensures FirstNormalized(candidates) == NormalizeRepositoryValue(candidates[i])
    decreases i
  {
    if i > 0 {
      assert NormalizeRepositoryValue(candidates[0]).None?;
      forall j | 0 <= j < i - 1 ensures NormalizeRepositoryValue(candidates[1..][j]).None? {
        assert candidates[1..][j] == candidates[j + 1];
      }
      FirstNormalizedIsFirst(candidates[1..], i - 1);
    }
  }

  /** The search gives null exactly when no candidate normalises. */
  lemma {:induction false} FirstNormalizedNone(candidates: seq<Value>)
    ensures FirstNormalized(candidates).None?
      <==> forall j :: 0 <= j < |candidates| ==> NormalizeRepositoryValue(candidates[j]).None?
    decreases |candidates|
  {
    if candidates != [] {
      FirstNormalizedNone(candidates[1..]);
      assert forall j :: 1 <= j < |candidates| ==> candidates[j] == candidates[1..][j - 1];
    }
  }

  /** `owner/name` from CF_PAGES_REPO_OWNER and CF_PAGES_REPO_NAME. */
  function CombinedOwnerName(vars: map<string, Value>): string {
    Trim(ToText(Get(vars, "CF_PAGES_REPO_OWNER"))) + "/" + Trim(ToText(Get(vars, "CF_PAGES_REPO_NAME")))
  }

  /** `resolveRepositorySlug(env)`. */
  function ResolveRepositorySlug(vars: map<string, Value>): (r: Option<string>)
    ensures r.Some? ==> IsSlug(r.value)
  {
    match FirstNormalized(Candidates(vars))
    case Some(x) => Some(x)
    case None =>
      if Truthy(Get(vars, "CF_PAGES_REPO_OWNER")) && Truthy(Get(vars, "CF_PAGES_REPO_NAME")) then
        var combined := CombinedOwnerName(vars);
        if IsSlug(combined) then Some(combined) else None
      else None
  }

  /** The first candidate, in the fixed key order, that normalises wins. */
  lemma ResolveRepositorySlugFirst(vars: map<string, Value>, i: nat)
    requires i < |REPOSITORY_KEYS|
    requires NormalizeRepositoryValue(Get(vars, REPOSITORY_KEYS[i])).Some?
    requires forall j :: 0 <= j < i ==> NormalizeRepositoryValue(Get(vars, REPOSITORY_KEYS[j])).None?
    ensures ResolveRepositorySlug(vars) == NormalizeRepositoryValue(Get(vars, REPOSITORY_KEYS[i]))
  {
    FirstNormalizedIsFirst(Candidates(vars), i);
  }

  /** When no candidate normalises, the result is the trimmed owner/name
      pair, provided both are truthy and the pair is a slug; otherwise null. */
  lemma ResolveRepositorySlugFallback(vars: map<string, Value>)
    requires forall j :: 0 <= j < |REPOSITORY_KEYS| ==> NormalizeRepositoryValue(Get(vars, REPOSITORY_KEYS[j])).None?
    ensures ResolveRepositorySlug(vars).Some? <==>
      Truthy(Get(vars, "CF_PAGES_REPO_OWNER")) && Truthy(Get(vars, "CF_PAGES_REPO_NAME"))
      && IsSlug(CombinedOwnerName(vars))
    ensures ResolveRepositorySlug(vars).Some? ==> ResolveRepositorySlug(vars).value == CombinedOwnerName(vars)
  {
    FirstNormalizedNone(Candidates(vars));
  }
}
