/** The page of src/index.js: the release section, the success and the error
    page, and the status `fetch` chooses. A page is modelled by its sections
    and the escaped text of each slot; the markup and stylesheet around the
    slots are fixed text and are not reproduced. */
module Page {
  import opened JsText
  import opened HtmlEscape
  import Repository
  import opened Greeting

  const DEFAULT_RELEASE := "v1.0.0"
  const ERROR_TITLE := "Database unavailable"
  const DEFAULT_SITE_TITLE := "Hello World"
  /** The dash between the site title and ERROR_TITLE in the error page's
      `<title>`: the source file holds the three characters U+00E2 U+20AC
      U+201C, the UTF-8 bytes of an en dash read as Windows-1252. */
  const TITLE_SEPARATOR := " \U{E2}\U{20AC}\U{201C} "
  const CURRENT_RELEASE := "Current release "
  const LATEST_RELEASE_FOR := "Latest GitHub release for "

  function BadgeImageUrl(slug: string): string {
    "https://img.shields.io/github/v/release/" + slug + "?display_name=tag&sort=semver"
  }

  function ReleasesUrl(slug: string): string {
    "https://github.com/" + slug + "/releases"
  }

  /** The release section: nothing, the `Release X` text, or the badge
      block with its link, its image and the image's alternative text, and
      the screen-reader label. Every field holds escaped text. */
  datatype ReleaseSection =
    | NoRelease
    | ReleaseText(release: string)
    | Badge(linkUrl: string, badgeUrl: string, altText: string, accessibleLabel: string)

  /** `x ? ... : ...` on a repository slug, which is a string or null. */
  predicate SlugPresent(slug: Option<string>) {
    slug.Some? && slug.value != ""
  }

  /** `releaseLabel ? escapeHtml(releaseLabel) : null` is truthy: the label
      is truthy and its text is not empty (a truthy value such as `[]`
      whose text is empty escapes to the empty string, which is falsy). */
  predicate ReleaseShown(releaseLabel: Value) {
    Truthy(releaseLabel) && ToText(releaseLabel) != ""
  }

  /** `buildReleaseSection(releaseLabel, repositorySlug)`: the badge block
      whenever there is a slug, else the release text when the escaped label
      is not empty, else nothing. Each field decodes back to the text it was
      built from and is safe to put into markup. */
  function BuildReleaseSection(releaseLabel: Value, slug: Option<string>): (r: ReleaseSection)
    ensures r.Badge? <==> SlugPresent(slug)
    ensures r.ReleaseText? <==> !SlugPresent(slug) && ReleaseShown(releaseLabel)
    ensures r.ReleaseText? ==> Safe(r.release) && Unescape(r.release) == ToText(releaseLabel)
    ensures r.Badge? ==>
      && Safe(r.linkUrl) && Unescape(r.linkUrl) == ReleasesUrl(slug.value)
      && Safe(r.badgeUrl) && Unescape(r.badgeUrl) == BadgeImageUrl(slug.value)
      && Safe(r.altText) && Unescape(r.altText) == LATEST_RELEASE_FOR + slug.value
      && Safe(r.accessibleLabel)
      && Unescape(r.accessibleLabel) ==
           if ReleaseShown(releaseLabel) then CURRENT_RELEASE + ToText(releaseLabel)
           else LATEST_RELEASE_FOR + slug.value
  {
    var safeRelease := if Truthy(releaseLabel) then EscapeHtml(ToText(releaseLabel)) else "";
    if SlugPresent(slug) then
      var s := slug.value;
      EscapedSlot(BadgeImageUrl(s));
      EscapedSlot(ReleasesUrl(s));
      PlainCurrentRelease();
      PlainLatestRelease();
      LabelledSlot(CURRENT_RELEASE, ToText(releaseLabel));
      LabelledSlot(LATEST_RELEASE_FOR, s);
      var accessible :=
        if safeRelease != "" then CURRENT_RELEASE + safeRelease
        else LATEST_RELEASE_FOR + EscapeHtml(s);
      Badge(EscapeHtml(ReleasesUrl(s)), EscapeHtml(BadgeImageUrl(s)), LATEST_RELEASE_FOR + EscapeHtml(s), accessible)
    else if safeRelease != "" then
      EscapedSlot(ToText(releaseLabel));
      ReleaseText(safeRelease)
    else NoRelease
  }

  /** An escaped slot is safe and decodes to its text. */
  lemma EscapedSlot(s: string)
    ensures Safe(EscapeHtml(s)) && Unescape(EscapeHtml(s)) == s
  {
    EscapeHtmlSafe(s);
    UnescapeEscapeHtml(s);
  }

  lemma PlainCurrentRelease()
    ensures Plain(CURRENT_RELEASE)
  {
  }

  lemma PlainLatestRelease()
    ensures Plain(LATEST_RELEASE_FOR)
  {
  }

  lemma PlainTitleTail()
    ensures Plain(TITLE_SEPARATOR + ERROR_TITLE)
  {
  }

  /** Fixed text without special characters, then an escaped slot. */
  lemma LabelledSlot(p: string, s: string)
    requires Plain(p)
    ensures Safe(p + EscapeHtml(s)) && Unescape(p + EscapeHtml(s)) == p + s
  {
    PlainSafe(p);
    EscapedSlot(s);
    SafeConcat(p, EscapeHtml(s));
    UnescapePlain(p, EscapeHtml(s));
  }

  /** The slots of the success page. */
  datatype SuccessPage = SuccessPage(
    title: string,
    message: string,
    note: string,
    release: ReleaseSection,
    requestUrl: Option<string>,
    warning: Option<string>)

  /** The slots of the error page. */
  datatype ErrorPage = ErrorPage(title: string, release: ReleaseSection, reason: string)

  /** `renderSuccessHtml(...)`: the escaped message, note and title; the
      request-URL section only for a non-empty string URL; the warning
      paragraph only for a non-empty warning. */
  function RenderSuccessHtml(message: Value, siteTitle: string, note: string, warning: Option<string>,
                             requestUrl: Value, releaseLabel: Value, slug: Option<string>): (p: SuccessPage)
    ensures Safe(p.title) && Unescape(p.title) == siteTitle
    ensures Safe(p.message) && Unescape(p.message) == ToText(message)
    ensures Safe(p.note) && Unescape(p.note) == note
    ensures p.release == BuildReleaseSection(releaseLabel, slug)
    ensures p.requestUrl.Some? <==> requestUrl.Str? && requestUrl.s != ""
    ensures p.requestUrl.Some? ==> Safe(p.requestUrl.value) && Unescape(p.requestUrl.value) == requestUrl.s
    ensures p.warning.Some? <==> warning.Some? && warning.value != ""
    ensures p.warning.Some? ==> Safe(p.warning.value) && Unescape(p.warning.value) == warning.value
  {
    EscapedSlot(siteTitle);
    EscapedSlot(ToText(message));
    EscapedSlot(note);
    var url := if requestUrl.Str? && requestUrl.s != "" then EscapedSlot(requestUrl.s); Some(EscapeHtml(requestUrl.s)) else None;
    var warningHtml := if warning.Some? && warning.value != "" then EscapedSlot(warning.value); Some(EscapeHtml(warning.value)) else None;
    SuccessPage(EscapeHtml(siteTitle), EscapeHtml(ToText(message)), EscapeHtml(note),
                BuildReleaseSection(releaseLabel, slug), url, warningHtml)
  }

  /** `renderErrorHtml(error, ...)`: the escaped site title followed by the
      dash and ERROR_TITLE, and the escaped message of the error. */
  function RenderErrorHtml(error: string, siteTitle: string, releaseLabel: Value, slug: Option<string>): (p: ErrorPage)
    ensures Safe(p.reason) && Unescape(p.reason) == error
    ensures Safe(p.title) && Unescape(p.title) == siteTitle + TITLE_SEPARATOR + ERROR_TITLE
    ensures p.release == BuildReleaseSection(releaseLabel, slug)
  {
    EscapedSlot(error);
    var title := EscapeHtml(siteTitle) + TITLE_SEPARATOR + ERROR_TITLE;
    ErrorTitle(siteTitle);
    ErrorPage(title, BuildReleaseSection(releaseLabel, slug), EscapeHtml(error))
  }

  lemma ErrorTitle(siteTitle: string)
    ensures var title := EscapeHtml(siteTitle) + TITLE_SEPARATOR + ERROR_TITLE;
      Safe(title) && Unescape(title) == siteTitle + TITLE_SEPARATOR + ERROR_TITLE
  {
    var tail := TITLE_SEPARATOR + ERROR_TITLE;
    PlainTitleTail();
    PlainSafe(tail);
    EscapedSlot(siteTitle);
    SafeConcat(EscapeHtml(siteTitle), tail);
    UnescapeEscapeHtmlThen(siteTitle, tail);
    UnescapePlain(tail, "");
    ConcatAssoc(EscapeHtml(siteTitle), TITLE_SEPARATOR, ERROR_TITLE);
    ConcatAssoc(siteTitle, TITLE_SEPARATOR, ERROR_TITLE);
    assert tail + "" == tail;
  }

  datatype Body = Success(success: SuccessPage) | Failure(failure: ErrorPage)

  /** The response `fetch` resolves to; its content type is always
      `text/html; charset=UTF-8`. */
  datatype Response = Response(status: nat, body: Body)

  /** `fetch(request, env)`. SITE_TITLE and SITE_RELEASE are read before
      the `try`: a value of either without `trim` makes the returned promise
      reject (Err). Inside the `try` only the fallback's DEFAULT_GREETING can
      throw; that error is rendered as the error page with status 500. */
  function Fetch(request: Request, env: Env): (r: Result<Response>)
    ensures r.Err? <==> Get(env.vars, "SITE_TITLE").Other? || Get(env.vars, "SITE_RELEASE").Other?
    ensures Get(env.vars, "SITE_TITLE").Other? ==> r == Err(NotAFunction(TrimOf("SITE_TITLE")))
    ensures !Get(env.vars, "SITE_TITLE").Other? && Get(env.vars, "SITE_RELEASE").Other? ==>
      r == Err(NotAFunction(TrimOf("SITE_RELEASE")))
    ensures r.Ok? ==> (r.value.status == 200 || r.value.status == 500)
    ensures r.Ok? ==> (r.value.status == 500 <==> r.value.body.Failure?)
    ensures r.Ok? ==> (r.value.status == 500 <==>
      ResolveGreeting(env, DescribeInfrastructureLocation(request)).Err?)
    ensures r.Ok? ==> (r.value.status == 500 <==>
      !ServedFromDatabase(env.binding) && Get(env.vars, "DEFAULT_GREETING").Other?)
    ensures r.Ok? && r.value.body.Success? ==> !r.value.body.success.release.NoRelease?
    ensures r.Ok? && r.value.body.Failure? ==> !r.value.body.failure.release.NoRelease?
  {
    match TrimmedOr(Get(env.vars, "SITE_TITLE"), "SITE_TITLE", DEFAULT_SITE_TITLE)
    case Err(e) => Err(e)
    case Ok(siteTitle) =>
      match TrimmedOr(Get(env.vars, "SITE_RELEASE"), "SITE_RELEASE", DEFAULT_RELEASE)
      case Err(e) => Err(e)
      case Ok(siteRelease) =>
        assert ReleaseShown(Str(siteRelease));
        var greeting := ResolveGreeting(env, DescribeInfrastructureLocation(request));
        Ok(Respond(greeting, request.url, siteTitle, Str(siteRelease), Repository.ResolveRepositorySlug(env.vars)))
  }

  /** The `try` of `fetch`: the success page for a resolved greeting, the
      error page with status 500 for what the resolver threw. */
  function Respond(greeting: Result<GreetingResult>, requestUrl: Value, siteTitle: string,
                   releaseLabel: Value, slug: Option<string>): (resp: Response)
    ensures resp.status == 200 || resp.status == 500
    ensures resp.status == 500 <==> resp.body.Failure?
    ensures resp.status == 500 <==> greeting.Err?
    ensures ReleaseShown(releaseLabel) && resp.body.Success? ==> !resp.body.success.release.NoRelease?
    ensures ReleaseShown(releaseLabel) && resp.body.Failure? ==> !resp.body.failure.release.NoRelease?
    ensures resp.body.Success? ==> (resp.body.success ==
      RenderSuccessHtml(greeting.value.message, siteTitle, greeting.value.note, greeting.value.warning,
                        requestUrl, releaseLabel, slug))
    ensures resp.body.Failure? ==> resp.body.failure == RenderErrorHtml(greeting.error, siteTitle, releaseLabel, slug)
  {
    match greeting
    case Ok(g) =>
      Response(200, Success(RenderSuccessHtml(g.message, siteTitle, g.note, g.warning, requestUrl, releaseLabel, slug)))
    case Err(e) =>
      Response(500, Failure(RenderErrorHtml(e, siteTitle, releaseLabel, slug)))
  }

  /** The site variables `fetch` reads before its `try` are usable. */
  predicate SiteVarsUsable(env: Env) {
    !Get(env.vars, "SITE_TITLE").Other? && !Get(env.vars, "SITE_RELEASE").Other?
  }

  /** A database row with a truthy message: status 200, the message is
      shown and there is no warning paragraph. */
  lemma ServedRow(request: Request, env: Env)
    requires SiteVarsUsable(env) && ServedFromDatabase(env.binding)
    ensures var r := Fetch(request, env);
      && r.Ok? && r.value.status == 200 && r.value.body.Success?
      && Unescape(r.value.body.success.message) == ToText(env.binding.message)
      && r.value.body.success.warning.None?
  {
    ResolveGreetingCases(env, DescribeInfrastructureLocation(request));
  }

  /** No binding and no DEFAULT_GREETING: status 200, `Hello World`, and a
      warning that ends with the missing-binding reason. */
  lemma UnboundDefault(request: Request, env: Env)
    requires SiteVarsUsable(env) && env.binding.Unbound? && Get(env.vars, "DEFAULT_GREETING").Missing?
    ensures var r := Fetch(request, env);
      && r.Ok? && r.value.status == 200 && r.value.body.Success?
      && Unescape(r.value.body.success.message) == DEFAULT_GREETING
      && r.value.body.success.warning.Some?
      && Unescape(r.value.body.success.warning.value) == FALLBACK_WARNING + " (" + MISSING_BINDING + ")"
  {
    ResolveGreetingCases(env, DescribeInfrastructureLocation(request));
  }

  /** A failing read: status 200, and the error's message inside the
      warning. */
  lemma FailedRead(request: Request, env: Env)
    requires SiteVarsUsable(env) && env.binding.Fails? && env.binding.reason != ""
    requires !Get(env.vars, "DEFAULT_GREETING").Other?
    ensures var r := Fetch(request, env);
      && r.Ok? && r.value.status == 200 && r.value.body.Success?
      && r.value.body.success.warning.Some?
      && Unescape(r.value.body.success.warning.value) == FALLBACK_WARNING + " (" + env.binding.reason + ")"
  {
    ResolveGreetingCases(env, DescribeInfrastructureLocation(request));
  }

  /** A DEFAULT_GREETING without `trim`, needed because the database cannot
      serve the greeting: status 500 and the error page shows the
      TypeError's message. */
  lemma BrokenDefaultGreeting(request: Request, env: Env)
    requires SiteVarsUsable(env) && !ServedFromDatabase(env.binding)
    requires Get(env.vars, "DEFAULT_GREETING").Other?
    ensures var r := Fetch(request, env);
      && r.Ok? && r.value.status == 500 && r.value.body.Failure?
      && Unescape(r.value.body.failure.reason) == NotAFunction(TrimOf("DEFAULT_GREETING"))
  {
    ResolveGreetingCases(env, DescribeInfrastructureLocation(request));
  }
}
