/**
 * The scraping endpoint: a per-IP rate limiter held across requests, the
 * client address taken from the proxy headers, the gate on the requested
 * URL, and the choice between a cached page, a new scrape and a stale page.
 *
 * The clock, the request headers, the cached row and the scrape response
 * are parameters; the database and the network calls are not part of this
 * model.
 */
module FirecrawlScrape {
  import opened Text
  import WarmCache

  // ---------------------------------------------------------------------------
  // Rate limiting
  // ---------------------------------------------------------------------------

  const RateLimitMax: int := 10
  const RateLimitWindow: int := 60000

  /** The requests counted for one address and the end of its window. */
  datatype Entry = Entry(count: int, resetAt: int)

  /** The table after one request, and whether the request is allowed. */
  datatype Admission = Admission(entries: map<string, Entry>, allowed: bool)

  /**
   * `checkRateLimit` as a value: a new address, or one whose window has
   * ended, starts a new window with count 1; otherwise the count goes up,
   * even past the limit, and the request is allowed while it is at most 10.
   */
  function Admit(entries: map<string, Entry>, ip: string, now: int): (a: Admission)
    ensures a.entries.Keys == entries.Keys + {ip}
    ensures forall other :: other in entries && other != ip ==> a.entries[other] == entries[other]
    ensures a.allowed <==> a.entries[ip].count <= RateLimitMax
    ensures ip !in entries || now > entries[ip].resetAt ==> a.allowed && a.entries[ip] == Entry(1, now + RateLimitWindow)
    ensures ip in entries && now <= entries[ip].resetAt ==>
              a.entries[ip] == Entry(entries[ip].count + 1, entries[ip].resetAt)
  {
    if ip !in entries || now > entries[ip].resetAt then
      Admission(entries[ip := Entry(1, now + RateLimitWindow)], true)
    else
      var e := entries[ip];
      Admission(entries[ip := Entry(e.count + 1, e.resetAt)], e.count + 1 <= RateLimitMax)
  }

  /** The module-level map of the endpoint, kept for the life of the isolate. */
  class RateLimiter {
    var entries: map<string, Entry>

    constructor()
      ensures entries == map[]
    {
      entries := map[];
    }

    /** `checkRateLimit(ip)` at time `now`. */
    method CheckRateLimit(ip: string, now: int) returns (allowed: bool)
      modifies this
      ensures entries == Admit(old(entries), ip, now).entries
      ensures allowed == Admit(old(entries), ip, now).allowed
    {
      if ip !in entries || now > entries[ip].resetAt {
        entries := entries[ip := Entry(1, now + RateLimitWindow)];
        return true;
      }
      var entry := entries[ip];
      var count := entry.count + 1;
      entries := entries[ip := Entry(count, entry.resetAt)];
      allowed := count <= RateLimitMax;
    }
  }

  /** The table and the verdicts after requests from one address at the given times. */
  datatype Run = Run(entries: map<string, Entry>, allowed: seq<bool>)

  function Burst(entries: map<string, Entry>, ip: string, times: seq<int>): (r: Run)
    ensures |r.allowed| == |times|
    decreases |times|
  {
    if times == [] then Run(entries, [])
    else
      var a := Admit(entries, ip, times[0]);
      var rest := Burst(a.entries, ip, times[1..]);
      Run(rest.entries, [a.allowed] + rest.allowed)
  }

  /** The number of allowed requests. */
  function CountAllowed(bs: seq<bool>): (n: nat)
    ensures n <= |bs|
  {
    if bs == [] then 0 else (if bs[0] then 1 else 0) + CountAllowed(bs[1..])
  }

  /**
   * Within a window (every time at most its end) the count grows by one per
   * request and at most the requests up to the tenth are allowed.
   */
  lemma {:induction false} WithinWindow(entries: map<string, Entry>, ip: string, times: seq<int>)
    requires ip in entries && entries[ip].count >= 1
    requires forall i :: 0 <= i < |times| ==> times[i] <= entries[ip].resetAt
    ensures var r := Burst(entries, ip, times);
      ip in r.entries && r.entries[ip] == Entry(entries[ip].count + |times|, entries[ip].resetAt)
      && CountAllowed(r.allowed) <= (if entries[ip].count >= RateLimitMax then 0 else RateLimitMax - entries[ip].count)
    decreases |times|
  {
    if times != [] {
      var a := Admit(entries, ip, times[0]);
      WithinWindow(a.entries, ip, times[1..]);
    }
  }

  /**
   * A request that opens a new window, followed by any number of requests
   * before the window ends, has at most 10 of them allowed.
   */
  lemma AtMostTenPerWindow(entries: map<string, Entry>, ip: string, now: int, times: seq<int>)
    requires ip !in entries || now > entries[ip].resetAt
    requires forall i :: 0 <= i < |times| ==> times[i] <= now + RateLimitWindow
    ensures CountAllowed(Burst(entries, ip, [now] + times).allowed) <= RateLimitMax
  {
    var a := Admit(entries, ip, now);
    assert ([now] + times)[1..] == times;
    WithinWindow(a.entries, ip, times);
  }

  /** Requests from one address leave every other address's entry as it was. */
  lemma {:induction false} OthersUntouched(entries: map<string, Entry>, ip: string, times: seq<int>, other: string)
    requires other != ip
    ensures var r := Burst(entries, ip, times);
      (other in r.entries <==> other in entries) && (other in entries ==> r.entries[other] == entries[other])
    decreases |times|
  {
    if times != [] {
      OthersUntouched(Admit(entries, ip, times[0]).entries, ip, times[1..], other);
    }
  }

  // ---------------------------------------------------------------------------
  // Client address
  // ---------------------------------------------------------------------------

  /**
   * `getClientIp`: the first comma-separated part of `x-forwarded-for`,
   * trimmed, unless that is absent or empty; else `cf-connecting-ip` unless
   * absent or empty; else `unknown`.
   */
  function ClientIp(forwardedFor: Option<string>, cfConnectingIp: Option<string>): (ip: string)
    ensures ip != []
    ensures ((forwardedFor.None? || Trim(Split(forwardedFor.value, ',')[0]) == []) && cfConnectingIp.Some?
              && cfConnectingIp.value != []) ==> ip == cfConnectingIp.value
    ensures ((forwardedFor.None? || Trim(Split(forwardedFor.value, ',')[0]) == [])
              && (cfConnectingIp.None? || cfConnectingIp.value == [])) ==> ip == "unknown"
  {
    var forwarded := if forwardedFor.Some? then Trim(Split(forwardedFor.value, ',')[0]) else [];
    if forwarded != [] then forwarded
    else if cfConnectingIp.Some? && cfConnectingIp.value != [] then cfConnectingIp.value
    else "unknown"
  }

  /** The proxy list is read up to its first comma, and that part is trimmed. */
  lemma ForwardedFirst(first: string, rest: string, cfConnectingIp: Option<string>)
    requires ',' !in first && Trim(first) != []
    ensures ClientIp(Some(first + "," + rest), cfConnectingIp) == Trim(first)
  {
    SplitAt(first, rest, ',');
  }

  /** A proxy list without commas is one address. */
  lemma ForwardedOnly(addr: string, cfConnectingIp: Option<string>)
    requires ',' !in addr && Trim(addr) != []
    ensures ClientIp(Some(addr), cfConnectingIp) == Trim(addr)
  {
    SplitNoSep(addr, ',');
  }

  // ---------------------------------------------------------------------------
  // URL gate
  // ---------------------------------------------------------------------------

  const MaxUrlLength: nat := 500
  const AllowedDomains: set<string> := {"ccsh.cz", "www.ccsh.cz"}

  /** What the gate answers: a 400 with its message, or the URL to use. */
  datatype Gate = Rejected(status: int, error: string) | Accepted(url: string)

  predicate EndsAuthority(c: char) { c == '/' || c == '?' || c == '#' || c == '\\' }
  predicate InAuthority(c: char) { !EndsAuthority(c) }
  predicate NotColon(c: char) { c != ':' }

  /** ASCII lower case, as host names are normalised. */
  function LowerAscii(s: string): (r: string)
    ensures |r| == |s|
    ensures forall k :: 0 <= k < |s| ==> r[k] == if 'A' <= s[k] <= 'Z' then (s[k] as int + 32) as char else s[k]
  {
    seq(|s|, k requires 0 <= k < |s| => if 'A' <= s[k] <= 'Z' then (s[k] as int + 32) as char else s[k])
  }

  /** The length of the `http://` or `https://` scheme at the start of `u`, else 0. */
  function SchemeLength(u: string): (n: nat)
    ensures n <= |u|
  {
    if StartsWith(u, "http://") then 7 else if StartsWith(u, "https://") then 8 else 0
  }

  /** The authority of an `http` or `https` URL: up to the first `/`, `?`, `#` or backslash. */
  function Authority(u: string): string {
    var rest := u[SchemeLength(u)..];
    rest[..SpanWhile(rest, 0, InAuthority)]
  }

  /**
   * The host name of an authority: credentials up to its last `@` and a
   * `:port` are dropped and ASCII letters are lowered. `None` when it does
   * not parse: an empty host, or a port that is not a decimal number up to
   * 65535.
   */
  function HostOf(authority: string): (h: Option<string>)
    ensures h.Some? ==> h.value != []
  {
    var at := LastIndexOfChar(authority, '@');
    var hostPort := authority[at + 1..];
    var colon := SpanWhile(hostPort, 0, NotColon);
    var host := hostPort[..colon];
    var port := if colon < |hostPort| then hostPort[colon + 1..] else [];
    if host == [] then None
    else if !AllDigits(port) then None
    else if DigitsValue(port) > 65535 then None
    else Some(LowerAscii(host))
  }

  /** The host name `new URL(u)` yields for an `http` or `https` URL, `None` where it throws. */
  function HostName(u: string): (h: Option<string>)
    ensures h.Some? ==> h.value != []
  {
    HostOf(Authority(u))
  }

  const UrlRequired := "URL is required"
  const UrlTooLong := "URL too long"
  const InvalidUrl := "Invalid URL"
  const DomainNotAllowed := "Domain not allowed"

  /** The gate as a value: missing, too long after trimming, unparseable, or on another host. */
  function UrlGate(url: Option<string>): (g: Gate)
    ensures g.Rejected? ==> g.status == 400
    ensures url.Some? && url.value != [] && |Trim(url.value)| > MaxUrlLength ==> g == Rejected(400, UrlTooLong)
    ensures g.Accepted? ==> (url.Some? && |Trim(url.value)| <= MaxUrlLength && SchemeLength(g.url) > 0
                              && HostName(g.url).Some? && HostName(g.url).value in AllowedDomains)
  {
    if url.None? || url.value == [] then Rejected(400, UrlRequired)
    else
      var trimmed := Trim(url.value);
      if |trimmed| > MaxUrlLength then Rejected(400, UrlTooLong)
      else
        var formatted := if SchemeLength(trimmed) > 0 then trimmed else "https://" + trimmed;
        var host := HostName(formatted);
        if host.None? then Rejected(400, InvalidUrl)
        else if host.value !in AllowedDomains then Rejected(400, DomainNotAllowed)
        else Accepted(formatted)
  }

  /** Lines 46-79 of the handler, reassigning `formattedUrl`. */
  method CheckUrl(url: Option<string>) returns (g: Gate)
    ensures g == UrlGate(url)
  {
    if url.None? || url.value == [] {
      return Rejected(400, UrlRequired);
    }
    var formattedUrl := Trim(url.value);
    if |formattedUrl| > MaxUrlLength {
      return Rejected(400, UrlTooLong);
    }
    if !StartsWith(formattedUrl, "http://") && !StartsWith(formattedUrl, "https://") {
      formattedUrl := "https://" + formattedUrl;
    }
    var host := HostName(formattedUrl);
    if host.None? {
      return Rejected(400, InvalidUrl);
    }
    if host.value !in AllowedDomains {
      return Rejected(400, DomainNotAllowed);
    }
    g := Accepted(formattedUrl);
  }

  /** A URL of only whitespace passes the missing-URL test and is then reported as invalid. */
  lemma BlankUrlInvalid(url: string)
    requires url != [] && AllSpace(url)
    ensures UrlGate(Some(url)) == Rejected(400, InvalidUrl)
  {
    BlankTrimsAway(url);
    var t := Trim(url);
    assert SchemeLength(t) == 0;
    assert "https://" + t == "https://";
    BareSchemeInvalid();
  }

  lemma {:induction false} BlankTrimsAway(s: string)
    requires AllSpace(s)
    ensures Trim(s) == []
  {
    BlankTrimsLeft(s);
  }

  lemma {:induction false} BlankTrimsLeft(s: string)
    requires AllSpace(s)
    ensures TrimLeft(s) == []
    decreases |s|
  {
    if s != [] {
      BlankTrimsLeft(s[1..]);
    }
  }

  /** `new URL("https://")` fails: the host is empty. */
  lemma BareSchemeInvalid()
    ensures HostName("https://") == None
  {
    var u := "https://";
    assert !StartsWith(u, "http://") by {
      assert u[..7][4] == 's';
    }
    assert StartsWith(u, "https://");
    var rest := u[8..];
    assert rest == [];
  }

  /** A plain host without credentials, port or upper-case letters is its own host name. */
  predicate PlainHost(h: string) {
    h != [] && forall k :: 0 <= k < |h| ==> InAuthority(h[k]) && h[k] != '@' && h[k] != ':' && !('A' <= h[k] <= 'Z')
  }

  lemma PlainHostName(h: string, path: string)
    requires PlainHost(h)
    requires path == [] || EndsAuthority(path[0])
    ensures HostName("https://" + h + path) == Some(h)
  {
    PlainAuthority(h, path);
    PlainHostOf(h);
  }

  lemma PlainAuthority(h: string, path: string)
    requires forall k :: 0 <= k < |h| ==> InAuthority(h[k])
    requires path == [] || EndsAuthority(path[0])
    ensures Authority("https://" + h + path) == h
  {
    var u := "https://" + h + path;
    assert !StartsWith(u, "http://") by {
      assert u[..7][4] == 's';
    }
    assert StartsWith(u, "https://") by {
      assert u[..8] == "https://";
    }
    var rest := u[8..];
    assert rest == h + path;
    SpanWhileStops(rest, 0, |h|, InAuthority);
    assert rest[..|h|] == h;
  }

  lemma PlainHostOf(h: string)
    requires PlainHost(h)
    ensures HostOf(h) == Some(h)
  {
    assert LastIndexOfChar(h, '@') == -1;
    assert h[0..] == h;
    SpanWhileStops(h, 0, |h|, NotColon);
    assert h[..|h|] == h;
    assert LowerAscii(h) == h;
  }

  /** A bare allowed host (with an optional path) is accepted with `https://` put in front. */
  lemma BareHostAccepted(h: string, path: string)
    requires h in AllowedDomains
    requires path == [] || EndsAuthority(path[0])
    requires IsTrimmed(h + path) && |h + path| <= MaxUrlLength
    ensures UrlGate(Some(h + path)) == Accepted("https://" + h + path)
  {
    var t := h + path;
    TrimOfTrimmed(t);
    AllowedHostsPlain(h);
    NoSchemeBefore(h, path);
    PlainHostName(h, path);
    Assoc("https://", h, path);
    GateOnBareHost(t, "https://" + h + path);
  }

  /** The gate on a URL without a scheme whose `https://` form has an allowed host. */
  lemma GateOnBareHost(url: string, formatted: string)
    requires url != [] && |Trim(url)| <= MaxUrlLength && SchemeLength(Trim(url)) == 0
    requires formatted == "https://" + Trim(url)
    requires HostName(formatted).Some? && HostName(formatted).value in AllowedDomains
    ensures UrlGate(Some(url)) == Accepted(formatted)
  {
  }

  lemma AllowedHostsPlain(h: string)
    requires h in AllowedDomains
    ensures PlainHost(h) && |h| > 4 && (h[4] == '.' || h[4] == 'c')
  {
  }

  lemma NoSchemeBefore(h: string, path: string)
    requires |h| > 4 && h[4] != ':' && h[4] != 's'
    ensures SchemeLength(h + path) == 0
  {
    var t := h + path;
    assert t[4] == h[4];
    if |t| >= 7 {
      assert t[..7][4] == t[4];
    }
    if |t| >= 8 {
      assert t[..8][4] == t[4];
    }
  }

  // ---------------------------------------------------------------------------
  // Cache and scrape
  // ---------------------------------------------------------------------------

  /** The latest cached row for the URL. */
  datatype CachedPage = CachedPage(markdownContent: string, scrapedAt: int)

  /** The row written back after a scrape with markdown. */
  datatype SavedRow = SavedRow(sundayTitle: string, url: string, markdownContent: string)

  /** The reply after the gate: a cached page, an error, or the scrape response and what was saved. */
  datatype Reply =
    | FromCache(markdown: string)
    | Error(status: int, error: string)
    | Scraped(saved: Option<SavedRow>)

  /** Whether a cached row exists and is less than six hours old at `now`. */
  predicate IsFresh(cached: Option<CachedPage>, now: int) {
    cached.Some? && now - cached.value.scrapedAt < WarmCache.SixHours
  }

  /**
   * The title saved with a scrape: the title rule of the cache warmer when
   * `neděle` occurs in any case (the numbered pattern can only match then
   * too), else the URL itself.
   */
  function SavedTitle(markdown: string, url: string): string {
    if FirstSome(WarmCache.WordStarts(markdown, WarmCache.SundayWord), 0).Some? then WarmCache.SundayTitle(markdown)
    else url
  }

  const NotConfigured := "Firecrawl connector not configured"
  const LoadFailed := "Nepodařilo se načíst data"

  /**
   * Lines 86-179: a fresh row is returned; without a key or after a failed
   * scrape a stale row is returned, else an error; a successful scrape is
   * returned and, when it has markdown, saved with its title.
   */
  function Respond(url: string, cached: Option<CachedPage>, now: int, hasApiKey: bool, scrape: WarmCache.Scrape): (r: Reply)
    ensures r.Scraped? ==> hasApiKey && scrape.ScrapeOk? && !IsFresh(cached, now)
    ensures r.Scraped? && r.saved.Some? ==>
              r.saved.value.url == url && r.saved.value.markdownContent != []
              && r.saved.value.markdownContent == WarmCache.ScrapedMarkdown(scrape.dataMarkdown, scrape.markdown)
    ensures r.FromCache? ==> cached.Some? && r.markdown == cached.value.markdownContent
  {
    if IsFresh(cached, now) then FromCache(cached.value.markdownContent)
    else if !hasApiKey then
      if cached.Some? then FromCache(cached.value.markdownContent) else Error(500, NotConfigured)
    else if scrape.ScrapeFailed? then
      if cached.Some? then FromCache(cached.value.markdownContent) else Error(502, LoadFailed)
    else
      var markdown := WarmCache.ScrapedMarkdown(scrape.dataMarkdown, scrape.markdown);
      if markdown == [] then Scraped(None)
      else Scraped(Some(SavedRow(SavedTitle(markdown, url), url, markdown)))
  }

  /** With a key and a successful scrape, the cache answers exactly when its row is fresh. */
  lemma CacheHitIffFresh(url: string, cached: Option<CachedPage>, now: int, scrape: WarmCache.Scrape)
    requires scrape.ScrapeOk?
    ensures Respond(url, cached, now, true, scrape).FromCache? <==> IsFresh(cached, now)
  {
  }

  /** Without a key, or after a failed scrape, a stale row is returned. */
  lemma StaleFallback(url: string, cached: Option<CachedPage>, now: int, hasApiKey: bool, scrape: WarmCache.Scrape)
    requires cached.Some? && (!hasApiKey || scrape.ScrapeFailed?)
    ensures Respond(url, cached, now, hasApiKey, scrape) == FromCache(cached.value.markdownContent)
  {
  }

  /** Without any row, a missing key is a 500 and a failed scrape a 502. */
  lemma NoRowErrors(url: string, now: int, hasApiKey: bool, scrape: WarmCache.Scrape)
    ensures !hasApiKey ==> Respond(url, None, now, hasApiKey, scrape) == Error(500, NotConfigured)
    ensures hasApiKey && scrape.ScrapeFailed? ==> Respond(url, None, now, hasApiKey, scrape) == Error(502, LoadFailed)
  {
  }

  /** A page without `neděle`, in any case, is saved under its URL. */
  lemma TitleFallsBackToUrl(markdown: string, url: string)
    requires forall k :: 0 <= k <= |markdown| ==> WordAt(markdown, k, WarmCache.SundayWord).None?
    ensures SavedTitle(markdown, url) == url
  {
    var ws := WarmCache.WordStarts(markdown, WarmCache.SundayWord);
    forall j | 0 <= j < |ws|
      ensures ws[j].None?
    {
      WarmCache.WordStartsAt(markdown, WarmCache.SundayWord, j);
    }
  }

  /** A page with `neděle` is saved under the title the cache warmer would extract. */
  lemma TitleFromPage(markdown: string, url: string, k: nat)
    requires k <= |markdown| && WordAt(markdown, k, WarmCache.SundayWord).Some?
    ensures SavedTitle(markdown, url) == WarmCache.SundayTitle(markdown)
  {
    WarmCache.WordStartsAt(markdown, WarmCache.SundayWord, k);
  }

  // ---------------------------------------------------------------------------
  // The handler
  // ---------------------------------------------------------------------------

  /** The handler's answer: rate-limited, refused by the gate, or a reply. */
  datatype Response = TooManyRequests | Refused(status: int, error: string) | Answered(reply: Reply)

  /**
   * One request: the client address is counted first, then the URL is
   * gated, then the cache or the scrape answers. `cached` is the latest row
   * for the formatted URL.
   */
  method Serve(limiter: RateLimiter, forwardedFor: Option<string>, cfConnectingIp: Option<string>,
               url: Option<string>, now: int, cached: Option<CachedPage>, hasApiKey: bool, scrape: WarmCache.Scrape)
    returns (response: Response)
    modifies limiter
    ensures var a := Admit(old(limiter.entries), ClientIp(forwardedFor, cfConnectingIp), now);
      limiter.entries == a.entries
      && (!a.allowed ==> response == TooManyRequests)
      && (a.allowed && UrlGate(url).Rejected? ==> response == Refused(UrlGate(url).status, UrlGate(url).error))
      && (a.allowed && UrlGate(url).Accepted? ==> response == Answered(Respond(UrlGate(url).url, cached, now, hasApiKey, scrape)))
  {
    var clientIp := ClientIp(forwardedFor, cfConnectingIp);
    var allowed := limiter.CheckRateLimit(clientIp, now);
    if !allowed {
      return TooManyRequests;
    }
    var gate := CheckUrl(url);
    if gate.Rejected? {
      return Refused(gate.status, gate.error);
    }
    response := Answered(Respond(gate.url, cached, now, hasApiKey, scrape));
  }
}
