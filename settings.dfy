/**
 * The deployment settings derived from the environment: the host names the
 * site answers to (`ALLOWED_HOSTS`), the origins trusted for form posts
 * (`CSRF_TRUSTED_ORIGINS`) and the outgoing-mail backend. Reading the
 * environment is outside the model: each configuration value arrives as an
 * input, absent or present.
 */
module Settings {
  import opened Wrappers
  import opened Text

  const RailwayDomain: string := "site-setup-production.up.railway.app"
  const RailwayWildcard: string := "*.up.railway.app"
  const RailwayOrigin: string := "https://site-setup-production.up.railway.app"

  /** The configuration values the derivation reads; `debug` is already cast to a boolean. */
  datatype Env = Env(
    debug: bool,
    allowedHosts: Option<string>,
    customDomain: Option<string>,
    railwayStaticUrl: Option<string>,
    emailHostUser: Option<string>)

  datatype EmailBackend = Console | Smtp

  /** A configuration value counts as given when it is present and not empty (Python truthiness). */
  predicate IsSet(v: Option<string>) {
    v.Some? && v.value != ""
  }

  /** A host entry as the comma-separated list yields it: non-empty, comma-free, no white space at the ends. */
  predicate CleanEntry(e: string) {
    e != [] && !IsSpace(e[0]) && !IsSpace(e[|e| - 1]) && ',' !in e
  }

  /** The entries of the comprehension: each piece stripped, the empty ones dropped. */
  function StripNonEmpty(pieces: seq<string>): seq<string> {
    if pieces == [] then []
    else
      var e := Strip(pieces[0]);
      (if e != "" then [e] else []) + StripNonEmpty(pieces[1..])
  }

  /** Comma-free pieces give clean entries, no more of them than there were pieces. */
  lemma {:induction false} StripNonEmptyClean(pieces: seq<string>)
    requires forall p :: p in pieces ==> ',' !in p
    ensures forall e :: e in StripNonEmpty(pieces) ==> CleanEntry(e)
    ensures |StripNonEmpty(pieces)| <= |pieces|
  {
    if pieces != [] {
      assert pieces[0] in pieces;
      StripClean(pieces[0]);
      StripNonEmptyClean(pieces[1..]);
    }
  }

  /** A stripped comma-free piece is a clean entry unless it is empty. */
  lemma StripClean(p: string)
    requires ',' !in p
    ensures Strip(p) != "" ==> CleanEntry(Strip(p))
  {
    StripChars(p);
  }

  /** A piece of a split on commas holds no comma. */
  lemma CommaFreePieces(v: string)
    ensures forall p :: p in Split(v, ",") ==> ',' !in p
  {
    SplitPiecesLackSep(v, ",");
    forall p | p in Split(v, ",") ensures ',' !in p {
      var k :| 0 <= k < |Split(v, ",")| && Split(v, ",")[k] == p;
      if ',' in p {
        var i :| 0 <= i < |p| && p[i] == ',';
        assert "," <= p[i..];
      }
    }
  }

  /** The `ALLOWED_HOSTS` cast: split on commas, strip each entry, drop the empty ones. */
  function ParseHostList(v: string): seq<string> {
    StripNonEmpty(Split(v, ","))
  }

  /** Every host the list yields is a clean entry. */
  lemma ParseHostListClean(v: string)
    ensures forall e :: e in ParseHostList(v) ==> CleanEntry(e)
  {
    CommaFreePieces(v);
    StripNonEmptyClean(Split(v, ","));
  }

  /**
   * The host of the Railway URL: the second piece of the split on `//` (the
   * text after the first `//` and before any second one) when the URL has
   * more than one piece, which is when it contains `//`; the whole value otherwise.
   */
  function RailwayHostname(url: string): string {
    var pieces := Split(url, "//");
    if |pieces| >= 2 then pieces[1] else url
  }

  /** The split has a second piece exactly when the URL contains `//`, so the branch above is the source's `'//' in url` test. */
  lemma SecondPieceIffSep(url: string)
    ensures |Split(url, "//")| >= 2 <==> Contains(url, "//")
  {
    if Contains(url, "//") {
      SplitOnPresentSep(url, "//");
    } else {
      SplitAbsent(url, "//");
    }
  }

  /** The host name is a slice of the URL: the whole value, or text found right after a `//`. */
  lemma RailwayHostnameWithin(url: string)
    ensures !Contains(url, "//") ==> RailwayHostname(url) == url
    ensures Contains(url, "//") ==> exists a, b :: url == a + "//" + RailwayHostname(url) + b
  {
    SecondPieceIffSep(url);
    if Contains(url, "//") {
      JoinSplit(url, "//");
      var pieces := Split(url, "//");
      assert Join(pieces, "//") == pieces[0] + "//" + Join(pieces[1..], "//");
      JoinHead(pieces[1..], "//");
      var b :| Join(pieces[1..], "//") == pieces[1] + b;
      assert url == pieces[0] + "//" + RailwayHostname(url) + b;
    }
  }

  /** A join starts with its first piece. */
  lemma JoinHead(pieces: seq<string>, sep: string)
    requires |pieces| >= 1
    ensures exists b :: Join(pieces, sep) == pieces[0] + b
  {
    if |pieces| > 1 {
      assert Join(pieces, sep) == pieces[0] + (sep + Join(pieces[1..], sep));
    } else {
      assert Join(pieces, sep) == pieces[0] + "";
    }
  }

  /** The Railway host name to add, when the settings add one: only outside debug, and only for a given URL. */
  function RailwayHost(env: Env): Option<string> {
    if !env.debug && IsSet(env.railwayStaticUrl) then Some(RailwayHostname(env.railwayStaticUrl.value)) else None
  }

  /** The hosts before the Railway host: the configured list, the two Railway domains, then the custom domain and its `www.` form. */
  function BaseHosts(env: Env): seq<string> {
    ParseHostList(env.allowedHosts.GetOr(""))
    + [RailwayDomain, RailwayWildcard]
    + if IsSet(env.customDomain) then [env.customDomain.value, "www." + env.customDomain.value] else []
  }

  /** The list after the settings module's extends and append, starting from the `listed` hosts of the cast. */
  function ExtendHosts(listed: seq<string>, env: Env): seq<string> {
    var base := listed + [RailwayDomain, RailwayWildcard]
      + if IsSet(env.customDomain) then [env.customDomain.value, "www." + env.customDomain.value] else [];
    var h := RailwayHost(env);
    if h.Some? && h.value !in base then base + [h.value] else base
  }

  /** `ALLOWED_HOSTS`: the base hosts, then the Railway host unless it is already among them. */
  function AllowedHosts(env: Env): seq<string> {
    ExtendHosts(ParseHostList(env.allowedHosts.GetOr("")), env)
  }

  /** `CSRF_TRUSTED_ORIGINS`: the Railway origin, then the custom domain's two origins. */
  function CsrfOrigins(env: Env): seq<string> {
    [RailwayOrigin]
    + if IsSet(env.customDomain) then ["https://" + env.customDomain.value, "https://www." + env.customDomain.value] else []
  }

  /** `EMAIL_BACKEND`: the console in debug or without a mail user, SMTP otherwise. */
  function EmailBackendFor(env: Env): (r: EmailBackend)
    ensures r == Console <==> env.debug || env.emailHostUser.GetOr("") == ""
  {
    if env.debug || env.emailHostUser.GetOr("") == "" then Console else Smtp
  }

  /**
   * `ALLOWED_HOSTS` as the settings module builds it, extending the list step
   * by step from `listed`, the value of the cast (`ParseHostList` of the
   * configured text, so `AllowedHosts` is what it returns for that value).
   */
  method ConfigureHosts(listed: seq<string>, env: Env) returns (hosts: seq<string>)
    ensures hosts == ExtendHosts(listed, env)
  {
    hosts := listed;
    hosts := hosts + [RailwayDomain, RailwayWildcard];
    if IsSet(env.customDomain) {
      var d := env.customDomain.value;
      hosts := hosts + [d, "www." + d];
    }
    if !env.debug {
      var url := env.railwayStaticUrl;
      if IsSet(url) {
        var hostname := RailwayHostname(url.value);
        assert RailwayHost(env) == Some(hostname);
        if hostname !in hosts {
          hosts := hosts + [hostname];
        }
      }
    }
  }

  /** `CSRF_TRUSTED_ORIGINS` as the settings module builds it. */
  method ConfigureOrigins(env: Env) returns (origins: seq<string>)
    ensures origins == CsrfOrigins(env)
  {
    origins := [RailwayOrigin];
    if IsSet(env.customDomain) {
      var d := env.customDomain.value;
      origins := origins + ["https://" + d, "https://www." + d];
    }
  }

  // ----- Properties -----

  /** Stripping entries that are already clean keeps them all. */
  lemma {:induction false} StripNonEmptyKeepsClean(l: seq<string>)
    requires forall e :: e in l ==> CleanEntry(e)
    ensures StripNonEmpty(l) == l
  {
    if l != [] {
      assert l[0] in l;
      StripKeepsStripped(l[0]);
      StripNonEmptyKeepsClean(l[1..]);
      assert l == [l[0]] + l[1..];
    }
  }

  /** Splitting a comma-joined list of comma-free pieces gives the pieces back. */
  lemma {:induction false} SplitJoinCommas(l: seq<string>)
    requires |l| >= 1 && forall e :: e in l ==> ',' !in e
    ensures Split(Join(l, ","), ",") == l
  {
    if |l| == 1 {
      CommaFreeAbsent(l[0]);
      SplitAbsent(l[0], ",");
    } else {
      var rest := Join(l[1..], ",");
      assert l[0] in l;
      forall i | 0 <= i < |l[0]| ensures !("," <= (l[0] + "," + rest)[i..]) {
        assert (l[0] + "," + rest)[i..][0] == l[0][i];
      }
      SplitAfterFirst(l[0], ",", rest);
      SplitJoinCommas(l[1..]);
      assert l == [l[0]] + l[1..];
    }
  }

  lemma CommaFreeAbsent(s: string)
    requires ',' !in s
    ensures !Contains(s, ",")
  {
    forall i | 0 <= i <= |s| ensures !("," <= s[i..]) {
      if i < |s| {
        assert s[i..][0] == s[i];
      }
    }
  }

  /** A comma-joined list of clean host names parses back to the same list. */
  lemma ParseHostListJoin(l: seq<string>)
    requires |l| >= 1 && forall e :: e in l ==> CleanEntry(e)
    ensures ParseHostList(Join(l, ",")) == l
  {
    StripNonEmptyKeepsClean(l);
    SplitJoinCommas(l);
  }

  /** An unset or blank host list gives no hosts. */
  lemma ParseHostListBlank(v: string)
    requires AllSpace(v) && ',' !in v
    ensures ParseHostList(v) == []
  {
    CommaFreeAbsent(v);
    SplitAbsent(v, ",");
    assert StripNonEmpty([v]) == [] + StripNonEmpty([]);
  }

  /** A URL with a scheme yields the host after `//`; a bare host name is kept as it is. */
  lemma RailwayHostnameOfUrl(scheme: string, host: string)
    requires '/' !in scheme && !Contains(host, "//")
    ensures RailwayHostname(scheme + "//" + host) == host
    ensures RailwayHostname(host) == host
  {
    var url := scheme + "//" + host;
    forall i | 0 <= i < |scheme| ensures !("//" <= url[i..]) {
      assert url[i..][0] == scheme[i];
    }
    SplitAfterFirst(scheme, "//", host);
    SplitAbsent(host, "//");
  }

  /** The configured hosts come first, in their order. */
  lemma ConfiguredHostsFirst(env: Env)
    ensures ParseHostList(env.allowedHosts.GetOr("")) <= AllowedHosts(env)
  {
    assert BaseHosts(env) <= AllowedHosts(env);
  }

  /** The two Railway domains are always allowed. */
  lemma RailwayDomainsPresent(env: Env)
    ensures RailwayDomain in AllowedHosts(env) && RailwayWildcard in AllowedHosts(env)
  {
  }

  /** A custom domain is allowed both bare and with `www.`. */
  lemma CustomDomainPresent(env: Env)
    requires IsSet(env.customDomain)
    ensures env.customDomain.value in AllowedHosts(env) && "www." + env.customDomain.value in AllowedHosts(env)
  {
  }

  /** The Railway host is in the list exactly when debug is off and the URL is given, it is added only when missing, and so never twice. */
  lemma RailwayHostOnce(env: Env)
    ensures RailwayHost(env).None? ==> AllowedHosts(env) == BaseHosts(env)
    ensures RailwayHost(env).Some? ==> RailwayHost(env).value in AllowedHosts(env)
    ensures RailwayHost(env).Some? && RailwayHost(env).value in BaseHosts(env) ==> AllowedHosts(env) == BaseHosts(env)
    ensures RailwayHost(env).Some? ==>
      multiset(AllowedHosts(env))[RailwayHost(env).value] == if RailwayHost(env).value in BaseHosts(env)
        then multiset(BaseHosts(env))[RailwayHost(env).value] else 1
    ensures RailwayHost(env).Some? <==> !env.debug && IsSet(env.railwayStaticUrl)
  {
    var base := BaseHosts(env);
    var h := RailwayHost(env);
    if h.Some? && h.value !in base {
      assert AllowedHosts(env) == base + [h.value];
      assert multiset(base)[h.value] == 0;
    } else {
      assert AllowedHosts(env) == base;
    }
  }

  /** The trusted origins: always the Railway origin first, and the custom domain's two HTTPS origins exactly when one is set. */
  lemma OriginsShape(env: Env)
    ensures CsrfOrigins(env)[0] == RailwayOrigin
    ensures IsSet(env.customDomain) ==>
      CsrfOrigins(env) == [RailwayOrigin, "https://" + env.customDomain.value, "https://www." + env.customDomain.value]
    ensures !IsSet(env.customDomain) ==> CsrfOrigins(env) == [RailwayOrigin]
  {
  }
}
