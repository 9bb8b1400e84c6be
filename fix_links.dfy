/**
 * The `fix_wordpress_links` management command: every absolute link into the
 * old WordPress upload folder, on either of the two old hosts, is rewritten to
 * the site's own `/static/uploads/` folder, and a post or page is saved only
 * when its content changed, and never in a dry run.
 *
 * The two regular expressions of the command are matched here by hand: an
 * upload URL is `http` or `https`, `://`, the host, `/wp-content/uploads/`,
 * four digits, `/`, two digits, `/`, then the longest run of at least one
 * character that is not `?`, whitespace or a quote; the captured path is
 * everything from the year on.
 */
module FixWordpressLinks {
  import opened Wrappers
  import opened Text
  import opened Ordering
  import opened Models
  import opened Database
  import opened Store

  // ----- Matching an upload URL -----

  const GregDyche: string := "gregdyche.com"
  const WordpressCom: string := "gregdychecom.wordpress.com"

  /** The hosts of the two patterns, in the order they are applied. */
  const Hosts: seq<string> := [GregDyche, WordpressCom]

  /** What a captured path is prefixed with once rewritten. */
  const StaticUploads: string := "/static/uploads/"

  /** Everything an upload URL on `host` has before its captured path. */
  function UploadPrefix(host: string, secure: bool): string {
    "http" + (if secure then "s" else "") + "://" + host + "/wp-content/uploads/"
  }

  predicate IsDigit(c: char) {
    '0' <= c <= '9'
  }

  /** The characters the path's final run stops before: `?`, whitespace and both quotes. */
  predicate StopChar(c: char) {
    c == '?' || c == '"' || c == '\'' || IsSpace(c)
  }

  /** The end of the longest run of non-stop characters from `k`. */
  function RunEnd(s: string, k: nat): (e: nat)
    requires k <= |s|
    ensures k <= e <= |s|
    ensures forall j :: k <= j < e ==> !StopChar(s[j])
    ensures e == |s| || StopChar(s[e])
    decreases |s| - k
  {
    if k == |s| || StopChar(s[k]) then k else RunEnd(s, k + 1)
  }

  /**
   * Where the captured path would start if an upload URL on `host` starts at
   * `i`. `https?` tries the `s` first; when it is there, the form without it
   * cannot match, since `:` would have to stand where the `s` is.
   */
  function PrefixEnd(s: string, i: nat, host: string): (r: Option<nat>)
    requires i <= |s|
    ensures r.Some? ==> r.value <= |s| && "http" <= s[i..]
    ensures r.Some? ==> r.value - i >= |UploadPrefix(host, false)|
  {
    if UploadPrefix(host, true) <= s[i..] then Some(i + |UploadPrefix(host, true)|)
    else if UploadPrefix(host, false) <= s[i..] then Some(i + |UploadPrefix(host, false)|)
    else None
  }

  /** `[0-9]{4}/[0-9]{2}/` at `j`. */
  predicate DatePathAt(s: string, j: nat) {
    j + 8 <= |s|
    && IsDigit(s[j]) && IsDigit(s[j + 1]) && IsDigit(s[j + 2]) && IsDigit(s[j + 3]) && s[j + 4] == '/'
    && IsDigit(s[j + 5]) && IsDigit(s[j + 6]) && s[j + 7] == '/'
  }

  /** One match: the URL is `s[start..end]`, its captured path `s[pathStart..end]`. */
  datatype UrlMatch = UrlMatch(start: nat, pathStart: nat, end: nat)

  predicate WellFormed(s: string, m: UrlMatch) {
    m.start < m.pathStart < m.end <= |s| && m.pathStart - m.start > |StaticUploads|
  }

  /** The match of `host`'s pattern that starts at `i`, if there is one. */
  function MatchAt(s: string, i: nat, host: string): (r: Option<UrlMatch>)
    requires i <= |s|
    ensures r.Some? ==> r.value.start == i && WellFormed(s, r.value) && "http" <= s[i..]
    ensures r.Some? ==> DatePathAt(s, r.value.pathStart) && r.value.end == RunEnd(s, r.value.pathStart + 8)
  {
    match PrefixEnd(s, i, host)
    case None => None
    case Some(j) =>
      if DatePathAt(s, j) && RunEnd(s, j + 8) > j + 8 then Some(UrlMatch(i, j, RunEnd(s, j + 8))) else None
  }

  /** `m` is one of `ms` and covers position `i`. */
  predicate Covers(ms: seq<UrlMatch>, i: nat) {
    exists k :: 0 <= k < |ms| && ms[k].start <= i < ms[k].end
  }

  /**
   * `re.finditer(pattern, s)` from `pos`: the leftmost match, then the search
   * resumes where that match ended. Every match found is a real match, they
   * come in order without overlapping, and any place a match could start is
   * inside one that was found.
   */
  function FindAll(s: string, host: string, pos: nat): (r: seq<UrlMatch>)
    requires pos <= |s|
    ensures forall k :: 0 <= k < |r| ==> pos <= r[k].start < |s| && MatchAt(s, r[k].start, host) == Some(r[k])
    ensures forall k, l :: 0 <= k < l < |r| ==> r[k].end <= r[l].start
    ensures forall i :: pos <= i < |s| && MatchAt(s, i, host).Some? ==> Covers(r, i)
    decreases |s| - pos
  {
    if pos == |s| then []
    else
      match MatchAt(s, pos, host)
      case Some(m) =>
        var rest := FindAll(s, host, m.end);
        FoundCons(s, host, pos, m, rest);
        [m] + rest
      case None =>
        FindAll(s, host, pos + 1)
  }

  /** The promises of `FindAll` about `r` when the search starts at `pos`. */
  predicate Found(s: string, host: string, pos: nat, r: seq<UrlMatch>) {
    (forall k :: 0 <= k < |r| ==> pos <= r[k].start < |s| && MatchAt(s, r[k].start, host) == Some(r[k]))
    && (forall k, l :: 0 <= k < l < |r| ==> r[k].end <= r[l].start)
    && (forall i :: pos <= i < |s| && MatchAt(s, i, host).Some? ==> Covers(r, i))
  }

  /** A match at `pos` followed by what the search finds from its end is what the search finds from `pos`. */
  lemma FoundCons(s: string, host: string, pos: nat, m: UrlMatch, rest: seq<UrlMatch>)
    requires pos < |s| && MatchAt(s, pos, host) == Some(m)
    requires forall k :: 0 <= k < |rest| ==> m.end <= rest[k].start < |s| && MatchAt(s, rest[k].start, host) == Some(rest[k])
    requires forall k, l :: 0 <= k < l < |rest| ==> rest[k].end <= rest[l].start
    requires forall i :: m.end <= i < |s| && MatchAt(s, i, host).Some? ==> Covers(rest, i)
    ensures Found(s, host, pos, [m] + rest)
  {
    ConsMatches(s, host, pos, m, rest);
    ConsOrdered(m, rest);
    ConsCovers(s, host, pos, m, rest);
  }

  lemma ConsMatches(s: string, host: string, pos: nat, m: UrlMatch, rest: seq<UrlMatch>)
    requires pos < |s| && MatchAt(s, pos, host) == Some(m)
    requires forall k :: 0 <= k < |rest| ==> m.end <= rest[k].start < |s| && MatchAt(s, rest[k].start, host) == Some(rest[k])
    ensures forall k :: 0 <= k < |[m] + rest| ==>
              pos <= ([m] + rest)[k].start < |s| && MatchAt(s, ([m] + rest)[k].start, host) == Some(([m] + rest)[k])
  {
    var r := [m] + rest;
    forall k | 0 <= k < |r| ensures pos <= r[k].start < |s| && MatchAt(s, r[k].start, host) == Some(r[k]) {
      if k > 0 {
        assert r[k] == rest[k - 1];
      }
    }
  }

  lemma ConsOrdered(m: UrlMatch, rest: seq<UrlMatch>)
    requires forall k :: 0 <= k < |rest| ==> m.end <= rest[k].start
    requires forall k, l :: 0 <= k < l < |rest| ==> rest[k].end <= rest[l].start
    ensures forall k, l :: 0 <= k < l < |[m] + rest| ==> ([m] + rest)[k].end <= ([m] + rest)[l].start
  {
    var r := [m] + rest;
    forall k, l | 0 <= k < l < |r| ensures r[k].end <= r[l].start {
      assert r[l] == rest[l - 1];
      if k > 0 {
        assert r[k] == rest[k - 1];
      }
    }
  }

  lemma ConsCovers(s: string, host: string, pos: nat, m: UrlMatch, rest: seq<UrlMatch>)
    requires pos == m.start < m.end
    requires forall i :: m.end <= i < |s| && MatchAt(s, i, host).Some? ==> Covers(rest, i)
    ensures forall i :: pos <= i < |s| && MatchAt(s, i, host).Some? ==> Covers([m] + rest, i)
  {
    var r := [m] + rest;
    forall i | pos <= i < |s| && MatchAt(s, i, host).Some? ensures Covers(r, i) {
      if i < m.end {
        assert r[0].start <= i < r[0].end;
      } else {
        var k :| 0 <= k < |rest| && rest[k].start <= i < rest[k].end;
        assert r[k + 1] == rest[k];
      }
    }
  }

  /** Every match of `host`'s pattern in `s`, in order. */
  lemma FindAllMatches(s: string, host: string)
    ensures forall m :: m in FindAll(s, host, 0) ==> m.start < |s| && MatchAt(s, m.start, host) == Some(m)
  {
    var r := FindAll(s, host, 0);
    forall m | m in r ensures m.start < |s| && MatchAt(s, m.start, host) == Some(m) {
      var k :| 0 <= k < |r| && r[k] == m;
    }
  }

  // ----- Rewriting the content -----

  predicate AllWellFormed(s: string, ms: seq<UrlMatch>) {
    forall m :: m in ms ==> WellFormed(s, m)
  }

  /** The text of a match: the whole URL. */
  function Url(s: string, m: UrlMatch): string
    requires WellFormed(s, m)
  {
    s[m.start..m.end]
  }

  /** What a match's URL becomes: the captured path under `/static/uploads/`. */
  function NewUrl(s: string, m: UrlMatch): (r: string)
    requires WellFormed(s, m)
    ensures StaticUploads <= r && |r| < |Url(s, m)|
  {
    StaticUploads + s[m.pathStart..m.end]
  }

  /**
   * The loop body of `fix_content_links` run over `ms`: the matches were found
   * in `content`, each of their URLs is replaced everywhere in the text `u`
   * being rewritten.
   */
  function ApplyMatches(u: string, content: string, ms: seq<UrlMatch>): (r: string)
    requires forall m :: m in ms ==> WellFormed(content, m)
    decreases |ms|
  {
    if ms == [] then u
    else
      var m := ms[|ms| - 1];
      ReplaceAll(ApplyMatches(u, content, ms[..|ms| - 1]), Url(content, m), NewUrl(content, m))
  }

  /** The matches of every pattern in `hosts`, one pattern after the other. */
  function MatchesFor(content: string, hosts: seq<string>): (r: seq<UrlMatch>)
    ensures forall m :: m in r ==> WellFormed(content, m)
    decreases |hosts|
  {
    if hosts == [] then []
    else
      var h := hosts[|hosts| - 1];
      FindAllMatches(content, h);
      MatchesFor(content, hosts[..|hosts| - 1]) + FindAll(content, h, 0)
  }

  /** There is an upload URL for `host` somewhere in `content`. */
  predicate HasLinkAt(content: string, host: string) {
    exists i :: 0 <= i < |content| && MatchAt(content, i, host).Some?
  }

  /** There is an upload URL for one of `hosts` somewhere in `content`. */
  predicate HasLinkFor(content: string, hosts: seq<string>) {
    exists h :: h in hosts && HasLinkAt(content, h)
  }

  /** Some match is found exactly when some URL matches. */
  lemma {:induction false} MatchesForEmpty(content: string, hosts: seq<string>)
    ensures MatchesFor(content, hosts) == [] <==> !HasLinkFor(content, hosts)
    decreases |hosts|
  {
    if hosts != [] {
      var front := hosts[..|hosts| - 1];
      var h := hosts[|hosts| - 1];
      MatchesForEmpty(content, front);
      LastSplit(hosts);
      FoundIffLink(content, h);
    }
  }

  /** The search for one host's pattern finds something exactly when a URL matches it somewhere. */
  lemma FoundIffLink(content: string, h: string)
    ensures FindAll(content, h, 0) != [] <==> HasLinkAt(content, h)
  {
    if FindAll(content, h, 0) != [] {
      FoundIsLink(content, h);
    }
    if HasLinkAt(content, h) {
      var i :| 0 <= i < |content| && MatchAt(content, i, h).Some?;
      LinkIsFound(content, h, i);
    }
  }

  lemma LinkIsFound(content: string, h: string, i: nat)
    requires i < |content| && MatchAt(content, i, h).Some?
    ensures FindAll(content, h, 0) != []
  {
    assert Covers(FindAll(content, h, 0), i);
  }

  lemma FoundIsLink(content: string, h: string)
    requires FindAll(content, h, 0) != []
    ensures HasLinkAt(content, h)
  {
    var found := FindAll(content, h, 0);
    assert found[0] in found;
    FindAllMatches(content, h);
    assert MatchAt(content, found[0].start, h).Some?;
  }

  /** `fix_content_links(content, patterns)` with the patterns of `hosts`. */
  function FixedContentFor(content: string, hosts: seq<string>): string {
    ApplyMatches(content, content, MatchesFor(content, hosts))
  }

  /** What the command makes of a content, with its two patterns. */
  function FixedContent(content: string): string {
    FixedContentFor(content, Hosts)
  }

  /** There is an upload URL on one of the two old hosts somewhere in `content`. */
  predicate HasUploadLink(content: string) {
    HasLinkFor(content, Hosts)
  }

  /**
   * `fix_content_links`: for each pattern, the matches are searched for in the
   * original content and each URL found is replaced throughout the text being
   * rewritten.
   */
  method FixContentLinks(content: string) returns (updated: string)
    ensures updated == FixedContent(content)
  {
    updated := content;
    ghost var done: seq<UrlMatch> := [];
    for p := 0 to |Hosts|
      invariant done == MatchesFor(content, Hosts[..p])
      invariant updated == ApplyMatches(content, content, done)
    {
      var matches := FindAll(content, Hosts[p], 0);
      FoundWellFormed(content, Hosts[p]);
      updated := ReplaceFound(content, updated, done, matches);
      LastSplit(Hosts[..p + 1]);
      assert Hosts[..p + 1][..p] == Hosts[..p];
      done := done + matches;
    }
    assert Hosts[..|Hosts|] == Hosts;
  }

  /** The inner loop of `fix_content_links`: the matches of one pattern replaced in turn. */
  method ReplaceFound(content: string, text: string, ghost done: seq<UrlMatch>, matches: seq<UrlMatch>)
    returns (updated: string)
    requires AllWellFormed(content, done) && AllWellFormed(content, matches)
    requires text == ApplyMatches(content, content, done)
    ensures updated == ApplyMatches(content, content, done + matches)
  {
    updated := text;
    assert done + matches[..0] == done;
    for j := 0 to |matches|
      invariant AllWellFormed(content, done + matches[..j])
      invariant updated == ApplyMatches(content, content, done + matches[..j])
    {
      var m := matches[j];
      assert m in matches;
      updated := ReplaceAll(updated, content[m.start..m.end], StaticUploads + content[m.pathStart..m.end]);
      ApplyOneMore(content, done, matches, j);
    }
    assert matches[..|matches|] == matches;
  }

  lemma LastSplit<T>(s: seq<T>)
    requires s != []
    ensures s == s[..|s| - 1] + [s[|s| - 1]]
    ensures forall x :: x in s <==> x in s[..|s| - 1] || x == s[|s| - 1]
  {
  }

  lemma FoundWellFormed(content: string, host: string)
    ensures forall m :: m in FindAll(content, host, 0) ==> WellFormed(content, m)
  {
    FindAllMatches(content, host);
  }

  /** One more match of a list applied is one more replacement. */
  lemma ApplyOneMore(content: string, done: seq<UrlMatch>, ms: seq<UrlMatch>, j: nat)
    requires j < |ms|
    requires forall m :: m in done ==> WellFormed(content, m)
    requires forall m :: m in ms ==> WellFormed(content, m)
    ensures WellFormed(content, ms[j]) && AllWellFormed(content, done + ms[..j + 1])
    ensures ApplyMatches(content, content, done + ms[..j + 1])
         == ReplaceAll(ApplyMatches(content, content, done + ms[..j]), Url(content, ms[j]), NewUrl(content, ms[j]))
  {
    assert ms[j] in ms;
    forall m | m in done + ms[..j + 1] ensures WellFormed(content, m) {
      assert m in done || m in ms;
    }
    assert (done + ms[..j + 1])[..|done| + j] == done + ms[..j];
  }

  /** Rewriting never lengthens the text, and shortens it once the first match's URL is in it. */
  lemma {:induction false} ApplyMatchesShrinks(u: string, content: string, ms: seq<UrlMatch>)
    requires forall m :: m in ms ==> WellFormed(content, m)
    ensures |ApplyMatches(u, content, ms)| <= |u|
    ensures ms != [] && Contains(u, Url(content, ms[0])) ==> |ApplyMatches(u, content, ms)| < |u|
    decreases |ms|
  {
    if ms != [] {
      var m := ms[|ms| - 1];
      var front := ms[..|ms| - 1];
      ApplyMatchesShrinks(u, content, front);
      ReplaceShrinks(ApplyMatches(u, content, front), Url(content, m), NewUrl(content, m));
      if front == [] {
        assert m == ms[0];
      } else {
        assert front[0] == ms[0];
      }
    }
  }

  /**
   * The content changes exactly when it holds an upload URL on one of the old
   * hosts: such a URL is always rewritten to something shorter, and without one
   * there is nothing to replace.
   */
  lemma FixedContentChanges(content: string)
    ensures FixedContent(content) != content <==> HasUploadLink(content)
    ensures |FixedContent(content)| <= |content|
  {
    var ms := MatchesFor(content, Hosts);
    ApplyMatchesShrinks(content, content, ms);
    MatchesForEmpty(content, Hosts);
    if ms != [] {
      UrlOccurs(content, ms[0]);
    }
  }

  lemma UrlOccurs(content: string, m: UrlMatch)
    requires WellFormed(content, m)
    ensures Contains(content, Url(content, m))
  {
    assert Url(content, m) <= content[m.start..];
  }

  // ----- A content with one link -----

  /** `s` has `http` starting at `i`. */
  predicate HttpAt(s: string, i: nat) {
    i <= |s| && "http" <= s[i..]
  }

  /** The only `http` in `s` is the one at `p`. */
  predicate OnlyHttpAt(s: string, p: nat) {
    forall i :: 0 <= i <= |s| && HttpAt(s, i) ==> i == p
  }

  /** A captured path: the date folders, then a run of characters the pattern's last class accepts. */
  predicate IsUploadPath(path: string) {
    |path| > 8 && DatePathAt(path, 0) && forall j :: 8 <= j < |path| ==> !StopChar(path[j])
  }

  /** What may follow a URL: nothing, or a character that ends the path. */
  predicate EndsPath(tail: string) {
    tail == [] || StopChar(tail[0])
  }

  lemma PrefixChars(host: string, secure: bool)
    ensures |UploadPrefix(host, secure)| == (if secure then 8 else 7) + |host| + 20
    ensures "http" <= UploadPrefix(host, secure)
    ensures UploadPrefix(host, secure)[4] == if secure then 's' else ':'
    ensures forall k :: 0 <= k < |host| ==> UploadPrefix(host, secure)[(if secure then 8 else 7) + k] == host[k]
  {
  }

  /** What follows `pre` in `pre + u + path + tail`. */
  lemma DropPrefix(pre: string, u: string, path: string, tail: string)
    ensures (pre + u + path + tail)[|pre|..] == u + (path + tail)
  {
  }

  /** The end of the run is where the path ends. */
  lemma RunEndOfPath(c: string, j: nat, path: string, tail: string)
    requires j + |path| + |tail| == |c| && c[j..j + |path|] == path && c[j + |path|..] == tail
    requires IsUploadPath(path) && EndsPath(tail)
    ensures RunEnd(c, j + 8) == j + |path|
  {
  }

  /** At the start of the link, `host`'s pattern matches the whole URL and captures `path`. */
  lemma MatchOfLink(pre: string, host: string, secure: bool, path: string, tail: string)
    requires IsUploadPath(path) && EndsPath(tail)
    ensures var c := pre + UploadPrefix(host, secure) + path + tail;
            var j := |pre| + |UploadPrefix(host, secure)|;
            MatchAt(c, |pre|, host) == Some(UrlMatch(|pre|, j, j + |path|))
  {
    var c := pre + UploadPrefix(host, secure) + path + tail;
    assert c[|pre|..] == UploadPrefix(host, secure) + (path + tail);
    MatchAtParts(c, |pre|, host, secure, path, tail);
  }

  /** The pattern matches at `i` when a URL prefix, a captured path and its end follow there. */
  lemma MatchAtParts(c: string, i: nat, host: string, secure: bool, path: string, tail: string)
    requires i <= |c| && c[i..] == UploadPrefix(host, secure) + (path + tail)
    requires IsUploadPath(path) && EndsPath(tail)
    ensures var j := i + |UploadPrefix(host, secure)|;
      MatchAt(c, i, host) == Some(UrlMatch(i, j, j + |path|))
  {
    var j := i + |UploadPrefix(host, secure)|;
    SuffixParts(c, i, UploadPrefix(host, secure), path, tail);
    PrefixEndAt(c, i, host, secure, path + tail);
    DatePathOf(c, j, path);
    RunEndOfPath(c, j, path, tail);
    MatchAtFrom(c, i, host, j, j + |path|);
  }

  /** A prefix ending at `j`, the date folders there and a run ending at `e` past them make a match. */
  lemma MatchAtFrom(c: string, i: nat, host: string, j: nat, e: nat)
    requires i <= |c| && PrefixEnd(c, i, host) == Some(j)
    requires DatePathAt(c, j) && RunEnd(c, j + 8) == e && e > j + 8
    ensures MatchAt(c, i, host) == Some(UrlMatch(i, j, e))
  {
  }

  /** Where the pieces stand when the text from `i` on is `u + (path + tail)`. */
  lemma SuffixParts(c: string, i: nat, u: string, path: string, tail: string)
    requires i <= |c| && c[i..] == u + (path + tail)
    ensures var j := i + |u|;
      j + |path| + |tail| == |c| && c[j..j + |path|] == path && c[j + |path|..] == tail
  {
    var r := c[i..];
    var j := i + |u|;
    assert r[|u|..|u| + |path|] == path;
    assert r[|u| + |path|..] == tail;
    assert c[j..j + |path|] == r[|u|..|u| + |path|];
    assert c[j + |path|..] == r[|u| + |path|..];
  }

  /** The match over `u + path` at `i` has that text as its URL and `/static/uploads/` and `path` as its new URL. */
  lemma LinkUrls(c: string, i: nat, u: string, path: string, tail: string)
    requires i <= |c| && c[i..] == u + (path + tail) && |u| > |StaticUploads| && |path| > 0
    ensures var j := i + |u|;
      WellFormed(c, UrlMatch(i, j, j + |path|))
      && Url(c, UrlMatch(i, j, j + |path|)) == u + path
      && NewUrl(c, UrlMatch(i, j, j + |path|)) == StaticUploads + path
  {
    var r := c[i..];
    var j := i + |u|;
    SuffixParts(c, i, u, path, tail);
    assert r[..|u| + |path|] == u + path;
    assert c[i..j + |path|] == r[..|u| + |path|];
  }

  /** A text whose part from `i` is a URL prefix on `host`: `https?` and the host end where the prefix does. */
  lemma PrefixEndAt(c: string, i: nat, host: string, secure: bool, rest: string)
    requires i <= |c| && c[i..] == UploadPrefix(host, secure) + rest
    ensures PrefixEnd(c, i, host) == Some(i + |UploadPrefix(host, secure)|)
  {
    if !secure {
      PrefixChars(host, false);
      PrefixChars(host, true);
      PrefixesDiffer(host, false, host, true, 4, rest);
    }
  }

  /** A captured path at `j` starts with the date folders. */
  lemma DatePathOf(c: string, j: nat, path: string)
    requires j + |path| <= |c| && c[j..j + |path|] == path && IsUploadPath(path)
    ensures DatePathAt(c, j)
  {
    var p := c[j..j + |path|];
    assert p[0] == c[j] && p[1] == c[j + 1] && p[2] == c[j + 2] && p[3] == c[j + 3];
    assert p[4] == c[j + 4] && p[5] == c[j + 5] && p[6] == c[j + 6] && p[7] == c[j + 7];
  }

  /**
   * The upload prefix for `other` and `sec` is not a prefix of one for `host`
   * and `secure` followed by anything, when the two differ at `k`.
   */
  lemma PrefixesDiffer(host: string, secure: bool, other: string, sec: bool, k: nat, rest: string)
    requires k < |UploadPrefix(host, secure)| && k < |UploadPrefix(other, sec)|
    requires UploadPrefix(host, secure)[k] != UploadPrefix(other, sec)[k]
    ensures !(UploadPrefix(other, sec) <= UploadPrefix(host, secure) + rest)
  {
    assert (UploadPrefix(host, secure) + rest)[k] == UploadPrefix(host, secure)[k];
  }

  /** Some character that both `a` and `b` have differs between them. */
  predicate Distinguishable(a: string, b: string) {
    exists k :: 0 <= k < |a| && k < |b| && a[k] != b[k]
  }

  /** The two hosts part at their tenth character: `.` in one, `c` in the other. */
  lemma HostsDiffer()
    ensures Distinguishable(GregDyche, WordpressCom) && Distinguishable(WordpressCom, GregDyche)
  {
    assert GregDyche[9] != WordpressCom[9];
  }

  /** At the start of a link on `host`, the pattern of a host that differs from it does not match. */
  lemma OtherHostNoMatch(pre: string, host: string, secure: bool, path: string, tail: string, other: string)
    requires Distinguishable(host, other)
    ensures MatchAt(pre + UploadPrefix(host, secure) + path + tail, |pre|, other).None?
  {
    var u := UploadPrefix(host, secure);
    var c := pre + u + path + tail;
    assert c[|pre|..] == u + (path + tail);
    var d :| 0 <= d < |host| && d < |other| && host[d] != other[d];
    OtherHostPrefix(host, secure, other, true, d, path + tail);
    OtherHostPrefix(host, secure, other, false, d, path + tail);
  }

  /** The upload prefix of a host that differs from `host` at `d` does not start a URL on `host`. */
  lemma OtherHostPrefix(host: string, secure: bool, other: string, sec: bool, d: nat, rest: string)
    requires d < |host| && d < |other| && host[d] != other[d]
    ensures !(UploadPrefix(other, sec) <= UploadPrefix(host, secure) + rest)
  {
    PrefixChars(host, secure);
    PrefixChars(other, sec);
    var k := if sec != secure then 4 else (if secure then 8 else 7) + d;
    PrefixesDiffer(host, secure, other, sec, k, rest);
  }

  /** With a single `http` in the text, a search finds at most the one match that starts there. */
  lemma FindAllOneHttp(c: string, p: nat, host: string)
    requires p < |c| && OnlyHttpAt(c, p)
    ensures FindAll(c, host, 0) == if MatchAt(c, p, host).Some? then [MatchAt(c, p, host).value] else []
  {
    var r := FindAll(c, host, 0);
    forall k | 0 <= k < |r| ensures r[k].start == p && MatchAt(c, p, host) == Some(r[k]) {
      assert HttpAt(c, r[k].start);
    }
    if |r| > 1 {
      FirstTwo(r);
      assert false;
    }
    if MatchAt(c, p, host).Some? {
      assert Covers(r, p);
    }
  }

  lemma FirstTwo(r: seq<UrlMatch>)
    ensures |r| > 1 ==> r[0] in r && r[1] in r
  {
  }

  /** An occurrence of a text that starts with `http` is an `http` at the same place. */
  lemma OccurrenceIsHttp(c: string, url: string, i: nat)
    requires "http" <= url && i <= |c| && url <= c[i..]
    ensures HttpAt(c, i)
  {
    assert c[i..][..4] == url[..4];
  }

  /** `str.replace` of the one URL of a text replaces it where it stands and nowhere else. */
  lemma ReplaceOnce(pre: string, url: string, rest: string, repl: string)
    requires "http" <= url && OnlyHttpAt(pre + url + rest, |pre|)
    ensures ReplaceAll(pre + url + rest, url, repl) == pre + repl + rest
  {
    var b := url + rest;
    assert pre + url + rest == pre + b;
    NoneBefore(pre + url + rest, pre, url, rest);
    NoneAfter(pre + url + rest, pre, url, rest);
    ReplaceConcat(pre, b, url, repl);
    ReplaceAbsent(pre, url, repl);
    ReplaceAbsent(rest, url, repl);
    assert b[|url|..] == rest;
  }

  /** Before the one `http`, no occurrence of the URL starts, whether or not it would run past it. */
  lemma NoneBefore(c: string, pre: string, url: string, rest: string)
    requires c == pre + url + rest && "http" <= url && OnlyHttpAt(c, |pre|)
    ensures NoStraddle(pre, url + rest, url) && !Contains(pre, url)
  {
    assert c == pre + (url + rest);
    forall i | 0 <= i < |pre| && |pre| < i + |url| ensures !(url <= (pre + (url + rest))[i..]) {
      if url <= (pre + (url + rest))[i..] {
        OccurrenceIsHttp(c, url, i);
      }
    }
    forall i | 0 <= i <= |pre| ensures !(url <= pre[i..]) {
      if url <= pre[i..] {
        assert pre[i..] <= c[i..];
        OccurrenceIsHttp(c, url, i);
      }
    }
  }

  /** After the one `http`, no occurrence of the URL starts. */
  lemma NoneAfter(c: string, pre: string, url: string, rest: string)
    requires c == pre + url + rest && "http" <= url && OnlyHttpAt(c, |pre|)
    ensures !Contains(rest, url)
  {
    forall i | 0 <= i <= |rest| ensures !(url <= rest[i..]) {
      if url <= rest[i..] {
        assert rest[i..] == c[|pre| + |url| + i..];
        OccurrenceIsHttp(c, url, |pre| + |url| + i);
      }
    }
  }

  /** The command's two searches, one after the other. */
  lemma MatchesForTwo(c: string, first: string, second: string)
    ensures MatchesFor(c, [first, second]) == FindAll(c, first, 0) + FindAll(c, second, 0)
  {
    assert MatchesFor(c, [first]) == FindAll(c, first, 0) by {
      MatchesForSnoc(c, [], first);
      assert [] + [first] == [first];
    }
    assert MatchesFor(c, [first, second]) == MatchesFor(c, [first]) + FindAll(c, second, 0) by {
      MatchesForSnoc(c, [first], second);
      assert [first] + [second] == [first, second];
    }
  }

  lemma MatchesForSnoc(c: string, hosts: seq<string>, h: string)
    ensures MatchesFor(c, hosts + [h]) == MatchesFor(c, hosts) + FindAll(c, h, 0)
  {
    assert (hosts + [h])[..|hosts|] == hosts;
  }

  /** With a single `http`, where exactly one of two patterns matches, the two searches find just that match. */
  lemma OneMatchOfTwo(c: string, p: nat, m: UrlMatch, first: string, second: string)
    requires p < |c| && OnlyHttpAt(c, p)
    requires (MatchAt(c, p, first) == Some(m) && MatchAt(c, p, second).None?)
          || (MatchAt(c, p, first).None? && MatchAt(c, p, second) == Some(m))
    ensures MatchesFor(c, [first, second]) == [m]
  {
    FindAllOneHttp(c, p, first);
    FindAllOneHttp(c, p, second);
    MatchesForTwo(c, first, second);
  }

  lemma LinkMatchesOneHost(pre: string, host: string, secure: bool, path: string, tail: string, other: string)
    requires Distinguishable(host, other) && IsUploadPath(path) && EndsPath(tail)
    ensures var c := pre + UploadPrefix(host, secure) + path + tail;
            var j := |pre| + |UploadPrefix(host, secure)|;
            MatchAt(c, |pre|, host) == Some(UrlMatch(|pre|, j, j + |path|)) && MatchAt(c, |pre|, other).None?
  {
    MatchOfLink(pre, host, secure, path, tail);
    OtherHostNoMatch(pre, host, secure, path, tail, other);
  }

  lemma OneLinkRewrittenFor(pre: string, host: string, other: string, secure: bool, path: string, tail: string,
                            hosts: seq<string>)
    requires hosts == [host, other] || hosts == [other, host]
    requires Distinguishable(host, other) && IsUploadPath(path) && EndsPath(tail)
    requires OnlyHttpAt(pre + UploadPrefix(host, secure) + path + tail, |pre|)
    ensures FixedContentFor(pre + UploadPrefix(host, secure) + path + tail, hosts) == pre + StaticUploads + path + tail
  {
    LinkMatchesOneHost(pre, host, secure, path, tail, other);
    PrefixStartsHttp(host, secure);
    OneLinkRewrittenAt(pre, UploadPrefix(host, secure), path, tail, host, other, hosts);
  }

  lemma PrefixStartsHttp(host: string, secure: bool)
    ensures "http" <= UploadPrefix(host, secure)
  {
    PrefixChars(host, secure);
  }

  /**
   * A content `pre + u + path + tail` whose only `http` opens `u`, and where the
   * pattern for `host` matches the URL `u + path` while the one for `other` does
   * not, is fixed by rewriting just that URL.
   */
  lemma OneLinkRewrittenAt(pre: string, u: string, path: string, tail: string, host: string, other: string,
                           hosts: seq<string>)
    requires hosts == [host, other] || hosts == [other, host]
    requires |path| > 0 && "http" <= u && OnlyHttpAt(pre + u + path + tail, |pre|)
    requires MatchAt(pre + u + path + tail, |pre|, host) == Some(UrlMatch(|pre|, |pre| + |u|, |pre| + |u| + |path|))
    requires MatchAt(pre + u + path + tail, |pre|, other).None?
    ensures FixedContentFor(pre + u + path + tail, hosts) == pre + StaticUploads + path + tail
  {
    var c := pre + u + path + tail;
    var m := UrlMatch(|pre|, |pre| + |u|, |pre| + |u| + |path|);
    if hosts == [host, other] {
      OneMatchOfTwo(c, |pre|, m, host, other);
    } else {
      OneMatchOfTwo(c, |pre|, m, other, host);
    }
    LinkMatchApplied(pre, u, path, tail, hosts);
    Regroup(pre, u, path, tail);
    assert "http" <= u + path;
    ReplaceOnce(pre, u + path, tail, StaticUploads + path);
    Regroup(pre, StaticUploads, path, tail);
  }

  /** When the searches find just the URL `u + path` after `pre`, the fix replaces it by one `str.replace`. */
  lemma LinkMatchApplied(pre: string, u: string, path: string, tail: string, hosts: seq<string>)
    requires |path| > 0
    requires MatchesFor(pre + u + path + tail, hosts) == [UrlMatch(|pre|, |pre| + |u|, |pre| + |u| + |path|)]
    ensures FixedContentFor(pre + u + path + tail, hosts) == ReplaceAll(pre + u + path + tail, u + path, StaticUploads + path)
  {
    var c := pre + u + path + tail;
    var m := UrlMatch(|pre|, |pre| + |u|, |pre| + |u| + |path|);
    assert m in MatchesFor(c, hosts);
    DropPrefix(pre, u, path, tail);
    LinkUrls(c, |pre|, u, path, tail);
    OneMatchApplied(c, hosts, m, u + path, StaticUploads + path);
  }

  lemma Regroup(a: string, b: string, c: string, d: string)
    ensures a + b + c + d == a + (b + c) + d
  {
    assert a + b + c + d == a + (b + c) + d;
  }

  /** When the searches find one match, the content is rewritten by one `str.replace`. */
  lemma OneMatchApplied(c: string, hosts: seq<string>, m: UrlMatch, url: string, repl: string)
    requires WellFormed(c, m) && MatchesFor(c, hosts) == [m]
    requires Url(c, m) == url && NewUrl(c, m) == repl
    ensures FixedContentFor(c, hosts) == ReplaceAll(c, url, repl)
  {
    var ms := MatchesFor(c, hosts);
    assert ms[..|ms| - 1] == [] && ms[|ms| - 1] == m;
    assert ApplyMatches(c, c, ms[..|ms| - 1]) == c;
    assert ApplyMatches(c, c, ms) == ReplaceAll(c, Url(c, m), NewUrl(c, m));
  }

  /**
   * A content whose only `http` starts an upload URL on one of the old hosts
   * gets that URL replaced by `/static/uploads/` and the captured path; the
   * text around it, a query string included, is kept as it was.
   */
  lemma OneLinkRewritten(pre: string, host: string, secure: bool, path: string, tail: string)
    requires host in Hosts && IsUploadPath(path) && EndsPath(tail)
    requires OnlyHttpAt(pre + UploadPrefix(host, secure) + path + tail, |pre|)
    ensures FixedContent(pre + UploadPrefix(host, secure) + path + tail) == pre + StaticUploads + path + tail
  {
    HostsDiffer();
    var other := if host == GregDyche then WordpressCom else GregDyche;
    OneLinkRewrittenFor(pre, host, other, secure, path, tail, Hosts);
  }

  /** A text without any `http` holds no upload URL, so the command leaves it as it is. */
  lemma NoHttpUntouched(c: string)
    requires forall i :: 0 <= i <= |c| ==> !HttpAt(c, i)
    ensures FixedContent(c) == c
  {
    forall h | h in Hosts ensures !HasLinkAt(c, h) {
      forall i | 0 <= i < |c| ensures MatchAt(c, i, h).None? {
        assert !HttpAt(c, i);
      }
    }
    FixedContentChanges(c);
  }

  /** The rewritten content has no `http` left: `/static/uploads/` has no `h`, and cannot finish one begun before it. */
  lemma RewrittenHasNoHttp(pre: string, u: string, path: string, tail: string)
    requires |u| > 0 && OnlyHttpAt(pre + u + path + tail, |pre|)
    ensures forall i :: 0 <= i <= |pre + StaticUploads + path + tail| ==> !HttpAt(pre + StaticUploads + path + tail, i)
  {
    var c := pre + u + path + tail;
    var o := pre + StaticUploads + path + tail;
    var n := |StaticUploads|;
    forall i | 0 <= i <= |o| ensures !HttpAt(o, i) {
      if i + 4 <= |pre| {
        assert o[i..][..4] == c[i..][..4];
        assert !HttpAt(c, i);
      } else if i < |pre| {
        assert o[|pre|] == '/';
        assert o[i..][|pre| - i] == '/';
      } else if i < |pre| + n {
        assert o[i] == StaticUploads[i - |pre|];
        assert o[i..][0] != 'h';
      } else {
        assert o[i..] == c[i - n + |u|..];
        assert !HttpAt(c, i - n + |u|);
      }
    }
  }

  /** Running the command again on what it made of a one-link content changes nothing. */
  lemma OneLinkFixedOnce(pre: string, host: string, secure: bool, path: string, tail: string)
    requires host in Hosts && IsUploadPath(path) && EndsPath(tail)
    requires OnlyHttpAt(pre + UploadPrefix(host, secure) + path + tail, |pre|)
    ensures FixedContent(FixedContent(pre + UploadPrefix(host, secure) + path + tail))
         == FixedContent(pre + UploadPrefix(host, secure) + path + tail)
  {
    OneLinkRewritten(pre, host, secure, path, tail);
    PrefixChars(host, secure);
    RewrittenHasNoHttp(pre, UploadPrefix(host, secure), path, tail);
    NoHttpUntouched(pre + StaticUploads + path + tail);
  }

  // ----- The command over the database -----

  /*
   * The two loops of `handle` are written for any content rewrite `rewrite`,
   * the role `fix_content_links` plays in them; `Handle` runs them with
   * `FixedContent`.
   */

  /** Each row of `rows` is the record stored under its key in `m`. */
  ghost predicate RowsOf<R(!new)>(rows: seq<(Id, R)>, m: map<Id, R>) {
    forall row :: row in rows ==> row.0 in m && m[row.0] == row.1
  }

  ghost function KeysOf<R>(rows: seq<(Id, R)>): set<Id> {
    set row | row in rows :: row.0
  }

  /**
   * The posts loop over the rows `rows` the query returned: a row whose
   * content the rewrite changes is saved with the new content at `now`,
   * unless this is a dry run; any other row is left alone.
   */
  function FixPosts(db: Db, rows: seq<(Id, Post)>, rewrite: string -> string, dryRun: bool, now: Time,
                    slugify: Slugify): (r: Db)
    requires forall row :: row in rows ==> row.0 in db.posts
    ensures r.posts.Keys == db.posts.Keys
    ensures r == db.(posts := r.posts, notified := r.notified)
    decreases |rows|
  {
    if rows == [] then db
    else
      var last := rows[|rows| - 1];
      var prev := FixPosts(db, rows[..|rows| - 1], rewrite, dryRun, now, slugify);
      var updated := rewrite(last.1.content);
      if updated != last.1.content && !dryRun
      then SavePostRow(prev, Some(last.0), last.1.(content := updated), now, slugify)
      else prev
  }

  /** The pages loop, the same way; a page save runs no receiver. */
  function FixPages(db: Db, rows: seq<(Id, Page)>, rewrite: string -> string, dryRun: bool,
                    slugify: Slugify): (r: Db)
    requires forall row :: row in rows ==> row.0 in db.pages
    ensures r.pages.Keys == db.pages.Keys
    ensures r == db.(pages := r.pages)
    decreases |rows|
  {
    if rows == [] then db
    else
      var last := rows[|rows| - 1];
      var prev := FixPages(db, rows[..|rows| - 1], rewrite, dryRun, slugify);
      var updated := rewrite(last.1.content);
      if updated != last.1.content && !dryRun
      then SavePageRow(prev, Some(last.0), last.1.(content := updated), slugify)
      else prev
  }

  /**
   * `handle`: every post in the default ordering, then every page. Pages are
   * taken by key here rather than by their (category order, TOC order, title)
   * ordering; each page is rewritten on its own, so the order changes nothing.
   */
  function FixLinks(db: Db, rewrite: string -> string, dryRun: bool, now: Time, slugify: Slugify): (r: Db)
    requires KeysBelowNext(db)
    ensures r == db.(posts := r.posts, pages := r.pages, notified := r.notified)
    ensures r.posts.Keys == db.posts.Keys && r.pages.Keys == db.pages.Keys
  {
    PostsInOrderRows(db);
    var afterPosts := FixPosts(db, PostsInOrder(db), rewrite, dryRun, now, slugify);
    FixPages(afterPosts, Rows(afterPosts.pages, afterPosts.nextId), rewrite, dryRun, slugify)
  }

  /** The published posts among `rows` whose content the rewrite changes, in query order. */
  function Redispatched(rows: seq<(Id, Post)>, rewrite: string -> string): seq<Id>
    decreases |rows|
  {
    if rows == [] then []
    else
      var last := rows[|rows| - 1];
      Redispatched(rows[..|rows| - 1], rewrite)
        + if last.1.status == Published && rewrite(last.1.content) != last.1.content then [last.0] else []
  }

  /** A key is redispatched exactly when some row under it is a published post the rewrite changes. */
  lemma {:induction false} RedispatchedExactly(rows: seq<(Id, Post)>, rewrite: string -> string, k: Id)
    ensures k in Redispatched(rows, rewrite)
        <==> exists row :: row in rows && row.0 == k && row.1.status == Published
                           && rewrite(row.1.content) != row.1.content
    decreases |rows|
  {
    if rows != [] {
      var init, last := rows[..|rows| - 1], rows[|rows| - 1];
      RedispatchedExactly(init, rewrite, k);
      LastSplit(rows);
    }
  }

  /** A dry run, or a run over posts the rewrite leaves as they are, saves nothing. */
  lemma {:induction false} FixPostsNothingToDo(db: Db, rows: seq<(Id, Post)>, rewrite: string -> string,
                                               dryRun: bool, now: Time, slugify: Slugify)
    requires forall row :: row in rows ==> row.0 in db.posts
    requires dryRun || forall row :: row in rows ==> rewrite(row.1.content) == row.1.content
    ensures FixPosts(db, rows, rewrite, dryRun, now, slugify) == db
    decreases |rows|
  {
    if rows != [] {
      LastSplit(rows);
      FixPostsNothingToDo(db, rows[..|rows| - 1], rewrite, dryRun, now, slugify);
    }
  }

  /** The same for the pages loop. */
  lemma {:induction false} FixPagesNothingToDo(db: Db, rows: seq<(Id, Page)>, rewrite: string -> string,
                                               dryRun: bool, slugify: Slugify)
    requires forall row :: row in rows ==> row.0 in db.pages
    requires dryRun || forall row :: row in rows ==> rewrite(row.1.content) == row.1.content
    ensures FixPages(db, rows, rewrite, dryRun, slugify) == db
    decreases |rows|
  {
    if rows != [] {
      LastSplit(rows);
      FixPagesNothingToDo(db, rows[..|rows| - 1], rewrite, dryRun, slugify);
    }
  }

  /** The last row of the posts loop, when saved, is written back with its content rewritten. */
  lemma FixPostsStep(db: Db, rows: seq<(Id, Post)>, rewrite: string -> string, now: Time, slugify: Slugify)
    requires rows != [] && forall row :: row in rows ==> row.0 in db.posts
    requires PostIsSaved(rows[|rows| - 1].1, slugify)
    ensures var last := rows[|rows| - 1];
      var prev := FixPosts(db, rows[..|rows| - 1], rewrite, false, now, slugify);
      FixPosts(db, rows, rewrite, false, now, slugify).posts
        == if rewrite(last.1.content) == last.1.content then prev.posts
           else prev.posts[last.0 := last.1.(content := rewrite(last.1.content))]
  {
    var last := rows[|rows| - 1];
    SavedFormIsFixed(last.1, NewPage("", "-", "", 0), rewrite(last.1.content), now, slugify);
  }

  /**
   * Over rows as stored, in a table whose posts are in saved form, the posts
   * loop leaves each post it visits with its content rewritten and every
   * other post as it was.
   */
  lemma {:induction false} FixPostsEffect(db: Db, rows: seq<(Id, Post)>, rewrite: string -> string, now: Time,
                                          slugify: Slugify)
    requires RowsOf(rows, db.posts)
    requires forall k :: k in db.posts ==> PostIsSaved(db.posts[k], slugify)
    ensures forall k :: k in db.posts ==>
      FixPosts(db, rows, rewrite, false, now, slugify).posts[k]
        == if k in KeysOf(rows) then db.posts[k].(content := rewrite(db.posts[k].content)) else db.posts[k]
    decreases |rows|
  {
    if rows != [] {
      var init, last := rows[..|rows| - 1], rows[|rows| - 1];
      LastSplit(rows);
      FixPostsEffect(db, init, rewrite, now, slugify);
      FixPostsStep(db, rows, rewrite, now, slugify);
      assert KeysOf(rows) == KeysOf(init) + {last.0};
    }
  }

  /** The posts loop dispatches again for each published post whose content it changes, in query order. */
  lemma {:induction false} FixPostsNotifies(db: Db, rows: seq<(Id, Post)>, rewrite: string -> string, now: Time,
                                            slugify: Slugify)
    requires forall row :: row in rows ==> row.0 in db.posts
    ensures FixPosts(db, rows, rewrite, false, now, slugify).notified == db.notified + Redispatched(rows, rewrite)
    decreases |rows|
  {
    if rows != [] {
      var front, last := rows[..|rows| - 1], rows[|rows| - 1];
      LastSplit(rows);
      FixPostsNotifies(db, front, rewrite, now, slugify);
      var prev := FixPosts(db, front, rewrite, false, now, slugify);
      var extra := if last.1.status == Published && rewrite(last.1.content) != last.1.content then [last.0] else [];
      assert FixPosts(db, rows, rewrite, false, now, slugify).notified == prev.notified + extra;
      assert Redispatched(rows, rewrite) == Redispatched(front, rewrite) + extra;
      assert db.notified + Redispatched(front, rewrite) + extra == db.notified + (Redispatched(front, rewrite) + extra);
    }
  }

  /** The last row of the pages loop is written back with its content rewritten. */
  lemma FixPagesStep(db: Db, rows: seq<(Id, Page)>, rewrite: string -> string, slugify: Slugify)
    requires rows != [] && forall row :: row in rows ==> row.0 in db.pages
    requires PageIsSaved(rows[|rows| - 1].1, slugify)
    ensures var last := rows[|rows| - 1];
      var prev := FixPages(db, rows[..|rows| - 1], rewrite, false, slugify);
      FixPages(db, rows, rewrite, false, slugify).pages
        == if rewrite(last.1.content) == last.1.content then prev.pages
           else prev.pages[last.0 := last.1.(content := rewrite(last.1.content))]
  {
    var last := rows[|rows| - 1];
    SavedFormIsFixed(NewPost("", "-", "", 0), last.1, rewrite(last.1.content), 0, slugify);
  }

  /** The same for the pages loop, which dispatches nothing. */
  lemma {:induction false} FixPagesEffect(db: Db, rows: seq<(Id, Page)>, rewrite: string -> string,
                                          slugify: Slugify)
    requires RowsOf(rows, db.pages)
    requires forall k :: k in db.pages ==> PageIsSaved(db.pages[k], slugify)
    ensures forall k :: k in db.pages ==>
      FixPages(db, rows, rewrite, false, slugify).pages[k]
        == if k in KeysOf(rows) then db.pages[k].(content := rewrite(db.pages[k].content)) else db.pages[k]
    decreases |rows|
  {
    if rows != [] {
      var init, last := rows[..|rows| - 1], rows[|rows| - 1];
      LastSplit(rows);
      FixPagesEffect(db, init, rewrite, slugify);
      FixPagesStep(db, rows, rewrite, slugify);
      assert KeysOf(rows) == KeysOf(init) + {last.0};
    }
  }

  lemma TakeOneMore<T>(s: seq<T>, i: nat)
    requires i < |s|
    ensures s[..i + 1] == s[..i] + [s[i]]
  {
  }

  /** Every key below `n` is among the rows of `m` below `n`. */
  lemma RowsCover<R(!new)>(m: map<Id, R>, n: nat)
    requires forall k :: k in m ==> k < n
    ensures forall k :: k in m ==> k in KeysOf(Rows(m, n))
  {
    forall k | k in m ensures k in KeysOf(Rows(m, n)) {
      assert (k, m[k]) in Rows(m, n);
    }
  }

  /** One more row for the posts loop. */
  lemma FixPostsSnoc(db: Db, rows: seq<(Id, Post)>, row: (Id, Post), rewrite: string -> string, dryRun: bool,
                     now: Time, slugify: Slugify)
    requires forall r :: r in rows + [row] ==> r.0 in db.posts
    ensures var prev := FixPosts(db, rows, rewrite, dryRun, now, slugify);
      FixPosts(db, rows + [row], rewrite, dryRun, now, slugify)
        == if rewrite(row.1.content) != row.1.content && !dryRun
           then SavePostRow(prev, Some(row.0), row.1.(content := rewrite(row.1.content)), now, slugify)
           else prev
  {
    assert (rows + [row])[..|rows|] == rows;
  }

  /** One more row for the pages loop. */
  lemma FixPagesSnoc(db: Db, rows: seq<(Id, Page)>, row: (Id, Page), rewrite: string -> string, dryRun: bool,
                     slugify: Slugify)
    requires forall r :: r in rows + [row] ==> r.0 in db.pages
    ensures var prev := FixPages(db, rows, rewrite, dryRun, slugify);
      FixPages(db, rows + [row], rewrite, dryRun, slugify)
        == if rewrite(row.1.content) != row.1.content && !dryRun
           then SavePageRow(prev, Some(row.0), row.1.(content := rewrite(row.1.content)), slugify)
           else prev
  {
    assert (rows + [row])[..|rows|] == rows;
  }

  /** Every post with its content passed through `rewrite`. */
  function RewrittenPosts(posts: map<Id, Post>, rewrite: string -> string): (r: map<Id, Post>)
    ensures r.Keys == posts.Keys
    ensures forall k :: k in r ==> r[k] == posts[k].(content := rewrite(posts[k].content))
  {
    map k | k in posts :: posts[k].(content := rewrite(posts[k].content))
  }

  /** Every page with its content passed through `rewrite`. */
  function RewrittenPages(pages: map<Id, Page>, rewrite: string -> string): (r: map<Id, Page>)
    ensures r.Keys == pages.Keys
    ensures forall k :: k in r ==> r[k] == pages[k].(content := rewrite(pages[k].content))
  {
    map k | k in pages :: pages[k].(content := rewrite(pages[k].content))
  }

  /** The posts loop over every stored post, each once or more. */
  lemma PostsPass(db: Db, rows: seq<(Id, Post)>, rewrite: string -> string, now: Time, slugify: Slugify)
    requires RowsOf(rows, db.posts) && forall k :: k in db.posts ==> (k, db.posts[k]) in rows
    requires forall k :: k in db.posts ==> PostIsSaved(db.posts[k], slugify)
    ensures FixPosts(db, rows, rewrite, false, now, slugify)
      == db.(posts := RewrittenPosts(db.posts, rewrite),
             notified := db.notified + Redispatched(rows, rewrite))
  {
    FixPostsEffect(db, rows, rewrite, now, slugify);
    FixPostsNotifies(db, rows, rewrite, now, slugify);
    assert forall k :: k in db.posts ==> k in KeysOf(rows);
  }

  /** The pages loop over every stored page in key order. */
  lemma PagesPass(db: Db, rewrite: string -> string, slugify: Slugify)
    requires forall k :: k in db.pages ==> k < db.nextId && PageIsSaved(db.pages[k], slugify)
    ensures FixPages(db, Rows(db.pages, db.nextId), rewrite, false, slugify)
      == db.(pages := RewrittenPages(db.pages, rewrite))
  {
    var rows := Rows(db.pages, db.nextId);
    var r := FixPages(db, rows, rewrite, false, slugify);
    var m := RewrittenPages(db.pages, rewrite);
    FixPagesEffect(db, rows, rewrite, slugify);
    RowsCover(db.pages, db.nextId);
    forall k | k in m ensures r.pages[k] == m[k] {
      assert k in KeysOf(rows);
    }
    SameMaps(r.pages, m);
  }

  /** Two maps with the same keys and the same value at each key are equal. */
  lemma SameMaps<V>(a: map<Id, V>, b: map<Id, V>)
    requires a.Keys == b.Keys && forall k :: k in b ==> a[k] == b[k]
    ensures a == b
  {
  }

  /**
   * The command's outcome on a database in saved form: every post and every
   * page has its content rewritten, nothing else changes, and the receiver
   * dispatches again for each published post whose content changed.
   */
  lemma FixLinksEffect(db: Db, rewrite: string -> string, now: Time, slugify: Slugify)
    requires KeysBelowNext(db) && AllSaved(db, slugify)
    ensures FixLinks(db, rewrite, false, now, slugify)
      == db.(posts := RewrittenPosts(db.posts, rewrite),
             pages := RewrittenPages(db.pages, rewrite),
             notified := db.notified + Redispatched(PostsInOrder(db), rewrite))
  {
    PostsInOrderRows(db);
    var rows := PostsInOrder(db);
    PostsPass(db, rows, rewrite, now, slugify);
    var afterPosts := FixPosts(db, rows, rewrite, false, now, slugify);
    PagesPass(afterPosts, rewrite, slugify);
  }

  /** A dry run changes nothing, nor does a run in which the rewrite changes no content. */
  lemma FixLinksNothingToDo(db: Db, rewrite: string -> string, dryRun: bool, now: Time, slugify: Slugify)
    requires KeysBelowNext(db)
    requires dryRun
          || ((forall k :: k in db.posts ==> rewrite(db.posts[k].content) == db.posts[k].content)
              && (forall k :: k in db.pages ==> rewrite(db.pages[k].content) == db.pages[k].content))
    ensures FixLinks(db, rewrite, dryRun, now, slugify) == db
  {
    PostsInOrderRows(db);
    FixPostsNothingToDo(db, PostsInOrder(db), rewrite, dryRun, now, slugify);
    FixPagesNothingToDo(db, Rows(db.pages, db.nextId), rewrite, dryRun, slugify);
  }

  /** The command keeps the database's integrity and its saved form. */
  lemma FixLinksValid(db: Db, rewrite: string -> string, dryRun: bool, now: Time, slugify: Slugify)
    requires ValidDb(db) && AllSaved(db, slugify)
    ensures ValidDb(FixLinks(db, rewrite, dryRun, now, slugify))
    ensures AllSaved(FixLinks(db, rewrite, dryRun, now, slugify), slugify)
  {
    if dryRun {
      FixLinksNothingToDo(db, rewrite, dryRun, now, slugify);
    } else {
      FixLinksEffect(db, rewrite, now, slugify);
      ContentOnlyValid(db, FixLinks(db, rewrite, dryRun, now, slugify), slugify);
    }
  }

  /** A database that differs from a valid one in contents only is valid, and saved if that one is. */
  lemma ContentOnlyValid(db: Db, r: Db, slugify: Slugify)
    requires r == db.(posts := r.posts, pages := r.pages, notified := r.notified)
    requires r.posts.Keys == db.posts.Keys && r.pages.Keys == db.pages.Keys
    requires forall k :: k in r.posts ==> r.posts[k].(content := db.posts[k].content) == db.posts[k]
    requires forall k :: k in r.pages ==> r.pages[k].(content := db.pages[k].content) == db.pages[k]
    requires ValidDb(db) && AllSaved(db, slugify)
    ensures ValidDb(r) && AllSaved(r, slugify)
  {
    forall k | k in r.posts
      ensures r.posts[k].wpPostId == db.posts[k].wpPostId && r.posts[k].categories == db.posts[k].categories
      ensures r.posts[k].tags == db.posts[k].tags && PostIsSaved(r.posts[k], slugify)
    {
      assert r.posts[k].(content := db.posts[k].content) == db.posts[k];
    }
    forall k | k in r.pages
      ensures r.pages[k].wpPageId == db.pages[k].wpPageId && r.pages[k].category == db.pages[k].category
      ensures PageIsSaved(r.pages[k], slugify)
    {
      assert r.pages[k].(content := db.pages[k].content) == db.pages[k];
    }
  }

  /** With the command's own rewrite, a post is dispatched again exactly when it is published and has an upload link. */
  lemma UploadLinksRedispatched(db: Db, k: Id)
    requires KeysBelowNext(db)
    ensures k in Redispatched(PostsInOrder(db), FixedContent)
        <==> k in db.posts && db.posts[k].status == Published && HasUploadLink(db.posts[k].content)
  {
    PostsInOrderRows(db);
    RedispatchedExactly(PostsInOrder(db), FixedContent, k);
    if k in db.posts {
      FixedContentChanges(db.posts[k].content);
      assert (k, db.posts[k]) in PostsInOrder(db);
    }
  }

  /** With the command's own rewrite, a database without upload links is left as it is. */
  lemma NoUploadLinksUnchanged(db: Db, dryRun: bool, now: Time, slugify: Slugify)
    requires KeysBelowNext(db)
    requires forall k :: k in db.posts ==> !HasUploadLink(db.posts[k].content)
    requires forall k :: k in db.pages ==> !HasUploadLink(db.pages[k].content)
    ensures FixLinks(db, FixedContent, dryRun, now, slugify) == db
  {
    forall k | k in db.posts ensures FixedContent(db.posts[k].content) == db.posts[k].content {
      FixedContentChanges(db.posts[k].content);
    }
    forall k | k in db.pages ensures FixedContent(db.pages[k].content) == db.pages[k].content {
      FixedContentChanges(db.pages[k].content);
    }
    FixLinksNothingToDo(db, FixedContent, dryRun, now, slugify);
  }

  /** `handle` on the live store; the download option is not modelled. */
  method Handle(store: Store, dryRun: bool, now: Time)
    requires KeysBelowNext(store.Snapshot())
    modifies store
    ensures store.Snapshot() == FixLinks(old(store.Snapshot()), FixedContent, dryRun, now, store.slugify)
  {
    ghost var db := store.Snapshot();
    PostsInOrderRows(db);
    var posts := PostsInOrder(store.Snapshot());
    for i := 0 to |posts|
      invariant store.Snapshot() == FixPosts(db, posts[..i], FixedContent, dryRun, now, store.slugify)
    {
      var (id, post) := posts[i];
      var updated := FixContentLinks(post.content);
      TakeOneMore(posts, i);
      FixPostsSnoc(db, posts[..i], posts[i], FixedContent, dryRun, now, store.slugify);
      if post.content != updated {
        if !dryRun {
          store.SavePost(id, post.(content := updated), now);
        }
      }
    }
    assert posts[..|posts|] == posts;
    ghost var afterPosts := store.Snapshot();
    var pages := Rows(store.pages, store.nextId);
    for i := 0 to |pages|
      invariant store.Snapshot() == FixPages(afterPosts, pages[..i], FixedContent, dryRun, store.slugify)
    {
      var (id, page) := pages[i];
      var updated := FixContentLinks(page.content);
      TakeOneMore(pages, i);
      FixPagesSnoc(afterPosts, pages[..i], pages[i], FixedContent, dryRun, store.slugify);
      if page.content != updated {
        if !dryRun {
          store.SavePage(id, page.(content := updated));
        }
      }
    }
    assert pages[..|pages|] == pages;
  }
}
