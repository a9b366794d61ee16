/**
 * URL identity keys. Two pages whose keys are equal are treated as the same
 * page. The query-time deduplication in hybrid_search.py computes the key
 * inline; the crawler in data.py has its own `normalize_url`, which also trims
 * white space and also recognises `asp`/`aspx` index pages. Both are built here
 * from one shared core, `KeyOf`.
 */
module UrlKey {
  import opened Wrappers
  import opened PyStr

  /** Extensions of default index pages recognised at query time (hybrid_search.py:101). */
  const HybridIndexPages: seq<string> := ["html", "htm", "php", "jsp"]

  /** Extensions of default index pages recognised by the crawler (data.py:25). */
  const CrawlIndexPages: seq<string> := ["html", "htm", "php", "jsp", "asp", "aspx"]

  const Https: string := "https://"
  const Http: string := "http://"

  /**
   * Whether `c` matches the lower-case pattern character `p` under Python's
   * `re.IGNORECASE`: the letter in either case, and also U+0130 and U+0131
   * for `i` and U+017F for `s`, which Python's regular expressions fold too.
   */
  predicate CharMatchesIgnoreCase(c: char, p: char) {
    if 'a' <= p <= 'z' then
      || c == p
      || c == (p as int - 32) as char
      || (p == 'i' && (c == '\U{130}' || c == '\U{131}'))
      || (p == 's' && c == '\U{17f}')
    else
      c == p
  }

  predicate MatchesIgnoreCase(t: string, p: string) {
    |t| == |p| && forall i :: 0 <= i < |t| ==> CharMatchesIgnoreCase(t[i], p[i])
  }

  function IndexPage(ext: string): string {
    "/index." + ext
  }

  /** `u` ends with `/index.<ext>`, matched case-insensitively. */
  predicate EndsWithIndexPage(u: string, ext: string) {
    |IndexPage(ext)| <= |u| && MatchesIgnoreCase(u[|u| - |IndexPage(ext)|..], IndexPage(ext))
  }

  /** The length of the index-page suffix that `u` ends with, trying `exts` in order. */
  function IndexPageSuffix(u: string, exts: seq<string>): (r: Option<nat>)
    ensures r.Some? ==> exists e :: e in exts && EndsWithIndexPage(u, e) && r.value == |IndexPage(e)|
    ensures r.None? ==> forall e :: e in exts ==> !EndsWithIndexPage(u, e)
  {
    if exts == [] then None
    else if EndsWithIndexPage(u, exts[0]) then Some(|IndexPage(exts[0])|)
    else IndexPageSuffix(u, exts[1..])
  }

  /**
   * `re.sub(r'/index\.(EXTS)$', '', u, flags=re.IGNORECASE)`. Python's `$`
   * matches at the very end and also just before a final newline, so a
   * suffix followed by one "\n" is removed too and the newline is kept.
   */
  function StripIndexPage(u: string, exts: seq<string>): (r: string)
    ensures |r| <= |u|
    ensures |r| == |u| ==> r == u
    ensures r == u <==>
      (IndexPageSuffix(u, exts).None? &&
       !(|u| > 0 && u[|u| - 1] == '\n' && IndexPageSuffix(u[..|u| - 1], exts).Some?))
  {
    match IndexPageSuffix(u, exts)
    case Some(n) => u[..|u| - n]
    case None =>
      if |u| > 0 && u[|u| - 1] == '\n' then
        match IndexPageSuffix(u[..|u| - 1], exts)
        case Some(n) => u[..|u| - 1 - n] + "\n"
        case None => u
      else u
  }

  /** Every "https://" and then every "http://" deleted. */
  function SchemeStripped(u: string): string {
    ReplaceAll(ReplaceAll(u, Https, ""), Http, "")
  }

  /** The shared core of both normalisers: schemes, trailing slashes, then an index page. */
  function KeyOf(u: string, exts: seq<string>): (r: string)
    ensures |r| <= |u|
  {
    DeleteShrinks(u, Https);
    DeleteShrinks(ReplaceAll(u, Https, ""), Http);
    StripIndexPage(RStripChar(SchemeStripped(u), '/'), exts)
  }

  /** The identity key hybrid_search computes for a record's URL. */
  function HybridKey(url: string): string {
    KeyOf(url, HybridIndexPages)
  }

  /** data.py's `normalize_url` on a string. */
  function NormalizeUrl(url: string): (r: string)
    ensures |r| <= |url|
  {
    if url == "" then "" else KeyOf(Strip(url), CrawlIndexPages)
  }

  // ----- the scheme does not matter -----

  /** No occurrence of `pat` straddles `s + t` when `pat`'s first character appears in `s` only at index 0. */
  lemma {:induction false} NoStraddleByHead(s: string, t: string, pat: string)
    requires |pat| > 0
    requires forall i :: 0 < i < |s| ==> s[i] != pat[0]
    requires |s| < |pat| ==> exists j :: 0 <= j < |s| && s[j] != pat[j]
    ensures NoStraddle(s, t, pat)
  {
    forall i | 0 <= i < |s| < i + |pat| ensures !OccursAt(s + t, pat, i) {
      OccursAtChar(s + t, pat, i, 0);
      if i == 0 {
        var j :| 0 <= j < |s| && s[j] != pat[j];
        OccursAtChar(s + t, pat, 0, j);
      }
    }
  }

  lemma {:induction false} SchemeStrippedOfHttps(u: string)
    ensures ReplaceAll(Https + u, Https, "") == ReplaceAll(u, Https, "")
  {
    NoStraddleByHead(Https, u, Https);
    ReplaceConcat(Https, u, Https, "");
  }

  lemma {:induction false} SchemeStrippedOfHttp(u: string)
    ensures ReplaceAll(Http + u, Https, "") == Http + ReplaceAll(u, Https, "")
    ensures ReplaceAll(Http + u, Http, "") == ReplaceAll(u, Http, "")
  {
    assert Http[4] != Https[4];
    NoStraddleByHead(Http, u, Https);
    ReplaceConcat(Http, u, Https, "");
    NoStraddleByHead(Http, u, Http);
    ReplaceConcat(Http, u, Http, "");
  }

  lemma {:induction false} SchemeStrippedAgree(u: string)
    ensures SchemeStripped(Https + u) == SchemeStripped(Http + u)
  {
    SchemeStrippedOfHttps(u);
    SchemeStrippedOfHttp(u);
    SchemeStrippedOfHttp(ReplaceAll(u, Https, ""));
  }

  /** Stripping a string that starts with a word only trims its end. */
  lemma {:induction false} StripWithPrefix(p: string, u: string)
    requires p != [] && !IsSpace(p[0]) && !IsSpace(p[|p| - 1])
    ensures Strip(p + u) == p + RStrip(u)
  {
    var v, w := RStrip(u), u[|RStrip(u)|..];
    RStripPrefix(u);
    assert p + u == (p + v) + w;
    LStripNonSpace(p + u);
    RStripSkipsSpace(p + v, w);
    RStripNonSpace(p + v);
  }

  /** "https://" and "http://" in front of the same URL give the same key, in both normalisers. */
  lemma {:induction false} SchemeInsensitive(u: string)
    ensures HybridKey(Https + u) == HybridKey(Http + u)
    ensures NormalizeUrl(Https + u) == NormalizeUrl(Http + u)
  {
    SchemeStrippedAgree(u);
    StripWithPrefix(Https, u);
    StripWithPrefix(Http, u);
    SchemeStrippedAgree(RStrip(u));
  }

  // ----- surrounding white space does not matter to the crawler -----

  lemma {:induction false} KeyOfEmpty(exts: seq<string>)
    ensures KeyOf("", exts) == ""
  {
    assert IndexPageSuffix("", exts).None?;
  }

  /** normalize_url ignores white space around the URL. */
  lemma {:induction false} WhitespaceInsensitive(a: string, u: string, b: string)
    requires AllSpace(a) && AllSpace(b)
    ensures NormalizeUrl(a + u + b) == NormalizeUrl(u)
  {
    StripPadding(a, u, b);
    NormalizeIsKeyOfStrip(a + u + b);
    NormalizeIsKeyOfStrip(u);
  }

  /** `normalize_url` is the shared key of the stripped URL, the empty URL included. */
  lemma {:induction false} NormalizeIsKeyOfStrip(w: string)
    ensures NormalizeUrl(w) == KeyOf(Strip(w), CrawlIndexPages)
  {
    if w == [] {
      KeyOfEmpty(CrawlIndexPages);
    }
  }

  // ----- trailing slashes do not matter -----

  function Slashes(n: nat): (r: string)
    ensures |r| == n && forall i :: 0 <= i < n ==> r[i] == '/'
  {
    seq(n, _ => '/')
  }

  /**
   * A scheme marker cannot straddle `u + t` when `t` starts with "/" and
   * `u` does not end with "/", nor with ":" unless `t`'s second character
   * is not a "/".
   */
  lemma {:induction false} NoSchemeStraddle(u: string, t: string, pat: string)
    requires pat == Https || pat == Http
    requires |t| > 0 && t[0] == '/'
    requires u == [] || u[|u| - 1] != '/'
    requires u == [] || u[|u| - 1] != ':' || (|t| >= 2 && t[1] != '/')
    ensures NoStraddle(u, t, pat)
  {
    forall i | 0 <= i < |u| < i + |pat| ensures !OccursAt(u + t, pat, i) {
      var j := |u| - i;
      OccursAtChar(u + t, pat, i, j);
      OccursAtChar(u + t, pat, i, j - 1);
      OccursAtChar(u + t, pat, i, j + 1);
    }
  }

  lemma {:induction false} RStripCharAppend(v: string, w: string, c: char)
    requires forall i :: 0 <= i < |w| ==> w[i] == c
    ensures RStripChar(v + w, c) == RStripChar(v, c)
    decreases |w|
  {
    if w == [] {
      assert v + w == v;
    } else {
      assert (v + w)[..|v + w| - 1] == v + w[..|w| - 1];
      RStripCharAppend(v, w[..|w| - 1], c);
    }
  }

  lemma {:induction false} SlashesHaveNoScheme(n: nat, pat: string)
    requires pat == Https || pat == Http
    ensures ReplaceAll(Slashes(n), pat, "") == Slashes(n)
  {
    forall i | 0 <= i < n ensures !OccursAt(Slashes(n), pat, i) {
      OccursAtChar(Slashes(n), pat, i, 0);
    }
    ReplaceAbsent(Slashes(n), pat, "");
  }

  /** Deleting a scheme marker from `u` keeps `u` free of a trailing "/" or ":". */
  lemma {:induction false} DeleteSchemeKeepsTail(u: string, pat: string)
    requires pat == Https || pat == Http
    requires u == [] || (u[|u| - 1] != '/' && u[|u| - 1] != ':')
    ensures var r := ReplaceAll(u, pat, ""); r == [] || (r[|r| - 1] != '/' && r[|r| - 1] != ':')
  {
    if u != [] {
      DeleteKeepsLast(u, pat);
    }
  }

  lemma {:induction false} KeyOfSlashes(u: string, n: nat, exts: seq<string>)
    requires u == [] || (u[|u| - 1] != '/' && u[|u| - 1] != ':')
    ensures KeyOf(u + Slashes(n), exts) == KeyOf(u, exts)
  {
    if n == 0 {
      assert u + Slashes(n) == u;
    } else {
      var w := Slashes(n);
      NoSchemeStraddle(u, w, Https);
      ReplaceConcat(u, w, Https, "");
      SlashesHaveNoScheme(n, Https);
      var u1 := ReplaceAll(u, Https, "");
      DeleteSchemeKeepsTail(u, Https);
      NoSchemeStraddle(u1, w, Http);
      ReplaceConcat(u1, w, Http, "");
      SlashesHaveNoScheme(n, Http);
      RStripCharAppend(SchemeStripped(u), w, '/');
    }
  }

  /** On a string with no white space to strip, normalize_url is the shared core. */
  lemma {:induction false} NormalizeTrimmed(u: string)
    requires Trimmed(u)
    ensures NormalizeUrl(u) == KeyOf(u, CrawlIndexPages)
  {
    if u == [] {
      KeyOfEmpty(CrawlIndexPages);
    } else {
      StripTrimmed(u);
    }
  }

  /**
   * Trailing slashes do not change the key of a URL that does not itself
   * end in "/" or ":". (With a final ":" they may: "http:" + "//" is a scheme
   * marker and is deleted.)
   */
  lemma {:induction false} TrailingSlashesIgnored(u: string, n: nat)
    requires Trimmed(u)
    requires u == [] || (u[|u| - 1] != '/' && u[|u| - 1] != ':')
    ensures HybridKey(u + Slashes(n)) == HybridKey(u)
    ensures NormalizeUrl(u + Slashes(n)) == NormalizeUrl(u)
  {
    KeyOfSlashes(u, n, HybridIndexPages);
    KeyOfSlashes(u, n, CrawlIndexPages);
    var w := u + Slashes(n);
    if n == 0 {
      assert w == u;
    } else {
      assert Trimmed(w) by {
        assert w[|w| - 1] == '/';
        assert w[0] == if u == [] then '/' else u[0];
      }
      NormalizeTrimmed(w);
      NormalizeTrimmed(u);
    }
  }

  // ----- default index pages do not matter -----

  /** Case-insensitive matches of different lower-case letters are different characters. */
  lemma {:induction false} CharClassesDisjoint(c: char, p: char, q: char)
    requires 'a' <= p <= 'z' && 'a' <= q <= 'z'
    requires CharMatchesIgnoreCase(c, p) && CharMatchesIgnoreCase(c, q)
    ensures p == q
  {
  }

  /** At most one extension of the list can end a string. */
  lemma {:induction false} IndexPageUnique(u: string, x: string, y: string)
    requires x in CrawlIndexPages && y in CrawlIndexPages
    ensures EndsWithIndexPage(u, x) && EndsWithIndexPage(u, y) ==> x == y
  {
    if EndsWithIndexPage(u, x) && EndsWithIndexPage(u, y) {
      var px, py := IndexPage(x), IndexPage(y);
      var m := |u|;
      assert CharMatchesIgnoreCase(u[m - 1], px[|px| - 1]) by {
        assert u[m - |px|..][|px| - 1] == u[m - 1];
      }
      assert CharMatchesIgnoreCase(u[m - 1], py[|py| - 1]) by {
        assert u[m - |py|..][|py| - 1] == u[m - 1];
      }
      assert CharMatchesIgnoreCase(u[m - 3], px[|px| - 3]) by {
        assert u[m - |px|..][|px| - 3] == u[m - 3];
      }
      assert CharMatchesIgnoreCase(u[m - 3], py[|py| - 3]) by {
        assert u[m - |py|..][|py| - 3] == u[m - 3];
      }
      IndexPageTail(x);
      IndexPageTail(y);
      CharClassesDisjoint(u[m - 1], px[|px| - 1], py[|py| - 1]);
      CharClassesDisjoint(u[m - 3], px[|px| - 3], py[|py| - 3]);
      IndexPageTailsDiffer(x, y);
    }
  }

  /** The last and third-to-last characters of every index page are lower-case letters. */
  lemma {:induction false} IndexPageTail(x: string)
    requires x in CrawlIndexPages
    ensures var p := IndexPage(x); |p| >= 3 && 'a' <= p[|p| - 1] <= 'z' && 'a' <= p[|p| - 3] <= 'z'
  {
  }

  /** Those two characters tell the extensions of the list apart. */
  lemma {:induction false} IndexPageTailsDiffer(x: string, y: string)
    requires x in CrawlIndexPages && y in CrawlIndexPages
    ensures var px, py := IndexPage(x), IndexPage(y);
      px[|px| - 1] == py[|py| - 1] && px[|px| - 3] == py[|py| - 3] ==> x == y
  {
  }

  lemma {:induction false} IndexPageSuffixFinds(u: string, x: string, exts: seq<string>)
    requires forall e :: e in exts ==> e in CrawlIndexPages
    requires x in exts && EndsWithIndexPage(u, x)
    ensures IndexPageSuffix(u, exts) == Some(|IndexPage(x)|)
  {
    var r := IndexPageSuffix(u, exts);
    var e :| e in exts && EndsWithIndexPage(u, e) && r.value == |IndexPage(e)|;
    IndexPageUnique(u, x, e);
  }

  /** The characters of an index page, spelled in any case: a "/" then no "/", and no ":" or white space at all. */
  lemma {:induction false} IndexPageShape(sfx: string, x: string)
    requires x in CrawlIndexPages && MatchesIgnoreCase(sfx, IndexPage(x))
    ensures |sfx| >= 2 && sfx[0] == '/' && sfx[1] != '/' && sfx[|sfx| - 1] != '/'
    ensures forall i :: 0 <= i < |sfx| ==> sfx[i] != ':' && !IsSpace(sfx[i])
  {
    var p := IndexPage(x);
    assert CharMatchesIgnoreCase(sfx[1], p[1]);
    assert CharMatchesIgnoreCase(sfx[|sfx| - 1], p[|p| - 1]);
    forall i | 0 <= i < |sfx| ensures sfx[i] != ':' && !IsSpace(sfx[i]) {
      assert CharMatchesIgnoreCase(sfx[i], p[i]);
      assert p[i] == '/' || p[i] == '.' || 'a' <= p[i] <= 'z';
    }
  }

  /** A string whose every character is not ":" holds no scheme marker. */
  lemma {:induction false} NoColonNoScheme(s: string, pat: string)
    requires pat == Https || pat == Http
    requires forall i :: 0 <= i < |s| ==> s[i] != ':'
    ensures ReplaceAll(s, pat, "") == s
  {
    forall i | 0 <= i < |s| ensures !OccursAt(s, pat, i) {
      OccursAtChar(s, pat, i, |pat| - 3);
    }
    ReplaceAbsent(s, pat, "");
  }

  /** Appending a colon-free tail that starts with "/" to a scheme-free string keeps it scheme-free. */
  lemma {:induction false} SchemeFreeAppend(h: string, t: string)
    requires ReplaceAll(h, Https, "") == h && ReplaceAll(h, Http, "") == h
    requires h == [] || h[|h| - 1] != '/'
    requires |t| >= 2 && t[0] == '/' && t[1] != '/'
    requires forall i :: 0 <= i < |t| ==> t[i] != ':'
    ensures SchemeStripped(h + t) == h + t
  {
    NoSchemeStraddle(h, t, Https);
    ReplaceConcat(h, t, Https, "");
    NoColonNoScheme(t, Https);
    NoSchemeStraddle(h, t, Http);
    ReplaceConcat(h, t, Http, "");
    NoColonNoScheme(t, Http);
  }

  /** A string that is its own key: no scheme marker, no trailing "/", no index page. */
  lemma {:induction false} KeyFixedPoint(h: string, exts: seq<string>)
    requires KeyOf(h, exts) == h
    ensures ReplaceAll(h, Https, "") == h && ReplaceAll(h, Http, "") == h
    ensures h == [] || h[|h| - 1] != '/'
    ensures StripIndexPage(h, exts) == h
  {
    var a := ReplaceAll(h, Https, "");
    var b := ReplaceAll(a, Http, "");
    var c := RStripChar(b, '/');
    assert KeyOf(h, exts) == StripIndexPage(c, exts);
    DeleteShrinks(h, Https);
    DeleteShrinks(a, Http);
    assert |h| <= |c| <= |b| <= |a| <= |h|;
    assert a == h;
    assert b == a;
    assert c == b;
  }

  lemma {:induction false} NormalizeFixedPoint(h: string)
    requires h != [] && NormalizeUrl(h) == h
    ensures Strip(h) == h && KeyOf(h, CrawlIndexPages) == h
  {
    var l := LStrip(h);
    var t := Strip(h);
    assert t == RStrip(l);
    assert NormalizeUrl(h) == KeyOf(t, CrawlIndexPages);
    assert |h| <= |t| <= |l| <= |h|;
    assert l == h;
    assert t == l;
  }

  /** An index page spelled in any case, as the regular expression matches it. */
  predicate IndexPageSpelling(sfx: string, exts: seq<string>) {
    exists x :: x in exts && MatchesIgnoreCase(sfx, IndexPage(x))
  }

  lemma {:induction false} KeyOfIndexPage(h: string, sfx: string, x: string, exts: seq<string>)
    requires forall e :: e in exts ==> e in CrawlIndexPages
    requires x in exts && MatchesIgnoreCase(sfx, IndexPage(x))
    requires KeyOf(h, exts) == h
    ensures KeyOf(h + sfx, exts) == h
  {
    KeyFixedPoint(h, exts);
    IndexPageShape(sfx, x);
    SchemeFreeAppend(h, sfx);
    var w := h + sfx;
    assert w[|w| - 1] == sfx[|sfx| - 1];
    assert RStripChar(w, '/') == w;
    assert w[|w| - |IndexPage(x)|..] == sfx;
    IndexPageSuffixFinds(w, x, exts);
    assert w[..|w| - |IndexPage(x)|] == h;
  }

  /**
   * A default index page appended to a key, in any letter case, gives back
   * the same key: "site.com/index.html" and "site.com" are one page.
   */
  lemma {:induction false} IndexPageIgnored(h: string, sfx: string)
    ensures HybridKey(h) == h && IndexPageSpelling(sfx, HybridIndexPages) ==> HybridKey(h + sfx) == h
    ensures NormalizeUrl(h) == h && IndexPageSpelling(sfx, CrawlIndexPages) ==> NormalizeUrl(h + sfx) == h
  {
    if HybridKey(h) == h && IndexPageSpelling(sfx, HybridIndexPages) {
      var x :| x in HybridIndexPages && MatchesIgnoreCase(sfx, IndexPage(x));
      KeyOfIndexPage(h, sfx, x, HybridIndexPages);
    }
    if NormalizeUrl(h) == h && IndexPageSpelling(sfx, CrawlIndexPages) {
      var x :| x in CrawlIndexPages && MatchesIgnoreCase(sfx, IndexPage(x));
      if h == [] {
        KeyOfEmpty(CrawlIndexPages);
      } else {
        NormalizeFixedPoint(h);
      }
      KeyOfIndexPage(h, sfx, x, CrawlIndexPages);
      IndexPageShape(sfx, x);
      assert Trimmed(h + sfx) by {
        assert (h + sfx)[|h + sfx| - 1] == sfx[|sfx| - 1];
        assert (h + sfx)[0] == if h == [] then sfx[0] else h[0];
      }
      NormalizeTrimmed(h + sfx);
    }
  }

  /**
   * The two normalisers disagree on "asp" and "aspx" index pages: the crawler
   * treats "<h>/index.aspx" as "<h>", query-time deduplication does not.
   */
  lemma {:induction false} AspxOnlyCrawlerSide(h: string)
    requires HybridKey(h) == h && NormalizeUrl(h) == h
    ensures NormalizeUrl(h + "/index.aspx") == h
    ensures HybridKey(h + "/index.aspx") != h
  {
    var sfx := "/index.aspx";
    AspxSpelling();
    assert "aspx" in CrawlIndexPages;
    assert IndexPageSpelling(sfx, CrawlIndexPages);
    IndexPageIgnored(h, sfx);
    AspxKeptAtQueryTime(h);
  }

  lemma {:induction false} AspxKeptAtQueryTime(h: string)
    requires HybridKey(h) == h
    ensures HybridKey(h + "/index.aspx") == h + "/index.aspx"
  {
    var sfx := "/index.aspx";
    AspxSpelling();
    KeyFixedPoint(h, HybridIndexPages);
    IndexPageShape(sfx, "aspx");
    SchemeFreeAppend(h, sfx);
    var w := h + sfx;
    assert w[|w| - 1] == 'x';
    assert RStripChar(w, '/') == w;
    assert EndsWithIndexPage(w, "aspx") by {
      assert w[|w| - |sfx|..] == sfx;
    }
    AspxIsNoHybridIndexPage(w);
  }

  /** "/index.aspx" spells the "aspx" index page. */
  lemma {:induction false} AspxSpelling()
    ensures MatchesIgnoreCase("/index.aspx", IndexPage("aspx"))
  {
    var p := IndexPage("aspx");
    assert p == "/index.aspx";
    forall i | 0 <= i < |p| ensures CharMatchesIgnoreCase(p[i], p[i]) {
    }
  }

  lemma {:induction false} AspxIsNoHybridIndexPage(w: string)
    requires EndsWithIndexPage(w, "aspx")
    ensures IndexPageSuffix(w, HybridIndexPages).None?
  {
    forall e | e in HybridIndexPages ensures !EndsWithIndexPage(w, e) {
      IndexPageUnique(w, e, "aspx");
    }
  }
}
