/** `is_classplus_url` and the provider constants it reads (app.py lines 12-18, 32-33). */
module Classifier {
  import opened Text

  /** `CLASSPLUS_DOMAINS`, in the order the source lists them. */
  const Domains: seq<string> := [
    "media-cdn." + ClassplusApp,
    PublicAssetDomain,
    "media-aws." + ClassplusApp,
    ClassplusApp,
    TestbookDomain
  ]

  const ClassplusApp: string := "classplusapp.com"
  const TestbookDomain: string := "cpvod.testbook.com"

  /** The file suffix of an HLS playlist, which every accepted URL ends with. */
  const StreamSuffix: string := ".m3u8"

  /** The domain whose URLs are already public and need no signing. */
  const PublicAssetDomain: string := "cdn-wl-assets.classplus.co"

  /** Python's `any(domain in url for domain in domains)`, scanning the list in order. */
  function AnyDomainIn(domains: seq<string>, url: string): (r: bool)
    ensures r <==> exists d :: d in domains && Contains(url, d)
  {
    |domains| > 0 && (Contains(url, domains[0]) || AnyDomainIn(domains[1..], url))
  }

  /**
   * A URL is accepted exactly when one of the configured domains occurs in it as a
   * substring and it ends with ".m3u8". The test is case-sensitive and does not parse
   * the URL: the domain may occur anywhere, not only in the host.
   */
  function IsClassplusUrl(url: string): (r: bool)
    ensures r <==> (exists d :: d in Domains && Contains(url, d)) && EndsWith(url, StreamSuffix)
  {
    AnyDomainIn(Domains, url) && EndsWith(url, StreamSuffix)
  }

  /**
   * Two of the five domains are redundant: both contain "classplusapp.com", so the
   * whitelist accepts the same URLs as a list of the other three.
   */
  lemma WhitelistSimplified(url: string)
    ensures IsClassplusUrl(url) <==>
      (Contains(url, ClassplusApp) || Contains(url, PublicAssetDomain) || Contains(url, TestbookDomain))
      && EndsWith(url, StreamSuffix)
  {
    ContainsJoined("media-cdn.", ClassplusApp, "");
    ContainsJoined("media-aws.", ClassplusApp, "");
    assert "media-cdn." + ClassplusApp + "" == Domains[0];
    assert "media-aws." + ClassplusApp + "" == Domains[2];
    if Contains(url, Domains[0]) {
      ContainsTransitive(url, Domains[0], ClassplusApp);
    }
    if Contains(url, Domains[2]) {
      ContainsTransitive(url, Domains[2], ClassplusApp);
    }
    assert Domains[1] == PublicAssetDomain && Domains[3] == ClassplusApp && Domains[4] == TestbookDomain;
  }

  /** The public-asset domain is itself whitelisted, so only the suffix decides for its URLs. */
  lemma PublicAssetWhitelisted(url: string)
    requires Contains(url, PublicAssetDomain)
    ensures IsClassplusUrl(url) <==> EndsWith(url, StreamSuffix)
  {
    assert Domains[1] == PublicAssetDomain;
  }

  /**
   * The domain test is a substring test: a URL on any host passes when its path
   * names a whitelisted domain and it ends with ".m3u8".
   */
  lemma ForeignHostAccepted(pre: string, post: string)
    ensures IsClassplusUrl(pre + ClassplusApp + post + StreamSuffix)
  {
    var url := pre + ClassplusApp + post + StreamSuffix;
    ContainsJoined(pre, ClassplusApp, post + StreamSuffix);
    assert pre + ClassplusApp + (post + StreamSuffix) == url;
    EndsWithJoined(pre + ClassplusApp + post, StreamSuffix);
    assert Domains[3] == ClassplusApp;
  }

  /** A URL that does not end with ".m3u8" is refused, whatever domain it names. */
  lemma WrongSuffixRefused(url: string)
    requires !EndsWith(url, StreamSuffix)
    ensures !IsClassplusUrl(url)
  {
  }
}
