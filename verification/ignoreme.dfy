/**
 * The URL builder of ignoreme.go, the same concatenation as getignore.go's
 * on a fetcher passed by value.
 */
module IgnoreMe {
  import opened Strings

  datatype IgnoreFetcher = IgnoreFetcher(baseUrl: string)
  {
    /**
     * NameToUrl: ".gitignore" is appended without looking at the name, so
     * the URL is always eleven characters longer than base and name together.
     */
    function NameToUrl(name: string): (url: string)
      ensures |url| == |baseUrl| + |name| + 11
      ensures HasPrefix(url, baseUrl) && url[|baseUrl|] == '/'
      ensures HasSuffix(url, name + ".gitignore")
    {
      baseUrl + "/" + name + ".gitignore"
    }
  }

  /** For a fixed base URL, different names give different URLs. */
  lemma NameToUrlInjective(fetcher: IgnoreFetcher, a: string, b: string)
    requires fetcher.NameToUrl(a) == fetcher.NameToUrl(b)
    ensures a == b
  {
    var u, n := fetcher.NameToUrl(a), |fetcher.baseUrl|;
    assert a == u[n + 1..|u| - 10];
  }

  /** A name that already ends in ".gitignore" gets the extension a second time. */
  lemma ExtensionAppendedAgain(fetcher: IgnoreFetcher, stem: string)
    ensures HasSuffix(fetcher.NameToUrl(stem + ".gitignore"), ".gitignore.gitignore")
  {
    var url := fetcher.NameToUrl(stem + ".gitignore");
    assert url == fetcher.baseUrl + "/" + stem + ".gitignore.gitignore";
  }

  /** The address of the Go template in GitHub's gitignore repository. */
  lemma GoTemplateUrl()
    ensures IgnoreFetcher("https://github.com/github/gitignore").NameToUrl("Go")
            == "https://github.com/github/gitignore/Go.gitignore"
  {
  }
}
