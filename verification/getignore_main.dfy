/**
 * The URL builder of getignore.go: a fetcher with a base URL turns a name
 * into the address of its gitignore file, and NamesToUrls does so for every
 * name it receives. The channels are modelled by the sequences of values
 * sent through them.
 */
module GetIgnoreMain {
  import opened Strings
  import opened Seqs

  const Extension := ".gitignore"

  datatype IgnoreFetcher = IgnoreFetcher(baseUrl: string)
  {
    /**
     * NameToUrl: the base URL, '/', the name and ".gitignore", whether or
     * not the name already ends with that extension.
     */
    function NameToUrl(name: string): (url: string)
      ensures HasPrefix(url, baseUrl + "/") && HasSuffix(url, Extension)
      ensures |url| == |baseUrl| + 1 + |name| + |Extension|
      ensures url[|baseUrl| + 1..|url| - |Extension|] == name
    {
      baseUrl + "/" + name + Extension
    }

    /** NamesToUrls: one URL per name received, sent in the order the names came. */
    method NamesToUrls(namesChannel: seq<string>) returns (urlsChannel: seq<string>)
      ensures urlsChannel == Map(NameToUrl, namesChannel)
    {
      urlsChannel := [];
      for i := 0 to |namesChannel|
        invariant urlsChannel == Map(NameToUrl, namesChannel[..i])
      {
        var url := NameToUrl(namesChannel[i]);
        urlsChannel := urlsChannel + [url];
        MapSnoc(NameToUrl, namesChannel[..i], namesChannel[i]);
        assert namesChannel[..i] + [namesChannel[i]] == namesChannel[..i + 1];
      }
      assert namesChannel[..|namesChannel|] == namesChannel;
    }
  }

  /** The name a URL of `fetcher` was built from: the part between "base/" and ".gitignore". */
  function NameOfUrl(fetcher: IgnoreFetcher, url: string): string
    requires |url| >= |fetcher.baseUrl| + 1 + |Extension|
  {
    url[|fetcher.baseUrl| + 1..|url| - |Extension|]
  }

  /** The name can be read back from its URL. */
  lemma NameOfNameToUrl(fetcher: IgnoreFetcher, name: string)
    ensures NameOfUrl(fetcher, fetcher.NameToUrl(name)) == name
  {
  }

  /** For a fixed base URL, different names give different URLs. */
  lemma NameToUrlInjective(fetcher: IgnoreFetcher, a: string, b: string)
    requires fetcher.NameToUrl(a) == fetcher.NameToUrl(b)
    ensures a == b
  {
    NameOfNameToUrl(fetcher, a);
    NameOfNameToUrl(fetcher, b);
  }

  /** The names can be read back, in order, from the URLs NamesToUrls sends. */
  lemma UrlsGiveBackNames(fetcher: IgnoreFetcher, names: seq<string>)
    ensures forall i :: 0 <= i < |names| ==> NameOfUrl(fetcher, Map(fetcher.NameToUrl, names)[i]) == names[i]
  {
  }
}
