/** Getting the feed text: each configured CORS proxy in turn, then the feed
    URL itself. The network is an oracle: `fetch(k, u)` is what the k-th
    request, made to `u`, yields (the body when the response arrives within
    the time limit with an ok status, `None` otherwise). */
module FeedRetriever {
  import opened Wrappers

  /** The proxy setting of the site configuration: absent, one proxy, or a list. */
  datatype ProxySetting = NoProxy | OneProxy(proxy: string) | ProxyList(proxies: seq<string>)

  /** The time limit of one request, in milliseconds. */
  const FetchTimeoutMs := 10000

  /** The proxies to try, in order: a copy of a list, a single non-empty
      proxy, or none. */
  function ProxyUrls(setting: ProxySetting): seq<string> {
    match setting
    case NoProxy => []
    case OneProxy(p) => if p == [] then [] else [p]
    case ProxyList(ps) => ps
  }

  predicate EndsWith(s: string, suffix: string) {
    |suffix| <= |s| && s[|s| - |suffix|..] == suffix
  }

  /** The address asked of a proxy: a proxy ending in a scheme takes the
      feed URL as it is, any other takes it encoded as a URI component. */
  function ProxiedUrl(proxy: string, url: string, encode: string -> string): (r: string)
    ensures |proxy| <= |r| && r[..|proxy|] == proxy
    ensures EndsWith(proxy, "http://") || EndsWith(proxy, "https://") ==> r[|proxy|..] == url
    ensures !EndsWith(proxy, "http://") && !EndsWith(proxy, "https://") ==> r[|proxy|..] == encode(url)
  {
    var tail := if EndsWith(proxy, "http://") || EndsWith(proxy, "https://") then url else encode(url);
    assert (proxy + tail)[..|proxy|] == proxy && (proxy + tail)[|proxy|..] == tail;
    proxy + tail
  }

  /** Every address asked, in order: one per proxy, then the feed URL. */
  function Attempts(url: string, setting: ProxySetting, encode: string -> string): (r: seq<string>)
    ensures |r| == |ProxyUrls(setting)| + 1 && r[|r| - 1] == url
    ensures forall k :: 0 <= k < |r| - 1 ==> r[k] == ProxiedUrl(ProxyUrls(setting)[k], url, encode)
  {
    seq(|ProxyUrls(setting)|, k requires 0 <= k < |ProxyUrls(setting)| => ProxiedUrl(ProxyUrls(setting)[k], url, encode)) + [url]
  }

  /** The first answer among the attempts from the k-th on. */
  function FirstAnswer(attempts: seq<string>, k: nat, fetch: (nat, string) -> Option<string>): Option<string>
    requires k <= |attempts|
    decreases |attempts| - k
  {
    if k == |attempts| then None
    else if fetch(k, attempts[k]).Some? then fetch(k, attempts[k])
    else FirstAnswer(attempts, k + 1, fetch)
  }

  /** fetchIcsText as a value: `None` when every attempt failed, the
      direct one included, so that the failure reaches the caller. */
  function Retrieve(url: string, setting: ProxySetting, encode: string -> string,
                    fetch: (nat, string) -> Option<string>): Option<string>
  {
    FirstAnswer(Attempts(url, setting, encode), 0, fetch)
  }

  lemma {:induction false} FirstAnswerSpec(attempts: seq<string>, k: nat, fetch: (nat, string) -> Option<string>)
    requires k <= |attempts|
    ensures FirstAnswer(attempts, k, fetch).None? <==> forall j :: k <= j < |attempts| ==> fetch(j, attempts[j]).None?
    ensures FirstAnswer(attempts, k, fetch).Some? ==>
      exists j :: k <= j < |attempts| && fetch(j, attempts[j]) == FirstAnswer(attempts, k, fetch)
                  && forall m :: k <= m < j ==> fetch(m, attempts[m]).None?
    decreases |attempts| - k
  {
    if k < |attempts| && fetch(k, attempts[k]).None? {
      FirstAnswerSpec(attempts, k + 1, fetch);
      if FirstAnswer(attempts, k + 1, fetch).Some? {
        var j :| k + 1 <= j < |attempts| && fetch(j, attempts[j]) == FirstAnswer(attempts, k + 1, fetch)
                 && forall m :: k + 1 <= m < j ==> fetch(m, attempts[m]).None?;
        assert forall m :: k <= m < j ==> fetch(m, attempts[m]).None?;
      }
    }
  }

  /** The text comes from the first attempt that succeeds; the feed URL
      itself is asked only when every proxy failed; the failure reaches the
      caller only when the direct request failed too. */
  lemma RetrieveFirstSuccess(url: string, setting: ProxySetting, encode: string -> string,
                             fetch: (nat, string) -> Option<string>)
    ensures var attempts := Attempts(url, setting, encode);
            && (Retrieve(url, setting, encode, fetch).None? <==>
                  forall j :: 0 <= j < |attempts| ==> fetch(j, attempts[j]).None?)
            && (Retrieve(url, setting, encode, fetch).Some? ==>
                  exists j :: 0 <= j < |attempts| && fetch(j, attempts[j]) == Retrieve(url, setting, encode, fetch)
                              && forall m :: 0 <= m < j ==> fetch(m, attempts[m]).None?)
  {
    FirstAnswerSpec(Attempts(url, setting, encode), 0, fetch);
  }

  /** Without proxies the feed URL is asked once, directly. */
  lemma DirectOnly(url: string, setting: ProxySetting, encode: string -> string,
                   fetch: (nat, string) -> Option<string>)
    requires setting.NoProxy? || setting == OneProxy([]) || setting == ProxyList([])
    ensures Retrieve(url, setting, encode, fetch) == fetch(0, url)
  {
    var attempts := Attempts(url, setting, encode);
    assert attempts == [url];
    assert FirstAnswer(attempts, 1, fetch) == None;
  }

  /** fetchIcsText: try the proxies in order and return the first text
      obtained; then ask the feed URL itself. */
  method FetchIcsText(url: string, setting: ProxySetting, encode: string -> string,
                      fetch: (nat, string) -> Option<string>) returns (text: Option<string>)
    ensures text == Retrieve(url, setting, encode, fetch)
  {
    var proxies := ProxyUrls(setting);
    ghost var attempts := Attempts(url, setting, encode);
    var k := 0;
    while k < |proxies|
      invariant 0 <= k <= |proxies|
      invariant FirstAnswer(attempts, k, fetch) == Retrieve(url, setting, encode, fetch)
    {
      var proxiedUrl := ProxiedUrl(proxies[k], url, encode);
      var response := fetch(k, proxiedUrl);
      if response.Some? {
        return response;
      }
      k := k + 1;
    }
    text := fetch(|proxies|, url);
  }
}
