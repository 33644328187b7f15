/**
  `get_links`: fetch the seed page, normalise every anchor target and keep
  those whose normalised netloc equals the seed's netloc as `urlparse` gave
  it (not normalised). Document order is kept, duplicates are kept, and any
  `RequestException` (including the one `raise_for_status` raises for a
  non-success status) yields the empty list.
 */
module Links {
  import opened Text
  import opened Normalize

  /**
    What the HTTP request and the HTML parser hand to the filtering loop: the
    anchor targets in document order, each already resolved against the seed
    (`urljoin`) and split (`urlparse`), or the fact that a `RequestException`
    was raised.
   */
  datatype FetchOutcome = Fetched(anchors: seq<Url>) | RequestFailed

  /** Every anchor target normalised, position by position. */
  function NormalizeAll(anchors: seq<Url>): seq<Url> {
    seq(|anchors|, i requires 0 <= i < |anchors| => NormalizeUrl(anchors[i]))
  }

  /** The URLs of `urls` whose netloc is exactly `seedNetloc`, in their original order. */
  function OnDomain(seedNetloc: string, urls: seq<Url>): seq<Url> {
    if urls == [] then []
    else (if urls[0].netloc == seedNetloc then [urls[0]] else []) + OnDomain(seedNetloc, urls[1..])
  }

  /** The same-domain links among `anchors`: normalise each, keep those on the seed's netloc. */
  function SameDomainLinks(seedNetloc: string, anchors: seq<Url>): seq<Url> {
    OnDomain(seedNetloc, NormalizeAll(anchors))
  }

  /** What `get_links` returns for a seed netloc and the outcome of fetching the seed page. */
  function LinksOf(seedNetloc: string, fetched: FetchOutcome): seq<Url> {
    match fetched
    case RequestFailed => []
    case Fetched(anchors) => SameDomainLinks(seedNetloc, anchors)
  }

  lemma {:induction false} OnDomainAppend(seedNetloc: string, a: seq<Url>, b: seq<Url>)
    ensures OnDomain(seedNetloc, a + b) == OnDomain(seedNetloc, a) + OnDomain(seedNetloc, b)
  {
    if a == [] {
      assert a + b == b;
    } else {
      assert (a + b)[1..] == a[1..] + b;
      OnDomainAppend(seedNetloc, a[1..], b);
    }
  }

  method GetLinks(seed: Url, fetched: FetchOutcome) returns (links: seq<Url>)
    ensures links == LinksOf(seed.netloc, fetched)
  {
    match fetched
    case RequestFailed =>
      links := [];
    case Fetched(anchors) =>
      var baseDomain := seed.netloc;
      ghost var normalized := NormalizeAll(anchors);
      links := [];
      for i := 0 to |anchors|
        invariant links == OnDomain(baseDomain, normalized[..i])
      {
        var fullUrl := NormalizeUrl(anchors[i]);
        if fullUrl.netloc == baseDomain {
          links := links + [fullUrl];
        }
        assert normalized[..i + 1] == normalized[..i] + [fullUrl];
        OnDomainAppend(baseDomain, normalized[..i], [fullUrl]);
      }
      assert normalized[..|anchors|] == normalized;
  }

  /** The positions from `from` on whose URL lies on `seedNetloc`, in increasing order. */
  function KeptFrom(seedNetloc: string, urls: seq<Url>, from: nat): seq<nat>
    requires from <= |urls|
    decreases |urls| - from
  {
    if from == |urls| then []
    else (if urls[from].netloc == seedNetloc then [from] else []) + KeptFrom(seedNetloc, urls, from + 1)
  }

  /** The positions of the anchors `get_links` keeps. */
  function KeptPositions(seedNetloc: string, anchors: seq<Url>): seq<nat> {
    KeptFrom(seedNetloc, NormalizeAll(anchors), 0)
  }

  lemma {:induction false} KeptFromOrdered(seedNetloc: string, urls: seq<Url>, from: nat)
    requires from <= |urls|
    ensures forall k :: 0 <= k < |KeptFrom(seedNetloc, urls, from)| ==> from <= KeptFrom(seedNetloc, urls, from)[k] < |urls|
    ensures forall k, l :: 0 <= k < l < |KeptFrom(seedNetloc, urls, from)| ==>
      KeptFrom(seedNetloc, urls, from)[k] < KeptFrom(seedNetloc, urls, from)[l]
    decreases |urls| - from
  {
    if from < |urls| {
      KeptFromOrdered(seedNetloc, urls, from + 1);
      var tail := KeptFrom(seedNetloc, urls, from + 1);
      var head: seq<nat> := if urls[from].netloc == seedNetloc then [from] else [];
      var ks := head + tail;
      assert ks == KeptFrom(seedNetloc, urls, from);
      forall k | 0 <= k < |ks|
        ensures from <= ks[k] < |urls|
      {
        if k >= |head| {
          assert ks[k] == tail[k - |head|];
        }
      }
      forall k, l | 0 <= k < l < |ks|
        ensures ks[k] < ks[l]
      {
        assert ks[l] == tail[l - |head|];
        if k >= |head| {
          assert ks[k] == tail[k - |head|];
        }
      }
    }
  }

  lemma {:induction false} KeptFromMembers(seedNetloc: string, urls: seq<Url>, from: nat)
    requires from <= |urls|
    ensures forall i: nat :: from <= i < |urls| ==> (i in KeptFrom(seedNetloc, urls, from) <==> urls[i].netloc == seedNetloc)
    decreases |urls| - from
  {
    if from < |urls| {
      KeptFromMembers(seedNetloc, urls, from + 1);
      KeptFromOrdered(seedNetloc, urls, from + 1);
    }
  }

  lemma {:induction false} KeptFromSelects(seedNetloc: string, urls: seq<Url>, from: nat)
    requires from <= |urls|
    ensures |OnDomain(seedNetloc, urls[from..])| == |KeptFrom(seedNetloc, urls, from)|
    ensures forall k :: 0 <= k < |KeptFrom(seedNetloc, urls, from)| ==>
      0 <= KeptFrom(seedNetloc, urls, from)[k] < |urls| && OnDomain(seedNetloc, urls[from..])[k] == urls[KeptFrom(seedNetloc, urls, from)[k]]
    decreases |urls| - from
  {
    if from < |urls| {
      KeptFromSelects(seedNetloc, urls, from + 1);
      KeptFromOrdered(seedNetloc, urls, from + 1);
      assert urls[from..][1..] == urls[from + 1..];
    }
  }

  /**
    The result holds exactly the normalised anchors at the kept positions, one
    entry per position (no deduplication), in document order; a position is
    kept exactly when its normalised netloc equals the seed netloc.
   */
  lemma SameDomainLinksExact(seedNetloc: string, anchors: seq<Url>)
    ensures |SameDomainLinks(seedNetloc, anchors)| == |KeptPositions(seedNetloc, anchors)|
    ensures forall k :: 0 <= k < |KeptPositions(seedNetloc, anchors)| ==>
      KeptPositions(seedNetloc, anchors)[k] < |anchors| &&
      SameDomainLinks(seedNetloc, anchors)[k] == NormalizeUrl(anchors[KeptPositions(seedNetloc, anchors)[k]])
    ensures forall k, l :: 0 <= k < l < |KeptPositions(seedNetloc, anchors)| ==>
      KeptPositions(seedNetloc, anchors)[k] < KeptPositions(seedNetloc, anchors)[l]
    ensures forall i: nat :: i < |anchors| ==>
      (i in KeptPositions(seedNetloc, anchors) <==> NormalizeUrl(anchors[i]).netloc == seedNetloc)
  {
    var urls := NormalizeAll(anchors);
    KeptFromOrdered(seedNetloc, urls, 0);
    KeptFromMembers(seedNetloc, urls, 0);
    KeptFromSelects(seedNetloc, urls, 0);
    assert urls[0..] == urls;
  }

  lemma {:induction false} OnDomainBound(seedNetloc: string, urls: seq<Url>)
    ensures |OnDomain(seedNetloc, urls)| <= |urls|
  {
    if urls != [] {
      OnDomainBound(seedNetloc, urls[1..]);
    }
  }

  /** No more links than anchors. */
  lemma SameDomainLinksBound(seedNetloc: string, anchors: seq<Url>)
    ensures |SameDomainLinks(seedNetloc, anchors)| <= |anchors|
  {
    OnDomainBound(seedNetloc, NormalizeAll(anchors));
  }

  /** Every kept link is a normalised anchor on the seed's netloc, and every such anchor is kept. */
  lemma SameDomainLinksMembers(seedNetloc: string, anchors: seq<Url>, x: Url)
    ensures x in SameDomainLinks(seedNetloc, anchors) <==>
      x.netloc == seedNetloc && exists i :: 0 <= i < |anchors| && NormalizeUrl(anchors[i]) == x
  {
    SameDomainLinksExact(seedNetloc, anchors);
    var r, ks := SameDomainLinks(seedNetloc, anchors), KeptPositions(seedNetloc, anchors);
    if x in r {
      var k :| 0 <= k < |r| && r[k] == x;
      assert NormalizeUrl(anchors[ks[k]]) == x;
    }
    if x.netloc == seedNetloc && exists i :: 0 <= i < |anchors| && NormalizeUrl(anchors[i]) == x {
      var i :| 0 <= i < |anchors| && NormalizeUrl(anchors[i]) == x;
      assert (i as nat) in ks;
      var k :| 0 <= k < |ks| && ks[k] == i;
      assert r[k] == x;
    }
  }

  /** A seed netloc with an upper-case letter matches no link: normalised netlocs are lower-case. */
  lemma UpperCaseSeedMatchesNothing(seedNetloc: string, anchors: seq<Url>)
    requires HasUpper(seedNetloc)
    ensures SameDomainLinks(seedNetloc, anchors) == []
  {
    var r := SameDomainLinks(seedNetloc, anchors);
    if r != [] {
      SameDomainLinksMembers(seedNetloc, anchors, r[0]);
      var i :| 0 <= i < |anchors| && NormalizeUrl(anchors[i]) == r[0];
      NormalizeUrlShape(anchors[i]);
      assert false;
    }
  }

  /**
    A seed netloc carrying the default port of a kept link's own scheme is
    only matched by a link that a second normalisation would still shorten (a
    doubled suffix such as `h:443:443` under `https`). A link under the other
    scheme is not covered: the seed `h:443` still keeps `http://h:443/p`,
    since `:443` is not the default port of `http`.
   */
  lemma DefaultPortSeedMatchesOnlyDoubledPorts(seedNetloc: string, anchors: seq<Url>, x: Url)
    requires x in SameDomainLinks(seedNetloc, anchors)
    requires HasDefaultPort(x.scheme, seedNetloc)
    ensures NormalizeUrl(x) != x
  {
    SameDomainLinksMembers(seedNetloc, anchors, x);
    var i :| 0 <= i < |anchors| && NormalizeUrl(anchors[i]) == x;
    NormalizeUrlShape(anchors[i]);
    NormalizeIdempotentIff(anchors[i]);
  }
}
