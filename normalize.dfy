/**
  `normalize_url`: canonicalises a URL that has been split into the six
  components `urlparse` yields. The scheme and the whole netloc (userinfo,
  host and port alike) are lower-cased, a `:80` suffix is dropped under
  `http` and a `:443` suffix under `https`, path and params pass through,
  the parsed query pairs are sorted and the fragment is always emptied.
 */
module Normalize {
  import opened Text
  import opened QuerySort

  /**
    A URL as `urlparse` splits it, with the query already parsed into its
    key/value pairs (`parse_qsl`). Joining the components back into one string
    (`urlunparse`, `urlencode`) is not modelled: equal components stand for
    equal strings.
   */
  datatype Url = Url(
    scheme: string,
    netloc: string,
    path: string,
    params: string,
    query: seq<Pair>,
    fragment: string)

  /** The netloc carries the default port of the (already lower-cased) scheme. */
  predicate HasDefaultPort(scheme: string, netloc: string) {
    (scheme == "http" && EndsWith(netloc, ":80")) || (scheme == "https" && EndsWith(netloc, ":443"))
  }

  /** Removes one default-port suffix, testing `http` before `https`. */
  function StripDefaultPort(scheme: string, netloc: string): string {
    if scheme == "http" && EndsWith(netloc, ":80") then
      netloc[..|netloc| - 3]
    else if scheme == "https" && EndsWith(netloc, ":443") then
      netloc[..|netloc| - 4]
    else
      netloc
  }

  /**
    The suffix comes off exactly when it is the scheme's default port, and
    then what remains followed by that suffix is the original netloc.
   */
  lemma StripDefaultPortSpec(scheme: string, netloc: string)
    ensures var r := StripDefaultPort(scheme, netloc);
      && (scheme == "http" && EndsWith(netloc, ":80") ==> r + ":80" == netloc)
      && (scheme == "https" && EndsWith(netloc, ":443") ==> r + ":443" == netloc)
      && (!HasDefaultPort(scheme, netloc) ==> r == netloc)
      && r <= netloc
  {
    var r := StripDefaultPort(scheme, netloc);
    if scheme == "http" && EndsWith(netloc, ":80") {
      assert r == netloc[..|netloc| - 3];
      assert netloc == r + netloc[|netloc| - 3..];
    } else if scheme == "https" && EndsWith(netloc, ":443") {
      assert r == netloc[..|netloc| - 4];
      assert netloc == r + netloc[|netloc| - 4..];
    } else {
      assert r == netloc;
    }
  }

  function NormalizeUrl(u: Url): Url {
    var scheme := Lower(u.scheme);
    var netloc := StripDefaultPort(scheme, Lower(u.netloc));
    Url(scheme, netloc, u.path, u.params, SortPairs(u.query), "")
  }

  /**
    What normalisation guarantees: scheme and netloc lower-cased, the netloc
    shortened exactly when it carried the scheme's default port, path and
    params untouched, the query pairs sorted and otherwise unchanged, and
    the fragment empty.
   */
  lemma NormalizeUrlShape(u: Url)
    ensures var r := NormalizeUrl(u);
      && r.scheme == Lower(u.scheme)
      && (r.netloc != Lower(u.netloc) <==> HasDefaultPort(r.scheme, Lower(u.netloc)))
      && r.netloc <= Lower(u.netloc)
      && !HasUpper(r.scheme) && !HasUpper(r.netloc)
      && r.path == u.path && r.params == u.params
      && Sorted(r.query) && multiset(r.query) == multiset(u.query)
      && r.fragment == ""
  {
    var n := Lower(u.netloc);
    NoUpperPrefix(n, |StripDefaultPort(Lower(u.scheme), n)|);
    SortPairsSortsAndPermutes(u.query);
  }

  /**
    Two URLs normalise to the same value exactly when their lower-cased
    schemes agree, their lower-cased netlocs agree once a default port is
    stripped, path and params agree and the query holds the same pairs.
    The fragment plays no part.
   */
  lemma NormalizeEqualIff(u: Url, v: Url)
    ensures NormalizeUrl(u) == NormalizeUrl(v) <==>
      && Lower(u.scheme) == Lower(v.scheme)
      && StripDefaultPort(Lower(u.scheme), Lower(u.netloc)) == StripDefaultPort(Lower(v.scheme), Lower(v.netloc))
      && u.path == v.path && u.params == v.params
      && multiset(u.query) == multiset(v.query)
  {
    SortPairsCanonical(u.query, v.query);
  }

  /** Letter case of scheme and netloc, query-pair order and the fragment do not matter. */
  lemma NormalizeIgnoresCaseOrderAndFragment(u: Url, v: Url)
    requires Lower(u.scheme) == Lower(v.scheme) && Lower(u.netloc) == Lower(v.netloc)
    requires u.path == v.path && u.params == v.params
    requires multiset(u.query) == multiset(v.query)
    ensures NormalizeUrl(u) == NormalizeUrl(v)
  {
    NormalizeEqualIff(u, v);
  }

  /** The default port of the scheme, as the normaliser spells it. */
  function DefaultPortSuffix(scheme: string): string {
    if scheme == "http" then ":80" else if scheme == "https" then ":443" else ""
  }

  /**
    Writing the default port explicitly makes no difference (`http://h:80/x`
    and `http://h/x`), provided the netloc did not already end in it.
   */
  lemma DefaultPortElided(u: Url)
    requires Lower(u.scheme) == "http" || Lower(u.scheme) == "https"
    requires !EndsWith(Lower(u.netloc), DefaultPortSuffix(Lower(u.scheme)))
    ensures NormalizeUrl(u.(netloc := u.netloc + DefaultPortSuffix(Lower(u.scheme)))) == NormalizeUrl(u)
  {
    var scheme := Lower(u.scheme);
    var port := DefaultPortSuffix(scheme);
    LowerAppend(u.netloc, port);
    LowerFixesLowerCase(port);
    StripAppendedDefaultPort(scheme, Lower(u.netloc));
  }

  /** Appending the scheme's default port and stripping it gives back the netloc unchanged. */
  lemma StripAppendedDefaultPort(scheme: string, n: string)
    requires scheme == "http" || scheme == "https"
    requires !EndsWith(n, DefaultPortSuffix(scheme))
    ensures StripDefaultPort(scheme, n + DefaultPortSuffix(scheme)) == StripDefaultPort(scheme, n) == n
  {
    var port := DefaultPortSuffix(scheme);
    assert (n + port)[|n + port| - |port|..] == port;
    assert (n + port)[..|n + port| - |port|] == n;
  }

  /** A port other than the scheme's default (`:8080`, or `:443` under `http`) is kept. */
  lemma OtherPortKept(u: Url)
    requires !HasDefaultPort(Lower(u.scheme), Lower(u.netloc))
    ensures NormalizeUrl(u).netloc == Lower(u.netloc)
  {
    NormalizeUrlShape(u);
  }

  /**
    A second pass changes nothing unless the once-normalised netloc still ends
    in the default port, as `h:80:80` under `http` does.
   */
  lemma NormalizeIdempotentIff(u: Url)
    ensures NormalizeUrl(NormalizeUrl(u)) == NormalizeUrl(u) <==> !HasDefaultPort(Lower(u.scheme), NormalizeUrl(u).netloc)
  {
    var r := NormalizeUrl(u);
    NormalizeUrlShape(u);
    LowerFixesLowerCase(r.scheme);
    LowerFixesLowerCase(r.netloc);
    SortPairsOfSorted(r.query);
  }

  /**
    The URLs normalisation leaves alone are exactly those already in normal
    form: lower-case scheme and netloc, no default port, sorted query pairs
    and an empty fragment.
   */
  lemma NormalizeFixpointIff(u: Url)
    ensures NormalizeUrl(u) == u <==>
      && !HasUpper(u.scheme) && !HasUpper(u.netloc)
      && !HasDefaultPort(u.scheme, u.netloc)
      && Sorted(u.query) && u.fragment == ""
  {
    NormalizeUrlShape(u);
    if !HasUpper(u.scheme) && !HasUpper(u.netloc) {
      LowerFixesLowerCase(u.scheme);
      LowerFixesLowerCase(u.netloc);
      StripDefaultPortSpec(u.scheme, u.netloc);
      if Sorted(u.query) {
        SortPairsOfSorted(u.query);
      }
    }
  }

  /** A second pass strips the once-normalised netloc again under the same (lower-case) scheme. */
  lemma RenormalizeNetloc(u: Url)
    ensures NormalizeUrl(NormalizeUrl(u)).netloc == StripDefaultPort(Lower(u.scheme), NormalizeUrl(u).netloc)
  {
    NormalizeUrlShape(u);
    LowerFixesLowerCase(NormalizeUrl(u).scheme);
    LowerFixesLowerCase(NormalizeUrl(u).netloc);
  }

  /** Under `http`, a netloc ending in `:80:80` loses one `:80` per strip. */
  lemma StripDoubledHttpPort(n: string)
    requires EndsWith(n, ":80:80")
    ensures StripDefaultPort("http", n) == n[..|n| - 3]
    ensures StripDefaultPort("http", StripDefaultPort("http", n)) == n[..|n| - 6]
  {
    var once := n[..|n| - 3];
    assert EndsWith(n, ":80") by {
      assert n[|n| - 3..] == n[|n| - 6..][3..];
    }
    assert EndsWith(once, ":80") by {
      assert once[|once| - 3..] == n[|n| - 6..|n| - 3];
    }
    assert once[..|once| - 3] == n[..|n| - 6];
  }

  /**
    The exception to idempotence: under `http` a netloc ending in `:80:80`
    (`h:80:80`) loses one suffix per pass, so a second pass changes it again.
   */
  lemma DoubledDefaultPortShrinksTwice(u: Url)
    requires Lower(u.scheme) == "http"
    requires EndsWith(Lower(u.netloc), ":80:80")
    ensures NormalizeUrl(NormalizeUrl(u)) != NormalizeUrl(u)
    ensures NormalizeUrl(NormalizeUrl(u)).netloc + ":80:80" == Lower(u.netloc)
  {
    var n := Lower(u.netloc);
    StripDoubledHttpPort(n);
    RenormalizeNetloc(u);
    assert NormalizeUrl(u).netloc == n[..|n| - 3];
    assert NormalizeUrl(NormalizeUrl(u)).netloc == n[..|n| - 6];
    assert n == n[..|n| - 6] + n[|n| - 6..];
  }
}
