/** Resolving a static asset against the site's base path (`img` in src/App.jsx). */
module AssetPath {

  predicate StartsWithSlash(s: string) {
    |s| > 0 && s[0] == '/'
  }

  predicate AllSlashes(s: string) {
    forall i :: 0 <= i < |s| ==> s[i] == '/'
  }

  /** Length of the run of `/` at the head of `s`: what `/^\/+/` matches, or 0 when it does not. */
  function LeadingSlashes(s: string): (n: nat)
    ensures n <= |s|
    ensures AllSlashes(s[..n])
    ensures !StartsWithSlash(s[n..])
  {
    if StartsWithSlash(s) then 1 + LeadingSlashes(s[1..]) else 0
  }

  /** `p.replace(/^\/+/, "")`: the regular expression is anchored and has no `g` flag,
      so it removes the whole leading run of `/` and nothing else. */
  function StripLeadingSlashes(p: string): (r: string)
    ensures |r| <= |p| && r == p[|p| - |r|..]
    ensures AllSlashes(p[..|p| - |r|])
    ensures !StartsWithSlash(r)
  {
    p[LeadingSlashes(p)..]
  }

  /** `img(p)`: the base path followed by `p` without its leading slashes. */
  function Img(base: string, p: string): (r: string)
    ensures |base| <= |r| <= |base| + |p|
    ensures r[..|base|] == base
    ensures !StartsWithSlash(r[|base|..])
    ensures r[|base|..] == p[|p| - (|r| - |base|)..]
    ensures AllSlashes(p[..|p| - (|r| - |base|)])
  {
    base + StripLeadingSlashes(p)
  }

  /** Any split of `p` into a run of slashes and a rest that does not start with `/`
      is the one `StripLeadingSlashes` finds. */
  lemma {:induction false} StripUnique(slashes: string, rest: string)
    requires AllSlashes(slashes)
    requires !StartsWithSlash(rest)
    ensures StripLeadingSlashes(slashes + rest) == rest
  {
    if slashes != [] {
      assert (slashes + rest)[1..] == slashes[1..] + rest;
      StripUnique(slashes[1..], rest);
    } else {
      assert slashes + rest == rest;
    }
  }

  /** `img` is exactly "base, then the rest of the path once its leading slashes are gone". */
  lemma ImgCharacterized(base: string, slashes: string, rest: string)
    requires AllSlashes(slashes)
    requires !StartsWithSlash(rest)
    ensures Img(base, slashes + rest) == base + rest
  {
    StripUnique(slashes, rest);
  }

  /** A leading slash makes no difference: `img("/x") == img("x")`. */
  lemma ImgIgnoresLeadingSlash(base: string, p: string)
    ensures Img(base, "/" + p) == Img(base, p)
  {
    var k := LeadingSlashes(p);
    assert p == p[..k] + p[k..];
    assert "/" + p == ("/" + p[..k]) + p[k..];
    ImgCharacterized(base, "/" + p[..k], p[k..]);
    ImgCharacterized(base, p[..k], p[k..]);
  }

  /** Resolving the part after the base a second time changes nothing. */
  lemma ImgIdempotent(base: string, p: string)
    ensures Img(base, Img(base, p)[|base|..]) == Img(base, p)
  {
    var rest := StripLeadingSlashes(p);
    assert Img(base, p)[|base|..] == rest;
    ImgCharacterized(base, [], rest);
    assert [] + rest == rest;
  }

  /** The background asset: `img("novios.jpg")` under base `/` is `/novios.jpg`. */
  lemma BackgroundAsset()
    ensures Img("/", "novios.jpg") == "/novios.jpg"
  {
  }
}
