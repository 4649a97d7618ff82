/** The mapping from a URL's external form to the file that caches it
    (`Downloader.filenameForURL`). */
module CacheNames {

  /** The cache's sub-directory under the data-file store. */
  const Directory := "GA Viewer Cache"

  /** `File.separator`; fixed to the POSIX value in this model. */
  const Separator: char := '/'

  /** The characters the sanitising expression class `[\/:*?"<>|]` matches.
      The class escapes the slash, so the backslash itself is not in it. */
  predicate IsReplaced(c: char) {
    c in {'/', ':', '*', '?', '"', '<', '>', '|'}
  }

  /** `replaceAll("[\\/:*?\"<>|]", "_")`, one character at a time. */
  function Sanitize(s: string): (r: string)
    ensures |r| == |s|
    ensures forall i :: 0 <= i < |s| ==> (IsReplaced(s[i]) ==> r[i] == '_') && (!IsReplaced(s[i]) ==> r[i] == s[i])
  {
    if |s| == 0 then [] else [if IsReplaced(s[0]) then '_' else s[0]] + Sanitize(s[1..])
  }

  /** The cache file name for a URL whose external form is `external`. */
  function FilenameForUrl(external: string): (r: string)
    ensures |r| == |Directory| + 1 + |external|
    ensures r[..|Directory|] == Directory && r[|Directory|] == Separator
    ensures forall i :: 0 <= i < |external| ==>
      r[|Directory| + 1 + i] == (if IsReplaced(external[i]) then '_' else external[i])
  {
    Directory + [Separator] + Sanitize(external)
  }

  /** No character the expression targets survives sanitising. */
  lemma SanitizedHasNoReplacedChar(s: string)
    ensures forall i :: 0 <= i < |Sanitize(s)| ==> !IsReplaced(Sanitize(s)[i])
  {
  }

  /** A string without targeted characters is its own sanitised form. */
  lemma {:induction false} SanitizeFixesClean(s: string)
    requires forall i :: 0 <= i < |s| ==> !IsReplaced(s[i])
    ensures Sanitize(s) == s
  {
    if |s| > 0 {
      SanitizeFixesClean(s[1..]);
    }
  }

  /** Sanitising is idempotent. */
  lemma SanitizeIdempotent(s: string)
    ensures Sanitize(Sanitize(s)) == Sanitize(s)
  {
    SanitizedHasNoReplacedChar(s);
    SanitizeFixesClean(Sanitize(s));
  }

  /** The file-name part of a cache name, after the directory and its
      separator, is already sanitised: sanitising it again changes nothing. */
  lemma FilenameTailIsStable(external: string)
    ensures Sanitize(FilenameForUrl(external)[|Directory| + 1..]) == FilenameForUrl(external)[|Directory| + 1..]
  {
    assert FilenameForUrl(external)[|Directory| + 1..] == Sanitize(external);
    SanitizeIdempotent(external);
  }

  /** Backslashes pass through unchanged, although the comment in Downloader.java lists them. */
  lemma BackslashIsKept()
    ensures Sanitize("a\\b") == "a\\b"
  {
    SanitizeFixesClean("a\\b");
  }

  /** Distinct URLs can share a cache file: the mapping is not injective. */
  lemma DistinctUrlsCanCollide()
    ensures "a:b" != "a_b"
    ensures FilenameForUrl("a:b") == FilenameForUrl("a_b")
  {
    var u, v := "a:b", "a_b";
    assert u[1] != v[1];
    assert !IsReplaced(u[0]) && IsReplaced(u[1]) && !IsReplaced(u[2]);
    assert Sanitize(u) == Sanitize(v);
  }
}
