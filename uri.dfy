/** Conversion between project-relative paths and `file://` URIs. The
    project path is absolute and ends with "/"; percent-encoding by the path
    library and the decoding that undoes it cancel out. Local paths are
    taken in the normal form the path library would give them (relative,
    no `.` or empty segments, no trailing "/"), so joining them is
    concatenation. */
module Uri {

  const URI_PREFIX: string := "file://"
  const LEN_URI_PREFIX: nat := 7

  /** `local_to_uri`: the absolute path behind the scheme prefix. */
  function LocalToUri(projectPath: string, local: string): (uri: string)
    ensures |uri| == LEN_URI_PREFIX + |projectPath| + |local|
    ensures uri[..LEN_URI_PREFIX] == URI_PREFIX
    ensures uri[LEN_URI_PREFIX..LEN_URI_PREFIX + |projectPath|] == projectPath
  {
    URI_PREFIX + projectPath + local
  }

  /** `uri_to_local`: drop as many leading characters as the prefix and the
      project path have together; a shorter URI gives the empty path, as a
      Python slice past the end does. */
  function UriToLocal(projectPath: string, uri: string): (local: string)
    ensures |uri| >= LEN_URI_PREFIX + |projectPath| ==> |local| == |uri| - LEN_URI_PREFIX - |projectPath|
    ensures |uri| < LEN_URI_PREFIX + |projectPath| ==> local == ""
  {
    var n := LEN_URI_PREFIX + |projectPath|;
    if |uri| <= n then "" else uri[n..]
  }

  /** A URI made from a path converts back to that path. */
  lemma UriToLocalOfLocalToUri(projectPath: string, local: string)
    ensures UriToLocal(projectPath, LocalToUri(projectPath, local)) == local
  {
    var uri := LocalToUri(projectPath, local);
    assert uri[LEN_URI_PREFIX + |projectPath|..] == local;
  }

  /** A URI inside the project converts to a path that converts back to it. */
  lemma LocalToUriOfUriToLocal(projectPath: string, uri: string)
    requires |uri| >= LEN_URI_PREFIX + |projectPath|
    requires uri[..LEN_URI_PREFIX + |projectPath|] == URI_PREFIX + projectPath
    ensures LocalToUri(projectPath, UriToLocal(projectPath, uri)) == uri
  {
    var n := LEN_URI_PREFIX + |projectPath|;
    assert uri == uri[..n] + uri[n..];
  }

  /** Distinct paths have distinct URIs, so per-path state keyed by URI and
      per-path state keyed by path agree. */
  lemma LocalToUriInjective(projectPath: string, a: string, b: string)
    requires LocalToUri(projectPath, a) == LocalToUri(projectPath, b)
    ensures a == b
  {
    UriToLocalOfLocalToUri(projectPath, a);
    UriToLocalOfLocalToUri(projectPath, b);
  }
}
