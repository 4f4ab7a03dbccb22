/**
 * GET path handling: the leading-slash removal and default document of
 * serveFile (SimpleWebServer.java:109-117), and the allow-list ALLOW_FILES
 * with isAllowFile (SimpleWebServer.java:26, 213-223).
 */
module Paths {
  import opened Text

  const DefaultDocument := "index.html"

  /** ALLOW_FILES */
  const AllowFiles: seq<string> := ["index.html"]

  /** Removes at most one leading '/', then stands the default document in
      for an empty path.  `pathname` is a token, so never empty. */
  function NormalizePath(pathname: string): (r: string)
    requires pathname != []
    ensures r != []
    ensures pathname[0] != '/' ==> r == pathname
    ensures pathname[0] == '/' && pathname != "/" ==> pathname == "/" + r
    ensures pathname == "/" ==> r == DefaultDocument
  {
    var stripped := if pathname[0] == '/' then pathname[1..] else pathname;
    if stripped == [] then DefaultDocument else stripped
  }

  lemma NormalizeExamples()
    ensures NormalizePath("/") == "index.html"
    ensures NormalizePath("//x") == "/x"
    ensures NormalizePath("/index.html") == "index.html"
    ensures NormalizePath("/../etc/passwd") == "../etc/passwd"
  {
    assert "//x"[1..] == "/x";
    assert "/index.html"[1..] == "index.html";
    assert "/../etc/passwd"[1..] == "../etc/passwd";
  }

  /** The trimmed path equals an entry of the allow-list. */
  predicate Allowed(pathname: string) {
    exists i :: 0 <= i < |AllowFiles| && Trim(pathname) == AllowFiles[i]
  }

  /** isAllowFile: a scan of ALLOW_FILES setting a flag on every match. */
  method IsAllowFile(pathname: string) returns (isValid: bool)
    ensures isValid <==> Allowed(pathname)
  {
    isValid := false;
    for i := 0 to |AllowFiles|
      invariant isValid <==> exists j :: 0 <= j < i && Trim(pathname) == AllowFiles[j]
    {
      if Trim(pathname) == AllowFiles[i] {
        isValid := true;
      }
    }
  }

  /** The allowed paths are exactly "index.html" padded on either side with
      characters String.trim removes; nothing else passes, whatever the
      filesystem holds. */
  lemma AllowedIff(pathname: string)
    ensures Allowed(pathname) <==>
      exists lead, trail :: AllTrimmable(lead) && AllTrimmable(trail) && pathname == lead + DefaultDocument + trail
  {
    if Allowed(pathname) {
      assert Trim(pathname) == DefaultDocument;
    }
    if exists lead, trail :: AllTrimmable(lead) && AllTrimmable(trail) && pathname == lead + DefaultDocument + trail {
      var lead, trail :| AllTrimmable(lead) && AllTrimmable(trail) && pathname == lead + DefaultDocument + trail;
      TrimOfPadded(lead, DefaultDocument, trail);
      assert Trim(pathname) == AllowFiles[0];
    }
  }

  lemma TraversalDenied()
    ensures !Allowed("../etc/passwd")
    ensures !Allowed("/index.html")
    ensures !Allowed("access.log")
  {
    TrimOfPadded([], "../etc/passwd", []);
    assert [] + "../etc/passwd" + [] == "../etc/passwd";
    TrimOfPadded([], "/index.html", []);
    assert [] + "/index.html" + [] == "/index.html";
    TrimOfPadded([], "access.log", []);
    assert [] + "access.log" + [] == "access.log";
  }

  /** The check is on the trimmed path, but the file later opened is the
      untrimmed one: "index.html" followed by a tab passes. */
  lemma TrimmedNameIsAllowed()
    ensures Allowed("index.html\t") && "index.html\t" != DefaultDocument
  {
    TrimOfPadded([], DefaultDocument, "\t");
    assert [] + DefaultDocument + "\t" == "index.html\t";
    assert Trim("index.html\t") == AllowFiles[0];
  }
}
