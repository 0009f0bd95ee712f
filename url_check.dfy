/** The argument check `http_url` that both launchers apply to their URL argument. */
module UrlCheck {
  import opened Wrappers
  import opened Strings

  /** Starts with `http://`, `https://` or `ext+container:`, or has no `://` at all. */
  predicate Accepted(url: string) {
    || StartsWith(url, "http://")
    || StartsWith(url, "https://")
    || StartsWith(url, "ext+container:")
    || !Contains(url, "://")
  }

  /** A pattern whose first character does not appear in `s` does not occur in it. */
  lemma AbsentFirstChar(s: string, pat: string)
    requires pat != "" && pat[0] !in s
    ensures !Contains(s, pat)
  {
    forall i | 0 <= i <= |s| - |pat| ensures !OccursAt(s, pat, i) {
      assert s[i] in s;
    }
  }

  /** `://` first occurs right after a colon-free prefix `scheme` followed by `://`. */
  lemma SeparatorAfter(url: string, scheme: string)
    requires StartsWith(url, scheme + "://") && ':' !in scheme
    ensures IndexOf(url, "://") == Some(|scheme|) && url[..|scheme|] == scheme
  {
    var n := |scheme|;
    assert url[..n + 3] == scheme + "://";
    assert url[..n] == url[..n + 3][..n];
    assert url[n..n + 3] == url[..n + 3][n..];
    assert OccursAt(url, "://", n);
    forall j | 0 <= j < n ensures !OccursAt(url, "://", j) {
      assert url[j] == url[..n][j] == scheme[j];
    }
  }

  /**
   * An accepted URL that has a `://` separator is an `ext+container:` URL,
   * or the text before its first `://` is exactly `http` or `https`.
   */
  lemma AcceptedSchemes(url: string)
    requires Accepted(url) && Contains(url, "://")
    ensures || StartsWith(url, "ext+container:")
            || (IndexOf(url, "://") == Some(4) && url[..4] == "http")
            || (IndexOf(url, "://") == Some(5) && url[..5] == "https")
  {
    if StartsWith(url, "http://") {
      SeparatorAfter(url, "http");
    } else if StartsWith(url, "https://") {
      SeparatorAfter(url, "https");
    }
  }

  /** Other schemes, and upper-case spellings of the accepted ones, are refused. */
  lemma RefusedExamples()
    ensures !Accepted("ftp://example.com/")
    ensures !Accepted("HTTP://example.com/")
    ensures Accepted("example.com/page")
  {
    var ftp, upper := "ftp://example.com/", "HTTP://example.com/";
    assert ftp[..7][0] == 'f' && ftp[..8][0] == 'f' && ftp[..14][0] == 'f';
    assert OccursAt(ftp, "://", 3);
    assert upper[..7][0] == 'H' && upper[..8][0] == 'H' && upper[..14][0] == 'H';
    assert OccursAt(upper, "://", 4);
    AbsentFirstChar("example.com/page", "://");
  }
}
