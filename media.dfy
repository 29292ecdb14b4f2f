/** `resolveMediaUrl` of frontend/src/lib/media.js: turn a stored media
    reference into an address the browser can load. Absolute addresses
    (anything starting with "http", including "httpx...") and data URLs pass
    through; anything else is a path on the backend. The configured backend
    address (`VITE_API_URL`) is a parameter. */
module Media {
  import opened Common

  const DefaultBackend: string := "http://localhost:5000"

  /** Lines 3 and 5: the url is used as it is. */
  predicate IsAbsolute(url: string) {
    StartsWith(url, "http") || StartsWith(url, "data:")
  }

  /** Line 5: the configured backend, or the default one when it is unset or
      empty. */
  function Backend(configured: Option<string>): (b: string)
    ensures OptTruthy(configured) ==> b == configured.value
    ensures !OptTruthy(configured) ==> b == DefaultBackend
    ensures b != ""
  {
    if OptTruthy(configured) then configured.value else DefaultBackend
  }

  /** Lines 1-9. */
  function ResolveMediaUrl(url: Option<string>, configured: Option<string>): (r: string)
    ensures r == "" <==> !OptTruthy(url)
    ensures OptTruthy(url) && IsAbsolute(url.value) ==> r == url.value
    ensures OptTruthy(url) && !IsAbsolute(url.value) ==>
      var b := Backend(configured);
      && StartsWith(r, b)
      && r[|b|..] == (if StartsWith(url.value, "/") then url.value else "/" + url.value)
  {
    if !OptTruthy(url) then ""
    else if IsAbsolute(url.value) then url.value
    else
      var p := if StartsWith(url.value, "/") then url.value else "/" + url.value;
      var b := Backend(configured);
      assert (b + p)[..|b|] == b;
      b + p
  }

  /** A relative path resolves the same with or without its leading slash. */
  lemma {:induction false} LeadingSlashOptional(a: string, configured: Option<string>)
    requires a != "" && !IsAbsolute(a) && !StartsWith(a, "/")
    ensures ResolveMediaUrl(Some(a), configured) == ResolveMediaUrl(Some("/" + a), configured)
  {
    var s := "/" + a;
    assert StartsWith(s, "/");
    assert !StartsWith(s, "http") && !StartsWith(s, "data:") by {
      assert s[0] == '/';
    }
  }

  /** Resolving an address twice gives the same as resolving it once, when
      the backend address is itself absolute (as the default one is). */
  lemma {:induction false} ResolveIdempotent(url: Option<string>, configured: Option<string>)
    requires StartsWith(Backend(configured), "http")
    ensures var once := ResolveMediaUrl(url, configured);
      ResolveMediaUrl(Some(once), configured) == once
  {
    var once := ResolveMediaUrl(url, configured);
    if OptTruthy(url) && !IsAbsolute(url.value) {
      var b := Backend(configured);
      assert once[..|b|] == b;
      assert once[..4] == b[..4];
      assert StartsWith(once, "http");
    }
  }

  /** The default backend is absolute, so with no configuration resolving is
      idempotent. */
  lemma DefaultBackendIdempotent(url: Option<string>)
    ensures ResolveMediaUrl(Some(ResolveMediaUrl(url, None)), None) == ResolveMediaUrl(url, None)
  {
    assert StartsWith(DefaultBackend, "http");
    ResolveIdempotent(url, None);
  }
}
