/**
 * The request rewriter httpRedirect (proxy.c:151-162). Its comments say it replaces
 * the URL of the request with a new one, and line 159 points at the character before
 * "HTTP" to keep the rest of the request behind it; the code copies `strlen(content)`
 * characters of that tail into `content` right after zeroing `content`, that is none,
 * so the request becomes "GET " and the URL alone.
 * `Redirected` is the code as written and the one the proxy uses; `Intended` is
 * what the comment describes.
 */
module Redirect {
  import opened Wrappers
  import opened Settings
  import opened CString

  const HTTP_TOKEN: string := "HTTP"
  const GET_PREFIX: string := "GET "

  /** The request buffers on which httpRedirect is defined: strstr finds "HTTP" in the
      C string, and not at its first character, where `strstr(...) - 1` would point
      before the buffer. */
  predicate RedirectDefined(b: string) {
    |b| == MAX_BUFFER_SIZE && NUL in b &&
    Find(CStr(b), HTTP_TOKEN).Some? && 1 <= Find(CStr(b), HTTP_TOKEN).value
  }

  /** The request buffer after httpRedirect as written: snprintf of "GET " and the URL,
      with nothing of the old request line behind it. */
  function Redirected(b: string, url: string): (r: string)
    requires |b| == MAX_BUFFER_SIZE
    ensures |r| == |b| && NUL in r
    ensures CStr(r) == Truncate(NulFree(GET_PREFIX + url), MAX_BUFFER_SIZE - 1)
    ensures NUL !in url ==> CStr(r) == Truncate(GET_PREFIX + url, MAX_BUFFER_SIZE - 1)
    ensures forall k :: |CStr(r)| < k < |b| ==> r[k] == b[k]
  {
    SnPrintf(b, GET_PREFIX + url)
  }

  /** The request buffer after the rewrite the comments of httpRedirect (lines 151-159) describe:
      "GET ", the URL, then the request from the character before "HTTP" onward. */
  function Intended(b: string, url: string): (r: string)
    requires RedirectDefined(b)
    ensures |r| == |b| && NUL in r
    ensures GET_PREFIX <= CStr(r)
    ensures forall k :: |CStr(r)| < k < |b| ==> r[k] == b[k]
  {
    var s := CStr(b);
    var text := GET_PREFIX + url + s[Find(s, HTTP_TOKEN).value - 1..];
    PrefixSurvives(GET_PREFIX, url + s[Find(s, HTTP_TOKEN).value - 1..], MAX_BUFFER_SIZE - 1);
    assert text == GET_PREFIX + (url + s[Find(s, HTTP_TOKEN).value - 1..]);
    SnPrintf(b, text)
  }

  /** A NUL-free prefix that fits survives `%s` and the truncation of snprintf. */
  lemma PrefixSurvives(p: string, x: string, n: nat)
    requires NUL !in p && |p| <= n
    ensures p <= Truncate(NulFree(p + x), n)
  {
    var t := p + x;
    assert t[..|p|] == p;
    if NUL in t {
      StrLenAtLeast(t, |p|);
    }
  }

  /** As written, the rewritten request does not depend on the request at all. */
  lemma RedirectForgetsRequest(b1: string, b2: string, url: string)
    requires |b1| == MAX_BUFFER_SIZE && |b2| == MAX_BUFFER_SIZE
    ensures CStr(Redirected(b1, url)) == CStr(Redirected(b2, url))
  {
  }

  /** The intended rewrite keeps the request from just before its first "HTTP" to its end,
      behind "GET " and the URL, whenever that fits in the buffer. */
  lemma IntendedKeepsTail(b: string, url: string)
    requires RedirectDefined(b) && NUL !in url
    requires |GET_PREFIX| + |url| + |CStr(b)| < MAX_BUFFER_SIZE
    ensures var s := CStr(b);
            var i := Find(s, HTTP_TOKEN).value;
            1 <= i && OccursAt(s, HTTP_TOKEN, i) &&
            CStr(Intended(b, url)) == GET_PREFIX + url + s[i - 1..]
  {
    var s := CStr(b);
    var i := Find(s, HTTP_TOKEN).value;
    assert NUL !in GET_PREFIX + url + s[i - 1..];
  }

  /** A request line with a NUL right behind it: as written only "GET " and the URL are
      left; the intended rewrite keeps the request from just before its first "HTTP". */
  lemma {:induction false} RedirectRequest(b: string, request: string, url: string)
    requires |b| == MAX_BUFFER_SIZE && NUL !in request && NUL !in url
    requires |GET_PREFIX| + |url| + |request| < MAX_BUFFER_SIZE
    requires b[..|request|] == request && b[|request|] == NUL
    requires Find(request, HTTP_TOKEN).Some? && 1 <= Find(request, HTTP_TOKEN).value
    ensures RedirectDefined(b)
    ensures CStr(Redirected(b, url)) == GET_PREFIX + url
    ensures CStr(Intended(b, url)) == GET_PREFIX + url + request[Find(request, HTTP_TOKEN).value - 1..]
  {
    StrLenAt(b, |request|);
    IntendedKeepsTail(b, url);
  }

  /** A typical GET request, both ways: as written the HTTP version and
      the headers behind the target are lost; the intended rewrite keeps them. */
  lemma RedirectDropsVersion(b: string, request: string, url: string)
    requires request == "GET /secret HTTP/1.1\r\nHost: x\r\n\r\n" && url == "http://err/e.html"
    requires |b| == MAX_BUFFER_SIZE && b[..|request|] == request && b[|request|] == NUL
    ensures RedirectDefined(b)
    ensures CStr(Redirected(b, url)) == GET_PREFIX + url
    ensures CStr(Intended(b, url)) == GET_PREFIX + url + " HTTP/1.1\r\nHost: x\r\n\r\n"
  {
    assert NUL !in url;
    RequestText(request);
    FindSecret(request);
    RedirectRequest(b, request, url);
  }

  /** That request holds no NUL; behind its target come the version and the headers. */
  lemma RequestText(request: string)
    requires request == "GET /secret HTTP/1.1\r\nHost: x\r\n\r\n"
    ensures NUL !in request && request[11..] == " HTTP/1.1\r\nHost: x\r\n\r\n"
  {
    var target, tail := "GET /secret", " HTTP/1.1\r\nHost: x\r\n\r\n";
    assert request == target + tail;
    assert NUL !in target && NUL !in tail;
  }

  /** strstr(request, "HTTP") on that request points at index 12. */
  lemma FindSecret(request: string)
    requires request == "GET /secret HTTP/1.1\r\nHost: x\r\n\r\n"
    ensures Find(request, HTTP_TOKEN) == Some(12)
  {
    assert request[12..16] == HTTP_TOKEN;
    assert OccursAt(request, HTTP_TOKEN, 12);
    assert 'H' !in request[..12];
    forall j: nat | j < 12 ensures !OccursAt(request, HTTP_TOKEN, j) {
      assert request[j] == request[..12][j];
      assert request[j..j + 4][0] == request[j];
    }
  }

  /** httpRedirect: zero `content`, strncpy strlen(content) characters from just before
      "HTTP" into it, then snprintf "GET %s%s" of the URL and `content` over the request. */
  method HttpRedirect(request: array<char>, newURL: string)
    requires RedirectDefined(request[..])
    modifies request
    ensures request[..] == Redirected(old(request[..]), newURL)
  {
    var content := new char[MAX_BUFFER_SIZE](_ => NUL);
    var at := Find(CStr(request[..]), HTTP_TOKEN).value - 1;
    assert content[..][0] == NUL;
    CopyBounded(content, request[..][at..], StrLen(content[..]));
    assert content[..] == seq(MAX_BUFFER_SIZE, _ => NUL);
    assert CStr(content[..]) == "";
    assert GET_PREFIX + newURL + CStr(content[..]) == GET_PREFIX + newURL;
    FormatInto(request, GET_PREFIX + newURL + CStr(content[..]));
  }

  /** The tail the comment of httpRedirect means to keep, read from the C string of the
      buffer: everything from the character before "HTTP" on. */
  lemma {:induction false} TailFromBuffer(b: string, at: nat)
    requires RedirectDefined(b) && at == Find(CStr(b), HTTP_TOKEN).value - 1
    ensures NUL in b[at..] && CStr(b[at..]) == CStr(b)[at..]
  {
    var n := StrLen(b);
    assert b[at..][n - at] == NUL;
    assert b[at..][..n - at] == b[at..n];
    StrLenAt(b[at..], n - at);
  }

  /** httpRedirect with the length its comment calls for: strncpy copies the whole tail
      from just before "HTTP", so it survives behind the new URL. */
  method HttpRedirectIntended(request: array<char>, newURL: string)
    requires RedirectDefined(request[..])
    modifies request
    ensures request[..] == Intended(old(request[..]), newURL)
  {
    var content := new char[MAX_BUFFER_SIZE](_ => NUL);
    var at := Find(CStr(request[..]), HTTP_TOKEN).value - 1;
    var tail := request[..][at..];
    TailFromBuffer(request[..], at);
    var m := StrLen(tail);
    ghost var zeros := content[..];
    CopyBounded(content, tail, m);
    assert content[..] == tail[..m] + zeros[m..];
    CStrOf(tail[..m], zeros[m + 1..]);
    assert content[..] == tail[..m] + [NUL] + zeros[m + 1..];
    FormatInto(request, GET_PREFIX + newURL + CStr(content[..]));
  }
}
