/** The conventional Some/None datatype, standing for a pointer that may be NULL. */
module Wrappers {
  datatype Option<+T> = None | Some(value: T)
}

/** The compile-time constants of proxy.c. */
module Settings {
  /** Size of the request buffer and of the configuration buffer. */
  const MAX_BUFFER_SIZE: nat := 2048
  /** Size of one blocklist slot, terminating NUL included. */
  const MAX_KEYWORD_SIZE: nat := 50
  /** Number of blocklist slots. */
  const MAX_BLOCKED_KEYWORDS: nat := 5
  /** The page every blocked GET request is redirected to. */
  const ERROR_URL: string := "http://pages.cpsc.ucalgary.ca/~carey/CPSC441/ass1/error.html"
}

/**
 * The C library string routines the proxy relies on, over the contents of a
 * `char` buffer (a `seq<char>`), with the in-place ones also as methods on
 * arrays. A C string is the part of a buffer before its first NUL.
 */
module CString {
  import opened Wrappers

  const NUL: char := 0 as char

  /** strlen: the index of the first NUL; reading past the buffer is undefined, hence the requires. */
  function StrLen(b: string): (n: nat)
    requires NUL in b
    ensures n < |b| && b[n] == NUL && NUL !in b[..n]
  {
    if b[0] == NUL then 0 else 1 + StrLen(b[1..])
  }

  /** The C string a buffer holds. */
  function CStr(b: string): (s: string)
    requires NUL in b
    ensures NUL !in s && s + [NUL] <= b
  {
    b[..StrLen(b)]
  }

  /** The first NUL is unique: any NUL with no NUL before it is where strlen stops. */
  lemma StrLenAt(b: string, k: nat)
    requires k < |b| && b[k] == NUL && NUL !in b[..k]
    ensures NUL in b && StrLen(b) == k && CStr(b) == b[..k]
  {
    assert b[k] in b;
  }

  /** strlen is at least the length of any NUL-free prefix. */
  lemma {:induction false} StrLenAtLeast(b: string, k: nat)
    requires NUL in b && k <= |b| && NUL !in b[..k]
    ensures k <= StrLen(b)
  {
    if k > 0 {
      assert b[0] == b[..k][0];
      assert b[1..][..k - 1] == b[..k][1..];
      assert b[StrLen(b)] in b[1..] by {
        assert b[StrLen(b)] == b[1..][StrLen(b) - 1];
      }
      StrLenAtLeast(b[1..], k - 1);
    }
  }

  /** A NUL-free string followed by a NUL, whatever comes after, is read back unchanged. */
  lemma CStrOf(s: string, rest: string)
    requires NUL !in s
    ensures NUL in s + [NUL] + rest && CStr(s + [NUL] + rest) == s
  {
    var b := s + [NUL] + rest;
    assert b[..|s|] == s;
    StrLenAt(b, |s|);
  }

  /** `pat` occurs in `text` at index `i`. */
  predicate OccursAt(text: string, pat: string, i: nat) {
    i + |pat| <= |text| && text[i..i + |pat|] == pat
  }

  ghost predicate Occurs(text: string, pat: string) {
    exists i: nat :: OccursAt(text, pat, i)
  }

  /** strstr from index `i` on: the first occurrence of `pat` at or after `i`. */
  function FindFrom(text: string, pat: string, i: nat): (r: Option<nat>)
    decreases |text| - i
    ensures r.Some? ==> i <= r.value && OccursAt(text, pat, r.value)
    ensures r.Some? ==> forall j: nat :: i <= j < r.value ==> !OccursAt(text, pat, j)
    ensures r.None? ==> forall j: nat :: i <= j ==> !OccursAt(text, pat, j)
  {
    if |text| < i + |pat| then None
    else if text[i..i + |pat|] == pat then Some(i)
    else FindFrom(text, pat, i + 1)
  }

  /** strstr: the index of the first occurrence of `pat`, None for NULL. */
  function Find(text: string, pat: string): (r: Option<nat>)
    ensures r.None? <==> !Occurs(text, pat)
    ensures r.Some? ==> OccursAt(text, pat, r.value) && forall j: nat :: j < r.value ==> !OccursAt(text, pat, j)
  {
    FindFrom(text, pat, 0)
  }

  /** strstr(text, pat) != NULL */
  predicate Contains(text: string, pat: string): (r: bool)
    ensures r <==> Occurs(text, pat)
  {
    Find(text, pat).Some?
  }

  /** strstr with an empty needle returns its haystack. */
  lemma ContainsEmpty(text: string)
    ensures Find(text, "") == Some(0)
  {
    assert OccursAt(text, "", 0);
  }

  /** strncmp(b, prefix, |prefix|) == 0 for a NUL-free prefix. */
  predicate StartsWith(b: string, prefix: string): (r: bool)
    ensures r <==> |prefix| <= |b| && b[..|prefix|] == prefix
  {
    prefix <= b
  }

  /** The contents of buffer `b` after memmove(b + dst, b + src, n). */
  function MemMove(b: string, dst: nat, src: nat, n: nat): (r: string)
    requires dst + n <= |b| && src + n <= |b|
    ensures |r| == |b|
    ensures forall k :: 0 <= k < |b| ==> r[k] == if dst <= k < dst + n then b[src + k - dst] else b[k]
  {
    b[..dst] + b[src..src + n] + b[dst + n..]
  }

  /** The contents of buffer `b` after strncpy(b, src, n): at most n characters of the C string
      in `src`, the rest of the n padded with NULs. Reads `src` only up to its NUL or n. */
  function StrNCpy(b: string, src: string, n: nat): (r: string)
    requires n <= |b|
    requires NUL in src || n <= |src|
    ensures |r| == |b| && r[n..] == b[n..]
    ensures r[..CopyLen(src, n)] == src[..CopyLen(src, n)]
    ensures forall k :: CopyLen(src, n) <= k < n ==> r[k] == NUL
  {
    var m := CopyLen(src, n);
    src[..m] + seq(n - m, _ => NUL) + b[n..]
  }

  /** How many characters strncpy copies from `src` before it pads: it stops at the
      first NUL of `src` or after n characters, whichever comes first. */
  function CopyLen(src: string, n: nat): (m: nat)
    requires NUL in src || n <= |src|
    ensures m <= n && m <= |src| && NUL !in src[..m]
    ensures m < n ==> src[m] == NUL
  {
    if NUL in src && StrLen(src) < n then StrLen(src)
    else
      assert NUL in src ==> src[..n] == src[..StrLen(src)][..n];
      n
  }

  /** The longest prefix of `s` that fits in `n` characters. */
  function Truncate(s: string, n: nat): (r: string)
    ensures |r| <= n && r <= s
    ensures |s| <= n ==> r == s
    ensures |s| > n ==> |r| == n
  {
    if |s| <= n then s else s[..n]
  }

  /** The contents of buffer `b` after snprintf(b, |b|, "%s", s): as much of `s` as fits
      together with its NUL; the bytes after that NUL are untouched. */
  function SnPrintf(b: string, s: string): (r: string)
    requires 0 < |b|
    ensures |r| == |b|
    ensures NUL in r && CStr(r) == Truncate(NulFree(s), |b| - 1)
    ensures forall k :: |Truncate(NulFree(s), |b| - 1)| < k < |b| ==> r[k] == b[k]
  {
    var t := Truncate(NulFree(s), |b| - 1);
    CStrOf(t, b[|t| + 1..]);
    t + [NUL] + b[|t| + 1..]
  }

  /** What a `%s` conversion reads of `s`: everything before its first NUL. */
  function NulFree(s: string): (r: string)
    ensures NUL !in r && r <= s
    ensures NUL !in s ==> r == s
    ensures NUL in s ==> r + [NUL] <= s
  {
    if NUL in s then CStr(s) else s
  }

  /** The contents of buffer `b` after recv wrote `data` over its front: recv writes
      only the bytes it received and NUL-terminates nothing. */
  function Received(b: string, data: string): (r: string)
    requires |data| <= |b|
    ensures |r| == |b| && r[..|data|] == data
    ensures r[|data|..] == b[|data|..]
  {
    data + b[|data|..]
  }

  /** recv on an array, with the received bytes as input. */
  method ReceiveInto(a: array<char>, data: string)
    requires |data| <= a.Length
    modifies a
    ensures a[..] == Received(old(a[..]), data)
  {
    var i := 0;
    while i < |data|
      invariant 0 <= i <= |data|
      invariant forall k :: 0 <= k < a.Length ==> a[k] == if k < i then data[k] else old(a[k])
    {
      a[i] := data[i];
      i := i + 1;
    }
    assert a[..] == data + old(a[..])[|data|..];
  }

  /** memset(a, 0, a.Length) */
  method Zero(a: array<char>)
    modifies a
    ensures forall k :: 0 <= k < a.Length ==> a[k] == NUL
  {
    var i := 0;
    while i < a.Length
      invariant 0 <= i <= a.Length
      invariant forall k :: 0 <= k < i ==> a[k] == NUL
    {
      a[i] := NUL;
      i := i + 1;
    }
  }

  /** memmove on an array, copying forwards or backwards so that overlapping ranges work. */
  method MoveBytes(a: array<char>, dst: nat, src: nat, n: nat)
    requires dst + n <= a.Length && src + n <= a.Length
    modifies a
    ensures a[..] == MemMove(old(a[..]), dst, src, n)
  {
    if dst <= src {
      MoveForward(a, dst, src, n);
    } else {
      MoveBackward(a, dst, src, n);
    }
  }

  /** memmove to a lower address: copying from the front never reads a byte already overwritten. */
  method MoveForward(a: array<char>, dst: nat, src: nat, n: nat)
    requires dst <= src && src + n <= a.Length
    modifies a
    ensures forall k :: 0 <= k < a.Length ==> a[k] == if dst <= k < dst + n then old(a[src + k - dst]) else old(a[k])
  {
    var i := 0;
    while i < n
      invariant 0 <= i <= n
      invariant forall k :: 0 <= k < a.Length ==> a[k] == if dst <= k < dst + i then old(a[src + k - dst]) else old(a[k])
    {
      a[dst + i] := a[src + i];
      i := i + 1;
    }
  }

  /** memmove to a higher address: copying from the back never reads a byte already overwritten. */
  method MoveBackward(a: array<char>, dst: nat, src: nat, n: nat)
    requires src < dst && dst + n <= a.Length
    modifies a
    ensures forall k :: 0 <= k < a.Length ==> a[k] == if dst <= k < dst + n then old(a[src + k - dst]) else old(a[k])
  {
    var i := n;
    while 0 < i
      invariant 0 <= i <= n
      invariant forall k :: 0 <= k < a.Length ==> a[k] == if dst + i <= k < dst + n then old(a[src + k - dst]) else old(a[k])
    {
      i := i - 1;
      a[dst + i] := a[src + i];
    }
  }

  /** strncpy on an array. */
  method CopyBounded(a: array<char>, src: string, n: nat)
    requires n <= a.Length
    requires NUL in src || n <= |src|
    modifies a
    ensures a[..] == StrNCpy(old(a[..]), src, n)
  {
    ghost var m := CopyLen(src, n);
    var i := 0;
    while i < n && src[i] != NUL
      invariant 0 <= i <= m
      invariant forall k :: 0 <= k < a.Length ==> a[k] == if k < i then src[k] else old(a[k])
    {
      a[i] := src[i];
      i := i + 1;
    }
    assert i == m;
    while i < n
      invariant m <= i <= n
      invariant forall k :: 0 <= k < a.Length ==> a[k] == if k < m then src[k] else if k < i then NUL else old(a[k])
    {
      a[i] := NUL;
      i := i + 1;
    }
    assert a[..] == StrNCpy(old(a[..]), src, n);
  }

  /** snprintf(a, a.Length, "%s", s) on an array. */
  method FormatInto(a: array<char>, s: string)
    requires 0 < a.Length
    modifies a
    ensures a[..] == SnPrintf(old(a[..]), s)
  {
    var t := Truncate(NulFree(s), a.Length - 1);
    var i := 0;
    while i < |t|
      invariant 0 <= i <= |t|
      invariant forall k :: 0 <= k < a.Length ==> a[k] == if k < i then t[k] else old(a[k])
    {
      a[i] := t[i];
      i := i + 1;
    }
    a[|t|] := NUL;
    assert a[..] == t + [NUL] + old(a[..])[|t| + 1..];
  }
}
