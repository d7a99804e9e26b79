/**
 * Target resolution and the file-name encoding of a wishlist URL
 * (`normalize_target` and `_sanitize_filename` of monitor_throne.py).
 */
module Target {
  import opened Text

  const HandlePrefix: string := "https://throne.com/u/"
  const HandleSuffix: string := "/wishlist"

  predicate IsHttpUrl(t: string)
  {
    StartsWith(t, "http://") || StartsWith(t, "https://")
  }

  /**
   * A configured target is either a full http(s) URL, kept as it is, or a bare
   * handle, turned into the handle's wishlist page. The result is the wishlist
   * identifier used by the rest of the monitor.
   */
  function NormalizeTarget(t: string): (url: string)
    ensures IsHttpUrl(url)
    ensures IsHttpUrl(t) ==> url == t
    ensures !IsHttpUrl(t) ==> StartsWith(url, HandlePrefix) && |url| == |HandlePrefix| + |t| + |HandleSuffix|
    ensures !IsHttpUrl(t) ==> url[|HandlePrefix|..|HandlePrefix| + |t|] == t
    ensures !IsHttpUrl(t) ==> url[|url| - |HandleSuffix|..] == HandleSuffix
  {
    if IsHttpUrl(t) then t else HandlePrefix + t + HandleSuffix
  }

  /** Normalising an already normalised target changes nothing. */
  lemma NormalizeTargetIdempotent(t: string)
    ensures NormalizeTarget(NormalizeTarget(t)) == NormalizeTarget(t)
  {
  }

  /** The handle can be read back from the wishlist URL synthesised for it, so distinct handles give distinct wishlists. */
  lemma HandleRecoverable(t: string)
    requires !IsHttpUrl(t)
    ensures var url := NormalizeTarget(t);
      url[|HandlePrefix|..|url| - |HandleSuffix|] == t
  {
    var url := NormalizeTarget(t);
    assert url == HandlePrefix + t + HandleSuffix;
    assert url[|HandlePrefix|..|url| - |HandleSuffix|] == t;
  }

  /** The characters `[A-Za-z0-9._-]` that may appear in a debug file name. */
  predicate SafeChar(c: char)
  {
    ('a' <= c <= 'z') || ('A' <= c <= 'Z') || ('0' <= c <= '9') || c == '.' || c == '_' || c == '-'
  }

  predicate AllSafe(s: string)
  {
    forall i :: 0 <= i < |s| ==> SafeChar(s[i])
  }

  /** Drops the run of unsafe characters at the start of `s`. */
  function SkipUnsafe(s: string): (r: string)
    ensures |r| <= |s| && r == s[|s| - |r|..]
    ensures r == [] || SafeChar(r[0])
  {
    if s != [] && !SafeChar(s[0]) then SkipUnsafe(s[1..]) else s
  }

  /** `re.sub(r'[^a-zA-Z0-9._-]+', '_', s)`: every maximal run of unsafe characters becomes one underscore. */
  function ReplaceUnsafeRuns(s: string): (r: string)
    ensures |r| <= |s|
    ensures r == [] <==> s == []
    decreases |s|
  {
    if s == [] then []
    else if SafeChar(s[0]) then [s[0]] + ReplaceUnsafeRuns(s[1..])
    else "_" + ReplaceUnsafeRuns(SkipUnsafe(s[1..]))
  }

  /** The replacement leaves only safe characters. */
  lemma {:induction false} ReplacedIsSafe(s: string)
    ensures AllSafe(ReplaceUnsafeRuns(s))
    decreases |s|
  {
    if s != [] {
      if SafeChar(s[0]) {
        ReplacedIsSafe(s[1..]);
      } else {
        ReplacedIsSafe(SkipUnsafe(s[1..]));
      }
    }
  }

  /** A string made only of safe characters is left unchanged. */
  lemma {:induction false} ReplaceKeepsSafe(s: string)
    requires AllSafe(s)
    ensures ReplaceUnsafeRuns(s) == s
  {
    if s != [] {
      ReplaceKeepsSafe(s[1..]);
    }
  }

  /** A non-empty run `u` of unsafe characters followed by text that does not continue the run becomes a single `_`. */
  lemma {:induction false} UnsafeRunCollapses(u: string, rest: string)
    requires u != [] && forall i :: 0 <= i < |u| ==> !SafeChar(u[i])
    requires rest == [] || SafeChar(rest[0])
    ensures ReplaceUnsafeRuns(u + rest) == "_" + ReplaceUnsafeRuns(rest)
  {
    SkipRun(u[1..], rest);
    assert (u + rest)[1..] == u[1..] + rest;
  }

  lemma {:induction false} SkipRun(u: string, rest: string)
    requires forall i :: 0 <= i < |u| ==> !SafeChar(u[i])
    requires rest == [] || SafeChar(rest[0])
    ensures SkipUnsafe(u + rest) == rest
  {
    if u != [] {
      assert (u + rest)[1..] == u[1..] + rest;
      SkipRun(u[1..], rest);
    } else {
      assert u + rest == rest;
    }
  }

  /** A safe first character is copied through. */
  lemma SafeHeadCopied(c: char, t: string)
    requires SafeChar(c)
    ensures ReplaceUnsafeRuns([c] + t) == [c] + ReplaceUnsafeRuns(t)
  {
    assert ([c] + t)[1..] == t;
  }

  const MaxFileNameLength: nat := 150

  /** `_sanitize_filename`: the URL with unsafe runs replaced, cut to 150 characters. */
  function SanitizeFilename(url: string): (name: string)
    ensures AllSafe(name)
    ensures |name| <= MaxFileNameLength
    ensures |name| <= |ReplaceUnsafeRuns(url)| && name == ReplaceUnsafeRuns(url)[..|name|]
    ensures |ReplaceUnsafeRuns(url)| <= MaxFileNameLength ==> name == ReplaceUnsafeRuns(url)
    ensures |ReplaceUnsafeRuns(url)| > MaxFileNameLength ==> |name| == MaxFileNameLength
  {
    var safe := ReplaceUnsafeRuns(url);
    ReplacedIsSafe(url);
    if |safe| <= MaxFileNameLength then safe else safe[..MaxFileNameLength]
  }

  /** Sanitising a sanitised name changes nothing. */
  lemma SanitizeIdempotent(url: string)
    ensures SanitizeFilename(SanitizeFilename(url)) == SanitizeFilename(url)
  {
    ReplaceKeepsSafe(SanitizeFilename(url));
  }
}
