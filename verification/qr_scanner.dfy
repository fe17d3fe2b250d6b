/** The decisions of the QR-scanner page: extracting a table slug from scanned
    or typed text, and whether to navigate to the table's menu. */
module QrScanner {
  import opened Wrappers

  // ---------------------------------------------------------------------------
  // String.prototype.trim

  /** The code points `String.prototype.trim` strips: ECMAScript WhiteSpace
      (tab, vertical tab, form feed, space, no-break space, byte-order mark and
      the space separators) and LineTerminator (LF, CR, U+2028, U+2029). */
  predicate IsWhitespace(c: char)
  {
    var n := c as int;
    n == 0x09 || n == 0x0A || n == 0x0B || n == 0x0C || n == 0x0D || n == 0x20 ||
    n == 0xA0 || n == 0x1680 || (0x2000 <= n <= 0x200A) || n == 0x2028 || n == 0x2029 ||
    n == 0x202F || n == 0x205F || n == 0x3000 || n == 0xFEFF
  }

  predicate AllWhitespace(s: string)
  {
    forall k :: 0 <= k < |s| ==> IsWhitespace(s[k])
  }

  /** `r` is `s` with all surrounding whitespace removed: `r` neither starts nor
      ends with whitespace, and `s` is `r` padded with whitespace on both sides. */
  ghost predicate IsTrimOf(r: string, s: string)
  {
    && (|r| == 0 || (!IsWhitespace(r[0]) && !IsWhitespace(r[|r| - 1])))
    && exists i :: 0 <= i <= |s| - |r| && s[i..i + |r|] == r && AllWhitespace(s[..i]) && AllWhitespace(s[i + |r|..])
  }

  /** Number of whitespace characters at the start of `s`. */
  function LeadingSpace(s: string): (n: nat)
    ensures n <= |s|
    ensures forall k :: 0 <= k < n ==> IsWhitespace(s[k])
    ensures n < |s| ==> !IsWhitespace(s[n])
  {
    if |s| > 0 && IsWhitespace(s[0]) then 1 + LeadingSpace(s[1..]) else 0
  }

  /** Number of whitespace characters at the end of `s`. */
  function TrailingSpace(s: string): (n: nat)
    ensures n <= |s|
    ensures forall k :: |s| - n <= k < |s| ==> IsWhitespace(s[k])
    ensures n < |s| ==> !IsWhitespace(s[|s| - 1 - n])
  {
    if |s| > 0 && IsWhitespace(s[|s| - 1]) then 1 + TrailingSpace(s[..|s| - 1]) else 0
  }

  function Trim(s: string): (r: string)
    ensures |r| <= |s|
    ensures IsTrimOf(r, s)
  {
    var a := LeadingSpace(s);
    var rest := s[a..];
    var r := rest[..|rest| - TrailingSpace(rest)];
    TrimPadding(s, a, rest, r);
    r
  }

  lemma TrimPadding(s: string, a: nat, rest: string, r: string)
    requires a == LeadingSpace(s) && rest == s[a..] && r == rest[..|rest| - TrailingSpace(rest)]
    ensures a + |r| <= |s| && s[a..a + |r|] == r
    ensures AllWhitespace(s[..a]) && AllWhitespace(s[a + |r|..])
    ensures |r| == 0 || (!IsWhitespace(r[0]) && !IsWhitespace(r[|r| - 1]))
  {
    var head := s[..a];
    forall k | 0 <= k < |head| ensures IsWhitespace(head[k]) {
      assert head[k] == s[k];
    }
    var tail := s[a + |r|..];
    assert tail == rest[|r|..];
    forall k | 0 <= k < |tail| ensures IsWhitespace(tail[k]) {
      assert tail[k] == rest[|r| + k];
    }
    if |r| > 0 {
      assert r[0] == s[a];
    }
  }

  /** A non-whitespace character preceded only by whitespace is where the
      leading whitespace ends. */
  lemma LeadingSpaceAt(s: string, i: nat)
    requires i < |s| && AllWhitespace(s[..i]) && !IsWhitespace(s[i])
    ensures LeadingSpace(s) == i
  {
  }

  /** A non-whitespace character followed only by whitespace is where the
      trailing whitespace starts. */
  lemma TrailingSpaceAt(s: string, j: nat)
    requires 0 < j <= |s| && AllWhitespace(s[j..]) && !IsWhitespace(s[j - 1])
    ensures TrailingSpace(s) == |s| - j
  {
    var tail := s[j..];
    forall k | j <= k < |s| ensures IsWhitespace(s[k]) {
      assert tail[k - j] == s[k];
    }
  }

  /** An all-whitespace string is all leading whitespace. */
  lemma {:induction false} LeadingSpaceAll(s: string)
    requires AllWhitespace(s)
    ensures LeadingSpace(s) == |s|
  {
    if |s| > 0 {
      LeadingSpaceAll(s[1..]);
    }
  }

  /** A string padded on both sides with whitespace, with no whitespace at
      either of its own ends, is what `trim` returns. */
  lemma TrimFromPadding(r: string, s: string, i: nat)
    requires i + |r| <= |s| && s[i..i + |r|] == r
    requires AllWhitespace(s[..i]) && AllWhitespace(s[i + |r|..])
    requires |r| == 0 || (!IsWhitespace(r[0]) && !IsWhitespace(r[|r| - 1]))
    ensures r == Trim(s)
  {
    if |r| == 0 {
      forall k | 0 <= k < |s| ensures IsWhitespace(s[k]) {
        if k < i { assert s[..i][k] == s[k]; } else { assert s[i..][k - i] == s[k]; }
      }
      LeadingSpaceAll(s);
    } else {
      assert s[i] == r[0];
      LeadingSpaceAt(s, i);
      var rest := s[i..];
      assert rest[|r|..] == s[i + |r|..];
      assert rest[|r| - 1] == r[|r| - 1];
      TrailingSpaceAt(rest, |r|);
      assert rest[..|r|] == r;
    }
  }

  /** `trim` is the function `IsTrimOf` describes. */
  lemma TrimCharacterized(r: string, s: string)
    ensures IsTrimOf(r, s) <==> r == Trim(s)
  {
    if IsTrimOf(r, s) {
      var i :| 0 <= i <= |s| - |r| && s[i..i + |r|] == r && AllWhitespace(s[..i]) && AllWhitespace(s[i + |r|..]);
      TrimFromPadding(r, s, i);
    }
  }

  /** Trimming twice changes nothing. */
  lemma TrimIdempotent(s: string)
    ensures Trim(Trim(s)) == Trim(s)
  {
    var t := Trim(s);
    assert t[0..0 + |t|] == t && t[..0] == [] && t[|t|..] == [];
    TrimFromPadding(t, t, 0);
  }

  /** A trimmed string is empty exactly when the input is all whitespace. */
  lemma TrimEmptyIff(s: string)
    ensures Trim(s) == "" <==> AllWhitespace(s)
  {
    var r := Trim(s);
    var i :| 0 <= i <= |s| - |r| && s[i..i + |r|] == r && AllWhitespace(s[..i]) && AllWhitespace(s[i + |r|..]);
    if r == "" {
      forall k | 0 <= k < |s| ensures IsWhitespace(s[k]) {
        if k < i { assert s[..i][k] == s[k]; } else { assert s[i..][k - i] == s[k]; }
      }
    } else {
      assert s[i] == r[0];
    }
  }

  // ---------------------------------------------------------------------------
  // The two slug patterns

  /** ASCII lower-casing: under the `i` flag without `u`, the only characters
      that match the letters of `m` and `table` are their two ASCII cases. */
  function Lower(c: char): char
  {
    if 'A' <= c <= 'Z' then (c as int + 32) as char else c
  }

  /** `[^/?#]`. */
  predicate IsSegmentChar(c: char)
  {
    c != '/' && c != '?' && c != '#'
  }

  /** The regular expression `\/<lit>\/([^/?#]+)` with flag `i` matches at
      position `p`: the lower-case literal `pattern` (slashes included) occurs
      there case-insensitively and at least one segment character follows. */
  predicate MatchesAt(s: string, p: nat, pattern: string)
  {
    && p + |pattern| < |s|
    && (forall k :: 0 <= k < |pattern| ==> Lower(s[p + k]) == pattern[k])
    && IsSegmentChar(s[p + |pattern|])
  }

  /** Length of the longest run of segment characters starting at `k` (the
      greedy `+`). */
  function SegmentLength(s: string, k: nat): (n: nat)
    requires k <= |s|
    ensures k + n <= |s|
    ensures forall j :: k <= j < k + n ==> IsSegmentChar(s[j])
    ensures k + n < |s| ==> !IsSegmentChar(s[k + n])
    decreases |s| - k
  {
    if k < |s| && IsSegmentChar(s[k]) then 1 + SegmentLength(s, k + 1) else 0
  }

  /** The leftmost match position at or after `from` (the regex search order). */
  function FirstMatch(s: string, pattern: string, from: nat): (r: Option<nat>)
    ensures r.Some? ==> from <= r.value && MatchesAt(s, r.value, pattern)
    ensures r.Some? ==> forall q: nat :: from <= q < r.value ==> !MatchesAt(s, q, pattern)
    ensures r.None? ==> forall q: nat :: from <= q ==> !MatchesAt(s, q, pattern)
    decreases |s| - from
  {
    if from >= |s| then None
    else if MatchesAt(s, from, pattern) then Some(from)
    else FirstMatch(s, pattern, from + 1)
  }

  /** The capture group of the leftmost match, if any. */
  function Capture(s: string, pattern: string): (r: Option<string>)
    ensures r.None? <==> forall q: nat :: !MatchesAt(s, q, pattern)
    ensures r.Some? ==> |r.value| > 0 && forall k :: 0 <= k < |r.value| ==> IsSegmentChar(r.value[k])
  {
    match FirstMatch(s, pattern, 0)
    case None => None
    case Some(p) => Some(s[p + |pattern|..p + |pattern| + SegmentLength(s, p + |pattern|)])
  }

  const MPattern: string := "/m/"
  const TablePattern: string := "/table/"

  /** `parseSlugFromText`: the `/m/` segment, else the `/table/` segment, else
      the whole text trimmed. A captured segment is never empty, so the
      source's `&& match[1]` test never fails. */
  function ParseSlug(text: string): (r: string)
    ensures r == Trim(text) || (|r| > 0 && forall k :: 0 <= k < |r| ==> IsSegmentChar(r[k]))
  {
    match Capture(text, MPattern)
    case Some(g) => g
    case None =>
      match Capture(text, TablePattern)
      case Some(g) => g
      case None => Trim(text)
  }

  /** `g` is the maximal run of segment characters that starts right after a
      match of `pattern` at `p`. */
  ghost predicate SegmentAfter(s: string, p: nat, pattern: string, g: string)
  {
    && |g| > 0
    && p + |pattern| + |g| <= |s|
    && s[p + |pattern|..p + |pattern| + |g|] == g
    && (forall k :: 0 <= k < |g| ==> IsSegmentChar(g[k]))
    && (p + |pattern| + |g| == |s| || !IsSegmentChar(s[p + |pattern| + |g|]))
  }

  lemma CaptureIsSegment(s: string, pattern: string, p: nat)
    requires MatchesAt(s, p, pattern)
    requires forall q: nat :: q < p ==> !MatchesAt(s, q, pattern)
    ensures Capture(s, pattern).Some?
    ensures SegmentAfter(s, p, pattern, Capture(s, pattern).value)
  {
    assert FirstMatch(s, pattern, 0) == Some(p);
  }

  /** With a `/m/` match, the slug is the maximal segment after the leftmost
      one, whatever `/table/` matches the text also holds. */
  lemma ParseSlugFromM(text: string, p: nat)
    requires MatchesAt(text, p, MPattern)
    requires forall q: nat :: q < p ==> !MatchesAt(text, q, MPattern)
    ensures SegmentAfter(text, p, MPattern, ParseSlug(text))
  {
    CaptureIsSegment(text, MPattern, p);
  }

  /** With no `/m/` match, a `/table/` match supplies the slug the same way. */
  lemma ParseSlugFromTable(text: string, p: nat)
    requires forall q: nat :: !MatchesAt(text, q, MPattern)
    requires MatchesAt(text, p, TablePattern)
    requires forall q: nat :: q < p ==> !MatchesAt(text, q, TablePattern)
    ensures SegmentAfter(text, p, TablePattern, ParseSlug(text))
  {
    CaptureIsSegment(text, TablePattern, p);
  }

  /** With neither pattern matching, the slug is the trimmed text. */
  lemma ParseSlugFallback(text: string)
    requires forall q: nat :: !MatchesAt(text, q, MPattern)
    requires forall q: nat :: !MatchesAt(text, q, TablePattern)
    ensures ParseSlug(text) == Trim(text)
  {
  }

  // ---------------------------------------------------------------------------
  // Navigation decisions

  datatype Navigation = NavigateTo(path: string) | Stay

  const TableRoute: string := "/table/"

  /** `handleManualEntry`: navigate to the trimmed slug's table page, or stay
      (with an error toast) when nothing but whitespace was typed. */
  function ManualEntry(slug: string): (r: Navigation)
    ensures r.NavigateTo? <==> exists k :: 0 <= k < |slug| && !IsWhitespace(slug[k])
    ensures r.NavigateTo? ==> r.path == TableRoute + Trim(slug)
  {
    TrimEmptyIff(slug);
    if Trim(slug) != "" then NavigateTo(TableRoute + Trim(slug)) else Stay
  }

  /** The decision after a QR code is detected: `rawValue || ''` is parsed and
      the page navigates only when the slug is non-empty. The slug is not
      trimmed again, so a segment of spaces still navigates. */
  function AfterScan(rawValue: Option<string>): (r: Navigation)
    ensures var text := if rawValue.Some? then rawValue.value else "";
            r.NavigateTo? <==>
              (exists p: nat :: MatchesAt(text, p, MPattern)) ||
              (exists p: nat :: MatchesAt(text, p, TablePattern)) ||
              (exists k :: 0 <= k < |text| && !IsWhitespace(text[k]))
    ensures r.NavigateTo? ==> r.path == TableRoute + ParseSlug(if rawValue.Some? then rawValue.value else "")
  {
    var text := if rawValue.Some? then rawValue.value else "";
    ScanNavigates(text);
    var slug := ParseSlug(text);
    if slug != "" then NavigateTo(TableRoute + slug) else Stay
  }

  lemma ScanNavigates(text: string)
    ensures ParseSlug(text) != "" <==>
              (exists p: nat :: MatchesAt(text, p, MPattern)) ||
              (exists p: nat :: MatchesAt(text, p, TablePattern)) ||
              (exists k :: 0 <= k < |text| && !IsWhitespace(text[k]))
  {
    TrimEmptyIff(text);
    var m := FirstMatch(text, MPattern, 0);
    var t := FirstMatch(text, TablePattern, 0);
    if m.Some? {
      CaptureIsSegment(text, MPattern, m.value);
    } else if t.Some? {
      CaptureIsSegment(text, TablePattern, t.value);
    }
  }
}
