/**
 * `extractYouTubeVideoId` of the transcription edge function: four URL patterns
 * tried in a fixed order; the first one that matches anywhere in the string
 * yields its capture group, otherwise the result is `null` (here `None`).
 *
 * Each pattern has the shape `P K([^&\n?#]+)`, where `P` is an optional scheme
 * and/or `www.` prefix and `K` a literal key. The model searches directly for
 * the leftmost key followed by a capturable character (`FirstKeyMatch`), and
 * `RegexExec` states the matcher's own semantics (leftmost start position,
 * optional prefixes tried in backtracking order, greedy capture); lemma
 * `SearchIsRegex` shows the two agree, so the optional prefixes never change
 * the capture.
 */
module VideoId {
  import opened Wrappers

  /** The characters the capture class `[^&\n?#]` refuses. */
  predicate Excluded(c: char)
  {
    c == '&' || c == '\n' || c == '?' || c == '#'
  }

  /** Length of the greedy `[^&\n?#]*` run of `s` starting at `i`. */
  function RunLength(s: string, i: nat): (n: nat)
    requires i <= |s|
    ensures i + n <= |s|
    ensures forall k :: i <= k < i + n ==> !Excluded(s[k])
    ensures i + n == |s| || Excluded(s[i + n])
    decreases |s| - i
  {
    if i < |s| && !Excluded(s[i]) then 1 + RunLength(s, i + 1) else 0
  }

  /** The greedy run is the unique maximal one. */
  lemma {:induction false} RunLengthIs(s: string, i: nat, n: nat)
    requires i + n <= |s|
    requires forall c :: c in s[i..i + n] ==> !Excluded(c)
    requires i + n == |s| || Excluded(s[i + n])
    ensures RunLength(s, i) == n
    decreases n
  {
    if n > 0 {
      assert s[i] in s[i..i + n];
      forall c | c in s[i + 1..i + n] ensures !Excluded(c) {
        assert s[i + 1..i + n] == s[i..i + n][1..];
      }
      RunLengthIs(s, i + 1, n - 1);
    }
  }

  const WatchKey := "youtube.com/watch?v="
  const EmbedKey := "youtube.com/embed/"
  const VKey := "youtube.com/v/"
  const ShortKey := "youtu.be/"

  /** The literal keys of the four patterns, in the order the extractor tries them. */
  const Keys := [WatchKey, EmbedKey, VKey, ShortKey]

  /** `key` occurs at `p` and is followed by at least one capturable character. */
  predicate KeyMatchAt(s: string, key: string, p: nat)
  {
    p + |key| < |s| && s[p..p + |key|] == key && !Excluded(s[p + |key|])
  }

  /** The capture of a match whose key starts at `p`: the maximal run after the key. */
  function CaptureAt(s: string, key: string, p: nat): string
    requires p + |key| <= |s|
  {
    s[p + |key|..p + |key| + RunLength(s, p + |key|)]
  }

  /** The leftmost position at or after `j` where `key` matches. */
  function FirstKeyMatch(s: string, key: string, j: nat): (r: Option<nat>)
    ensures r.Some? ==> j <= r.value && KeyMatchAt(s, key, r.value)
                        && forall q: nat :: j <= q < r.value ==> !KeyMatchAt(s, key, q)
    ensures r.None? ==> forall q: nat :: j <= q ==> !KeyMatchAt(s, key, q)
    decreases |s| - j
  {
    if j >= |s| then None
    else if KeyMatchAt(s, key, j) then Some(j)
    else FirstKeyMatch(s, key, j + 1)
  }

  /** The capture after the leftmost key match at or after `j`. */
  function SearchFrom(s: string, key: string, j: nat): Option<string>
  {
    match FirstKeyMatch(s, key, j)
    case Some(p) => Some(CaptureAt(s, key, p))
    case None => None
  }

  /** One pattern's `url.match(pattern)`, giving the capture group. */
  function MatchKey(s: string, key: string): Option<string>
  {
    SearchFrom(s, key, 0)
  }

  /** The loop over the patterns: the first one that matches wins. */
  function ExtractWith(url: string, keys: seq<string>): Option<string>
  {
    if keys == [] then None
    else
      match MatchKey(url, keys[0])
      case Some(id) => Some(id)
      case None => ExtractWith(url, keys[1..])
  }

  /**
   * The loop returns the capture of the first pattern, in order, that matches,
   * even when a later pattern's key occurs earlier in the URL, and `None`
   * exactly when no pattern matches.
   */
  lemma {:induction false} ExtractWithFirst(url: string, keys: seq<string>)
    ensures ExtractWith(url, keys).None? <==> forall k :: 0 <= k < |keys| ==> MatchKey(url, keys[k]).None?
    ensures forall k :: 0 <= k < |keys| && MatchKey(url, keys[k]).Some?
                        && (forall m :: 0 <= m < k ==> MatchKey(url, keys[m]).None?)
                        ==> ExtractWith(url, keys) == MatchKey(url, keys[k])
  {
    if keys != [] {
      ExtractWithFirst(url, keys[1..]);
      assert forall k :: 1 <= k < |keys| ==> keys[k] == keys[1..][k - 1];
    }
  }

  /** Whatever the loop returns is some pattern's capture. */
  lemma {:induction false} ExtractWithSome(url: string, keys: seq<string>)
    requires ExtractWith(url, keys).Some?
    ensures exists k :: 0 <= k < |keys| && ExtractWith(url, keys) == MatchKey(url, keys[k])
  {
    if MatchKey(url, keys[0]).None? {
      ExtractWithSome(url, keys[1..]);
      var k :| 0 <= k < |keys[1..]| && ExtractWith(url, keys[1..]) == MatchKey(url, keys[1..][k]);
      assert keys[1..][k] == keys[k + 1];
    }
  }

  /** `extractYouTubeVideoId(url)`. */
  function Extract(url: string): Option<string>
  {
    ExtractWith(url, Keys)
  }

  /**
   * `id` is the maximal capturable run directly after a match of `key`: it
   * ends at the end of the URL or at an excluded character.
   */
  ghost predicate CapturedAfterKey(url: string, key: string, id: string)
  {
    exists p: nat :: KeyMatchAt(url, key, p)
      && var start := p + |key|;
         start + |id| <= |url| && url[start..start + |id|] == id
         && (start + |id| == |url| || Excluded(url[start + |id|]))
  }

  /** A capture is non-empty, free of `&`, `?`, `#` and newline, and maximal. */
  lemma MatchKeyShape(url: string, key: string)
    requires MatchKey(url, key).Some?
    ensures var id := MatchKey(url, key).value;
      id != [] && (forall c :: c in id ==> !Excluded(c)) && CapturedAfterKey(url, key, id)
  {
    var p := FirstKeyMatch(url, key, 0).value;
    var id := MatchKey(url, key).value;
    var start := p + |key|;
    assert |id| == RunLength(url, start);
    forall c | c in id ensures !Excluded(c) {
      var i :| 0 <= i < |id| && id[i] == c;
      assert c == url[start + i];
    }
    assert url[start] == id[0];
  }

  /**
   * What the extractor returns is always the capture of one of the patterns:
   * non-empty, free of excluded characters, and maximal after its key.
   */
  lemma ExtractShape(url: string)
    requires Extract(url).Some?
    ensures var id := Extract(url).value;
      && id != []
      && (forall c :: c in id ==> !Excluded(c))
      && exists k :: 0 <= k < |Keys| && CapturedAfterKey(url, Keys[k], id)
  {
    ExtractWithSome(url, Keys);
    var k :| 0 <= k < |Keys| && Extract(url) == MatchKey(url, Keys[k]);
    MatchKeyShape(url, Keys[k]);
  }

  // ------------------------------------------------- the regular expressions

  /**
   * A pattern `(?:https?:\/\/)?(?:www\.)?K([^&\n?#]+)` written out: the
   * alternatives for its optional prefix, in the order a backtracking matcher
   * tries them (greedy `?` tries the longer choice first), and its key `K`.
   */
  datatype Pattern = Pattern(prefixes: seq<string>, key: string)

  /** Prefixes of the three `youtube.com` patterns. */
  const LongPrefixes := ["https://www.", "https://", "http://www.", "http://", "www.", ""]
  /** Prefixes of the `youtu.be` pattern, which has no `www.` part. */
  const ShortPrefixes := ["https://", "http://", ""]

  /** The pattern array of the extractor, in its order. */
  const Patterns := [Pattern(LongPrefixes, WatchKey), Pattern(LongPrefixes, EmbedKey),
                     Pattern(LongPrefixes, VKey), Pattern(ShortPrefixes, ShortKey)]

  /** The whole pattern matches from start position `j` with prefix `pre`. */
  predicate MatchFrom(s: string, pre: string, key: string, j: nat)
  {
    j + |pre| <= |s| && s[j..j + |pre|] == pre && KeyMatchAt(s, key, j + |pre|)
  }

  /** The first prefix alternative with which the pattern matches from `j`. */
  function FirstPrefix(s: string, prefixes: seq<string>, key: string, j: nat): (r: Option<nat>)
    ensures r.Some? ==> r.value < |prefixes| && MatchFrom(s, prefixes[r.value], key, j)
    ensures r.Some? ==> forall k :: 0 <= k < r.value ==> !MatchFrom(s, prefixes[k], key, j)
    ensures r.None? ==> forall k :: 0 <= k < |prefixes| ==> !MatchFrom(s, prefixes[k], key, j)
  {
    if prefixes == [] then None
    else if MatchFrom(s, prefixes[0], key, j) then Some(0)
    else match FirstPrefix(s, prefixes[1..], key, j)
      case Some(k) => Some(k + 1)
      case None => None
  }

  /**
   * `s.match(pattern)` from start position `j` on, as an unanchored regular
   * expression runs: the leftmost start position that admits a match wins;
   * the group is then the greedy run after the key.
   */
  function RegexExec(s: string, pat: Pattern, j: nat): Option<string>
    decreases |s| - j
  {
    if j >= |s| then None
    else match FirstPrefix(s, pat.prefixes, pat.key, j)
      case Some(k) => Some(CaptureAt(s, pat.key, j + |pat.prefixes[k]|))
      case None => RegexExec(s, pat, j + 1)
  }

  /** The extractor's loop, over the regular expressions themselves. */
  function RegexExtractWith(url: string, pats: seq<Pattern>): Option<string>
  {
    if pats == [] then None
    else
      match RegexExec(url, pats[0], 0)
      case Some(id) => Some(id)
      case None => RegexExtractWith(url, pats[1..])
  }

  /**
   * The shape every pattern has: the key starts with `y`, no prefix alternative
   * contains a `y`, and the empty prefix is the last alternative.
   */
  predicate WellShaped(pat: Pattern)
  {
    |pat.key| > 0 && pat.key[0] == 'y'
    && |pat.prefixes| > 0 && pat.prefixes[|pat.prefixes| - 1] == ""
    && forall k :: 0 <= k < |pat.prefixes| ==> 'y' !in pat.prefixes[k]
  }

  /** The leftmost key match is the first one at or after `j` when none lies in `[j, p)`. */
  lemma FirstKeyMatchIs(s: string, key: string, j: nat, p: nat)
    requires j <= p && KeyMatchAt(s, key, p)
    requires forall q: nat :: j <= q < p ==> !KeyMatchAt(s, key, q)
    ensures FirstKeyMatch(s, key, j) == Some(p)
  {
    assert FirstKeyMatch(s, key, j).Some?;
  }

  /**
   * When the pattern matches from `j` with prefix `pre`, the key it uses is the
   * leftmost key match from `j` on: the prefix holds no `y`, so no key starts
   * inside it.
   */
  lemma PrefixHidesNoKey(s: string, pre: string, key: string, j: nat)
    requires |key| > 0 && key[0] == 'y' && 'y' !in pre && MatchFrom(s, pre, key, j)
    ensures FirstKeyMatch(s, key, j) == Some(j + |pre|)
  {
    forall q: nat | j <= q < j + |pre| ensures !KeyMatchAt(s, key, q) {
      assert s[q] == pre[q - j] && pre[q - j] in pre;
      assert q + |key| <= |s| ==> s[q..q + |key|][0] == s[q];
    }
    FirstKeyMatchIs(s, key, j, j + |pre|);
  }

  /**
   * Searching for the key alone finds what the regular expression finds from
   * every start position: an optional prefix is made of characters other than
   * `y`, so it never hides a key occurrence, and the group that follows is the
   * same.
   */
  lemma {:induction false} SearchIsRegex(s: string, pat: Pattern, j: nat)
    requires WellShaped(pat)
    ensures RegexExec(s, pat, j) == SearchFrom(s, pat.key, j)
    decreases |s| - j
  {
    var key := pat.key;
    if j >= |s| {
    } else {
      var r := FirstPrefix(s, pat.prefixes, key, j);
      if r.Some? {
        var pre := pat.prefixes[r.value];
        assert RegexExec(s, pat, j) == Some(CaptureAt(s, key, j + |pre|));
        PrefixHidesNoKey(s, pre, key, j);
      } else {
        assert !MatchFrom(s, pat.prefixes[|pat.prefixes| - 1], key, j);
        assert RegexExec(s, pat, j) == RegexExec(s, pat, j + 1);
        SearchIsRegex(s, pat, j + 1);
      }
    }
  }

  lemma NoYInPrefixes()
    ensures forall k :: 0 <= k < |LongPrefixes| ==> 'y' !in LongPrefixes[k]
    ensures forall k :: 0 <= k < |ShortPrefixes| ==> 'y' !in ShortPrefixes[k]
  {
  }

  lemma PatternsWellShaped()
    ensures forall k :: 0 <= k < |Patterns| ==> WellShaped(Patterns[k])
    ensures forall k :: 0 <= k < |Patterns| ==> Patterns[k].key == Keys[k]
  {
    NoYInPrefixes();
    assert WellShaped(Patterns[0]) && WellShaped(Patterns[1]);
    assert WellShaped(Patterns[2]) && WellShaped(Patterns[3]);
  }

  lemma {:induction false} ExtractWithIsRegex(url: string, pats: seq<Pattern>, keys: seq<string>)
    requires |pats| == |keys|
    requires forall k :: 0 <= k < |pats| ==> WellShaped(pats[k]) && pats[k].key == keys[k]
    ensures ExtractWith(url, keys) == RegexExtractWith(url, pats)
  {
    if pats != [] {
      SearchIsRegex(url, pats[0], 0);
      ExtractWithIsRegex(url, pats[1..], keys[1..]);
    }
  }

  /**
   * `Extract` is the extractor as the source writes it: the patterns tried in
   * order with JavaScript's regular-expression matching.
   */
  lemma ExtractIsRegex(url: string)
    ensures Extract(url) == RegexExtractWith(url, Patterns)
  {
    PatternsWellShaped();
    ExtractWithIsRegex(url, Patterns, Keys);
  }


  // ----------------------------------------------------------- worked cases

  /** The extractor written out: `watch?v=`, then `embed/`, then `v/`, then the short link. */
  lemma ExtractInOrder(url: string)
    ensures Extract(url) == if MatchKey(url, WatchKey).Some? then MatchKey(url, WatchKey)
                            else if MatchKey(url, EmbedKey).Some? then MatchKey(url, EmbedKey)
                            else if MatchKey(url, VKey).Some? then MatchKey(url, VKey)
                            else MatchKey(url, ShortKey)
  {
    var ks := [ShortKey];
    assert ExtractWith(url, ks) == MatchKey(url, ShortKey) by {
      assert ks[1..] == [];
    }
    ks := [VKey] + ks;
    assert ExtractWith(url, ks) == if MatchKey(url, VKey).Some? then MatchKey(url, VKey)
                                   else MatchKey(url, ShortKey) by {
      assert ks[1..] == [ShortKey];
    }
    ks := [EmbedKey] + ks;
    assert ExtractWith(url, ks) == if MatchKey(url, EmbedKey).Some? then MatchKey(url, EmbedKey)
                                   else if MatchKey(url, VKey).Some? then MatchKey(url, VKey)
                                   else MatchKey(url, ShortKey) by {
      assert ks[1..] == [VKey, ShortKey];
    }
    assert Keys == [WatchKey] + ks;
    assert Keys[1..] == ks;
  }

  /** A key that starts with `y` cannot start where the URL has no `y`. */
  lemma NoMatchWithoutY(s: string, key: string, j: nat, p: nat)
    requires |key| > 0 && key[0] == 'y' && j <= p <= |s| && 'y' !in s[j..p]
    ensures forall q: nat :: j <= q < p ==> !KeyMatchAt(s, key, q)
  {
    forall q: nat | j <= q < p && q + |key| <= |s| ensures !KeyMatchAt(s, key, q) {
      assert s[q] == s[j..p][q - j];
      assert s[q..q + |key|][0] == s[q];
    }
  }

  /** One differing character is enough to rule a key out. */
  lemma NoKeyMatchAtChar(s: string, key: string, p: nat, i: nat)
    requires i < |key| && p + i < |s| && s[p + i] != key[i]
    ensures !KeyMatchAt(s, key, p)
  {
    if p + |key| <= |s| {
      assert s[p..p + |key|][i] == s[p + i];
    }
  }

  /** A key with no match before `p` and no `y` from `p` on has no match at all. */
  lemma MatchKeyNone(s: string, key: string, p: nat)
    requires |key| > 0 && key[0] == 'y' && p <= |s| && 'y' !in s[p..]
    requires forall q: nat :: q < p ==> !KeyMatchAt(s, key, q)
    ensures MatchKey(s, key) == None
  {
    assert s[p..] == s[p..|s|];
    NoMatchWithoutY(s, key, p, |s|);
  }

  /** The capture found after the first key occurrence, spelled out. */
  lemma MatchKeyIs(s: string, key: string, p: nat, id: string)
    requires KeyMatchAt(s, key, p) && forall q: nat :: q < p ==> !KeyMatchAt(s, key, q)
    requires p + |key| + |id| <= |s| && s[p + |key|..p + |key| + |id|] == id
    requires forall c :: c in id ==> !Excluded(c)
    requires p + |key| + |id| == |s| || Excluded(s[p + |key| + |id|])
    ensures MatchKey(s, key) == Some(id)
  {
    FirstKeyMatchIs(s, key, 0, p);
    RunLengthIs(s, p + |key|, |id|);
  }

  /** An id that can be captured after a key: non-empty and free of excluded characters. */
  predicate Capturable(id: string)
  {
    id != [] && forall c :: c in id ==> !Excluded(c)
  }

  /** What may follow a captured id: nothing, or an excluded character. */
  predicate Terminator(rest: string)
  {
    rest == [] || Excluded(rest[0])
  }

  /**
   * A key preceded by text without `y` and followed by a capturable id and a
   * terminator is found by its own pattern, which captures exactly the id.
   */
  lemma KeyLinkCaptured(pre: string, key: string, id: string, rest: string)
    requires |key| > 0 && key[0] == 'y' && 'y' !in pre
    requires Capturable(id) && Terminator(rest)
    ensures MatchKey(pre + key + id + rest, key) == Some(id)
  {
    var url := pre + key + id + rest;
    var p := |pre|;
    assert url[..p] == pre && url[p..p + |key|] == key;
    assert url[p + |key|..p + |key| + |id|] == id;
    assert url[p + |key|] == id[0];
    assert p + |key| + |id| < |url| ==> url[p + |key| + |id|] == rest[0];
    assert url[0..p] == pre;
    NoMatchWithoutY(url, key, 0, p);
    MatchKeyIs(url, key, p, id);
  }

  /**
   * Any `watch?v=` link yields its id, whatever comes before the key (a scheme,
   * `www.`, any text without `y`) and whatever comes after an excluded
   * character.
   */
  lemma WatchLinkCaptured(pre: string, id: string, rest: string)
    requires 'y' !in pre && Capturable(id) && Terminator(rest)
    ensures Extract(pre + WatchKey + id + rest) == Some(id)
  {
    KeyLinkCaptured(pre, WatchKey, id, rest);
    ExtractInOrder(pre + WatchKey + id + rest);
  }

  /** A string without `y` contains no key, so nothing is extracted. */
  lemma NoYNoId(url: string)
    requires 'y' !in url
    ensures Extract(url) == None
  {
    assert url[0..] == url;
    MatchKeyNone(url, WatchKey, 0);
    MatchKeyNone(url, EmbedKey, 0);
    MatchKeyNone(url, VKey, 0);
    MatchKeyNone(url, ShortKey, 0);
    ExtractInOrder(url);
  }

  /** Key matches at `k + q` in `s` are the key matches at `q` in `s[k..]`. */
  lemma KeyMatchShift(s: string, key: string, k: nat, q: nat)
    requires k <= |s|
    ensures KeyMatchAt(s, key, k + q) <==> KeyMatchAt(s[k..], key, q)
  {
    var t := s[k..];
    if k + q + |key| < |s| {
      assert s[k + q..k + q + |key|] == t[q..q + |key|];
      assert s[k + q + |key|] == t[q + |key|];
    }
  }

  /** The greedy run at `k + i` in `s` is the greedy run at `i` in `s[k..]`. */
  lemma RunLengthShift(s: string, k: nat, i: nat)
    requires k + i <= |s|
    ensures RunLength(s, k + i) == RunLength(s[k..], i)
  {
    var t := s[k..];
    var n := RunLength(t, i);
    assert s[k + i..k + i + n] == t[i..i + n];
    forall c | c in t[i..i + n] ensures !Excluded(c) {
      var m :| 0 <= m < n && t[i..i + n][m] == c;
      assert c == t[i + m];
    }
    assert k + i + n < |s| ==> s[k + i + n] == t[i + n];
    RunLengthIs(s, k + i, n);
  }

  /** No match before `k` in `s` and none before `p` in `s[k..]` means none before `k + p` in `s`. */
  lemma NoMatchShifted(s: string, key: string, k: nat, p: nat)
    requires k <= |s|
    requires forall q: nat :: q < k ==> !KeyMatchAt(s, key, q)
    requires forall q: nat :: q < p ==> !KeyMatchAt(s[k..], key, q)
    ensures forall q: nat :: q < k + p ==> !KeyMatchAt(s, key, q)
  {
    forall q: nat | k <= q < k + p ensures !KeyMatchAt(s, key, q) {
      KeyMatchShift(s, key, k, q - k);
    }
  }

  /** The capture after a key at `k + p` in `s` is the capture after it at `p` in `s[k..]`. */
  lemma CaptureShift(s: string, key: string, k: nat, p: nat)
    requires k + p + |key| <= |s|
    ensures CaptureAt(s, key, k + p) == CaptureAt(s[k..], key, p)
  {
    var t := s[k..];
    RunLengthShift(s, k, p + |key|);
    var n := RunLength(t, p + |key|);
    assert s[k + p + |key|..k + p + |key| + n] == t[p + |key|..p + |key| + n];
  }

  /**
   * When no match of a key starts before `k`, its pattern finds in `s` exactly
   * what it finds in `s[k..]`.
   */
  lemma MatchKeyShift(s: string, key: string, k: nat)
    requires k <= |s|
    requires forall q: nat :: q < k ==> !KeyMatchAt(s, key, q)
    ensures MatchKey(s, key) == MatchKey(s[k..], key)
  {
    var t := s[k..];
    var r := FirstKeyMatch(t, key, 0);
    if r.Some? {
      var p := r.value;
      KeyMatchShift(s, key, k, p);
      NoMatchShifted(s, key, k, p);
      FirstKeyMatchIs(s, key, 0, k + p);
      CaptureShift(s, key, k, p);
    } else {
      NoMatchShifted(s, key, k, |t|);
    }
  }

  /** Two strings on which each of the four patterns finds the same thing yield the same id. */
  lemma ExtractSame(u: string, v: string)
    requires MatchKey(u, WatchKey) == MatchKey(v, WatchKey)
    requires MatchKey(u, EmbedKey) == MatchKey(v, EmbedKey)
    requires MatchKey(u, VKey) == MatchKey(v, VKey)
    requires MatchKey(u, ShortKey) == MatchKey(v, ShortKey)
    ensures Extract(u) == Extract(v)
  {
    ExtractInOrder(u);
    ExtractInOrder(v);
  }

  /** The path of a watch page, up to its query string. */
  const WatchPage := "youtube.com/watch?"

  /** The page holds a single `y`, at its start. */
  lemma WatchPageOneY()
    ensures |WatchPage| == 18 && WatchPage[0] == 'y' && 'y' !in WatchPage[1..]
  {
  }

  /**
   * `v=` must follow `watch?` directly. When the query does not start with
   * `v=`, the watch page itself yields nothing, whatever text without `y`
   * (a scheme, `www.`) comes before it: the result is what the query alone
   * yields, so a query without `y` yields null.
   */
  lemma WatchNeedsVFirst(pre: string, query: string)
    requires 'y' !in pre && !(|query| >= 2 && query[0] == 'v' && query[1] == '=')
    ensures Extract(pre + WatchPage + query) == Extract(query)
    ensures 'y' !in query ==> Extract(pre + WatchPage + query) == None
  {
    WatchKeyNotOnPage(pre, query);
    WatchPageKeyAbsent(pre, query, EmbedKey, 12);
    WatchPageKeyAbsent(pre, query, VKey, 12);
    WatchPageKeyAbsent(pre, query, ShortKey, 5);
    ExtractSame(pre + WatchPage + query, query);
    if 'y' !in query {
      NoYNoId(query);
    }
  }

  /** The `watch?v=` key does not match on the page when the query does not start with `v=`. */
  lemma WatchKeyNotOnPage(pre: string, query: string)
    requires 'y' !in pre && !(|query| >= 2 && query[0] == 'v' && query[1] == '=')
    ensures MatchKey(pre + WatchPage + query, WatchKey) == MatchKey(query, WatchKey)
  {
    var page := WatchPage + query;
    if |query| >= 2 {
      var i := if query[0] != 'v' then 18 else 19;
      assert page[i] == query[i - 18];
      WatchPageKeyAbsent(pre, query, WatchKey, i);
    } else {
      WatchPageKeyAbsent(pre, query, WatchKey, 18 + |query|);
    }
  }

  /**
   * Before the query of a watch page a key can start only at the page's `y`,
   * and one position where it differs from the page (or the page's end) rules
   * that out; so the key finds in the URL what it finds in the query.
   */
  lemma WatchPageKeyAbsent(pre: string, query: string, key: string, i: nat)
    requires 'y' !in pre && |key| > 0 && key[0] == 'y'
    requires var page := WatchPage + query;
      i <= |key| && (i == |page| || (i < |page| && i < |key| && page[i] != key[i]))
    ensures MatchKey(pre + WatchPage + query, key) == MatchKey(query, key)
  {
    var url := pre + WatchPage + query;
    var p := |pre|;
    var k := p + |WatchPage|;
    WatchPageOneY();
    assert url[0..p] == pre;
    NoMatchWithoutY(url, key, 0, p);
    if i < |WatchPage + query| {
      assert url[p + i] == (WatchPage + query)[i];
      NoKeyMatchAtChar(url, key, p, i);
    }
    assert url[p + 1..k] == WatchPage[1..];
    NoMatchWithoutY(url, key, p + 1, k);
    assert url[k..] == query;
    MatchKeyShift(url, key, k);
  }

  /** No other key occurs in a short link: they differ from it at the sixth character. */
  lemma ShortLinkOtherKeyAbsent(pre: string, id: string, rest: string, key: string)
    requires 'y' !in pre && 'y' !in id && 'y' !in rest
    requires |key| > 5 && key[0] == 'y' && key[5] == 'b'
    ensures MatchKey(pre + ShortKey + id + rest, key) == None
  {
    var url := pre + ShortKey + id + rest;
    var p := |pre|;
    assert url[0..p] == pre;
    assert url[p + 1..] == "outu.be/" + id + rest;
    assert url[p + 5] == '.';
    NoMatchWithoutY(url, key, 0, p);
    NoKeyMatchAtChar(url, key, p, 5);
    MatchKeyNone(url, key, p + 1);
  }

  /**
   * A short link yields everything after `youtu.be/` up to an excluded
   * character (`/` is not excluded, so it stays inside the id), unless one
   * of the three `youtube.com` patterns, which are tried first, matches
   * somewhere in the string.
   */
  lemma ShortLinkCaptured(pre: string, id: string, rest: string)
    requires 'y' !in pre && Capturable(id) && Terminator(rest)
    requires var url := pre + ShortKey + id + rest;
      MatchKey(url, WatchKey).None? && MatchKey(url, EmbedKey).None? && MatchKey(url, VKey).None?
    ensures Extract(pre + ShortKey + id + rest) == Some(id)
  {
    KeyLinkCaptured(pre, ShortKey, id, rest);
    ExtractInOrder(pre + ShortKey + id + rest);
  }

  /** Those patterns cannot match when nothing around the short link holds a `y`. */
  lemma ShortLinkWithoutY(pre: string, id: string, rest: string)
    requires 'y' !in pre && 'y' !in id && 'y' !in rest && Capturable(id) && Terminator(rest)
    ensures Extract(pre + ShortKey + id + rest) == Some(id)
  {
    ShortLinkOtherKeyAbsent(pre, id, rest, WatchKey);
    ShortLinkOtherKeyAbsent(pre, id, rest, EmbedKey);
    ShortLinkOtherKeyAbsent(pre, id, rest, VKey);
    ShortLinkCaptured(pre, id, rest);
  }

  /** A string no longer than a key holds no match of it. */
  lemma TooShortForKey(s: string, key: string)
    requires |s| <= |key|
    ensures MatchKey(s, key) == None
  {
  }

  /** A short link, some text without `y`, then a `/v/` link with its id. */
  function ShortThenV(between: string, id: string): string
  {
    ShortKey + between + VKey + id
  }

  /** In such a string, the short link's key matches at the very start. */
  lemma ShortKeyFirst(between: string, id: string)
    requires between == [] || !Excluded(between[0])
    ensures KeyMatchAt(ShortThenV(between, id), ShortKey, 0)
  {
    var url := ShortThenV(between, id);
    assert url[0..|ShortKey|] == ShortKey;
    assert url[|ShortKey|] == if between == [] then 'y' else between[0];
  }

  /** Where the pieces of such a string sit, and that `y` occurs only at the two key starts. */
  lemma ShortThenVLayout(between: string, id: string)
    requires 'y' !in between && 'y' !in id
    ensures var url, p := ShortThenV(between, id), |ShortKey| + |between|;
            |url| == p + |VKey| + |id|
            && 'y' !in url[1..p] && 'y' !in url[p + 1..]
            && url[5] == '.' && url[p + 12] == 'v'
            && url[p..p + |VKey|] == VKey && url[p + |VKey|..] == id
  {
    var url, p := ShortThenV(between, id), |ShortKey| + |between|;
    var a, b := ShortKey + between, VKey + id;
    assert url == a + b;
    assert url[p..] == b;
    forall i | 1 <= i < p
      ensures url[i] != 'y'
    {
      assert url[i] == a[i];
      if i >= |ShortKey| {
        assert a[i] == between[i - |ShortKey|];
      }
    }
    forall i | p + 1 <= i < |url|
      ensures url[i] != 'y'
    {
      assert url[i] == b[i - p];
      if i - p >= |VKey| {
        assert b[i - p] == id[i - p - |VKey|];
      }
    }
    assert b[..|VKey|] == VKey && b[|VKey|..] == id;
  }

  /**
   * Neither `watch?v=` nor `embed/` occurs in such a string: they differ from
   * the short key at its sixth character and from the `/v/` key at its
   * thirteenth.
   */
  lemma OtherKeyAbsent(between: string, id: string, key: string)
    requires 'y' !in between && 'y' !in id
    requires |key| > 12 && key[0] == 'y' && key[5] == 'b' && key[12] != 'v'
    ensures MatchKey(ShortThenV(between, id), key) == None
  {
    var url, p := ShortThenV(between, id), |ShortKey| + |between|;
    ShortThenVLayout(between, id);
    NoKeyMatchAtChar(url, key, 0, 5);
    NoMatchWithoutY(url, key, 1, p);
    NoKeyMatchAtChar(url, key, p, 12);
    MatchKeyNone(url, key, p + 1);
  }

  /** The `/v/` pattern skips the short link and captures the id after its own key. */
  lemma VKeyCaptures(between: string, id: string)
    requires 'y' !in between && 'y' !in id && Capturable(id)
    ensures MatchKey(ShortThenV(between, id), VKey) == Some(id)
  {
    var url, p := ShortThenV(between, id), |ShortKey| + |between|;
    ShortThenVLayout(between, id);
    assert url[p + |VKey|] == id[0];
    assert url[p + |VKey|..p + |VKey| + |id|] == id;
    NoKeyMatchAtChar(url, VKey, 0, 5);
    NoMatchWithoutY(url, VKey, 1, p);
    MatchKeyIs(url, VKey, p, id);
  }

  /**
   * The patterns are tried in order: a `/v/` link yields its id even when a
   * short link occurs earlier in the string and would match on its own.
   */
  lemma LaterPatternWins(between: string, id: string)
    requires 'y' !in between && 'y' !in id && Capturable(id)
    requires between == [] || !Excluded(between[0])
    ensures MatchKey(ShortThenV(between, id), ShortKey).Some?
    ensures Extract(ShortThenV(between, id)) == Some(id)
  {
    var url := ShortThenV(between, id);
    ShortKeyFirst(between, id);
    FirstKeyMatchIs(url, ShortKey, 0, 0);
    OtherKeyAbsent(between, id, WatchKey);
    OtherKeyAbsent(between, id, EmbedKey);
    VKeyCaptures(between, id);
    ExtractInOrder(url);
  }

  // The cases below spell the general lemmas out on concrete URLs; each URL is
  // first shown equal to the pieces the general lemma speaks of.

  lemma WatchUrlPieces()
    ensures "https://www.youtube.com/watch?v=abc123&t=5" == "https://www." + WatchKey + "abc123" + "&t=5"
  {
  }

  /** A full watch URL yields the id up to the first `&`. */
  lemma ExampleWatchUrl()
    ensures Extract("https://www.youtube.com/watch?v=abc123&t=5") == Some("abc123")
  {
    WatchLinkCaptured("https://www.", "abc123", "&t=5");
    WatchUrlPieces();
  }

  /** Free text yields nothing. */
  lemma ExampleNotAUrl()
    ensures Extract("not a url") == None
  {
    NoYNoId("not a url");
  }

  /** A `v` parameter that is not the first one is not found. */
  lemma ExampleVNotFirstParameter()
    ensures Extract("youtube.com/watch?feature=x&v=abc") == None
  {
    WatchNeedsVFirst("", "feature=x&v=abc");
    assert "" + WatchPage + "feature=x&v=abc" == "youtube.com/watch?feature=x&v=abc";
  }

  lemma ShortLinkInQueryPieces()
    ensures "youtube.com/watch?list=1&u=youtu.be/x" == "" + WatchPage + "list=1&u=youtu.be/x"
    ensures "list=1&u=youtu.be/x" == "list=1&u=" + ShortKey + "x" + ""
  {
  }

  /** A short link inside the query of a watch page is still found. */
  lemma ExampleShortLinkInQuery()
    ensures Extract("youtube.com/watch?list=1&u=youtu.be/x") == Some("x")
  {
    ShortLinkInQueryPieces();
    WatchNeedsVFirst("", "list=1&u=youtu.be/x");
    ShortLinkWithoutY("list=1&u=", "x", "");
  }

  /** A short link keeps a `/` inside the id. */
  lemma ExampleSlashKept()
    ensures Extract("youtu.be/abc/def") == Some("abc/def")
  {
    ShortLinkWithoutY("", "abc/def", "");
    assert "" + ShortKey + "abc/def" + "" == "youtu.be/abc/def";
  }

  /** A short link keeps a `y` inside the id. */
  lemma ExampleShortLinkWithY()
    ensures Extract("youtu.be/xyz") == Some("xyz")
  {
    var url := "youtu.be/xyz";
    assert "" + ShortKey + "xyz" + "" == url;
    TooShortForKey(url, WatchKey);
    TooShortForKey(url, EmbedKey);
    TooShortForKey(url, VKey);
    ShortLinkCaptured("", "xyz", "");
  }

  lemma PatternOrderPieces()
    ensures ShortThenV("zzz ", "abc") == "youtu.be/zzz youtube.com/v/abc"
  {
  }

  /** The `/v/` pattern is tried before the short link that comes first in the string. */
  lemma ExamplePatternOrder()
    ensures Extract("youtu.be/zzz youtube.com/v/abc") == Some("abc")
  {
    LaterPatternWins("zzz ", "abc");
    PatternOrderPieces();
  }
}
