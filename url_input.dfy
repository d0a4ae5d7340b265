/**
 * The URL form: a validity hint shown while typing, the submit handler and
 * the rule that disables the submit button.
 */
module UrlInput {
  import opened Wrappers
  import Text

  // -------------------------------------------------------------- validity

  /** The characters `.` in a JavaScript regular expression does not match. */
  predicate LineTerminator(c: char)
  {
    c == '\n' || c == '\r' || c == '\U{2028}' || c == '\U{2029}'
  }

  datatype Scheme = Https | Http | NoScheme
  datatype Www = WithWww | NoWww
  datatype Host = YouTubeCom | YoutuBe

  function SchemeText(scheme: Scheme): string
  {
    match scheme
    case Https => "https://"
    case Http => "http://"
    case NoScheme => ""
  }

  function WwwText(www: Www): string
  {
    match www
    case WithWww => "www."
    case NoWww => ""
  }

  function HostText(host: Host): string
  {
    match host
    case YouTubeCom => "youtube.com"
    case YoutuBe => "youtu.be"
  }

  /**
   * `url` splits as an optional scheme, an optional `www.`, a host, a slash
   * and a rest whose first character is not a line terminator: the reading of
   * `^(https?:\/\/)?(www\.)?(youtube\.com|youtu\.be)\/.+` with the split given.
   */
  ghost predicate SplitsAs(url: string, scheme: Scheme, www: Www, host: Host, rest: string)
  {
    url == SchemeText(scheme) + WwwText(www) + HostText(host) + "/" + rest
    && rest != [] && !LineTerminator(rest[0])
  }

  /** The pattern, read as a set of strings: some split exists. */
  ghost predicate MatchesPattern(url: string)
  {
    exists scheme, www, host, rest :: SplitsAs(url, scheme, www, host, rest)
  }

  predicate StartsWith(s: string, p: string)
  {
    |p| <= |s| && s[..|p|] == p
  }

  lemma StartsWithSplits(s: string, p: string)
    requires StartsWith(s, p)
    ensures s == p + s[|p|..]
  {
  }

  /** The scheme `url` starts with, if any. */
  function SchemeOf(url: string): (r: Scheme)
    ensures StartsWith(url, SchemeText(r))
  {
    if StartsWith(url, "https://") then Https
    else if StartsWith(url, "http://") then Http
    else assert url[..0] == ""; NoScheme
  }

  /** Whether `s` starts with `www.`. */
  function WwwOf(s: string): (r: Www)
    ensures StartsWith(s, WwwText(r))
  {
    if StartsWith(s, "www.") then WithWww else assert s[..0] == ""; NoWww
  }

  /** The host `s` starts with, followed by its slash, if any. */
  function HostOf(s: string): (r: Option<Host>)
    ensures r.Some? ==> StartsWith(s, HostText(r.value) + "/")
  {
    if StartsWith(s, "youtube.com/") then Some(YouTubeCom)
    else if StartsWith(s, "youtu.be/") then Some(YoutuBe)
    else None
  }

  /** What follows the host and its slash at the start of `s`, if they are there. */
  function AfterHost(s: string): Option<string>
  {
    match HostOf(s)
    case None => None
    case Some(host) => Some(s[|HostText(host)| + 1..])
  }

  /** What follows an optional `www.` and the host. */
  function AfterWww(s: string): Option<string>
  {
    AfterHost(s[|WwwText(WwwOf(s))|..])
  }

  /** What follows the optional scheme, the optional `www.` and the host. */
  function PathOf(url: string): Option<string>
  {
    AfterWww(url[|SchemeText(SchemeOf(url))|..])
  }

  /**
   * `isValidYouTubeUrl`: the pattern read left to right. No part can be
   * skipped to let a later part match, since `h`, `w` and `y` start the three
   * parts, so reading greedily is the whole of the regular-expression search.
   */
  function IsValidYouTubeUrl(url: string): bool
  {
    var rest := PathOf(url);
    rest.Some? && rest.value != [] && !LineTerminator(rest.value[0])
  }

  /** The host reading splits `s` into the host, its slash and what follows. */
  lemma AfterHostSplits(s: string)
    requires AfterHost(s).Some?
    ensures s == HostText(HostOf(s).value) + "/" + AfterHost(s).value
  {
    StartsWithSplits(s, HostText(HostOf(s).value) + "/");
  }

  /** Two prefixes read one after the other, then the rest, put back together. */
  lemma Glue(url: string, p1: string, p2: string, p3: string, rest: string)
    requires StartsWith(url, p1) && StartsWith(url[|p1|..], p2)
    requires url[|p1|..][|p2|..] == p3 + rest
    ensures url == p1 + p2 + p3 + rest
  {
    StartsWithSplits(url, p1);
    StartsWithSplits(url[|p1|..], p2);
  }

  /** The left-to-right reading accepts a URL only along a split the pattern allows. */
  lemma ValidHasSplit(url: string)
    requires IsValidYouTubeUrl(url)
    ensures MatchesPattern(url)
  {
    var scheme := SchemeOf(url);
    var a := url[|SchemeText(scheme)|..];
    var www := WwwOf(a);
    var b := a[|WwwText(www)|..];
    var host, rest := HostOf(b).value, AfterHost(b).value;
    AfterHostSplits(b);
    Glue(url, SchemeText(scheme), WwwText(www), HostText(host) + "/", rest);
    assert SplitsAs(url, scheme, www, host, rest);
  }

  /** After an optional scheme, the reading finds exactly that scheme when `w` or `y` follows. */
  lemma SchemeOfIs(scheme: Scheme, t: string)
    requires t != [] && (t[0] == 'w' || t[0] == 'y')
    ensures SchemeOf(SchemeText(scheme) + t) == scheme
  {
    var url := SchemeText(scheme) + t;
    match scheme
    case NoScheme => assert url[0] == t[0];
    case Https => assert url[..8] == "https://";
    case Http => assert url[4] == ':';
  }

  lemma WwwOfIs(www: Www, t: string)
    requires t != [] && t[0] == 'y'
    ensures WwwOf(WwwText(www) + t) == www
  {
    var s := WwwText(www) + t;
    match www
    case NoWww => assert s[0] == 'y';
    case WithWww => assert s[..4] == "www.";
  }

  lemma HostOfIs(host: Host, rest: string)
    ensures HostOf(HostText(host) + "/" + rest) == Some(host)
  {
    var s := HostText(host) + "/" + rest;
    match host
    case YouTubeCom => assert s[..12] == "youtube.com/";
    case YoutuBe =>
      assert s[5] == '.';
      assert s[..9] == "youtu.be/";
  }

  lemma AfterHostIs(host: Host, rest: string)
    ensures AfterHost(HostText(host) + "/" + rest) == Some(rest)
  {
    HostOfIs(host, rest);
  }

  lemma AfterWwwIs(www: Www, t: string)
    requires t != [] && t[0] == 'y'
    ensures AfterWww(WwwText(www) + t) == AfterHost(t)
  {
    WwwOfIs(www, t);
    assert (WwwText(www) + t)[|WwwText(www)|..] == t;
  }

  lemma PathOfSchemeIs(scheme: Scheme, t: string)
    requires t != [] && (t[0] == 'w' || t[0] == 'y')
    ensures PathOf(SchemeText(scheme) + t) == AfterWww(t)
  {
    SchemeOfIs(scheme, t);
    assert (SchemeText(scheme) + t)[|SchemeText(scheme)|..] == t;
  }

  /** The reading of a split URL finds the split's parts and leaves its rest. */
  lemma PathOfIs(scheme: Scheme, www: Www, host: Host, rest: string)
    ensures PathOf(SchemeText(scheme) + WwwText(www) + HostText(host) + "/" + rest) == Some(rest)
  {
    var b := HostText(host) + "/" + rest;
    var a := WwwText(www) + b;
    assert SchemeText(scheme) + WwwText(www) + HostText(host) + "/" + rest == SchemeText(scheme) + a;
    assert b[0] == 'y';
    assert a[0] == 'w' || a[0] == 'y';
    PathOfSchemeIs(scheme, a);
    AfterWwwIs(www, b);
    AfterHostIs(host, rest);
  }

  /** The validator accepts exactly the strings the pattern describes. */
  lemma ValidIff(url: string)
    ensures IsValidYouTubeUrl(url) <==> MatchesPattern(url)
  {
    if IsValidYouTubeUrl(url) {
      ValidHasSplit(url);
    }
    if MatchesPattern(url) {
      var scheme, www, host, rest :| SplitsAs(url, scheme, www, host, rest);
      PathOfIs(scheme, www, host, rest);
    }
  }

  /** A host with its slash but nothing after it is not a video link. */
  lemma HostOnlyRejected(scheme: Scheme, www: Www, host: Host)
    ensures !IsValidYouTubeUrl(SchemeText(scheme) + WwwText(www) + HostText(host) + "/")
  {
    PathOfIs(scheme, www, host, "");
    assert SchemeText(scheme) + WwwText(www) + HostText(host) + "/" + ""
        == SchemeText(scheme) + WwwText(www) + HostText(host) + "/";
  }

  lemma HostOfBare(host: Host)
    ensures HostOf(HostText(host)) == None
  {
    var s := HostText(host);
    if host == YouTubeCom {
      assert s[5] == 'b';
    }
  }

  /** A bare host, without its slash, is not a video link either. */
  lemma BareHostRejected(scheme: Scheme, www: Www, host: Host)
    ensures !IsValidYouTubeUrl(SchemeText(scheme) + WwwText(www) + HostText(host))
  {
    var b := HostText(host);
    var a := WwwText(www) + b;
    assert SchemeText(scheme) + WwwText(www) + HostText(host) == SchemeText(scheme) + a;
    assert b[0] == 'y';
    assert a[0] == 'w' || a[0] == 'y';
    PathOfSchemeIs(scheme, a);
    AfterWwwIs(www, b);
    HostOfBare(host);
  }

  lemma ShortLinkPieces()
    ensures "https://youtu.be/abc" == SchemeText(Https) + WwwText(NoWww) + HostText(YoutuBe) + "/" + "abc"
  {
  }

  lemma ExampleShortLinkValid()
    ensures IsValidYouTubeUrl("https://youtu.be/abc")
  {
    PathOfIs(Https, NoWww, YoutuBe, "abc");
    ShortLinkPieces();
  }

  lemma BareHostPieces()
    ensures "youtube.com" == SchemeText(NoScheme) + WwwText(NoWww) + HostText(YouTubeCom)
  {
  }

  lemma ExampleBareHostInvalid()
    ensures !IsValidYouTubeUrl("youtube.com")
  {
    BareHostRejected(NoScheme, NoWww, YouTubeCom);
    BareHostPieces();
  }

  // ------------------------------------------------------------- submission

  /**
   * `handleSubmit`: the trimmed URL goes to `onSubmit` when it is non-empty
   * and a callback was given; `None` means nothing is submitted.
   */
  function HandleSubmit(url: string, hasOnSubmit: bool): Option<string>
  {
    var trimmed := Text.Trim(url);
    if trimmed != "" && hasOnSubmit then Some(trimmed) else None
  }

  /** The form submits exactly when a callback is given and the URL is not all white space. */
  lemma SubmitIff(url: string, hasOnSubmit: bool)
    ensures HandleSubmit(url, hasOnSubmit).Some? <==> hasOnSubmit && !Text.AllSpace(url)
  {
    Text.TrimEmptyIff(url);
  }

  /**
   * What is submitted is the URL between its leading and trailing white
   * space: it neither starts nor ends with white space and trims to itself.
   */
  lemma SubmittedIsTrimmed(url: string, hasOnSubmit: bool)
    requires HandleSubmit(url, hasOnSubmit).Some?
    ensures var v := HandleSubmit(url, hasOnSubmit).value;
            v != [] && !Text.IsSpace(v[0]) && !Text.IsSpace(v[|v| - 1])
            && Text.Trim(v) == v
            && exists i, j :: 0 <= i <= j <= |url| && v == url[i..j]
                              && Text.AllSpace(url[..i]) && Text.AllSpace(url[j..])
  {
    Text.TrimSpec(url);
    Text.TrimIdempotent(url);
  }

  /** Submission does not consult the validator: a string it rejects is still submitted. */
  lemma ExampleInvalidUrlSubmitted()
    ensures !IsValidYouTubeUrl("not a url")
    ensures HandleSubmit("not a url", true) == Some("not a url")
  {
    var s := "not a url";
    assert !Text.IsSpace(s[0]) && !Text.IsSpace(s[|s| - 1]);
    assert Text.TrimStart(s) == s[0..] == s;
    assert Text.TrimEnd(s) == s[..|s|] == s;
    assert s[..0] == "" && s[0] == 'n';
  }

  /** The submit button: disabled while the URL is all white space or a request is running. */
  predicate SubmitDisabled(url: string, isLoading: bool)
  {
    Text.Trim(url) == "" || isLoading
  }

  /**
   * When nothing is loading, the button is enabled exactly when submitting
   * (with a callback) would hand a URL over; `handleSubmit` itself does not
   * look at the loading flag.
   */
  lemma DisabledMatchesSubmit(url: string, isLoading: bool)
    ensures SubmitDisabled(url, isLoading) <==> isLoading || Text.AllSpace(url)
    ensures !SubmitDisabled(url, false) <==> HandleSubmit(url, true).Some?
  {
    Text.TrimEmptyIff(url);
  }
}
