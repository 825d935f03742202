/** Deep links and invite codes (client/src/deep_link.rs). Texts are strings of characters; only
    `lounge_link_code` looks at the length in bytes. */
module DeepLinks {
  import opened Text
  import opened Wrappers

  datatype DeepLink = Join(code: string) | Crew(id: string)

  const SCHEME := "mello://"

  predicate StartsWith(s: string, prefix: string) { prefix <= s }

  /** `split(c).next()`: what comes before the first `c`. */
  function Before(s: string, c: char): (r: string)
    ensures r <= s && forall i :: 0 <= i < |r| ==> r[i] != c
    ensures |r| < |s| ==> s[|r|] == c
  {
    if s == "" || s[0] == c then "" else [s[0]] + Before(s[1..], c)
  }

  /** `trim_end_matches('/')`. */
  function TrimSlashes(s: string): (r: string)
    ensures r <= s
  {
    if s != "" && s[|s| - 1] == '/' then TrimSlashes(s[..|s| - 1]) else s
  }

  /** The path of a link: without query, fragment and slashes at the end. */
  function Core(path: string): string { TrimSlashes(Before(Before(path, '?'), '#')) }

  /** What follows the first slash. */
  function AfterSlash(s: string): Option<string> {
    var head := Before(s, '/');
    if |head| < |s| then Some(s[|head| + 1..]) else None
  }

  /** Where "://" is first. */
  function FindScheme(s: string): (r: Option<nat>)
    ensures r.Some? ==> r.value + 3 <= |s|
  {
    if |s| < 3 then None
    else if s[..3] == "://" then Some(0)
    else match FindScheme(s[1..])
      case None => None
      case Some(i) => Some(i + 1)
  }

  function ExtractValue(url: string, len: nat): Option<string> {
    var at := FindScheme(url);
    if at.None? then None
    else
      var val := AfterSlash(Core(url[at.value + 3..]));
      if val.None? then None
      else if |val.value| >= len then Some(val.value[..len]) else val
  }

  /** `parse`: matched in lower case, returned in the case that was given. */
  function Parse(url: string): Option<DeepLink> {
    var lower := Lower(url);
    if !StartsWith(lower, SCHEME) then None
    else
      var path := Core(lower[|SCHEME|..]);
      var value := AfterSlash(path);
      if value.None? || value.value == "" then None
      else
        var original := ExtractValue(url, |value.value|);
        if original.None? then None
        else if Before(path, '/') == "join" then Some(Join(original.value))
        else if Before(path, '/') == "crew" then Some(Crew(original.value))
        else None
  }

  // ----- codes and names -----

  predicate IsAlnum(c: char) { '0' <= c <= '9' || 'A' <= c <= 'Z' || 'a' <= c <= 'z' }

  predicate AllAlnum(s: string) { forall i :: 0 <= i < |s| ==> IsAlnum(s[i]) }

  /** `replacen('-', "", 1)`. */
  function DropDash(s: string): string {
    var head := Before(s, '-');
    if |head| < |s| then head + s[|head| + 1..] else s
  }

  function NormalizeInviteCode(raw: string): Option<string> {
    var compact := DropDash(raw);
    if |compact| != 8 || !AllAlnum(compact) then None
    else if '-' in raw && |Before(raw, '-')| != 4 then None
    else var upper := Upper(compact); Some(upper[..4] + "-" + upper[4..])
  }

  predicate HasDoubleDash(s: string) { exists i :: 0 < i < |s| && s[i - 1] == '-' && s[i] == '-' }

  function NormalizeInviteName(raw: string): Option<string> {
    if 3 <= |raw| <= 24 && (forall i :: 0 <= i < |raw| ==> IsAlnum(raw[i]) || raw[i] == '-')
       && raw[0] != '-' && raw[|raw| - 1] != '-' && !HasDoubleDash(raw)
    then Some(Upper(raw)) else None
  }

  function NormalizeLinkCode(raw: string): Option<string> {
    var code := NormalizeInviteCode(raw);
    if code.Some? then code else NormalizeInviteName(raw)
  }

  function CodeOf(link: Option<DeepLink>): Option<string> {
    if link.Some? && link.value.Join? then NormalizeLinkCode(link.value.code) else None
  }

  // ----- invite input -----

  const HTTPS := "https://"
  const HTTP := "http://"
  const WWW := "www."
  const HOST := "m3llo.app/"

  function SkipScheme(lower: string): (skip: nat)
    ensures skip <= |lower|
  {
    if StartsWith(lower, HTTPS) then |HTTPS| else if StartsWith(lower, HTTP) then |HTTP| else 0
  }

  function SkipWww(lower: string): (skip: nat)
    ensures skip <= |lower|
  {
    var skip := SkipScheme(lower);
    if StartsWith(lower[skip..], WWW) then skip + |WWW| else skip
  }

  function WebPath(input: string): Option<string> {
    var skip := SkipWww(Lower(input));
    if StartsWith(Lower(input)[skip..], HOST) then Some(input[skip + |HOST|..]) else None
  }

  /** `web_join_path`, with its loop over the schemes. */
  method WebJoinPath(input: string, lower: string) returns (rest: Option<string>)
    requires lower == Lower(input)
    ensures rest == WebPath(input)
  {
    var skip := 0;
    var schemes := [HTTPS, HTTP];
    for i := 0 to |schemes|
      invariant skip == 0 && forall j :: 0 <= j < i ==> !StartsWith(lower, schemes[j])
    {
      if StartsWith(lower, schemes[i]) {
        skip := |schemes[i]|;
        break;
      }
    }
    assert schemes[0] == HTTPS && schemes[1] == HTTP;
    assert skip == SkipScheme(lower);
    if StartsWith(lower[skip..], WWW) { skip := skip + |WWW|; }
    if !StartsWith(lower[skip..], HOST) { return None; }
    rest := Some(input[skip + |HOST|..]);
  }

  function ReadInvite(input: string): Option<string> {
    if StartsWith(Lower(input), SCHEME) then CodeOf(Parse(input))
    else
      var rest := WebPath(input);
      if rest.Some? then CodeOf(Parse(SCHEME + rest.value)) else NormalizeInviteCode(input)
  }

  function ParseInviteInput(text: string): Option<string> {
    ReadInvite(Trim(text))
  }

  // ----- the clipboard -----

  const MAX_LOUNGE_LINK_LEN := 256

  function Utf8Size(c: char): nat {
    if c as int < 0x80 then 1 else if c as int < 0x800 then 2 else if c as int < 0x1_0000 then 3 else 4
  }

  function Utf8Len(s: string): nat { if s == "" then 0 else Utf8Size(s[0]) + Utf8Len(s[1..]) }

  /** The path `join/...` of a link to the host; an empty host stands for any. */
  function JoinPath(lower: string, host: string): Option<string> {
    var skip := SkipScheme(lower);
    var rest := lower[skip..];
    var given := Before(rest, '/');
    if skip == 0 || |given| == |rest| then None
    else if host != "" && given != Lower(host) && given != WWW + Lower(host) then None
    else if StartsWith(rest[|given| + 1..], "join/") then Some(rest[|given| + 1..])
    else None
  }

  function LoungeLinkCode(text: string, host: string): Option<string> {
    if Utf8Len(text) > MAX_LOUNGE_LINK_LEN then None
    else
      var path := JoinPath(Lower(Trim(text)), host);
      if path.Some? then CodeOf(Parse(SCHEME + path.value)) else None
  }

  // ----- lower case changes nothing that is looked at -----

  predicate Caseless(c: char) { !('a' <= c <= 'z') && !('A' <= c <= 'Z') }

  lemma LowerSlice(s: string, i: nat, j: nat)
    requires i <= j <= |s|
    ensures Lower(s)[i..j] == Lower(s[i..j])
  {
  }

  lemma LowerTail(s: string, i: nat)
    requires i <= |s|
    ensures Lower(s)[i..] == Lower(s[i..])
  {
  }

  lemma LowerTwice(s: string)
    ensures Lower(Lower(s)) == Lower(s)
  {
  }

  lemma {:induction false} BeforeIs(s: string, c: char, n: nat)
    requires n <= |s| && (forall i :: 0 <= i < n ==> s[i] != c) && (n < |s| ==> s[n] == c)
    ensures Before(s, c) == s[..n]
  {
    if n > 0 {
      BeforeIs(s[1..], c, n - 1);
      assert s[..n] == [s[0]] + s[1..][..n - 1];
    }
  }

  lemma BeforeLower(s: string, c: char)
    requires Caseless(c)
    ensures Before(Lower(s), c) == Lower(Before(s, c))
  {
    var n := |Before(s, c)|;
    assert Before(s, c) == s[..n];
    BeforeIs(Lower(s), c, n);
    LowerSlice(s, 0, n);
  }

  lemma {:induction false} TrimSlashesLower(s: string)
    ensures TrimSlashes(Lower(s)) == Lower(TrimSlashes(s))
  {
    if s != "" && s[|s| - 1] == '/' {
      LowerSlice(s, 0, |s| - 1);
      TrimSlashesLower(s[..|s| - 1]);
    }
  }

  lemma CoreLower(path: string)
    ensures Core(Lower(path)) == Lower(Core(path))
  {
    BeforeLower(path, '?');
    BeforeLower(Before(path, '?'), '#');
    TrimSlashesLower(Before(Before(path, '?'), '#'));
  }

  lemma AfterSlashLower(s: string)
    ensures AfterSlash(Lower(s)) == match AfterSlash(s) case None => None case Some(v) => Some(Lower(v))
  {
    BeforeLower(s, '/');
    if |Before(s, '/')| < |s| { LowerTail(s, |Before(s, '/')| + 1); }
  }

  lemma {:induction false} FindFirst(s: string, i: nat)
    requires i + 3 <= |s| && s[i..][..3] == "://" && forall k :: 0 <= k < i ==> s[k] != ':'
    ensures FindScheme(s) == Some(i)
  {
    if i > 0 {
      assert s[1..][i - 1..] == s[i..];
      FindFirst(s[1..], i - 1);
      assert s[..3][0] == s[0];
    }
  }

  lemma SchemeChars(url: string)
    requires StartsWith(Lower(url), SCHEME)
    ensures |url| >= 8 && url[5..][..3] == "://" && forall k :: 0 <= k < 5 ==> url[k] != ':'
  {
    forall i | 0 <= i < 8 ensures LowerChar(url[i]) == SCHEME[i] { assert Lower(url)[i] == SCHEME[i]; }
    assert url[5] == ':' && url[6] == '/' && url[7] == '/';
  }

  lemma SchemeAtFive(url: string)
    requires StartsWith(Lower(url), SCHEME)
    ensures |url| >= 8 && FindScheme(url) == Some(5)
  {
    SchemeChars(url);
    FindFirst(url, 5);
  }

  // ----- `parse` keeps the case -----

  /** The reading in one pass: the scheme and the action in any case, the value as it stands. */
  function Direct(url: string): Option<DeepLink> {
    if !StartsWith(Lower(url), SCHEME) then None
    else
      var core := Core(url[|SCHEME|..]);
      var value := AfterSlash(core);
      if value.None? || value.value == "" then None
      else if Lower(Before(core, '/')) == "join" then Some(Join(value.value))
      else if Lower(Before(core, '/')) == "crew" then Some(Crew(value.value))
      else None
  }

  lemma Extracted(url: string, value: string)
    requires FindScheme(url) == Some(5) && |url| >= 8 && AfterSlash(Core(url[8..])) == Some(value)
    ensures ExtractValue(url, |value|) == Some(value)
  {
    assert value[..|value|] == value;
  }

  /** The lowered link has the lowered action and the lowered value. */
  lemma LoweredParts(url: string)
    requires StartsWith(Lower(url), SCHEME) && |url| >= 8
    ensures var core, path := Core(url[8..]), Core(Lower(url)[8..]);
            && Before(path, '/') == Lower(Before(core, '/'))
            && AfterSlash(path) == match AfterSlash(core) case None => None case Some(v) => Some(Lower(v))
  {
    LowerTail(url, 8);
    CoreLower(url[8..]);
    AfterSlashLower(Core(url[8..]));
    BeforeLower(Core(url[8..]), '/');
  }

  /** Matching in lower case and then looking the value up again in the original gives what one pass
      over the original gives: the value in its own case. */
  lemma ParseIsDirect(url: string)
    ensures Parse(url) == Direct(url)
  {
    if StartsWith(Lower(url), SCHEME) {
      SchemeAtFive(url);
      LoweredParts(url);
      var value := AfterSlash(Core(url[8..]));
      if value.Some? { Extracted(url, value.value); }
    }
  }

  function LowerLink(l: DeepLink): DeepLink {
    match l
    case Join(code) => Join(Lower(code))
    case Crew(id) => Crew(Lower(id))
  }

  lemma DirectLower(url: string)
    ensures Direct(Lower(url)) == match Direct(url) case None => None case Some(l) => Some(LowerLink(l))
  {
    LowerTwice(url);
    if StartsWith(Lower(url), SCHEME) {
      SchemeChars(url);
      LoweredParts(url);
      LowerTwice(Before(Core(url[8..]), '/'));
    }
  }

  /** A link in another case is the same link with its value in that case. */
  lemma ParseLower(url: string)
    ensures Parse(Lower(url)) == match Parse(url) case None => None case Some(l) => Some(LowerLink(l))
  {
    ParseIsDirect(url);
    ParseIsDirect(Lower(url));
    DirectLower(url);
  }

  // ----- codes -----

  lemma UpperLower(s: string)
    ensures Upper(Lower(s)) == Upper(s)
  {
  }

  lemma DropDashLower(s: string)
    ensures DropDash(Lower(s)) == Lower(DropDash(s))
  {
    BeforeLower(s, '-');
    var n := |Before(s, '-')|;
    if n < |s| { LowerTail(s, n + 1); }
  }

  lemma AlnumLower(s: string)
    ensures AllAlnum(Lower(s)) <==> AllAlnum(s)
  {
    if AllAlnum(Lower(s)) {
      forall i | 0 <= i < |s| ensures IsAlnum(s[i]) { assert IsAlnum(Lower(s)[i]); }
    }
  }

  lemma DashLower(s: string)
    ensures '-' in Lower(s) <==> '-' in s
  {
    if '-' in s { var i :| 0 <= i < |s| && s[i] == '-'; assert Lower(s)[i] == '-'; }
  }

  lemma CodeLower(raw: string)
    ensures NormalizeInviteCode(Lower(raw)) == NormalizeInviteCode(raw)
  {
    DropDashLower(raw);
    AlnumLower(DropDash(raw));
    DashLower(raw);
    BeforeLower(raw, '-');
    UpperLower(DropDash(raw));
  }

  lemma DoubleDashLower(s: string)
    ensures HasDoubleDash(Lower(s)) <==> HasDoubleDash(s)
  {
    if HasDoubleDash(s) {
      var i :| 0 < i < |s| && s[i - 1] == '-' && s[i] == '-';
      assert Lower(s)[i - 1] == '-' && Lower(s)[i] == '-';
    }
  }

  lemma NameLower(raw: string)
    ensures NormalizeInviteName(Lower(raw)) == NormalizeInviteName(raw)
  {
    UpperLower(raw);
    DoubleDashLower(raw);
    if NormalizeInviteName(Lower(raw)).Some? {
      forall i | 0 <= i < |raw| ensures IsAlnum(raw[i]) || raw[i] == '-' {
        assert IsAlnum(Lower(raw)[i]) || Lower(raw)[i] == '-';
      }
    }
  }

  lemma LinkCodeLower(raw: string)
    ensures NormalizeLinkCode(Lower(raw)) == NormalizeLinkCode(raw)
  {
    CodeLower(raw);
    NameLower(raw);
  }

  lemma LowerUpper(s: string)
    ensures Lower(Upper(s)) == Lower(s) && Upper(Upper(s)) == Upper(s)
  {
  }

  lemma LinkCodeUpper(raw: string)
    ensures NormalizeLinkCode(Upper(raw)) == NormalizeLinkCode(raw)
  {
    LinkCodeLower(raw);
    LinkCodeLower(Upper(raw));
    LowerUpper(raw);
  }

  /** A canonical code is read as itself. */
  lemma CodeIsFixed(a: string, b: string)
    requires |a| == 4 && |b| == 4 && AllAlnum(a) && AllAlnum(b) && Upper(a) == a && Upper(b) == b
    ensures NormalizeInviteCode(a + "-" + b) == Some(a + "-" + b)
  {
    var s := a + "-" + b;
    assert forall i :: 0 <= i < 4 ==> IsAlnum(a[i]);
    BeforeIs(s, '-', 4);
    assert s[5..] == b && DropDash(s) == a + b;
    assert forall i :: 0 <= i < 8 ==> (a + b)[i] == if i < 4 then a[i] else b[i - 4];
    assert Upper(a + b) == Upper(a) + Upper(b);
    assert (a + b)[..4] == a && (a + b)[4..] == b;
    assert s[4] == '-';
  }

  /** What the normaliser gives is canonical: upper case, and its own normal form. */
  lemma LinkCodeIsCanonical(raw: string)
    requires NormalizeLinkCode(raw).Some?
    ensures var c := NormalizeLinkCode(raw).value; Upper(c) == c && NormalizeLinkCode(c) == Some(c)
  {
    if NormalizeInviteCode(raw).Some? {
      var u := Upper(DropDash(raw));
      assert AllAlnum(u) by { assert forall i :: 0 <= i < |u| ==> IsAlnum(DropDash(raw)[i]); }
      CodeIsFixed(u[..4], u[4..]);
    } else {
      LinkCodeUpper(raw);
      LowerUpper(raw);
    }
  }

  // ----- invite input -----

  lemma WhitespaceLower(c: char)
    ensures IsWhitespace(LowerChar(c)) <==> IsWhitespace(c)
  {
  }

  lemma {:induction false} TrimStartLower(s: string)
    ensures TrimStart(Lower(s)) == Lower(TrimStart(s))
  {
    if s != "" {
      WhitespaceLower(s[0]);
      if IsWhitespace(s[0]) {
        LowerTail(s, 1);
        TrimStartLower(s[1..]);
      }
    }
  }

  lemma {:induction false} TrimEndLower(s: string)
    ensures TrimEnd(Lower(s)) == Lower(TrimEnd(s))
  {
    if s != "" {
      WhitespaceLower(s[|s| - 1]);
      if IsWhitespace(s[|s| - 1]) {
        LowerSlice(s, 0, |s| - 1);
        TrimEndLower(s[..|s| - 1]);
      }
    }
  }

  lemma TrimLower(s: string)
    ensures Trim(Lower(s)) == Lower(Trim(s))
  {
    TrimStartLower(s);
    TrimEndLower(TrimStart(s));
  }

  lemma CodeOfLower(url: string)
    ensures CodeOf(Parse(Lower(url))) == CodeOf(Parse(url))
  {
    ParseLower(url);
    var l := Parse(url);
    if l.Some? && l.value.Join? { LinkCodeLower(l.value.code); }
  }

  lemma SchemeLower(rest: string)
    ensures SCHEME + Lower(rest) == Lower(SCHEME + rest)
  {
  }

  lemma WebPathLower(input: string)
    ensures WebPath(Lower(input)) == match WebPath(input) case None => None case Some(r) => Some(Lower(r))
  {
    LowerTwice(input);
    var skip := SkipWww(Lower(input));
    if StartsWith(Lower(input)[skip..], HOST) { LowerTail(input, skip + |HOST|); }
  }

  lemma ReadInviteLower(input: string)
    ensures ReadInvite(Lower(input)) == ReadInvite(input)
  {
    LowerTwice(input);
    CodeOfLower(input);
    WebPathLower(input);
    CodeLower(input);
    var rest := WebPath(input);
    if rest.Some? {
      SchemeLower(rest.value);
      CodeOfLower(SCHEME + rest.value);
    }
  }

  /** The case in which an invite is typed does not matter. */
  lemma InviteIgnoresCase(text: string)
    ensures ParseInviteInput(Lower(text)) == ParseInviteInput(text)
  {
    TrimLower(text);
    ReadInviteLower(Trim(text));
  }

  /** Every invite read is canonical: in upper case, and read again as itself. */
  lemma InviteIsCanonical(text: string)
    requires ParseInviteInput(text).Some?
    ensures var c := ParseInviteInput(text).value; Upper(c) == c && NormalizeLinkCode(c) == Some(c)
  {
    var input := Trim(text);
    var link := if StartsWith(Lower(input), SCHEME) then Parse(input)
                else if WebPath(input).Some? then Parse(SCHEME + WebPath(input).value) else Some(Join(input));
    LinkCodeIsCanonical(link.value.code);
  }

  lemma CodeShape(raw: string)
    requires NormalizeInviteCode(raw).Some?
    ensures (|raw| == 8 && AllAlnum(raw)) || (|raw| == 9 && raw[4] == '-' && AllAlnum(raw[..4]) && AllAlnum(raw[5..]))
  {
    var n := |Before(raw, '-')|;
    if n < |raw| {
      var compact := DropDash(raw);
      assert raw[n] == '-' && n == 4;
      assert compact[..4] == raw[..4] && compact[4..] == raw[5..];
      assert forall i :: 0 <= i < 4 ==> IsAlnum(compact[i]);
      assert forall i :: 0 <= i < 4 ==> raw[5..][i] == compact[i + 4];
    }
  }

  /** Codes of eight letters or digits are accepted bare; custom names only in a link. */
  lemma BareCodes(raw: string)
    ensures NormalizeInviteCode(raw).Some?
            <==> (|raw| == 8 && AllAlnum(raw)) || (|raw| == 9 && raw[4] == '-' && AllAlnum(raw[..4]) && AllAlnum(raw[5..]))
  {
    var n := |Before(raw, '-')|;
    if NormalizeInviteCode(raw).Some? { CodeShape(raw); }
    if |raw| == 8 && AllAlnum(raw) {
      BeforeIs(raw, '-', 8);
    }
    if |raw| == 9 && raw[4] == '-' && AllAlnum(raw[..4]) && AllAlnum(raw[5..]) {
      assert forall i :: 0 <= i < 4 ==> IsAlnum(raw[..4][i]);
      BeforeIs(raw, '-', 4);
      assert forall i :: 0 <= i < 8 ==> IsAlnum((raw[..4] + raw[5..])[i]);
    }
  }

  // ----- the clipboard -----

  lemma WebIsNoScheme(lower: string)
    requires SkipScheme(lower) > 0
    ensures !StartsWith(lower, SCHEME)
  {
    assert lower[0] == 'h' && SCHEME[0] == 'm';
  }

  /** The invite field finds the host where the clipboard reader does, with or without `www.`. */
  lemma BareHost(lower: string, skip: nat)
    requires skip == SkipScheme(lower) && StartsWith(lower[skip..], "m3llo.app/")
    ensures SkipWww(lower) == skip
  {
    assert lower[skip..][0] == 'm' && WWW[0] == 'w';
  }

  lemma WwwHost(lower: string, skip: nat)
    requires skip == SkipScheme(lower) && StartsWith(lower[skip..], WWW + HOST)
    ensures SkipWww(lower) == skip + |WWW| && StartsWith(lower[skip + |WWW|..], HOST)
  {
    var rest := lower[skip..];
    assert rest[..|WWW| + |HOST|] == WWW + HOST;
    assert rest[..|WWW|] == (WWW + HOST)[..|WWW|] == WWW;
    assert lower[skip + |WWW|..] == rest[|WWW|..];
    assert rest[|WWW|..][..|HOST|] == rest[..|WWW| + |HOST|][|WWW|..] == HOST;
  }

  /** The part of a lounge link after the host, as the invite field cuts it. */
  lemma LoungePath(input: string, host: string)
    requires host == "m3llo.app" || host == "www.m3llo.app"
    requires var lower := Lower(input); var skip := SkipScheme(lower); skip > 0 && StartsWith(lower[skip..], host + "/")
    ensures !StartsWith(Lower(input), SCHEME) && WebPath(input).Some?
    ensures Lower(WebPath(input).value) == Lower(input)[SkipScheme(Lower(input)) + |host| + 1..]
  {
    var lower := Lower(input);
    WebIsNoScheme(lower);
    if host == "m3llo.app" {
      assert host + "/" == HOST;
      BareHost(lower, SkipScheme(lower));
    } else {
      assert host + "/" == WWW + HOST;
      WwwHost(lower, SkipScheme(lower));
    }
    LowerTail(input, SkipWww(lower) + |HOST|);
  }

  lemma LoungeReadsAlike(input: string, host: string, path: string)
    requires host == "m3llo.app" || host == "www.m3llo.app"
    requires var lower := Lower(input); var skip := SkipScheme(lower);
             skip > 0 && lower[skip..] == host + "/" + path
    ensures ReadInvite(input) == CodeOf(Parse(SCHEME + path))
  {
    var lower := Lower(input);
    var skip := SkipScheme(lower);
    LoungePath(input, host);
    assert lower[skip + |host| + 1..] == lower[skip..][|host| + 1..] == path;
    SchemeLower(WebPath(input).value);
    CodeOfLower(SCHEME + WebPath(input).value);
  }

  lemma LoungeHosts()
    ensures Lower("m3llo.app") == "m3llo.app" && WWW + "m3llo.app" == "www.m3llo.app"
  {
  }

  lemma CutAt(s: string, n: nat)
    requires n < |s| && s[n] == '/'
    ensures s == s[..n] + "/" + s[n + 1..]
  {
  }

  /** What the clipboard reader accepted. */
  lemma JoinPathParts(lower: string) returns (host: string)
    requires JoinPath(lower, "m3llo.app").Some?
    ensures host == "m3llo.app" || host == "www.m3llo.app"
    ensures SkipScheme(lower) > 0 && lower[SkipScheme(lower)..] == host + "/" + JoinPath(lower, "m3llo.app").value
  {
    LoungeHosts();
    var rest := lower[SkipScheme(lower)..];
    host := Before(rest, '/');
    CutAt(rest, |host|);
  }

  /** Every text that the clipboard reader accepts for the lounge is accepted by the invite field,
      with the same code. */
  lemma LoungeIsInvite(text: string)
    requires LoungeLinkCode(text, "m3llo.app").Some?
    ensures ParseInviteInput(text) == LoungeLinkCode(text, "m3llo.app")
  {
    var lower := Lower(Trim(text));
    var host := JoinPathParts(lower);
    LoungeReadsAlike(Trim(text), host, JoinPath(lower, "m3llo.app").value);
  }
}
