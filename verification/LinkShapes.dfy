/** What the readers of client/src/deep_link.rs accept, spelled out: links, codes, invite input and
    lounge links as texts of a certain shape. */
module LinkShapes {
  import opened DeepLinks
  import opened Text
  import opened Wrappers

  // ----- links -----

  predicate NoneOf(s: string, cs: string) { forall i :: 0 <= i < |s| ==> s[i] !in cs }

  predicate OnlySlashes(s: string) { forall i :: 0 <= i < |s| ==> s[i] == '/' }

  /** An action, a slash and a value; then slashes, and a query or a fragment or nothing. */
  predicate IsPath(p: string, action: string, value: string, slashes: string, rest: string) {
    && p == action + "/" + value + slashes + rest
    && NoneOf(action, "?#/") && NoneOf(value, "?#") && value != "" && value[|value| - 1] != '/'
    && OnlySlashes(slashes) && (rest == "" || rest[0] == '?' || rest[0] == '#')
  }

  lemma {:induction false} TrimSlashesIs(s: string, slashes: string)
    requires s != "" && s[|s| - 1] != '/' && OnlySlashes(slashes)
    ensures TrimSlashes(s + slashes) == s
  {
    var t := s + slashes;
    if slashes == "" {
      assert t == s;
    } else {
      assert t[..|t| - 1] == s + slashes[..|slashes| - 1];
      TrimSlashesIs(s, slashes[..|slashes| - 1]);
    }
  }

  lemma {:induction false} TrimmedSlashes(s: string)
    ensures OnlySlashes(s[|TrimSlashes(s)|..])
    ensures TrimSlashes(s) != "" ==> TrimSlashes(s)[|TrimSlashes(s)| - 1] != '/'
  {
    if s != "" && s[|s| - 1] == '/' {
      var t := s[..|s| - 1];
      TrimmedSlashes(t);
      var n := |TrimSlashes(s)|;
      forall i | 0 <= i < |s| - n ensures s[n..][i] == '/' {
        if n + i < |t| { assert t[n..][i] == '/'; }
      }
    }
  }

  /** What comes before a query or a fragment. */
  lemma BeforeBoth(x: string, rest: string)
    requires NoneOf(x, "?#") && (rest == "" || rest[0] == '?' || rest[0] == '#')
    ensures Before(Before(x + rest, '?'), '#') == x
  {
    var p := x + rest;
    assert forall i :: 0 <= i < |x| ==> p[i] == x[i] && x[i] != '?' && x[i] != '#';
    if rest != "" && rest[0] == '#' {
      var y := Before(p, '?');
      assert p[|x|] == '#' && |y| > |x|;
      assert forall i :: 0 <= i < |x| ==> y[i] == x[i];
      assert y[|x|] == '#';
      BeforeIs(y, '#', |x|);
      assert y[..|x|] == x;
    } else {
      BeforeIs(p, '?', |x|);
      assert p[..|x|] == x;
      BeforeIs(x, '#', |x|);
    }
  }

  lemma CoreOfPath(p: string, action: string, value: string, slashes: string, rest: string)
    requires IsPath(p, action, value, slashes, rest)
    ensures var core := Core(p); core == action + "/" + value && Before(core, '/') == action && AfterSlash(core) == Some(value)
  {
    var core := action + "/" + value;
    assert p == (core + slashes) + rest;
    BeforeBoth(core + slashes, rest);
    TrimSlashesIs(core, slashes);
    BeforeIs(core, '/', |action|);
    assert core[..|action|] == action && core[|action| + 1..] == value;
  }

  /** What is trimmed off a path. */
  lemma CoreParts(p: string) returns (slashes: string, rest: string)
    ensures p == Core(p) + slashes + rest && OnlySlashes(slashes) && NoneOf(Core(p), "?#")
    ensures rest == "" || rest[0] == '?' || rest[0] == '#'
    ensures Core(p) != "" ==> Core(p)[|Core(p)| - 1] != '/'
  {
    var q, core := Before(p, '?'), Core(p);
    var b := Before(q, '#');
    slashes, rest := b[|core|..], p[|b|..];
    TrimmedSlashes(b);
    if |b| < |q| { assert rest[0] == q[|b|]; } else if |b| < |p| { assert rest[0] == p[|q|]; }
    forall i | 0 <= i < |core| ensures core[i] !in "?#" { assert core[i] == b[i] == q[i]; }
  }

  lemma NoneOfPart(s: string, cs: string, a: nat, b: nat)
    requires NoneOf(s, cs) && a <= b <= |s|
    ensures NoneOf(s[a..b], cs)
  {
  }

  lemma ActionAndValue(core: string)
    requires AfterSlash(core).Some?
    ensures var action, value := Before(core, '/'), AfterSlash(core).value;
            core == action + "/" + value && '/' !in action && action == core[..|action|] && value == core[|action| + 1..]
  {
  }

  lemma PathOfCore(p: string) returns (slashes: string, rest: string)
    requires AfterSlash(Core(p)).Some? && AfterSlash(Core(p)).value != ""
    ensures IsPath(p, Before(Core(p), '/'), AfterSlash(Core(p)).value, slashes, rest)
  {
    var core := Core(p);
    var action, value := Before(core, '/'), AfterSlash(core).value;
    slashes, rest := CoreParts(p);
    ActionAndValue(core);
    NoneOfPart(core, "?#", 0, |action|);
    NoneOfPart(core, "?#", |action| + 1, |core|);
    forall i | 0 <= i < |action| ensures action[i] !in "?#/" { assert action[i] !in "?#" && action[i] in action; }
    assert core[|core| - 1] == value[|value| - 1];
  }

  predicate HasScheme(url: string) { |url| >= 8 && Lower(url[..8]) == "mello://" }

  lemma SchemeIs(url: string)
    ensures StartsWith(Lower(url), SCHEME) <==> HasScheme(url)
  {
    if |url| >= 8 { LowerSlice(url, 0, 8); }
  }

  /** A link to join with a code or to a crew, in this path. */
  ghost predicate LinkAt(p: string, link: DeepLink) {
    exists action, value, slashes, rest ::
      IsPath(p, action, value, slashes, rest)
      && ((Lower(action) == "join" && link == Join(value)) || (Lower(action) == "crew" && link == Crew(value)))
  }

  /** Exactly the texts of this shape are links. */
  lemma LinkIs(url: string, link: DeepLink)
    ensures Parse(url) == Some(link) <==> HasScheme(url) && LinkAt(url[8..], link)
  {
    ParseIsDirect(url);
    SchemeIs(url);
    if Parse(url) == Some(link) {
      var slashes, rest := PathOfCore(url[8..]);
    }
    if HasScheme(url) && LinkAt(url[8..], link) {
      var action, value, slashes, rest :|
        IsPath(url[8..], action, value, slashes, rest)
        && ((Lower(action) == "join" && link == Join(value)) || (Lower(action) == "crew" && link == Crew(value)));
      CoreOfPath(url[8..], action, value, slashes, rest);
    }
  }

  // ----- codes and names -----

  /** By code points: ASCII digits, capitals and small letters. */
  lemma AlnumIs(c: char)
    ensures IsAlnum(c) <==> 0x30 <= c as int <= 0x39 || 0x41 <= c as int <= 0x5A || 0x61 <= c as int <= 0x7A
  {
  }

  /** The two halves of a code, in upper case, around a dash. */
  lemma CodeIs(raw: string)
    requires NormalizeInviteCode(raw).Some?
    ensures |raw| == 8 ==> NormalizeInviteCode(raw).value == Upper(raw[..4]) + "-" + Upper(raw[4..])
    ensures |raw| != 8 ==> |raw| == 9 && NormalizeInviteCode(raw).value == Upper(raw[..4]) + "-" + Upper(raw[5..])
  {
    BareCodes(raw);
    var compact := DropDash(raw);
    assert Upper(compact)[..4] == Upper(compact[..4]) && Upper(compact)[4..] == Upper(compact[4..]);
    if |raw| == 8 {
      BeforeIs(raw, '-', 8);
    } else {
      assert forall i :: 0 <= i < 4 ==> IsAlnum(raw[..4][i]);
      BeforeIs(raw, '-', 4);
      assert compact[..4] == raw[..4] && compact[4..] == raw[5..];
    }
  }

  /** Custom names: three to twenty-four letters, digits and dashes, no dash at an end and no two in a
      row; in upper case. */
  lemma NameIs(raw: string)
    ensures NormalizeInviteName(raw)
            == if 3 <= |raw| <= 24 && (forall i :: 0 <= i < |raw| ==> IsAlnum(raw[i]) || raw[i] == '-')
                  && raw[0] != '-' && raw[|raw| - 1] != '-' && forall a, b :: raw != a + "--" + b
               then Some(Upper(raw)) else None
  {
    if HasDoubleDash(raw) {
      var i :| 0 < i < |raw| && raw[i - 1] == '-' && raw[i] == '-';
      assert raw == raw[..i - 1] + "--" + raw[i + 1..];
    }
    if a, b :| raw == a + "--" + b { assert raw[|a|] == '-' && raw[|a| + 1] == '-'; }
  }

  // ----- web links -----

  /** The ways to write the host: with any scheme or none, with `www.` or without. */
  predicate IsHostPrefix(scheme: string, www: string) {
    (scheme == "" || scheme == "http://" || scheme == "https://") && (www == "" || www == "www.")
  }

  predicate Begins(input: string, p: string) { |p| <= |input| && Lower(input[..|p|]) == p }

  lemma BeginsIs(input: string, p: string)
    ensures Begins(input, p) <==> StartsWith(Lower(input), p)
  {
    if |p| <= |input| { LowerSlice(input, 0, |p|); }
  }

  lemma StartsWithTwo(s: string, a: string, b: string)
    requires StartsWith(s, a)
    ensures StartsWith(s[|a|..], b) <==> StartsWith(s, a + b)
  {
    if StartsWith(s[|a|..], b) { assert s[..|a| + |b|] == s[..|a|] + s[|a|..][..|b|]; }
    if StartsWith(s, a + b) { assert s[|a|..][..|b|] == s[..|a| + |b|][|a|..]; }
  }

  lemma WebPathFound(input: string) returns (scheme: string, www: string)
    requires WebPath(input).Some?
    ensures IsHostPrefix(scheme, www) && Begins(input, scheme + www + "m3llo.app/")
    ensures WebPath(input).value == input[|scheme + www + "m3llo.app/"|..]
  {
    var lower := Lower(input);
    scheme := if StartsWith(lower, HTTPS) then HTTPS else if StartsWith(lower, HTTP) then HTTP else "";
    www := if StartsWith(lower[|scheme|..], WWW) then WWW else "";
    StartsWithTwo(lower, scheme, www);
    StartsWithTwo(lower, scheme + www, HOST);
    BeginsIs(input, scheme + www + HOST);
  }

  lemma SchemeGiven(lower: string, scheme: string, after: string)
    requires scheme == "" || scheme == HTTP || scheme == HTTPS
    requires StartsWith(lower, scheme + after) && after != "" && after[0] != 'h'
    ensures StartsWith(lower, scheme) && SkipScheme(lower) == |scheme|
  {
    var all := scheme + after;
    assert forall i :: 0 <= i < |all| ==> lower[i] == all[i];
    assert lower[..|scheme|] == all[..|scheme|] == scheme;
    if scheme == "" { assert lower[0] == after[0] && HTTP[0] == 'h' && HTTPS[0] == 'h'; }
    if scheme == HTTP { assert lower[4] == ':' && HTTPS[4] == 's'; }
  }

  lemma WwwGiven(rest: string, www: string)
    requires (www == "" || www == WWW) && StartsWith(rest, www + HOST)
    ensures StartsWith(rest, WWW) <==> www == WWW
  {
    assert forall i :: 0 <= i < |www + HOST| ==> rest[i] == (www + HOST)[i];
    if www == "" { assert rest[0] == 'm' && WWW[0] == 'w'; } else { assert rest[..4] == WWW; }
  }

  lemma SkipGiven(lower: string, scheme: string, www: string)
    requires (scheme == "" || scheme == HTTP || scheme == HTTPS) && (www == "" || www == WWW)
    requires StartsWith(lower, scheme + (www + HOST))
    ensures SkipWww(lower) == |scheme| + |www|
  {
    SchemeGiven(lower, scheme, www + HOST);
    StartsWithTwo(lower, scheme, www + HOST);
    WwwGiven(lower[|scheme|..], www);
  }

  lemma Within(s: string, a: string, b: string)
    requires StartsWith(s, a + b)
    ensures StartsWith(s, a) && StartsWith(s[|a|..], b)
  {
    assert s[..|a|] == s[..|a + b|][..|a|] == a;
    assert s[|a|..][..|b|] == s[..|a + b|][|a|..] == b;
  }

  lemma WebPathAt(input: string, skipped: string)
    requires SkipWww(Lower(input)) == |skipped| && StartsWith(Lower(input), skipped + HOST)
    ensures |skipped + HOST| <= |input| && WebPath(input) == Some(input[|skipped + HOST|..])
  {
    Within(Lower(input), skipped, HOST);
  }

  lemma WebPathGiven(input: string, scheme: string, www: string)
    requires IsHostPrefix(scheme, www) && Begins(input, scheme + www + "m3llo.app/")
    ensures WebPath(input) == Some(input[|scheme + www + "m3llo.app/"|..])
  {
    BeginsIs(input, scheme + www + HOST);
    assert (scheme + www) + HOST == scheme + (www + HOST);
    SkipGiven(Lower(input), scheme, www);
    WebPathAt(input, scheme + www);
  }

  /** A web link is one of the six ways to write the host, and what follows it. */
  lemma WebPathIs(input: string, rest: string)
    ensures WebPath(input) == Some(rest)
            <==> exists scheme, www ::
                   IsHostPrefix(scheme, www) && Begins(input, scheme + www + "m3llo.app/")
                   && rest == input[|scheme + www + "m3llo.app/"|..]
  {
    if WebPath(input) == Some(rest) { var scheme, www := WebPathFound(input); }
    if scheme, www :| IsHostPrefix(scheme, www) && Begins(input, scheme + www + "m3llo.app/")
                      && rest == input[|scheme + www + "m3llo.app/"|..] {
      WebPathGiven(input, scheme, www);
    }
  }

  // ----- invite input and lounge links -----

  /** The path is a link to join, and `c` its code in normal form, or else its custom name. */
  ghost predicate JoinCode(p: string, c: string) {
    exists value :: LinkAt(p, Join(value))
                    && (NormalizeInviteCode(value) == Some(c)
                        || (NormalizeInviteCode(value).None? && NormalizeInviteName(value) == Some(c)))
  }

  lemma CodeOfIs(url: string, c: string)
    ensures CodeOf(Parse(url)) == Some(c) <==> HasScheme(url) && JoinCode(url[8..], c)
  {
    forall value ensures Parse(url) == Some(Join(value)) <==> HasScheme(url) && LinkAt(url[8..], Join(value)) {
      LinkIs(url, Join(value));
    }
    var l := Parse(url);
    if l.Some? && l.value.Join? { assert l == Some(Join(l.value.code)); }
  }

  lemma CodeOfPath(p: string, c: string)
    ensures CodeOf(Parse(SCHEME + p)) == Some(c) <==> JoinCode(p, c)
  {
    var url := SCHEME + p;
    assert url[..8] == SCHEME && url[8..] == p;
    assert Lower(SCHEME) == SCHEME;
    CodeOfIs(url, c);
  }

  ghost predicate OnHost(input: string, scheme: string, www: string, rest: string) {
    && IsHostPrefix(scheme, www) && Begins(input, scheme + www + "m3llo.app/")
    && rest == input[|scheme + www + "m3llo.app/"|..]
  }

  /** What the invite field accepts, white space aside: a link to join in the client's scheme, one on the
      host, or a bare code. */
  lemma InviteIs(text: string, c: string)
    ensures var input := Trim(text);
            ParseInviteInput(text) == Some(c)
            <==> if HasScheme(input) then JoinCode(input[8..], c)
                 else if exists scheme, www, rest :: OnHost(input, scheme, www, rest) then
                   exists scheme, www, rest :: OnHost(input, scheme, www, rest) && JoinCode(rest, c)
                 else NormalizeInviteCode(input) == Some(c)
  {
    var input := Trim(text);
    SchemeIs(input);
    CodeOfIs(input, c);
    if WebPath(input).Some? {
      var scheme, www := WebPathFound(input);
      assert OnHost(input, scheme, www, WebPath(input).value);
      CodeOfPath(WebPath(input).value, c);
    }
    forall scheme, www, rest | OnHost(input, scheme, www, rest) ensures WebPath(input) == Some(rest) {
      WebPathGiven(input, scheme, www);
    }
  }

  predicate IsHost(given: string, host: string) {
    host == "" || given == Lower(host) || given == "www." + Lower(host)
  }

  ghost predicate OnLounge(lower: string, host: string, scheme: string, given: string, path: string) {
    && (scheme == "http://" || scheme == "https://") && lower == scheme + (given + ("/" + path))
    && '/' !in given && IsHost(given, host) && StartsWith(path, "join/")
  }

  lemma SchemeOf(lower: string) returns (scheme: string)
    requires SkipScheme(lower) > 0
    ensures (scheme == "http://" || scheme == "https://") && SkipScheme(lower) == |scheme| && lower[..|scheme|] == scheme
  {
    scheme := if StartsWith(lower, HTTPS) then HTTPS else HTTP;
  }

  lemma JoinPathFields(lower: string, host: string)
    requires JoinPath(lower, host).Some?
    ensures SkipScheme(lower) > 0
    ensures var rest := lower[SkipScheme(lower)..]; var given := Before(rest, '/');
            |given| < |rest| && IsHost(given, host) && JoinPath(lower, host) == Some(rest[|given| + 1..])
            && StartsWith(rest[|given| + 1..], "join/")
  {
  }

  lemma OnLoungeIs(lower: string, host: string, scheme: string, given: string, path: string)
    requires (scheme == "http://" || scheme == "https://") && |scheme| <= |lower| && lower[..|scheme|] == scheme
    requires var rest := lower[|scheme|..];
             |given| < |rest| && given == rest[..|given|] && rest[|given|] == '/' && path == rest[|given| + 1..]
    requires '/' !in given && IsHost(given, host) && StartsWith(path, "join/")
    ensures OnLounge(lower, host, scheme, given, path)
  {
    var rest := lower[|scheme|..];
    assert rest == given + ("/" + path);
    assert lower == scheme + rest;
  }

  lemma JoinPathFound(lower: string, host: string) returns (scheme: string, given: string)
    requires JoinPath(lower, host).Some?
    ensures OnLounge(lower, host, scheme, given, JoinPath(lower, host).value)
  {
    JoinPathFields(lower, host);
    scheme := SchemeOf(lower);
    var rest := lower[|scheme|..];
    given := Before(rest, '/');
    OnLoungeIs(lower, host, scheme, given, rest[|given| + 1..]);
  }

  lemma JoinPathGiven(lower: string, host: string, scheme: string, given: string, path: string)
    requires OnLounge(lower, host, scheme, given, path)
    ensures JoinPath(lower, host) == Some(path)
  {
    var rest := given + ("/" + path);
    if scheme == HTTP { assert lower[4] == ':' && HTTPS[4] == 's'; }
    assert lower[..|scheme|] == scheme && lower[|scheme|..] == rest;
    assert rest[|given|] == '/' && rest[..|given|] == given && rest[|given| + 1..] == path;
    BeforeIs(rest, '/', |given|);
  }

  /** What the clipboard reader accepts: at most 256 bytes, white space aside a web link on the host, or
      on any if none is given, to a path that joins. */
  lemma LoungeIs(text: string, host: string, c: string)
    ensures LoungeLinkCode(text, host) == Some(c)
            <==> Utf8Len(text) <= 256
                 && exists scheme, given, path ::
                      OnLounge(Lower(Trim(text)), host, scheme, given, path) && JoinCode(path, c)
  {
    var lower := Lower(Trim(text));
    if JoinPath(lower, host).Some? {
      var scheme, given := JoinPathFound(lower, host);
      CodeOfPath(JoinPath(lower, host).value, c);
    }
    forall scheme, given, path | OnLounge(lower, host, scheme, given, path) ensures JoinPath(lower, host) == Some(path) {
      JoinPathGiven(lower, host, scheme, given, path);
    }
  }
}
