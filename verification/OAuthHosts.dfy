/** The authority parser behind the OAuth redirect allow-list, and the list derived with it. */
module OAuthHosts {
  import opened Options
  import opened Text

  const SUCCESS_PATH := "/auth/oauth/success"
  const MFA_PATH := "/auth/mfa"
  const ERROR_PATH := "/auth/oauth/error"

  // ---------------------------------------------------------------------------------------
  // Searching strings
  // ---------------------------------------------------------------------------------------

  predicate IsDelimiter(c: char) {
    c == '/' || c == '?' || c == '#' || c == '\\'
  }

  /** `text` has the scheme separator `://` at `i`. */
  predicate SepAt(text: string, i: nat) {
    i + 3 <= |text| && text[i] == ':' && text[i + 1] == '/' && text[i + 2] == '/'
  }

  /** The first scheme separator at or after `from`, or the end of the text. */
  function FindSep(text: string, from: nat): (i: nat)
    requires from <= |text|
    ensures from <= i <= |text| && (i < |text| ==> SepAt(text, i))
    ensures forall j :: from <= j < i ==> !SepAt(text, j)
    decreases |text| - from
  {
    if from == |text| || SepAt(text, from) then from else FindSep(text, from + 1)
  }

  /** Everything before the first delimiter. */
  function Authority(rest: string): (r: string)
    ensures r <= rest
    ensures forall i :: 0 <= i < |r| ==> !IsDelimiter(r[i])
    ensures |r| < |rest| ==> IsDelimiter(rest[|r|])
  {
    if rest == "" || IsDelimiter(rest[0]) then "" else [rest[0]] + Authority(rest[1..])
  }

  /** Everything after the last `@`, or all of it. */
  function AfterUserinfo(authority: string): (r: string)
    ensures '@' !in r
    ensures |r| <= |authority| && authority[|authority| - |r|..] == r
    ensures |r| < |authority| ==> authority[|authority| - |r| - 1] == '@'
  {
    if authority == "" || authority[|authority| - 1] == '@' then ""
    else AfterUserinfo(authority[..|authority| - 1]) + [authority[|authority| - 1]]
  }

  /** Drop the port: up to the closing bracket of an IPv6 literal, else up to the first colon. */
  function HostPart(hostport: string): string {
    if hostport != "" && hostport[0] == '[' then
      var inside := BeforeChar(hostport, ']');
      if |inside| < |hostport| then inside + "]" else hostport
    else BeforeChar(hostport, ':')
  }

  function AuthorityHost(rest: string): Option<string> {
    var host := HostPart(AfterUserinfo(Authority(rest)));
    if host == "" then None else Some(host)
  }

  /** Where the authority starts: after the first scheme separator, or after a leading `//`. */
  function AuthorityStart(url: string): (start: Option<nat>)
    ensures start.Some? ==> start.value <= |url|
  {
    var sep := FindSep(url, 0);
    if sep < |url| then Some(sep + 3) else if "//" <= url then Some(2) else None
  }

  function HostOf(url: string): Option<string> {
    match AuthorityStart(url)
    case None => None
    case Some(start) => AuthorityHost(url[start..])
  }

  // ---------------------------------------------------------------------------------------
  // Parsing inverts printing (section 3.2 of RFC 3986)
  // ---------------------------------------------------------------------------------------

  /** The parts an authority is printed from; `port` includes no colon. */
  datatype Printed = Printed(userinfo: Option<string>, host: string, port: Option<string>)

  predicate NoDelimiter(s: string) {
    forall i :: 0 <= i < |s| ==> s[i] !in {'/', '?', '#', '\\'}
  }

  /** A reg-name or IPv4 address, or a bracketed literal. */
  predicate IsHost(host: string) {
    && host != "" && NoDelimiter(host) && '@' !in host
    && if host[0] == '[' then host[|host| - 1] == ']' && ']' !in host[..|host| - 1] else ':' !in host
  }

  predicate IsPort(port: string) {
    forall i :: 0 <= i < |port| ==> '0' <= port[i] <= '9'
  }

  predicate WellFormed(a: Printed) {
    && IsHost(a.host)
    && (a.userinfo.Some? ==> NoDelimiter(a.userinfo.value))
    && (a.port.Some? ==> IsPort(a.port.value))
  }

  predicate IsTail(tail: string) {
    tail == "" || tail[0] in {'/', '?', '#', '\\'}
  }

  function PrintHostPort(a: Printed): string {
    a.host + if a.port.Some? then ":" + a.port.value else ""
  }

  function PrintAuthority(a: Printed): string {
    (if a.userinfo.Some? then a.userinfo.value + "@" else "") + PrintHostPort(a)
  }

  lemma {:induction false} AuthorityStops(s: string, tail: string)
    requires NoDelimiter(s) && IsTail(tail)
    ensures Authority(s + tail) == s
  {
    if s != "" {
      AuthorityStops(s[1..], tail);
      assert (s + tail)[1..] == s[1..] + tail;
    }
  }

  /** `p` stands after the last `@` of the string, or at its start when it has none. */
  ghost predicate AfterLastAt(s: string, p: nat) {
    p <= |s| && '@' !in s[p..] && (p > 0 ==> s[p - 1] == '@')
  }

  lemma {:induction false} LastAtIsUnique(s: string, p: nat, q: nat)
    requires AfterLastAt(s, p) && AfterLastAt(s, q)
    ensures p == q
  {
    assert forall j :: p <= j < |s| ==> s[p..][j - p] == s[j];
    assert forall j :: q <= j < |s| ==> s[q..][j - q] == s[j];
  }

  lemma {:induction false} UserinfoDropped(prefix: string, s: string)
    requires '@' !in s && (prefix == "" || prefix[|prefix| - 1] == '@')
    ensures AfterUserinfo(prefix + s) == s
  {
    var r := AfterUserinfo(prefix + s);
    assert (prefix + s)[|prefix|..] == s;
    LastAtIsUnique(prefix + s, |prefix|, |prefix + s| - |r|);
  }

  lemma {:induction false} HostPartReads(a: Printed)
    requires WellFormed(a)
    ensures HostPart(PrintHostPort(a)) == a.host
  {
    var port := if a.port.Some? then ":" + a.port.value else "";
    if a.host[0] == '[' {
      var inside := a.host[..|a.host| - 1];
      BeforeCharStops(inside, ']', "]" + port);
      assert a.host == inside + "]";
      assert PrintHostPort(a) == inside + ("]" + port);
    } else {
      BeforeCharStops(a.host, ':', port);
    }
  }

  lemma {:induction false} AuthorityRoundTrip(a: Printed, tail: string)
    requires WellFormed(a) && IsTail(tail)
    ensures AuthorityHost(PrintAuthority(a) + tail) == Some(a.host)
  {
    var prefix := if a.userinfo.Some? then a.userinfo.value + "@" else "";
    AuthorityStops(PrintAuthority(a), tail);
    UserinfoDropped(prefix, PrintHostPort(a));
    HostPartReads(a);
  }

  lemma {:induction false} SchemeFound(scheme: string, rest: string)
    requires ':' !in scheme
    ensures FindSep(scheme + "://" + rest, 0) == |scheme|
  {
    var url := scheme + "://" + rest;
    assert SepAt(url, |scheme|);
    assert forall i :: 0 <= i < |scheme| ==> url[i] == scheme[i];
  }

  /** Any absolute URL: whatever the scheme, userinfo, port and tail, the host is read back. */
  lemma {:induction false} AbsoluteRoundTrip(scheme: string, a: Printed, tail: string)
    requires ':' !in scheme && WellFormed(a) && IsTail(tail)
    ensures HostOf(scheme + "://" + PrintAuthority(a) + tail) == Some(a.host)
  {
    var rest := PrintAuthority(a) + tail;
    assert scheme + "://" + PrintAuthority(a) + tail == scheme + "://" + rest;
    SchemeFound(scheme, rest);
    assert (scheme + "://" + rest)[|scheme| + 3..] == rest;
    AuthorityRoundTrip(a, tail);
  }

  /**
   The text `rest[i..end]` is a host and an optional port: `rest` up to its first delimiter
   is `end` long, and `i` stands at its start or after its last `@`.
   */
  ghost predicate HostStands(rest: string, host: string, i: nat, end: nat) {
    && i + |host| <= end <= |rest| && rest[i..i + |host|] == host
    && NoDelimiter(rest[..end]) && IsTail(rest[end..])
    && '@' !in rest[i..end] && (i > 0 ==> rest[i - 1] == '@')
    && (!("[" <= host) && i + |host| < end ==> rest[i + |host|] == ':')
  }

  /** An authority text names a host: userinfo, the host, then nothing, a port, or text after a bracket. */
  ghost predicate NamesHost(rest: string, host: string) {
    exists i: nat, end: nat :: HostStands(rest, host, i, end)
  }

  lemma {:induction false} HostPartIsPrefix(hostport: string)
    ensures HostPart(hostport) <= hostport
  {
  }

  /** A text that starts with a bracketed literal reads as that literal, whatever follows. */
  lemma {:induction false} BracketedPart(hostport: string, host: string)
    requires IsHost(host) && host[0] == '[' && host <= hostport
    ensures HostPart(hostport) == host
  {
    var inside, after := host[..|host| - 1], hostport[|host|..];
    BeforeCharStops(inside, ']', "]" + after);
    assert host == inside + "]";
    assert hostport == inside + ("]" + after);
  }

  /** A text that starts with any other host reads as that host exactly when it ends or a colon follows. */
  lemma {:induction false} NamedPart(hostport: string, host: string)
    requires IsHost(host) && host[0] != '[' && host <= hostport
    ensures HostPart(hostport) == host <==> |host| == |hostport| || hostport[|host|] == ':'
  {
    var after := hostport[|host|..];
    assert hostport == host + after;
    if after == "" || after[0] == ':' {
      BeforeCharStops(host, ':', after);
    }
  }

  /** Reading the host part of a text, stated on the text alone. */
  lemma {:induction false} HostPartIs(hostport: string, host: string)
    requires IsHost(host)
    ensures HostPart(hostport) == host
            <==> host <= hostport && (host[0] != '[' && |host| < |hostport| ==> hostport[|host|] == ':')
  {
    HostPartIsPrefix(hostport);
    if host <= hostport {
      if host[0] == '[' {
        BracketedPart(hostport, host);
      } else {
        NamedPart(hostport, host);
      }
    }
  }

  /** For every text and every host: the parser reads that host exactly when the text names it. */
  lemma {:induction false} HostIsNamed(rest: string, host: string)
    requires IsHost(host)
    ensures AuthorityHost(rest) == Some(host) <==> NamesHost(rest, host)
  {
    if AuthorityHost(rest) == Some(host) {
      ReadIsNamed(rest, Authority(rest), AfterUserinfo(Authority(rest)), host);
    }
    if i: nat, end: nat :| HostStands(rest, host, i, end) {
      StandingIsRead(rest, host, i, end);
    }
  }

  lemma {:induction false} AuthorityIs(rest: string, end: nat)
    requires end <= |rest| && NoDelimiter(rest[..end]) && (end < |rest| ==> IsDelimiter(rest[end]))
    ensures Authority(rest) == rest[..end]
  {
    AuthorityStops(rest[..end], rest[end..]);
    assert rest == rest[..end] + rest[end..];
  }

  lemma {:induction false} StandingText(rest: string, i: nat, end: nat)
    requires i <= end <= |rest| && '@' !in rest[i..end] && (i > 0 ==> rest[i - 1] == '@')
    requires NoDelimiter(rest[..end]) && (end < |rest| ==> IsDelimiter(rest[end]))
    ensures AfterUserinfo(Authority(rest)) == rest[i..end]
  {
    AuthorityIs(rest, end);
    assert rest[..end] == rest[..i] + rest[i..end];
    UserinfoDropped(rest[..i], rest[i..end]);
  }

  lemma {:induction false} SliceStartsWith(rest: string, host: string, i: nat, end: nat)
    requires i + |host| <= end <= |rest| && rest[i..i + |host|] == host
    ensures host <= rest[i..end]
    ensures i + |host| < end ==> rest[i..end][|host|] == rest[i + |host|]
  {
    assert rest[i..end][..|host|] == rest[i..i + |host|];
  }

  lemma {:induction false} StandingIsRead(rest: string, host: string, i: nat, end: nat)
    requires IsHost(host) && HostStands(rest, host, i, end)
    ensures AuthorityHost(rest) == Some(host)
  {
    StandingText(rest, i, end);
    SliceStartsWith(rest, host, i, end);
    HostPartIs(rest[i..end], host);
  }

  lemma {:induction false} ReadIsNamed(rest: string, authority: string, hostport: string, host: string)
    requires IsHost(host) && authority == Authority(rest) && hostport == AfterUserinfo(authority)
    requires HostPart(hostport) == host
    ensures NamesHost(rest, host)
  {
    AuthorityEnds(rest);
    StartsWithHost(hostport, host);
    PlacedHostStands(rest, authority, hostport, host);
  }

  lemma {:induction false} AuthorityEnds(rest: string)
    ensures var authority := Authority(rest);
            authority <= rest && NoDelimiter(authority) && (|authority| < |rest| ==> IsDelimiter(rest[|authority|]))
  {
  }

  lemma {:induction false} StartsWithHost(hostport: string, host: string)
    requires IsHost(host) && HostPart(hostport) == host
    ensures host <= hostport && (!("[" <= host) && |host| < |hostport| ==> hostport[|host|] == ':')
  {
    HostPartIs(hostport, host);
  }

  /** A host at the start of the text after an authority's last `@` stands in the whole text. */
  lemma {:induction false} PlacedHostStands(rest: string, authority: string, hostport: string, host: string)
    requires authority <= rest && NoDelimiter(authority) && (|authority| < |rest| ==> IsDelimiter(rest[|authority|]))
    requires |hostport| <= |authority| && authority[|authority| - |hostport|..] == hostport && '@' !in hostport
    requires |hostport| < |authority| ==> authority[|authority| - |hostport| - 1] == '@'
    requires host <= hostport && (!("[" <= host) && |host| < |hostport| ==> hostport[|host|] == ':')
    ensures NamesHost(rest, host)
  {
    var start, end := |authority| - |hostport|, |authority|;
    assert rest[..end] == authority && rest[start..end] == hostport;
    assert rest[start..start + |host|] == hostport[..|host|];
    assert HostStands(rest, host, start, end);
  }

  /** What follows the first scheme separator of a URL, if it has one. */
  function Embedded(url: string): Option<string> {
    var sep := FindSep(url, 0);
    if sep < |url| then Some(url[sep + 3..]) else None
  }

  /**
   A protocol-relative URL is read back exactly when it contains no scheme separator, or the
   text after the first one names the same host again.
   */
  lemma {:induction false} ProtocolRelativeRoundTrip(a: Printed, tail: string)
    requires WellFormed(a) && IsTail(tail)
    ensures var url := "//" + PrintAuthority(a) + tail;
            HostOf(url) == Some(a.host) <==> (Embedded(url).Some? ==> NamesHost(Embedded(url).value, a.host))
  {
    var rest := PrintAuthority(a) + tail;
    var url := "//" + PrintAuthority(a) + tail;
    assert url == "//" + rest;
    HostOfRelative(url, rest);
    AuthorityRoundTrip(a, tail);
    if Embedded(url).Some? {
      HostIsNamed(Embedded(url).value, a.host);
    }
  }

  lemma {:induction false} HostOfRelative(url: string, rest: string)
    requires url == "//" + rest
    ensures HostOf(url) == AuthorityHost(if Embedded(url).Some? then Embedded(url).value else rest)
  {
    assert "//" <= url && url[2..] == rest;
    var start := AuthorityStart(url);
    assert start == if Embedded(url).Some? then Some(FindSep(url, 0) + 3) else Some(2);
  }

  /**
   The failing family: whenever the first scheme separator stands after the real authority,
   ports and bracketed literals included, the URL embedded there decides the host.
   */
  lemma {:induction false} EmbeddedUrlWins(a: Printed, path: string, inner: Printed, tail: string)
    requires WellFormed(a) && IsTail(path) && WellFormed(inner) && IsTail(tail)
    requires var prefix := "//" + PrintAuthority(a) + path;
             FindSep(prefix + "://" + PrintAuthority(inner) + tail, 0) == |prefix|
    ensures HostOf("//" + PrintAuthority(a) + path + "://" + PrintAuthority(inner) + tail) == Some(inner.host)
  {
    var prefix, rest := "//" + PrintAuthority(a) + path, PrintAuthority(inner) + tail;
    assert prefix + "://" + PrintAuthority(inner) + tail == prefix + "://" + rest;
    EmbeddedAt(prefix, rest);
    AuthorityRoundTrip(inner, tail);
  }

  lemma {:induction false} EmbeddedAt(prefix: string, rest: string)
    requires FindSep(prefix + "://" + rest, 0) == |prefix|
    ensures HostOf(prefix + "://" + rest) == AuthorityHost(rest)
  {
    assert (prefix + "://" + rest)[|prefix| + 3..] == rest;
  }

  /** A protocol-relative URL, port and all, whose path carries another URL is attributed to that URL's host. */
  lemma {:induction false} EmbeddedUrlExample()
    ensures HostOf("//a:80/x://b") == Some("b")
  {
    var a, b := Printed(None, "a", Some("80")), Printed(None, "b", None);
    var url := "//a:80/x://b";
    assert "//" + PrintAuthority(a) + "/x" == "//a:80/x";
    assert "//a:80/x" + "://" + PrintAuthority(b) + "" == url;
    assert SepAt(url, 8);
    assert forall j :: 0 <= j < 8 ==> !SepAt(url, j);
    EmbeddedUrlWins(a, "/x", b, "");
  }

  /** A text without a scheme separator that does not start with `//` is a path, and has no host. */
  lemma {:induction false} PathHasNoHost(url: string)
    requires !("//" <= url) && forall i :: 0 <= i < |url| ==> !SepAt(url, i)
    ensures HostOf(url) == None
  {
  }

  // ---------------------------------------------------------------------------------------
  // The allow-list
  // ---------------------------------------------------------------------------------------

  /** Allowed: on the list up to ASCII case. */
  predicate Allows(hosts: seq<string>, host: string) {
    exists i :: 0 <= i < |hosts| && EqIgnoreAsciiCase(hosts[i], host)
  }

  predicate NoDuplicates(hosts: seq<string>) {
    forall i, j :: 0 <= i < j < |hosts| ==> !EqIgnoreAsciiCase(hosts[i], hosts[j])
  }

  lemma {:induction false} AllowsMore(hosts: seq<string>, more: seq<string>)
    requires hosts <= more
    ensures forall host :: Allows(hosts, host) ==> Allows(more, host)
  {
    forall host | Allows(hosts, host) ensures Allows(more, host) {
      var i :| 0 <= i < |hosts| && EqIgnoreAsciiCase(hosts[i], host);
      assert more[i] == hosts[i];
    }
  }

  /** The loop body: add a URL's host unless the list already has it in some casing. */
  method AddHost(hosts: seq<string>, host: Option<string>) returns (more: seq<string>)
    requires NoDuplicates(hosts)
    ensures NoDuplicates(more) && hosts <= more
    ensures host.Some? ==> Allows(more, host.value)
    ensures forall h :: h in more ==> h in hosts || Some(h) == host
  {
    more := hosts;
    if host.Some? && !Allows(hosts, host.value) {
      more := hosts + [host.value];
      assert EqIgnoreAsciiCase(more[|hosts|], host.value);
    }
  }

  /** The hosts of both URLs, each once, and nothing else. */
  method RedirectAllowlist(webOrigin: string, callbackUrl: string) returns (hosts: seq<string>)
    ensures NoDuplicates(hosts)
    ensures HostOf(webOrigin).Some? ==> Allows(hosts, HostOf(webOrigin).value)
    ensures HostOf(callbackUrl).Some? ==> Allows(hosts, HostOf(callbackUrl).value)
    ensures forall host :: host in hosts ==> Some(host) == HostOf(webOrigin) || Some(host) == HostOf(callbackUrl)
  {
    hosts := [];
    ghost var origin, callback := HostOf(webOrigin), HostOf(callbackUrl);
    var urls := [webOrigin, callbackUrl];
    for k := 0 to |urls|
      invariant NoDuplicates(hosts)
      invariant k > 0 && origin.Some? ==> Allows(hosts, origin.value)
      invariant k > 1 && callback.Some? ==> Allows(hosts, callback.value)
      invariant forall host :: host in hosts ==> Some(host) == origin || Some(host) == callback
    {
      var host := HostOf(urls[k]);
      assert host == if k == 0 then origin else callback;
      var more := AddHost(hosts, host);
      AllowsMore(hosts, more);
      hosts := more;
    }
  }

  function TrimEndSlashes(s: string): (r: string)
    ensures r <= s
    ensures r == "" || r[|r| - 1] != '/'
    ensures forall i :: |r| <= i < |s| ==> s[i] == '/'
  {
    if s != "" && s[|s| - 1] == '/' then TrimEndSlashes(s[..|s| - 1]) else s
  }

  datatype OAuthConfig = OAuthConfig(
    successRedirectUrl: string,
    mfaRedirectUrl: string,
    errorRedirectUrl: string,
    redirectAllowlist: seq<string>,
    callbackUrl: string)

  /** A redirect path: rooted, not itself authority-like, and free of scheme separators. */
  predicate IsRedirectPath(path: string) {
    path != "" && path[0] == '/' && ':' !in path && (|path| > 1 ==> path[1] != '/')
  }

  /** `s` is `trimmed` followed by slashes only. */
  predicate TrimmedFrom(s: string, trimmed: string) {
    trimmed <= s && forall i :: |trimmed| <= i < |s| ==> s[i] == '/'
  }

  /** Trimming slashes and appending a rooted path leaves the authority alone. */
  lemma {:induction false} AuthorityKept(rest: string, trimmed: string, path: string)
    requires TrimmedFrom(rest, trimmed) && IsRedirectPath(path)
    ensures Authority(trimmed + path) == Authority(rest)
  {
    var a := Authority(rest);
    assert forall i :: 0 <= i < |a| ==> a[i] == rest[i];
    assert |a| > |trimmed| ==> IsDelimiter(a[|trimmed|]);
    var tail := trimmed[|a|..] + path;
    assert trimmed + path == a + tail;
    assert |a| < |trimmed| ==> trimmed[|a|] == rest[|a|];
    AuthorityStops(a, tail);
  }

  /** The first scheme separator of the redirect is the origin's own. */
  lemma {:induction false} SeparatorKept(origin: string, trimmed: string, path: string)
    requires TrimmedFrom(origin, trimmed) && (trimmed == "" || trimmed[|trimmed| - 1] != '/')
    requires IsRedirectPath(path)
    requires FindSep(origin, 0) < |origin| ==> FindSep(origin, 0) + 3 <= |trimmed|
    ensures FindSep(trimmed + path, 0)
            == if FindSep(origin, 0) < |origin| then FindSep(origin, 0) else |trimmed + path|
  {
    var url, sep := trimmed + path, FindSep(origin, 0);
    forall j | 0 <= j < |url| && SepAt(url, j) ensures SepAt(origin, j) {
      assert url[j] == ':';
      assert j < |trimmed|;
      assert url[|trimmed|] == path[0] && url[|trimmed| - 1] == trimmed[|trimmed| - 1];
    }
    if sep < |origin| {
      assert SepAt(url, sep);
    }
  }

  /** The redirect's authority starts where the origin's does, within the trimmed part. */
  lemma {:induction false} StartKept(origin: string, path: string)
    requires IsRedirectPath(path)
    requires AuthorityStart(origin).Some? && Authority(origin[AuthorityStart(origin).value..]) != ""
    ensures AuthorityStart(TrimEndSlashes(origin) + path) == AuthorityStart(origin)
    ensures AuthorityStart(origin).value <= |TrimEndSlashes(origin)|
  {
    var trimmed, start := TrimEndSlashes(origin), AuthorityStart(origin).value;
    AuthorityIsKept(origin, trimmed, start);
    SeparatorKept(origin, trimmed, path);
    assert (trimmed + path)[..2] == origin[..2];
  }

  /** An authority does not start with a slash, so trimming slashes stops after its start. */
  lemma {:induction false} AuthorityIsKept(origin: string, trimmed: string, start: nat)
    requires TrimmedFrom(origin, trimmed) && start <= |origin| && Authority(origin[start..]) != ""
    ensures start < |trimmed|
  {
    assert origin[start] == Authority(origin[start..])[0];
  }

  /**
   For every origin that names a host, the redirect built by trimming its slashes and
   appending a redirect path names the same host.
   */
  lemma {:induction false} RedirectKeepsHost(origin: string, path: string)
    requires HostOf(origin).Some? && IsRedirectPath(path)
    ensures HostOf(TrimEndSlashes(origin) + path) == HostOf(origin)
  {
    var trimmed, start := TrimEndSlashes(origin), AuthorityStart(origin).value;
    HostNeedsAuthority(origin[start..]);
    StartKept(origin, path);
    TrimmedSuffix(origin, trimmed, start);
    AuthorityKept(origin[start..], trimmed[start..], path);
    SuffixOfSum(trimmed, path, start);
  }

  lemma {:induction false} TrimmedSuffix(s: string, trimmed: string, start: nat)
    requires TrimmedFrom(s, trimmed) && start <= |trimmed|
    ensures TrimmedFrom(s[start..], trimmed[start..])
  {
  }

  lemma {:induction false} SuffixOfSum(a: string, b: string, start: nat)
    requires start <= |a|
    ensures (a + b)[start..] == a[start..] + b
  {
  }

  lemma {:induction false} HostNeedsAuthority(rest: string)
    requires AuthorityHost(rest).Some?
    ensures Authority(rest) != ""
  {
  }

  lemma {:induction false} PathsAreRedirects()
    ensures IsRedirectPath(SUCCESS_PATH) && IsRedirectPath(MFA_PATH) && IsRedirectPath(ERROR_PATH)
  {
  }

  /** The URL names the origin's host, and the list allows it. */
  predicate StaysOn(url: string, origin: string, hosts: seq<string>) {
    HostOf(url).Some? && HostOf(url) == HostOf(origin) && Allows(hosts, HostOf(url).value)
  }

  /** `oauth_config` once Google is configured. */
  method OauthConfigured(webOrigin: string, callbackUrl: string) returns (config: OAuthConfig)
    ensures NoDuplicates(config.redirectAllowlist)
    ensures HostOf(webOrigin).Some? ==>
              && StaysOn(config.successRedirectUrl, webOrigin, config.redirectAllowlist)
              && StaysOn(config.mfaRedirectUrl, webOrigin, config.redirectAllowlist)
              && StaysOn(config.errorRedirectUrl, webOrigin, config.redirectAllowlist)
    ensures HostOf(callbackUrl).Some? ==> Allows(config.redirectAllowlist, HostOf(callbackUrl).value)
    ensures var origin := TrimEndSlashes(webOrigin);
            && config.successRedirectUrl == origin + "/auth/oauth/success"
            && config.mfaRedirectUrl == origin + "/auth/mfa"
            && config.errorRedirectUrl == origin + "/auth/oauth/error"
            && config.callbackUrl == callbackUrl
  {
    var origin := TrimEndSlashes(webOrigin);
    var hosts := RedirectAllowlist(webOrigin, callbackUrl);
    if HostOf(webOrigin).Some? {
      PathsAreRedirects();
      RedirectKeepsHost(webOrigin, SUCCESS_PATH);
      RedirectKeepsHost(webOrigin, MFA_PATH);
      RedirectKeepsHost(webOrigin, ERROR_PATH);
    }
    config := OAuthConfig(origin + SUCCESS_PATH, origin + MFA_PATH, origin + ERROR_PATH, hosts, callbackUrl);
  }
}
