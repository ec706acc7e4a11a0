/**
 The edge gate: which paths need a verified session, and what a request to one gets.

 The protected patterns are the source's two regular expressions, as syntax trees with the
 usual matching relation; `Segments` is the rule they are meant to express.
 */
module EdgeGate {
  import opened Options
  import opened Text

  // ---------------------------------------------------------------------------------------
  // Regular expressions
  // ---------------------------------------------------------------------------------------

  datatype Re =
    | Lit(text: string)
    | EndOfInput
    | Cat(first: Re, second: Re)
    | Alt(left: Re, right: Re)
    | NotAhead(re: Re)

  /** A position of `s` at which a match starting at `i` can stop. */
  predicate Within(s: string, i: nat, m: nat) {
    i <= m <= |s|
  }

  /** `re` matches `s` from `i` up to `j`. */
  predicate MatchesTo(re: Re, s: string, i: nat, j: nat)
    requires i <= |s| && j <= |s|
  {
    match re
    case Lit(text) => j == i + |text| && s[i..j] == text
    case EndOfInput => i == j == |s|
    case Cat(a, b) =>
      exists m: nat {:trigger Within(s, i, m)} :: i <= m <= |s| && Within(s, i, m) && MatchesTo(a, s, i, m) && MatchesTo(b, s, m, j)
    case Alt(a, b) => MatchesTo(a, s, i, j) || MatchesTo(b, s, i, j)
    case NotAhead(a) =>
      i == j && !exists m: nat {:trigger Within(s, i, m)} :: i <= m <= |s| && Within(s, i, m) && MatchesTo(a, s, i, m)
  }

  predicate MatchesAt(re: Re, s: string, i: nat)
    requires i <= |s|
  {
    exists j: nat {:trigger Within(s, i, j)} :: i <= j <= |s| && Within(s, i, j) && MatchesTo(re, s, i, j)
  }

  /** `pattern.test(s)` of a pattern anchored at the start. */
  predicate Test(re: Re, s: string) {
    MatchesAt(re, s, 0)
  }

  const SLASH_OR_END := Alt(Lit("/"), EndOfInput)
  const DASHBOARD := Cat(Lit("/dashboard"), SLASH_OR_END)
  const BARE_OR_NOT_LOGIN := Alt(EndOfInput, Cat(Lit("/"), NotAhead(Cat(Lit("login"), SLASH_OR_END))))
  const PLATFORM := Cat(Lit("/platform"), BARE_OR_NOT_LOGIN)

  predicate Protected(pathname: string) {
    Test(DASHBOARD, pathname) || Test(PLATFORM, pathname)
  }

  // ---------------------------------------------------------------------------------------
  // The segment rule
  // ---------------------------------------------------------------------------------------

  /** The segments between slashes. */
  function Segments(s: string): seq<string> {
    Split(s, '/')
  }

  /** First segment `dashboard`, or first segment `platform` with second segment not `login`. */
  predicate SegmentRule(pathname: string) {
    && "/" <= pathname
    && var segments := Segments(pathname[1..]);
       || segments[0] == "dashboard"
       || (segments[0] == "platform" && !(|segments| > 1 && segments[1] == "login"))
  }

  /** `word` is the text from `i` up to a slash or the end. */
  predicate WordAt(s: string, i: nat, word: string) {
    && i + |word| <= |s| && s[i..i + |word|] == word
    && (i + |word| == |s| || s[i + |word|] == '/')
  }

  lemma {:induction false} WordIsHead(s: string, i: nat, word: string)
    requires i <= |s| && '/' !in word
    ensures WordAt(s, i, word) <==> BeforeChar(s[i..], '/') == word
  {
    var rest, n := s[i..], |word|;
    if i + n <= |s| {
      assert s[i..i + n] == rest[..n];
      if rest[..n] == word && (i + n == |s| || s[i + n] == '/') {
        assert rest == word + rest[n..];
        BeforeCharStops(word, '/', rest[n..]);
      }
    }
  }

  /** A sequence starting with a literal matches where the literal stands and the rest follows. */
  lemma {:induction false} LitThen(text: string, rest: Re, s: string, i: nat)
    requires i <= |s|
    ensures MatchesAt(Cat(Lit(text), rest), s, i)
            <==> i + |text| <= |s| && s[i..i + |text|] == text && MatchesAt(rest, s, i + |text|)
  {
    var m := i + |text|;
    if m <= |s| && s[i..m] == text && MatchesAt(rest, s, m) {
      var j: nat :| m <= j <= |s| && Within(s, m, j) && MatchesTo(rest, s, m, j);
      assert Within(s, i, m) && Within(s, i, j);
      assert MatchesTo(Lit(text), s, i, m);
      assert MatchesTo(Cat(Lit(text), rest), s, i, j);
    }
    if j: nat :| i <= j <= |s| && Within(s, i, j) && MatchesTo(Cat(Lit(text), rest), s, i, j) {
      var k: nat :| i <= k <= |s| && Within(s, i, k) && MatchesTo(Lit(text), s, i, k) && MatchesTo(rest, s, k, j);
      assert k == m;
      MatchGoesForward(rest, s, m, j);
      assert Within(s, m, j);
    }
  }

  lemma {:induction false} MatchGoesForward(re: Re, s: string, i: nat, j: nat)
    requires i <= |s| && j <= |s| && MatchesTo(re, s, i, j)
    ensures i <= j
  {
    match re
    case Cat(a, b) =>
      var m: nat :| i <= m <= |s| && Within(s, i, m) && MatchesTo(a, s, i, m) && MatchesTo(b, s, m, j);
      MatchGoesForward(b, s, m, j);
    case Alt(a, b) =>
      if MatchesTo(a, s, i, j) {
        MatchGoesForward(a, s, i, j);
      } else {
        MatchGoesForward(b, s, i, j);
      }
    case _ =>
  }

  lemma {:induction false} AltAt(a: Re, b: Re, s: string, i: nat)
    requires i <= |s|
    ensures MatchesAt(Alt(a, b), s, i) <==> MatchesAt(a, s, i) || MatchesAt(b, s, i)
  {
    forall j: nat | Within(s, i, j) ensures MatchesTo(Alt(a, b), s, i, j) <==> MatchesTo(a, s, i, j) || MatchesTo(b, s, i, j) {
    }
  }

  lemma {:induction false} EndAt(s: string, i: nat)
    requires i <= |s|
    ensures MatchesAt(EndOfInput, s, i) <==> i == |s|
  {
    assert Within(s, i, |s|);
  }

  lemma {:induction false} BoundaryAt(s: string, m: nat)
    requires m <= |s|
    ensures MatchesAt(SLASH_OR_END, s, m) <==> (m == |s| || s[m] == '/')
  {
    AltAt(Lit("/"), EndOfInput, s, m);
    EndAt(s, m);
    if m < |s| {
      assert s[m..m + 1] == [s[m]];
      assert Within(s, m, m + 1) && (s[m] == '/' ==> MatchesTo(Lit("/"), s, m, m + 1));
    }
  }

  /** A literal followed by a slash or the end, by the matching relation, is a whole word. */
  lemma {:induction false} LitThenBoundary(s: string, i: nat, word: string)
    requires i <= |s|
    ensures MatchesAt(Cat(Lit(word), SLASH_OR_END), s, i) <==> WordAt(s, i, word)
  {
    LitThen(word, SLASH_OR_END, s, i);
    if i + |word| <= |s| {
      BoundaryAt(s, i + |word|);
    }
  }

  lemma {:induction false} LookaheadAt(re: Re, s: string, i: nat)
    requires i <= |s|
    ensures MatchesAt(NotAhead(re), s, i) <==> !MatchesAt(re, s, i)
  {
    assert Within(s, i, i);
    assert MatchesTo(NotAhead(re), s, i, i) <==> !MatchesAt(re, s, i);
  }

  /** After `/platform`: nothing, or a slash that `login` as a whole word does not follow. */
  lemma {:induction false} TailMatch(s: string, i: nat)
    requires i <= |s|
    ensures MatchesAt(BARE_OR_NOT_LOGIN, s, i) <==> (i == |s| || (s[i] == '/' && !WordAt(s, i + 1, "login")))
  {
    var login := Cat(Lit("login"), SLASH_OR_END);
    AltAt(EndOfInput, Cat(Lit("/"), NotAhead(login)), s, i);
    EndAt(s, i);
    LitThen("/", NotAhead(login), s, i);
    if i < |s| {
      assert s[i..i + 1] == [s[i]];
      LookaheadAt(login, s, i + 1);
      LitThenBoundary(s, i + 1, "login");
    }
  }

  lemma {:induction false} CatLit(text: string, rest: Re, s: string)
    ensures Test(Cat(Lit(text), rest), s) <==> text <= s && MatchesAt(rest, s, |text|)
  {
    LitThen(text, rest, s, 0);
    assert |text| <= |s| ==> s[0..|text|] == s[..|text|];
  }

  lemma {:induction false} SlashWord(s: string, word: string)
    ensures WordAt(s, 0, "/" + word) <==> "/" <= s && WordAt(s, 1, word)
  {
    var full := "/" + word;
    if "/" <= s && |full| <= |s| {
      assert s[0..|full|] == "/" + s[1..|full|];
      assert full[1..] == word;
      assert ("/" + s[1..|full|])[1..] == s[1..|full|];
    }
    if WordAt(s, 0, full) {
      assert s[0..|full|][0] == '/';
    }
  }

  /** For every path string, the two regular expressions are exactly the segment rule. */
  lemma {:induction false} ProtectedIsSegmentRule(pathname: string)
    ensures Protected(pathname) <==> SegmentRule(pathname)
  {
    LitThenBoundary(pathname, 0, "/" + "dashboard");
    assert "/" + "dashboard" == "/dashboard";
    SlashWord(pathname, "dashboard");
    CatLit("/platform", BARE_OR_NOT_LOGIN, pathname);
    if "/" <= pathname {
      WordIsHead(pathname, 1, "dashboard");
      WordIsHead(pathname, 1, "platform");
      PlatformRule(pathname);
    }
  }

  lemma {:induction false} PlatformRule(pathname: string)
    requires "/" <= pathname
    ensures Test(PLATFORM, pathname)
            <==> (WordAt(pathname, 1, "platform")
                  && !(|Segments(pathname[1..])| > 1 && Segments(pathname[1..])[1] == "login"))
  {
    CatLit("/platform", BARE_OR_NOT_LOGIN, pathname);
    assert "/" + "platform" == "/platform";
    SlashWord(pathname, "platform");
    WordIsHead(pathname, 1, "platform");
    if "/platform" <= pathname {
      assert pathname[0..9] == "/platform";
      TailMatch(pathname, 9);
      if WordAt(pathname, 1, "platform") && |pathname| > 9 {
        WordIsHead(pathname, 10, "login");
        var rest := pathname[1..];
        assert rest[9..] == pathname[10..];
        assert Segments(rest) == ["platform"] + Split(rest[9..], '/');
      }
    }
  }

  // ---------------------------------------------------------------------------------------
  // The gate
  // ---------------------------------------------------------------------------------------

  /** What the session cookie came to: absent, a rejected verification, or a decoded token. */
  datatype Session = NoCookie | Rejected | Decoded(isValid: bool, tokenType: Option<string>)

  datatype Response = PassThrough | AuthProxy | Redirect(path: string, reason: Option<string>)

  const AUTH_API := "/api/auth/"
  const PLATFORM_ROOT := "/platform"
  const PLATFORM_LOGIN := "/platform/login"
  const DASHBOARD_LOGIN := "/auth/login"

  function Proxy(pathname: string, session: Session): Response {
    if AUTH_API <= pathname then AuthProxy
    else if !Protected(pathname) then PassThrough
    else
      var isPlatform := PLATFORM_ROOT <= pathname;
      var loginPath := if isPlatform then PLATFORM_LOGIN else DASHBOARD_LOGIN;
      var expectedType := if isPlatform then "platform" else "dashboard";
      if !session.Decoded? || !session.isValid then Redirect(loginPath, None)
      else if session.tokenType != Some(expectedType) then Redirect(loginPath, Some("wrong-domain"))
      else PassThrough
  }

  /** The domain of a protected path: its first segment. */
  function Domain(pathname: string): string
    requires SegmentRule(pathname)
  {
    Segments(pathname[1..])[0]
  }

  /** A verified token of the given domain. */
  predicate Admits(session: Session, domain: string) {
    session.Decoded? && session.isValid && session.tokenType == Some(domain)
  }

  lemma {:induction false} DomainIsPrefix(pathname: string)
    requires SegmentRule(pathname)
    ensures Domain(pathname) == "platform" <==> PLATFORM_ROOT <= pathname
    ensures !(AUTH_API <= pathname)
  {
    WordIsHead(pathname, 1, Domain(pathname));
    assert pathname[0] == '/';
    if Domain(pathname) == "platform" {
      assert pathname[1..9] == "platform";
      assert pathname[..9] == "/" + pathname[1..9];
    } else {
      assert pathname[1..10] == "dashboard";
      assert pathname[1] == pathname[1..10][0] == 'd';
      assert PLATFORM_ROOT[1] == 'p';
    }
    assert AUTH_API[1] == 'a';
    assert pathname[1] == Domain(pathname)[0];
  }

  /**
   A protected page passes exactly on a verified token of its own domain; anything else goes
   to that domain's login, with a reason exactly when the token was valid for another domain.
   */
  lemma {:induction false} GateIsFailClosed(pathname: string, session: Session)
    requires SegmentRule(pathname)
    ensures var domain := Domain(pathname);
            var login := if domain == "platform" then "/platform/login" else "/auth/login";
            Proxy(pathname, session)
            == if Admits(session, domain) then PassThrough
               else if session.Decoded? && session.isValid then Redirect(login, Some("wrong-domain"))
               else Redirect(login, None)
  {
    ProtectedIsSegmentRule(pathname);
    DomainIsPrefix(pathname);
  }

  /** A two-segment path that neither rule protects. */
  lemma {:induction false} OpenPath(pathname: string, first: string, second: string)
    requires '/' !in first && '/' !in second && pathname == "/" + first + "/" + second
    requires first != "dashboard" && (first == "platform" ==> second == "login")
    ensures !SegmentRule(pathname)
  {
    SplitFirst(first, second, '/');
    SplitWord(second, '/');
    assert pathname[1..] == first + "/" + second;
    assert Segments(pathname[1..]) == [first, second];
  }

  lemma {:induction false} PlatformLoginIsOpen()
    ensures !SegmentRule(PLATFORM_LOGIN)
  {
    assert PLATFORM_LOGIN == "/" + "platform" + "/" + "login";
    OpenPath(PLATFORM_LOGIN, "platform", "login");
  }

  lemma {:induction false} DashboardLoginIsOpen()
    ensures !SegmentRule(DASHBOARD_LOGIN)
  {
    assert DASHBOARD_LOGIN == "/" + "auth" + "/" + "login";
    OpenPath(DASHBOARD_LOGIN, "auth", "login");
  }

  lemma {:induction false} LoginsAreNotAuthApi()
    ensures !(AUTH_API <= PLATFORM_LOGIN) && !(AUTH_API <= DASHBOARD_LOGIN)
  {
    assert AUTH_API[1] == 'a' && PLATFORM_LOGIN[1] == 'p';
    assert AUTH_API[2] == 'p' && DASHBOARD_LOGIN[2] == 'u';
  }

  lemma {:induction false} OpenPathPasses(pathname: string, session: Session)
    requires !SegmentRule(pathname) && !(AUTH_API <= pathname)
    ensures Proxy(pathname, session) == PassThrough
  {
    ProtectedIsSegmentRule(pathname);
  }

  /** Outside the protected pages: auth traffic, and only it, goes to its own proxy; the rest passes. */
  lemma {:induction false} OutsideThePages(pathname: string, session: Session)
    ensures Proxy(pathname, session) == AuthProxy <==> "/api/auth/" <= pathname
    ensures !SegmentRule(pathname) && !("/api/auth/" <= pathname) ==> Proxy(pathname, session) == PassThrough
  {
    ProtectedIsSegmentRule(pathname);
  }

  /** Following redirects, whatever the sessions, reaches a page in at most one hop. */
  lemma {:induction false} OneHop(pathname: string, session: Session, later: Session)
    requires Proxy(pathname, session).Redirect?
    ensures Proxy(Proxy(pathname, session).path, later) == PassThrough
  {
    RedirectsToLogin(pathname, session);
    LoginPasses(Proxy(pathname, session).path, later);
  }

  lemma {:induction false} RedirectsToLogin(pathname: string, session: Session)
    requires Proxy(pathname, session).Redirect?
    ensures var target := Proxy(pathname, session).path; target == PLATFORM_LOGIN || target == DASHBOARD_LOGIN
  {
  }

  lemma {:induction false} LoginPasses(pathname: string, session: Session)
    requires pathname == PLATFORM_LOGIN || pathname == DASHBOARD_LOGIN
    ensures Proxy(pathname, session) == PassThrough
  {
    LoginsAreNotAuthApi();
    if pathname == PLATFORM_LOGIN {
      PlatformLoginIsOpen();
    } else {
      DashboardLoginIsOpen();
    }
    OpenPathPasses(pathname, session);
  }
}
