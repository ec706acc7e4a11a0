/** The request guards' credential readers: bearer header, cookie header, and their precedence. */
module Credentials {
  import opened Options
  import opened Text

  /** The two headers a guard reads, as sent. */
  datatype Parts = Parts(authorization: Option<string>, cookie: Option<string>)

  /** What `HeaderValue::to_str` accepts. */
  predicate IsVisibleAscii(s: string) {
    forall i :: 0 <= i < |s| ==> ' ' <= s[i] <= '~' || s[i] == '\t'
  }

  function ToStr(header: Option<string>): Option<string> {
    if header.Some? && IsVisibleAscii(header.value) then header else None
  }

  /** White space, among the characters a header value can hold. */
  predicate IsSpace(c: char) {
    c == ' ' || c == '\t'
  }

  function TrimStart(s: string): string {
    if s != "" && IsSpace(s[0]) then TrimStart(s[1..]) else s
  }

  function TrimEnd(s: string): string {
    if s != "" && IsSpace(s[|s| - 1]) then TrimEnd(s[..|s| - 1]) else s
  }

  function Trim(s: string): string {
    TrimEnd(TrimStart(s))
  }

  /** The text around the first `c`. */
  function SplitOnce(s: string, c: char): Option<(string, string)> {
    var head := BeforeChar(s, c);
    if |head| == |s| then None else Some((head, s[|head| + 1..]))
  }

  function NonEmpty(s: string): Option<string> {
    if s == "" then None else Some(s)
  }

  function BearerToken(parts: Parts): Option<string> {
    match ToStr(parts.authorization)
    case None => None
    case Some(value) =>
      match SplitOnce(value, ' ')
      case None => None
      case Some((scheme, rest)) =>
        if EqIgnoreAsciiCase(scheme, "Bearer") then NonEmpty(Trim(rest)) else None
  }

  /** The value of the first `name=value` piece whose name matches exactly. */
  function FindCookie(pieces: seq<string>, name: string): Option<string> {
    if pieces == [] then None
    else
      match SplitOnce(Trim(pieces[0]), '=')
      case Some((key, value)) => if key == name then Some(Trim(value)) else FindCookie(pieces[1..], name)
      case None => FindCookie(pieces[1..], name)
  }

  function CookieToken(parts: Parts, name: string): Option<string> {
    match ToStr(parts.cookie)
    case None => None
    case Some(header) =>
      match FindCookie(Split(header, ';'), name)
      case None => None
      case Some(value) => NonEmpty(value)
  }

  function AccessToken(parts: Parts, cookieName: string): Option<string> {
    var bearer := BearerToken(parts);
    if bearer.Some? then bearer else CookieToken(parts, cookieName)
  }

  // ---------------------------------------------------------------------------------------
  // Reading inverts printing
  // ---------------------------------------------------------------------------------------

  predicate IsBlank(s: string) {
    forall i :: 0 <= i < |s| ==> s[i] in {' ', '\t'}
  }

  /** No white space at either end. */
  predicate IsTrimmed(s: string) {
    s == "" || (s[0] !in {' ', '\t'} && s[|s| - 1] !in {' ', '\t'})
  }

  lemma {:induction false} TrimRemovesPadding(left: string, s: string, right: string)
    requires IsBlank(left) && IsBlank(right) && IsTrimmed(s)
    ensures Trim(left + s + right) == s
  {
    TrimStartRemoves(left, s + right);
    assert left + s + right == left + (s + right);
    if s == "" {
      assert "" + right == right;
      BlankTrims(right);
    } else {
      assert TrimStart(s + right) == s + right;
      TrimEndRemoves(s, right);
    }
  }

  lemma {:induction false} TrimStartRemoves(left: string, s: string)
    requires IsBlank(left)
    ensures TrimStart(left + s) == TrimStart(s)
  {
    if left == "" {
      assert left + s == s;
    } else {
      TrimStartRemoves(left[1..], s);
      assert (left + s)[1..] == left[1..] + s;
    }
  }

  lemma {:induction false} BlankTrims(s: string)
    requires IsBlank(s)
    ensures TrimStart(s) == ""
  {
    if s != "" {
      BlankTrims(s[1..]);
    }
  }

  lemma {:induction false} TrimEndRemoves(s: string, right: string)
    requires IsBlank(right) && (s == "" || !IsSpace(s[|s| - 1]))
    ensures TrimEnd(s + right) == s
  {
    if right == "" {
      assert s + right == s;
    } else {
      TrimEndRemoves(s, right[..|right| - 1]);
      assert (s + right)[..|s + right| - 1] == s + right[..|right| - 1];
    }
  }

  lemma {:induction false} VisibleJoins(a: string, b: string)
    requires IsVisibleAscii(a) && IsVisibleAscii(b)
    ensures IsVisibleAscii(a + b)
  {
  }

  lemma {:induction false} BlankIsVisible(s: string)
    requires IsBlank(s)
    ensures IsVisibleAscii(s)
  {
  }

  lemma {:induction false} SchemeReads(scheme: string, rest: string)
    requires EqIgnoreAsciiCase(scheme, "Bearer")
    ensures SplitOnce(scheme + " " + rest, ' ') == Some((scheme, rest))
    ensures IsVisibleAscii(scheme)
  {
    forall i | 0 <= i < |scheme| ensures scheme[i] != ' ' && ' ' <= scheme[i] <= '~' {
      assert ToLower(scheme[i]) == ToLower("Bearer"[i]);
    }
    var value := scheme + " " + rest;
    assert value == scheme + (" " + rest);
    BeforeCharStops(scheme, ' ', " " + rest);
    assert value[|scheme| + 1..] == rest;
  }

  /** Any casing of the scheme and any padding: the bearer token is read back. */
  lemma {:induction false} BearerRoundTrip(parts: Parts, scheme: string, left: string, token: string, right: string)
    requires EqIgnoreAsciiCase(scheme, "Bearer") && IsBlank(left) && IsBlank(right) && IsTrimmed(token)
    requires IsVisibleAscii(token)
    requires parts.authorization == Some(scheme + " " + left + token + right)
    ensures BearerToken(parts) == NonEmpty(token)
  {
    var rest := left + token + right;
    SchemeReads(scheme, rest);
    TrimRemovesPadding(left, token, right);
    PaddingIsVisible(left, token, right);
    SchemeIsVisible(scheme, rest);
    assert parts.authorization.value == scheme + " " + rest;
  }

  lemma {:induction false} PaddingIsVisible(left: string, token: string, right: string)
    requires IsBlank(left) && IsBlank(right) && IsVisibleAscii(token)
    ensures IsVisibleAscii(left + token + right)
  {
    BlankIsVisible(left);
    BlankIsVisible(right);
    VisibleJoins(left, token);
    VisibleJoins(left + token, right);
  }

  lemma {:induction false} SchemeIsVisible(scheme: string, rest: string)
    requires IsVisibleAscii(scheme) && IsVisibleAscii(rest)
    ensures IsVisibleAscii(scheme + " " + rest)
  {
    VisibleJoins(scheme, " ");
    VisibleJoins(scheme + " ", rest);
  }

  /** The text is the scheme in some casing, a space, and the token between white space. */
  ghost predicate TokenStands(text: string, left: string, token: string, right: string) {
    && |text| >= 7 && EqIgnoreAsciiCase(text[..6], "Bearer") && text[6] == ' '
    && text[7..] == left + token + right && IsBlank(left) && IsBlank(right)
  }

  /** Printable ASCII and tabs only. */
  predicate Readable(text: string) {
    forall i :: 0 <= i < |text| ==> 32 <= text[i] as int < 127 || text[i] as int == 9
  }

  /** The header text carries the token as a bearer credential. */
  ghost predicate CarriesBearer(text: string, token: string) {
    && Readable(text) && token != "" && IsTrimmed(token)
    && exists left: string, right: string :: TokenStands(text, left, token, right)
  }

  lemma {:induction false} TrimStartPads(s: string) returns (left: string)
    ensures IsBlank(left) && s == left + TrimStart(s)
    ensures TrimStart(s) == "" || !IsSpace(TrimStart(s)[0])
  {
    if s != "" && IsSpace(s[0]) {
      var more := TrimStartPads(s[1..]);
      left := [s[0]] + more;
      assert s == [s[0]] + s[1..];
    } else {
      left := "";
      assert s == left + s;
    }
  }

  lemma {:induction false} TrimEndPads(s: string) returns (right: string)
    ensures IsBlank(right) && s == TrimEnd(s) + right
    ensures TrimEnd(s) == "" || !IsSpace(TrimEnd(s)[|TrimEnd(s)| - 1])
  {
    if s != "" && IsSpace(s[|s| - 1]) {
      var more := TrimEndPads(s[..|s| - 1]);
      right := more + [s[|s| - 1]];
      assert s == s[..|s| - 1] + [s[|s| - 1]];
    } else {
      right := "";
      assert s == s + right;
    }
  }

  /** Trimming takes white space off both ends and nothing else. */
  lemma {:induction false} TrimPads(s: string) returns (left: string, right: string)
    ensures IsBlank(left) && IsBlank(right) && IsTrimmed(Trim(s)) && s == left + Trim(s) + right
  {
    left := TrimStartPads(s);
    right := TrimEndPads(TrimStart(s));
    assert s == left + (Trim(s) + right);
    if Trim(s) != "" {
      assert TrimStart(s)[0] == Trim(s)[0];
    }
  }

  lemma {:induction false} SchemeSplits(text: string)
    ensures var split := SplitOnce(text, ' ');
            split.Some? && EqIgnoreAsciiCase(split.value.0, "Bearer")
            <==> |text| >= 7 && EqIgnoreAsciiCase(text[..6], "Bearer") && text[6] == ' '
    ensures |text| >= 7 && EqIgnoreAsciiCase(text[..6], "Bearer") && text[6] == ' ' ==>
              SplitOnce(text, ' ') == Some((text[..6], text[7..]))
  {
    if |text| >= 7 && EqIgnoreAsciiCase(text[..6], "Bearer") && text[6] == ' ' {
      SchemeReads(text[..6], text[7..]);
      assert text == text[..6] + " " + text[7..];
    }
    var head := BeforeChar(text, ' ');
    assert |head| == 6 ==> text[..6] == head;
  }

  /**
   On every header: the reader yields a token if and only if the header is readable, its
   first six characters spell the scheme in some casing, a space follows, and what is left is
   the non-empty token between white space.
   */
  lemma {:induction false} BearerIsCarried(parts: Parts, token: string)
    ensures BearerToken(parts) == Some(token)
            <==> parts.authorization.Some? && CarriesBearer(parts.authorization.value, token)
  {
    if parts.authorization.Some? && IsVisibleAscii(parts.authorization.value) {
      var text := parts.authorization.value;
      SchemeSplits(text);
      if |text| >= 7 && EqIgnoreAsciiCase(text[..6], "Bearer") && text[6] == ' ' {
        RestIsToken(text, token);
      }
    }
  }

  lemma {:induction false} RestIsToken(text: string, token: string)
    requires |text| >= 7 && EqIgnoreAsciiCase(text[..6], "Bearer") && text[6] == ' '
    ensures NonEmpty(Trim(text[7..])) == Some(token)
            <==> token != "" && IsTrimmed(token) && exists left: string, right: string :: TokenStands(text, left, token, right)
  {
    var rest := text[7..];
    var before, after := TrimPads(rest);
    if Trim(rest) == token {
      assert TokenStands(text, before, token, after);
    }
    if left: string, right: string :| TokenStands(text, left, token, right) {
      if IsTrimmed(token) {
        TrimRemovesPadding(left, token, right);
      }
    }
  }

  /** A cookie as a browser sends it. */
  datatype Cookie = Cookie(name: string, value: string)

  predicate IsCookie(c: Cookie) {
    && IsTrimmed(c.name) && c.name != "" && '=' !in c.name && ';' !in c.name
    && IsTrimmed(c.value) && ';' !in c.value
    && IsVisibleAscii(c.name) && IsVisibleAscii(c.value)
  }

  function PrintCookie(c: Cookie): string {
    c.name + "=" + c.value
  }

  /** `a=1; b=2; c=3` */
  function PrintCookies(cookies: seq<Cookie>): string
    requires cookies != []
  {
    if |cookies| == 1 then PrintCookie(cookies[0])
    else PrintCookie(cookies[0]) + "; " + PrintCookies(cookies[1..])
  }

  /** The value of the first cookie with the name. */
  function FirstValue(cookies: seq<Cookie>, name: string): Option<string> {
    if cookies == [] then None
    else if cookies[0].name == name then Some(cookies[0].value)
    else FirstValue(cookies[1..], name)
  }

  lemma {:induction false} TrimLeft(pad: string, s: string)
    requires IsBlank(pad) && IsTrimmed(s)
    ensures Trim(pad + s) == s
  {
    TrimRemovesPadding(pad, s, "");
    assert pad + s + "" == pad + s;
  }

  lemma {:induction false} PrintedSplits(c: Cookie)
    requires IsCookie(c)
    ensures SplitOnce(PrintCookie(c), '=') == Some((c.name, c.value)) && IsTrimmed(PrintCookie(c))
  {
    var piece := PrintCookie(c);
    assert piece == c.name + ("=" + c.value);
    BeforeCharStops(c.name, '=', "=" + c.value);
    assert piece[|c.name| + 1..] == c.value;
    assert piece[|piece| - 1] == if c.value == "" then '=' else c.value[|c.value| - 1];
  }

  lemma {:induction false} PieceReads(pad: string, c: Cookie)
    requires IsBlank(pad) && IsCookie(c)
    ensures SplitOnce(Trim(pad + PrintCookie(c)), '=') == Some((c.name, c.value))
  {
    PrintedSplits(c);
    TrimLeft(pad, PrintCookie(c));
  }

  lemma {:induction false} TrimmedStays(s: string)
    requires IsTrimmed(s)
    ensures Trim(s) == s
  {
    TrimLeft("", s);
    assert "" + s == s;
  }

  /** The first printed piece decides, or is passed over. */
  lemma {:induction false} FirstPieceReads(pad: string, c: Cookie, pieces: seq<string>, name: string)
    requires IsBlank(pad) && IsCookie(c)
    ensures FindCookie([pad + PrintCookie(c)] + pieces, name)
            == if c.name == name then Some(c.value) else FindCookie(pieces, name)
  {
    PieceReads(pad, c);
    TrimmedStays(c.value);
    assert ([pad + PrintCookie(c)] + pieces)[1..] == pieces;
  }

  lemma {:induction false} PrintedHasNoSeparator(pad: string, c: Cookie)
    requires IsBlank(pad) && IsCookie(c)
    ensures ';' !in pad + PrintCookie(c)
  {
  }

  ghost predicate AreCookies(cookies: seq<Cookie>) {
    cookies != [] && forall i :: 0 <= i < |cookies| ==> IsCookie(cookies[i])
  }

  lemma {:induction false} Regroup(pad: string, piece: string, later: string)
    ensures pad + (piece + "; " + later) == (pad + piece) + [';'] + (" " + later)
  {
  }

  lemma {:induction false} SplitPrinted(pad: string, cookies: seq<Cookie>)
    requires AreCookies(cookies) && IsBlank(pad)
    ensures Split(pad + PrintCookies(cookies), ';')
            == [pad + PrintCookie(cookies[0])]
               + if |cookies| == 1 then [] else Split(" " + PrintCookies(cookies[1..]), ';')
  {
    var first := pad + PrintCookie(cookies[0]);
    PrintedHasNoSeparator(pad, cookies[0]);
    if |cookies| == 1 {
      SplitWord(first, ';');
    } else {
      var later := PrintCookies(cookies[1..]);
      SplitFirst(first, " " + later, ';');
      Regroup(pad, PrintCookie(cookies[0]), later);
    }
  }

  lemma {:induction false} PiecesRead(pad: string, cookies: seq<Cookie>, name: string)
    requires AreCookies(cookies) && IsBlank(pad)
    ensures FindCookie(Split(pad + PrintCookies(cookies), ';'), name) == FirstValue(cookies, name)
    decreases |cookies|
  {
    SplitPrinted(pad, cookies);
    if |cookies| == 1 {
      FirstPieceReads(pad, cookies[0], [], name);
    } else {
      PiecesRead(" ", cookies[1..], name);
      FirstPieceReads(pad, cookies[0], Split(" " + PrintCookies(cookies[1..]), ';'), name);
    }
  }

  lemma {:induction false} PrintedIsVisible(cookies: seq<Cookie>)
    requires AreCookies(cookies)
    ensures IsVisibleAscii(PrintCookies(cookies))
    decreases |cookies|
  {
    if |cookies| > 1 {
      PrintedIsVisible(cookies[1..]);
    }
  }

  /**
   From any cookie header a browser prints, the guard reads the first cookie of that exact
   name; a blank one hides any later one of the same name, and counts as absent.
   */
  lemma {:induction false} CookieRoundTrip(parts: Parts, cookies: seq<Cookie>, name: string)
    requires AreCookies(cookies)
    requires parts.cookie == Some(PrintCookies(cookies))
    ensures CookieToken(parts, name)
            == match FirstValue(cookies, name) case None => None case Some(value) => NonEmpty(value)
  {
    var header := PrintCookies(cookies);
    PiecesRead("", cookies, name);
    assert "" + header == header;
    PrintedIsVisible(cookies);
    TokenFromPieces(parts, header, name, FirstValue(cookies, name));
  }

  lemma {:induction false} TokenFromPieces(parts: Parts, header: string, name: string, found: Option<string>)
    requires parts.cookie == Some(header) && IsVisibleAscii(header) && FindCookie(Split(header, ';'), name) == found
    ensures CookieToken(parts, name) == match found case None => None case Some(value) => NonEmpty(value)
  {
  }

  /** A piece of a cookie header gives the name a value: white space, the name, `=`, the padded value. */
  ghost predicate PieceNames(piece: string, name: string, value: string) {
    && '=' !in name && (name == "" || !IsSpace(name[0]))
    && exists left: string, text: string :: PieceStands(piece, left, name, text) && value == Trim(text)
  }

  ghost predicate PieceStands(piece: string, left: string, name: string, text: string) {
    IsBlank(left) && piece == left + name + "=" + text
  }

  function ReadPiece(piece: string, name: string): Option<string> {
    match SplitOnce(Trim(piece), '=')
    case Some((key, value)) => if key == name then Some(Trim(value)) else None
    case None => None
  }

  lemma {:induction false} TrimIgnoresRight(s: string, right: string)
    requires IsBlank(right)
    ensures Trim(s + right) == Trim(s)
  {
    var before, after := TrimPads(s);
    assert s + right == before + Trim(s) + (after + right);
    TrimRemovesPadding(before, Trim(s), after + right);
  }

  lemma {:induction false} CoreReads(name: string, kept: string)
    requires '=' !in name && (name == "" || !IsSpace(name[0])) && (kept == "" || !IsSpace(kept[|kept| - 1]))
    ensures SplitOnce(name + ("=" + kept), '=') == Some((name, kept))
    ensures IsTrimmed(name + ("=" + kept))
  {
    var core := name + ("=" + kept);
    BeforeCharStops(name, '=', "=" + kept);
    assert core[|name| + 1..] == kept;
    assert core[|core| - 1] == if kept == "" then '=' else kept[|kept| - 1];
    assert core[0] == if name == "" then '=' else name[0];
  }

  lemma {:induction false} StandingPieceReads(piece: string, left: string, name: string, text: string)
    requires '=' !in name && (name == "" || !IsSpace(name[0])) && PieceStands(piece, left, name, text)
    ensures ReadPiece(piece, name) == Some(Trim(text))
  {
    var right := TrimEndPads(text);
    var kept := TrimEnd(text);
    CoreReads(name, kept);
    Regroups(left, name, kept, right);
    TrimRemovesPadding(left, name + ("=" + kept), right);
    TrimIgnoresRight(kept, right);
  }

  lemma {:induction false} Regroups(left: string, name: string, kept: string, right: string)
    ensures left + name + "=" + (kept + right) == left + (name + ("=" + kept)) + right
  {
  }

  lemma {:induction false} ReadPieceStands(piece: string, name: string)
    requires ReadPiece(piece, name).Some?
    ensures PieceNames(piece, name, ReadPiece(piece, name).value)
  {
    var left, right := TrimPads(piece);
    var core := Trim(piece);
    var kept := core[|name| + 1..];
    assert core == name + "=" + kept;
    assert name != "" ==> name[0] == core[0];
    assert piece == left + name + "=" + (kept + right);
    assert PieceStands(piece, left, name, kept + right);
    TrimIgnoresRight(kept, right);
  }

  lemma {:induction false} PieceIsNamed(piece: string, name: string, value: string)
    ensures ReadPiece(piece, name) == Some(value) <==> PieceNames(piece, name, value)
  {
    if ReadPiece(piece, name).Some? {
      ReadPieceStands(piece, name);
    }
    if PieceNames(piece, name, value) {
      var left: string, text: string :| PieceStands(piece, left, name, text) && value == Trim(text);
      StandingPieceReads(piece, left, name, text);
    }
  }

  /** Piece `k` is the first that names the cookie, and it gives the value. */
  ghost predicate FirstNamed(pieces: seq<string>, k: nat, name: string, value: string) {
    && k < |pieces| && PieceNames(pieces[k], name, value)
    && forall j, other: string :: 0 <= j < k ==> !PieceNames(pieces[j], name, other)
  }

  lemma {:induction false} FoundIsFirstNamed(pieces: seq<string>, name: string, value: string)
    ensures FindCookie(pieces, name) == Some(value) <==> exists k: nat :: FirstNamed(pieces, k, name, value)
  {
    if pieces != [] {
      FoundIsFirstNamed(pieces[1..], name, value);
      forall other: string ensures ReadPiece(pieces[0], name) == Some(other) <==> PieceNames(pieces[0], name, other) {
        PieceIsNamed(pieces[0], name, other);
      }
      if ReadPiece(pieces[0], name).Some? {
        FirstPieceDecides(pieces, name, value);
      } else {
        FirstPiecePasses(pieces, name, value);
      }
    }
  }

  lemma {:induction false} FirstPieceDecides(pieces: seq<string>, name: string, value: string)
    requires pieces != [] && ReadPiece(pieces[0], name).Some?
    requires forall other: string :: ReadPiece(pieces[0], name) == Some(other) <==> PieceNames(pieces[0], name, other)
    ensures ReadPiece(pieces[0], name) == Some(value) <==> exists k: nat :: FirstNamed(pieces, k, name, value)
  {
    var read := ReadPiece(pieces[0], name).value;
    assert PieceNames(pieces[0], name, read);
    if read == value {
      assert FirstNamed(pieces, 0, name, value);
    }
  }

  lemma {:induction false} FirstPiecePasses(pieces: seq<string>, name: string, value: string)
    requires pieces != [] && forall other: string :: !PieceNames(pieces[0], name, other)
    ensures (exists k: nat :: FirstNamed(pieces, k, name, value)) <==> (exists k: nat :: FirstNamed(pieces[1..], k, name, value))
  {
    if k: nat :| FirstNamed(pieces, k, name, value) {
      assert k > 0 && pieces[1..][k - 1] == pieces[k];
      assert forall j :: 0 <= j < k - 1 ==> pieces[1..][j] == pieces[j + 1];
      assert FirstNamed(pieces[1..], k - 1, name, value);
    }
    if k: nat :| FirstNamed(pieces[1..], k, name, value) {
      assert forall j :: 0 < j <= k ==> pieces[j] == pieces[1..][j - 1];
      assert FirstNamed(pieces, k + 1, name, value);
    }
  }

  /** The header is readable and, of its pieces between semicolons, the first to name the cookie gives the value. */
  ghost predicate CarriesCookie(header: string, name: string, value: string) {
    Readable(header) && exists k: nat :: FirstNamed(Split(header, ';'), k, name, value)
  }

  /**
   On every header: the reader yields a value if and only if it is not blank and the first of
   the header's pieces that names the cookie gives it.
   */
  lemma {:induction false} CookieIsCarried(parts: Parts, name: string, value: string)
    ensures CookieToken(parts, name) == Some(value)
            <==> parts.cookie.Some? && value != "" && CarriesCookie(parts.cookie.value, name, value)
  {
    if parts.cookie.Some? {
      var pieces := Split(parts.cookie.value, ';');
      FoundIsFirstNamed(pieces, name, value);
      assert CarriesCookie(parts.cookie.value, name, value)
        <==> IsVisibleAscii(parts.cookie.value) && FindCookie(pieces, name) == Some(value);
    }
  }

  /** A readable bearer credential wins over any cookie; without one the cookie is the credential. */
  lemma {:induction false} AccessTokenRoundTrip(scheme: string, left: string, token: string, right: string,
                                                cookies: seq<Cookie>, name: string)
    requires EqIgnoreAsciiCase(scheme, "Bearer") && IsBlank(left) && IsBlank(right) && IsTrimmed(token)
    requires IsVisibleAscii(token)
    requires AreCookies(cookies)
    ensures var parts := Parts(Some(scheme + " " + left + token + right), Some(PrintCookies(cookies)));
            var cookie := match FirstValue(cookies, name) case None => None case Some(value) => NonEmpty(value);
            && AccessToken(parts, name) == (if token != "" then Some(token) else cookie)
            && AccessToken(parts.(authorization := None), name) == cookie
  {
    var parts := Parts(Some(scheme + " " + left + token + right), Some(PrintCookies(cookies)));
    BearerRoundTrip(parts, scheme, left, token, right);
    CookieRoundTrip(parts, cookies, name);
    CookieRoundTrip(parts.(authorization := None), cookies, name);
  }

  /**
   On every pair of headers: the credential is the bearer token if the authorization header
   carries one, and otherwise what the cookie header carries under the name; nothing else is.
   */
  lemma {:induction false} AccessTokenIsCarried(parts: Parts, name: string, value: string)
    ensures AccessToken(parts, name) == Some(value)
            <==> CarriedAsBearer(parts, value)
                 || ((forall token: string :: !CarriedAsBearer(parts, token))
                     && parts.cookie.Some? && value != "" && CarriesCookie(parts.cookie.value, name, value))
  {
    forall token: string ensures BearerToken(parts) == Some(token) <==> CarriedAsBearer(parts, token) {
      BearerIsCarried(parts, token);
    }
    CookieIsCarried(parts, name, value);
    assert BearerToken(parts).Some? ==> CarriedAsBearer(parts, BearerToken(parts).value);
  }

  ghost predicate CarriedAsBearer(parts: Parts, token: string) {
    parts.authorization.Some? && CarriesBearer(parts.authorization.value, token)
  }
}
