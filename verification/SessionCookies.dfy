/**
 The guard as it runs, writing to the request and the response, and the browser on the other side, which
 keeps a cookie for its Max-Age and no longer.
 */
module SessionCookies {
  import opened Wrappers
  import opened Cookies
  import opened Sessions

  datatype SetCookie = SetCookie(name: string, value: string, maxAge: int)

  function IssueCookies(tokens: Tokens): seq<SetCookie> {
    [SetCookie(COOKIE_ACCESS, tokens.access, ACCESS_TTL), SetCookie(COOKIE_REFRESH, tokens.refresh, REFRESH_TTL)]
  }

  const CLEAR_COOKIES: seq<SetCookie> := [SetCookie(COOKIE_ACCESS, "", 0), SetCookie(COOKIE_REFRESH, "", 0)]

  /** The Set-Cookie headers of the response: the handler's own first, then those of a renewal. */
  function Answered(outcome: Outcome, handler: seq<SetCookie>, tokens: Tokens): seq<SetCookie> {
    if outcome.Unauthorized? then []
    else if outcome.renews then handler + IssueCookies(tokens)
    else handler
  }

  /** One request and its response. */
  class Exchange {
    /** The Cookie header, if there is one and it is text. */
    const cookie: Option<string>
    var claims: Option<Claims>
    var setCookies: seq<SetCookie>

    constructor (cookie: Option<string>)
      ensures this.cookie == cookie && claims == None && setCookies == []
    {
      this.cookie := cookie;
      claims, setCookies := None, [];
    }

    method SetTokenCookies(tokens: Tokens)
      modifies this`setCookies
      ensures setCookies == old(setCookies) + IssueCookies(tokens)
    {
      setCookies := setCookies + [SetCookie(COOKIE_ACCESS, tokens.access, ACCESS_TTL)];
      setCookies := setCookies + [SetCookie(COOKIE_REFRESH, tokens.refresh, REFRESH_TTL)];
    }

    method ClearTokenCookies()
      modifies this`setCookies
      ensures setCookies == old(setCookies) + CLEAR_COOKIES
    {
      var names := [COOKIE_ACCESS, COOKIE_REFRESH];
      ghost var before := setCookies;
      for i := 0 to 2
        invariant setCookies == before + CLEAR_COOKIES[..i]
      {
        setCookies := setCookies + [SetCookie(names[i], "", 0)];
      }
    }

    /** The protected handler: it sees the claims, and may set cookies of its own. */
    method Next(handler: seq<SetCookie>)
      requires claims.Some?
      modifies this`setCookies
      ensures setCookies == old(setCookies) + handler
    {
      setCookies := setCookies + handler;
    }

    method RefreshAccessToken(log: Log, cookie: string, now: int, leeway: nat, tokens: Tokens, handler: seq<SetCookie>)
      returns (ran: bool)
      requires claims.None?
      modifies this
      ensures var outcome := AuthoriseRenewal(log, cookie, now, leeway);
              && ran == outcome.Runs?
              && claims == (if ran then Some(outcome.claims) else None)
              && setCookies == old(setCookies) + if ran then handler + IssueCookies(tokens) else []
    {
      var token := ParseCookie(cookie, COOKIE_REFRESH);
      if token.None? {
        return false;
      }
      var verdict := Decode(log, token.value, now, leeway);
      if !verdict.Valid? {
        return false;
      }
      if verdict.claims.tokenType != REFRESH {
        return false;
      }
      claims := Some(Claims(verdict.claims.sub, verdict.claims.exp, ACCESS));
      Next(handler);
      SetTokenCookies(tokens);
      return true;
    }

    method JwtAuth(log: Log, now: int, leeway: nat, tokens: Tokens, handler: seq<SetCookie>) returns (ran: bool)
      requires claims.None? && setCookies == []
      modifies this
      ensures var outcome := Authorise(log, cookie, now, leeway);
              && ran == outcome.Runs?
              && claims == (if ran then Some(outcome.claims) else None)
              && setCookies == Answered(outcome, handler, tokens)
    {
      if cookie.None? {
        return false;
      }
      var token := ParseCookie(cookie.value, COOKIE_ACCESS);
      if token.None? {
        return false;
      }
      var verdict := Decode(log, token.value, now, leeway);
      if verdict.Valid? && verdict.claims.tokenType == ACCESS {
        claims := Some(verdict.claims);
        Next(handler);
        return true;
      }
      if verdict.Expired? {
        ran := RefreshAccessToken(log, cookie.value, now, leeway, tokens, handler);
        return ran;
      }
      return false;
    }
  }

  // ---------------------------------------------------------------- the browser

  /** A stored cookie and the last moment it is sent. */
  datatype Stored = Stored(value: string, until: int)

  type Jar = map<string, Stored>

  /** The user agent of section 5.3 of RFC 6265: later cookies replace earlier ones, past ones are dropped. */
  function Store(jar: Jar, cookies: seq<SetCookie>, at: int): Jar
    decreases |cookies|
  {
    if cookies == [] then jar else Store(StoreOne(jar, cookies[0], at), cookies[1..], at)
  }

  function StoreOne(jar: Jar, c: SetCookie, at: int): Jar {
    if c.maxAge <= 0 then jar - {c.name} else jar[c.name := Stored(c.value, at + c.maxAge)]
  }

  predicate Holds(jar: Jar, name: string, now: int) {
    name in jar && now <= jar[name].until
  }

  function Sent(jar: Jar, name: string, now: int): (pairs: seq<(string, string)>)
    ensures |pairs| <= 1
  {
    if Holds(jar, name, now) then [(name, jar[name].value)] else []
  }

  /** The Cookie header with the session's cookies. */
  function CookieHeader(jar: Jar, now: int): Option<string> {
    var pairs := Sent(jar, COOKIE_ACCESS, now) + Sent(jar, COOKIE_REFRESH, now);
    if pairs == [] then None else Some(CookieString(pairs))
  }

  function Held(jar: Jar, name: string, now: int): Option<string> {
    if Holds(jar, name, now) then Some(jar[name].value) else None
  }

  predicate JarFits(jar: Jar) {
    forall name :: name in jar ==> TokenText(jar[name].value)
  }

  lemma TokenIsSendable(name: string, value: string)
    requires TokenText(value) && name in {COOKIE_ACCESS, COOKIE_REFRESH}
    ensures Sendable((name, value))
  {
    assert Trimmed(value);
    assert Without(COOKIE_ACCESS, ';') && Without(COOKIE_ACCESS, '=') && Trimmed(COOKIE_ACCESS);
    assert Without(COOKIE_REFRESH, ';') && Without(COOKIE_REFRESH, '=') && Trimmed(COOKIE_REFRESH);
  }

  lemma FirstOfSent(jar: Jar, now: int)
    ensures var pairs := Sent(jar, COOKIE_ACCESS, now) + Sent(jar, COOKIE_REFRESH, now);
            && FirstValue(pairs, COOKIE_ACCESS) == Held(jar, COOKIE_ACCESS, now)
            && FirstValue(pairs, COOKIE_REFRESH) == Held(jar, COOKIE_REFRESH, now)
  {
    assert COOKIE_ACCESS[0] != COOKIE_REFRESH[0];
    var first, second := Sent(jar, COOKIE_ACCESS, now), Sent(jar, COOKIE_REFRESH, now);
    var pairs := first + second;
    if first != [] {
      assert pairs[1..] == second;
    } else {
      assert pairs == second;
    }
    assert second != [] ==> second[1..] == [];
  }

  /** The guard reads from the header what the browser holds. */
  lemma HeaderIsRead(jar: Jar, now: int)
    requires JarFits(jar)
    ensures var header := CookieHeader(jar, now);
            && (header.None? ==> Held(jar, COOKIE_ACCESS, now).None?)
            && (header.Some? ==> ParseCookie(header.value, COOKIE_ACCESS) == Held(jar, COOKIE_ACCESS, now)
                                 && ParseCookie(header.value, COOKIE_REFRESH) == Held(jar, COOKIE_REFRESH, now))
  {
    var pairs := Sent(jar, COOKIE_ACCESS, now) + Sent(jar, COOKIE_REFRESH, now);
    forall i | 0 <= i < |pairs| ensures Sendable(pairs[i]) {
      TokenIsSendable(pairs[i].0, pairs[i].1);
    }
    SentCookiesAreRead(pairs, COOKIE_ACCESS);
    SentCookiesAreRead(pairs, COOKIE_REFRESH);
    FirstOfSent(jar, now);
  }

  lemma StoreTwo(jar: Jar, a: SetCookie, b: SetCookie, at: int)
    ensures Store(jar, [a, b], at) == Store(Store(jar, [a], at), [b], at)
  {
    assert [a, b][1..] == [b] && [a][1..] == [];
  }

  lemma {:induction false} StoreAppends(jar: Jar, first: seq<SetCookie>, second: seq<SetCookie>, at: int)
    ensures Store(jar, first + second, at) == Store(Store(jar, first, at), second, at)
    decreases |first|
  {
    if first == [] {
      assert first + second == second;
    } else {
      assert (first + second)[1..] == first[1..] + second;
      StoreAppends(StoreOne(jar, first[0], at), first[1..], second, at);
    }
  }

  /** The jar after new tokens, or after a logout. */
  lemma StoredTokens(jar: Jar, tokens: Tokens, at: int)
    ensures Store(jar, IssueCookies(tokens), at)
            == jar[COOKIE_ACCESS := Stored(tokens.access, at + ACCESS_TTL)]
                  [COOKIE_REFRESH := Stored(tokens.refresh, at + REFRESH_TTL)]
    ensures Store(jar, CLEAR_COOKIES, at) == jar - {COOKIE_ACCESS, COOKIE_REFRESH}
  {
    var cookies := IssueCookies(tokens);
    StoreTwo(jar, cookies[0], cookies[1], at);
    StoreTwo(jar, CLEAR_COOKIES[0], CLEAR_COOKIES[1], at);
    assert [cookies[0]][1..] == [] && [cookies[1]][1..] == [];
    assert [CLEAR_COOKIES[0]][1..] == [] && [CLEAR_COOKIES[1]][1..] == [];
  }

  // ---------------------------------------------------------------- issue, store, send, read

  /** A pair of tokens from the log, and the jar its response left. */
  predicate Received(w: World, jar: Jar, sub: UserId, issued: int, stored: int, tokens: Tokens) {
    && issued <= stored <= w.now
    && (exists i :: 0 <= i < |w.log| && w.log[i].token == tokens.access
                    && w.log[i].payload == NewSession(sub, ACCESS, ACCESS_TTL, issued))
    && (exists i :: 0 <= i < |w.log| && w.log[i].token == tokens.refresh
                    && w.log[i].payload == NewSession(sub, REFRESH, REFRESH_TTL, issued))
    && JarFits(jar)
    && COOKIE_ACCESS in jar && jar[COOKIE_ACCESS] == Stored(tokens.access, stored + ACCESS_TTL)
    && COOKIE_REFRESH in jar && jar[COOKIE_REFRESH] == Stored(tokens.refresh, stored + REFRESH_TTL)
  }

  lemma DecodeOfEntry(w: World, token: string, sub: UserId, tokenType: string, ttl: nat, issued: int, leeway: nat)
    requires Inv(w, leeway)
    requires exists i :: 0 <= i < |w.log| && w.log[i].token == token
                         && w.log[i].payload == NewSession(sub, tokenType, ttl, issued)
    ensures var verdict := Decode(w.log, token, w.now, leeway);
            if w.now <= issued + ttl + leeway then
              verdict.Valid? && verdict.claims == Claims(sub, issued + ttl, tokenType)
            else verdict.Expired?
  {
    var i :| 0 <= i < |w.log| && w.log[i].token == token
             && w.log[i].payload == NewSession(sub, tokenType, ttl, issued);
    var found := Find(w.log, token);
    assert found.Some? && w.log[found.value].payload == w.log[i].payload;
  }

  /**
   What becomes of a session in a browser that keeps each cookie for its Max-Age. It is let in while it
   holds the access cookie and refused from then on, whatever refresh token it holds; its tokens are
   renewed only in the time by which the response was later than the leeway.
   */
  lemma BrowserSession(w: World, jar: Jar, sub: UserId, issued: int, stored: int, tokens: Tokens, leeway: nat)
    requires Inv(w, leeway) && Received(w, jar, sub, issued, stored, tokens)
    ensures var outcome := Authorise(w.log, CookieHeader(jar, w.now), w.now, leeway);
            && (outcome.Runs? <==> w.now <= stored + ACCESS_TTL && w.now <= issued + REFRESH_TTL + leeway)
            && (outcome.Runs? ==> outcome.claims.sub == sub)
            && (outcome.Runs? && outcome.renews <==>
                  issued + ACCESS_TTL + leeway < w.now <= stored + ACCESS_TTL && w.now <= issued + REFRESH_TTL + leeway)
  {
    HeaderIsRead(jar, w.now);
    DecodeOfEntry(w, tokens.access, sub, ACCESS, ACCESS_TTL, issued, leeway);
    DecodeOfEntry(w, tokens.refresh, sub, REFRESH, REFRESH_TTL, issued, leeway);
  }

  predicate Renews(w: World, jar: Jar, now: int, leeway: nat) {
    var outcome := Authorise(w.log, CookieHeader(jar, now), now, leeway);
    outcome.Runs? && outcome.renews
  }

  /** So the renewal is within reach of such a browser if and only if the response took longer than the leeway. */
  lemma RenewalOnlyWhenLate(w: World, jar: Jar, sub: UserId, issued: int, stored: int, tokens: Tokens, leeway: nat)
    requires Inv(w, leeway) && Received(w, jar, sub, issued, stored, tokens)
    requires w.now == stored <= issued + REFRESH_TTL - ACCESS_TTL
    ensures (exists now :: now >= w.now && Renews(w, jar, now, leeway)) <==> stored > issued + leeway
  {
    forall now | now >= w.now
      ensures Renews(w, jar, now, leeway) <==> issued + ACCESS_TTL + leeway < now <= stored + ACCESS_TTL
    {
      BrowserSession(w.(now := now), jar, sub, issued, stored, tokens, leeway);
    }
    if stored > issued + leeway {
      assert Renews(w, jar, stored + ACCESS_TTL, leeway);
    }
  }

  // ---------------------------------------------------------------- logging out

  /** The browser would send neither of the session's cookies. */
  predicate SignedOut(jar: Jar, now: int) {
    Held(jar, COOKIE_ACCESS, now).None? && Held(jar, COOKIE_REFRESH, now).None?
  }

  ghost predicate LiveForSomebody(w: World, token: Option<string>, tokenType: string, leeway: nat) {
    token.Some? && exists sub :: Live(w.log, token.value, sub, tokenType, w.now, leeway)
  }

  /** The outcome, by what the browser holds. */
  lemma OutcomeByCookies(w: World, jar: Jar, leeway: nat)
    requires Inv(w, leeway) && JarFits(jar)
    ensures var outcome := Authorise(w.log, CookieHeader(jar, w.now), w.now, leeway);
            var access, refresh := Held(jar, COOKIE_ACCESS, w.now), Held(jar, COOKIE_REFRESH, w.now);
            && (outcome.Runs? && !outcome.renews <==> LiveForSomebody(w, access, ACCESS, leeway))
            && (outcome.Runs? && outcome.renews <==>
                  access.Some? && Outlived(w.log, access.value, w.now, leeway)
                  && LiveForSomebody(w, refresh, REFRESH, leeway))
  {
    HeaderIsRead(jar, w.now);
    var access, refresh := Held(jar, COOKIE_ACCESS, w.now), Held(jar, COOKIE_REFRESH, w.now);
    if access.Some? {
      JudgedForSomebody(w, access.value, ACCESS, leeway);
      if refresh.Some? {
        JudgedForSomebody(w, refresh.value, REFRESH, leeway);
      }
    }
  }

  lemma JudgedForSomebody(w: World, token: string, tokenType: string, leeway: nat)
    requires Inv(w, leeway)
    ensures var verdict := Decode(w.log, token, w.now, leeway);
            && (LiveForSomebody(w, Some(token), tokenType, leeway) <==> verdict.Valid? && verdict.claims.tokenType == tokenType)
            && (Outlived(w.log, token, w.now, leeway) <==> verdict.Expired?)
  {
    var verdict := Decode(w.log, token, w.now, leeway);
    forall sub
      ensures Live(w.log, token, sub, tokenType, w.now, leeway)
              <==> verdict.Valid? && verdict.claims.sub == sub && verdict.claims.tokenType == tokenType
      ensures Outlived(w.log, token, w.now, leeway) <==> verdict.Expired?
    {
      DecodeJudges(w, token, sub, tokenType, leeway);
    }
    DecodeJudges(w, token, 0, tokenType, leeway);
    if verdict.Valid? && verdict.claims.tokenType == tokenType {
      assert Live(w.log, token, verdict.claims.sub, tokenType, w.now, leeway);
    }
  }

  /** What each outcome of the request leaves in the jar. */
  lemma JarAfterLogout(jar: Jar, outcome: Outcome, tokens: Tokens, at: int)
    ensures var jar' := Store(jar, Answered(outcome, CLEAR_COOKIES, tokens), at);
            && (outcome.Unauthorized? ==> jar' == jar)
            && (outcome.Runs? && !outcome.renews ==> SignedOut(jar', at))
            && (outcome.Runs? && outcome.renews ==>
                  Held(jar', COOKIE_ACCESS, at) == Some(tokens.access) && Held(jar', COOKIE_REFRESH, at) == Some(tokens.refresh))
  {
    StoredTokens(jar, tokens, at);
    StoreAppends(jar, CLEAR_COOKIES, IssueCookies(tokens), at);
    StoredTokens(Store(jar, CLEAR_COOKIES, at), tokens, at);
    assert COOKIE_ACCESS[0] != COOKIE_REFRESH[0];
  }

  /**
   Logging out. The handler clears both cookies, but it is behind the guard: a renewal on the same request
   sets them again after it, and a request without a live token does not reach it. The browser is rid of
   its session if and only if it presented a live access token, or had nothing left anyway and was not
   renewed.
   */
  lemma LogoutSticks(w: World, jar: Jar, tokens: Tokens, at: int, leeway: nat)
    requires Inv(w, leeway) && JarFits(jar) && at >= w.now
    ensures var access, refresh := Held(jar, COOKIE_ACCESS, w.now), Held(jar, COOKIE_REFRESH, w.now);
            var outcome := Authorise(w.log, CookieHeader(jar, w.now), w.now, leeway);
            SignedOut(Store(jar, Answered(outcome, CLEAR_COOKIES, tokens), at), at) <==>
            LiveForSomebody(w, access, ACCESS, leeway)
            || (SignedOut(jar, at)
                && !(access.Some? && Outlived(w.log, access.value, w.now, leeway)
                     && LiveForSomebody(w, refresh, REFRESH, leeway)))
  {
    OutcomeByCookies(w, jar, leeway);
    JarAfterLogout(jar, Authorise(w.log, CookieHeader(jar, w.now), w.now, leeway), tokens, at);
  }

  // ---------------------------------------------------------------- runs that renew

  /** A login by user 1 in an empty system. */
  ghost function FirstLogin(tokens: Tokens): World {
    World(0, [Issue(tokens.access, NewSession(1, ACCESS, ACCESS_TTL, 0), 0, LoggedIn),
              Issue(tokens.refresh, NewSession(1, REFRESH, REFRESH_TTL, 0), 0, LoggedIn)])
  }

  lemma LoggedInAndWaited(tokens: Tokens, wait: nat, leeway: nat)
    requires TokenText(tokens.access) && TokenText(tokens.refresh) && tokens.access != tokens.refresh
    ensures var steps := [LogIn(1, tokens), Pass(wait)];
            && LegalFrom(World(0, []), steps, leeway)
            && After(World(0, []), steps, leeway) == FirstLogin(tokens).(now := wait)
  {
    var steps := [LogIn(1, tokens), Pass(wait)];
    var w1 := Apply(World(0, []), LogIn(1, tokens), leeway);
    assert w1 == FirstLogin(tokens);
    assert steps[1..] == [Pass(wait)] && steps[1..][1..] == [];
    assert LegalFrom(Apply(w1, Pass(wait), leeway), [], leeway);
    assert LegalFrom(w1, [Pass(wait)], leeway);
    assert After(w1, [Pass(wait)], leeway) == Apply(w1, Pass(wait), leeway);
  }

  lemma InitiallyInv(now: int, leeway: nat)
    ensures Inv(World(now, []), leeway)
  {
  }

  /**
   A logout that does not stick: the browser has kept its access cookie a second beyond the leeway, which
   takes a response that came that late, and holds fresh tokens after logging out.
   */
  lemma LogoutThatRenews(tokens: Tokens, renewed: Tokens, leeway: nat) returns (steps: seq<Step>, w: World, jar: Jar)
    requires TokenText(tokens.access) && TokenText(tokens.refresh) && tokens.access != tokens.refresh
    ensures LegalFrom(World(0, []), steps, leeway) && w == After(World(0, []), steps, leeway)
    ensures jar == Store(map[], IssueCookies(tokens), leeway + 1)
    ensures var outcome := Authorise(w.log, CookieHeader(jar, w.now), w.now, leeway);
            var jar' := Store(jar, Answered(outcome, CLEAR_COOKIES, renewed), w.now);
            && outcome.Runs? && outcome.claims.sub == 1
            && Held(jar', COOKIE_ACCESS, w.now) == Some(renewed.access)
            && Held(jar', COOKIE_REFRESH, w.now) == Some(renewed.refresh)
  {
    var wait := ACCESS_TTL + leeway + 1;
    steps := [LogIn(1, tokens), Pass(wait)];
    LoggedInAndWaited(tokens, wait, leeway);
    w := After(World(0, []), steps, leeway);
    InitiallyInv(0, leeway);
    Reachable(World(0, []), steps, leeway);
    jar := Store(map[], IssueCookies(tokens), leeway + 1);
    StoredTokens(map[], tokens, leeway + 1);
    assert COOKIE_ACCESS[0] != COOKIE_REFRESH[0];
    assert w.log[0].token == tokens.access && w.log[1].token == tokens.refresh;
    BrowserSession(w, jar, 1, 0, leeway + 1, tokens, leeway);
    JarAfterLogout(jar, Authorise(w.log, CookieHeader(jar, w.now), w.now, leeway), renewed, w.now);
  }

  ghost function TwoLogins(earlier: Tokens, tokens: Tokens, now: int): World {
    WithPair(FirstLogin(earlier).(now := now), 2, tokens, LoggedIn)
  }

  lemma LoggedInTwice(earlier: Tokens, tokens: Tokens, wait: nat, leeway: nat) returns (steps: seq<Step>)
    requires TokenText(earlier.access) && TokenText(earlier.refresh) && TokenText(tokens.access) && TokenText(tokens.refresh)
    requires earlier.access != earlier.refresh && tokens.access != tokens.refresh
    requires {earlier.access, earlier.refresh} !! {tokens.access, tokens.refresh}
    ensures LegalFrom(World(0, []), steps, leeway)
    ensures After(World(0, []), steps, leeway) == TwoLogins(earlier, tokens, wait)
  {
    steps := [LogIn(1, earlier), Pass(wait), LogIn(2, tokens)];
    var w1 := FirstLogin(earlier);
    var w2 := w1.(now := wait);
    assert Apply(World(0, []), LogIn(1, earlier), leeway) == w1;
    assert steps[1..] == [Pass(wait), LogIn(2, tokens)] && steps[1..][1..] == [LogIn(2, tokens)];
    assert earlier.access in {earlier.access, earlier.refresh} && earlier.refresh in {earlier.access, earlier.refresh};
    assert tokens.access in {tokens.access, tokens.refresh} && tokens.refresh in {tokens.access, tokens.refresh};
    assert SignsPair(w2, 2, tokens);
    var w3 := Apply(w2, LogIn(2, tokens), leeway);
    assert [LogIn(2, tokens)][1..] == [] && LegalFrom(w3, [], leeway);
    assert LegalFrom(w2, [LogIn(2, tokens)], leeway) && After(w2, [LogIn(2, tokens)], leeway) == w3;
    assert Apply(w1, Pass(wait), leeway) == w2;
    assert LegalFrom(w1, steps[1..], leeway) && After(w1, steps[1..], leeway) == w3;
  }

  /** An outlived refresh token of user 1 in the place of the access token opens the renewal of user 2. */
  lemma RefreshTokenOpensRenewal(earlier: Tokens, tokens: Tokens, leeway: nat) returns (steps: seq<Step>, w: World)
    requires TokenText(earlier.access) && TokenText(earlier.refresh) && TokenText(tokens.access) && TokenText(tokens.refresh)
    requires earlier.access != earlier.refresh && tokens.access != tokens.refresh
    requires {earlier.access, earlier.refresh} !! {tokens.access, tokens.refresh}
    ensures LegalFrom(World(0, []), steps, leeway) && w == After(World(0, []), steps, leeway)
    ensures |w.log| == 4 && w.log[1].token == earlier.refresh && w.log[1].payload.Session?
    ensures w.log[1].payload.claims.tokenType == REFRESH && w.log[1].payload.claims.sub == 1
    ensures var cookie := CookieString([(COOKIE_ACCESS, earlier.refresh), (COOKIE_REFRESH, tokens.refresh)]);
            var outcome := Authorise(w.log, Some(cookie), w.now, leeway);
            outcome.Runs? && outcome.renews && outcome.claims.sub == 2
  {
    var wait := REFRESH_TTL + leeway + 1;
    steps := LoggedInTwice(earlier, tokens, wait, leeway);
    w := TwoLogins(earlier, tokens, wait);
    InitiallyInv(0, leeway);
    Reachable(World(0, []), steps, leeway);
    var pairs := [(COOKIE_ACCESS, earlier.refresh), (COOKIE_REFRESH, tokens.refresh)];
    TwoCookies(earlier.refresh, tokens.refresh);
    assert w.log[1].token == earlier.refresh && w.log[3].token == tokens.refresh;
    DecodeOfEntry(w, earlier.refresh, 1, REFRESH, REFRESH_TTL, 0, leeway);
    DecodeOfEntry(w, tokens.refresh, 2, REFRESH, REFRESH_TTL, wait, leeway);
  }

  lemma TwoCookies(access: string, refresh: string)
    requires TokenText(access) && TokenText(refresh)
    ensures var cookie := CookieString([(COOKIE_ACCESS, access), (COOKIE_REFRESH, refresh)]);
            ParseCookie(cookie, COOKIE_ACCESS) == Some(access) && ParseCookie(cookie, COOKIE_REFRESH) == Some(refresh)
  {
    var pairs := [(COOKIE_ACCESS, access), (COOKIE_REFRESH, refresh)];
    TokenIsSendable(COOKIE_ACCESS, access);
    TokenIsSendable(COOKIE_REFRESH, refresh);
    SentCookiesAreRead(pairs, COOKIE_ACCESS);
    SentCookiesAreRead(pairs, COOKIE_REFRESH);
    assert COOKIE_ACCESS[0] != COOKIE_REFRESH[0];
    assert pairs[1..] == [(COOKIE_REFRESH, refresh)];
  }

  /** The tokens of a login or a verified signup come back with the next request, and let it in. */
  lemma SignedInBrowserIsLetIn(w: World, jar: Jar, sub: UserId, tokens: Tokens, leeway: nat)
    requires Inv(w, leeway) && JarFits(jar) && SignsPair(w, sub, tokens)
    ensures var w' := Apply(w, LogIn(sub, tokens), leeway);
            var jar' := Store(jar, IssueCookies(tokens), w.now);
            var outcome := Authorise(w'.log, CookieHeader(jar', w.now), w.now, leeway);
            outcome.Runs? && outcome.claims.sub == sub && !outcome.renews
  {
    var w' := Apply(w, LogIn(sub, tokens), leeway);
    var jar' := Store(jar, IssueCookies(tokens), w.now);
    StoredTokens(jar, tokens, w.now);
    assert COOKIE_ACCESS[0] != COOKIE_REFRESH[0];
    StepKeepsInv(w, LogIn(sub, tokens), leeway);
    assert w'.log[|w.log|].token == tokens.access && w'.log[|w.log| + 1].token == tokens.refresh;
    BrowserSession(w', jar', sub, w.now, w.now, tokens, leeway);
  }
}
