/**
 Session tokens over whole runs. Signatures are ideal: a token verifies exactly if the system signed it,
 and equal claims give equal tokens. The log of what was signed, when, and on what authority is history
 that the system itself does not keep.
 */
module Sessions {
  import opened Wrappers
  import opened Cookies

  type UserId = int

  const ACCESS: string := "access"
  const REFRESH: string := "refresh"
  const PENDING: string := "pending"
  const ACCESS_TTL: nat := 60 * 15
  const REFRESH_TTL: nat := 60 * 60 * 24 * 30
  const PENDING_TTL: nat := 60 * 10
  const COOKIE_ACCESS: string := "access_token"
  const COOKIE_REFRESH: string := "refresh_token"

  datatype Claims = Claims(sub: UserId, exp: int, tokenType: string)

  datatype Signup = Signup(tokenType: string, email: string, username: string, passwordHash: string, otpHash: string, exp: int)

  datatype Payload = Session(claims: Claims) | Pending(signup: Signup)

  /** On whose authority a token was signed; by position in the log. */
  datatype Origin = SigningUp | LoggedIn | Verified(signup: nat) | Renewed(parent: nat) | Updated(parent: nat)

  datatype Issue = Issue(token: string, payload: Payload, at: int, origin: Origin)

  type Log = seq<Issue>

  datatype World = World(now: int, log: Log)

  // ---------------------------------------------------------------- signing and decoding

  function NewSession(sub: UserId, tokenType: string, ttl: nat, now: int): Payload {
    Session(Claims(sub, now + ttl, tokenType))
  }

  /** The text of a token: letters, digits and a few signs. */
  predicate TokenText(token: string) {
    Without(token, ';') && forall i :: 0 <= i < |token| ==> !Blank(token[i])
  }

  /** The token that signing this payload gives. */
  predicate Signs(log: Log, token: string, payload: Payload) {
    TokenText(token) && forall i :: 0 <= i < |log| ==> (log[i].token == token <==> log[i].payload == payload)
  }

  function Find(log: Log, token: string): (found: Option<nat>)
    ensures found.Some? ==> found.value < |log| && log[found.value].token == token
    ensures found.None? ==> forall i :: 0 <= i < |log| ==> log[i].token != token
  {
    if log == [] then None
    else if log[|log| - 1].token == token then Some(|log| - 1)
    else Find(log[..|log| - 1], token)
  }

  /** The expiry is checked with leeway, and last; a payload of another shape is no better than a bad signature. */
  datatype Verdict = Valid(claims: Claims, at: nat) | Expired | Invalid

  function Decode(log: Log, token: string, now: int, leeway: nat): Verdict {
    match Find(log, token)
    case None => Invalid
    case Some(i) =>
      if log[i].payload.Pending? then Invalid
      else if log[i].payload.claims.exp < now - leeway then Expired
      else Valid(log[i].payload.claims, i)
  }

  function DecodePending(log: Log, token: string, now: int, leeway: nat): Option<nat> {
    match Find(log, token)
    case None => None
    case Some(i) =>
      if log[i].payload.Session? || log[i].payload.signup.exp < now - leeway then None
      else if log[i].payload.signup.tokenType != PENDING then None
      else Some(i)
  }

  // ---------------------------------------------------------------- the guard

  /** What the handler is given, the token that vouches for it, and whether new tokens go out. */
  datatype Outcome = Runs(claims: Claims, voucher: nat, renews: bool) | Unauthorized

  function Authorise(log: Log, cookie: Option<string>, now: int, leeway: nat): Outcome {
    if cookie.None? then Unauthorized
    else
      match ParseCookie(cookie.value, COOKIE_ACCESS)
      case None => Unauthorized
      case Some(token) =>
        match Decode(log, token, now, leeway)
        case Valid(claims, i) => if claims.tokenType == ACCESS then Runs(claims, i, false) else Unauthorized
        case Expired => AuthoriseRenewal(log, cookie.value, now, leeway)
        case Invalid => Unauthorized
  }

  function AuthoriseRenewal(log: Log, cookie: string, now: int, leeway: nat): Outcome {
    match ParseCookie(cookie, COOKIE_REFRESH)
    case None => Unauthorized
    case Some(token) =>
      match Decode(log, token, now, leeway)
      case Valid(claims, i) =>
        if claims.tokenType == REFRESH then Runs(claims.(tokenType := ACCESS), i, true) else Unauthorized
      case Expired => Unauthorized
      case Invalid => Unauthorized
  }

  // ---------------------------------------------------------------- steps

  datatype Tokens = Tokens(access: string, refresh: string)

  datatype Step =
    | Pass(duration: nat)
    | RequestSignup(email: string, username: string, passwordHash: string, otpHash: string, token: string)
    | VerifyOtp(pending: string, sub: UserId, tokens: Tokens)
    | LogIn(sub: UserId, tokens: Tokens)
    | Renew(cookie: Option<string>, tokens: Tokens)
    | UpdateUser(cookie: Option<string>, tokens: Tokens)

  function NewPending(step: Step, now: int): Payload
    requires step.RequestSignup?
  {
    Pending(Signup(PENDING, step.email, step.username, step.passwordHash, step.otpHash, now + PENDING_TTL))
  }

  predicate SignsPair(w: World, sub: UserId, tokens: Tokens) {
    && Signs(w.log, tokens.access, NewSession(sub, ACCESS, ACCESS_TTL, w.now))
    && Signs(w.log, tokens.refresh, NewSession(sub, REFRESH, REFRESH_TTL, w.now))
    && tokens.access != tokens.refresh
  }

  predicate Enabled(w: World, step: Step, leeway: nat) {
    match step
    case Pass(_) => true
    case RequestSignup(_, _, _, _, token) => Signs(w.log, token, NewPending(step, w.now))
    case VerifyOtp(pending, sub, tokens) =>
      DecodePending(w.log, pending, w.now, leeway).Some? && SignsPair(w, sub, tokens)
    case LogIn(sub, tokens) => SignsPair(w, sub, tokens)
    case Renew(cookie, tokens) =>
      var outcome := Authorise(w.log, cookie, w.now, leeway);
      outcome.Runs? && outcome.renews && SignsPair(w, outcome.claims.sub, tokens)
    case UpdateUser(cookie, tokens) =>
      var outcome := Authorise(w.log, cookie, w.now, leeway);
      outcome.Runs? && SignsPair(w, outcome.claims.sub, tokens)
  }

  function WithPair(w: World, sub: UserId, tokens: Tokens, origin: Origin): World {
    w.(log := w.log + [Issue(tokens.access, NewSession(sub, ACCESS, ACCESS_TTL, w.now), w.now, origin),
                       Issue(tokens.refresh, NewSession(sub, REFRESH, REFRESH_TTL, w.now), w.now, origin)])
  }

  function Apply(w: World, step: Step, leeway: nat): World
    requires Enabled(w, step, leeway)
  {
    match step
    case Pass(d) => w.(now := w.now + d)
    case RequestSignup(_, _, _, _, token) =>
      w.(log := w.log + [Issue(token, NewPending(step, w.now), w.now, SigningUp)])
    case VerifyOtp(pending, sub, tokens) =>
      WithPair(w, sub, tokens, Verified(DecodePending(w.log, pending, w.now, leeway).value))
    case LogIn(sub, tokens) => WithPair(w, sub, tokens, LoggedIn)
    case Renew(cookie, tokens) =>
      var outcome := Authorise(w.log, cookie, w.now, leeway);
      WithPair(w, outcome.claims.sub, tokens, Renewed(outcome.voucher))
    case UpdateUser(cookie, tokens) =>
      var outcome := Authorise(w.log, cookie, w.now, leeway);
      WithPair(w, outcome.claims.sub, tokens, Updated(outcome.voucher))
  }

  // ---------------------------------------------------------------- the invariant

  /** The entry is of this user's session, and still accepted at that time. */
  predicate Vouches(log: Log, i: nat, sub: UserId, at: int, leeway: nat) {
    && i < |log| && log[i].payload.Session? && log[i].payload.claims.sub == sub
    && log[i].at <= at <= log[i].payload.claims.exp + leeway
  }

  predicate EntryFits(log: Log, i: nat, leeway: nat)
    requires i < |log|
  {
    var e := log[i];
    match e.payload
    case Pending(signup) =>
      e.origin == SigningUp && signup.tokenType == PENDING && signup.exp == e.at + PENDING_TTL
    case Session(claims) =>
      && ((claims.tokenType == ACCESS && claims.exp == e.at + ACCESS_TTL)
          || (claims.tokenType == REFRESH && claims.exp == e.at + REFRESH_TTL))
      && match e.origin
         case SigningUp => false
         case LoggedIn => true
         case Verified(j) => j < i && log[j].payload.Pending? && log[j].at <= e.at <= log[j].payload.signup.exp + leeway
         case Renewed(j) => j < i && Vouches(log, j, claims.sub, e.at, leeway) && log[j].payload.claims.tokenType == REFRESH
         case Updated(j) => j < i && Vouches(log, j, claims.sub, e.at, leeway)
  }

  predicate TokensAreSignatures(log: Log) {
    && (forall i :: 0 <= i < |log| ==> TokenText(log[i].token))
    && forall i, j :: 0 <= i < |log| && 0 <= j < |log| ==> (log[i].token == log[j].token <==> log[i].payload == log[j].payload)
  }

  predicate Inv(w: World, leeway: nat) {
    && TokensAreSignatures(w.log)
    && (forall i :: 0 <= i < |w.log| ==> EntryFits(w.log, i, leeway))
    && (forall i :: 0 <= i < |w.log| ==> w.log[i].at <= w.now)
  }

  lemma SigningKeepsSignatures(log: Log, issue: Issue)
    requires TokensAreSignatures(log) && Signs(log, issue.token, issue.payload)
    ensures TokensAreSignatures(log + [issue])
  {
  }

  lemma EntriesStay(log: Log, issue: Issue, i: nat, leeway: nat)
    requires i < |log| && EntryFits(log, i, leeway)
    ensures EntryFits(log + [issue], i, leeway)
  {
    var log' := log + [issue];
    assert forall j :: 0 <= j < |log| ==> log'[j] == log[j];
  }

  lemma SigningKeepsInv(w: World, issue: Issue, leeway: nat)
    requires Inv(w, leeway) && Signs(w.log, issue.token, issue.payload) && issue.at <= w.now
    requires EntryFits(w.log + [issue], |w.log|, leeway)
    ensures Inv(w.(log := w.log + [issue]), leeway)
  {
    var log' := w.log + [issue];
    SigningKeepsSignatures(w.log, issue);
    forall i | 0 <= i < |log'| ensures EntryFits(log', i, leeway) {
      if i < |w.log| {
        EntriesStay(w.log, issue, i, leeway);
      }
    }
  }

  predicate Authority(log: Log, origin: Origin, sub: UserId, at: int, leeway: nat) {
    match origin
    case SigningUp => false
    case LoggedIn => true
    case Verified(j) =>
      j < |log| && log[j].payload.Pending? && log[j].at <= at <= log[j].payload.signup.exp + leeway
    case Renewed(j) => Vouches(log, j, sub, at, leeway) && log[j].payload.claims.tokenType == REFRESH
    case Updated(j) => Vouches(log, j, sub, at, leeway)
  }

  lemma SessionKeepsInv(w: World, token: string, sub: UserId, access: bool, origin: Origin, leeway: nat)
    requires Inv(w, leeway) && Authority(w.log, origin, sub, w.now, leeway)
    requires var payload := if access then NewSession(sub, ACCESS, ACCESS_TTL, w.now)
                            else NewSession(sub, REFRESH, REFRESH_TTL, w.now);
             Signs(w.log, token, payload)
    ensures var payload := if access then NewSession(sub, ACCESS, ACCESS_TTL, w.now)
                           else NewSession(sub, REFRESH, REFRESH_TTL, w.now);
            Inv(w.(log := w.log + [Issue(token, payload, w.now, origin)]), leeway)
  {
    var payload := if access then NewSession(sub, ACCESS, ACCESS_TTL, w.now)
                   else NewSession(sub, REFRESH, REFRESH_TTL, w.now);
    var issue := Issue(token, payload, w.now, origin);
    var log' := w.log + [issue];
    assert forall j :: 0 <= j < |w.log| ==> log'[j] == w.log[j];
    SigningKeepsInv(w, issue, leeway);
  }

  lemma PairKeepsInv(w: World, sub: UserId, tokens: Tokens, origin: Origin, leeway: nat)
    requires Inv(w, leeway) && SignsPair(w, sub, tokens) && Authority(w.log, origin, sub, w.now, leeway)
    ensures Inv(WithPair(w, sub, tokens, origin), leeway)
  {
    var access := Issue(tokens.access, NewSession(sub, ACCESS, ACCESS_TTL, w.now), w.now, origin);
    var refresh := Issue(tokens.refresh, NewSession(sub, REFRESH, REFRESH_TTL, w.now), w.now, origin);
    SessionKeepsInv(w, tokens.access, sub, true, origin, leeway);
    var w1 := w.(log := w.log + [access]);
    assert forall j :: 0 <= j < |w.log| ==> w1.log[j] == w.log[j];
    assert ACCESS[0] != REFRESH[0];
    SessionKeepsInv(w1, tokens.refresh, sub, false, origin, leeway);
    assert w.log + [access, refresh] == w1.log + [refresh];
  }

  /** The token that vouches is one of the log, and accepted now. */
  lemma AuthorityOfOutcome(w: World, cookie: Option<string>, leeway: nat)
    requires Inv(w, leeway) && Authorise(w.log, cookie, w.now, leeway).Runs?
    ensures var outcome := Authorise(w.log, cookie, w.now, leeway);
            && Vouches(w.log, outcome.voucher, outcome.claims.sub, w.now, leeway)
            && w.log[outcome.voucher].payload.claims.tokenType == (if outcome.renews then REFRESH else ACCESS)
            && outcome.claims.tokenType == ACCESS
            && cookie.Some?
            && ParseCookie(cookie.value, if outcome.renews then COOKIE_REFRESH else COOKIE_ACCESS)
               == Some(w.log[outcome.voucher].token)
  {
  }

  lemma StepKeepsInv(w: World, step: Step, leeway: nat)
    requires Inv(w, leeway) && Enabled(w, step, leeway)
    ensures Inv(Apply(w, step, leeway), leeway)
  {
    match step
    case Pass(_) =>
    case RequestSignup(_, _, _, _, token) =>
      SigningKeepsInv(w, Issue(token, NewPending(step, w.now), w.now, SigningUp), leeway);
    case VerifyOtp(pending, sub, tokens) =>
      PairKeepsInv(w, sub, tokens, Verified(DecodePending(w.log, pending, w.now, leeway).value), leeway);
    case LogIn(sub, tokens) => PairKeepsInv(w, sub, tokens, LoggedIn, leeway);
    case Renew(cookie, tokens) =>
      AuthorityOfOutcome(w, cookie, leeway);
      var outcome := Authorise(w.log, cookie, w.now, leeway);
      PairKeepsInv(w, outcome.claims.sub, tokens, Renewed(outcome.voucher), leeway);
    case UpdateUser(cookie, tokens) =>
      AuthorityOfOutcome(w, cookie, leeway);
      var outcome := Authorise(w.log, cookie, w.now, leeway);
      PairKeepsInv(w, outcome.claims.sub, tokens, Updated(outcome.voucher), leeway);
  }

  // ---------------------------------------------------------------- runs

  ghost predicate LegalFrom(w: World, steps: seq<Step>, leeway: nat)
    decreases |steps|
  {
    steps == [] || (Enabled(w, steps[0], leeway) && LegalFrom(Apply(w, steps[0], leeway), steps[1..], leeway))
  }

  ghost function After(w: World, steps: seq<Step>, leeway: nat): World
    requires LegalFrom(w, steps, leeway)
    decreases |steps|
  {
    if steps == [] then w else After(Apply(w, steps[0], leeway), steps[1..], leeway)
  }

  lemma {:induction false} Reachable(w: World, steps: seq<Step>, leeway: nat)
    requires Inv(w, leeway) && LegalFrom(w, steps, leeway)
    ensures Inv(After(w, steps, leeway), leeway)
    decreases |steps|
  {
    if steps != [] {
      StepKeepsInv(w, steps[0], leeway);
      Reachable(Apply(w, steps[0], leeway), steps[1..], leeway);
    }
  }

  // ---------------------------------------------------------------- the chain behind a session

  predicate SignIn(origin: Origin) {
    origin.LoggedIn? || origin.Verified?
  }

  /** Each issue was authorised by the one before while that was accepted; the first by signing in. */
  predicate Chain(log: Log, path: seq<nat>, sub: UserId, leeway: nat) {
    && |path| >= 1
    && (forall k :: 0 <= k < |path| ==>
          path[k] < |log| && log[path[k]].payload.Session? && log[path[k]].payload.claims.sub == sub)
    && SignIn(log[path[0]].origin)
    && (forall k :: 0 < k < |path| ==>
          && log[path[k]].origin in {Renewed(path[k - 1]), Updated(path[k - 1])}
          && log[path[k - 1]].at <= log[path[k]].at <= log[path[k - 1]].at + REFRESH_TTL + leeway)
  }

  lemma {:induction false} ChainTo(w: World, i: nat, leeway: nat) returns (path: seq<nat>)
    requires Inv(w, leeway) && i < |w.log| && w.log[i].payload.Session?
    ensures Chain(w.log, path, w.log[i].payload.claims.sub, leeway) && path[|path| - 1] == i
    decreases i
  {
    assert EntryFits(w.log, i, leeway);
    var origin := w.log[i].origin;
    if SignIn(origin) {
      path := [i];
    } else {
      var j := origin.parent;
      assert EntryFits(w.log, j, leeway);
      var front := ChainTo(w, j, leeway);
      path := front + [i];
      ChainExtends(w.log, front, i, leeway);
    }
  }

  lemma ChainExtends(log: Log, front: seq<nat>, i: nat, leeway: nat)
    requires i < |log| && EntryFits(log, i, leeway) && log[i].payload.Session?
    requires log[i].origin.Renewed? || log[i].origin.Updated?
    requires Chain(log, front, log[i].payload.claims.sub, leeway) && front[|front| - 1] == log[i].origin.parent
    requires EntryFits(log, log[i].origin.parent, leeway)
    ensures Chain(log, front + [i], log[i].payload.claims.sub, leeway)
  {
    var path := front + [i];
    assert forall k :: 0 <= k < |front| ==> path[k] == front[k];
  }

  /**
   Whole runs. When a protected handler runs for a user, an access or refresh token of that user was
   presented in its cookie and is still accepted, and its chain of issues leads back to a login or a
   verified signup, never more than the life of a refresh token (and the leeway) from one to the next.
   */
  lemma HandlersRunInSessions(steps: seq<Step>, now: int, cookie: Option<string>, leeway: nat)
    returns (path: seq<nat>)
    requires LegalFrom(World(now, []), steps, leeway)
    requires var w := After(World(now, []), steps, leeway); Authorise(w.log, cookie, w.now, leeway).Runs?
    ensures var w := After(World(now, []), steps, leeway);
            var outcome := Authorise(w.log, cookie, w.now, leeway);
            && Chain(w.log, path, outcome.claims.sub, leeway)
            && var last := w.log[path[|path| - 1]];
               && ParseCookie(cookie.value, if outcome.renews then COOKIE_REFRESH else COOKIE_ACCESS) == Some(last.token)
               && last.payload.claims.tokenType == (if outcome.renews then REFRESH else ACCESS)
               && last.at <= w.now <= last.payload.claims.exp + leeway <= last.at + REFRESH_TTL + leeway
  {
    Reachable(World(now, []), steps, leeway);
    var w := After(World(now, []), steps, leeway);
    AuthorityOfOutcome(w, cookie, leeway);
    path := ChainTo(w, Authorise(w.log, cookie, w.now, leeway).voucher, leeway);
    assert EntryFits(w.log, path[|path| - 1], leeway);
  }

  /** Without a new issue for the life of a refresh token and the leeway, no cookie works for the user. */
  lemma IdleSessionsEnd(w: World, cookie: Option<string>, sub: UserId, leeway: nat)
    requires Inv(w, leeway)
    requires forall i :: 0 <= i < |w.log| && w.log[i].payload.Session? && w.log[i].payload.claims.sub == sub ==>
               w.log[i].at + REFRESH_TTL + leeway < w.now
    ensures var outcome := Authorise(w.log, cookie, w.now, leeway); outcome.Runs? ==> outcome.claims.sub != sub
  {
    var outcome := Authorise(w.log, cookie, w.now, leeway);
    if outcome.Runs? {
      AuthorityOfOutcome(w, cookie, leeway);
      assert EntryFits(w.log, outcome.voucher, leeway);
    }
  }

  /** Nobody acts for a user who never logged in or verified a signup. */
  lemma NoSessionWithoutSignIn(w: World, cookie: Option<string>, sub: UserId, leeway: nat)
    requires Inv(w, leeway)
    requires forall i :: 0 <= i < |w.log| && SignIn(w.log[i].origin) ==>
               w.log[i].payload.Session? && w.log[i].payload.claims.sub != sub
    ensures var outcome := Authorise(w.log, cookie, w.now, leeway); outcome.Runs? ==> outcome.claims.sub != sub
  {
    var outcome := Authorise(w.log, cookie, w.now, leeway);
    if outcome.Runs? && outcome.claims.sub == sub {
      AuthorityOfOutcome(w, cookie, leeway);
      var path := ChainTo(w, outcome.voucher, leeway);
      assert false;
    }
  }

  // ---------------------------------------------------------------- which tokens open the door

  /** A token of this user and type was signed and is accepted at this time. */
  predicate Live(log: Log, token: string, sub: UserId, tokenType: string, now: int, leeway: nat) {
    exists i :: 0 <= i < |log| && log[i].token == token && log[i].payload.Session?
                && log[i].payload.claims.sub == sub && log[i].payload.claims.tokenType == tokenType
                && now <= log[i].payload.claims.exp + leeway
  }

  /** An access or refresh token of anybody that is accepted no longer. */
  predicate Outlived(log: Log, token: string, now: int, leeway: nat) {
    exists i :: 0 <= i < |log| && log[i].token == token && log[i].payload.Session?
                && log[i].payload.claims.exp + leeway < now
  }

  lemma DecodeJudges(w: World, token: string, sub: UserId, tokenType: string, leeway: nat)
    requires Inv(w, leeway)
    ensures var verdict := Decode(w.log, token, w.now, leeway);
            && (Live(w.log, token, sub, tokenType, w.now, leeway)
                <==> verdict.Valid? && verdict.claims.sub == sub && verdict.claims.tokenType == tokenType)
            && (Outlived(w.log, token, w.now, leeway) <==> verdict.Expired?)
  {
    var found := Find(w.log, token);
    if found.Some? {
      var i := found.value;
      assert w.log[i].token == token;
      assert forall j :: 0 <= j < |w.log| && w.log[j].token == token ==> w.log[j].payload == w.log[i].payload;
    }
  }

  /**
   Lifetimes in seconds: an access token is accepted for 15 minutes after it was signed, a refresh token
   for 30 days and a signup token for 10 minutes, and the leeway each; no signup token is ever accepted as
   either of the others, nor one of them as a signup token.
   */
  lemma TokenLifetimes(w: World, i: nat, leeway: nat)
    requires Inv(w, leeway) && i < |w.log|
    ensures var e := w.log[i];
            var verdict, signup := Decode(w.log, e.token, w.now, leeway), DecodePending(w.log, e.token, w.now, leeway);
            && (e.payload.Session? ==> signup.None? && e.payload.claims.tokenType in {"access", "refresh"})
            && (e.payload.Session? && e.payload.claims.tokenType == "access" ==>
                  (verdict.Valid? <==> w.now <= e.at + 900 + leeway))
            && (e.payload.Session? && e.payload.claims.tokenType == "refresh" ==>
                  (verdict.Valid? <==> w.now <= e.at + 2_592_000 + leeway))
            && (e.payload.Pending? ==> verdict.Invalid? && (signup.Some? <==> w.now <= e.at + 600 + leeway))
  {
    var found := Find(w.log, w.log[i].token);
    var j := found.value;
    assert w.log[j].payload == w.log[i].payload;
    assert EntryFits(w.log, i, leeway) && EntryFits(w.log, j, leeway);
    assert ACCESS[0] != REFRESH[0];
  }

  /** The guard, by what the two cookies hold. */
  predicate Opens(w: World, access: Option<string>, refresh: Option<string>, sub: UserId, leeway: nat) {
    access.Some? &&
    (Live(w.log, access.value, sub, ACCESS, w.now, leeway)
     || (Outlived(w.log, access.value, w.now, leeway)
         && refresh.Some? && Live(w.log, refresh.value, sub, REFRESH, w.now, leeway)))
  }

  lemma RenewalJudges(w: World, cookie: string, sub: UserId, leeway: nat)
    requires Inv(w, leeway)
    ensures var outcome, refresh := AuthoriseRenewal(w.log, cookie, w.now, leeway), ParseCookie(cookie, COOKIE_REFRESH);
            outcome.Runs? && outcome.claims.sub == sub
            <==> refresh.Some? && Live(w.log, refresh.value, sub, REFRESH, w.now, leeway)
  {
    var refresh := ParseCookie(cookie, COOKIE_REFRESH);
    if refresh.Some? {
      DecodeJudges(w, refresh.value, sub, REFRESH, leeway);
    }
  }

  lemma AuthoriseJudges(w: World, cookie: string, sub: UserId, leeway: nat)
    requires Inv(w, leeway)
    ensures var outcome := Authorise(w.log, Some(cookie), w.now, leeway);
            outcome.Runs? && outcome.claims.sub == sub
            <==> Opens(w, ParseCookie(cookie, COOKIE_ACCESS), ParseCookie(cookie, COOKIE_REFRESH), sub, leeway)
  {
    var access := ParseCookie(cookie, COOKIE_ACCESS);
    RenewalJudges(w, cookie, sub, leeway);
    if access.Some? {
      DecodeJudges(w, access.value, sub, ACCESS, leeway);
    }
  }

  /**
   For any cookie header, as it is written: a handler runs for a user exactly if the first access_token
   is a live access token of theirs, or it is an outlived session token and the first refresh_token is a
   live refresh token of theirs. Refresh and signup tokens never pass for access tokens.
   */
  lemma {:induction false} RunsExactlyFor(w: World, items: seq<Item>, sub: UserId, leeway: nat)
    requires Inv(w, leeway) && |items| >= 1 && forall i :: 0 <= i < |items| ==> WellFormed(items[i])
    ensures var outcome := Authorise(w.log, Some(Header(items)), w.now, leeway);
            outcome.Runs? && outcome.claims.sub == sub
            <==> Opens(w, Bound(items, "access_token"), Bound(items, "refresh_token"), sub, leeway)
  {
    ParsingInvertsWriting(items, COOKIE_ACCESS);
    ParsingInvertsWriting(items, COOKIE_REFRESH);
    AuthoriseJudges(w, Header(items), sub, leeway);
  }
}
