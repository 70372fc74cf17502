/** The session layer (src/contexts/AuthContext.tsx): the home-made session
    token, its expiry check, and the state and browser-storage changes of
    login, logout, token refresh, start-up restore and the sign-in/out
    callback. The identity provider's answers and the clock arrive as
    parameters; the token's text encoding is abstracted to its payload. */
module Auth {
  import opened Common

  /** The token's payload: times in whole seconds since the epoch. */
  datatype Payload = Payload(uid: string, exp: int, iat: int)

  /** A token string as the model sees it: one that decodes to a payload,
      one that does not decode, or the empty string. */
  datatype Token = Issued(payload: Payload) | Malformed | Blank

  /** A signed-in user as the context keeps it. */
  datatype User = User(uid: string, email: Option<string>, displayName: Option<string>)

  /** The text stored under `auth_user`: a user record, the JSON `null`,
      text that does not parse, or the empty string. */
  datatype StoredUser = UserJson(user: User) | NullJson | Unparsable | EmptyText

  /** 24 hours in seconds. */
  const TokenLifetime: int := 24 * 60 * 60

  /** `Math.floor(ms / 1000)`; Dafny's division rounds down for a positive
      divisor, as `Math.floor` does. */
  function Seconds(nowMs: int): int
  {
    nowMs / 1000
  }

  /** `generateToken`: issued now, expiring 24 hours later. Both clock
      readings of the source are taken as the one reading `nowMs`. */
  function GenerateToken(uid: string, nowMs: int): (r: Token)
    ensures r.Issued? && r.payload.uid == uid
    ensures r.payload.exp == r.payload.iat + 86400
    ensures r.payload.iat * 1000 <= nowMs < (r.payload.iat + 1) * 1000
  {
    Issued(Payload(uid, Seconds(nowMs) + TokenLifetime, Seconds(nowMs)))
  }

  /** `isTokenValid`: a missing, empty or undecodable token is invalid;
      otherwise the token is invalid only once `exp` is strictly before the
      current second. */
  function IsTokenValid(token: Option<Token>, nowMs: int): (r: bool)
    ensures r ==> token.Some? && token.value.Issued?
    ensures token.Some? && token.value.Issued? ==> (r <==> token.value.payload.exp >= Seconds(nowMs))
  {
    match token
    case None => false
    case Some(Blank) => false
    case Some(Malformed) => false
    case Some(Issued(p)) => !(p.exp < Seconds(nowMs))
  }

  /** A fresh token is valid from the moment it is issued until 24 hours
      later, inclusive. */
  lemma FreshTokenValid(uid: string, issuedMs: int, laterMs: int)
    requires issuedMs <= laterMs <= issuedMs + 86400000
    ensures IsTokenValid(Some(GenerateToken(uid, issuedMs)), laterMs)
  {
    SecondsMonotone(laterMs, issuedMs + 86400000);
    assert Seconds(issuedMs + 86400000) == Seconds(issuedMs) + 86400;
  }

  /** From the second after its expiry second on, a token is invalid. */
  lemma OldTokenInvalid(uid: string, issuedMs: int, laterMs: int)
    requires laterMs >= issuedMs + 86401000
    ensures !IsTokenValid(Some(GenerateToken(uid, issuedMs)), laterMs)
  {
    SecondsMonotone(issuedMs + 86401000, laterMs);
    assert Seconds(issuedMs + 86401000) == Seconds(issuedMs) + 86401;
  }

  lemma SecondsMonotone(a: int, b: int)
    requires a <= b
    ensures Seconds(a) <= Seconds(b)
  {
  }

  /** The context's state together with the two storage keys. */
  datatype AuthState = AuthState(
    user: Option<User>,
    token: Option<Token>,
    isLoading: bool,
    storedToken: Option<Token>,
    storedUser: Option<StoredUser>)

  /** `isAuthenticated`: a user, a token, and that token valid now. */
  predicate IsAuthenticated(s: AuthState, nowMs: int)
  {
    s.user.Some? && s.token.Some? && s.token.value != Blank && IsTokenValid(s.token, nowMs)
  }

  /** Authentication needs only the user and a valid token. */
  lemma AuthenticatedIff(s: AuthState, nowMs: int)
    ensures IsAuthenticated(s, nowMs) <==> s.user.Some? && IsTokenValid(s.token, nowMs)
  {
  }

  /** `login`: `signedIn` is the provider's user, or `None` when sign-in
      failed (nothing changes then). Returns the new state and the result. */
  function LoginStep(s: AuthState, signedIn: Option<User>, nowMs: int): (r: (AuthState, bool))
    ensures r.1 <==> signedIn.Some?
    ensures signedIn.None? ==> r.0 == s
    ensures signedIn.Some? ==>
              && r.0.user == signedIn
              && r.0.token == Some(GenerateToken(signedIn.value.uid, nowMs))
              && r.0.storedToken == r.0.token
              && r.0.storedUser == Some(UserJson(signedIn.value))
              && r.0.isLoading == s.isLoading
  {
    match signedIn
    case None => (s, false)
    case Some(u) =>
      var t := GenerateToken(u.uid, nowMs);
      (s.(user := Some(u), token := Some(t), storedToken := Some(t), storedUser := Some(UserJson(u))), true)
  }

  /** A successful login authenticates for the next 24 hours. */
  lemma LoginAuthenticates(s: AuthState, u: User, nowMs: int, laterMs: int)
    requires nowMs <= laterMs <= nowMs + 86400000
    ensures IsAuthenticated(LoginStep(s, Some(u), nowMs).0, laterMs)
  {
    FreshTokenValid(u.uid, nowMs, laterMs);
  }

  /** `logout`: `signedOut` says whether the provider's sign-out succeeded. */
  function LogoutStep(s: AuthState, signedOut: bool): (r: AuthState)
    ensures signedOut ==> r.user.None? && r.token.None? && r.storedToken.None? && r.storedUser.None?
    ensures signedOut ==> r.isLoading == s.isLoading
    ensures !signedOut ==> r == s
  {
    if signedOut then s.(user := None, token := None, storedToken := None, storedUser := None) else s
  }

  /** After a successful logout nobody is authenticated, whatever the time. */
  lemma LogoutDeauthenticates(s: AuthState, nowMs: int)
    ensures !IsAuthenticated(LogoutStep(s, true), nowMs)
  {
  }

  /** `refreshToken`: without a user nothing changes and the answer is
      `None`; otherwise a new token goes to the state and to storage and is
      returned. */
  function RefreshStep(s: AuthState, nowMs: int): (r: (AuthState, Option<Token>))
    ensures s.user.None? ==> r.0 == s && r.1.None?
    ensures s.user.Some? ==>
              && r.1 == Some(GenerateToken(s.user.value.uid, nowMs))
              && r.0 == s.(token := r.1, storedToken := r.1)
  {
    if s.user.None? then (s, None)
    else
      var t := GenerateToken(s.user.value.uid, nowMs);
      (s.(token := Some(t), storedToken := Some(t)), Some(t))
  }

  /** A refresh authenticates exactly when there is a user. */
  lemma RefreshAuthenticatesIff(s: AuthState, nowMs: int)
    ensures IsAuthenticated(RefreshStep(s, nowMs).0, nowMs) <==> s.user.Some?
  {
    if s.user.Some? {
      FreshTokenValid(s.user.value.uid, nowMs, nowMs);
    }
  }

  /** `initializeAuth`: restore user and token from storage when the stored
      token is valid and a stored user is there; a stored user that does
      not parse clears both keys. */
  function InitializeStep(s: AuthState, nowMs: int): (r: AuthState)
    ensures !r.isLoading
    ensures !(IsTokenValid(s.storedToken, nowMs) && s.storedUser.Some? && s.storedUser.value != EmptyText) ==>
              r == s.(isLoading := false)
    ensures IsTokenValid(s.storedToken, nowMs) && s.storedUser == Some(Unparsable) ==>
              r == s.(isLoading := false, storedToken := None, storedUser := None)
    ensures IsTokenValid(s.storedToken, nowMs) && s.storedUser.Some? && s.storedUser.value.UserJson? ==>
              r == s.(isLoading := false, user := Some(s.storedUser.value.user), token := s.storedToken)
    ensures IsTokenValid(s.storedToken, nowMs) && s.storedUser == Some(NullJson) ==>
              r == s.(isLoading := false, user := None, token := s.storedToken)
  {
    var s1 := s.(isLoading := true);
    var s2 :=
      if IsTokenValid(s.storedToken, nowMs) && s.storedUser.Some? && s.storedUser.value != EmptyText then
        match s.storedUser.value
        case UserJson(u) => s1.(user := Some(u), token := s.storedToken)
        case NullJson => s1.(user := None, token := s.storedToken)
        case Unparsable => s1.(storedToken := None, storedUser := None)
        case EmptyText => s1
      else s1;
    s2.(isLoading := false)
  }

  /** Start-up restores a session exactly when storage holds a valid token
      and a parsable user, and the restored session is authenticated. */
  lemma InitializeRestoresIff(s: AuthState, nowMs: int)
    requires s.user.None? && s.token.None?
    ensures InitializeStep(s, nowMs).user.Some?
        <==> IsTokenValid(s.storedToken, nowMs) && s.storedUser.Some? && s.storedUser.value.UserJson?
    ensures InitializeStep(s, nowMs).user.Some? ==> IsAuthenticated(InitializeStep(s, nowMs), nowMs)
  {
  }

  /** The provider's sign-in/sign-out callback. `reported` is the user the
      provider reports, or `None` for signed out. */
  function AuthChangedStep(s: AuthState, reported: Option<User>, nowMs: int): (r: AuthState)
    ensures !r.isLoading
    ensures reported.None? ==> r == s.(user := None, token := None, storedToken := None, storedUser := None, isLoading := false)
    ensures reported.Some? ==> r.user == reported && r.storedUser == Some(UserJson(reported.value))
    ensures reported.Some? && IsTokenValid(s.storedToken, nowMs) ==> r.token == s.token && r.storedToken == s.storedToken
    ensures reported.Some? && !IsTokenValid(s.storedToken, nowMs) ==>
              r.token == Some(GenerateToken(reported.value.uid, nowMs)) && r.storedToken == r.token
  {
    match reported
    case None => s.(user := None, token := None, storedToken := None, storedUser := None, isLoading := false)
    case Some(u) =>
      var s1 :=
        if !IsTokenValid(s.storedToken, nowMs) then
          var t := GenerateToken(u.uid, nowMs);
          s.(token := Some(t), storedToken := Some(t))
        else s;
      s1.(user := Some(u), storedUser := Some(UserJson(u)), isLoading := false)
  }

  /** After the callback reports a user, the stored token is valid. */
  lemma AuthChangedLeavesValidStoredToken(s: AuthState, u: User, nowMs: int)
    ensures IsTokenValid(AuthChangedStep(s, Some(u), nowMs).storedToken, nowMs)
  {
    if !IsTokenValid(s.storedToken, nowMs) {
      FreshTokenValid(u.uid, nowMs, nowMs);
    }
  }

  /** The callback keeps a valid stored token but does not copy it into the
      state: when start-up restored nothing (no stored user) the reported
      user ends up signed in but not authenticated, and a refresh is what
      authenticates them. */
  lemma SignedInButNotAuthenticated(storedToken: Token, u: User, nowMs: int)
    requires IsTokenValid(Some(storedToken), nowMs)
    ensures var start := AuthState(None, None, true, Some(storedToken), None);
            var s := AuthChangedStep(InitializeStep(start, nowMs), Some(u), nowMs);
            && s.user == Some(u) && !s.isLoading
            && !IsAuthenticated(s, nowMs)
            && IsAuthenticated(RefreshStep(s, nowMs).0, nowMs)
  {
    var start := AuthState(None, None, true, Some(storedToken), None);
    var s := AuthChangedStep(InitializeStep(start, nowMs), Some(u), nowMs);
    RefreshAuthenticatesIff(s, nowMs);
  }

  /** The context object: the same state, changed in place. */
  class AuthProvider {
    var user: Option<User>
    var token: Option<Token>
    var isLoading: bool
    var storedToken: Option<Token>
    var storedUser: Option<StoredUser>

    function State(): AuthState
      reads this
    {
      AuthState(user, token, isLoading, storedToken, storedUser)
    }

    /** A fresh provider over whatever the browser has stored. */
    constructor (storedToken: Option<Token>, storedUser: Option<StoredUser>)
      ensures State() == AuthState(None, None, true, storedToken, storedUser)
    {
      this.user := None;
      this.token := None;
      this.isLoading := true;
      this.storedToken := storedToken;
      this.storedUser := storedUser;
    }

    method InitializeAuth(nowMs: int)
      modifies this
      ensures State() == InitializeStep(old(State()), nowMs)
    {
      isLoading := true;
      if IsTokenValid(storedToken, nowMs) && storedUser.Some? && storedUser.value != EmptyText {
        match storedUser.value
        case UserJson(u) =>
          user := Some(u);
          token := storedToken;
        case NullJson =>
          user := None;
          token := storedToken;
        case Unparsable =>
          storedToken := None;
          storedUser := None;
      }
      isLoading := false;
    }

    method Login(signedIn: Option<User>, nowMs: int) returns (ok: bool)
      modifies this
      ensures (State(), ok) == LoginStep(old(State()), signedIn, nowMs)
    {
      if signedIn.None? {
        return false;
      }
      var u := signedIn.value;
      var newToken := GenerateToken(u.uid, nowMs);
      user := Some(u);
      token := Some(newToken);
      storedToken := Some(newToken);
      storedUser := Some(UserJson(u));
      return true;
    }

    method Logout(signedOut: bool)
      modifies this
      ensures State() == LogoutStep(old(State()), signedOut)
    {
      if signedOut {
        user := None;
        token := None;
        storedToken := None;
        storedUser := None;
      }
    }

    method RefreshToken(nowMs: int) returns (newToken: Option<Token>)
      modifies this
      ensures (State(), newToken) == RefreshStep(old(State()), nowMs)
    {
      if user.None? {
        return None;
      }
      var t := GenerateToken(user.value.uid, nowMs);
      token := Some(t);
      storedToken := Some(t);
      return Some(t);
    }

    method OnAuthStateChanged(reported: Option<User>, nowMs: int)
      modifies this
      ensures State() == AuthChangedStep(old(State()), reported, nowMs)
    {
      if reported.Some? {
        var u := reported.value;
        if !IsTokenValid(storedToken, nowMs) {
          var t := GenerateToken(u.uid, nowMs);
          token := Some(t);
          storedToken := Some(t);
        }
        user := Some(u);
        storedUser := Some(UserJson(u));
      } else {
        user := None;
        token := None;
        storedToken := None;
        storedUser := None;
      }
      isLoading := false;
    }
  }
}
