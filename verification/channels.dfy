/** Real-time channel names, the server's decision on a client's request
    to subscribe to a private channel, the channels a signed-in client
    subscribes to, and the route guard of the middleware together with
    the admin area's layout guard. */
module Channels {
  import opened Wrappers
  import opened Text
  import opened Schema

  const UserChannelPrefix: string := "private-user-"

  /** `getAdminChannel()`. */
  const AdminChannel: string := "private-admin"

  /** `getUserChannel(userId)`: the private channel of one user. */
  function UserChannel(userId: nat): (c: string)
    ensures UserChannelPrefix < c
  {
    UserChannelPrefix + NatToString(userId)
  }

  /** Distinct users have distinct channels. */
  lemma UserChannelInjective(a: nat, b: nat)
    ensures UserChannel(a) == UserChannel(b) <==> a == b
  {
    if UserChannel(a) == UserChannel(b) {
      var n := |UserChannelPrefix|;
      assert UserChannel(a)[n..] == NatToString(a);
      assert UserChannel(b)[n..] == NatToString(b);
      NatToStringInjective(a, b);
    }
  }

  /** No user's channel is the admin channel. */
  lemma AdminChannelIsNoUserChannel(userId: nat)
    ensures UserChannel(userId) != AdminChannel
  {
    assert UserChannel(userId)[8] == 'u';
    assert AdminChannel[8] == 'a';
  }

  /** The answer of the channel-authorisation endpoint. */
  datatype AuthDecision =
    | Unauthorized  // 401: nobody is signed in
    | Granted       // 200: the signed authorisation for the channel
    | Forbidden     // 403: signed in, but not allowed on this channel
  {
    function Status(): int {
      match this
      case Unauthorized => 401
      case Granted => 200
      case Forbidden => 403
    }
  }

  /** The channel-authorisation endpoint: a user may join their own
      channel, and an administrator also the admin channel. */
  function AuthorizeChannel(session: Session, channel: string): (d: AuthDecision)
    ensures d == Unauthorized <==> session.None?
  {
    match session
    case None => Unauthorized
    case Some(p) =>
      if channel == UserChannel(p.id) || (channel == AdminChannel && p.IsAdmin()) then Granted
      else Forbidden
  }

  /** The channels a signed-in client subscribes to: its own, and the
      admin channel when the principal is an administrator. */
  function Subscriptions(p: Principal): (cs: seq<string>)
    ensures UserChannel(p.id) in cs
    ensures AdminChannel in cs <==> p.IsAdmin()
  {
    AdminChannelIsNoUserChannel(p.id);
    [UserChannel(p.id)] + (if p.IsAdmin() then [AdminChannel] else [])
  }

  /** The server grants exactly the channels the client asks for. */
  lemma GrantedIffSubscribed(p: Principal, channel: string)
    ensures AuthorizeChannel(Some(p), channel) == Granted <==> channel in Subscriptions(p)
  {
  }

  /** No signed-in user may listen on another user's channel, whatever
      their role. */
  lemma OtherUsersChannelForbidden(p: Principal, other: nat)
    requires other != p.id
    ensures AuthorizeChannel(Some(p), UserChannel(other)) == Forbidden
  {
    UserChannelInjective(other, p.id);
    AdminChannelIsNoUserChannel(other);
  }

  /** The admin channel is granted to administrators and to nobody else. */
  lemma AdminChannelOnlyForAdmins(p: Principal)
    ensures AuthorizeChannel(Some(p), AdminChannel) == Granted <==> p.IsAdmin()
  {
    AdminChannelIsNoUserChannel(p.id);
  }

  /** The `authorized` callback of the middleware: auth pages are open,
      the dashboard and the admin area need a token.  Its admin-only
      check sits after a test that already caught every `/admin` path,
      so the role is never consulted. */
  function MiddlewareAuthorized(pathname: string, token: Session): bool {
    if "/auth" <= pathname then true
    else if "/dashboard" <= pathname || "/admin" <= pathname then token.Some?
    else if "/admin" <= pathname then (match token case Some(p) => p.IsAdmin() case None => false)
    else true
  }

  /** The middleware's verdict never depends on the role in the token. */
  lemma MiddlewareIgnoresRole(pathname: string, a: Principal, b: Principal)
    ensures MiddlewareAuthorized(pathname, Some(a)) == MiddlewareAuthorized(pathname, Some(b))
  {
  }

  /** On the protected paths the middleware asks only for a token. */
  lemma MiddlewareProtectedPaths(pathname: string, token: Session)
    requires "/dashboard" <= pathname || "/admin" <= pathname
    ensures MiddlewareAuthorized(pathname, token) <==> token.Some?
  {
    assert pathname[1] == 'd' || pathname[2] == 'd';
  }

  /** The admin layout redirects every session that is not an
      administrator's to the sign-in page. */
  function AdminLayoutAdmits(session: Session): bool {
    session.Some? && session.value.IsAdmin()
  }

  /** Middleware and layout together admit to the admin area exactly the
      administrators. */
  lemma AdminAreaOnlyForAdmins(pathname: string, session: Session)
    requires "/admin" <= pathname
    ensures (MiddlewareAuthorized(pathname, session) && AdminLayoutAdmits(session))
        <==> (session.Some? && session.value.IsAdmin())
  {
    MiddlewareProtectedPaths(pathname, session);
  }
}
