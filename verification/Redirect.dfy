// Following redirects: what each request of a chain carries, for every chain a
// peer can steer.

module Redirect {
  import opened Options

  type Host(==, !new)
  type Socket(==, !new)
  type Cred(==, !new)
  type Payload(==, !new)

  /** Where a request goes. Hosts are compared without regard to case, so a host
      stands for all its spellings; a socket path is compared byte for byte,
      after its escapes are decoded. */
  datatype Origin = Tcp(https: bool, host: Host, port: nat) | Unix(socket: Socket)

  /** A URL and the credentials written in it; a socket URL has none. */
  datatype Url = Url(origin: Origin, auth: Option<Cred>)

  predicate UrlOk(u: Url) { u.origin.Unix? ==> u.auth.None? }

  datatype Method = Get | Head | Post | Put | Delete | Options | Patch

  /** The methods whose body goes on the wire. */
  predicate CarriesBody(m: Method) { m == Post || m == Put || m == Patch }

  /** The caller's request. `authorization`, `cookies` and `hostHeader` say which
      such headers it sets itself. */
  datatype Request = Request(
    url: Url, meth: Method, body: Option<Payload>, authorization: bool, cookies: bool, hostHeader: bool, keepTls: bool)

  /** A resolved Location: one that names nothing usable, or a URL. */
  datatype Target = Nowhere | To(url: Url)

  /** A response: final, or a redirect with its status. */
  datatype Reply = Final(status: nat) | Moved(status: nat, target: Target)

  /** One request as it goes out: with the caller's own headers or without, and
      with an Authorization made from a URL or without. */
  datatype Sent = Sent(
    url: Url, meth: Method, body: Option<Payload>, urlAuth: Option<Cred>, authorization: bool, cookies: bool, hostHeader: bool)

  datatype Result = Done(status: nat) | InvalidUrl | TooManyRedirects

  const MAX_REDIRECTS: nat := 50

  // ---------------------------------------------------------------------
  // The rules of one hop
  // ---------------------------------------------------------------------

  predicate Preserves(status: nat) { status == 307 || status == 308 }

  predicate SameHost(a: Origin, b: Origin) {
    match (a, b)
    case (Tcp(_, h, _), Tcp(_, k, _)) => h == k
    case (Unix(s), Unix(t)) => s == t
    case _ => false
  }

  /** May a response from base send the client to next? A socket only from that
      same socket; off TLS only where the caller has not asked otherwise. */
  predicate Allowed(base: Origin, next: Origin, keepTls: bool) {
    if next.Unix? then base == next
    else keepTls && base.Tcp? && base.https ==> next.https
  }

  // ---------------------------------------------------------------------
  // What a chain may carry
  // ---------------------------------------------------------------------

  /** Every one of the first i responses kept the method and the body. */
  ghost predicate AllPreserve(replies: seq<Reply>, i: nat)
    requires i <= |replies|
  {
    forall j :: 0 <= j < i ==> Preserves(replies[j].status)
  }

  /** The credentials a URL gave at hop j still hold at hop i: no URL since had its
      own, and none left the origin. */
  ghost predicate Stands(sent: seq<Sent>, j: nat, i: nat)
    requires j <= i < |sent|
  {
    sent[j].url.auth.Some? && forall k :: j < k <= i ==> sent[k].url.auth.None? && sent[k].url.origin == sent[j].url.origin
  }

  /** Hop i follows the rules, seen from the whole chain before it. */
  ghost predicate HopOk(req: Request, replies: seq<Reply>, sent: seq<Sent>, i: nat)
    requires i < |sent| && i <= |replies|
  {
    && UrlOk(sent[i].url)
    && (i == 0 ==> sent[i].url == req.url)
    && (i > 0 ==> replies[i - 1].Moved? && replies[i - 1].target == To(sent[i].url) && Allowed(sent[i - 1].url.origin, sent[i].url.origin, req.keepTls))
    && sent[i].meth == (if req.meth == Head || AllPreserve(replies, i) then req.meth else Get)
    && sent[i].body == (if CarriesBody(req.meth) && AllPreserve(replies, i) then req.body else None)
    && (sent[i].authorization <==> req.authorization && sent[i].url.origin == req.url.origin)
    && (sent[i].cookies <==> req.cookies && sent[i].url.origin == req.url.origin)
    && (sent[i].hostHeader <==> req.hostHeader && SameHost(sent[i].url.origin, req.url.origin))
    && (forall j :: 0 <= j <= i && Stands(sent, j, i) ==> sent[i].urlAuth == if sent[i].authorization then None else sent[j].url.auth)
    && (sent[i].urlAuth.Some? ==> !sent[i].authorization && exists j :: 0 <= j <= i && Stands(sent, j, i))
  }

  ghost predicate ChainOk(req: Request, replies: seq<Reply>, sent: seq<Sent>) {
    |sent| <= |replies| + 1 && forall i :: 0 <= i < |sent| ==> HopOk(req, replies, sent, i)
  }

  /** The rules of a hop do not look ahead. */
  lemma HopLocal(req: Request, replies: seq<Reply>, sent: seq<Sent>, more: seq<Reply>, last: seq<Sent>, i: nat)
    requires i < |sent| && i <= |replies| && HopOk(req, replies, sent, i)
    ensures HopOk(req, replies + more, sent + last, i)
  {
    var r, s := replies + more, sent + last;
    assert forall j :: 0 <= j < |replies| ==> r[j] == replies[j];
    assert forall j :: 0 <= j < |sent| ==> s[j] == sent[j];
    assert AllPreserve(r, i) <==> AllPreserve(replies, i);
    forall j | 0 <= j <= i ensures Stands(s, j, i) <==> Stands(sent, j, i) {}
  }

  // ---------------------------------------------------------------------
  // The loop
  // ---------------------------------------------------------------------

  /** Hop j's credentials stand at the last hop. */
  ghost predicate StandsNow(sent: seq<Sent>, j: nat) { j < |sent| && Stands(sent, j, |sent| - 1) }

  /** The carried credentials before hop |sent|: where they came from, if they
      still stand. */
  ghost predicate CarriedOk(sent: seq<Sent>, carried: Option<(Cred, Origin)>, from: nat) {
    && (carried.Some? ==> StandsNow(sent, from) && carried == Some((sent[from].url.auth.value, sent[from].url.origin)))
    && (carried.None? ==> forall j: nat :: !StandsNow(sent, j))
  }

  /** Only the last place that gave credentials can stand. */
  lemma StandsOnce(sent: seq<Sent>, i: nat, j: nat, k: nat)
    requires j <= i < |sent| && k <= i && Stands(sent, j, i) && Stands(sent, k, i)
    ensures j == k
  {
  }

  /** Standing one hop further. */
  lemma StandsNext(sent: seq<Sent>, s: Sent, j: nat)
    ensures j == |sent| ==> (StandsNow(sent + [s], j) <==> s.url.auth.Some?)
    ensures j < |sent| ==> (StandsNow(sent + [s], j) <==> StandsNow(sent, j) && s.url.auth.None? && s.url.origin == sent[j].url.origin)
  {
    var t := sent + [s];
    assert t[|sent|] == s;
    assert forall k :: 0 <= k < |sent| ==> t[k] == sent[k];
    if j < |sent| && StandsNow(t, j) {
      forall k | j < k <= |sent| - 1 ensures sent[k].url.auth.None? && sent[k].url.origin == sent[j].url.origin { assert t[k] == sent[k]; }
    }
  }

  /** The credentials of the next hop, and what is then carried. */
  function NextAuth(url: Url, carried: Option<(Cred, Origin)>): Option<(Cred, Origin)> {
    if url.auth.Some? then Some((url.auth.value, url.origin))
    else if carried.Some? && carried.value.1 == url.origin then carried
    else None
  }

  lemma NextAuthOk(sent: seq<Sent>, s: Sent, carried: Option<(Cred, Origin)>, from: nat)
    requires CarriedOk(sent, carried, from)
    ensures CarriedOk(sent + [s], NextAuth(s.url, carried), if s.url.auth.Some? then |sent| else from)
  {
    var t, c := sent + [s], NextAuth(s.url, carried);
    StandsNext(sent, s, |sent|);
    if carried.Some? { StandsNext(sent, s, from); }
    if c.None? {
      forall j: nat ensures !StandsNow(t, j) {
        StandsNext(sent, s, j);
        if carried.Some? && StandsNow(sent, j) { StandsOnce(sent, |sent| - 1, j, from); }
      }
    }
  }

  /** The Authorization made from a URL: not where the caller's own goes out. */
  function WireAuth(carried: Option<(Cred, Origin)>, authorization: bool): Option<Cred> {
    if authorization || carried.None? then None else Some(carried.value.0)
  }

  lemma AuthOk(sent: seq<Sent>, carried: Option<(Cred, Origin)>, from: nat)
    requires sent != [] && CarriedOk(sent, carried, from)
    requires var s := sent[|sent| - 1]; s.urlAuth == WireAuth(carried, s.authorization)
    ensures var i := |sent| - 1;
      && (forall j :: 0 <= j <= i && Stands(sent, j, i) ==> sent[i].urlAuth == if sent[i].authorization then None else sent[j].url.auth)
      && (sent[i].urlAuth.Some? ==> !sent[i].authorization && exists j :: 0 <= j <= i && Stands(sent, j, i))
  {
    var i := |sent| - 1;
    if carried.Some? {
      forall j | 0 <= j <= i && Stands(sent, j, i) ensures carried.value.0 == sent[j].url.auth.value { StandsOnce(sent, i, j, from); }
    } else {
      forall j: nat | j <= i ensures !Stands(sent, j, i) { assert !StandsNow(sent, j); }
    }
  }

  /** The peers: what each request of the chain is answered. */
  type Peers = nat -> Reply

  predicate PeersOk(r: Reply) { r.Moved? && r.target.To? ==> UrlOk(r.target.url) }

  function Answers(peers: Peers, n: nat): seq<Reply> { seq(n, (i: nat) => peers(i)) }

  /** What the next request of the chain is like. */
  ghost predicate Ready(req: Request, replies: seq<Reply>, sent: seq<Sent>, url: Url, meth: Method, body: Option<Payload>) {
    && ChainOk(req, replies, sent) && |replies| == |sent| && UrlOk(url)
    && (sent == [] ==> url == req.url)
    && (sent != [] ==> replies[|sent| - 1].Moved? && replies[|sent| - 1].target == To(url) && Allowed(sent[|sent| - 1].url.origin, url.origin, req.keepTls))
    && meth == (if req.meth == Head || AllPreserve(replies, |sent|) then req.meth else Get)
    && body == (if req.meth == Head || AllPreserve(replies, |sent|) then req.body else None)
  }

  lemma SendOne(req: Request, replies: seq<Reply>, sent: seq<Sent>, s: Sent, body: Option<Payload>, carried: Option<(Cred, Origin)>, from: nat)
    requires Ready(req, replies, sent, s.url, s.meth, body) && CarriedOk(sent + [s], carried, from)
    requires s.body == if CarriesBody(s.meth) then body else None
    requires s.urlAuth == WireAuth(carried, s.authorization)
    requires s.authorization <==> req.authorization && s.url.origin == req.url.origin
    requires s.cookies <==> req.cookies && s.url.origin == req.url.origin
    requires s.hostHeader <==> req.hostHeader && SameHost(s.url.origin, req.url.origin)
    ensures ChainOk(req, replies, sent + [s])
  {
    var t := sent + [s];
    forall i | 0 <= i < |sent| ensures HopOk(req, replies, t, i) {
      HopLocal(req, replies, sent, [], [s], i);
      assert replies + [] == replies;
    }
    hide CarriedOk, Stands;
    AuthOk(t, carried, from);
  }

  lemma AnswerOne(req: Request, replies: seq<Reply>, sent: seq<Sent>, r: Reply)
    requires ChainOk(req, replies, sent) && |sent| <= |replies| + 1
    ensures ChainOk(req, replies + [r], sent)
  {
    forall i | 0 <= i < |sent| ensures HopOk(req, replies + [r], sent, i) {
      HopLocal(req, replies, sent, [r], [], i);
      assert sent + [] == sent;
    }
  }

  lemma PreserveOne(replies: seq<Reply>, r: Reply)
    ensures AllPreserve(replies + [r], |replies| + 1) <==> AllPreserve(replies, |replies|) && Preserves(r.status)
  {
    var t := replies + [r];
    assert t[|replies|] == r;
    assert forall j :: 0 <= j < |replies| ==> t[j] == replies[j];
  }

  /** Sends a request and follows where its responses lead, at most 50 times. */
  method Follow(req: Request, peers: Peers) returns (sent: seq<Sent>, result: Result)
    requires UrlOk(req.url) && forall i :: PeersOk(peers(i))
    ensures 0 < |sent| <= 51
    ensures ChainOk(req, Answers(peers, |sent|), sent)
    ensures result.Done? <==> peers(|sent| - 1).Final?
    ensures result.Done? ==> result.status == peers(|sent| - 1).status
    ensures result == TooManyRedirects <==> peers(|sent| - 1).Moved? && |sent| == 51
    ensures result == InvalidUrl <==>
      var r, base := peers(|sent| - 1), sent[|sent| - 1].url.origin;
      && r.Moved? && |sent| <= 50
      && (r.target.To? ==>
            var to := r.target.url.origin;
            (to.Unix? && base != to) || (to.Tcp? && !to.https && base.Tcp? && base.https && req.keepTls))
  {
    hide ChainOk, CarriedOk, AllPreserve, SameHost, Allowed;
    sent := [];
    var url, meth, body := req.url, req.meth, req.body;
    var carried: Option<(Cred, Origin)>, hop := None, 0;
    ghost var from: nat := 0;
    StartReady(req, peers);
    while true
      invariant hop == |sent| <= MAX_REDIRECTS
      invariant Ready(req, Answers(peers, hop), sent, url, meth, body) && CarriedOk(sent, carried, from)
      decreases MAX_REDIRECTS - hop
    {
      ghost var replies := Answers(peers, hop);
      var same := url.origin == req.url.origin;
      var next := NextAuth(url, carried);
      var s := Sent(url, meth, if CarriesBody(meth) then body else None, WireAuth(next, req.authorization && same),
                    req.authorization && same, req.cookies && same, req.hostHeader && SameHost(url.origin, req.url.origin));
      NextAuthOk(sent, s, carried, from);
      from := if url.auth.Some? then |sent| else from;
      carried := next;
      SendOne(req, replies, sent, s, body, carried, from);
      sent := sent + [s];
      var reply := peers(hop);
      assert Answers(peers, hop + 1) == replies + [reply];
      AnswerOne(req, replies, sent, reply);
      PreserveOne(replies, reply);
      match reply {
        case Final(status) => return sent, Done(status);
        case Moved(status, target) =>
          if hop >= MAX_REDIRECTS { return sent, TooManyRedirects; }
          if target.Nowhere? { return sent, InvalidUrl; }
          AllowedIs(url.origin, target.url.origin, req.keepTls);
          if !Allowed(url.origin, target.url.origin, req.keepTls) { return sent, InvalidUrl; }
          assert PeersOk(peers(hop));
          url := target.url;
          if !Preserves(status) && meth != Head { meth, body := Get, None; }
          hop := hop + 1;
      }
    }
  }

  /** A socket is reached only from that same socket, and TLS is left only where the
      caller has not asked otherwise. */
  lemma AllowedIs(base: Origin, to: Origin, keepTls: bool)
    ensures !Allowed(base, to, keepTls) <==> (to.Unix? && base != to) || (to.Tcp? && !to.https && base.Tcp? && base.https && keepTls)
  {
  }

  lemma StartReady(req: Request, peers: Peers)
    requires UrlOk(req.url)
    ensures Ready(req, Answers(peers, 0), [], req.url, req.meth, req.body) && CarriedOk([], None, 0)
  {
  }

  // ---------------------------------------------------------------------
  // What follows for whole chains
  // ---------------------------------------------------------------------

  /** Every request after the first goes where the response before it led, to a
      socket only from that same socket, and off TLS only where the caller has not
      asked otherwise. */
  lemma GoesWhereItIsLed(req: Request, replies: seq<Reply>, sent: seq<Sent>, i: nat)
    requires ChainOk(req, replies, sent) && i < |sent|
    ensures i == 0 ==> sent[i].url == req.url
    ensures i > 0 ==>
      var base, to := sent[i - 1].url.origin, sent[i].url.origin;
      && replies[i - 1].Moved? && replies[i - 1].target == To(sent[i].url)
      && (to.Unix? ==> base == to) && (to.Tcp? && !to.https && base.Tcp? && base.https ==> !req.keepTls)
  {
    hide AllPreserve, Stands, SameHost;
    assert HopOk(req, replies, sent, i);
  }

  /** Requests to a socket come first in a chain and all go to the socket the
      caller named: once off it, no response leads back, and none leads to
      another. */
  lemma {:induction false} SocketHopsArePrefix(req: Request, replies: seq<Reply>, sent: seq<Sent>, i: nat)
    requires ChainOk(req, replies, sent) && i < |sent| && sent[i].url.origin.Unix?
    ensures sent[i].url.origin == req.url.origin && forall j :: 0 <= j <= i ==> sent[j].url.origin == req.url.origin
  {
    assert HopOk(req, replies, sent, i);
    if i > 0 {
      SocketHopsArePrefix(req, replies, sent, i - 1);
    }
  }

  /** A chain that starts on TLS and is asked to stay there does. */
  lemma {:induction false} StaysOnTls(req: Request, replies: seq<Reply>, sent: seq<Sent>, i: nat)
    requires ChainOk(req, replies, sent) && i < |sent| && req.keepTls && req.url.origin.Tcp? && req.url.origin.https
    ensures sent[i].url.origin.Tcp? && sent[i].url.origin.https
  {
    assert HopOk(req, replies, sent, i);
    if i > 0 { StaysOnTls(req, replies, sent, i - 1); }
  }

  /** A body goes out exactly when the caller's method carries one and every
      earlier response kept method and body. A HEAD chain stays one. */
  lemma BodySentWhen(req: Request, replies: seq<Reply>, sent: seq<Sent>, i: nat)
    requires ChainOk(req, replies, sent) && i < |sent|
    ensures sent[i].body.Some? <==>
      req.body.Some? && req.meth in {Post, Put, Patch} && forall j :: 0 <= j < i ==> replies[j].status in {307, 308}
    ensures sent[i].meth == if req.meth == Head || forall j :: 0 <= j < i ==> replies[j].status in {307, 308} then req.meth else Get
    ensures sent[i].body.Some? ==> sent[i].body == req.body && sent[i].meth == req.meth
    ensures req.meth == Head ==> sent[i].meth == Head
  {
    assert HopOk(req, replies, sent, i);
  }

  /** Credentials taken from a URL reach a hop exactly when some URL up to it had
      some, since the last that did the chain has not left its origin, and the
      caller's own Authorization is not there. They never go to another origin
      than the one whose URL gave them. */
  lemma UrlAuthWhen(req: Request, replies: seq<Reply>, sent: seq<Sent>, i: nat)
    requires ChainOk(req, replies, sent) && i < |sent|
    ensures sent[i].urlAuth.Some? <==> (
      && !sent[i].authorization
      && exists j :: 0 <= j <= i && sent[j].url.auth.Some?
           && forall k :: j < k <= i ==> sent[k].url.auth.None? && sent[k].url.origin == sent[j].url.origin)
    ensures sent[i].urlAuth.Some? ==> exists j :: 0 <= j <= i && sent[j].url.auth == sent[i].urlAuth && sent[j].url.origin == sent[i].url.origin
  {
    assert HopOk(req, replies, sent, i);
    if j :| 0 <= j <= i && Stands(sent, j, i) {
      assert sent[i].urlAuth.Some? ==> sent[j].url.auth == sent[i].urlAuth && sent[j].url.origin == sent[i].url.origin;
    }
  }

  /** While only the caller's own URL carries credentials, they go exactly to the
      hops before the chain first leaves its first origin, and never again. */
  lemma FirstOriginOnly(req: Request, replies: seq<Reply>, sent: seq<Sent>, i: nat)
    requires ChainOk(req, replies, sent) && i < |sent| && !req.authorization && forall j :: 0 < j <= i ==> sent[j].url.auth.None?
    ensures sent[i].urlAuth.Some? <==> req.url.auth.Some? && forall j :: 0 <= j <= i ==> sent[j].url.origin == req.url.origin
    ensures sent[i].urlAuth.Some? ==> sent[i].urlAuth == req.url.auth
  {
    assert HopOk(req, replies, sent, 0) && HopOk(req, replies, sent, i);
    assert Stands(sent, 0, i) <==> req.url.auth.Some? && forall j :: 0 <= j <= i ==> sent[j].url.origin == req.url.origin;
    forall j | 0 < j <= i ensures !Stands(sent, j, i) {}
  }

  /** A Location with credentials of its own starts over: a hop that has left the
      first origin then carries URL credentials again. */
  lemma LocationRestartsAuth(a: Origin, b: Origin, c: Cred)
    requires a.Tcp? && b.Tcp? && a != b
    ensures var req := Request(Url(a, None), Get, None, false, false, false, false);
      var replies := [Moved(302, To(Url(b, Some(c)))), Final(200)];
      var sent := [Sent(Url(a, None), Get, None, None, false, false, false), Sent(Url(b, Some(c)), Get, None, Some(c), false, false, false)];
      ChainOk(req, replies, sent) && sent[1].urlAuth.Some? && sent[1].url.origin != req.url.origin
  {
    var req := Request(Url(a, None), Get, None, false, false, false, false);
    var replies := [Moved(302, To(Url(b, Some(c)))), Final(200)];
    var sent := [Sent(Url(a, None), Get, None, None, false, false, false), Sent(Url(b, Some(c)), Get, None, Some(c), false, false, false)];
    assert HopOk(req, replies, sent, 0);
    assert Stands(sent, 1, 1);
    assert HopOk(req, replies, sent, 1);
  }

  /** The caller's own credential headers go exactly to its own origin, however
      often the chain leaves it and comes back. */
  lemma CallerHeadersWhen(req: Request, replies: seq<Reply>, sent: seq<Sent>, i: nat)
    requires ChainOk(req, replies, sent) && i < |sent|
    ensures sent[i].authorization <==> req.authorization && sent[i].url.origin == sent[0].url.origin
    ensures sent[i].cookies <==> req.cookies && sent[i].url.origin == sent[0].url.origin
    ensures var a, b := sent[i].url.origin, sent[0].url.origin;
      sent[i].hostHeader <==> req.hostHeader && ((a.Tcp? && b.Tcp? && a.host == b.host) || (a.Unix? && a == b))
  {
    assert HopOk(req, replies, sent, 0) && HopOk(req, replies, sent, i);
  }
}
