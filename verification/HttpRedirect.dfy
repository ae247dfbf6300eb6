/** Redirect following against an arbitrary server.  The server, the network,
    URL joining and the clock are oracles; what is decided here is which
    requests are sent and what they carry (section 15.4 of RFC 9110). */
module HttpRedirect {
  import opened Common

  datatype Scheme = Http | Https | OtherScheme(name: string)

  datatype Url = Url(scheme: Scheme, host: string, port: nat, credentials: bool, path: string, length: nat)

  /** A URL as spelled by the caller or a redirect, with its encoded length. */
  datatype Spelled = Spelled(length: nat, parsed: Option<Url>)

  datatype Verb = Get | Head | Post

  /** With whether the transport accepts the syntax of name and value. */
  datatype Header = Header(name: string, value: string, nameOk: bool, valueOk: bool)

  datatype Request = Request(verb: Verb, url: Spelled, headers: seq<Header>, body: seq<byte>)

  /** A request that went out on the wire. */
  datatype Sent = Sent(verb: Verb, url: Url, headers: seq<Header>, body: seq<byte>)

  /** A Location header: its length, whether it is UTF-8, and what joining it
      to the current URL gives. */
  datatype Location = Location(length: nat, utf8: bool, joined: Option<Url>)

  datatype Reply =
    | NoReply
    | Reply(status: nat, location: Option<Location>, headerCount: nat, headerBytes: nat, declared: Option<nat>)

  datatype Limits = Limits(maxRedirects: nat, maxRequestBytes: nat, maxUrlBytes: nat, maxBodyBytes: nat,
                           maxHeaderBytes: nat, maxHeaderCount: nat)

  datatype Error =
    | RequestExceedsLimit
    | BodyNotAllowed
    | InvalidUrl
    | SchemeOrCredentials
    | HeadersExceedLimit
    | InvalidHeader
    | TransportOwnedHeader
    | DeadlineExpired
    | TransportFailed
    | ResponseHeadersExceedLimit
    | ResponseBodyExceedsLimit
    | RedirectLimitExceeded
    | RedirectUrlTooLong
    | InvalidRedirectUrl
    | HttpsDowngrade
    | CrossOriginReplay

  datatype Outcome = Ok(reply: Reply) | Err(error: Error)

  // ---- header names

  function Lower(c: char): char {
    if 'A' <= c <= 'Z' then (c as int + 32) as char else c
  }

  function Lowered(s: string): string {
    if s == "" then "" else [Lower(s[0])] + Lowered(s[1..])
  }

  predicate DescribesContent(h: Header) {
    Lowered(h.name) == "content-type" || Lowered(h.name) == "content-encoding"
  }

  predicate IsTransportOwned(h: Header) {
    Lowered(h.name) in ["host", "content-length", "transfer-encoding", "connection", "upgrade", "trailer", "te",
                        "expect", "proxy-authorization"]
  }

  function WithoutContentHeaders(headers: seq<Header>): seq<Header> {
    if headers == [] then []
    else
      (if DescribesContent(headers[0]) then [] else [headers[0]]) + WithoutContentHeaders(headers[1..])
  }

  // ---- one request

  /** The header scan: names and values draw on one byte budget. */
  function CheckHeaders(headers: seq<Header>, budget: nat): Option<Error> {
    if headers == [] then None
    else
      var h := headers[0];
      if |h.name| + |h.value| > budget then Some(HeadersExceedLimit)
      else if !h.nameOk then Some(InvalidHeader)
      else if IsTransportOwned(h) then Some(TransportOwnedHeader)
      else if !h.valueOk then Some(InvalidHeader)
      else CheckHeaders(headers[1..], budget - |h.name| - |h.value|)
  }

  function CheckRequest(limits: Limits, r: Request): Option<Error> {
    if || r.url.length > limits.maxUrlBytes || |r.body| > limits.maxRequestBytes
       || |r.headers| > limits.maxHeaderCount then Some(RequestExceedsLimit)
    else if !r.verb.Post? && r.body != [] then Some(BodyNotAllowed)
    else if r.url.parsed.None? then Some(InvalidUrl)
    else if r.url.parsed.value.scheme.OtherScheme? || r.url.parsed.value.credentials then Some(SchemeOrCredentials)
    else CheckHeaders(r.headers, limits.maxHeaderBytes)
  }

  function CheckReply(limits: Limits, verb: Verb, reply: Reply): Option<Error> {
    if reply.NoReply? then Some(TransportFailed)
    else if reply.headerCount > limits.maxHeaderCount || reply.headerBytes > limits.maxHeaderBytes then
      Some(ResponseHeadersExceedLimit)
    else if !verb.Head? && reply.declared.Some? && reply.declared.value > limits.maxBodyBytes then
      Some(ResponseBodyExceedsLimit)
    else None
  }

  /** What is sent for a request that passed its checks. */
  function OnTheWire(r: Request): Sent
    requires r.url.parsed.Some?
  {
    Sent(r.verb, r.url.parsed.value, r.headers, r.body)
  }

  method ExecuteOnce(limits: Limits, r: Request, server: seq<Sent> -> Reply, expired: bool, sent: seq<Sent>)
    returns (outcome: Outcome, sent': seq<Sent>)
    ensures CheckRequest(limits, r).Some? ==> outcome == Err(CheckRequest(limits, r).value) && sent' == sent
    ensures CheckRequest(limits, r).None? && expired ==> outcome == Err(DeadlineExpired) && sent' == sent
    ensures CheckRequest(limits, r).None? && !expired ==>
              && r.url.parsed.Some? && sent' == sent + [OnTheWire(r)]
              && outcome == match CheckReply(limits, r.verb, server(sent'))
                            case Some(e) => Err(e)
                            case None => Ok(server(sent'))
  {
    sent' := sent;
    var refused := CheckRequest(limits, r);
    if refused.Some? {
      return Err(refused.value), sent;
    }
    if expired {
      return Err(DeadlineExpired), sent;
    }
    sent' := sent + [OnTheWire(r)];
    var reply := server(sent');
    var rejected := CheckReply(limits, r.verb, reply);
    outcome := if rejected.Some? then Err(rejected.value) else Ok(reply);
  }

  // ---- redirects

  /** Origins: scheme, host and port; a scheme outside HTTP never matches. */
  predicate SameOrigin(a: Url, b: Url) {
    !a.scheme.OtherScheme? && a.scheme == b.scheme && a.host == b.host && a.port == b.port
  }

  predicate IsRedirect(status: nat) {
    301 <= status <= 303 || 307 <= status <= 308
  }

  /** Whether a reply ends the exchange. */
  predicate IsFinal(limits: Limits, reply: Reply) {
    reply.Reply? && (limits.maxRedirects == 0 || !IsRedirect(reply.status) || reply.location.None?)
  }

  /** The request that follows a redirect, or why there is none. */
  datatype Hop = Go(next: Request) | Refuse(error: Error)

  function NextHop(limits: Limits, was: Sent, status: nat, to: Location): Hop {
    if to.length > limits.maxUrlBytes then Refuse(RedirectUrlTooLong)
    else if !to.utf8 || to.joined.None? then Refuse(InvalidRedirectUrl)
    else
      var next := to.joined.value;
      if was.url.scheme.Https? && !next.scheme.Https? then Refuse(HttpsDowngrade)
      else
        var crosses := !SameOrigin(next, was.url);
        if crosses && was.verb.Post? && 307 <= status <= 308 then Refuse(CrossOriginReplay)
        else
          var headers := if crosses then [] else was.headers;
          var spelled := Spelled(next.length, Some(next));
          if was.verb.Post? && 301 <= status <= 303
          then Go(Request(Get, spelled, WithoutContentHeaders(headers), []))
          else Go(Request(was.verb, spelled, headers, was.body))
  }

  /** Every request after the first is the one its predecessor's redirect
      calls for. */
  ghost predicate FollowsRedirects(limits: Limits, server: seq<Sent> -> Reply, sent: seq<Sent>) {
    forall i {:trigger sent[..i]} :: 0 < i < |sent| ==>
      var reply := server(sent[..i]);
      && reply.Reply? && IsRedirect(reply.status) && reply.location.Some?
      && NextHop(limits, sent[i - 1], reply.status, reply.location.value).Go?
      && (var r := NextHop(limits, sent[i - 1], reply.status, reply.location.value).next;
          CheckRequest(limits, r).None? && sent[i] == OnTheWire(r))
  }

  /** The reply to the last request was accepted and sends us on. */
  predicate IsSentOn(limits: Limits, server: seq<Sent> -> Reply, sent: seq<Sent>)
    requires sent != []
  {
    var reply := server(sent);
    && CheckReply(limits, sent[|sent| - 1].verb, reply).None?
    && !IsFinal(limits, reply)
  }

  /** The request that would be sent next, if there is one. */
  function Pending(limits: Limits, r: Request, server: seq<Sent> -> Reply, sent: seq<Sent>): Option<Request> {
    if sent == [] then Some(r)
    else if !IsSentOn(limits, server, sent) || |sent| > limits.maxRedirects then None
    else
      match NextHop(limits, sent[|sent| - 1], server(sent).status, server(sent).location.value)
      case Go(next) => Some(next)
      case Refuse(_) => None
  }

  /** Why an exchange that sent `sent` ends with `outcome`. */
  ghost predicate StopsBecause(limits: Limits, r: Request, server: seq<Sent> -> Reply, expired: nat -> bool,
                               sent: seq<Sent>, outcome: Outcome) {
    match Pending(limits, r, server, sent)
    case Some(next) =>
      // it was not sent
      if CheckRequest(limits, next).Some? then outcome == Err(CheckRequest(limits, next).value)
      else expired(|sent|) && outcome == Err(DeadlineExpired)
    case None =>
      && sent != []
      && (var reply := server(sent);
          var rejected := CheckReply(limits, sent[|sent| - 1].verb, reply);
          if rejected.Some? then outcome == Err(rejected.value)
          else if IsFinal(limits, reply) then outcome == Ok(reply)
          else if |sent| > limits.maxRedirects then outcome == Err(RedirectLimitExceeded)
          else
            outcome == Err(NextHop(limits, sent[|sent| - 1], reply.status, reply.location.value).error))
  }

  // ---- what a whole exchange keeps

  ghost predicate IsSublist(xs: seq<Header>, ys: seq<Header>)
    decreases |ys|
  {
    || xs == []
    || (ys != [] && ((xs[0] == ys[0] && IsSublist(xs[1..], ys[1..])) || IsSublist(xs, ys[1..])))
  }

  lemma {:induction false} SublistSelf(xs: seq<Header>)
    ensures IsSublist(xs, xs)
    decreases |xs|
  {
    if xs != [] {
      SublistSelf(xs[1..]);
    }
  }

  lemma {:induction false} SublistDropsHead(xs: seq<Header>, ys: seq<Header>)
    requires xs != [] && IsSublist(xs, ys)
    ensures IsSublist(xs[1..], ys)
    decreases |ys|
  {
    if IsSublist(xs, ys[1..]) {
      SublistDropsHead(xs, ys[1..]);
    }
    if xs[1..] != [] && IsSublist(xs[1..], ys[1..]) {
      assert IsSublist(xs[1..], ys);
    }
  }

  lemma {:induction false} StrippedIsSublist(xs: seq<Header>, ys: seq<Header>)
    requires IsSublist(xs, ys)
    ensures IsSublist(WithoutContentHeaders(xs), ys)
    decreases |ys|, |xs|
  {
    if xs != [] {
      var kept := WithoutContentHeaders(xs);
      var rest := WithoutContentHeaders(xs[1..]);
      if DescribesContent(xs[0]) {
        assert kept == rest;
        SublistDropsHead(xs, ys);
        StrippedIsSublist(xs[1..], ys);
      } else {
        assert kept == [xs[0]] + rest && kept[1..] == rest;
        if xs[0] == ys[0] && IsSublist(xs[1..], ys[1..]) {
          StrippedIsSublist(xs[1..], ys[1..]);
        } else {
          StrippedIsSublist(xs, ys[1..]);
        }
      }
    }
  }

  /** What one request of the exchange may be, given the caller's. */
  ghost predicate Allowed(limits: Limits, r: Request, s: Sent) {
    && !s.url.scheme.OtherScheme? && !s.url.credentials
    && IsSublist(s.headers, r.headers)
    && |s.headers| <= limits.maxHeaderCount && |s.body| <= limits.maxRequestBytes
    && (s.body == r.body || s.body == [])
    && (s.body != [] ==> s.verb.Post?)
    && (s.verb == r.verb || (r.verb.Post? && s.verb.Get? && s.body == []))
  }

  /** Still with the first request's origin all along. */
  ghost predicate StayedHome(sent: seq<Sent>, n: nat) {
    n <= |sent| && forall i :: 0 <= i < n ==> SameOrigin(sent[i].url, sent[0].url)
  }

  ghost predicate Keeps(limits: Limits, r: Request, sent: seq<Sent>) {
    && (forall i :: 0 <= i < |sent| ==> Allowed(limits, r, sent[i]))
    && (forall i :: 0 <= i < |sent| && (sent[i].headers != [] || sent[i].body != []) ==> StayedHome(sent, i + 1))
    && (forall i, j :: 0 <= i < j < |sent| && sent[i].url.scheme.Https? ==> sent[j].url.scheme.Https?)
    && (forall i, j :: 0 <= i < j < |sent| && sent[j].verb.Post? ==> sent[i].verb.Post?)
  }

  /** The pending request carries nothing the exchange has given up. */
  ghost predicate Carries(limits: Limits, r: Request, sent: seq<Sent>, next: Request) {
    if sent == [] then next == r
    else
      var last := sent[|sent| - 1];
      && next.url.parsed.Some?
      && (last.url.scheme.Https? ==> next.url.parsed.value.scheme.Https?)
      && IsSublist(next.headers, r.headers)
      && (next.body == r.body || next.body == [])
      && (next.headers != [] ==> last.headers != []) && (next.body != [] ==> last.body != [])
      && (next.headers != [] || next.body != [] ==> SameOrigin(next.url.parsed.value, last.url))
      && (next.verb == last.verb || (last.verb.Post? && next.verb.Get? && next.body == []))
  }

  lemma HopCarries(limits: Limits, r: Request, sent: seq<Sent>, status: nat, to: Location)
    requires sent != [] && Keeps(limits, r, sent) && IsRedirect(status)
    requires NextHop(limits, sent[|sent| - 1], status, to).Go?
    ensures Carries(limits, r, sent, NextHop(limits, sent[|sent| - 1], status, to).next)
  {
    var last := sent[|sent| - 1];
    assert Allowed(limits, r, last);
    StrippedIsSublist(last.headers, r.headers);
  }

  lemma HomeExtends(sent: seq<Sent>, s: Sent, n: nat)
    requires StayedHome(sent, n)
    ensures StayedHome(sent + [s], n)
  {
    assert forall i :: 0 <= i < n ==> (sent + [s])[i] == sent[i];
  }

  lemma HomeGrows(sent: seq<Sent>, s: Sent)
    requires sent != [] && StayedHome(sent, |sent|) && SameOrigin(s.url, sent[|sent| - 1].url)
    ensures StayedHome(sent + [s], |sent| + 1)
  {
    assert SameOrigin(sent[|sent| - 1].url, sent[0].url);
  }

  lemma FirstKeeps(limits: Limits, r: Request)
    requires CheckRequest(limits, r).None?
    ensures Keeps(limits, r, [OnTheWire(r)])
  {
    SublistSelf(r.headers);
  }

  lemma SendingKeeps(limits: Limits, r: Request, sent: seq<Sent>, next: Request)
    requires Keeps(limits, r, sent) && Carries(limits, r, sent, next) && CheckRequest(limits, next).None?
    ensures Keeps(limits, r, sent + [OnTheWire(next)])
  {
    hide IsSublist, CheckHeaders, StayedHome, SameOrigin;
    var s := OnTheWire(next);
    var all := sent + [s];
    if sent == [] {
      assert all == [s];
      FirstKeeps(limits, r);
    } else {
      var n := |sent|;
      var last := sent[n - 1];
      assert Allowed(limits, r, last);
      assert Allowed(limits, r, s);
      forall i | 0 <= i < |all| && (all[i].headers != [] || all[i].body != [])
        ensures StayedHome(all, i + 1)
      {
        if i < n {
          HomeExtends(sent, s, i + 1);
        } else {
          HomeGrows(sent, s);
        }
      }
      forall i | 0 <= i < n && all[i].url.scheme.Https?
        ensures s.url.scheme.Https?
      {
      }
    }
  }

  lemma NothingSentYet(limits: Limits, r: Request, server: seq<Sent> -> Reply)
    ensures Keeps(limits, r, []) && Carries(limits, r, [], r) && FollowsRedirects(limits, server, [])
  {
  }

  // ---- the exchange in terms of the fields alone

  /** `name` is `word`, a word without capitals, in any capitalization. */
  ghost predicate Spells(name: string, word: string) {
    |name| == |word| && forall i :: 0 <= i < |name| ==> IsLetter(name[i], word[i])
  }

  ghost predicate IsLetter(c: char, small: char) {
    if 'A' <= c <= 'Z' then small as int == c as int + 32 else small == c
  }

  lemma {:induction false} LoweredSpells(name: string, word: string)
    ensures Lowered(name) == word <==> Spells(name, word)
    decreases |name|
  {
    if name != "" {
      if word == "" {
        assert Lowered(name) != "";
      } else {
        LoweredSpells(name[1..], word[1..]);
        assert word == [word[0]] + word[1..];
        assert Lowered(name)[1..] == Lowered(name[1..]);
        assert forall i :: 0 <= i < |name[1..]| ==> name[1..][i] == name[i + 1];
        assert forall i :: 0 < i < |name| ==> name[i] == name[1..][i - 1];
      }
    }
  }

  ghost predicate IsContentHeader(h: Header) {
    Spells(h.name, "content-type") || Spells(h.name, "content-encoding")
  }

  ghost predicate IsForbidden(h: Header) {
    || Spells(h.name, "host") || Spells(h.name, "content-length") || Spells(h.name, "transfer-encoding")
    || Spells(h.name, "connection") || Spells(h.name, "upgrade") || Spells(h.name, "trailer") || Spells(h.name, "te")
    || Spells(h.name, "expect") || Spells(h.name, "proxy-authorization")
  }

  lemma NamesAreMatchedInAnyCase(h: Header)
    ensures DescribesContent(h) <==> IsContentHeader(h)
    ensures IsTransportOwned(h) <==> IsForbidden(h)
  {
    hide Lowered, Spells;
    LoweredSpells(h.name, "content-type");
    LoweredSpells(h.name, "content-encoding");
    LoweredSpells(h.name, "host");
    LoweredSpells(h.name, "content-length");
    LoweredSpells(h.name, "transfer-encoding");
    LoweredSpells(h.name, "connection");
    LoweredSpells(h.name, "upgrade");
    LoweredSpells(h.name, "trailer");
    LoweredSpells(h.name, "te");
    LoweredSpells(h.name, "expect");
    LoweredSpells(h.name, "proxy-authorization");
  }

  ghost function HeaderBytes(headers: seq<Header>): nat {
    if headers == [] then 0 else |headers[0].name| + |headers[0].value| + HeaderBytes(headers[1..])
  }

  ghost predicate IsAllowedHeader(h: Header) {
    h.nameOk && h.valueOk && !IsForbidden(h)
  }

  ghost predicate HeadersAreFine(headers: seq<Header>, budget: nat) {
    HeaderBytes(headers) <= budget && forall h :: h in headers ==> IsAllowedHeader(h)
  }

  ghost predicate HeaderErrorIsDue(headers: seq<Header>, budget: nat, e: Error) {
    match e
    case HeadersExceedLimit => HeaderBytes(headers) > budget
    case InvalidHeader => exists h :: h in headers && !(h.nameOk && h.valueOk)
    case TransportOwnedHeader => exists h :: h in headers && IsForbidden(h)
    case _ => false
  }

  lemma {:induction false} HeadersAreCheckedExactly(headers: seq<Header>, budget: nat)
    ensures CheckHeaders(headers, budget).None? <==> HeadersAreFine(headers, budget)
    ensures CheckHeaders(headers, budget).Some? ==>
              HeaderErrorIsDue(headers, budget, CheckHeaders(headers, budget).value)
    decreases |headers|
  {
    hide IsForbidden, IsTransportOwned;
    if headers != [] {
      var h, rest := headers[0], headers[1..];
      assert headers == [h] + rest;
      assert forall g :: g in headers <==> g == h || g in rest;
      NamesAreMatchedInAnyCase(h);
      assert HeaderBytes(headers) == |h.name| + |h.value| + HeaderBytes(rest);
      if |h.name| + |h.value| <= budget {
        var left := budget - |h.name| - |h.value|;
        HeadersAreCheckedExactly(rest, left);
        assert HeadersAreFine(headers, budget) <==> IsAllowedHeader(h) && HeadersAreFine(rest, left);
      }
    }
  }

  ghost predicate RequestIsFine(limits: Limits, r: Request) {
    && r.url.length <= limits.maxUrlBytes && |r.body| <= limits.maxRequestBytes
    && |r.headers| <= limits.maxHeaderCount && HeadersAreFine(r.headers, limits.maxHeaderBytes)
    && (r.body != [] ==> r.verb.Post?)
    && r.url.parsed.Some? && !r.url.parsed.value.scheme.OtherScheme? && !r.url.parsed.value.credentials
  }

  ghost predicate RequestErrorIsDue(limits: Limits, r: Request, e: Error) {
    match e
    case RequestExceedsLimit =>
      || r.url.length > limits.maxUrlBytes || |r.body| > limits.maxRequestBytes
      || |r.headers| > limits.maxHeaderCount
    case BodyNotAllowed => r.body != [] && !r.verb.Post?
    case InvalidUrl => r.url.parsed.None?
    case SchemeOrCredentials =>
      r.url.parsed.Some? && (r.url.parsed.value.scheme.OtherScheme? || r.url.parsed.value.credentials)
    case _ => HeaderErrorIsDue(r.headers, limits.maxHeaderBytes, e)
  }

  /** Which requests are sent at all, and why the others are not. */
  lemma RequestsAreCheckedExactly(limits: Limits, r: Request)
    ensures CheckRequest(limits, r).None? <==> RequestIsFine(limits, r)
    ensures CheckRequest(limits, r).Some? ==> RequestErrorIsDue(limits, r, CheckRequest(limits, r).value)
  {
    hide CheckHeaders, HeadersAreFine;
    HeadersAreCheckedExactly(r.headers, limits.maxHeaderBytes);
  }

  lemma {:induction false} SublistsAreLighter(xs: seq<Header>, ys: seq<Header>)
    requires IsSublist(xs, ys)
    ensures |xs| <= |ys| && HeaderBytes(xs) <= HeaderBytes(ys) && forall h :: h in xs ==> h in ys
    decreases |ys|
  {
    if xs != [] {
      assert xs == [xs[0]] + xs[1..] && ys == [ys[0]] + ys[1..];
      if xs[0] == ys[0] && IsSublist(xs[1..], ys[1..]) {
        SublistsAreLighter(xs[1..], ys[1..]);
      } else {
        SublistsAreLighter(xs, ys[1..]);
      }
    }
  }

  /** Exactly the headers that do not describe content are left. */
  lemma {:induction false} StrippingIsExact(headers: seq<Header>)
    ensures forall h :: multiset(WithoutContentHeaders(headers))[h]
                        == if IsContentHeader(h) then 0 else multiset(headers)[h]
    decreases |headers|
  {
    hide IsContentHeader, DescribesContent;
    if headers != [] {
      var first, rest := headers[0], headers[1..];
      NamesAreMatchedInAnyCase(first);
      StrippingIsExact(rest);
      assert headers == [first] + rest;
      assert WithoutContentHeaders(headers)
          == (if DescribesContent(first) then [] else [first]) + WithoutContentHeaders(rest);
    }
  }

  ghost predicate AtHome(a: Url, b: Url) {
    a.scheme == b.scheme && a.host == b.host && a.port == b.port
  }

  /** The reply to `was` is a redirect, and `next` is what it calls for. */
  ghost predicate RightHop(was: Sent, reply: Reply, next: Sent) {
    && reply.Reply? && reply.status in {301, 302, 303, 307, 308}
    && reply.location.Some? && reply.location.value.utf8 && reply.location.value.joined == Some(next.url)
    && (var becomesGet := was.verb.Post? && reply.status in {301, 302, 303};
        && (becomesGet ==> next.verb.Get? && next.body == [])
        && (!becomesGet ==> next.verb == was.verb && next.body == was.body)
        && (AtHome(next.url, was.url) && !becomesGet ==> next.headers == was.headers)
        && (AtHome(next.url, was.url) && becomesGet ==>
              && IsSublist(next.headers, was.headers)
              && forall h :: multiset(next.headers)[h] == if IsContentHeader(h) then 0 else multiset(was.headers)[h])
        && (!AtHome(next.url, was.url) ==> next.headers == [] && (was.verb.Post? ==> becomesGet)))
  }

  lemma HopsAreRight(limits: Limits, was: Sent, reply: Reply, next: Sent)
    requires reply.Reply? && IsRedirect(reply.status) && reply.location.Some?
    requires NextHop(limits, was, reply.status, reply.location.value).Go?
    requires var r := NextHop(limits, was, reply.status, reply.location.value).next;
             CheckRequest(limits, r).None? && next == OnTheWire(r)
    ensures RightHop(was, reply, next)
  {
    hide CheckHeaders, IsContentHeader, IsSublist, WithoutContentHeaders;
    var crosses := !SameOrigin(next.url, was.url);
    assert crosses <==> !AtHome(next.url, was.url);
    var kept := if crosses then [] else was.headers;
    StrippingIsExact(kept);
    SublistSelf(kept);
    StrippedIsSublist(kept, kept);
    NothingToStrip();
  }

  lemma NothingToStrip()
    ensures WithoutContentHeaders([]) == []
  {
  }

  /** Every request after the first is the one the reply before it calls for. */
  ghost predicate EveryHopIsRight(server: seq<Sent> -> Reply, sent: seq<Sent>) {
    forall i {:trigger sent[..i]} :: 0 < i < |sent| ==> RightHop(sent[i - 1], server(sent[..i]), sent[i])
  }

  lemma FollowingIsRight(limits: Limits, server: seq<Sent> -> Reply, sent: seq<Sent>)
    requires FollowsRedirects(limits, server, sent)
    ensures EveryHopIsRight(server, sent)
  {
    hide RightHop, NextHop, CheckRequest, OnTheWire;
    forall i | 0 < i < |sent|
      ensures RightHop(sent[i - 1], server(sent[..i]), sent[i])
    {
      HopsAreRight(limits, sent[i - 1], server(sent[..i]), sent[i]);
    }
  }

  /** The reply to the last request asks for another. */
  ghost predicate Redirects(limits: Limits, reply: Reply) {
    limits.maxRedirects > 0 && reply.Reply? && reply.status in {301, 302, 303, 307, 308} && reply.location.Some?
  }

  /** The redirect was there, and its target is why it was not followed. */
  ghost predicate TargetIsWhy(limits: Limits, last: Sent, reply: Reply, e: Error) {
    && Redirects(limits, reply)
    && (var to := reply.location.value;
        if e.RedirectUrlTooLong? then to.length > limits.maxUrlBytes
        else
          && to.length <= limits.maxUrlBytes
          && if e.InvalidRedirectUrl? then !to.utf8 || to.joined.None?
             else
               && to.utf8 && to.joined.Some?
               && (var url := to.joined.value;
                   match e
                   case HttpsDowngrade => last.url.scheme.Https? && !url.scheme.Https?
                   case CrossOriginReplay =>
                     last.verb.Post? && reply.status in {307, 308}
                     && (!AtHome(url, last.url) || url.scheme.OtherScheme?)
                   case RequestExceedsLimit => url.length > limits.maxUrlBytes
                   case SchemeOrCredentials => url.scheme.OtherScheme? || url.credentials
                   case _ => false))
  }

  /** Every outcome, by the fields that cause it.  Headers are only ever
      objected to in the caller's own request. */
  ghost predicate OutcomeIsDue(limits: Limits, r: Request, server: seq<Sent> -> Reply, expired: nat -> bool,
                               sent: seq<Sent>, outcome: Outcome) {
    match outcome
    case Ok(reply) =>
      && sent != [] && reply == server(sent) && reply.Reply? && !Redirects(limits, reply)
      && reply.headerCount <= limits.maxHeaderCount && reply.headerBytes <= limits.maxHeaderBytes
      && (reply.declared.Some? && !sent[|sent| - 1].verb.Head? ==> reply.declared.value <= limits.maxBodyBytes)
    case Err(e) =>
      match e
      case DeadlineExpired => expired(|sent|)
      case TransportFailed => sent != [] && server(sent).NoReply?
      case ResponseHeadersExceedLimit =>
        && sent != [] && server(sent).Reply?
        && (server(sent).headerCount > limits.maxHeaderCount || server(sent).headerBytes > limits.maxHeaderBytes)
      case ResponseBodyExceedsLimit =>
        && sent != [] && !sent[|sent| - 1].verb.Head? && server(sent).Reply?
        && server(sent).declared.Some? && server(sent).declared.value > limits.maxBodyBytes
      case RedirectLimitExceeded => |sent| == limits.maxRedirects + 1 && Redirects(limits, server(sent))
      case _ =>
        if sent == [] then RequestErrorIsDue(limits, r, e)
        else TargetIsWhy(limits, sent[|sent| - 1], server(sent), e)
  }

  lemma OutcomesAreDue(limits: Limits, r: Request, server: seq<Sent> -> Reply, expired: nat -> bool,
                       sent: seq<Sent>, outcome: Outcome)
    requires StopsBecause(limits, r, server, expired, sent, outcome) && |sent| <= limits.maxRedirects + 1
    requires sent != [] ==> Keeps(limits, r, sent) && CheckRequest(limits, r).None?
    ensures OutcomeIsDue(limits, r, server, expired, sent, outcome)
  {
    hide CheckRequest, StayedHome, IsSublist, RequestErrorIsDue, HeaderErrorIsDue, NextHop, SameOrigin;
    RequestsAreCheckedExactly(limits, r);
    RequestErrorsAreKnown(limits, r);
    if sent != [] && IsSentOn(limits, server, sent) && |sent| <= limits.maxRedirects {
      HopOutcomesAreDue(limits, r, sent[|sent| - 1], server(sent));
    }
  }

  /** A request is refused for one of seven reasons. */
  lemma RequestErrorsAreKnown(limits: Limits, r: Request)
    ensures var e := CheckRequest(limits, r);
            e.Some? ==> !(e.value.DeadlineExpired? || e.value.TransportFailed? || e.value.ResponseHeadersExceedLimit?
                          || e.value.ResponseBodyExceedsLimit? || e.value.RedirectLimitExceeded?)
  {
    hide CheckHeaders;
    RequestsAreCheckedExactly(limits, r);
  }

  lemma HopOutcomesAreDue(limits: Limits, r: Request, last: Sent, reply: Reply)
    requires Redirects(limits, reply) && Allowed(limits, r, last) && CheckRequest(limits, r).None?
    ensures var hop := NextHop(limits, last, reply.status, reply.location.value);
            && (hop.Refuse? ==> TargetIsWhy(limits, last, reply, hop.error))
            && (hop.Go? && CheckRequest(limits, hop.next).Some? ==>
                  TargetIsWhy(limits, last, reply, CheckRequest(limits, hop.next).value))
  {
    hide CheckHeaders, WithoutContentHeaders, IsSublist;
    var hop := NextHop(limits, last, reply.status, reply.location.value);
    if hop.Go? {
      SublistSelf(last.headers);
      StrippedIsSublist(last.headers, r.headers);
      NothingToStrip();
      EmptyIsSublist(r.headers);
      HeadersStayFine(limits, r, hop.next.headers);
    }
  }

  lemma EmptyIsSublist(ys: seq<Header>)
    ensures IsSublist([], ys)
  {
  }

  lemma HeadersStayFine(limits: Limits, r: Request, headers: seq<Header>)
    requires CheckRequest(limits, r).None? && IsSublist(headers, r.headers)
    ensures |headers| <= limits.maxHeaderCount && CheckHeaders(headers, limits.maxHeaderBytes).None?
  {
    hide CheckHeaders, IsForbidden, IsSublist, HeaderBytes;
    HeadersAreCheckedExactly(r.headers, limits.maxHeaderBytes);
    SublistsAreLighter(headers, r.headers);
    HeadersAreCheckedExactly(headers, limits.maxHeaderBytes);
  }

  /** The whole exchange.  Against any server and clock: a bounded number of
      requests, each the one its predecessor's redirect calls for; HTTPS is
      never left; headers and body never follow a change of origin; headers
      only ever shrink; a POST that became a GET stays one; and the outcome is
      due to the last request and its reply. */
  method Execute(limits: Limits, r: Request, server: seq<Sent> -> Reply, expired: nat -> bool)
    returns (outcome: Outcome, sent: seq<Sent>)
    ensures |sent| <= limits.maxRedirects + 1
    ensures Keeps(limits, r, sent)
    ensures FollowsRedirects(limits, server, sent)
    ensures sent != [] ==> CheckRequest(limits, r).None? && sent[0] == OnTheWire(r)
    ensures outcome.Ok? ==> sent != [] && outcome.reply == server(sent) && IsFinal(limits, outcome.reply)
    ensures StopsBecause(limits, r, server, expired, sent, outcome)
    ensures EveryHopIsRight(server, sent)
    ensures OutcomeIsDue(limits, r, server, expired, sent, outcome)
  {
    hide Keeps, Carries, FollowsRedirects, CheckHeaders, EveryHopIsRight, OutcomeIsDue;
    sent := [];
    var next := r;
    NothingSentYet(limits, r, server);
    for hop := 0 to limits.maxRedirects + 1
      invariant |sent| == hop
      invariant Keeps(limits, r, sent) && Carries(limits, r, sent, next)
      invariant FollowsRedirects(limits, server, sent)
      invariant sent != [] ==> CheckRequest(limits, r).None? && sent[0] == OnTheWire(r)
      invariant Pending(limits, r, server, sent) == Some(next)
      invariant hop <= limits.maxRedirects
    {
      ghost var before := sent;
      if CheckRequest(limits, next).None? {
        SendingKeeps(limits, r, sent, next);
        SendingFollows(limits, r, server, sent, next);
      }
      outcome, sent := ExecuteOnce(limits, next, server, expired(hop), sent);
      if outcome.Err? {
        break;
      }
      var reply := outcome.reply;
      if limits.maxRedirects == 0 || !IsRedirect(reply.status) || reply.location.None? {
        break;
      }
      if hop == limits.maxRedirects {
        outcome := Err(RedirectLimitExceeded);
        break;
      }
      match NextHop(limits, OnTheWire(next), reply.status, reply.location.value) {
        case Refuse(e) =>
          outcome := Err(e);
          break;
        case Go(request) =>
          HopCarries(limits, r, sent, reply.status, reply.location.value);
          next := request;
      }
    }
    assert StopsBecause(limits, r, server, expired, sent, outcome);
    FollowingIsRight(limits, server, sent);
    OutcomesAreDue(limits, r, server, expired, sent, outcome);
  }

  lemma SendingFollows(limits: Limits, r: Request, server: seq<Sent> -> Reply, sent: seq<Sent>, next: Request)
    requires FollowsRedirects(limits, server, sent) && CheckRequest(limits, next).None?
    requires Pending(limits, r, server, sent) == Some(next)
    ensures FollowsRedirects(limits, server, sent + [OnTheWire(next)])
  {
    hide CheckHeaders, WithoutContentHeaders, SameOrigin;
    var all := sent + [OnTheWire(next)];
    forall i | 0 < i < |all|
      ensures all[..i] == sent[..i]
    {
    }
    assert all[..|sent|] == sent;
  }
}
