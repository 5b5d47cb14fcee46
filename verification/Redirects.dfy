/** Redirects from end to end: which commands a configured node serves or redirects (internal/server/handler.go over
    internal/server/state.go), and what the Go client makes of the reply (pkg/protocol/encoder.go, pkg/client/client.go). */
module Redirects {
  import opened Options
  import opened Decimal
  import opened Resp
  import opened Commands
  import opened Connections
  import S = Routing
  import P = PubSub

  // ----- the server's side

  /** The text after the dash. */
  function MovedText(node: string, address: string): string {
    "MOVED " + node + " " + address
  }

  /** The redirects of a node with this view of the cluster. */
  function RouteOf(view: S.View, owner: S.Owner, me: string): Route {
    (key, isWrite) =>
      match S.Decide(view, owner, me, key, isWrite)
      case Local => None
      case Moved(node, address) => Some(ErrorReply(MovedText(node, address)))
  }

  /** A SET or DEL of a key that a configured shard owns runs on the leader of that shard and nowhere else: any other
      node of the cluster answers with the leader's name and address, and is left as it was. A GET runs on
      every node of the shard, and is redirected to the leader by all others. */
  lemma DataCommand(set_: Setting, view: S.View, owner: S.Owner, me: string, k: int, sv: Server, c: P.Conn, cmd: Request,
                    clock: nat -> int, other: string)
    requires S.Configured(view) && S.ShardOf(view.shards, me).Some?
    requires |cmd| >= 2 && cmd[1] != "" && cmd[0] in {"SET", "GET", "DEL"} && S.OwnedBy(view, owner, cmd[1], k)
    requires c in sv.sessions && sv.sessions[c] == IDLE
    ensures var s, r := view.shards[k], Handle(set_, RouteOf(view, owner, me), sv, c, cmd, clock, other);
            if (if cmd[0] == "GET" then S.In(me, s) else me == s.leader) then
              var (n, reply) := Serve(set_, sv.node, cmd, clock(0)); r == Some((sv.(node := n), reply))
            else
              exists address :: S.AddressOf(view.nodes, s.leader, address) && r == Some((sv, "-MOVED " + s.leader + " " + address + CRLF))
  {
    var route, s := RouteOf(view, owner, me), view.shards[k];
    var isWrite := cmd[0] == "SET" || cmd[0] == "DEL";
    var d := S.Decide(view, owner, me, cmd[1], isWrite);
    S.ServedByOwner(view, owner, me, cmd[1], isWrite);
    ControlNames(cmd[0]);
    hide S.Decide, S.Configured, S.AddressOf, Serve, Handle, S.ShardOf, CanQueue;
    HandleDirect(set_, route, sv, c, cmd, clock, other);
    if d.Moved? {
      assert sv.(node := sv.node) == sv;
      MovedReply(d.node, d.address);
    }
  }

  lemma MovedReply(node: string, address: string)
    ensures ErrorReply(MovedText(node, address)) == "-MOVED " + node + " " + address + CRLF
  {
    assert "-" + "MOVED " == "-MOVED ";
    assert "-" + ("MOVED " + node + " " + address) == "-MOVED " + node + " " + address;
  }

  // ----- the client's side

  function TrimPrefix(s: string, prefix: string): string {
    if prefix <= s then s[|prefix|..] else s
  }

  function TrimSuffix(s: string, suffix: string): string {
    if |suffix| <= |s| && s[|s| - |suffix|..] == suffix then s[..|s| - |suffix|] else s
  }

  /** strings.Split at a character. */
  function Split(s: string, c: char): (parts: seq<string>)
    ensures parts != []
  {
    var i := Find(s, c);
    if i == |s| then [s] else [s[..i]] + Split(s[i + 1..], c)
  }

  predicate IsRedirect(response: string) {
    "MOVED" <= response || "-MOVED" <= response
  }

  /** Host and port of a redirect, or an error. */
  function ParseRedirect(response: string): Option<(string, string)> {
    if !IsRedirect(response) then None
    else
      HostAndPort(Split(TrimSuffix(TrimPrefix(TrimPrefix(response, "-MOVED "), "MOVED "), CRLF), ':'))
  }

  function HostAndPort(parts: seq<string>): Option<(string, string)> {
    if |parts| != 2 || parts[0] == "" || parts[1] == "" || Atoi(parts[1]).None? then None else Some((parts[0], parts[1]))
  }

  lemma ParsedBody(body: string)
    requires body == "" || body[|body| - 1] != '\n'
    ensures ParseRedirect("MOVED " + body) == HostAndPort(Split(body, ':'))
  {
    hide Split, HostAndPort;
    var response := "MOVED " + body;
    assert response[0] == 'M' && response[..6] == "MOVED " && response[6..] == body;
    assert response[..5] == "MOVED";
    assert !("-MOVED " <= response) by {
      assert "-MOVED "[0] == '-';
    }
    assert |body| >= 2 ==> body[|body| - 2..][1] == body[|body| - 1];
  }

  lemma {:induction false} SplitHostPort(host: string, port: string)
    requires ':' !in port
    ensures Split(host + ":" + port, ':') == [host, port] <==> ':' !in host
    ensures ':' in host ==> |Split(host + ":" + port, ':')| != 2
  {
    var s := host + ":" + port;
    if ':' !in host {
      FindIs(s, ':', |host|);
      assert s[..|host|] == host && s[|host| + 1..] == port;
      FindNone(port, ':');
    } else {
      var i := Find(host, ':');
      assert host[..|host|] == host;
      assert s[..i] == host[..i] && s[i] == ':';
      FindIs(s, ':', i);
      var more := host[i + 1..];
      assert s[i + 1..] == more + ":" + port;
      SplitHostPort(more, port);
      SplitLonger(more, port);
    }
  }

  lemma SplitLonger(host: string, port: string)
    ensures |Split(host + ":" + port, ':')| >= 2
  {
    var s := host + ":" + port;
    assert s[|host|] == ':';
    assert s[..|s|] == s;
  }

  lemma PortPlain(port: int)
    requires MIN_INT <= port <= MAX_INT
    ensures IsPort(Itoa(port))
  {
    AtoiItoa(port);
  }

  predicate IsPort(p: string) {
    p != "" && ':' !in p && Atoi(p).Some? && p[|p| - 1] !in CRLF
  }

  lemma Target(host: string, p: string)
    requires IsPort(p)
    ensures HostAndPort(Split(host + ":" + p, ':')) == if host != "" && ':' !in host then Some((host, p)) else None
  {
    SplitHostPort(host, p);
    hide Split, Atoi;
  }

  /** What the client makes of any text before a colon and a port. */
  lemma ParsedTarget(host: string, port: int)
    requires MIN_INT <= port <= MAX_INT
    ensures ParseRedirect("MOVED " + host + ":" + Itoa(port))
         == if host != "" && ':' !in host then Some((host, Itoa(port))) else None
  {
    PortPlain(port);
    var p := Itoa(port);
    hide Split, Atoi, Itoa, ParseRedirect, HostAndPort;
    var body := host + ":" + p;
    assert body[|body| - 1] == p[|p| - 1] && CRLF[1] == '\n';
    assert "MOVED " + host + ":" + p == "MOVED " + body;
    ParsedBody(body);
    Target(host, p);
  }

  /** A redirect as EncodeRedirect writes it is understood exactly if the host is not empty and has no colon. */
  lemma RedirectRoundTrip(host: string, port: int)
    requires MIN_INT <= port <= MAX_INT
    ensures ParseRedirect("MOVED " + host + ":" + Itoa(port)) == Some((host, Itoa(port))) <==> host != "" && ':' !in host
  {
    hide ParseRedirect, Itoa;
    ParsedTarget(host, port);
  }

  lemma StaysOut(word: string, a: string, b: string)
    requires !(word <= a) && b != "" && b[0] !in word
    ensures !(word <= a + b)
  {
    if |word| <= |a| {
      assert (a + b)[..|word|] == a[..|word|];
    } else {
      assert (a + b)[|a|] == b[0];
    }
  }

  lemma RawBody(body: string)
    requires |body| >= 1 && body[|body| - 1] != '\r'
    ensures ParseRedirect("-MOVED " + body + CRLF) == HostAndPort(Split(TrimPrefix(body, "MOVED "), ':'))
  {
    hide Split, HostAndPort;
    var word, tail := "MOVED ", body + CRLF;
    var response := "-MOVED " + body + CRLF;
    assert response == "-MOVED " + tail && response[..7] == "-MOVED " && response[7..] == tail;
    assert response[..6] == "-MOVED";
    if word <= body {
      assert tail[..6] == body[..6] && tail[6..] == body[6..] + CRLF;
      TrimCrlf(body[6..]);
    } else {
      StaysOut(word, body, CRLF);
      TrimCrlf(body);
    }
  }

  lemma TrimCrlf(s: string)
    ensures TrimSuffix(s + CRLF, CRLF) == s
  {
    assert (s + CRLF)[|s|..] == CRLF && (s + CRLF)[..|s|] == s;
  }

  /** The same for the bytes as they come off the wire, unless the host itself begins with the word. */
  lemma RawRedirect(host: string, port: int)
    requires MIN_INT <= port <= MAX_INT
    ensures ParseRedirect("-MOVED " + host + ":" + Itoa(port) + CRLF) == Some((host, Itoa(port)))
      <==> host != "" && ':' !in host && !("MOVED " <= host)
  {
    PortPlain(port);
    hide ParseRedirect, IsPort, Itoa;
    RawTarget(host, Itoa(port));
  }

  lemma RawTarget(host: string, p: string)
    requires IsPort(p)
    ensures ParseRedirect("-MOVED " + host + ":" + p + CRLF) == Some((host, p)) <==> host != "" && ':' !in host && !("MOVED " <= host)
  {
    hide Split, Atoi, ParseRedirect, HostAndPort;
    var body := host + ":" + p;
    assert "-MOVED " + host + ":" + p + CRLF == "-MOVED " + body + CRLF;
    assert body[|body| - 1] == p[|p| - 1] && CRLF[0] == '\r';
    RawBody(body);
    RawTrimmed(host, p);
    Target(host, p);
    if "MOVED " <= host {
      Target(host[6..], p);
    }
  }

  lemma RawTrimmed(host: string, p: string)
    ensures TrimPrefix(host + ":" + p, "MOVED ") == (if "MOVED " <= host then host[6..] else host) + ":" + p
  {
    var word, body := "MOVED ", host + ":" + p;
    if word <= host {
      assert body[..6] == host[..6] && body[6..] == host[6..] + ":" + p;
    } else {
      StaysOut(word, host, ":" + p);
      assert body == host + (":" + p);
    }
  }

  /** The redirects of this server are never understood: the node's name comes between, and is taken for a part of the
      host, so the client fails or dials another address than the leader's. */
  lemma ServerRedirectMisread(node: string, host: string, port: int)
    requires MIN_INT <= port <= MAX_INT
    ensures var r := ParseRedirect(MovedText(node, host + ":" + Itoa(port)));
            && (r.Some? <==> ':' !in node && ':' !in host)
            && (r.Some? ==> r.value == (node + " " + host, Itoa(port)) && r.value.0 != host)
  {
    hide ParseRedirect, Itoa;
    assert MovedText(node, host + ":" + Itoa(port)) == "MOVED " + (node + " " + host) + ":" + Itoa(port);
    ParsedTarget(node + " " + host, port);
    assert ':' in node + " " + host <==> ':' in node || ':' in host;
    assert |node + " " + host| > |host|;
  }

  /** A leader that is not among the configured nodes has no address; the client then fails too. */
  lemma NoAddressMisread(node: string)
    requires ':' !in node
    ensures ParseRedirect(MovedText(node, "")) == None
  {
    hide ParseRedirect;
    var body := node + " ";
    assert MovedText(node, "") == "MOVED " + body && body[|body| - 1] == ' ';
    ParsedBody(body);
    FindNone(body, ':');
  }

  /** What a GET returns to the caller of the Go client, if it is not taken for a redirect. */
  function ReturnedByGet(reply: Value): Option<string> {
    if reply.Str? && !IsRedirect(reply.s) then Some(reply.s) else None
  }

  /** A stored value reaches the caller exactly if it does not begin like a redirect, and a missing key reads as the empty
      string, like a key with an empty value. */
  lemma ValueReturned(v: string, rest: string)
    requires |v| <= MAX_INT
    ensures var r := Parse(Encode(Bulk(v)) + rest);
            r.Ok? && r.rest == rest && (ReturnedByGet(r.value) == Some(v) <==> !("MOVED" <= v || "-MOVED" <= v))
    ensures var r := Parse(Encode(NullBulk) + rest); r.Ok? && r.rest == rest && ReturnedByGet(r.value) == Some("")
  {
    hide Parse, Encode;
    ParseEncode(Bulk(v), rest);
    ParseEncode(NullBulk, rest);
  }
}
