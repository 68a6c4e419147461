/** Discovery's cache of announced nodes: NodeDetected and CleanDiscoveredNodes. */
module DiscoveryCache {
  import opened Numbers
  import opened Messages
  import opened Results

  const ANY_NODE: NodeID := [0, 0, 0, 0, 0, 0, 0, 0, 0, 0, 0, 0, 0, 0, 0, 0]

  /** Times are in microseconds. */
  datatype DiscoveryUrl = DiscoveryUrl(url: Bytes, lastAnnounceTime: int)

  datatype NodeDiscoveryInfo = NodeDiscoveryInfo(nodeID: NodeID, nodeName: Bytes, urls: seq<DiscoveryUrl>, nonce: Bytes)

  datatype NodeStorage = NodeStorage(info: NodeDiscoveryInfo, recentNonces: seq<Bytes>)

  /** An announcement that has been accepted: this node was at this URL at this time. */
  datatype Announcement = Announcement(nodeID: NodeID, url: Bytes, time: int)

  type Parser = Bytes -> Option<NodeID>   // the node id that ParseConnectionURL finds, if any

  predicate ValidUrl(parse: Parser, id: NodeID, url: Bytes)
  {
    |url| <= 256 && parse(url) == Some(id)
  }

  /** total_milliseconds truncates. */
  function TotalMilliseconds(d: int): int { if d >= 0 then d / 1000 else -(-d / 1000) }

  predicate IsFresh(u: DiscoveryUrl, now: int) { TotalMilliseconds(now - u.lastAnnounceTime) < 60000 }

  lemma FreshWithinAMinute(u: DiscoveryUrl, now: int)
    ensures IsFresh(u, now) <==> now - u.lastAnnounceTime < 60_000_000
  {
  }

  // ---------------------------------------------------------------- the URLs of one node

  function Fresh(urls: seq<DiscoveryUrl>, now: int): seq<DiscoveryUrl>
  {
    if urls == [] then [] else (if IsFresh(urls[0], now) then [urls[0]] else []) + Fresh(urls[1..], now)
  }

  function Valids(parse: Parser, id: NodeID, urls: seq<DiscoveryUrl>): seq<DiscoveryUrl>
  {
    if urls == [] then []
    else (if ValidUrl(parse, id, urls[0].url) then [urls[0]] else []) + Valids(parse, id, urls[1..])
  }

  lemma {:induction false} FreshMembers(urls: seq<DiscoveryUrl>, now: int)
    ensures forall u :: u in Fresh(urls, now) <==> u in urls && IsFresh(u, now)
  {
    hide IsFresh;
    if urls != [] {
      FreshMembers(urls[1..], now);
      assert urls == [urls[0]] + urls[1..];
    }
  }

  lemma {:induction false} ValidsMembers(parse: Parser, id: NodeID, urls: seq<DiscoveryUrl>)
    ensures forall u :: u in Valids(parse, id, urls) <==> u in urls && ValidUrl(parse, id, u.url)
  {
    hide ValidUrl;
    if urls != [] {
      ValidsMembers(parse, id, urls[1..]);
      assert urls == [urls[0]] + urls[1..];
    }
  }

  lemma NoValids(parse: Parser, id: NodeID)
    ensures Valids(parse, id, []) == []
  {
  }

  /** The step of the erasing loop. */
  lemma NextUrl(parse: Parser, id: NodeID, kept: seq<DiscoveryUrl>, rest: seq<DiscoveryUrl>)
    requires rest != []
    ensures (kept + rest)[|kept|] == rest[0]
    ensures kept + rest == (kept + [rest[0]]) + rest[1..]
    ensures (kept + rest)[..|kept|] + (kept + rest)[|kept| + 1..] == kept + rest[1..]
    ensures kept + Valids(parse, id, rest) ==
            (if ValidUrl(parse, id, rest[0].url) then kept + [rest[0]] else kept) + Valids(parse, id, rest[1..])
  {
    hide ValidUrl;
    var more := Valids(parse, id, rest[1..]);
    TakenOut(kept, rest);
    Associative(kept, [rest[0]], more);
    assert [] + more == more;
  }

  lemma TakenOut<T>(a: seq<T>, b: seq<T>)
    requires b != []
    ensures (a + b)[|a|] == b[0] && a + b == (a + [b[0]]) + b[1..]
    ensures (a + b)[..|a|] + (a + b)[|a| + 1..] == a + b[1..]
  {
    assert (a + b)[..|a|] == a && (a + b)[|a| + 1..] == b[1..];
  }

  lemma Associative<T>(a: seq<T>, b: seq<T>, c: seq<T>)
    ensures a + (b + c) == (a + b) + c
  {
  }

  predicate HasUrl(urls: seq<DiscoveryUrl>, url: Bytes) { exists k :: 0 <= k < |urls| && urls[k].url == url }

  /** The cache knows of an announcement of the URL at that time or later. */
  predicate Covers(urls: seq<DiscoveryUrl>, url: Bytes, time: int)
  {
    exists k :: 0 <= k < |urls| && urls[k].url == url && urls[k].lastAnnounceTime >= time
  }

  predicate AllValid(parse: Parser, id: NodeID, urls: seq<DiscoveryUrl>)
  {
    forall k :: 0 <= k < |urls| ==> ValidUrl(parse, id, urls[k].url)
  }

  // ---------------------------------------------------------------- invariants of one node

  predicate Distinct(nonces: seq<Bytes>)
  {
    forall i, j :: 0 <= i < j < |nonces| ==> nonces[i] != nonces[j]
  }

  predicate GoodNonces(s: NodeStorage)
  {
    Distinct(s.recentNonces) && |s.recentNonces| <= 16 && s.info.nonce in s.recentNonces
  }

  predicate GoodNode(parse: Parser, id: NodeID, s: NodeStorage)
  {
    && id != ANY_NODE && s.info.nodeID == id && s.info.urls != [] && AllValid(parse, id, s.info.urls)
    && |s.info.nodeName| <= 128 && |s.info.nonce| <= 32
    && GoodNonces(s)
  }

  /** What is cached of a node comes from accepted announcements. */
  ghost predicate Traced(id: NodeID, urls: seq<DiscoveryUrl>, accepted: set<Announcement>)
  {
    forall u :: u in urls ==> Announcement(id, u.url, u.lastAnnounceTime) in accepted
  }

  /** The accepted announcements an info brings. */
  function Brings(parse: Parser, info: NodeDiscoveryInfo): set<Announcement>
  {
    set u | u in info.urls && ValidUrl(parse, info.nodeID, u.url) ::
        Announcement(info.nodeID, u.url, u.lastAnnounceTime)
  }

  /** An info brings exactly those of its URLs that are no longer than 256 bytes and name its node. */
  lemma BringsNamed(parse: Parser, info: NodeDiscoveryInfo, a: Announcement)
    ensures a in Brings(parse, info) <==>
            && a.nodeID == info.nodeID && |a.url| <= 256 && parse(a.url) == Some(info.nodeID)
            && DiscoveryUrl(a.url, a.time) in info.urls
  {
  }

  // ---------------------------------------------------------------- one announced URL of a known node

  /** The loop over the cached URLs for one announced URL: a later time replaces an earlier one. */
  function Updated(urls: seq<DiscoveryUrl>, e: DiscoveryUrl): (r: seq<DiscoveryUrl>)
    ensures |r| == |urls|
  {
    seq(|urls|, k requires 0 <= k < |urls| =>
        if urls[k].url == e.url && e.lastAnnounceTime > urls[k].lastAnnounceTime then e else urls[k])
  }

  lemma NothingUpdated(urls: seq<DiscoveryUrl>, e: DiscoveryUrl)
    requires !HasUrl(urls, e.url)
    ensures Updated(urls, e) == urls
  {
  }

  function Merged(parse: Parser, id: NodeID, urls: seq<DiscoveryUrl>, e: DiscoveryUrl): seq<DiscoveryUrl>
  {
    if HasUrl(urls, e.url) then Updated(urls, e)
    else if ValidUrl(parse, id, e.url) then urls + [e]
    else urls
  }

  function MergedAll(parse: Parser, id: NodeID, urls: seq<DiscoveryUrl>, es: seq<DiscoveryUrl>): seq<DiscoveryUrl>
    decreases |es|
  {
    if es == [] then urls else Merged(parse, id, MergedAll(parse, id, urls, es[..|es| - 1]), es[|es| - 1])
  }

  /** Merging keeps what is known, adds what is valid, and nothing else. */
  lemma MergedKnows(parse: Parser, id: NodeID, urls: seq<DiscoveryUrl>, e: DiscoveryUrl)
    requires AllValid(parse, id, urls) && urls != []
    ensures var r := Merged(parse, id, urls, e);
            && AllValid(parse, id, r) && r != []
            && (forall u :: u in r ==> u in urls || (u == e && ValidUrl(parse, id, e.url)))
            && (forall url, time :: Covers(urls, url, time) ==> Covers(r, url, time))
            && (ValidUrl(parse, id, e.url) ==> Covers(r, e.url, e.lastAnnounceTime))
  {
    var r := Merged(parse, id, urls, e);
    if HasUrl(urls, e.url) {
      var k :| 0 <= k < |urls| && urls[k].url == e.url;
      assert r[k].lastAnnounceTime >= e.lastAnnounceTime;
      forall url, time | Covers(urls, url, time) ensures Covers(r, url, time) {
        var j :| 0 <= j < |urls| && urls[j].url == url && urls[j].lastAnnounceTime >= time;
        assert r[j].url == url;
      }
    } else if ValidUrl(parse, id, e.url) {
      assert r[|urls|] == e;
      forall url, time | Covers(urls, url, time) ensures Covers(r, url, time) {
        var j :| 0 <= j < |urls| && urls[j].url == url && urls[j].lastAnnounceTime >= time;
        assert r[j] == urls[j];
      }
    }
  }

  lemma {:induction false} MergedAllKnows(parse: Parser, id: NodeID, urls: seq<DiscoveryUrl>, es: seq<DiscoveryUrl>)
    requires AllValid(parse, id, urls) && urls != []
    ensures var r := MergedAll(parse, id, urls, es);
            && AllValid(parse, id, r) && r != []
            && (forall u :: u in r ==> u in urls || (u in es && ValidUrl(parse, id, u.url)))
            && (forall url, time :: Covers(urls, url, time) ==> Covers(r, url, time))
            && (forall e :: e in es && ValidUrl(parse, id, e.url) ==> Covers(r, e.url, e.lastAnnounceTime))
    decreases |es|
  {
    hide Merged, Covers, AllValid, ValidUrl;
    if es != [] {
      var front, last := es[..|es| - 1], es[|es| - 1];
      MergedAllKnows(parse, id, urls, front);
      MergedKnows(parse, id, MergedAll(parse, id, urls, front), last);
      assert forall e :: e in es ==> e in front || e == last;
    }
  }

  // ---------------------------------------------------------------- nonces

  /** A new nonce is pushed, and the oldest of more than 16 dropped. */
  function PushNonce(nonces: seq<Bytes>, nonce: Bytes): seq<Bytes>
  {
    var pushed := nonces + [nonce];
    if |pushed| > 16 then pushed[1..] else pushed
  }

  lemma PushedNonces(nonces: seq<Bytes>, nonce: Bytes)
    requires Distinct(nonces) && |nonces| <= 16 && nonce !in nonces
    ensures var r := PushNonce(nonces, nonce); Distinct(r) && |r| <= 16 && nonce in r
  {
    var pushed := nonces + [nonce];
    assert pushed[|nonces|] == nonce;
    if |pushed| > 16 {
      assert pushed[1..][|nonces| - 1] == nonce;
    }
  }

  // ---------------------------------------------------------------- invariants of the cache

  type Nodes = map<NodeID, NodeStorage>

  /** An accepted announcement is cached, unless a cleaning has found it a minute old. */
  ghost predicate Remembered(nodes: Nodes, cleanedAt: int, a: Announcement)
  {
    || (a.nodeID in nodes && Covers(nodes[a.nodeID].info.urls, a.url, a.time))
    || cleanedAt - a.time >= 60_000_000
  }

  ghost predicate Sound(parse: Parser, nodes: Nodes, accepted: set<Announcement>)
  {
    forall id :: id in nodes ==> GoodNode(parse, id, nodes[id]) && Traced(id, nodes[id].info.urls, accepted)
  }

  ghost predicate Faithful(parse: Parser, nodes: Nodes, accepted: set<Announcement>, cleanedAt: int)
  {
    && Sound(parse, nodes, accepted)
    && forall a :: a in accepted ==> Remembered(nodes, cleanedAt, a)
  }

  predicate Admits(info: NodeDiscoveryInfo)
  {
    info.nodeID != ANY_NODE && |info.nonce| <= 32 && |info.nodeName| <= 128
  }

  /** A node that is not cached yet. */
  function NewNode(parse: Parser, info: NodeDiscoveryInfo): NodeStorage
  {
    NodeStorage(info.(urls := Valids(parse, info.nodeID, info.urls)), [info.nonce])
  }

  /** A cached node after another announcement; an announcement without a nonce keeps the one before. */
  function Renewed(parse: Parser, s: NodeStorage, info: NodeDiscoveryInfo): NodeStorage
  {
    NodeStorage(
      s.info.(urls := MergedAll(parse, info.nodeID, s.info.urls, info.urls),
              nonce := if info.nonce == [] then s.info.nonce else info.nonce),
      if info.nonce == [] || info.nonce in s.recentNonces then s.recentNonces
          else PushNonce(s.recentNonces, info.nonce))
  }

  lemma ValidsKnow(parse: Parser, id: NodeID, urls: seq<DiscoveryUrl>)
    ensures AllValid(parse, id, Valids(parse, id, urls))
    ensures forall u :: u in urls && ValidUrl(parse, id, u.url) ==>
              Covers(Valids(parse, id, urls), u.url, u.lastAnnounceTime)
  {
    hide ValidUrl;
    var r := Valids(parse, id, urls);
    ValidsMembers(parse, id, urls);
    assert forall k :: 0 <= k < |r| ==> r[k] in r;
  }

  /** A new entry for one node, made of what was known and of what the info brings, keeps the cache faithful. */
  lemma EntryKeepsFaithful(parse: Parser, nodes: Nodes, accepted: set<Announcement>, cleanedAt: int,
                           info: NodeDiscoveryInfo, s: NodeStorage)
    requires Faithful(parse, nodes, accepted, cleanedAt) && GoodNode(parse, info.nodeID, s)
    requires Traced(info.nodeID, s.info.urls, accepted + Brings(parse, info))
    requires info.nodeID in nodes ==>
               forall url, time :: Covers(nodes[info.nodeID].info.urls, url, time) ==> Covers(s.info.urls, url, time)
    requires forall u :: u in info.urls && ValidUrl(parse, info.nodeID, u.url) ==>
              Covers(s.info.urls, u.url, u.lastAnnounceTime)
    ensures Faithful(parse, nodes[info.nodeID := s], accepted + Brings(parse, info), cleanedAt)
  {
    hide GoodNode, ValidUrl, Covers;
    var next := nodes[info.nodeID := s];
    var more := accepted + Brings(parse, info);
    forall id | id in next ensures GoodNode(parse, id, next[id]) && Traced(id, next[id].info.urls, more) {
    }
    forall a | a in more ensures Remembered(next, cleanedAt, a) {
      if a in accepted {
        assert Remembered(nodes, cleanedAt, a);
      }
    }
  }

  lemma NewNodeKeepsFaithful(parse: Parser, nodes: Nodes, accepted: set<Announcement>, cleanedAt: int,
                             info: NodeDiscoveryInfo)
    requires Faithful(parse, nodes, accepted, cleanedAt) && Admits(info) && info.nodeID !in nodes
    requires Valids(parse, info.nodeID, info.urls) != []
    ensures Faithful(parse, nodes[info.nodeID := NewNode(parse, info)], accepted + Brings(parse, info), cleanedAt)
  {
    hide ValidUrl, Faithful;
    ValidsKnow(parse, info.nodeID, info.urls);
    ValidsMembers(parse, info.nodeID, info.urls);
    assert info.nonce in [info.nonce];
    EntryKeepsFaithful(parse, nodes, accepted, cleanedAt, info, NewNode(parse, info));
  }

  lemma RenewedKeepsFaithful(parse: Parser, nodes: Nodes, accepted: set<Announcement>, cleanedAt: int,
                             info: NodeDiscoveryInfo)
    requires Faithful(parse, nodes, accepted, cleanedAt) && Admits(info) && info.nodeID in nodes
    ensures Faithful(parse, nodes[info.nodeID := Renewed(parse, nodes[info.nodeID], info)], accepted
                     + Brings(parse, info), cleanedAt)
  {
    hide ValidUrl, Covers, MergedAll, PushNonce, Distinct;
    var id, s := info.nodeID, nodes[info.nodeID];
    MergedAllKnows(parse, id, s.info.urls, info.urls);
    if info.nonce != [] && info.nonce !in s.recentNonces {
      PushedNonces(s.recentNonces, info.nonce);
    }
    EntryKeepsFaithful(parse, nodes, accepted, cleanedAt, info, Renewed(parse, s, info));
  }

  /** What cleaning leaves of a node. */
  function Cleaned(s: NodeStorage, now: int): NodeStorage
  {
    s.(info := s.info.(urls := Fresh(s.info.urls, now)))
  }

  predicate Survives(s: NodeStorage, now: int) { Fresh(s.info.urls, now) != [] }

  ghost predicate IsCleaned(nodes: Nodes, next: Nodes, now: int)
  {
    && (forall id :: id in next <==> id in nodes && Survives(nodes[id], now))
    && forall id :: id in next ==> next[id] == Cleaned(nodes[id], now)
  }

  /** As far as the loop has come that still has the keys to do. */
  ghost predicate Swept(nodes: Nodes, keys: set<NodeID>, next: Nodes, lost: set<NodeID>, now: int)
  {
    && keys <= nodes.Keys
    && (forall id :: id in next <==> id in nodes && (id in keys || Survives(nodes[id], now)))
    && (forall id :: id in next ==> next[id] == if id in keys then nodes[id] else Cleaned(nodes[id], now))
    && (forall id :: id in lost <==> id in nodes && id !in next)
  }

  lemma SweepBegins(nodes: Nodes, now: int)
    ensures Swept(nodes, nodes.Keys, nodes, {}, now)
  {
  }

  lemma SweepOne(nodes: Nodes, keys: set<NodeID>, next: Nodes, lost: set<NodeID>, e: NodeID, now: int)
    requires Swept(nodes, keys, next, lost, now) && e in keys
    ensures e in next && next[e] == nodes[e]
    ensures var kept := Fresh(next[e].info.urls, now);
            var updated := next[e := next[e].(info := next[e].info.(urls := kept))];
            if kept == [] then Swept(nodes, keys - {e}, updated - {e}, lost + {e}, now)
            else Swept(nodes, keys - {e}, updated, lost, now)
  {
    hide Fresh;
    assert Survives(nodes[e], now) <==> Fresh(next[e].info.urls, now) != [];
    hide Survives;
    var updated := next[e := Cleaned(nodes[e], now)];
    assert forall id :: id in updated <==> id in next;
    assert forall id :: id in updated ==>
             updated[id] == if id in keys - {e} then nodes[id] else Cleaned(nodes[id], now);
  }

  lemma SweepEnds(nodes: Nodes, next: Nodes, lost: set<NodeID>, now: int)
    requires Swept(nodes, {}, next, lost, now)
    ensures IsCleaned(nodes, next, now) && lost == nodes.Keys - next.Keys
  {
    hide Survives, Cleaned;
  }

  lemma FreshCovers(urls: seq<DiscoveryUrl>, now: int, url: Bytes, time: int)
    requires Covers(urls, url, time) && now - time < 60_000_000
    ensures Covers(Fresh(urls, now), url, time)
  {
    var k :| 0 <= k < |urls| && urls[k].url == url && urls[k].lastAnnounceTime >= time;
    FreshWithinAMinute(urls[k], now);
    FreshMembers(urls, now);
    assert urls[k] in Fresh(urls, now);
  }

  /** Cleaning with a clock that has not gone back keeps the cache faithful. */
  lemma CleaningKeepsFaithful(parse: Parser, nodes: Nodes, accepted: set<Announcement>, cleanedAt: int, next: Nodes,
                              now: int)
    requires Faithful(parse, nodes, accepted, cleanedAt) && IsCleaned(nodes, next, now) && cleanedAt <= now
    ensures Faithful(parse, next, accepted, now)
  {
    hide ValidUrl, Covers, Distinct, Fresh;
    forall id | id in next ensures GoodNode(parse, id, next[id]) && Traced(id, next[id].info.urls, accepted) {
      var s, f := nodes[id], Fresh(nodes[id].info.urls, now);
      FreshMembers(s.info.urls, now);
      forall k | 0 <= k < |f| ensures ValidUrl(parse, id, f[k].url) {
        assert f[k] in f && f[k] in s.info.urls;
      }
    }
    forall a | a in accepted ensures Remembered(next, now, a) {
      assert Remembered(nodes, cleanedAt, a);
      if now - a.time < 60_000_000 {
        FreshCovers(nodes[a.nodeID].info.urls, now, a.url, a.time);
        NotEmpty(Fresh(nodes[a.nodeID].info.urls, now), a.url, a.time);
      }
    }
  }

  lemma NotEmpty(urls: seq<DiscoveryUrl>, url: Bytes, time: int)
    requires Covers(urls, url, time)
    ensures urls != []
  {
  }

  // ---------------------------------------------------------------- the cache

  class Discovery {
    const parse: Parser
    var maxDiscoveredNodes: uint32   // may be set at any time
    var discoveredNodes: map<NodeID, NodeStorage>
    ghost var accepted: set<Announcement>
    ghost var cleanedAt: int   // the time of the last CleanDiscoveredNodes

    ghost predicate Valid()
      reads this
    {
      Faithful(parse, discoveredNodes, accepted, cleanedAt)
    }

    /** In every reachable state: a node is cached under its own id and with a URL, and each of its
      * URLs names it, is no longer than 256 bytes and comes from an announcement that was accepted. */
    lemma CachedUrls(id: NodeID)
      requires Valid() && id in discoveredNodes
      ensures discoveredNodes[id].info.nodeID == id && discoveredNodes[id].info.urls != []
      ensures forall u | u in discoveredNodes[id].info.urls ::
                |u.url| <= 256 && parse(u.url) == Some(id) && Announcement(id, u.url, u.lastAnnounceTime) in accepted
    {
      hide Covers, GoodNonces;
      var urls := discoveredNodes[id].info.urls;
      assert GoodNode(parse, id, discoveredNodes[id]) && Traced(id, urls, accepted);
      forall u | u in urls ensures ValidUrl(parse, id, u.url) {
        var k :| 0 <= k < |urls| && urls[k] == u;
      }
    }

    predicate IsCached(id: NodeID, url: Bytes)
      reads `discoveredNodes
    {
      id in discoveredNodes && HasUrl(discoveredNodes[id].info.urls, url)
    }

    constructor (parse: Parser, maxNodes: uint32, ghost now: int)
      ensures Valid() && this.parse == parse && maxDiscoveredNodes == maxNodes
      ensures discoveredNodes == map[] && accepted == {} && cleanedAt == now
    {
      this.parse := parse;
      maxDiscoveredNodes := maxNodes;
      discoveredNodes := map[];
      accepted := {};
      cleanedAt := now;
    }

    /** The URLs of a new node, with the invalid ones erased. */
    method EraseInvalid(id: NodeID, urls: seq<DiscoveryUrl>) returns (r: seq<DiscoveryUrl>)
      ensures r == Valids(parse, id, urls)
    {
      hide ValidUrl, Valids;
      r := urls;
      var e := 0;
      ghost var kept: seq<DiscoveryUrl>, rest := [], urls;
      NoValids(parse, id);
      while e < |r|
        invariant r == kept + rest && e == |kept|
        invariant kept + Valids(parse, id, rest) == Valids(parse, id, urls)
        decreases |rest|
      {
        NextUrl(parse, id, kept, rest);
        if ValidUrl(parse, id, r[e].url) {
          kept := kept + [rest[0]];
          e := e + 1;
        } else {
          r := r[..e] + r[e + 1..];
        }
        rest := rest[1..];
      }
    }

    /** The loop over the cached URLs. */
    method UpdateUrls(urls: seq<DiscoveryUrl>, e: DiscoveryUrl) returns (r: seq<DiscoveryUrl>, found: bool)
      ensures r == Updated(urls, e) && found == HasUrl(urls, e.url)
    {
      found := false;
      r := urls;
      for k := 0 to |urls|
        invariant |r| == |urls|
        invariant forall j :: 0 <= j < k ==> r[j] == Updated(urls, e)[j]
        invariant forall j :: k <= j < |urls| ==> r[j] == urls[j]
        invariant found ==> HasUrl(urls, e.url)
        invariant !found ==> forall j :: 0 <= j < k ==> urls[j].url != e.url
      {
        if e.url == r[k].url {
          if e.lastAnnounceTime > r[k].lastAnnounceTime {
            r := r[k := r[k].(lastAnnounceTime := e.lastAnnounceTime)];
          }
          found := true;
        }
      }
    }

    /** One announced URL of a known node. */
    method MergeUrl(id: NodeID, urls: seq<DiscoveryUrl>, e: DiscoveryUrl) returns (r: seq<DiscoveryUrl>)
      ensures r == Merged(parse, id, urls, e)
    {
      hide HasUrl, ValidUrl;
      var found;
      r, found := UpdateUrls(urls, e);
      if !found {
        assert Updated(urls, e) == urls by { NothingUpdated(urls, e); }
        if ValidUrl(parse, id, e.url) {
          r := r + [e];
        }
      }
    }

    method MergeUrls(id: NodeID, urls: seq<DiscoveryUrl>, announced: seq<DiscoveryUrl>) returns (r: seq<DiscoveryUrl>)
      ensures r == MergedAll(parse, id, urls, announced)
    {
      hide Merged;
      r := urls;
      for k := 0 to |announced|
        invariant r == MergedAll(parse, id, urls, announced[..k])
      {
        assert announced[..k + 1][..k] == announced[..k];
        r := MergeUrl(id, r, announced[k]);
      }
      assert announced[..|announced|] == announced;
    }

    /** A node that has been seen. It is cached when it is known already or there is room and one of its
      * URLs names it; the accepted URLs are those that name it. */
    method NodeDetected(info: NodeDiscoveryInfo)
      requires Valid()
      modifies `discoveredNodes, `accepted
      ensures Valid()
      ensures var known, id := old(discoveredNodes), info.nodeID;
              if !Admits(info) then discoveredNodes == known
              else if id in known then discoveredNodes == known[id := Renewed(parse, known[id], info)]
              else if |known| < maxDiscoveredNodes
                  && Brings(parse, info) != {} then discoveredNodes == known[id := NewNode(parse, info)]
              else discoveredNodes == known
      ensures accepted == old(accepted) +
                          if Admits(info) && (info.nodeID in old(discoveredNodes)
                                              || |old(discoveredNodes)| < maxDiscoveredNodes)
                          then Brings(parse, info) else {}
      ensures |discoveredNodes| == |old(discoveredNodes)| || |discoveredNodes| <= maxDiscoveredNodes
    {
      hide GoodNode, ValidUrl, Faithful, NewNode, Renewed, Brings;
      if info.nodeID == ANY_NODE { return; }
      if |info.nonce| > 32 { return; }
      if |info.nodeName| > 128 { return; }
      var id := info.nodeID;
      if id !in discoveredNodes {
        if |discoveredNodes| >= maxDiscoveredNodes { return; }
        var info2 := info;
        var urls := EraseInvalid(id, info.urls);
        info2 := info2.(urls := urls);
        BringsValids(parse, info);
        if |info2.urls| == 0 { return; }
        NewNodeKeepsFaithful(parse, discoveredNodes, accepted, cleanedAt, info);
        discoveredNodes := discoveredNodes[id := NodeStorage(info2, [info2.nonce])];
        assert discoveredNodes[id] == NewNode(parse, info) by { IsNewNode(parse, info); }
      } else {
        RenewedKeepsFaithful(parse, discoveredNodes, accepted, cleanedAt, info);
        var s := discoveredNodes[id];
        var urls := MergeUrls(id, s.info.urls, info.urls);
        var i := s.info.(urls := urls);
        if i.nonce != info.nonce && info.nonce != [] {
          i := i.(nonce := info.nonce);
        }
        var recent := s.recentNonces;
        if info.nonce != [] && info.nonce !in recent {
          recent := recent + [info.nonce];
          if |recent| > 16 { recent := recent[1..]; }
        }
        discoveredNodes := discoveredNodes[id := NodeStorage(i, recent)];
        assert NodeStorage(i, recent) == Renewed(parse, s, info) by { IsRenewed(parse, s, info); }
        assert |discoveredNodes| == |old(discoveredNodes)| by {
          SameSize(old(discoveredNodes), id, NodeStorage(i, recent));
        }
      }
      accepted := accepted + Brings(parse, info);
    }

    /** Drops the URLs that were last announced a minute ago or more, and the nodes left without one;
      * afterwards a URL is cached exactly when an announcement of it within the last minute has been accepted. */
    method CleanDiscoveredNodes(now: int) returns (lost: set<NodeID>)
      requires Valid() && cleanedAt <= now
      modifies `discoveredNodes, `cleanedAt
      ensures Valid() && cleanedAt == now && IsCleaned(old(discoveredNodes), discoveredNodes, now)
      ensures lost == old(discoveredNodes).Keys - discoveredNodes.Keys
      ensures forall id, url :: IsCached(id, url) <==>
                exists a :: a in accepted && a.nodeID == id && a.url == url && now - a.time < 60_000_000
    {
      hide Faithful, Fresh, HasUrl;
      ghost var nodes := discoveredNodes;
      lost := Sweep(now);
      CleaningKeepsFaithful(parse, nodes, accepted, cleanedAt, discoveredNodes, now);
      cleanedAt := now;
      forall id, url ensures IsCached(id, url) <==>
                exists a :: a in accepted && a.nodeID == id && a.url == url && now - a.time < 60_000_000
      {
        CachedExactly(parse, nodes, discoveredNodes, accepted, now, id, url);
      }
    }

    /** The loop over the nodes. */
    method Sweep(now: int) returns (lost: set<NodeID>)
      modifies `discoveredNodes
      ensures IsCleaned(old(discoveredNodes), discoveredNodes, now)
      ensures lost == old(discoveredNodes).Keys - discoveredNodes.Keys
    {
      hide Swept, Survives, Cleaned, Fresh;
      ghost var nodes := discoveredNodes;
      lost := {};
      var keys := discoveredNodes.Keys;
      SweepBegins(nodes, now);
      while keys != {}
        invariant Swept(nodes, keys, discoveredNodes, lost, now)
        decreases |keys|
      {
        var e :| e in keys;
        SweepOne(nodes, keys, discoveredNodes, lost, e, now);
        keys := keys - {e};
        var s := discoveredNodes[e];
        var newurls := FreshUrls(s.info.urls, now);
        discoveredNodes := discoveredNodes[e := s.(info := s.info.(urls := newurls))];
        if newurls == [] {
          discoveredNodes := discoveredNodes - {e};
          lost := lost + {e};
        }
      }
      SweepEnds(nodes, discoveredNodes, lost, now);
    }

    method FreshUrls(urls: seq<DiscoveryUrl>, now: int) returns (newurls: seq<DiscoveryUrl>)
      ensures newurls == Fresh(urls, now)
    {
      hide Fresh;
      newurls := [];
      NothingFresh(now);
      for k := 0 to |urls|
        invariant newurls == Fresh(urls[..k], now)
      {
        assert urls[..k + 1] == urls[..k] + [urls[k]];
        FreshOneMore(urls[..k], urls[k], now);
        FreshOne(urls[k], now);
        if TotalMilliseconds(now - urls[k].lastAnnounceTime) < 60000 {
          newurls := newurls + [urls[k]];
        }
      }
      assert urls[..|urls|] == urls;
    }
  }

  lemma NothingFresh(now: int)
    ensures Fresh([], now) == []
  {
  }

  lemma {:induction false} FreshOneMore(urls: seq<DiscoveryUrl>, u: DiscoveryUrl, now: int)
    ensures Fresh(urls + [u], now) == Fresh(urls, now) + Fresh([u], now)
  {
    hide IsFresh;
    if urls == [] {
      assert urls + [u] == [u] && Fresh(urls, now) + Fresh([u], now) == Fresh([u], now);
    } else {
      FreshOneMore(urls[1..], u, now);
      assert (urls + [u])[1..] == urls[1..] + [u];
      Associative(if IsFresh(urls[0], now) then [urls[0]] else [], Fresh(urls[1..], now), Fresh([u], now));
    }
  }

  lemma FreshOne(u: DiscoveryUrl, now: int)
    ensures Fresh([u], now) == if IsFresh(u, now) then [u] else []
  {
    assert Fresh([u][1..], now) == [];
  }

  lemma SameSize(nodes: Nodes, id: NodeID, s: NodeStorage)
    requires id in nodes
    ensures |nodes[id := s]| == |nodes|
  {
    assert nodes[id := s].Keys == nodes.Keys;
  }

  lemma BringsValids(parse: Parser, info: NodeDiscoveryInfo)
    ensures Valids(parse, info.nodeID, info.urls) == [] <==> Brings(parse, info) == {}
  {
    hide ValidUrl;
    var r := Valids(parse, info.nodeID, info.urls);
    ValidsMembers(parse, info.nodeID, info.urls);
    if r != [] {
      assert r[0] in r;
      assert Announcement(info.nodeID, r[0].url, r[0].lastAnnounceTime) in Brings(parse, info);
    }
    if a :| a in Brings(parse, info) {
      var u :| u in info.urls && ValidUrl(parse, info.nodeID, u.url)
          && a == Announcement(info.nodeID, u.url, u.lastAnnounceTime);
      assert u in r;
    }
  }

  lemma IsNewNode(parse: Parser, info: NodeDiscoveryInfo)
    ensures NewNode(parse, info) == NodeStorage(info.(urls := Valids(parse, info.nodeID, info.urls)), [info.nonce])
  {
  }

  lemma IsRenewed(parse: Parser, s: NodeStorage, info: NodeDiscoveryInfo)
    ensures var r := Renewed(parse, s, info);
            && r.info == s.info.(urls := MergedAll(parse, info.nodeID, s.info.urls, info.urls),
                                 nonce := if info.nonce == [] then s.info.nonce else info.nonce)
            && r.recentNonces == if info.nonce == [] || info.nonce in s.recentNonces then s.recentNonces
                                 else if |s.recentNonces| >= 16 then (s.recentNonces + [info.nonce])[1..]
                                     else s.recentNonces + [info.nonce]
  {
  }

  lemma CachedExactly(parse: Parser, nodes: Nodes, next: Nodes, accepted: set<Announcement>, now: int, id: NodeID,
                      url: Bytes)
    requires Faithful(parse, next, accepted, now) && IsCleaned(nodes, next, now)
    ensures (id in next && HasUrl(next[id].info.urls, url)) <==>
            exists a :: a in accepted && a.nodeID == id && a.url == url && now - a.time < 60_000_000
  {
    hide GoodNode, Fresh;
    if id in next && HasUrl(next[id].info.urls, url) {
      var k :| 0 <= k < |next[id].info.urls| && next[id].info.urls[k].url == url;
      var u := next[id].info.urls[k];
      FreshMembers(nodes[id].info.urls, now);
      FreshWithinAMinute(u, now);
      assert Announcement(id, u.url, u.lastAnnounceTime) in accepted;
    }
    if a :| a in accepted && a.nodeID == id && a.url == url && now - a.time < 60_000_000 {
      assert Remembered(next, now, a);
    }
  }
}
