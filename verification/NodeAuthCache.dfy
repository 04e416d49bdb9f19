/**
 Node authentication with a time-limited cache of the auth service's replies (app/deps.py).
 */
module NodeAuthCache {
  import opened Options

  /** Seconds on the wall clock, assumed never to run backwards. */
  type Time = real

  /** What the auth service says about one "node:key" header. */
  datatype Reply = Reply(valid: bool, reason: Option<string>, nodeId: Option<string>, household: Option<string>)

  type Cache = map<string, (Reply, Time)>

  /** One incoming request: the header, what the service would reply now, and the local node and legacy-key tables. */
  datatype Call = Call(header: string, at: Time, reply: Reply, nodes: set<string>, legacyKeys: map<string, string>)

  datatype Verdict = Accepted(nodeId: string, household: Option<string>) | Rejected(reason: string)

  /** The part before the first colon, if there is a colon. */
  function NodePart(header: string): Option<string> {
    if header == "" then None
    else if header[0] == ':' then Some("")
    else
      var rest := NodePart(header[1..]);
      if rest.None? then None else Some([header[0]] + rest.value)
  }

  /** A "node:key" header names its node before its first colon, and a header without a colon names none. */
  lemma {:induction false} TheNodeEndsAtTheFirstColon(header: string)
    ensures NodePart(header).None? <==> ':' !in header
    ensures NodePart(header).Some? ==> var node := NodePart(header).value;
              ':' !in node && |node| < |header| && header == node + ":" + header[|node| + 1..]
  {
    if header == "" || header[0] == ':' {
    } else {
      TheNodeEndsAtTheFirstColon(header[1..]);
      assert header == [header[0]] + header[1..];
    }
  }

  function Refusal(reply: Reply): Verdict {
    Rejected(reply.reason.GetOr("Invalid API Key"))
  }

  /** The cached reply for a header, if it is younger than the time to live. */
  function Cached(cache: Cache, ttl: Time, header: string, now: Time): Option<Reply> {
    if header in cache && now - cache[header].1 < ttl then Some(cache[header].0) else None
  }

  /** The check without a cache: ask the service for "node:key" headers, look up legacy keys locally. */
  function Uncached(call: Call): Verdict {
    var node := NodePart(call.header);
    if node.Some? then
      if !call.reply.valid then Refusal(call.reply)
      else if node.value in call.nodes then Accepted(node.value, call.reply.household)
      else Rejected("Node not configured locally")
    else if call.header in call.legacyKeys then Accepted(call.legacyKeys[call.header], None)
    else Rejected("Invalid API Key")
  }

  /** The cache settles a call when it knows the header and, for a valid reply, the node exists locally. */
  predicate Settled(cache: Cache, ttl: Time, call: Call) {
    var cached := Cached(cache, ttl, call.header, call.at);
    cached.Some? && (cached.value.valid ==> cached.value.nodeId.Some? && cached.value.nodeId.value in call.nodes)
  }

  /** The service is asked about a "node:key" header that the cache does not settle. */
  predicate Asks(cache: Cache, ttl: Time, call: Call) {
    !Settled(cache, ttl, call) && NodePart(call.header).Some?
  }

  function Check(cache: Cache, ttl: Time, call: Call): Verdict {
    if Settled(cache, ttl, call) then
      var reply := Cached(cache, ttl, call.header, call.at).value;
      if reply.valid then Accepted(reply.nodeId.value, reply.household) else Refusal(reply)
    else Uncached(call)
  }

  function CacheAfter(cache: Cache, ttl: Time, call: Call): Cache {
    var stale := call.header in cache && Cached(cache, ttl, call.header, call.at).None?;
    var evicted := if stale then cache - {call.header} else cache;
    if Asks(cache, ttl, call) then evicted[call.header := (call.reply, call.at)] else evicted
  }

  class Verifier {
    const ttl: Time
    var cache: Cache

    constructor (ttl: Time)
      ensures this.ttl == ttl && cache == map[]
    {
      this.ttl, cache := ttl, map[];
    }

    method GetCachedValidation(header: string, now: Time) returns (result: Option<Reply>)
      modifies this
      ensures result == Cached(old(cache), ttl, header, now)
      ensures cache == if header in old(cache) && result.None? then old(cache) - {header} else old(cache)
    {
      if header in cache {
        var (reply, stamp) := cache[header];
        if now - stamp < ttl {
          return Some(reply);
        }
        cache := cache - {header};
      }
      return None;
    }

    method VerifyApiKey(call: Call) returns (verdict: Verdict)
      modifies this
      ensures verdict == Check(old(cache), ttl, call)
      ensures cache == CacheAfter(old(cache), ttl, call)
    {
      var cached := GetCachedValidation(call.header, call.at);
      if cached.Some? {
        if !cached.value.valid {
          return Refusal(cached.value);
        }
        if cached.value.nodeId.Some? && cached.value.nodeId.value in call.nodes {
          return Accepted(cached.value.nodeId.value, cached.value.household);
        }
      }
      var node := NodePart(call.header);
      if node.Some? {
        cache := cache[call.header := (call.reply, call.at)];
        if call.reply.valid {
          if node.value in call.nodes {
            return Accepted(node.value, call.reply.household);
          }
          return Rejected("Node not configured locally");
        }
        return Refusal(call.reply);
      }
      if call.header !in call.legacyKeys {
        return Rejected("Invalid API Key");
      }
      return Accepted(call.legacyKeys[call.header], None);
    }
  }

  // ---------------------------------------------------------------- runs

  /** The cache before call n of a run from an empty cache. */
  function CacheBefore(ttl: Time, calls: seq<Call>, n: nat): Cache
    requires n <= |calls|
  {
    if n == 0 then map[] else CacheAfter(CacheBefore(ttl, calls, n - 1), ttl, calls[n - 1])
  }

  function VerdictOf(ttl: Time, calls: seq<Call>, n: nat): Verdict
    requires n < |calls|
  {
    Check(CacheBefore(ttl, calls, n), ttl, calls[n])
  }

  predicate AsksAt(ttl: Time, calls: seq<Call>, n: nat)
    requires n < |calls|
  {
    Asks(CacheBefore(ttl, calls, n), ttl, calls[n])
  }

  ghost predicate Chronological(calls: seq<Call>) {
    forall i, j :: 0 <= i <= j < |calls| ==> calls[i].at <= calls[j].at
  }

  /** The entry for a header was written by call m, which asked the service. */
  ghost predicate WrittenBy(ttl: Time, calls: seq<Call>, m: nat, header: string, entry: (Reply, Time))
    requires m < |calls|
  {
    AsksAt(ttl, calls, m) && calls[m].header == header && entry == (calls[m].reply, calls[m].at)
  }

  lemma {:induction false} EntriesComeFromTheService(ttl: Time, calls: seq<Call>, n: nat, header: string)
    requires n <= |calls| && header in CacheBefore(ttl, calls, n)
    ensures exists m :: 0 <= m < n && WrittenBy(ttl, calls, m, header, CacheBefore(ttl, calls, n)[header])
    ensures NodePart(header).Some?
  {
    if header in CacheBefore(ttl, calls, n - 1)
        && CacheBefore(ttl, calls, n)[header] == CacheBefore(ttl, calls, n - 1)[header] {
      EntriesComeFromTheService(ttl, calls, n - 1, header);
      var m :| 0 <= m < n - 1 && WrittenBy(ttl, calls, m, header, CacheBefore(ttl, calls, n - 1)[header]);
    } else {
      assert WrittenBy(ttl, calls, n - 1, header, CacheBefore(ttl, calls, n)[header]);
    }
  }

  /**
   Every acceptance of a "node:key" header rests on a valid reply of the service for that
   very header, given during this call or less than the time to live ago.
   */
  lemma {:induction false} AcceptanceRestsOnAFreshReply(ttl: Time, calls: seq<Call>, n: nat)
    requires n < |calls| && ':' in calls[n].header && VerdictOf(ttl, calls, n).Accepted?
    ensures exists m :: 0 <= m <= n && AsksAt(ttl, calls, m)
                        && calls[m].header == calls[n].header && calls[m].reply.valid
                        && (m == n || calls[n].at - calls[m].at < ttl)
                        && VerdictOf(ttl, calls, n).household == calls[m].reply.household
  {
    var cache, header := CacheBefore(ttl, calls, n), calls[n].header;
    TheNodeEndsAtTheFirstColon(header);
    if Settled(cache, ttl, calls[n]) {
      EntriesComeFromTheService(ttl, calls, n, header);
      var m :| 0 <= m < n && WrittenBy(ttl, calls, m, header, cache[header]);
      assert calls[m].header == header && calls[m].reply.valid;
    } else {
      assert AsksAt(ttl, calls, n);
    }
  }

  /** A header without a colon is accepted, as the node of that legacy key, exactly if it is a legacy key. */
  lemma {:induction false} LegacyHeadersAreLookedUp(ttl: Time, calls: seq<Call>, n: nat, id: string)
    requires n < |calls| && ':' !in calls[n].header
    ensures VerdictOf(ttl, calls, n) == Accepted(id, None)
            <==> calls[n].header in calls[n].legacyKeys && id == calls[n].legacyKeys[calls[n].header]
    ensures calls[n].header !in calls[n].legacyKeys ==> VerdictOf(ttl, calls, n) == Rejected("Invalid API Key")
  {
    TheNodeEndsAtTheFirstColon(calls[n].header);
    if calls[n].header in CacheBefore(ttl, calls, n) {
      EntriesComeFromTheService(ttl, calls, n, calls[n].header);
    }
  }

  /**
   What a reply of the service means for a "node:key" call: asked during this call, or remembered
   from an earlier one.
   */
  ghost predicate Follows(verdict: Verdict, reply: Reply, asked: bool, call: Call) {
    if !reply.valid then
      verdict == Rejected(if reply.reason.Some? then reply.reason.value else "Invalid API Key")
    else if asked then
      exists node, key :: call.header == node + ":" + key && ':' !in node
        && verdict == if node in call.nodes then Accepted(node, reply.household)
                      else Rejected("Node not configured locally")
    else
      reply.nodeId.Some? && reply.nodeId.value in call.nodes
      && verdict == Accepted(reply.nodeId.value, reply.household)
  }

  /**
   Every verdict on a "node:key" header follows from one reply of the service about that very
   header, given during this call or less than the time to live ago.
   */
  lemma {:induction false} VerdictsFollowFromAReply(ttl: Time, calls: seq<Call>, n: nat)
    requires n < |calls| && ':' in calls[n].header
    ensures exists m :: 0 <= m <= n && AsksAt(ttl, calls, m) && calls[m].header == calls[n].header
                        && (m == n || calls[n].at - calls[m].at < ttl)
                        && Follows(VerdictOf(ttl, calls, n), calls[m].reply, m == n, calls[n])
  {
    var cache, header := CacheBefore(ttl, calls, n), calls[n].header;
    TheNodeEndsAtTheFirstColon(header);
    if Settled(cache, ttl, calls[n]) {
      EntriesComeFromTheService(ttl, calls, n, header);
      var m :| 0 <= m < n && WrittenBy(ttl, calls, m, header, cache[header]);
      assert Follows(VerdictOf(ttl, calls, n), calls[m].reply, false, calls[n]);
    } else {
      var node := NodePart(header).value;
      assert header == node + ":" + header[|node| + 1..];
      assert Follows(VerdictOf(ttl, calls, n), calls[n].reply, true, calls[n]);
    }
  }

  /** Whoever is accepted with a "node:key" header is a node that is known locally at that moment. */
  lemma {:induction false} AcceptedNodesAreKnown(ttl: Time, calls: seq<Call>, n: nat)
    requires n < |calls| && ':' in calls[n].header && VerdictOf(ttl, calls, n).Accepted?
    ensures VerdictOf(ttl, calls, n).nodeId in calls[n].nodes
  {
    VerdictsFollowFromAReply(ttl, calls, n);
  }

  /** The service replies the same to a header every time, and names the header's own node when it is valid. */
  ghost predicate SteadyAndEchoing(calls: seq<Call>) {
    && (forall i, j :: 0 <= i < |calls| && 0 <= j < |calls| && calls[i].header == calls[j].header ==>
         calls[i].reply == calls[j].reply)
    && (forall i :: 0 <= i < |calls| && calls[i].reply.valid && NodePart(calls[i].header).Some? ==>
          calls[i].reply.nodeId == NodePart(calls[i].header))
  }

  /** Under such a service the cache is invisible: every call gets the verdict of the check without a cache. */
  lemma {:induction false} CacheIsInvisible(ttl: Time, calls: seq<Call>, n: nat)
    requires SteadyAndEchoing(calls) && n < |calls|
    ensures VerdictOf(ttl, calls, n) == Uncached(calls[n])
  {
    var cache, header := CacheBefore(ttl, calls, n), calls[n].header;
    if Settled(cache, ttl, calls[n]) {
      EntriesComeFromTheService(ttl, calls, n, header);
      var m :| 0 <= m < n && WrittenBy(ttl, calls, m, header, cache[header]);
      assert calls[m].header == header && calls[m].reply == calls[n].reply;
    }
  }

  lemma {:induction false} AskedHeadersAreCached(ttl: Time, calls: seq<Call>, m: nat, n: nat)
    requires Chronological(calls) && m < n < |calls| && AsksAt(ttl, calls, m)
    requires calls[n].at - calls[m].at < ttl
    ensures var header := calls[m].header;
            header in CacheBefore(ttl, calls, n) && calls[m].at <= CacheBefore(ttl, calls, n)[header].1
    decreases n
  {
    if m + 1 < n {
      assert calls[n - 1].at <= calls[n].at;
      AskedHeadersAreCached(ttl, calls, m, n - 1);
      assert calls[m].at <= calls[n - 1].at;
    }
  }

  /**
   The service is asked about a header again only after the time to live, or because the
   valid reply in the cache names a node that is not known locally.
   */
  lemma {:induction false} TheServiceIsSpared(ttl: Time, calls: seq<Call>, m: nat, n: nat)
    requires Chronological(calls) && m < n < |calls|
    requires AsksAt(ttl, calls, m) && AsksAt(ttl, calls, n) && calls[m].header == calls[n].header
    ensures ttl <= calls[n].at - calls[m].at
         || (var entry := Cached(CacheBefore(ttl, calls, n), ttl, calls[n].header, calls[n].at);
             entry.Some? && entry.value.valid
                 && (entry.value.nodeId.None? || entry.value.nodeId.value !in calls[n].nodes))
  {
    if calls[n].at - calls[m].at < ttl {
      AskedHeadersAreCached(ttl, calls, m, n);
    }
  }
}
