/**
 Provisioning tokens and node self-registration (app/provisioning.py), with the two other
 writers of the node table: creation and deletion by hand (app/admin.py).
 */
module Provisioning {
  import opened Options
  import opened Runs

  // times are in seconds

  const TOKEN_TTL: Time := 600
  const RETENTION: Time := 24 * 60 * 60

  datatype Token = Token(hash: string, nodeId: string, household: string, expiresAt: Time, consumedAt: Option<Time>)

  datatype State = State(tokens: seq<Token>, nodes: map<string, string>)  // node id to household

  predicate Valid(t: Token, nodeId: string, hash: string, now: Time) {
    t.nodeId == nodeId && t.hash == hash && t.consumedAt.None? && t.expiresAt > now
  }

  /** The first valid token row for the node and the hash. */
  function FindValid(tokens: seq<Token>, nodeId: string, hash: string, now: Time): (r: Option<nat>)
    ensures r.Some? ==> r.value < |tokens| && Valid(tokens[r.value], nodeId, hash, now)
    ensures r.None? ==> forall i :: 0 <= i < |tokens| ==> !Valid(tokens[i], nodeId, hash, now)
  {
    if tokens == [] then None
    else
      var r := FindValid(tokens[..|tokens| - 1], nodeId, hash, now);
      if r.Some? then r
      else if Valid(tokens[|tokens| - 1], nodeId, hash, now) then Some(|tokens| - 1)
      else None
  }

  /** Keep the rows that satisfy `keep`, in order. */
  function Filter(tokens: seq<Token>, keep: Token -> bool): seq<Token> {
    if tokens == [] then []
    else Filter(tokens[..|tokens| - 1], keep) + (if keep(tokens[|tokens| - 1]) then [tokens[|tokens| - 1]] else [])
  }

  /** An open token still waits to be consumed. */
  function Closed(nodeId: string): Token -> bool {
    (t: Token) => !(t.nodeId == nodeId && t.consumedAt.None?)
  }

  function Fresh(now: Time): Token -> bool {
    (t: Token) => !(t.expiresAt < now - RETENTION || (t.consumedAt.Some? && t.consumedAt.value < now - RETENTION))
  }

  datatype Reply =
    | AlreadyRegistered | Issued(nodeId: string) | Unauthorized | AuthFailed | Registered
    | NotFound | Forbidden | Deleted

  /** `given` is the node id to refresh; a new token gets the fresh id `newId`. */
  function CreateToken(
      s: State, given: Option<string>, newId: string, household: string, hash: string, now: Time): (State, Reply)
  {
    var refresh := TextOr(given, "") != "";
    var nodeId := if refresh then given.value else newId;
    var kept := if refresh then Filter(s.tokens, Closed(nodeId)) else s.tokens;
    if refresh && nodeId in s.nodes then (s, AlreadyRegistered)
    else (s.(tokens := kept + [Token(hash, nodeId, household, now + TOKEN_TTL, None)]), Issued(nodeId))
  }

  /** `authOk` tells whether the auth service accepted the new node. */
  function Register(s: State, nodeId: string, hash: string, authOk: bool, now: Time): (State, Reply) {
    var found := FindValid(s.tokens, nodeId, hash, now);
    if found.None? then (s, Unauthorized)
    else if nodeId in s.nodes then (s, AlreadyRegistered)
    else if !authOk then (s, AuthFailed)
    else
      var token := s.tokens[found.value];
      (State(s.tokens[found.value := token.(consumedAt := Some(now))], s.nodes[nodeId := token.household]), Registered)
  }

  /** An administrator may create a node without any token. */
  function CreateNode(s: State, nodeId: string, household: string, authOk: bool): (State, Reply) {
    if nodeId in s.nodes then (s, AlreadyRegistered)
    else if !authOk then (s, AuthFailed)
    else (s.(nodes := s.nodes[nodeId := household]), Registered)
  }

  /** `allowed` tells whether the caller's role permits it; tokens of the node stay. */
  function DeleteNode(s: State, nodeId: string, allowed: bool): (State, Reply) {
    if nodeId !in s.nodes then (s, NotFound)
    else if !allowed then (s, Forbidden)
    else (s.(nodes := s.nodes - {nodeId}), Deleted)
  }

  function Cleanup(s: State, now: Time): State {
    s.(tokens := Filter(s.tokens, Fresh(now)))
  }

  class Provisioner {
    var tokens: seq<Token>
    var nodes: map<string, string>

    constructor ()
      ensures Snapshot() == State([], map[])
    {
      tokens, nodes := [], map[];
    }

    function Snapshot(): State
      reads this
    {
      State(tokens, nodes)
    }

    method CreateProvisioningToken(
        given: Option<string>, newId: string, household: string, hash: string, now: Time)
      returns (reply: Reply)
      modifies this
      ensures (Snapshot(), reply) == CreateToken(old(Snapshot()), given, newId, household, hash, now)
      ensures reply == if given.None? || given.value == "" then Issued(newId)
                       else if given.value in old(nodes) then AlreadyRegistered else Issued(given.value)
    {
      var nodeId := newId;
      if given.Some? && given.value != "" {
        nodeId := given.value;
        if nodeId in nodes {
          return AlreadyRegistered;
        }
        tokens := Filter(tokens, Closed(nodeId));
      }
      tokens := tokens + [Token(hash, nodeId, household, now + TOKEN_TTL, None)];
      return Issued(nodeId);
    }

    method RegisterNode(nodeId: string, hash: string, authOk: bool, now: Time) returns (reply: Reply)
      modifies this
      ensures (Snapshot(), reply) == Register(old(Snapshot()), nodeId, hash, authOk, now)
    {
      var found := FindValid(tokens, nodeId, hash, now);
      if found.None? {
        return Unauthorized;
      }
      if nodeId in nodes {
        return AlreadyRegistered;
      }
      if !authOk {
        return AuthFailed;
      }
      nodes := nodes[nodeId := tokens[found.value].household];
      tokens := tokens[found.value := tokens[found.value].(consumedAt := Some(now))];
      return Registered;
    }

    method AdminCreateNode(nodeId: string, household: string, authOk: bool) returns (reply: Reply)
      modifies this`nodes
      ensures (Snapshot(), reply) == CreateNode(old(Snapshot()), nodeId, household, authOk)
      ensures reply == if nodeId in old(nodes) then AlreadyRegistered else if authOk then Registered else AuthFailed
    {
      if nodeId in nodes {
        return AlreadyRegistered;
      }
      if !authOk {
        return AuthFailed;
      }
      nodes := nodes[nodeId := household];
      return Registered;
    }

    method AdminDeleteNode(nodeId: string, allowed: bool) returns (reply: Reply)
      modifies this`nodes
      ensures (Snapshot(), reply) == DeleteNode(old(Snapshot()), nodeId, allowed)
      ensures reply == if nodeId !in old(nodes) then NotFound else if allowed then Deleted else Forbidden
    {
      if nodeId !in nodes {
        return NotFound;
      }
      if !allowed {
        return Forbidden;
      }
      nodes := nodes - {nodeId};
      return Deleted;
    }

    method CleanupExpiredTokens(now: Time) returns (count: nat)
      modifies this`tokens
      ensures Snapshot() == Cleanup(old(Snapshot()), now)
      ensures count == |old(tokens)| - |tokens|
    {
      var kept := Filter(tokens, Fresh(now));
      FilterShortens(tokens, Fresh(now));
      count := |tokens| - |kept|;
      tokens := kept;
    }
  }

  lemma {:induction false} FilterShortens(tokens: seq<Token>, keep: Token -> bool)
    ensures |Filter(tokens, keep)| <= |tokens|
    ensures forall t :: t in Filter(tokens, keep) <==> t in tokens && keep(t)
  {
    if tokens == [] {
    } else {
      FilterShortens(tokens[..|tokens| - 1], keep);
      assert tokens == tokens[..|tokens| - 1] + [tokens[|tokens| - 1]];
    }
  }

  // ---------------------------------------------------------------- cleanup is invisible

  /** The household a registration would join, if its token is good. */
  function Admits(s: State, nodeId: string, hash: string, now: Time): Option<string> {
    var found := FindValid(s.tokens, nodeId, hash, now);
    if found.Some? then Some(s.tokens[found.value].household) else None
  }

  lemma {:induction false} FilterKeepsTheFirstValid(
      tokens: seq<Token>, keep: Token -> bool, nodes: map<string, string>, nodeId: string, hash: string, now: Time)
    requires forall t :: t in tokens && Valid(t, nodeId, hash, now) ==> keep(t)
    ensures Admits(State(Filter(tokens, keep), nodes), nodeId, hash, now) ==
            Admits(State(tokens, nodes), nodeId, hash, now)
  {
    if tokens == [] {
    } else {
      var rest, last := tokens[..|tokens| - 1], tokens[|tokens| - 1];
      FilterKeepsTheFirstValid(rest, keep, nodes, nodeId, hash, now);
      var kept := Filter(rest, keep);
      if keep(last) {
        assert (kept + [last])[..|kept|] == kept;
      } else {
        assert Filter(tokens, keep) == kept;
      }
    }
  }

  /** Cleaning up never changes the outcome of any validation, now or at any later time. */
  lemma {:induction false} CleanupIsInvisible(s: State, cleaned: Time, nodeId: string, hash: string, now: Time)
    requires cleaned <= now
    ensures Admits(Cleanup(s, cleaned), nodeId, hash, now) == Admits(s, nodeId, hash, now)
  {
    FilterKeepsTheFirstValid(s.tokens, Fresh(cleaned), s.nodes, nodeId, hash, now);
  }

  // ---------------------------------------------------------------- runs

  datatype Event =
    | TokenCreated(given: Option<string>, newId: string, household: string, hash: string)
    | NodeRegistered(nodeId: string, hash: string, authOk: bool)
    | AdminCreated(nodeId: string, household: string, authOk: bool)
    | NodeDeleted(nodeId: string, allowed: bool)
    | CleanedUp

  function Step(s: State, e: Event, now: Time): State {
    match e
    case TokenCreated(given, newId, household, hash) => CreateToken(s, given, newId, household, hash, now).0
    case NodeRegistered(nodeId, hash, authOk) => Register(s, nodeId, hash, authOk, now).0
    case AdminCreated(nodeId, household, authOk) => CreateNode(s, nodeId, household, authOk).0
    case NodeDeleted(nodeId, allowed) => DeleteNode(s, nodeId, allowed).0
    case CleanedUp => Cleanup(s, now)
  }

  function After(run: seq<Timed<Event>>, n: nat): State
    requires n <= |run|
  {
    if n == 0 then State([], map[]) else Step(After(run, n - 1), run[n - 1].event, run[n - 1].at)
  }

  /** The node ids and secrets the service draws itself are new each time; a secret is known by its hash. */
  ghost predicate DrawsFresh(run: seq<Timed<Event>>) {
    forall n :: 0 <= n < |run| ==> DrawsFreshAt(run, n)
  }

  ghost predicate DrawsFreshAt(run: seq<Timed<Event>>, n: nat)
    requires n < |run|
  {
    var tokens, e := After(run, n).tokens, run[n].event;
    e.TokenCreated? ==> forall i :: 0 <= i < |tokens| ==> tokens[i].hash != e.hash && tokens[i].nodeId != e.newId
  }

  ghost predicate OneOpenPerNode(s: State) {
    forall i, j :: 0 <= i < j < |s.tokens| && s.tokens[i].nodeId == s.tokens[j].nodeId ==>
      s.tokens[i].consumedAt.Some? || s.tokens[j].consumedAt.Some?
  }

  ghost predicate HashesDistinct(s: State) {
    forall i, j :: 0 <= i < j < |s.tokens| ==> s.tokens[i].hash != s.tokens[j].hash
  }

  /** Filtering keeps rows, in their order. */
  lemma {:induction false} FilterIsSubsequence(tokens: seq<Token>, keep: Token -> bool) returns (from: seq<nat>)
    ensures |from| == |Filter(tokens, keep)|
    ensures forall i :: 0 <= i < |from| ==> from[i] < |tokens| && tokens[from[i]] == Filter(tokens, keep)[i]
    ensures forall i, j :: 0 <= i < j < |from| ==> from[i] < from[j]
  {
    from := [];
    if tokens == [] {
    } else {
      var rest, last := tokens[..|tokens| - 1], tokens[|tokens| - 1];
      from := FilterIsSubsequence(rest, keep);
      var kept := Filter(rest, keep);
      if keep(last) {
        from := from + [|rest|];
        assert Filter(tokens, keep) == kept + [last];
      } else {
        assert Filter(tokens, keep) == kept;
      }
    }
  }

  lemma {:induction false} FilterKeepsInvariants(s: State, keep: Token -> bool)
    requires OneOpenPerNode(s) && HashesDistinct(s)
    ensures OneOpenPerNode(s.(tokens := Filter(s.tokens, keep))) && HashesDistinct(s.(tokens := Filter(s.tokens, keep)))
  {
    var from := FilterIsSubsequence(s.tokens, keep);
    var kept := Filter(s.tokens, keep);
    forall i, j | 0 <= i < j < |kept|
      ensures kept[i].hash != kept[j].hash
      ensures kept[i].nodeId == kept[j].nodeId ==> kept[i].consumedAt.Some? || kept[j].consumedAt.Some?
    {
      assert kept[i] == s.tokens[from[i]] && kept[j] == s.tokens[from[j]] && from[i] < from[j];
    }
  }

  lemma {:induction false} IssuingKeepsInvariants(
      s: State, t: State, given: Option<string>, newId: string, household: string, hash: string, now: Time)
    requires OneOpenPerNode(s) && HashesDistinct(s)
    requires forall i :: 0 <= i < |s.tokens| ==> s.tokens[i].hash != hash && s.tokens[i].nodeId != newId
    requires t == CreateToken(s, given, newId, household, hash, now).0
    ensures OneOpenPerNode(t) && HashesDistinct(t)
  {
    if t != s && TextOr(given, "") != "" {
      var kept := Filter(s.tokens, Closed(given.value));
      FilterKeepsInvariants(s, Closed(given.value));
      FilterShortens(s.tokens, Closed(given.value));
      forall i | 0 <= i < |kept|
        ensures kept[i].hash != hash && (kept[i].nodeId == given.value ==> kept[i].consumedAt.Some?)
      {
        assert kept[i] in kept;
      }
    }
  }

  lemma {:induction false} RegisteringKeepsInvariants(
      s: State, nodeId: string, hash: string, authOk: bool, now: Time)
    requires OneOpenPerNode(s) && HashesDistinct(s)
    ensures var t := Register(s, nodeId, hash, authOk, now).0; OneOpenPerNode(t) && HashesDistinct(t)
  {}

  /** In every run each node id has at most one unconsumed token, and no secret stands twice in the table. */
  lemma {:induction false} AtMostOneOpenToken(run: seq<Timed<Event>>, n: nat)
    requires DrawsFresh(run) && n <= |run|
    ensures OneOpenPerNode(After(run, n)) && HashesDistinct(After(run, n))
  {
    if n == 0 {
    } else {
      AtMostOneOpenToken(run, n - 1);
      assert DrawsFreshAt(run, n - 1);
      var s, e, now := After(run, n - 1), run[n - 1].event, run[n - 1].at;
      match e
      case TokenCreated(given, newId, household, hash) =>
        IssuingKeepsInvariants(s, Step(s, e, now), given, newId, household, hash, now);
      case NodeRegistered(nodeId, hash, authOk) => RegisteringKeepsInvariants(s, nodeId, hash, authOk, now);
      case AdminCreated(_, _, _) =>
      case NodeDeleted(_, _) =>
      case CleanedUp =>
        FilterKeepsInvariants(s, Fresh(now));
    }
  }

  /** Event n registered a node with the token of this hash. */
  ghost predicate Consumes(run: seq<Timed<Event>>, n: nat, hash: string)
    requires n < |run|
  {
    run[n].event.NodeRegistered? && run[n].event.hash == hash
    && Register(After(run, n), run[n].event.nodeId, hash, run[n].event.authOk, run[n].at).1 == Registered
  }

  /** No later token draws the secret of an earlier one again, deleted or not. */
  ghost predicate NeverRedrawn(run: seq<Timed<Event>>, hash: string) {
    forall m, n :: 0 <= m < n < |run| ==> !(Drew(run, m, hash) && Drew(run, n, hash))
  }

  /** After the token was consumed no row with its hash is open. */
  ghost predicate Spent(s: State, hash: string) {
    forall i :: 0 <= i < |s.tokens| && s.tokens[i].hash == hash ==> s.tokens[i].consumedAt.Some?
  }

  ghost predicate Drew(run: seq<Timed<Event>>, m: nat, hash: string)
    requires m < |run|
  {
    run[m].event.TokenCreated? && run[m].event.hash == hash
  }

  /** Event m issued the token: its node, household, secret and deadline are the ones of the request. */
  ghost predicate Issues(run: seq<Timed<Event>>, m: nat, t: Token)
    requires m < |run|
  {
    var e := run[m].event;
    e.TokenCreated?
    && t.nodeId == (if TextOr(e.given, "") != "" then e.given.value else e.newId)
    && t.(consumedAt := None) == Token(e.hash, t.nodeId, e.household, run[m].at + TOKEN_TTL, None)
  }

  /** The same token, at most consumed since. */
  predicate Continues(before: Token, after: Token) {
    after == before || (before.consumedAt.None? && after == before.(consumedAt := after.consumedAt))
  }

  ghost predicate HasSource(s: State, t: Token) {
    exists k :: 0 <= k < |s.tokens| && Continues(s.tokens[k], t)
  }

  lemma {:induction false} IssuedRow(
      s: State, given: Option<string>, newId: string, household: string, hash: string, now: Time, t: Token)
    requires t in CreateToken(s, given, newId, household, hash, now).0.tokens
    ensures t in s.tokens
         || t == Token(hash, if TextOr(given, "") != "" then given.value else newId, household, now + TOKEN_TTL, None)
  {
    if TextOr(given, "") != "" {
      FilterShortens(s.tokens, Closed(given.value));
    }
  }

  /** A step leaves only rows that were there, changed at most by being consumed, or the one it issues. */
  lemma {:induction false} RowsComeFromSomewhere(run: seq<Timed<Event>>, n: nat, t: Token)
    requires n < |run| && t in After(run, n + 1).tokens
    ensures (Issues(run, n, t) && t.consumedAt.None?) || HasSource(After(run, n), t)
  {
    var s, e, now := After(run, n), run[n].event, run[n].at;
    match e
    case TokenCreated(given, newId, household, hash) =>
      IssuedRow(s, given, newId, household, hash, now, t);
      if t in s.tokens {
        var k :| 0 <= k < |s.tokens| && s.tokens[k] == t;
        assert Continues(s.tokens[k], t);
      } else {
        var node := if TextOr(given, "") != "" then given.value else newId;
        assert t == Token(hash, node, household, now + TOKEN_TTL, None) && run[n].event.newId == newId;
        assert Issues(run, n, t);
      }
    case NodeRegistered(nodeId, hash, authOk) =>
      var k :| 0 <= k < |s.tokens| && After(run, n + 1).tokens[k] == t;
      assert Continues(s.tokens[k], t);
    case AdminCreated(_, _, _) =>
      var k :| 0 <= k < |s.tokens| && s.tokens[k] == t;
      assert Continues(s.tokens[k], t);
    case NodeDeleted(_, _) =>
      var k :| 0 <= k < |s.tokens| && s.tokens[k] == t;
      assert Continues(s.tokens[k], t);
    case CleanedUp =>
      FilterShortens(s.tokens, Fresh(now));
      var k :| 0 <= k < |s.tokens| && s.tokens[k] == t;
      assert Continues(s.tokens[k], t);
  }

  lemma {:induction false} IssuedBefore(run: seq<Timed<Event>>, n: nat, t: Token)
    requires n <= |run| && t in After(run, n).tokens
    ensures exists m :: 0 <= m < n && Issues(run, m, t)
  {
    if n == 0 {
    } else {
      RowsComeFromSomewhere(run, n - 1, t);
      var rows := After(run, n - 1).tokens;
      if !Issues(run, n - 1, t) {
        var k :| 0 <= k < |rows| && Continues(rows[k], t);
        IssuedBefore(run, n - 1, rows[k]);
        var m :| 0 <= m < n - 1 && Issues(run, m, rows[k]);
        assert Issues(run, m, t);
      }
    }
  }

  /** A permitted deletion of this node. */
  predicate Removes(e: Event, nodeId: string) {
    e == NodeDeleted(nodeId, true)
  }

  /** A present node stays in its household in every step but its deletion, after which it is gone. */
  lemma {:induction false} PresentStep(s: State, e: Event, now: Time, nodeId: string)
    requires nodeId in s.nodes
    ensures nodeId in Step(s, e, now).nodes <==> !Removes(e, nodeId)
    ensures !Removes(e, nodeId) ==> Step(s, e, now).nodes[nodeId] == s.nodes[nodeId]
  {
    match e
    case TokenCreated(_, _, _, _) =>
    case NodeRegistered(_, _, _) =>
    case AdminCreated(_, _, _) =>
    case NodeDeleted(_, _) =>
    case CleanedUp =>
  }

  /** A new node comes from an administrator or from a registration with a valid token. */
  lemma {:induction false} CreationStep(s: State, e: Event, now: Time, nodeId: string)
    requires nodeId !in s.nodes && nodeId in Step(s, e, now).nodes
    ensures e == AdminCreated(nodeId, Step(s, e, now).nodes[nodeId], true)
         || (e.NodeRegistered? && e.nodeId == nodeId && Register(s, nodeId, e.hash, e.authOk, now).1 == Registered
             && Admits(s, nodeId, e.hash, now) == Some(Step(s, e, now).nodes[nodeId]))
  {
    match e
    case TokenCreated(_, _, _, _) =>
    case NodeRegistered(_, _, _) =>
    case AdminCreated(_, _, _) =>
    case NodeDeleted(_, _) =>
    case CleanedUp =>
  }

  /** Event m issued a token for the node and the household, and event r registered the node with it in time. */
  ghost predicate Admitted(run: seq<Timed<Event>>, m: nat, r: nat, nodeId: string, household: string)
    requires m < |run| && r < |run|
  {
    && run[m].event.TokenCreated?
    && Issues(run, m, Token(run[m].event.hash, nodeId, household, run[m].at + TOKEN_TTL, None))
    && run[r].event.NodeRegistered? && run[r].event.nodeId == nodeId && Consumes(run, r, run[m].event.hash)
    && run[r].at < run[m].at + TOKEN_TTL
  }

  lemma {:induction false} AdmittedByToken(run: seq<Timed<Event>>, r: nat, nodeId: string, household: string)
    requires r < |run| && run[r].event.NodeRegistered? && run[r].event.nodeId == nodeId
    requires Register(After(run, r), nodeId, run[r].event.hash, run[r].event.authOk, run[r].at).1 == Registered
    requires Admits(After(run, r), nodeId, run[r].event.hash, run[r].at) == Some(household)
    ensures exists m :: 0 <= m < r && Admitted(run, m, r, nodeId, household)
  {
    var s, hash := After(run, r), run[r].event.hash;
    var token := s.tokens[FindValid(s.tokens, nodeId, hash, run[r].at).value];
    IssuedBefore(run, r, token);
    var m :| 0 <= m < r && Issues(run, m, token);
    assert token == Token(run[m].event.hash, nodeId, household, run[m].at + TOKEN_TTL, None);
    assert Admitted(run, m, r, nodeId, household);
  }

  /** Event r put the node, absent before, into the table, in this household. */
  ghost predicate Creates(run: seq<Timed<Event>>, r: nat, nodeId: string, household: string)
    requires r < |run|
  {
    nodeId !in After(run, r).nodes
    && (run[r].event == AdminCreated(nodeId, household, true)
        || exists m :: 0 <= m < r && Admitted(run, m, r, nodeId, household))
  }

  ghost predicate Lives(run: seq<Timed<Event>>, i: nat, nodeId: string, household: string)
    requires i <= |run|
  {
    nodeId in After(run, i).nodes && After(run, i).nodes[nodeId] == household
  }

  /** The node is there, in this household, at every point from event m to event n. */
  ghost predicate Stays(run: seq<Timed<Event>>, m: nat, n: nat, nodeId: string, household: string)
    requires m <= n <= |run|
  {
    forall i :: m <= i <= n ==> Lives(run, i, nodeId, household)
  }

  lemma {:induction false} StaysOneMore(run: seq<Timed<Event>>, m: nat, n: nat, nodeId: string, household: string)
    requires m <= n <= |run| && Lives(run, n, nodeId, household)
    requires m < n ==> Stays(run, m, n - 1, nodeId, household)
    ensures Stays(run, m, n, nodeId, household)
  {}

  lemma {:induction false} CreatedByLast(run: seq<Timed<Event>>, n: nat, nodeId: string)
    requires n < |run| && nodeId !in After(run, n).nodes && nodeId in After(run, n + 1).nodes
    ensures Creates(run, n, nodeId, After(run, n + 1).nodes[nodeId])
  {
    CreationStep(After(run, n), run[n].event, run[n].at, nodeId);
    if run[n].event.NodeRegistered? {
      AdmittedByToken(run, n, nodeId, After(run, n + 1).nodes[nodeId]);
    }
  }

  /**
   Where a node in the table comes from: the event that last created it was an administrator's,
   for this household, or a registration with a token that somebody issued for this very node
   id and this household less than ten minutes earlier; and it has stayed there since.
   */
  lemma {:induction false} NodesRestOnTokensOrAdministrators(run: seq<Timed<Event>>, n: nat, nodeId: string)
    requires n <= |run| && nodeId in After(run, n).nodes
    ensures var household := After(run, n).nodes[nodeId];
            exists r :: 0 <= r < n && Creates(run, r, nodeId, household) && Stays(run, r + 1, n, nodeId, household)
  {
    if n == 0 {
    } else {
      var s, e, now, household := After(run, n - 1), run[n - 1].event, run[n - 1].at, After(run, n).nodes[nodeId];
      if nodeId in s.nodes {
        PresentStep(s, e, now, nodeId);
        NodesRestOnTokensOrAdministrators(run, n - 1, nodeId);
        var r :| 0 <= r < n - 1 && Creates(run, r, nodeId, household) && Stays(run, r + 1, n - 1, nodeId, household);
        StaysOneMore(run, r + 1, n, nodeId, household);
      } else {
        CreatedByLast(run, n - 1, nodeId);
        StaysOneMore(run, n, n, nodeId, household);
      }
    }
  }

  lemma {:induction false} LivesOn(run: seq<Timed<Event>>, i: nat, nodeId: string, household: string)
    requires i < |run| && Lives(run, i, nodeId, household)
    ensures Lives(run, i + 1, nodeId, household) <==> !Removes(run[i].event, nodeId)
  {
    PresentStep(After(run, i), run[i].event, run[i].at, nodeId);
  }

  /** A node stays, and stays in its household, exactly until somebody permitted to deletes it. */
  lemma {:induction false} NodesStayExactlyUntilDeleted(
      run: seq<Timed<Event>>, m: nat, n: nat, nodeId: string, household: string)
    requires m <= n <= |run| && Lives(run, m, nodeId, household)
    ensures Stays(run, m, n, nodeId, household) <==> forall i :: m <= i < n ==> !Removes(run[i].event, nodeId)
    decreases n
  {
    if m == n {
    } else {
      NodesStayExactlyUntilDeleted(run, m, n - 1, nodeId, household);
      if Stays(run, m, n - 1, nodeId, household) {
        LivesOn(run, n - 1, nodeId, household);
      } else {
        assert !Stays(run, m, n, nodeId, household);
      }
    }
  }

  /** A deleted node can come back in another household, with a token issued meanwhile. */
  lemma {:induction false} DeletedNodesCanMove(nodeId: string, one: string, two: string, hash: string)
    returns (run: seq<Timed<Event>>)
    requires nodeId != ""
    ensures |run| == 4 && After(run, 1).nodes == map[nodeId := one] && After(run, 4).nodes == map[nodeId := two]
  {
    run := [Timed(AdminCreated(nodeId, one, true), 0), Timed(NodeDeleted(nodeId, true), 1),
            Timed(TokenCreated(Some(nodeId), "", two, hash), 2), Timed(NodeRegistered(nodeId, hash, true), 3)];
    var row := Token(hash, nodeId, two, 2 + TOKEN_TTL, None);
    assert After(run, 0) == State([], map[]);
    assert After(run, 1) == State([], map[nodeId := one]);
    assert After(run, 2) == State([], map[]);
    assert Filter([], Closed(nodeId)) == [];
    assert After(run, 3) == State([row], map[]);
    assert FindValid([row], nodeId, hash, 3) == Some(0) by {
      assert Valid(row, nodeId, hash, 3);
    }
  }

  lemma {:induction false} SpentSurvives(run: seq<Timed<Event>>, n: nat, hash: string)
    requires n < |run| && Spent(After(run, n), hash) && !Drew(run, n, hash)
    ensures Spent(After(run, n + 1), hash)
  {
    var after := After(run, n + 1).tokens;
    forall i | 0 <= i < |after| && after[i].hash == hash ensures after[i].consumedAt.Some? {
      RowsComeFromSomewhere(run, n, after[i]);
    }
  }

  /** Only a drawn secret can be used, so it is not drawn again afterwards. */
  lemma {:induction false} NotDrawnAfterUse(run: seq<Timed<Event>>, m: nat, n: nat, hash: string)
    requires NeverRedrawn(run, hash) && m < n < |run| && Consumes(run, m, hash)
    ensures !Drew(run, n, hash)
  {
    var before := After(run, m).tokens;
    var found := FindValid(before, run[m].event.nodeId, hash, run[m].at).value;
    IssuedBefore(run, m, before[found]);
    var issued :| 0 <= issued < m && Issues(run, issued, before[found]);
    assert Drew(run, issued, hash);
  }

  lemma {:induction false} NeverDrawnAfterUse(run: seq<Timed<Event>>, m: nat, n: nat, hash: string)
    requires NeverRedrawn(run, hash) && m < n <= |run| && Consumes(run, m, hash)
    ensures forall i :: m < i < n ==> !Drew(run, i, hash)
  {
    forall i | m < i < n ensures !Drew(run, i, hash) {
      NotDrawnAfterUse(run, m, i, hash);
    }
  }

  lemma {:induction false} SpentOnUse(run: seq<Timed<Event>>, m: nat, hash: string)
    requires m < |run| && HashesDistinct(After(run, m)) && Consumes(run, m, hash)
    ensures Spent(After(run, m + 1), hash)
  {
    var before := After(run, m).tokens;
    var found := FindValid(before, run[m].event.nodeId, hash, run[m].at).value;
    assert forall i :: 0 <= i < |before| && i != found ==> before[i].hash != before[found].hash;
  }

  lemma {:induction false} StaysSpent(run: seq<Timed<Event>>, m: nat, n: nat, hash: string)
    requires m <= n <= |run| && Spent(After(run, m), hash)
    requires forall i :: m <= i < n ==> !Drew(run, i, hash)
    ensures Spent(After(run, n), hash)
    decreases n
  {
    if m == n {
    } else {
      StaysSpent(run, m, n - 1, hash);
      SpentSurvives(run, n - 1, hash);
    }
  }

  lemma {:induction false} SpentTokensAdmitNobody(s: State, hash: string, nodeId: string, now: Time)
    requires Spent(s, hash)
    ensures Admits(s, nodeId, hash, now) == None
  {
    var found := FindValid(s.tokens, nodeId, hash, now);
  }

  /** A consumed token never validates again, for any node and at any time. */
  lemma {:induction false} ConsumedTokensNeverValidate(
      run: seq<Timed<Event>>, m: nat, n: nat, hash: string, nodeId: string, now: Time)
    requires DrawsFresh(run) && NeverRedrawn(run, hash) && m < n <= |run| && Consumes(run, m, hash)
    ensures Admits(After(run, n), nodeId, hash, now) == None
  {
    AtMostOneOpenToken(run, m);
    SpentOnUse(run, m, hash);
    NeverDrawnAfterUse(run, m, n, hash);
    StaysSpent(run, m + 1, n, hash);
    SpentTokensAdmitNobody(After(run, n), hash, nodeId, now);
  }

  // ---------------------------------------------------------------- how long a token is good

  /** A row that can be registered with: of the node, with the hash, unconsumed and before its deadline. */
  lemma {:induction false} AdmissionNeedsExactlyAGoodRow(s: State, nodeId: string, hash: string, now: Time)
    ensures Admits(s, nodeId, hash, now).Some? <==>
            exists t :: t in s.tokens && t.nodeId == nodeId && t.hash == hash && t.consumedAt == None
                && now < t.expiresAt
    ensures Admits(s, nodeId, hash, now).Some? ==>
            exists t :: t in s.tokens && t.nodeId == nodeId && t.hash == hash
                        && t.household == Admits(s, nodeId, hash, now).value
  {
    var found := FindValid(s.tokens, nodeId, hash, now);
    if found.Some? {
      assert s.tokens[found.value] in s.tokens;
    } else {
      forall t | t in s.tokens ensures !Valid(t, nodeId, hash, now) {
        var i :| 0 <= i < |s.tokens| && s.tokens[i] == t;
      }
    }
  }

  /**
   A registration is let through exactly if a good row admits the node, it is not there yet, and the
   auth service agrees.
   */
  lemma {:induction false} RegistrationsSpendTheirToken(s: State, nodeId: string, hash: string, authOk: bool, now: Time)
    requires HashesDistinct(s)
    ensures var (t, reply) := Register(s, nodeId, hash, authOk, now);
            && (reply == Registered <==> Admits(s, nodeId, hash, now).Some? && nodeId !in s.nodes && authOk)
            && (reply == Unauthorized <==> Admits(s, nodeId, hash, now).None?)
            && (reply != Registered ==> t == s)
            && (reply == Registered ==>
                  && t.nodes == s.nodes[nodeId := Admits(s, nodeId, hash, now).value]
                  && |t.tokens| == |s.tokens|
                  && forall i :: 0 <= i < |s.tokens| ==>
                       t.tokens[i] == if s.tokens[i].hash == hash then s.tokens[i].(consumedAt := Some(now))
                                      else s.tokens[i])
  {
    var found := FindValid(s.tokens, nodeId, hash, now);
    if found.Some? {
      forall i | 0 <= i < |s.tokens| && i != found.value ensures s.tokens[i].hash != hash {
        assert s.tokens[found.value].hash == hash;
      }
    }
  }

  /**
   Issuing a token adds its row, good for ten minutes, and deletes exactly the unconsumed rows of a
   node that is named; a registered node gets none.
   */
  lemma {:induction false} IssuingReplacesExactlyTheOpenRows(
      s: State, given: Option<string>, newId: string, household: string, hash: string, now: Time)
    ensures var t := CreateToken(s, given, newId, household, hash, now).0;
            var named := given.Some? && given.value != "";
            if named && given.value in s.nodes then t == s
            else
              && t.nodes == s.nodes
              && forall row :: row in t.tokens <==>
                   || row == Token(hash, if named then given.value else newId, household, now + 600, None)
                   || (row in s.tokens && !(named && row.nodeId == given.value && row.consumedAt == None))
  {
    if given.Some? && given.value != "" {
      FilterShortens(s.tokens, Closed(given.value));
    }
  }

  /** Cleaning up deletes exactly the rows that expired, or were consumed, more than a day ago. */
  lemma {:induction false} CleanupDeletesExactlyTheOld(s: State, now: Time)
    ensures Cleanup(s, now).nodes == s.nodes
    ensures forall t :: t in Cleanup(s, now).tokens <==>
              t in s.tokens && now - 86400 <= t.expiresAt && (t.consumedAt.Some? ==> now - 86400 <= t.consumedAt.value)
  {
    FilterShortens(s.tokens, Fresh(now));
  }

  /** Event i asks for a new token for this very node, which is not registered: its open tokens are replaced. */
  ghost predicate Replaces(run: seq<Timed<Event>>, i: nat, nodeId: string)
    requires i < |run|
  {
    run[i].event.TokenCreated? && nodeId != "" && run[i].event.given == Some(nodeId)
    && nodeId !in After(run, i).nodes
  }

  /** Event i takes the open row out of the table, or closes it. */
  ghost predicate Ends(run: seq<Timed<Event>>, i: nat, t: Token)
    requires i < |run|
  {
    || Consumes(run, i, t.hash) || Replaces(run, i, t.nodeId)
    || (run[i].event.CleanedUp? && t.expiresAt < run[i].at - 86400)
  }

  lemma {:induction false} IssuingKeepsOthers(
      s: State, given: Option<string>, newId: string, household: string, hash: string, now: Time, t: Token)
    requires t in s.tokens && t.consumedAt == None && t.hash != hash
    ensures t in CreateToken(s, given, newId, household, hash, now).0.tokens
            <==> !(t.nodeId != "" && given == Some(t.nodeId) && t.nodeId !in s.nodes)
  {
    if TextOr(given, "") != "" {
      FilterShortens(s.tokens, Closed(given.value));
    }
  }

  lemma {:induction false} RegistrationsKeepOthers(
      s: State, nodeId: string, hash: string, authOk: bool, now: Time, t: Token)
    requires HashesDistinct(s) && t in s.tokens && t.consumedAt == None
    ensures t in Register(s, nodeId, hash, authOk, now).0.tokens
            <==> !(t.hash == hash && Register(s, nodeId, hash, authOk, now).1 == Registered)
  {
    var after := Register(s, nodeId, hash, authOk, now).0.tokens;
    RegistrationsSpendTheirToken(s, nodeId, hash, authOk, now);
    var k :| 0 <= k < |s.tokens| && s.tokens[k] == t;
    assert t.hash != hash ==> after[k] == t;
  }

  /** An open row stays in the table until one of these events. */
  lemma {:induction false} OpenRowStep(run: seq<Timed<Event>>, i: nat, t: Token)
    requires i < |run| && HashesDistinct(After(run, i)) && !Drew(run, i, t.hash)
    requires t in After(run, i).tokens && t.consumedAt == None
    ensures t in After(run, i + 1).tokens <==> !Ends(run, i, t)
  {
    var s, now := After(run, i), run[i].at;
    match run[i].event
    case TokenCreated(given, newId, household, hash) =>
      IssuingKeepsOthers(s, given, newId, household, hash, now, t);
    case NodeRegistered(nodeId, hash, authOk) => RegistrationsKeepOthers(s, nodeId, hash, authOk, now, t);
    case AdminCreated(_, _, _) =>
    case NodeDeleted(_, _) =>
    case CleanedUp => CleanupDeletesExactlyTheOld(s, now);
  }

  /** A row that is not in the table does not come back, as its secret is not drawn again. */
  lemma {:induction false} GoneForGood(run: seq<Timed<Event>>, i: nat, t: Token)
    requires i < |run| && !Drew(run, i, t.hash) && t.consumedAt == None && t !in After(run, i).tokens
    ensures t !in After(run, i + 1).tokens
  {
    if t in After(run, i + 1).tokens {
      RowsComeFromSomewhere(run, i, t);
    }
  }

  ghost predicate Holds(run: seq<Timed<Event>>, i: nat, t: Token) {
    i <= |run| && t in After(run, i).tokens
  }

  ghost predicate EndsAt(run: seq<Timed<Event>>, i: nat, t: Token) {
    i < |run| && Ends(run, i, t)
  }

  ghost predicate ChangesOnlyByEnding(run: seq<Timed<Event>>, i: nat, t: Token)
    requires i < |run|
  {
    Holds(run, i + 1, t) <==> Holds(run, i, t) && !EndsAt(run, i, t)
  }

  lemma {:induction false} OpenRowNext(run: seq<Timed<Event>>, m: nat, n: nat, t: Token)
    requires DrawsFresh(run) && NeverRedrawn(run, t.hash) && m < n < |run|
    requires Drew(run, m, t.hash) && t.consumedAt == None
    ensures ChangesOnlyByEnding(run, n, t)
  {
    assert !Drew(run, n, t.hash);
    if t in After(run, n).tokens {
      AtMostOneOpenToken(run, n);
      OpenRowStep(run, n, t);
    } else {
      GoneForGood(run, n, t);
    }
  }

  lemma {:induction false} StaysUntil(there: nat -> bool, ends: nat -> bool, m: nat, n: nat)
    requires m < n && there(m + 1)
    requires forall i :: m < i < n ==> (there(i + 1) <==> there(i) && !ends(i))
    ensures there(n) <==> forall i :: m < i < n ==> !ends(i)
    decreases n
  {
    if n == m + 1 {
    } else {
      StaysUntil(there, ends, m, n - 1);
      assert there(n) <==> there(n - 1) && !ends(n - 1);
    }
  }

  /** The open row that event m issued is there after event n exactly if nothing has ended it since. */
  lemma {:induction false} OpenRowsLast(run: seq<Timed<Event>>, m: nat, n: nat, t: Token)
    requires m < n <= |run| && Holds(run, m + 1, t)
    requires forall i :: m < i < n ==> ChangesOnlyByEnding(run, i, t)
    ensures Holds(run, n, t) <==> forall i :: m < i < n ==> !EndsAt(run, i, t)
  {
    var there, ends := (i: nat) => Holds(run, i, t), (i: nat) => EndsAt(run, i, t);
    forall i | m < i < n ensures there(i + 1) <==> there(i) && !ends(i) {
      assert ChangesOnlyByEnding(run, i, t);
    }
    StaysUntil(there, ends, m, n);
    assert forall i :: m < i < n ==> ends(i) == EndsAt(run, i, t);
  }

  /** Every row with the secret that event m drew is the row it issued, at most consumed since. */
  lemma {:induction false} OneRowPerSecret(run: seq<Timed<Event>>, m: nat, n: nat, t: Token, row: Token)
    requires NeverRedrawn(run, t.hash) && m < n <= |run| && Drew(run, m, t.hash)
    requires Issues(run, m, t) && t.consumedAt == None
    requires row in After(run, n).tokens && row.hash == t.hash
    ensures row.(consumedAt := None) == t
  {
    IssuedBefore(run, n, row);
    var i :| 0 <= i < n && Issues(run, i, row);
    assert Drew(run, i, t.hash);
    assert i == m;
  }

  /** Event m issued a token of this node and secret. */
  ghost predicate IssuesFor(run: seq<Timed<Event>>, m: nat, nodeId: string, hash: string)
    requires m < |run|
  {
    && run[m].event.TokenCreated? && run[m].event.hash == hash
    && if run[m].event.given.None? || run[m].event.given == Some("") then nodeId == run[m].event.newId
       else run[m].event.given == Some(nodeId) && nodeId !in After(run, m).nodes
  }

  lemma {:induction false} IssuedNow(run: seq<Timed<Event>>, m: nat, nodeId: string, hash: string) returns (t: Token)
    requires m < |run| && IssuesFor(run, m, nodeId, hash)
    ensures t == Token(hash, nodeId, run[m].event.household, run[m].at + 600, None)
    ensures Issues(run, m, t) && Holds(run, m + 1, t)
  {
    t := Token(hash, nodeId, run[m].event.household, run[m].at + 600, None);
    var tokens := After(run, m + 1).tokens;
    assert tokens[|tokens| - 1] == t;
  }

  /**
   How long a token is good: it admits its node, and into the household it was issued for, at any
   time before ten minutes are over, unless in between it was used or replaced by a newer token
   for that node; and at no other time.
   */
  lemma {:induction false} TokensAreGoodExactlyUntilUsedReplacedOrOld(
      run: seq<Timed<Event>>, m: nat, n: nat, nodeId: string, hash: string, now: Time)
    requires DrawsFresh(run) && NeverRedrawn(run, hash) && Runs.Chronological(run) && m < n <= |run|
    requires IssuesFor(run, m, nodeId, hash) && run[n - 1].at <= now
    ensures Admits(After(run, n), nodeId, hash, now) ==
            if now < run[m].at + 600
               && (forall i :: m < i < n ==> !Consumes(run, i, hash) && !Replaces(run, i, nodeId))
            then Some(run[m].event.household) else None
  {
    var t := IssuedNow(run, m, nodeId, hash);
    assert Drew(run, m, hash);
    forall i | m < i < n ensures ChangesOnlyByEnding(run, i, t) {
      OpenRowNext(run, m, i, t);
    }
    OpenRowsLast(run, m, n, t);
    AdmissionNeedsExactlyAGoodRow(After(run, n), nodeId, hash, now);
    forall row | row in After(run, n).tokens && row.hash == hash ensures row.(consumedAt := None) == t {
      OneRowPerSecret(run, m, n, t, row);
    }
    assert forall row :: row in After(run, n).tokens && row.hash == hash && row.consumedAt == None ==> row == t;
    forall i | m < i < n && run[i].event.CleanedUp? && t.expiresAt < run[i].at - 86400 ensures t.expiresAt < now {
      assert run[i].at <= run[n - 1].at;
    }
    assert forall i :: m < i < n ==>
        (EndsAt(run, i, t) <==>
           Consumes(run, i, hash) || Replaces(run, i, nodeId)
           || (run[i].event.CleanedUp? && t.expiresAt < run[i].at - 86400));
  }
}
