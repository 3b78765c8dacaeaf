/**
  The two authentication interceptors of client.go in their own form, on one shared token cache, with
  arbitrary steps of the other calls between the steps of one call. What they do is shown to be a run
  of AuthRuns, so the results about every run hold of this code.
 */
module AuthCode {
  import opened Common
  import opened AuthRuns
  import Cache = TokenCache

  /** No step of these belongs to the call id. */
  predicate Foreign(acts: seq<Action>, id: nat) {
    forall i :: 0 <= i < |acts| ==> acts[i].id != id
  }

  /** The other calls leave the call id alone. */
  ghost predicate Away(env: nat -> seq<Action>, id: nat) {
    forall n: nat :: Foreign(env(n), id)
  }

  lemma {:induction false} OthersKeepCall(s: State, others: seq<Action>, id: nat)
    requires Foreign(others, id)
    ensures id in Run(s, others).calls <==> id in s.calls
    ensures id in s.calls ==> Run(s, others).calls[id] == s.calls[id]
    decreases |others|
  {
    if others != [] {
      OthersKeepCall(s, others[..|others| - 1], id);
    }
  }

  lemma {:induction false} RunKeepsState(s: State, acts: seq<Action>)
    ensures Run(s, acts).basic == s.basic
    ensures s.cached != Some("") ==> Run(s, acts).cached != Some("")
    decreases |acts|
  {
    if acts != [] {
      RunKeepsState(s, acts[..|acts| - 1]);
    }
  }

  /** Some run of the calls leads to s. */
  ghost predicate Reachable(s: State) {
    exists acts :: s == Run(Init(s.basic), acts)
  }

  lemma ReachableGrows(s: State, acts: seq<Action>)
    requires Reachable(s)
    ensures Reachable(Run(s, acts))
  {
    var before :| s == Run(Init(s.basic), before);
    RunAppend(Init(s.basic), before, acts);
    RunKeepsState(s, acts);
    assert Run(s, acts) == Run(Init(s.basic), before + acts);
  }

  /** Whatever the interceptors of a client with Basic credentials have done keeps what every run keeps. */
  lemma CodeKeepsRuns(s: State)
    requires Reachable(s) && s.basic != ""
    ensures Inv(s)
    ensures forall j :: 0 <= j < |s.log| && s.log[j].Sent? ==> Credentials(s.log[j].md) == Credentials(s.log[j].outgoing) + 1
    ensures forall j :: 0 <= j < |s.log| && s.log[j].CacheRead? ==>
              (s.log[j].credential.Basic? <==> forall i :: 0 <= i < j ==> !s.log[i].TokenCached?)
  {
    var acts :| s == Run(Init(s.basic), acts);
    InvOverRuns(s.basic, acts);
    forall j | 0 <= j < |s.log| && s.log[j].Sent? ensures Credentials(s.log[j].md) == Credentials(s.log[j].outgoing) + 1 {
      SendsOneCredential(s.basic, acts, j);
    }
    forall j | 0 <= j < |s.log| && s.log[j].CacheRead?
      ensures s.log[j].credential.Basic? <==> forall i :: 0 <= i < j ==> !s.log[i].TokenCached?
    {
      BasicOnlyBeforeFirstToken(s.basic, acts, j);
    }
  }

  /**
    The steps of one unary call, and of the other calls between them; env(k) is what the others do
    before the k-th step: the cache is read, the request sent, the answer received and its token cached.
   */
  function UnarySchedule(id: nat, outgoing: Cache.Metadata, response: Option<Cache.Metadata>, env: nat -> seq<Action>): seq<Action>
  {
    var a := Advance(id, response);
    [Begin(id, Unary, outgoing)] + env(0) + [a] + env(1) + [a] + env(2) + [a] + env(3) + [a]
  }

  /** The same for a stream, whose answer is not looked at. */
  function StreamSchedule(id: nat, outgoing: Cache.Metadata, response: Option<Cache.Metadata>, env: nat -> seq<Action>): seq<Action>
  {
    var a := Advance(id, response);
    [Begin(id, Stream, outgoing)] + env(0) + [a] + env(1) + [a] + env(2) + [a]
  }

  /** The calls of a client. basic and cache are what the interceptors hold; calls and log say where each call stands. */
  class AuthClient {
    const basic: string
    const cache: Cache.TokenCache
    var calls: map<nat, Call>
    var log: seq<Note>

    ghost function View(): State
      reads this, cache
    {
      State(basic, cache.cachedToken, calls, log)
    }

    ghost predicate Valid()
      reads this, cache
    {
      cache.Valid() && Reachable(View())
    }

    constructor (basic: string)
      ensures Valid() && View() == Init(basic) && fresh(cache)
    {
      this.basic := basic;
      cache := new Cache.TokenCache();
      calls, log := map[], [];
      new;
      assert Run(Init(basic), []) == Init(basic);
    }

    /** The other calls run. */
    method Interfere(ghost s0: State, ghost acts: seq<Action>, others: seq<Action>, id: nat)
      requires cache.Valid() && View() == Run(s0, acts) && Foreign(others, id) && id in calls
      modifies this, cache
      ensures cache.Valid() && View() == Run(s0, acts + others) && id in calls && calls[id] == old(calls[id])
    {
      RunAppend(s0, acts, others);
      RunKeepsState(View(), others);
      OthersKeepCall(View(), others, id);
      var s := Run(State(basic, cache.cachedToken, calls, log), others);
      cache.cachedToken, calls, log := s.cached, s.calls, s.log;
    }

    /** A call reaches the interceptor. */
    method Arrive(ghost s0: State, id: nat, kind: Kind, outgoing: Cache.Metadata)
      requires View() == s0 && id !in calls
      modifies this
      ensures View() == Run(s0, [Begin(id, kind, outgoing)]) && id in calls && calls[id] == Begun(kind, outgoing)
    {
      RunOneMore(s0, [], Begin(id, kind, outgoing));
      assert [] + [Begin(id, kind, outgoing)] == [Begin(id, kind, outgoing)];
      calls := calls[id := Begun(kind, outgoing)];
    }

    /** The interceptor makes the metadata from the cache. */
    method ReadCache(ghost s0: State, ghost acts: seq<Action>, id: nat, kind: Kind, outgoing: Cache.Metadata,
                     ghost response: Option<Cache.Metadata>)
      returns (c: Cache.Credential, md: Cache.Metadata)
      requires cache.Valid() && View() == Run(s0, acts) && id in calls && calls[id] == Begun(kind, outgoing)
      modifies this
      ensures View() == Run(s0, acts + [Advance(id, response)]) && id in calls && calls[id] == Armed(kind, outgoing, c)
      ensures c == Cache.Choose(cache.cachedToken, basic) && md == Cache.Carrying(c, basic)
    {
      RunOneMore(s0, acts, Advance(id, response));
      c := Cache.Choose(cache.cachedToken, basic);
      md := cache.CreateAuthMetadata(basic);
      calls, log := calls[id := Armed(kind, outgoing, c)], log + [CacheRead(id, c)];
    }

    /** It joins them to the caller's metadata and passes the call on. */
    method Send(ghost s0: State, ghost acts: seq<Action>, id: nat, kind: Kind, outgoing: Cache.Metadata,
                ghost response: Option<Cache.Metadata>, c: Cache.Credential, md: Cache.Metadata)
      returns (sent: Cache.Metadata)
      requires View() == Run(s0, acts) && id in calls && calls[id] == Armed(kind, outgoing, c) && md == Cache.Carrying(c, basic)
      modifies this
      ensures View() == Run(s0, acts + [Advance(id, response)]) && id in calls && calls[id] == InFlight(kind)
      ensures sent == Cache.Join(outgoing, md)
    {
      RunOneMore(s0, acts, Advance(id, response));
      sent := Cache.Join(outgoing, md);
      calls, log := calls[id := InFlight(kind)], log + [Sent(id, outgoing, c, sent)];
    }

    /** The call is answered. */
    method Receive(ghost s0: State, ghost acts: seq<Action>, id: nat, kind: Kind, response: Option<Cache.Metadata>)
      requires View() == Run(s0, acts) && id in calls && calls[id] == InFlight(kind)
      modifies this
      ensures View() == Run(s0, acts + [Advance(id, response)])
      ensures id in calls && calls[id] == if kind.Unary? then Answered(response) else Ended
    {
      RunOneMore(s0, acts, Advance(id, response));
      calls, log := calls[id := if kind.Unary? then Answered(response) else Ended], log + [Responded(id, response)];
    }

    /** A unary call gives the header of its answer, if there is one, to the cache. */
    method WriteBack(ghost s0: State, ghost acts: seq<Action>, id: nat, response: Option<Cache.Metadata>)
      requires cache.Valid() && View() == Run(s0, acts) && id in calls && calls[id] == Answered(response)
      modifies this, cache
      ensures cache.Valid() && View() == Run(s0, acts + [Advance(id, response)]) && id in calls && calls[id] == Ended
      ensures forall token: string :: Cache.Bears(response, token) ==> cache.cachedToken == Some(token)
    {
      RunOneMore(s0, acts, Advance(id, response));
      if response.Some? {
        cache.ExtractAndCacheToken(response);
      }
      calls := calls[id := Ended];
      if Cache.TokenOf(response) != "" {
        log := log + [TokenCached(id, response)];
      }
    }

    /**
      The unary interceptor, for the call id. It sends what the cache held when it was read, joined
      to the caller's metadata, and leaves the token of the answer in the cache; the whole is a run.
     */
    method UnaryInterceptor(id: nat, outgoing: Cache.Metadata, response: Option<Cache.Metadata>, env: nat -> seq<Action>)
      returns (sent: Cache.Metadata)
      requires Valid() && id !in calls && Away(env, id)
      modifies this, cache
      ensures Valid() && View() == Run(old(View()), UnarySchedule(id, outgoing, response, env))
      ensures forall token: string :: Cache.Bears(response, token) ==> cache.cachedToken == Some(token)
      ensures var read := Run(old(View()), [Begin(id, Unary, outgoing)] + env(0)).cached;
              && sent == Cache.Join(outgoing, Cache.Carrying(Cache.Choose(read, basic), basic))
              && (basic != "" ==> Cache.Authenticated(sent, outgoing, read, basic))
    {
      ghost var s0, a := View(), [Advance(id, response)];
      assert forall n: nat :: Foreign(env(n), id);
      Arrive(s0, id, Unary, outgoing);
      ghost var acts := [Begin(id, Unary, outgoing)];
      Interfere(s0, acts, env(0), id);
      acts := acts + env(0);
      ghost var read := cache.cachedToken;
      var c, md := ReadCache(s0, acts, id, Unary, outgoing, response);
      Interfere(s0, acts + a, env(1), id);
      acts := acts + a + env(1);
      sent := Send(s0, acts, id, Unary, outgoing, response, c, md);
      Interfere(s0, acts + a, env(2), id);
      acts := acts + a + env(2);
      Receive(s0, acts, id, Unary, response);
      Interfere(s0, acts + a, env(3), id);
      acts := acts + a + env(3);
      WriteBack(s0, acts, id, response);
      ReachableGrows(s0, acts + a);
      if basic != "" {
        Cache.CallSends(read, basic, outgoing);
      }
    }

    /** The stream interceptor reads the cache likewise and never writes it. */
    method StreamInterceptor(id: nat, outgoing: Cache.Metadata, response: Option<Cache.Metadata>, env: nat -> seq<Action>)
      returns (sent: Cache.Metadata)
      requires Valid() && id !in calls && Away(env, id)
      modifies this, cache
      ensures Valid() && View() == Run(old(View()), StreamSchedule(id, outgoing, response, env))
      ensures var read := Run(old(View()), [Begin(id, Stream, outgoing)] + env(0)).cached;
              && sent == Cache.Join(outgoing, Cache.Carrying(Cache.Choose(read, basic), basic))
              && (basic != "" ==> Cache.Authenticated(sent, outgoing, read, basic))
    {
      ghost var s0, a := View(), [Advance(id, response)];
      assert forall n: nat :: Foreign(env(n), id);
      Arrive(s0, id, Stream, outgoing);
      ghost var acts := [Begin(id, Stream, outgoing)];
      Interfere(s0, acts, env(0), id);
      acts := acts + env(0);
      ghost var read := cache.cachedToken;
      var c, md := ReadCache(s0, acts, id, Stream, outgoing, response);
      Interfere(s0, acts + a, env(1), id);
      acts := acts + a + env(1);
      sent := Send(s0, acts, id, Stream, outgoing, response, c, md);
      Interfere(s0, acts + a, env(2), id);
      acts := acts + a + env(2);
      Receive(s0, acts, id, Stream, response);
      ReachableGrows(s0, acts + a);
      if basic != "" {
        Cache.CallSends(read, basic, outgoing);
      }
    }
  }
}
