/**
  Runs of many calls that share one token cache. Each call reads the cache, sends, is answered and,
  if it is unary, writes back; the steps of different calls interleave in every way. Basic
  credentials are not empty: the interceptors are installed only when there are credentials.
 */
module AuthRuns {
  import opened Common
  import opened TokenCache

  datatype Kind = Unary | Stream

  datatype Call =
    | Begun(kind: Kind, outgoing: Metadata)
    | Armed(kind: Kind, outgoing: Metadata, credential: Credential)
    | InFlight(kind: Kind)
    | Answered(response: Option<Metadata>)
    | Ended

  /** What happens, in order. */
  datatype Note =
    | CacheRead(id: nat, credential: Credential)
    | Sent(id: nat, outgoing: Metadata, credential: Credential, md: Metadata)
    | Responded(id: nat, response: Option<Metadata>)
    | TokenCached(id: nat, response: Option<Metadata>)

  datatype State = State(basic: string, cached: Option<string>, calls: map<nat, Call>, log: seq<Note>)

  datatype Action = Begin(id: nat, kind: Kind, outgoing: Metadata) | Advance(id: nat, response: Option<Metadata>)

  function Init(basic: string): State {
    State(basic, None, map[], [])
  }

  function NextCall(c: Call, cached: Option<string>, basic: string, response: Option<Metadata>): Call {
    match c
    case Begun(k, o) => Armed(k, o, Choose(cached, basic))
    case Armed(k, _, _) => InFlight(k)
    case InFlight(k) => if k.Unary? then Answered(response) else Ended
    case Answered(_) => Ended
    case Ended => Ended
  }

  function NoteOf(id: nat, c: Call, cached: Option<string>, basic: string, response: Option<Metadata>): Option<Note> {
    match c
    case Begun(_, _) => Some(CacheRead(id, Choose(cached, basic)))
    case Armed(_, o, k) => Some(Sent(id, o, k, Join(o, Carrying(k, basic))))
    case InFlight(_) => Some(Responded(id, response))
    case Answered(r) => if TokenOf(r) == "" then None else Some(TokenCached(id, r))
    case Ended => None
  }

  function NextCached(c: Call, cached: Option<string>): Option<string> {
    if c.Answered? then Refreshed(cached, c.response) else cached
  }

  function Noted(log: seq<Note>, note: Option<Note>): seq<Note> {
    match note
    case None => log
    case Some(n) => log + [n]
  }

  function Step(s: State, a: Action): State {
    if a.Begin? then
      if a.id in s.calls then s else s.(calls := s.calls[a.id := Begun(a.kind, a.outgoing)])
    else if a.id in s.calls then
      var c := s.calls[a.id];
      var note := NoteOf(a.id, c, s.cached, s.basic, a.response);
      State(s.basic, NextCached(c, s.cached), s.calls[a.id := NextCall(c, s.cached, s.basic, a.response)], Noted(s.log, note))
    else s
  }

  function Run(s: State, acts: seq<Action>): State
    decreases |acts|
  {
    if acts == [] then s else Step(Run(s, acts[..|acts| - 1]), acts[|acts| - 1])
  }

  lemma RunOneMore(s: State, acts: seq<Action>, a: Action)
    ensures Run(s, acts + [a]) == Step(Run(s, acts), a)
  {
    assert (acts + [a])[..|acts|] == acts;
  }

  lemma {:induction false} RunAppend(s: State, a: seq<Action>, b: seq<Action>)
    ensures Run(s, a + b) == Run(Run(s, a), b)
    decreases |b|
  {
    if b == [] {
      assert a + b == a;
    } else {
      var b', x := b[..|b| - 1], b[|b| - 1];
      RunAppend(s, a, b');
      assert b == b' + [x] && a + b == (a + b') + [x];
      RunOneMore(s, a + b', x);
      RunOneMore(Run(s, a), b', x);
    }
  }

  /** The token of the last write-back that carried one. */
  function LastCached(log: seq<Note>): Option<string>
    decreases |log|
  {
    if log == [] then None
    else if log[|log| - 1].TokenCached? then Some(TokenOf(log[|log| - 1].response))
    else LastCached(log[..|log| - 1])
  }

  /** Every read of the cache found the last token written back before it. */
  ghost predicate ReadsLast(log: seq<Note>, basic: string) {
    forall j :: 0 <= j < |log| && log[j].CacheRead? ==> log[j].credential == Choose(LastCached(log[..j]), basic)
  }

  /** Every call sends what it read, joined to what its caller had put there. */
  ghost predicate SendsRead(log: seq<Note>, basic: string) {
    forall j :: 0 <= j < |log| && log[j].Sent? ==>
      && CacheRead(log[j].id, log[j].credential) in log[..j]
      && log[j].md == Join(log[j].outgoing, Carrying(log[j].credential, basic))
  }

  /** Every cached token came with an answer to the call that cached it. */
  ghost predicate CachesAnswers(log: seq<Note>) {
    forall j :: 0 <= j < |log| && log[j].TokenCached? ==>
      TokenOf(log[j].response) != "" && Responded(log[j].id, log[j].response) in log[..j]
  }

  ghost predicate CallsLogged(s: State) {
    && (forall id: nat :: id in s.calls && s.calls[id].Armed? ==> CacheRead(id, s.calls[id].credential) in s.log)
    && (forall id: nat :: id in s.calls && s.calls[id].Answered? ==> Responded(id, s.calls[id].response) in s.log)
  }

  ghost predicate Inv(s: State) {
    && s.cached == LastCached(s.log)
    && s.cached != Some("")
    && ReadsLast(s.log, s.basic) && SendsRead(s.log, s.basic) && CachesAnswers(s.log)
    && CallsLogged(s)
  }

  lemma ReadsLastGrows(log: seq<Note>, basic: string, n: Note)
    requires ReadsLast(log, basic) && (n.CacheRead? ==> n.credential == Choose(LastCached(log), basic))
    ensures ReadsLast(log + [n], basic)
  {
    var log' := log + [n];
    assert log'[..|log|] == log;
    assert forall j :: 0 <= j < |log| ==> log'[..j] == log[..j] && log'[j] == log[j];
  }

  lemma SendsReadGrows(log: seq<Note>, basic: string, n: Note)
    requires SendsRead(log, basic)
    requires n.Sent? ==> CacheRead(n.id, n.credential) in log && n.md == Join(n.outgoing, Carrying(n.credential, basic))
    ensures SendsRead(log + [n], basic)
  {
    var log' := log + [n];
    assert log'[..|log|] == log;
    assert forall j :: 0 <= j < |log| ==> log'[..j] == log[..j] && log'[j] == log[j];
  }

  lemma CachesAnswersGrows(log: seq<Note>, n: Note)
    requires CachesAnswers(log)
    requires n.TokenCached? ==> TokenOf(n.response) != "" && Responded(n.id, n.response) in log
    ensures CachesAnswers(log + [n])
  {
    var log' := log + [n];
    assert log'[..|log|] == log;
    assert forall j :: 0 <= j < |log| ==> log'[..j] == log[..j] && log'[j] == log[j];
  }

  lemma StepKeepsCalls(s: State, a: Action)
    requires CallsLogged(s)
    ensures CallsLogged(Step(s, a))
  {
    var s' := Step(s, a);
    assert forall n: Note :: n in s.log ==> n in s'.log;
    if a.Advance? && a.id in s.calls {
      var note := NoteOf(a.id, s.calls[a.id], s.cached, s.basic, a.response);
      if note.Some? {
        assert note.value == s'.log[|s.log|];
      }
    }
  }

  lemma LogGrows(log: seq<Note>, basic: string, n: Note)
    requires ReadsLast(log, basic) && SendsRead(log, basic) && CachesAnswers(log)
    requires n.CacheRead? ==> n.credential == Choose(LastCached(log), basic)
    requires n.Sent? ==> CacheRead(n.id, n.credential) in log && n.md == Join(n.outgoing, Carrying(n.credential, basic))
    requires n.TokenCached? ==> TokenOf(n.response) != "" && Responded(n.id, n.response) in log
    ensures ReadsLast(log + [n], basic) && SendsRead(log + [n], basic) && CachesAnswers(log + [n])
  {
    ReadsLastGrows(log, basic, n);
    SendsReadGrows(log, basic, n);
    CachesAnswersGrows(log, n);
  }

  lemma LastCachedGrows(log: seq<Note>, n: Note)
    ensures LastCached(log + [n]) == if n.TokenCached? then Some(TokenOf(n.response)) else LastCached(log)
  {
    assert (log + [n])[..|log|] == log;
  }

  /** What a step notes is what LogGrows asks of the next entry of the log. */
  lemma NoteFits(s: State, id: nat, response: Option<Metadata>)
    requires Inv(s) && id in s.calls
    ensures match NoteOf(id, s.calls[id], s.cached, s.basic, response)
            case None => true
            case Some(n) =>
              && (n.CacheRead? ==> n.credential == Choose(LastCached(s.log), s.basic))
              && (n.Sent? ==> CacheRead(n.id, n.credential) in s.log && n.md == Join(n.outgoing, Carrying(n.credential, s.basic)))
              && (n.TokenCached? ==> TokenOf(n.response) != "" && Responded(n.id, n.response) in s.log)
  {
  }

  lemma AdvanceKeepsLog(s: State, id: nat, response: Option<Metadata>)
    requires Inv(s) && id in s.calls
    ensures var s' := Step(s, Advance(id, response));
            ReadsLast(s'.log, s.basic) && SendsRead(s'.log, s.basic) && CachesAnswers(s'.log)
  {
    var note := NoteOf(id, s.calls[id], s.cached, s.basic, response);
    NoteFits(s, id, response);
    if note.Some? {
      LogGrows(s.log, s.basic, note.value);
    }
  }

  /** The cache after a step of a call is the last token in the log after it. */
  lemma CacheFollowsLog(log: seq<Note>, cached: Option<string>, id: nat, c: Call, basic: string, response: Option<Metadata>)
    requires cached == LastCached(log) && cached != Some("")
    ensures NextCached(c, cached) == LastCached(Noted(log, NoteOf(id, c, cached, basic, response)))
    ensures NextCached(c, cached) != Some("")
  {
    var note := NoteOf(id, c, cached, basic, response);
    if note.Some? {
      LastCachedGrows(log, note.value);
    }
  }

  lemma StepKeepsInv(s: State, a: Action)
    requires Inv(s)
    ensures Inv(Step(s, a))
  {
    StepKeepsCalls(s, a);
    if a.Advance? && a.id in s.calls {
      AdvanceKeepsLog(s, a.id, a.response);
      CacheFollowsLog(s.log, s.cached, a.id, s.calls[a.id], s.basic, a.response);
    }
  }

  lemma {:induction false} InvOverRuns(basic: string, acts: seq<Action>)
    ensures Inv(Run(Init(basic), acts)) && Run(Init(basic), acts).basic == basic
    decreases |acts|
  {
    if acts != [] {
      InvOverRuns(basic, acts[..|acts| - 1]);
      StepKeepsInv(Run(Init(basic), acts[..|acts| - 1]), acts[|acts| - 1]);
    }
  }

  lemma {:induction false} LastCachedIs(log: seq<Note>)
    ensures LastCached(log).Some? ==>
              exists i :: 0 <= i < |log| && log[i].TokenCached? && TokenOf(log[i].response) == LastCached(log).value
    ensures LastCached(log).None? ==> forall i :: 0 <= i < |log| ==> !log[i].TokenCached?
    decreases |log|
  {
    if log != [] && !log[|log| - 1].TokenCached? {
      var init := log[..|log| - 1];
      LastCachedIs(init);
      if LastCached(init).Some? {
        var i :| 0 <= i < |init| && init[i].TokenCached? && TokenOf(init[i].response) == LastCached(init).value;
        assert log[i] == init[i];
      } else {
        assert forall i :: 0 <= i < |init| ==> log[i] == init[i];
      }
    }
  }

  /* ---- What every run keeps ---- */

  function Credentials(md: Metadata): nat {
    |Values(md, TOKEN)| + |Values(md, BASIC)|
  }

  /**
    A call sends one credential value more than its caller had put into the context; so it sends
    exactly one of token and Basic if and only if the caller had put in none.
   */
  lemma SendsOneCredential(basic: string, acts: seq<Action>, j: nat)
    requires basic != ""
    requires j < |Run(Init(basic), acts).log| && Run(Init(basic), acts).log[j].Sent?
    ensures var n := Run(Init(basic), acts).log[j];
            && Credentials(n.md) == Credentials(n.outgoing) + 1
            && (Credentials(n.md) == 1 <==> Values(n.outgoing, TOKEN) == [] && Values(n.outgoing, BASIC) == [])
  {
    InvOverRuns(basic, acts);
    var log := Run(Init(basic), acts).log;
    assert CacheRead(log[j].id, log[j].credential) in log[..j];
    var i :| 0 <= i < j && log[..j][i] == CacheRead(log[j].id, log[j].credential);
    assert log[i].CacheRead?;
    JoinCounts(log[j].outgoing, log[j].credential, basic);
  }

  lemma JoinCounts(outgoing: Metadata, c: Credential, basic: string)
    requires c != Nothing
    ensures Credentials(Join(outgoing, Carrying(c, basic))) == Credentials(outgoing) + 1
  {
    assert TOKEN != BASIC by {
      assert |TOKEN| != |BASIC|;
    }
  }

  /** The last write-back that carried a token, if any, is what LastCached names. */
  lemma {:induction false} LastCachedIff(log: seq<Note>, t: string)
    ensures LastCached(log) == Some(t)
            <==> exists i :: 0 <= i < |log| && log[i].TokenCached? && TokenOf(log[i].response) == t
                             && forall j :: i < j < |log| ==> !log[j].TokenCached?
    decreases |log|
  {
    if log != [] {
      var n := |log| - 1;
      if log[n].TokenCached? {
        assert TokenOf(log[n].response) == t ==> LastCached(log) == Some(t);
      } else {
        var init := log[..n];
        LastCachedIff(init, t);
        assert forall i :: 0 <= i < n ==> log[i] == init[i];
      }
    }
  }

  /**
    Every call sends the token last written back before it read the cache, and before the first token
    the Basic credential, each under its own header.
   */
  lemma SentAsRead(basic: string, acts: seq<Action>, j: nat)
    requires basic != ""
    requires j < |Run(Init(basic), acts).log| && Run(Init(basic), acts).log[j].Sent?
    ensures var log := Run(Init(basic), acts).log;
            var n := log[j];
            exists r :: 0 <= r < j && log[r] == CacheRead(n.id, n.credential)
                        && Authenticated(n.md, n.outgoing, LastCached(log[..r]), basic)
  {
    InvOverRuns(basic, acts);
    var log := Run(Init(basic), acts).log;
    var n := log[j];
    var r :| 0 <= r < j && log[..j][r] == CacheRead(n.id, n.credential);
    assert log[r].CacheRead?;
    CachedNotEmpty(log[..r], log);
    CallSends(LastCached(log[..r]), basic, n.outgoing);
  }

  /** No token in the log is empty. */
  lemma CachedNotEmpty(before: seq<Note>, log: seq<Note>)
    requires before <= log && CachesAnswers(log)
    ensures LastCached(before) != Some("")
  {
    LastCachedIs(before);
    if LastCached(before).Some? {
      var i :| 0 <= i < |before| && before[i].TokenCached? && TokenOf(before[i].response) == LastCached(before).value;
      assert log[i].TokenCached?;
    }
  }

  /** Every token that a call adds was carried by an answer to an earlier, completed call. */
  lemma TokensComeFromAnswers(basic: string, acts: seq<Action>, j: nat)
    requires j < |Run(Init(basic), acts).log|
    requires Run(Init(basic), acts).log[j].Sent? && Run(Init(basic), acts).log[j].credential.Token?
    ensures var log := Run(Init(basic), acts).log;
            exists i :: 0 <= i < j && log[i].Responded? && TokenOf(log[i].response) == log[j].credential.token
  {
    InvOverRuns(basic, acts);
    var log := Run(Init(basic), acts).log;
    var r :| 0 <= r < j && log[..j][r] == CacheRead(log[j].id, log[j].credential);
    assert log[r].CacheRead?;
    LastCachedIs(log[..r]);
    var k :| 0 <= k < r && log[..r][k].TokenCached? && TokenOf(log[..r][k].response) == log[j].credential.token;
    assert log[k].TokenCached?;
    var i :| 0 <= i < k && log[..k][i] == Responded(log[k].id, log[k].response);
    assert log[i].Responded?;
  }

  /** A unary call that was answered with a token puts it in the cache; a stream ends without doing so. */
  lemma AnswerIsCached(s: State, id: nat, response: Option<Metadata>, token: string, other: Option<Metadata>)
    requires id in s.calls
    ensures s.calls[id] == Answered(response) && Bears(response, token) ==>
              var s' := Step(s, Advance(id, other));
              s'.cached == Some(token) && s'.log == s.log + [TokenCached(id, response)]
    ensures s.calls[id] == InFlight(Unary) ==> Step(s, Advance(id, other)).calls[id] == Answered(other)
    ensures s.calls[id] == InFlight(Stream) ==>
              Step(s, Advance(id, other)).calls[id] == Ended && Step(s, Advance(id, other)).cached == s.cached
  {
  }

  /** The cache holds the token of the last write-back that carried one, which is never empty. */
  lemma CacheIsLastToken(basic: string, acts: seq<Action>)
    ensures var s := Run(Init(basic), acts);
            && s.cached == LastCached(s.log)
            && s.cached != Some("")
            && (s.cached.None? <==> forall i :: 0 <= i < |s.log| ==> !s.log[i].TokenCached?)
  {
    InvOverRuns(basic, acts);
    LastCachedIs(Run(Init(basic), acts).log);
  }

  /** A read falls back to Basic exactly when no token had been written back before it. */
  lemma BasicOnlyBeforeFirstToken(basic: string, acts: seq<Action>, j: nat)
    requires basic != ""
    requires j < |Run(Init(basic), acts).log| && Run(Init(basic), acts).log[j].CacheRead?
    ensures var log := Run(Init(basic), acts).log;
            log[j].credential.Basic? <==> forall i :: 0 <= i < j ==> !log[i].TokenCached?
  {
    InvOverRuns(basic, acts);
    var log := Run(Init(basic), acts).log;
    LastCachedIs(log[..j]);
    assert forall i :: 0 <= i < j ==> log[..j][i] == log[i];
    if LastCached(log[..j]).Some? {
      var i :| 0 <= i < j && log[..j][i].TokenCached? && TokenOf(log[..j][i].response) == LastCached(log[..j]).value;
      assert log[i].TokenCached?;
    }
  }
}
