/**
  The builder of client.go: which gRPC target it selects, how the target of several servers reads
  back, and how the default timeout is rounded.
 */
module ClientBuilder {
  import opened Common
  import opened Decimal

  datatype ServerAddress = ServerAddress(host: string, port: int)

  /** White space as strings.TrimSpace sees it. */
  predicate IsSpace(c: char) {
    var n := c as int;
    || 9 <= n <= 13 || n == 32 || n == 0x85 || n == 0xA0 || n == 0x1680 || 0x2000 <= n <= 0x200A
    || n == 0x2028 || n == 0x2029 || n == 0x202F || n == 0x205F || n == 0x3000
  }

  /** strings.TrimSpace(s) == "" */
  predicate Blank(s: string) {
    forall i :: 0 <= i < |s| ==> IsSpace(s[i])
  }

  function Address(s: ServerAddress): string {
    s.host + ":" + PrintInt(s.port)
  }

  function Addresses(servers: seq<ServerAddress>): seq<string> {
    seq(|servers|, i requires 0 <= i < |servers| => Address(servers[i]))
  }

  /** strings.Join(parts, ",") */
  function Join(parts: seq<string>): string
    decreases |parts|
  {
    if parts == [] then ""
    else if |parts| == 1 then parts[0]
    else Join(parts[..|parts| - 1]) + "," + parts[|parts| - 1]
  }

  const DNS := "dns:///"
  const STATIC := "static:///"

  function Resolver(useDns: bool): string {
    if useDns then DNS else STATIC
  }

  function TargetString(servers: seq<ServerAddress>, useDns: bool): string {
    Resolver(useDns) + Join(Addresses(servers))
  }

  predicate HasComma(servers: seq<ServerAddress>) {
    exists i :: 0 <= i < |servers| && ',' in servers[i].host
  }

  const LOCALHOST := ServerAddress("localhost", 5005)

  function WithPrefix(prefix: string, s: string): string {
    if prefix <= s then s else prefix + s
  }

  /** The target that Build dials. */
  function Selected(target: string, dnsTarget: string, staticTarget: string, useDns: bool, servers: seq<ServerAddress>): string {
    if !Blank(target) then target
    else if !Blank(dnsTarget) then WithPrefix(DNS, dnsTarget)
    else if !Blank(staticTarget) then WithPrefix(STATIC, staticTarget)
    else if servers == [] then Address(LOCALHOST)
    else if |servers| == 1 then Address(servers[0])
    else if HasComma(servers) then Join(Addresses(servers))
    else TargetString(servers, useDns)
  }

  const SECOND := 1_000_000_000

  const TWO_64 := 0x1_0000_0000_0000_0000

  /** r is the int64 that agrees with n modulo 2^64. */
  predicate IsInt64Of(r: int, n: int) {
    MIN_INT64 <= r <= MAX_INT64 && (r - n) % TWO_64 == 0
  }

  /** A product as int64 arithmetic gives it. */
  function Wrapped(n: int): (r: int)
    ensures IsInt64Of(r, n)
  {
    (n - MIN_INT64) % TWO_64 + MIN_INT64
  }

  lemma OneInt64Of(r: int, q: int, n: int)
    requires IsInt64Of(r, n) && IsInt64Of(q, n)
    ensures r == q
  {
    assert (r - q) % TWO_64 == 0;
  }

  /** Up to one wrap above the range. */
  lemma Int64OfNear(r: int, n: int)
    requires IsInt64Of(r, n) && MIN_INT64 <= n <= MAX_INT64 + TWO_64
    ensures r == if n <= MAX_INT64 then n else n - TWO_64
  {
    OneInt64Of(r, if n <= MAX_INT64 then n else n - TWO_64, n);
  }

  class ClientBuilder {
    var servers: seq<ServerAddress>
    var target: string
    var dnsTarget: string
    var staticTarget: string
    var useDnsResolver: bool
    var timeoutSeconds: int

    constructor ()
      ensures servers == [] && target == "" && dnsTarget == "" && staticTarget == "" && useDnsResolver && timeoutSeconds == 30
    {
      servers, target, dnsTarget, staticTarget, useDnsResolver, timeoutSeconds := [], "", "", "", true, 30;
    }

    method CreateTargetString(servers: seq<ServerAddress>) returns (s: string)
      ensures s == TargetString(servers, useDnsResolver)
    {
      s := "dns:///";
      if !useDnsResolver {
        s := "static:///";
      }
      ghost var parts := Addresses(servers);
      for i := 0 to |servers|
        invariant s == Resolver(useDnsResolver) + Join(parts[..i])
      {
        JoinGrows(Resolver(useDnsResolver), parts, i);
        if i > 0 {
          s := s + ",";
        }
        s := s + Address(servers[i]);
      }
      assert parts[..|servers|] == parts;
    }

    /** The part of Build that chooses the target; without any server it adds the default one. */
    method SelectTarget() returns (s: string)
      modifies this`servers
      ensures s == old(Selected(target, dnsTarget, staticTarget, useDnsResolver, servers))
      ensures servers == old(if Blank(target) && Blank(dnsTarget) && Blank(staticTarget) && servers == [] then [LOCALHOST] else servers)
    {
      if !Blank(target) {
        return target;
      } else if dnsTarget != "" && !Blank(dnsTarget) {
        return if DNS <= dnsTarget then dnsTarget else DNS + dnsTarget;
      } else if staticTarget != "" && !Blank(staticTarget) {
        return if STATIC <= staticTarget then staticTarget else STATIC + staticTarget;
      }
      if |servers| == 0 {
        servers := servers + [LOCALHOST];
      }
      if |servers| == 1 {
        return Address(servers[0]);
      }
      var hasComma := false;
      for i := 0 to |servers|
        invariant hasComma <==> exists k :: 0 <= k < i && ',' in servers[k].host
      {
        if ',' in servers[i].host {
          hasComma := true;
          break;
        }
      }
      if hasComma {
        s := Join(Addresses(servers));
      } else {
        s := CreateTargetString(servers);
      }
    }

    method DefaultTimeout(timeout: int)
      modifies this`timeoutSeconds
      ensures timeoutSeconds == if timeout <= 0 then old(timeoutSeconds) else CeilSeconds(timeout)
    {
      if timeout <= 0 {
        return;
      }
      var seconds := timeout / SECOND;
      if timeout % SECOND != 0 {
        seconds := seconds + 1;
      }
      if seconds < 1 {
        seconds := 1;
      }
      timeoutSeconds := seconds;
    }

    /**
      The client's default timeout, as Build computes it: the seconds in nanoseconds, exactly so if
      and only if they are at most 9223372036 either way, and always the same modulo 2^64.
     */
    method BuildTimeout() returns (timeout: int)
      ensures IsInt64Of(timeout, timeoutSeconds * SECOND)
      ensures timeout == timeoutSeconds * SECOND <==> -9223372036 <= timeoutSeconds <= 9223372036
    {
      timeout := Wrapped(timeoutSeconds * SECOND);
    }
  }

  lemma JoinGrows(prefix: string, parts: seq<string>, i: nat)
    requires i < |parts|
    ensures prefix + Join(parts[..i + 1]) == prefix + Join(parts[..i]) + (if i == 0 then "" else ",") + parts[i]
  {
    assert parts[..i + 1][..i] == parts[..i];
    var j := Join(parts[..i]);
    if i > 0 {
      assert prefix + (j + "," + parts[i]) == prefix + j + "," + parts[i];
    } else {
      assert prefix + j + "" + parts[i] == prefix + parts[i];
    }
  }

  /* ---- Selection ---- */

  /** Blank text is made of the white space of Unicode, listed here by code point. */
  lemma BlankIs(s: string, c: char)
    ensures Blank("")
    ensures Blank(s + [c])
            <==> Blank(s) && c as int in [9, 10, 11, 12, 13, 32, 0x85, 0xA0, 0x1680, 0x2000, 0x2001, 0x2002, 0x2003, 0x2004, 0x2005,
                                          0x2006, 0x2007, 0x2008, 0x2009, 0x200A, 0x2028, 0x2029, 0x202F, 0x205F, 0x3000]
  {
    SpaceIs(c);
    assert (s + [c])[|s|] == c;
    assert forall i :: 0 <= i < |s| ==> (s + [c])[i] == s[i];
  }

  lemma SpaceIs(c: char)
    ensures IsSpace(c)
            <==> c as int in [9, 10, 11, 12, 13, 32, 0x85, 0xA0, 0x1680, 0x2000, 0x2001, 0x2002, 0x2003, 0x2004, 0x2005,
                              0x2006, 0x2007, 0x2008, 0x2009, 0x200A, 0x2028, 0x2029, 0x202F, 0x205F, 0x3000]
  {
  }

  /**
    The target, spelled out: a raw target is used as it is and comes first; then a DNS target and then
    a static one, with their prefix unless they have it; and only then the servers.
   */
  lemma TargetIs(target: string, dnsTarget: string, staticTarget: string, useDns: bool, servers: seq<ServerAddress>)
    ensures var r := Selected(target, dnsTarget, staticTarget, useDns, servers);
            && (!Blank(target) ==> r == target)
            && (Blank(target) && !Blank(dnsTarget) ==>
                  "dns:///" <= r && r == (if "dns:///" <= dnsTarget then dnsTarget else "dns:///" + dnsTarget))
            && (Blank(target) && Blank(dnsTarget) && !Blank(staticTarget) ==>
                  "static:///" <= r && r == (if "static:///" <= staticTarget then staticTarget else "static:///" + staticTarget))
  {
  }

  /**
    The servers, when no target is given: none means the default server; one is dialled directly; more
    than one behind the resolver, but without it if some host holds a comma.
   */
  lemma ServersAre(target: string, dnsTarget: string, staticTarget: string, useDns: bool, servers: seq<ServerAddress>)
    requires Blank(target) && Blank(dnsTarget) && Blank(staticTarget)
    ensures var r := Selected(target, dnsTarget, staticTarget, useDns, servers);
            var resolver := if useDns then "dns:///" else "static:///";
            && (servers == [] ==> r == "localhost" + ":" + PrintInt(5005))
            && (|servers| == 1 ==> r == servers[0].host + ":" + PrintInt(servers[0].port))
            && (|servers| > 1 && (forall i :: 0 <= i < |servers| ==> ',' !in servers[i].host) ==> r == TargetString(servers, useDns))
            && (|servers| > 1 && (exists i :: 0 <= i < |servers| && ',' in servers[i].host) ==>
                  resolver + r == TargetString(servers, useDns))
  {
  }

  /** The printed list of servers: the resolver, and host:port of every server, in order, with commas between them. */
  lemma TargetStringIs(servers: seq<ServerAddress>, s: ServerAddress, useDns: bool)
    ensures TargetString([s], useDns) == (if useDns then "dns:///" else "static:///") + (s.host + ":" + PrintInt(s.port))
    ensures servers != [] ==>
              TargetString(servers + [s], useDns) == TargetString(servers, useDns) + "," + (s.host + ":" + PrintInt(s.port))
  {
    assert Addresses([s]) == [Address(s)];
    if servers != [] {
      var parts := Addresses(servers);
      assert Addresses(servers + [s]) == parts + [Address(s)];
      JoinIs(parts, Address(s));
      Longer(Resolver(useDns), Join(parts), Address(s));
    }
  }

  lemma JoinIs(parts: seq<string>, p: string)
    requires parts != []
    ensures Join(parts + [p]) == Join(parts) + "," + p
  {
    assert (parts + [p])[..|parts|] == parts;
  }

  lemma Longer(r: string, j: string, p: string)
    ensures r + (j + "," + p) == (r + j) + "," + p
  {
  }

  /** A second Build, after the first one added the default server, selects the same target. */
  lemma SecondBuildAgrees(target: string, dnsTarget: string, staticTarget: string, useDns: bool, servers: seq<ServerAddress>)
    ensures var after := if Blank(target) && Blank(dnsTarget) && Blank(staticTarget) && servers == [] then [LOCALHOST] else servers;
            Selected(target, dnsTarget, staticTarget, useDns, after) == Selected(target, dnsTarget, staticTarget, useDns, servers)
  {
  }

  /* ---- Reading a target back ---- */

  /** strings.Split(s, ",") */
  function SplitCommas(s: string): (parts: seq<string>)
    ensures |parts| >= 1
    decreases |s|
  {
    if s == "" then [""]
    else
      var init, last := SplitCommas(s[..|s| - 1]), s[|s| - 1];
      if last == ',' then init + [""] else init[..|init| - 1] + [init[|init| - 1] + [last]]
  }

  /** The place of the last colon, or -1. */
  function LastColon(s: string): (i: int)
    ensures -1 <= i < |s|
    decreases |s|
  {
    if s == "" then -1
    else if s[|s| - 1] == ':' then |s| - 1
    else LastColon(s[..|s| - 1])
  }

  function ReadAddress(s: string): Option<ServerAddress> {
    var i := LastColon(s);
    if i == -1 then None
    else
      var p := s[i + 1..];
      if IsNumeral(p) then Some(ServerAddress(s[..i], ReadInt(p))) else None
  }

  function ReadAll(parts: seq<string>): Option<seq<ServerAddress>>
    decreases |parts|
  {
    if parts == [] then Some([])
    else
      var init, last := ReadAll(parts[..|parts| - 1]), ReadAddress(parts[|parts| - 1]);
      if init.None? || last.None? then None else Some(init.value + [last.value])
  }

  function ReadTarget(s: string, useDns: bool): Option<seq<ServerAddress>> {
    if Resolver(useDns) <= s then ReadAll(SplitCommas(s[|Resolver(useDns)|..])) else None
  }

  function Commas(s: string): nat
    decreases |s|
  {
    if s == "" then 0 else Commas(s[..|s| - 1]) + if s[|s| - 1] == ',' then 1 else 0
  }

  lemma {:induction false} LastColonOf(host: string, p: string)
    requires ':' !in p
    ensures LastColon(host + ":" + p) == |host|
    decreases |p|
  {
    var s := host + ":" + p;
    if p != "" {
      var p' := p[..|p| - 1];
      assert s[..|s| - 1] == host + ":" + p';
      assert s[|s| - 1] == p[|p| - 1];
      LastColonOf(host, p');
    }
  }

  lemma {:induction false} DigitsHave(s: string, c: char)
    requires AllDigits(s) && !IsDigit(c)
    ensures c !in s && (c == ',' ==> Commas(s) == 0)
    decreases |s|
  {
    if s != "" {
      DigitsHave(s[..|s| - 1], c);
    }
  }

  lemma PortIsPlain(n: int)
    ensures ':' !in PrintInt(n) && ',' !in PrintInt(n)
  {
    ReadOfPrint(n);
    var s := PrintInt(n);
    assert forall i :: 1 <= i < |s| ==> s[i] == s[1..][i - 1];
  }

  lemma AddressReadsBack(s: ServerAddress)
    ensures ReadAddress(Address(s)) == Some(s)
  {
    PortIsPlain(s.port);
    ReadOfPrint(s.port);
    var p := PrintInt(s.port);
    LastColonOf(s.host, p);
    var a := Address(s);
    assert a[..|s.host|] == s.host && a[|s.host| + 1..] == p;
  }

  lemma {:induction false} CommasCount(s: string)
    ensures |SplitCommas(s)| == Commas(s) + 1
    ensures Commas(s) == 0 <==> ',' !in s
    decreases |s|
  {
    if s != "" {
      CommasCount(s[..|s| - 1]);
      assert s == s[..|s| - 1] + [s[|s| - 1]];
    }
  }

  lemma {:induction false} CommasOfConcat(a: string, b: string)
    ensures Commas(a + b) == Commas(a) + Commas(b)
    decreases |b|
  {
    if b == "" {
      assert a + b == a;
    } else {
      assert (a + b)[..|a + b| - 1] == a + b[..|b| - 1];
      CommasOfConcat(a, b[..|b| - 1]);
    }
  }

  /** One more character that is no comma goes to the last part. */
  lemma SplitOneMore(q: string, c: char, init: seq<string>, last: string)
    requires c != ',' && SplitCommas(q) == init + [last]
    ensures SplitCommas(q + [c]) == init + [last + [c]]
  {
    assert (q + [c])[..|q|] == q;
    assert (init + [last])[..|init|] == init;
  }

  lemma SplitSuffixStep(q: string, init: seq<string>, last: string, p: string, c: char)
    requires c != ',' && SplitCommas(q + p) == init + [last + p]
    ensures SplitCommas(q + (p + [c])) == init + [last + (p + [c])]
  {
    SplitOneMore(q + p, c, init, last + p);
    assert q + (p + [c]) == (q + p) + [c];
    assert last + (p + [c]) == (last + p) + [c];
  }

  /** Text without a comma goes to the last part. */
  lemma {:induction false} SplitSuffix(q: string, init: seq<string>, last: string, p: string)
    requires ',' !in p && SplitCommas(q) == init + [last]
    ensures SplitCommas(q + p) == init + [last + p]
    decreases |p|
  {
    if p == "" {
      assert q + p == q && last + p == last;
    } else {
      var p', c := p[..|p| - 1], p[|p| - 1];
      SplitSuffix(q, init, last, p');
      SplitSuffixStep(q, init, last, p', c);
      assert p == p' + [c];
    }
  }

  lemma SplitComma(a: string)
    ensures SplitCommas(a + ",") == SplitCommas(a) + [""]
  {
    assert (a + ",")[..|a|] == a;
  }

  /** Splitting what is joined from a and a part without comma gives one part more. */
  lemma SplitAppend(a: string, p: string)
    requires ',' !in p
    ensures SplitCommas(a + "," + p) == SplitCommas(a) + [p]
  {
    SplitComma(a);
    SplitSuffix(a + ",", SplitCommas(a), "", p);
    assert "" + p == p;
  }

  lemma SplitPlain(p: string)
    requires ',' !in p
    ensures SplitCommas(p) == [p]
  {
    assert [] + [""] == [""] && "" + p == p && [] + [p] == [p];
    SplitSuffix("", [], "", p);
  }

  lemma SplitOfJoinOne(p: string)
    requires ',' !in p
    ensures SplitCommas(Join([p])) == [p]
  {
    SplitPlain(p);
  }

  lemma SplitOfJoinStep(init: seq<string>, last: string)
    requires init != [] && ',' !in last && SplitCommas(Join(init)) == init
    ensures SplitCommas(Join(init + [last])) == init + [last]
  {
    assert (init + [last])[..|init|] == init;
    SplitAppend(Join(init), last);
  }

  /** No part holds a comma. */
  predicate Plain(parts: seq<string>) {
    forall i :: 0 <= i < |parts| ==> ',' !in parts[i]
  }

  lemma PlainStep(init: seq<string>, last: string)
    requires Plain(init + [last])
    ensures Plain(init) && ',' !in last
  {
    assert (init + [last])[|init|] == last;
    assert forall i :: 0 <= i < |init| ==> (init + [last])[i] == init[i];
  }

  lemma {:induction false} SplitOfJoin(init: seq<string>, last: string)
    requires Plain(init + [last])
    ensures SplitCommas(Join(init + [last])) == init + [last]
    decreases |init|
  {
    PlainStep(init, last);
    if init == [] {
      SplitOfJoinOne(last);
      assert init + [last] == [last];
    } else {
      var init', last' := init[..|init| - 1], init[|init| - 1];
      assert init == init' + [last'];
      SplitOfJoin(init', last');
      SplitOfJoinStep(init, last);
    }
  }

  lemma {:induction false} CommasOfJoin(parts: seq<string>)
    requires parts != []
    ensures Commas(Join(parts)) >= |parts| - 1
    ensures (exists i :: 0 <= i < |parts| && ',' in parts[i]) ==> Commas(Join(parts)) >= |parts|
    decreases |parts|
  {
    var last := parts[|parts| - 1];
    CommasCount(last);
    if |parts| > 1 {
      var init := parts[..|parts| - 1];
      CommasOfJoin(init);
      CommasOfConcat(Join(init) + ",", last);
      CommasOfConcat(Join(init), ",");
      assert ","[..0] == "" && Commas(",") == 1;
      if i :| 0 <= i < |parts| && ',' in parts[i] {
        assert i < |init| ==> init[i] == parts[i];
      }
    }
  }

  lemma {:induction false} ReadAllPointwise(parts: seq<string>, servers: seq<ServerAddress>)
    requires |parts| == |servers|
    requires forall i :: 0 <= i < |parts| ==> ReadAddress(parts[i]) == Some(servers[i])
    ensures ReadAll(parts) == Some(servers)
    decreases |parts|
  {
    if parts != [] {
      ReadAllPointwise(parts[..|parts| - 1], servers[..|servers| - 1]);
      assert servers == servers[..|servers| - 1] + [servers[|servers| - 1]];
    }
  }

  lemma ReadAllReadsBack(servers: seq<ServerAddress>)
    ensures ReadAll(Addresses(servers)) == Some(servers)
  {
    var parts := Addresses(servers);
    forall i | 0 <= i < |parts| ensures ReadAddress(parts[i]) == Some(servers[i]) {
      AddressReadsBack(servers[i]);
    }
    ReadAllPointwise(parts, servers);
  }

  lemma {:induction false} ReadAllCounts(parts: seq<string>)
    ensures ReadAll(parts).Some? ==> |ReadAll(parts).value| == |parts|
    decreases |parts|
  {
    if parts != [] {
      ReadAllCounts(parts[..|parts| - 1]);
    }
  }

  lemma SplitPlainJoin(parts: seq<string>)
    requires parts != [] && Plain(parts)
    ensures SplitCommas(Join(parts)) == parts
  {
    var init, last := parts[..|parts| - 1], parts[|parts| - 1];
    assert parts == init + [last];
    SplitOfJoin(init, last);
  }

  lemma AddressesPlain(servers: seq<ServerAddress>)
    requires !HasComma(servers)
    ensures Plain(Addresses(servers))
  {
    forall i | 0 <= i < |servers| ensures ',' !in Addresses(servers)[i] {
      PortIsPlain(servers[i].port);
      assert ',' !in servers[i].host;
    }
  }

  /** A comma in a host leaves more parts than servers. */
  lemma CommaMakesMore(servers: seq<ServerAddress>)
    requires HasComma(servers)
    ensures |SplitCommas(Join(Addresses(servers)))| > |servers|
  {
    var parts := Addresses(servers);
    var i :| 0 <= i < |servers| && ',' in servers[i].host;
    assert parts[i] == Address(servers[i]) && ',' in parts[i];
    CommasOfJoin(parts);
    CommasCount(Join(parts));
  }

  lemma ReadOfTarget(servers: seq<ServerAddress>, useDns: bool)
    ensures ReadTarget(TargetString(servers, useDns), useDns) == ReadAll(SplitCommas(Join(Addresses(servers))))
  {
    var s := TargetString(servers, useDns);
    assert s[|Resolver(useDns)|..] == Join(Addresses(servers));
  }

  /**
    The target string of a non-empty list of servers reads back as that very list if and only if no
    host holds a comma: remove the resolver, split at the commas, split each part at its last colon.
   */
  lemma TargetReadsBackIff(servers: seq<ServerAddress>, useDns: bool)
    requires servers != []
    ensures ReadTarget(TargetString(servers, useDns), useDns) == Some(servers) <==> !HasComma(servers)
  {
    ReadOfTarget(servers, useDns);
    if HasComma(servers) {
      CommaMakesMore(servers);
      ReadAllCounts(SplitCommas(Join(Addresses(servers))));
    } else {
      AddressesPlain(servers);
      SplitPlainJoin(Addresses(servers));
      ReadAllReadsBack(servers);
    }
  }

  /* ---- Timeouts ---- */

  function CeilSeconds(t: int): int {
    (t + SECOND - 1) / SECOND
  }

  /**
    A timeout of t nanoseconds becomes the least whole number of seconds that is not smaller; the
    client then holds exactly that time if and only if t is at most 9223372036 seconds, and a
    negative time for every longer int64.
   */
  lemma TimeoutRoundsUpIff(t: int, held: int)
    requires 0 < t <= MAX_INT64 && IsInt64Of(held, CeilSeconds(t) * SECOND)
    ensures var n := CeilSeconds(t);
            && n >= 1 && (n - 1) * SECOND < t <= n * SECOND
            && (t % SECOND == 0 ==> n * SECOND == t)
            && (held == n * SECOND <==> t <= 9223372036 * SECOND)
            && (held < 0 <==> t > 9223372036 * SECOND)
  {
    var n := CeilSeconds(t);
    assert (n - 1) * SECOND < t <= n * SECOND;
    Int64OfNear(held, n * SECOND);
  }
}
