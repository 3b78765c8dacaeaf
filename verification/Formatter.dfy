/**
  StringHelper.FormatMessage of utils.go. The code substitutes by searching the changed text again
  for every argument; the reading a caller has in mind is one pass from left to right. This module
  proves when the two agree.

  A string is the sequence of its bytes here, as len and slices of the source have it: a character
  outside ASCII counts as two elements or more. Only the two braces are looked for, and neither is
  part of the encoding of another character.
 */
module Formatter {

  /** The result of code that may run out of a slice. */
  datatype Outcome = Text(text: string) | Panic

  /** An argument of FormatMessage; Other carries what "%v" prints. */
  datatype Arg = Nil | Str(s: string) | Other(printed: string)

  function ToString(a: Arg): string {
    match a
    case Nil => ""
    case Str(s) => s
    case Other(p) => p
  }

  function Texts(args: seq<Arg>): (r: seq<string>)
    ensures |r| == |args| && forall i :: 0 <= i < |r| ==> r[i] == ToString(args[i])
  {
    if args == [] then [] else [ToString(args[0])] + Texts(args[1..])
  }

  /** What arguments become: a string is inserted as it is, nil as nothing, and the rest as "%v" prints it. */
  lemma TextsAre(s: string, rest: seq<Arg>)
    ensures Texts([]) == []
    ensures Texts([Str(s)] + rest) == [s] + Texts(rest)
    ensures Texts([Nil] + rest) == [""] + Texts(rest)
    ensures Texts([Other(s)] + rest) == [s] + Texts(rest)
  {
    assert ([Str(s)] + rest)[1..] == ([Nil] + rest)[1..] == ([Other(s)] + rest)[1..] == rest;
  }

  const BRACES := "{}"

  predicate Occurs(s: string, o: string, i: int) {
    0 <= i && i + |o| <= |s| && s[i..i + |o|] == o
  }

  lemma OccursLater(s: string, o: string, i: int)
    requires s != "" && 1 <= i
    ensures Occurs(s, o, i) <==> Occurs(s[1..], o, i - 1)
  {
    if i + |o| <= |s| {
      var a, b := s[i..i + |o|], s[1..][i - 1..i - 1 + |o|];
      forall j | 0 <= j < |o| ensures a[j] == b[j] {
        assert a[j] == s[i + j] && b[j] == s[1..][i - 1 + j];
      }
      assert a == b;
    }
  }

  /** The leftmost occurrence of o in s, or -1. */
  function Index(s: string, o: string): (r: int)
    ensures r == -1 || 0 <= r <= |s| - |o|
  {
    if |s| < |o| then -1
    else if s[..|o|] == o then 0
    else if s == [] then -1
    else
      var k := Index(s[1..], o);
      if k == -1 then -1 else k + 1
  }

  lemma {:induction false} IndexIsLeftmost(s: string, o: string)
    ensures var r := Index(s, o);
            && (r == -1 ==> forall i :: !Occurs(s, o, i))
            && (r >= 0 ==> Occurs(s, o, r) && forall i :: i < r ==> !Occurs(s, o, i))
  {
    if |s| >= |o| {
      assert s[0..0 + |o|] == s[..|o|];
      if s[..|o|] != o && s != [] {
        IndexIsLeftmost(s[1..], o);
        forall i | 1 <= i ensures Occurs(s, o, i) <==> Occurs(s[1..], o, i - 1) {
          OccursLater(s, o, i);
        }
      }
    }
  }

  lemma IndexUnique(s: string, o: string, k: nat)
    requires Occurs(s, o, k) && forall i :: 0 <= i < k ==> !Occurs(s, o, i)
    ensures Index(s, o) == k
  {
    IndexIsLeftmost(s, o);
  }

  lemma IndexNone(s: string, o: string)
    requires forall i :: 0 <= i <= |s| - |o| ==> !Occurs(s, o, i)
    ensures Index(s, o) == -1
  {
    IndexIsLeftmost(s, o);
  }

  method FindNextPlaceholder(s: string) returns (r: int)
    ensures r == Index(s, BRACES)
    ensures r != -1 ==> s[r..r + 2] == BRACES
  {
    var i := 0;
    while i < |s| - 1
      invariant 0 <= i && forall j :: 0 <= j < i ==> !Occurs(s, BRACES, j)
    {
      if s[i] == '{' && s[i + 1] == '}' {
        assert s[i..i + 2] == BRACES;
        IndexUnique(s, BRACES, i);
        return i;
      }
      assert s[i..i + 2][0] == s[i] && s[i..i + 2][1] == s[i + 1];
      i := i + 1;
    }
    IndexNone(s, BRACES);
    return -1;
  }

  /** What replaceFirst computes: when o does not occur, the first |o| bytes are replaced. */
  function Replace(s: string, o: string, n: string): Outcome {
    var k := if Index(s, o) == -1 then 0 else Index(s, o);
    if |s| < k + |o| then Panic else Text(s[..k] + n + s[k + |o|..])
  }

  /** The first occurrence is replaced, and without one the text is changed all the same, or too short. */
  lemma ReplaceIs(s: string, o: string, n: string, k: nat)
    ensures Occurs(s, o, k) && (forall i :: 0 <= i < k ==> !Occurs(s, o, i)) ==> Replace(s, o, n) == Text(s[..k] + n + s[k + |o|..])
    ensures (forall i :: 0 <= i <= |s| - |o| ==> !Occurs(s, o, i)) ==>
              Replace(s, o, n) == if |s| < |o| then Panic else Text(n + s[|o|..])
  {
    if Occurs(s, o, k) && forall i :: 0 <= i < k ==> !Occurs(s, o, i) {
      IndexUnique(s, o, k);
    }
    if forall i :: 0 <= i <= |s| - |o| ==> !Occurs(s, o, i) {
      IndexNone(s, o);
      assert s[..0] + n == n;
    }
  }

  method ReplaceFirst(s: string, o: string, n: string) returns (r: Outcome)
    ensures r == Replace(s, o, n)
  {
    var idx := 0;
    var i := 0;
    while i < |s| - |o| + 1
      invariant 0 <= i && idx == 0
      invariant forall j :: 0 <= j < i ==> !Occurs(s, o, j)
    {
      if s[i..i + |o|] == o {
        IndexUnique(s, o, i);
        idx := i;
        break;
      }
      i := i + 1;
    }
    if i >= |s| - |o| + 1 {
      IndexNone(s, o);
    }
    if |s| < idx + |o| {
      return Panic;
    }
    return Text(s[..idx] + n + s[idx + |o|..]);
  }

  /** The rounds of FormatMessage after the first: search again, replace, and so on. */
  function Rescan(s: string, args: seq<string>): string
    decreases |args|
  {
    if args == [] then s
    else
      var k := Index(s, BRACES);
      if k == -1 then s else Rescan(s[..k] + args[0] + s[k + 2..], args[1..])
  }

  /** The text FormatMessage produces; the first round does not look whether a placeholder exists. */
  function Formatted(msg: string, args: seq<string>): Outcome {
    if args == [] then Text(msg)
    else match Replace(msg, BRACES, args[0])
         case Panic => Panic
         case Text(s) => Text(Rescan(s, args[1..]))
  }

  method FormatMessage(msg: string, args: seq<Arg>) returns (r: Outcome)
    ensures r == Formatted(msg, Texts(args))
  {
    if |args| == 0 {
      return Text(msg);
    }
    var result := msg;
    ghost var texts := Texts(args);
    for i := 0 to |args|
      invariant i == 0 ==> result == msg
      invariant i > 0 ==> Formatted(msg, texts) == Text(Rescan(result, texts[i..]))
    {
      var placeholder := "{}";
      if i > 0 {
        var idx := FindNextPlaceholder(result);
        if idx == -1 {
          break;
        }
        placeholder := result[idx..idx + 2];
      }
      var next := ReplaceFirst(result, placeholder, ToString(args[i]));
      assert texts[i..][0] == texts[i] && texts[i..][1..] == texts[i + 1..];
      if next.Panic? {
        return Panic;
      }
      result := next.text;
    }
    return Text(result);
  }

  /* ---- The single pass ---- */

  /** One pass: every placeholder takes the next argument; inserted text is not looked at again. */
  function SinglePass(s: string, args: seq<string>): string
    decreases |args|
  {
    if args == [] then s
    else
      var k := Index(s, BRACES);
      if k == -1 then s else s[..k] + args[0] + SinglePass(s[k + 2..], args[1..])
  }

  /** The text between the placeholders. */
  function Pieces(s: string): (r: seq<string>)
    ensures |r| >= 1
    decreases |s|
  {
    var k := Index(s, BRACES);
    if k == -1 then [s] else [s[..k]] + Pieces(s[k + 2..])
  }

  function Placeholders(s: string): nat {
    |Pieces(s)| - 1
  }

  /** The pieces joined by the arguments, and by {} where the arguments have run out. */
  function Weave(pieces: seq<string>, args: seq<string>): string
    requires |pieces| >= 1
  {
    if |pieces| == 1 then pieces[0]
    else if args == [] then pieces[0] + BRACES + Weave(pieces[1..], [])
    else pieces[0] + args[0] + Weave(pieces[1..], args[1..])
  }

  function Lengths(args: seq<string>): nat {
    if args == [] then 0 else |args[0]| + Lengths(args[1..])
  }

  lemma {:induction false} WeaveNothing(s: string)
    ensures Weave(Pieces(s), []) == s
    decreases |s|
  {
    var k := Index(s, BRACES);
    if k != -1 {
      WeaveNothing(s[k + 2..]);
      assert Pieces(s)[1..] == Pieces(s[k + 2..]);
      IndexIsLeftmost(s, BRACES);
      assert s == s[..k] + s[k..k + 2] + s[k + 2..];
    }
  }

  /** The single pass puts the arguments between the pieces of the message, in order. */
  lemma {:induction false} SinglePassWeaves(s: string, args: seq<string>)
    ensures SinglePass(s, args) == Weave(Pieces(s), args)
    decreases |args|
  {
    var k := Index(s, BRACES);
    if args == [] {
      WeaveNothing(s);
    } else if k != -1 {
      SinglePassWeaves(s[k + 2..], args[1..]);
      assert Pieces(s)[1..] == Pieces(s[k + 2..]);
    }
  }

  /** Surplus arguments are ignored, and the length follows from the arguments used. */
  lemma {:induction false} SinglePassUses(s: string, args: seq<string>)
    ensures var n := if |args| < Placeholders(s) then |args| else Placeholders(s);
            && SinglePass(s, args) == SinglePass(s, args[..n])
            && |SinglePass(s, args)| == |s| + Lengths(args[..n]) - 2 * n
    decreases |args|
  {
    if args != [] && Index(s, BRACES) != -1 {
      OneFewer(s);
      SinglePassUses(s[Index(s, BRACES) + 2..], args[1..]);
      UsesStep(s, args, if |args| < Placeholders(s) then |args| else Placeholders(s));
    }
  }

  lemma OneFewer(s: string)
    requires Index(s, BRACES) != -1
    ensures Placeholders(s) == Placeholders(s[Index(s, BRACES) + 2..]) + 1
  {
  }

  lemma UsesStep(s: string, args: seq<string>, n: nat)
    requires Index(s, BRACES) != -1 && 1 <= n <= |args|
    requires var rest, args' := s[Index(s, BRACES) + 2..], args[1..];
             && SinglePass(rest, args') == SinglePass(rest, args'[..n - 1])
             && |SinglePass(rest, args')| == |rest| + Lengths(args'[..n - 1]) - 2 * (n - 1)
    ensures SinglePass(s, args) == SinglePass(s, args[..n])
    ensures |SinglePass(s, args)| == |s| + Lengths(args[..n]) - 2 * n
  {
    assert args[..n][0] == args[0] && args[..n][1..] == args[1..][..n - 1];
  }

  /* ---- When the two agree ---- */

  /** Text that can be inserted without making a placeholder, whatever stands around it. */
  predicate SafeText(t: string) {
    && t != ""
    && Index(t, BRACES) == -1
    && t[0] != '}'
    && t[|t| - 1] != '{'
  }

  predicate At(s: string, i: int) {
    0 <= i < |s| - 1 && s[i] == '{' && s[i + 1] == '}'
  }

  lemma OccursAt(s: string, i: int)
    ensures Occurs(s, BRACES, i) <==> At(s, i)
  {
    if 0 <= i < |s| - 1 {
      assert s[i..i + 2] == [s[i], s[i + 1]];
    }
  }

  lemma FoundAt(s: string)
    requires Index(s, BRACES) != -1
    ensures At(s, Index(s, BRACES))
  {
    IndexIsLeftmost(s, BRACES);
    OccursAt(s, Index(s, BRACES));
  }

  lemma NothingBefore(s: string, i: nat)
    requires i < Index(s, BRACES) || Index(s, BRACES) == -1
    ensures !At(s, i)
  {
    IndexIsLeftmost(s, BRACES);
    OccursAt(s, i);
  }

  lemma IndexIs(s: string, k: nat)
    requires At(s, k) && forall i :: 0 <= i < k ==> !At(s, i)
    ensures Index(s, BRACES) == k
  {
    if Index(s, BRACES) == -1 || k < Index(s, BRACES) {
      NothingBefore(s, k);
    } else {
      FoundAt(s);
    }
  }

  lemma NoIndex(s: string)
    ensures Index(s, BRACES) == -1 <==> forall i :: 0 <= i < |s| ==> !At(s, i)
  {
    if Index(s, BRACES) == -1 {
      forall i | 0 <= i < |s| ensures !At(s, i) {
        NothingBefore(s, i);
      }
    } else {
      FoundAt(s);
    }
  }

  /**
    The single pass, spelled out: text p without {} stays as it is, and the {} behind it takes the
    first argument, before the rest is treated likewise with the further arguments.
   */
  lemma SinglePassIs(p: string, rest: string, t: string, args: seq<string>)
    requires forall i :: !Occurs(p, "{}", i)
    ensures SinglePass(p, args) == p
    ensures SinglePass(p + "{}" + rest, [t] + args) == p + t + SinglePass(rest, args)
    ensures SinglePass(p + "{}" + rest, []) == p + "{}" + rest
  {
    IndexNone(p, BRACES);
    var s := p + "{}" + rest;
    forall i | 0 <= i < |p| ensures !At(s, i) {
      OccursAt(p, i);
      if i + 1 < |p| {
        assert s[i] == p[i] && s[i + 1] == p[i + 1];
      } else {
        assert s[i + 1] == "{}"[0];
      }
    }
    assert s[|p|] == "{}"[0] && s[|p| + 1] == "{}"[1];
    IndexIs(s, |p|);
    assert s[..|p|] == p && s[|p| + 2..] == rest;
    assert ([t] + args)[1..] == args;
  }

  /** No placeholder starts in the part p of p + rest that has been dealt with. */
  ghost predicate Settled(p: string, rest: string) {
    forall i :: 0 <= i < |p| ==> !At(p + rest, i)
  }

  lemma FirstInRest(p: string, rest: string)
    requires Settled(p, rest)
    ensures Index(p + rest, BRACES) == if Index(rest, BRACES) == -1 then -1 else |p| + Index(rest, BRACES)
  {
    var k, s := Index(rest, BRACES), p + rest;
    assert forall i :: |p| <= i < |s| ==> (At(s, i) <==> At(rest, i - |p|));
    if k == -1 {
      NoIndex(rest);
      NoIndex(s);
    } else {
      FoundAt(rest);
      forall i | 0 <= i < |p| + k ensures !At(s, i) {
        if i >= |p| {
          NothingBefore(rest, i - |p|);
        }
      }
      IndexIs(s, |p| + k);
    }
  }

  /** Putting safe text where the first placeholder stood makes no placeholder up to its end. */
  lemma Seam(a: string, t: string, b: string, i: nat)
    requires SafeText(t) && i < |a + t|
    requires i < |a| ==> !At(a + BRACES + b, i)
    ensures !At(a + t + b, i)
  {
    var s, s' := a + BRACES + b, a + t + b;
    if i + 1 < |a| {
      assert s'[i] == s[i] && s'[i + 1] == s[i + 1];
    } else if i + 1 == |a| {
      assert s'[i + 1] == t[0];
    } else if i + 1 < |a| + |t| {
      NoIndex(t);
      var x := i - |a|;
      assert s'[i] == t[x] && s'[i + 1] == t[x + 1];
      assert !At(t, x);
    } else {
      assert s'[i] == t[|t| - 1];
    }
  }

  lemma CutAt(p: string, rest: string, k: nat)
    requires At(rest, k)
    ensures p + rest[..k] + BRACES + rest[k + 2..] == p + rest
  {
    assert rest == rest[..k] + BRACES + rest[k + 2..];
  }

  lemma StaysSettled(p: string, rest: string, k: nat, t: string)
    requires Settled(p, rest) && SafeText(t) && Index(rest, BRACES) == k
    ensures Settled(p + rest[..k] + t, rest[k + 2..])
  {
    var a, b := p + rest[..k], rest[k + 2..];
    FoundAt(rest);
    CutAt(p, rest, k);
    FirstInRest(p, rest);
    forall i | 0 <= i < |a + t| ensures !At(a + t + b, i) {
      if i < |a| {
        NothingBefore(p + rest, i);
      }
      Seam(a, t, b, i);
    }
  }

  lemma RescanStep(p: string, rest: string, k: nat, args: seq<string>)
    requires Settled(p, rest) && Index(rest, BRACES) == k && args != []
    ensures Rescan(p + rest, args) == Rescan(p + rest[..k] + args[0] + rest[k + 2..], args[1..])
  {
    FirstInRest(p, rest);
    Slices(p, rest, k);
    RescanAt(p + rest, |p| + k, args, p + rest[..k], rest[k + 2..]);
  }

  lemma RescanAt(s: string, k: nat, args: seq<string>, before: string, after: string)
    requires args != [] && Index(s, BRACES) == k && before == s[..k] && after == s[k + 2..]
    ensures Rescan(s, args) == Rescan(before + args[0] + after, args[1..])
  {
  }

  lemma Slices(p: string, rest: string, k: nat)
    requires k + 2 <= |rest|
    ensures (p + rest)[..|p| + k] == p + rest[..k] && (p + rest)[|p| + k + 2..] == rest[k + 2..]
  {
  }

  lemma Regroup(p: string, q: string, a: string, x: string)
    ensures p + q + a + x == p + (q + a + x)
  {
  }

  lemma {:induction false} RescanIsSinglePass(p: string, rest: string, args: seq<string>)
    requires Settled(p, rest)
    requires forall i :: 0 <= i < |args| - 1 && i < Placeholders(rest) ==> SafeText(args[i])
    ensures Rescan(p + rest, args) == p + SinglePass(rest, args)
    decreases |args|
  {
    var k := Index(rest, BRACES);
    if args == [] {
    } else if k == -1 {
      FirstInRest(p, rest);
    } else {
      RescanStep(p, rest, k, args);
      var q, a, rest', args' := rest[..k], args[0], rest[k + 2..], args[1..];
      var p' := p + q + a;
      if |args'| > 0 {
        assert Placeholders(rest) > 0 && SafeText(args[0]);
        StaysSettled(p, rest, k, a);
        assert forall i :: 0 <= i < |args'| ==> args'[i] == args[i + 1];
        RescanIsSinglePass(p', rest', args');
      }
      Regroup(p, q, a, SinglePass(rest', args'));
    }
  }

  lemma RescanFromStart(s: string, args: seq<string>)
    requires forall i :: 0 <= i < |args| - 1 && i < Placeholders(s) ==> SafeText(args[i])
    ensures Rescan(s, args) == SinglePass(s, args)
  {
    NothingInFront("", s);
    NothingInFront("", SinglePass(s, args));
    RescanIsSinglePass("", s, args);
  }

  lemma NothingInFront(s: string, t: string)
    ensures s[..0] + t == t && "" + t == t
  {
  }

  /** The pieces hold no placeholder: with WeaveNothing this makes them the cut of the message at every {}. */
  lemma {:induction false} PiecesHoldNone(s: string)
    ensures forall i :: 0 <= i < |Pieces(s)| ==> Index(Pieces(s)[i], BRACES) == -1
    decreases |s|
  {
    var k := Index(s, BRACES);
    if k != -1 {
      PiecesHoldNone(s[k + 2..]);
      var q := s[..k];
      forall i | 0 <= i < |q| ensures !At(q, i) {
        NothingBefore(s, i);
        assert At(q, i) ==> At(s, i);
      }
      NoIndex(q);
    }
  }

  lemma FirstRoundIsLikeOthers(msg: string, args: seq<string>)
    requires args != [] && Index(msg, BRACES) != -1
    ensures Formatted(msg, args) == Text(Rescan(msg, args))
  {
  }

  /**
    FormatMessage is the single pass for every message with a placeholder, when each argument that
    is used and followed by a further argument is safe to insert.
   */
  lemma FormatIsSinglePass(msg: string, args: seq<string>)
    requires args != [] ==> Index(msg, BRACES) != -1
    requires forall i :: 0 <= i < |args| - 1 && i < Placeholders(msg) ==> SafeText(args[i])
    ensures Formatted(msg, args) == Text(SinglePass(msg, args))
  {
    if args != [] {
      FirstRoundIsLikeOthers(msg, args);
      RescanFromStart(msg, args);
    }
  }

  /** Inserting t and then a further argument is a single pass, for every message with a placeholder. */
  ghost predicate AlwaysSinglePass(t: string) {
    forall msg: string, u: string :: Index(msg, BRACES) != -1 ==> Formatted(msg, [t, u]) == Text(SinglePass(msg, [t, u]))
  }

  lemma RescanOnce(s: string, k: nat, u: string)
    requires At(s, k) && forall i :: 0 <= i < k ==> !At(s, i)
    ensures Rescan(s, [u]) == s[..k] + u + s[k + 2..]
  {
    IndexIs(s, k);
  }

  lemma FirstRound(msg: string, t: string, u: string)
    requires At(msg, 0)
    ensures Index(msg, BRACES) == 0
    ensures SinglePass(msg, [t, u]) == t + SinglePass(msg[2..], [u])
    ensures Formatted(msg, [t, u]) == Text(Rescan(t + msg[2..], [u]))
  {
    IndexIs(msg, 0);
    FirstAtStart(msg, t, [u]);
    assert [t, u] == [t] + [u];
  }

  lemma FirstAtStart(msg: string, t: string, args: seq<string>)
    requires Index(msg, BRACES) == 0
    ensures SinglePass(msg, [t] + args) == t + SinglePass(msg[2..], args)
    ensures Formatted(msg, [t] + args) == Text(Rescan(t + msg[2..], args))
  {
    assert ([t] + args)[1..] == args;
    NothingInFront(msg, t);
  }

  lemma LastRound(msg: string, u: string)
    requires At(msg, 0) && |msg| == 2
    ensures SinglePass(msg, [u]) == u
  {
    IndexIs(msg, 0);
    assert [u][1..] == [];
  }

  lemma SecondSearchFinds(t: string, rest: string, u: string)
    requires Index(t, BRACES) != -1
    ensures var k := Index(t, BRACES); Rescan(t + rest, [u]) == t[..k] + u + (t[k + 2..] + rest)
  {
    var k, s := Index(t, BRACES), t + rest;
    FoundAt(t);
    forall i | 0 <= i < k ensures !At(s, i) {
      NothingBefore(t, i);
      assert At(s, i) ==> At(t, i);
    }
    assert At(s, k);
    RescanOnce(s, k, u);
    assert s[..k] == t[..k] && s[k + 2..] == t[k + 2..] + rest;
  }

  lemma EndsDiffer(a: string, b: string, c: string)
    ensures a + (b + BRACES) != c + "x"
  {
    var x, y := a + (b + BRACES), c + "x";
    assert x[|x| - 1] == BRACES[1] && y[|y| - 1] == 'x';
  }

  lemma NotAlways(msg: string, t: string, u: string, r: string, q: string)
    requires Index(msg, BRACES) != -1 && Formatted(msg, [t, u]) == Text(r) && SinglePass(msg, [t, u]) == q && r != q
    ensures !AlwaysSinglePass(t)
  {
  }

  lemma TwoRounds(t: string, u: string)
    ensures var msg := BRACES + BRACES;
            && Index(msg, BRACES) == 0
            && Formatted(msg, [t, u]) == Text(Rescan(t + BRACES, [u]))
            && SinglePass(msg, [t, u]) == t + u
  {
    var msg := BRACES + BRACES;
    assert At(msg, 0) && msg[2..] == BRACES;
    FirstRound(msg, t, u);
    LastRound(BRACES, u);
  }

  /** When t holds a placeholder, the second search finds that one instead of the next one of the message. */
  lemma Recaptured(t: string)
    requires Index(t, BRACES) != -1
    ensures !AlwaysSinglePass(t)
  {
    var u, k := "x", Index(t, BRACES);
    TwoRounds(t, u);
    SecondSearchFinds(t, BRACES, u);
    EndsDiffer(t[..k] + u, t[k + 2..], t);
    NotAlways(BRACES + BRACES, t, u, t[..k] + u + (t[k + 2..] + BRACES), t + u);
  }

  /** For each unsafe text there is a message on which the second search goes wrong. */
  lemma UnsafeGoesWrong(t: string)
    requires !SafeText(t)
    ensures !AlwaysSinglePass(t)
  {
    if Index(t, BRACES) != -1 {
      Recaptured(t);
    } else if t == "" {
      Misplaced("{{}}", 1, t, 0, "x");
    } else if t[0] == '}' {
      Misplaced("{{}", 1, t, 0, "x");
    } else {
      Misplaced("{}}", 0, t, |t| - 1, "x");
    }
  }

  /** The one placeholder of msg is filled by t, and a new one appears at position j. */
  lemma Misplaced(msg: string, k: nat, t: string, j: nat, u: string)
    requires At(msg, k) && forall i :: 0 <= i < |msg| && i != k ==> !At(msg, i)
    requires At(msg[..k] + t + msg[k + 2..], j)
    requires |u| == 1
    ensures !AlwaysSinglePass(t)
  {
    IndexIs(msg, k);
    var s := msg[..k] + t + msg[k + 2..];
    var r := Index(s, BRACES);
    NoIndex(s);
    var tail := msg[k + 2..];
    forall i | 0 <= i < |tail| ensures !At(tail, i) {
      assert At(tail, i) ==> At(msg, i + k + 2);
    }
    NoIndex(tail);
    assert SinglePass(msg, [t, u]) == s;
    assert |Rescan(s, [u])| == |s| - 1;
    NotAlways(msg, t, u, Rescan(s, [u]), s);
  }

  /**
    Exactly which texts can be inserted: those that are not empty, contain no {}, do not start
    with a closing brace and do not end with an opening one.
   */
  lemma SafeTextIff(t: string)
    ensures SafeText(t) <==> AlwaysSinglePass(t)
  {
    if SafeText(t) {
      forall msg: string, u: string | Index(msg, BRACES) != -1
        ensures Formatted(msg, [t, u]) == Text(SinglePass(msg, [t, u]))
      {
        FormatIsSinglePass(msg, [t, u]);
      }
    } else {
      UnsafeGoesWrong(t);
    }
  }

  /** The answer for a single {}: the argument's text, whatever it is. */
  lemma LoneArgument(s: string)
    ensures Formatted("{}", Texts([Str(s)])) == Text(s)
    ensures Formatted("{}", Texts([Nil])) == Text("")
    ensures Formatted("{}", Texts([Other(s)])) == Text(s)
  {
    TextsAre(s, []);
    assert [Str(s)] + [] == [Str(s)] && [Nil] + [] == [Nil] && [Other(s)] + [] == [Other(s)];
    LoneText(s);
    LoneText("");
  }

  lemma LoneText(s: string)
    ensures Formatted("{}", [s]) == Text(s)
  {
    ReplaceIs("{}", BRACES, s, 0);
    assert Occurs("{}", BRACES, 0);
    assert [s][1..] == [] && "{}"[..0] + s + "{}"[2..] == s;
  }

  /** The call runs out of the slice exactly for a message of less than two bytes and some argument. */
  lemma PanicIff(msg: string, args: seq<string>)
    ensures Formatted(msg, args).Panic? <==> args != [] && |msg| < 2
  {
  }

  /* ---- Messages without a placeholder ---- */

  lemma ReplaceMissing(msg: string, t: string)
    requires Index(msg, BRACES) == -1 && |msg| >= 2
    ensures Replace(msg, BRACES, t) == Text(t + msg[2..])
  {
    NothingInFront(msg, t);
    assert |BRACES| == 2;
  }

  lemma SamePrefix(msg: string, t: string)
    requires |msg| >= 2
    ensures t + msg[2..] == msg <==> t == msg[..2]
  {
    if t + msg[2..] == msg {
      assert (t + msg[2..])[..|t|] == t;
    } else {
      assert msg == msg[..2] + msg[2..];
    }
  }

  lemma Overwritten(msg: string, first: string, rest: seq<string>)
    requires Index(msg, BRACES) == -1 && |msg| >= 2
    ensures Formatted(msg, [first] + rest) == Text(Rescan(first + msg[2..], rest))
  {
    ReplaceMissing(msg, first);
    assert ([first] + rest)[1..] == rest;
  }

  /**
    Without a placeholder the first argument overwrites the first two bytes, and the further
    arguments, when safe, go to the placeholders of the text that this makes.
   */
  lemma OverwritesFirst(msg: string, first: string, rest: seq<string>)
    requires Index(msg, BRACES) == -1 && |msg| >= 2
    requires forall i :: 0 <= i < |rest| - 1 && i < Placeholders(first + msg[2..]) ==> SafeText(rest[i])
    ensures Formatted(msg, [first] + rest) == Text(SinglePass(first + msg[2..], rest))
  {
    Overwritten(msg, first, rest);
    RescanFromStart(first + msg[2..], rest);
  }

  /**
    A caller expects a message without a placeholder to come back as it is. It does exactly when the
    first argument equals the first two bytes that it overwrites, for every list of arguments, as
    long as this does not make a placeholder for a second argument.
   */
  lemma NoPlaceholderIff(msg: string, args: seq<string>)
    requires Index(msg, BRACES) == -1 && args != []
    requires |args| > 1 && |msg| >= 2 ==> Index(args[0] + msg[2..], BRACES) == -1
    ensures SinglePass(msg, args) == msg
    ensures Formatted(msg, args) == Text(msg) <==> |msg| >= 2 && args[0] == msg[..2]
  {
    if |msg| >= 2 {
      ReplaceMissing(msg, args[0]);
      SamePrefix(msg, args[0]);
    }
  }

  /** With such a placeholder the second argument can put back what the first one overwrote. */
  lemma SecondArgumentRepairs()
    ensures Index("ab", BRACES) == -1 && Formatted("ab", [BRACES, "ab"]) == Text("ab")
  {
    var args := [BRACES, "ab"];
    assert !At("ab", 0);
    NoIndex("ab");
    ReplaceMissing("ab", BRACES);
    assert BRACES + "ab"[2..] == BRACES && args[1..] == ["ab"];
    RescanOnce(BRACES, 0, "ab");
  }
}
