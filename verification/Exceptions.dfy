/**
  exceptions.go: the exception with its context map, and its text. Go visits a map in an arbitrary
  order; the text is proved not to depend on it.
 */
module Exceptions {
  import opened Common
  import opened Decimal

  /** A context value; Other carries what "%v" prints of a value that is neither text nor an integer. */
  datatype Value = Text(text: string) | Number(number: int) | Other(printed: string)

  /** What "%v" prints. */
  function Shown(v: Value): string {
    match v
    case Text(s) => s
    case Number(n) => PrintInt(n)
    case Other(p) => p
  }

  type Context = map<string, Value>

  /** An error value as the errors package sees it: its concrete type and what it wraps. */
  datatype GoError =
    | Plain(text: string)
    | StatusError(code: string, text: string)
    | Exception(message: string, context: Context, cause: Option<GoError>)
    | Conflict(message: string, context: Context, cause: Option<GoError>, expected: int, actual: int)

  /* ---- Strings in the order of sort.Strings ---- */

  predicate Less(a: string, b: string) {
    b != "" && (a == "" || a[0] < b[0] || (a[0] == b[0] && Less(a[1..], b[1..])))
  }

  lemma {:induction false} LessIsStrict(a: string, b: string)
    ensures !(Less(a, b) && Less(b, a)) && (Less(a, b) ==> a != b)
    ensures Less(a, b) || Less(b, a) || a == b
  {
    if a != "" && b != "" && a[0] == b[0] {
      LessIsStrict(a[1..], b[1..]);
      assert a == [a[0]] + a[1..] && b == [b[0]] + b[1..];
    }
  }

  lemma {:induction false} LessIsTransitive(a: string, b: string, c: string)
    requires Less(a, b) && Less(b, c)
    ensures Less(a, c)
  {
    if a != "" && a[0] == b[0] == c[0] {
      LessIsTransitive(a[1..], b[1..], c[1..]);
    }
  }

  /** The order of strings by the first place where they differ, a prefix before what it is a prefix of. */
  lemma {:induction false} LessIs(a: string, b: string, n: nat)
    requires n <= |a| && n < |b| && a[..n] == b[..n] && (n < |a| ==> a[n] != b[n])
    ensures Less(a, b) <==> n == |a| || a[n] < b[n]
    ensures Less(b, a) <==> n < |a| && b[n] < a[n]
    decreases n
  {
    if n > 0 {
      assert a[0] == a[..n][0] == b[..n][0] == b[0];
      assert a[1..][..n - 1] == a[..n][1..] == b[..n][1..] == b[1..][..n - 1];
      LessIs(a[1..], b[1..], n - 1);
    }
  }

  predicate Ascending(k: seq<string>) {
    forall i, j :: 0 <= i < j < |k| ==> !Less(k[j], k[i])
  }

  predicate StrictlyAscending(k: seq<string>) {
    forall i, j :: 0 <= i < j < |k| ==> Less(k[i], k[j])
  }

  /** k lists exactly the keys of s, each once, in ascending order. */
  ghost predicate Listing(k: seq<string>, s: set<string>) {
    StrictlyAscending(k) && forall x :: x in k <==> x in s
  }

  lemma EmptyListing(k: seq<string>, s: set<string>)
    requires Listing(k, s)
    ensures k == [] <==> s == {}
  {
    if k != [] {
      assert k[0] in s;
    }
    if s != {} {
      var x :| x in s;
      assert x in k;
    }
  }

  /** There is only one such list. */
  lemma {:induction false} ListingUnique(k: seq<string>, l: seq<string>, s: set<string>)
    requires Listing(k, s) && Listing(l, s)
    ensures k == l
    decreases |k|
  {
    EmptyListing(k, s);
    EmptyListing(l, s);
    if k != [] {
      assert k[0] in l && l[0] in k by {
        assert k[0] in s;
        assert k[0] in l;
        assert l[0] in s;
      }
      var i :| 0 <= i < |l| && l[i] == k[0];
      var j :| 0 <= j < |k| && k[j] == l[0];
      if i > 0 && j > 0 {
        LessIsStrict(k[0], l[0]);
      }
      assert k[0] == l[0];
      ListingTail(k, s);
      ListingTail(l, s);
      ListingUnique(k[1..], l[1..], s - {k[0]});
      assert k == [k[0]] + k[1..] && l == [l[0]] + l[1..];
    }
  }

  lemma ListingTail(k: seq<string>, s: set<string>)
    requires Listing(k, s) && k != []
    ensures Listing(k[1..], s - {k[0]})
  {
    forall x ensures x in k[1..] <==> x in s - {k[0]} {
      LessIsStrict(x, x);
      if x in k[1..] {
        var i :| 0 <= i < |k[1..]| && k[1..][i] == x;
        assert x == k[i + 1] && Less(k[0], x);
      }
    }
  }

  function Insert(x: string, k: seq<string>): seq<string> {
    if k == [] || Less(x, k[0]) then [x] + k else [k[0]] + Insert(x, k[1..])
  }

  lemma {:induction false} InsertKeeps(x: string, k: seq<string>)
    requires Ascending(k)
    ensures Ascending(Insert(x, k)) && multiset(Insert(x, k)) == multiset(k) + multiset{x}
  {
    if k != [] {
      assert k == [k[0]] + k[1..];
      if Less(x, k[0]) {
        var r := [x] + k;
        forall i, j | 0 <= i < j < |r| ensures !Less(r[j], r[i]) {
          if i == 0 && Less(r[j], x) {
            LessIsTransitive(r[j], x, k[0]);
            LessIsStrict(k[0], k[0]);
          }
        }
      } else {
        InsertKeeps(x, k[1..]);
        var t := Insert(x, k[1..]);
        var r := [k[0]] + t;
        forall i, j | 0 <= i < j < |r| ensures !Less(r[j], r[i]) {
          if i == 0 {
            assert r[j] in multiset(t);
            assert r[j] == x || r[j] in k[1..];
          }
        }
      }
    }
  }

  /** sort.Strings. */
  method SortStrings(keys: seq<string>) returns (r: seq<string>)
    ensures Ascending(r) && multiset(r) == multiset(keys)
  {
    r := [];
    for i := 0 to |keys|
      invariant Ascending(r) && multiset(r) == multiset(keys[..i])
    {
      InsertKeeps(keys[i], r);
      r := Insert(keys[i], r);
      assert keys[..i + 1] == keys[..i] + [keys[i]];
    }
    assert keys[..|keys|] == keys;
  }

  lemma TwiceCounted(r: seq<string>, i: nat, j: nat)
    requires i < j < |r| && r[i] == r[j]
    ensures multiset(r)[r[i]] >= 2
  {
    assert r == r[..j] + r[j..];
    assert r[i] == r[..j][i] && r[j] == r[j..][0];
    assert multiset(r)[r[i]] == multiset(r[..j])[r[i]] + multiset(r[j..])[r[i]];
  }

  lemma SortedIsListing(r: seq<string>, s: set<string>)
    requires Ascending(r) && multiset(r) == multiset(s)
    ensures Listing(r, s)
  {
    forall i, j | 0 <= i < j < |r| ensures Less(r[i], r[j]) {
      LessIsStrict(r[i], r[j]);
      if r[i] == r[j] {
        TwiceCounted(r, i, j);
      }
    }
    forall x ensures x in r <==> x in s {
      assert x in r <==> x in multiset(r);
    }
  }

  lemma {:induction false} ListingExists(s: set<string>)
    ensures exists k :: Listing(k, s)
  {
    if s == {} {
      assert Listing([], s);
    } else {
      var x :| x in s;
      ListingExists(s - {x});
      var k :| Listing(k, s - {x});
      assert Ascending(k) by {
        forall i, j | 0 <= i < j < |k| ensures !Less(k[j], k[i]) {
          LessIsStrict(k[i], k[j]);
        }
      }
      InsertKeeps(x, k);
      InsertLists(x, k, s - {x});
      assert Listing(Insert(x, k), s);
    }
  }

  lemma {:induction false} InsertLists(x: string, k: seq<string>, s: set<string>)
    requires Listing(k, s) && x !in s
    ensures Listing(Insert(x, k), s + {x})
    decreases |k|
  {
    if k != [] {
      assert k[0] in k;
      LessIsStrict(x, k[0]);
      if Less(x, k[0]) {
        forall j | 0 <= j < |k| ensures Less(x, k[j]) {
          if j > 0 {
            LessIsTransitive(x, k[0], k[j]);
          }
        }
        assert StrictlyAscending([x] + k);
      } else {
        ListingTail(k, s);
        InsertLists(x, k[1..], s - {k[0]});
        var t := Insert(x, k[1..]);
        forall j | 0 <= j < |t| ensures Less(k[0], t[j]) {
          assert t[j] in t;
          if t[j] != x {
            var i :| 0 <= i < |k| && k[i] == t[j];
            assert i > 0;
          }
        }
        assert StrictlyAscending([k[0]] + t);
        assert forall y :: y in [k[0]] + t <==> y == k[0] || y in t;
      }
    }
  }

  ghost function SortedKeys(s: set<string>): (k: seq<string>)
    ensures Listing(k, s)
  {
    ListingExists(s);
    var k :| Listing(k, s);
    k
  }

  function Entry(first: bool, key: string, value: Value): string {
    (if first then "" else ", ") + key + "=" + Shown(value)
  }

  /** The entries of the context, in the order of the list of keys. */
  function Entries(keys: seq<string>, context: Context): string
    requires forall k :: k in keys ==> k in context
    decreases |keys|
  {
    if keys == [] then ""
    else
      var init, last := keys[..|keys| - 1], keys[|keys| - 1];
      Entries(init, context) + Entry(init == [], last, context[last])
  }

  /** The text of an exception: a function of the message and the context, whatever the map order. */
  ghost function Rendered(message: string, context: Context): string {
    if context == map[] then message
    else message + " [Context: " + Entries(SortedKeys(context.Keys), context) + "]"
  }

  lemma ShownIs(s: string, n: int)
    ensures Shown(Text(s)) == s && Shown(Number(n)) == PrintInt(n) && Shown(Other(s)) == s
  {
  }

  lemma {:induction false} SameEntries(keys: seq<string>, c: Context, d: Context)
    requires forall k :: k in keys ==> k in c && k in d && c[k] == d[k]
    ensures Entries(keys, c) == Entries(keys, d)
    decreases |keys|
  {
    if keys != [] {
      var init := keys[..|keys| - 1];
      assert forall k :: k in init ==> k in keys;
      assert keys[|keys| - 1] in keys;
      SameEntries(init, c, d);
    }
  }

  lemma LastKey(s: set<string>, k: string)
    requires k !in s && forall x :: x in s ==> Less(x, k)
    ensures SortedKeys(s + {k}) == SortedKeys(s) + [k]
  {
    var keys := SortedKeys(s);
    forall i, j | 0 <= i < j < |keys + [k]| ensures Less((keys + [k])[i], (keys + [k])[j]) {
      if j == |keys| {
        assert keys[i] in keys;
      }
    }
    assert Listing(keys + [k], s + {k});
    ListingUnique(SortedKeys(s + {k}), keys + [k], s + {k});
  }

  lemma EntriesOfLast(keys: seq<string>, c: Context, k: string, v: Value)
    requires k !in keys && forall x :: x in keys ==> x in c
    ensures Entries(keys + [k], c[k := v]) == Entries(keys, c) + (if keys == [] then "" else ", ") + k + "=" + Shown(v)
  {
    var c' := c[k := v];
    SameEntries(keys, c, c');
    EntriesStep(keys, c', k);
    Spelled(Entries(keys, c), if keys == [] then "" else ", ", k, Shown(v));
  }

  lemma EntriesStep(keys: seq<string>, c: Context, k: string)
    requires forall x :: x in keys + [k] ==> x in c
    ensures forall x :: x in keys ==> x in c
    ensures k in c && Entries(keys + [k], c) == Entries(keys, c) + Entry(keys == [], k, c[k])
  {
    assert (keys + [k])[..|keys|] == keys && (keys + [k])[|keys|] == k;
    assert forall x :: x in keys ==> x in keys + [k];
  }

  lemma Spelled(e: string, f: string, k: string, s: string)
    ensures e + (f + k + "=" + s) == e + f + k + "=" + s
  {
  }

  lemma OneKey(k: string)
    ensures SortedKeys({k}) == [k]
  {
    LessIsStrict(k, k);
    EmptyListing(SortedKeys({}), {});
    LastKey({}, k);
    assert {} + {k} == {k} && [] + [k] == [k];
  }

  /** The text of an exception without context is the message; with one entry, that entry follows in brackets. */
  lemma RenderedFirst(m: string, k: string, v: Value)
    ensures Rendered(m, map[]) == m
    ensures Rendered(m, map[k := v]) == m + " [Context: " + k + "=" + Shown(v) + "]"
  {
    var c := map[k := v];
    OneKey(k);
    assert c.Keys == {k};
    assert Entries([k], c) == k + "=" + Shown(v) by {
      assert [k][..0] == [] && "" + ("" + k + "=" + Shown(v)) == k + "=" + Shown(v);
    }
    Bracketed(m, k, Shown(v));
  }

  lemma Bracketed(m: string, k: string, s: string)
    ensures m + " [Context: " + (k + "=" + s) + "]" == m + " [Context: " + k + "=" + s + "]"
  {
  }

  lemma SameStart(a: string, b: string)
    requires a + "]" == b + "]"
    ensures a == b
  {
    assert (a + "]")[..|a|] == a && (b + "]")[..|b|] == b;
  }

  lemma RenderedNotEmpty(m: string, c: Context)
    requires c != map[]
    ensures Rendered(m, c) == m + " [Context: " + Entries(SortedKeys(c.Keys), c) + "]" && SortedKeys(c.Keys) != []
  {
    EmptyListing(SortedKeys(c.Keys), c.Keys);
    var k :| k in c;
    assert k in c.Keys;
  }

  lemma EntriesNext(c: Context, k: string, v: Value)
    requires c != map[] && forall x :: x in c ==> Less(x, k)
    ensures Entries(SortedKeys(c[k := v].Keys), c[k := v]) == Entries(SortedKeys(c.Keys), c) + ", " + k + "=" + Shown(v)
  {
    LessIsStrict(k, k);
    RenderedNotEmpty("", c);
    LastKey(c.Keys, k);
    assert c[k := v].Keys == c.Keys + {k};
    EntriesOfLast(SortedKeys(c.Keys), c, k, v);
  }

  lemma Reopened(o: string, e: string, k: string, s: string)
    ensures o + (e + ", " + k + "=" + s) == (o + e) + ", " + k + "=" + s
  {
  }

  /**
    And an entry whose key comes after all others is written last, behind a comma. With RenderedFirst
    this fixes the text for every context.
   */
  lemma RenderedNext(m: string, c: Context, k: string, v: Value, start: string)
    requires c != map[] && (forall x :: x in c ==> Less(x, k)) && Rendered(m, c) == start + "]"
    ensures Rendered(m, c[k := v]) == start + ", " + k + "=" + Shown(v) + "]"
  {
    var o, e := m + " [Context: ", Entries(SortedKeys(c.Keys), c);
    RenderedNotEmpty(m, c);
    SameStart(o + e, start);
    RenderedNotEmpty(m, c[k := v]);
    EntriesNext(c, k, v);
    Reopened(o, e, k, Shown(v));
  }

  /** Three entries, in the order of their keys. */
  lemma ThreeEntries(m: string, k: string, v: Value, l: string, w: Value, n: string, x: Value)
    requires Less(k, l) && Less(l, n)
    ensures k != l && l != n && k != n
    ensures Rendered(m, map[k := v, l := w, n := x])
            == m + " [Context: " + k + "=" + Shown(v) + ", " + l + "=" + Shown(w) + ", " + n + "=" + Shown(x) + "]"
  {
    LessIsTransitive(k, l, n);
    LessIsStrict(k, l);
    LessIsStrict(l, n);
    LessIsStrict(k, n);
    var start := m + " [Context: " + k + "=" + Shown(v);
    RenderedFirst(m, k, v);
    RenderedNext(m, map[k := v], l, w, start);
    RenderedNext(m, map[k := v][l := w], n, x, start + ", " + l + "=" + Shown(w));
    assert map[k := v][l := w][n := x] == map[k := v, l := w, n := x];
  }

  class OrisunException {
    const message: string
    const cause: Option<GoError>
    /** None is Go's nil map. */
    var context: Option<Context>

    ghost function Entered(): Context
      reads this
    {
      if context.Some? then context.value else map[]
    }

    /** The exception as an error value. */
    ghost function View(): GoError
      reads this
    {
      Exception(message, Entered(), cause)
    }

    constructor (message: string, cause: Option<GoError>, context: Option<Context>)
      ensures this.message == message && this.cause == cause && this.context == context
    {
      this.message, this.cause, this.context := message, cause, context;
    }

    method AddContext(key: string, value: Value) returns (e: OrisunException)
      modifies this
      ensures e == this && context.Some? && Entered() == old(Entered())[key := value]
    {
      if context.None? {
        context := Some(map[]);
      }
      context := Some(context.value[key := value]);
      return this;
    }

    method GetContext(key: string) returns (r: Option<Value>)
      ensures r == if key in Entered() then Some(Entered()[key]) else None
    {
      if context.None? {
        return None;
      }
      return if key in context.value then Some(context.value[key]) else None;
    }

    /** The text is the same for every order in which the keys are visited. */
    method Error() returns (text: string)
      ensures text == Rendered(message, Entered())
    {
      text := message;
      if context.Some? && context.value != map[] {
        var entered := context.value;
        text := text + " [Context: ";
        var keys := VisitAndSort(entered);
        text := WriteEntries(text, keys, entered);
        text := text + "]";
      }
    }
  }

  method WriteEntries(start: string, keys: seq<string>, entered: Context) returns (text: string)
    requires forall k :: k in keys ==> k in entered
    ensures text == start + Entries(keys, entered)
  {
    text := start;
    for i := 0 to |keys|
      invariant forall k :: k in keys[..i] ==> k in entered
      invariant text == start + Entries(keys[..i], entered)
    {
      EntriesGrow(start, keys, i, entered);
      text := text + Entry(i == 0, keys[i], entered[keys[i]]);
    }
    assert keys[..|keys|] == keys;
  }

  lemma Regroup(a: string, b: string, c: string)
    ensures a + b + c == a + (b + c)
  {
  }

  lemma EntriesGrow(start: string, keys: seq<string>, i: nat, context: Context)
    requires i < |keys| && forall k :: k in keys ==> k in context
    ensures forall k :: k in keys[..i + 1] ==> k in context
    ensures start + Entries(keys[..i + 1], context)
            == start + Entries(keys[..i], context) + Entry(i == 0, keys[i], context[keys[i]])
  {
    assert keys[..i + 1][..i] == keys[..i];
    assert forall k :: k in keys[..i + 1] ==> k in keys;
    Regroup(start, Entries(keys[..i], context), Entry(i == 0, keys[i], context[keys[i]]));
  }

  /** Collects the keys of the map, in the arbitrary order in which they are visited, and sorts them. */
  method VisitAndSort(entered: Context) returns (keys: seq<string>)
    ensures keys == SortedKeys(entered.Keys)
  {
    keys := [];
    var left := entered.Keys;
    while left != {}
      invariant left <= entered.Keys
      invariant multiset(keys) == multiset(entered.Keys - left)
    {
      var key :| key in left;
      assert entered.Keys - (left - {key}) == (entered.Keys - left) + {key};
      keys, left := keys + [key], left - {key};
    }
    assert entered.Keys - left == entered.Keys;
    keys := SortStrings(keys);
    SortedIsListing(keys, entered.Keys);
    ListingUnique(keys, SortedKeys(entered.Keys), entered.Keys);
  }

  /* ---- What a list of AddContext calls amounts to ---- */

  datatype Addition = Addition(key: string, value: Value)

  function Added(c: Context, adds: seq<Addition>): Context
    decreases |adds|
  {
    if adds == [] then c else Added(c[adds[0].key := adds[0].value], adds[1..])
  }

  /** The value of the last addition for the key, if there is one. */
  function LastFor(adds: seq<Addition>, key: string): Option<Value> {
    if adds == [] then None
    else if LastFor(adds[1..], key).Some? then LastFor(adds[1..], key)
    else if adds[0].key == key then Some(adds[0].value)
    else None
  }

  lemma {:induction false} AddedHoldsLast(c: Context, adds: seq<Addition>, key: string)
    ensures match LastFor(adds, key)
            case Some(v) => key in Added(c, adds) && Added(c, adds)[key] == v
            case None => (key in Added(c, adds) <==> key in c) && (key in c ==> Added(c, adds)[key] == c[key])
    decreases |adds|
  {
    if adds != [] {
      AddedHoldsLast(c[adds[0].key := adds[0].value], adds[1..], key);
    }
  }

  /**
    The order in which context is added matters only where a key is repeated, and there the last
    value stays: two lists that agree on the last value of every key give the same text.
   */
  lemma SameLastSameText(message: string, c: Context, adds: seq<Addition>, other: seq<Addition>)
    requires forall key: string :: LastFor(adds, key) == LastFor(other, key)
    ensures Added(c, adds) == Added(c, other)
    ensures Rendered(message, Added(c, adds)) == Rendered(message, Added(c, other))
  {
    forall key: string
      ensures key in Added(c, adds) <==> key in Added(c, other)
      ensures key in Added(c, adds) ==> Added(c, adds)[key] == Added(c, other)[key]
    {
      AddedHoldsLast(c, adds, key);
      AddedHoldsLast(c, other, key);
    }
  }
}
