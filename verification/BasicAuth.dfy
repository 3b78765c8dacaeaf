/**
  CreateBasicAuthCredentials of token_cache.go, with the standard Base64 encoding of section 4 of
  RFC 4648 and the reading of a Basic credential of section 2 of RFC 7617. Strings are bytes here.
 */
module BasicAuth {
  import opened Common

  type byte = x: int | 0 <= x < 256

  /** A group of six bits, or PAD for the padding at the end. */
  type sextet = x: int | 0 <= x <= 64

  const PAD: sextet := 64

  function Symbol(n: sextet): char {
    if n < 26 then 'A' + n as char
    else if n < 52 then 'a' + (n - 26) as char
    else if n < 62 then '0' + (n - 52) as char
    else if n == 62 then '+'
    else if n == 63 then '/'
    else '='
  }

  /** The number that a symbol stands for, or -1. */
  function Number(c: char): (n: int)
    ensures -1 <= n <= 64
  {
    if 'A' <= c <= 'Z' then (c - 'A') as int
    else if 'a' <= c <= 'z' then (c - 'a') as int + 26
    else if '0' <= c <= '9' then (c - '0') as int + 52
    else if c == '+' then 62
    else if c == '/' then 63
    else if c == '=' then 64
    else -1
  }

  lemma NumberOfSymbol(n: sextet)
    ensures Number(Symbol(n)) == n
  {
  }

  function Symbols(q: seq<sextet>): string {
    seq(|q|, i requires 0 <= i < |q| => Symbol(q[i]))
  }

  function Numbers(s: string): seq<int> {
    seq(|s|, i requires 0 <= i < |s| => Number(s[i]))
  }

  lemma NumbersOfSymbols(q: seq<sextet>)
    ensures Numbers(Symbols(q)) == q
  {
    forall i | 0 <= i < |q| ensures Numbers(Symbols(q))[i] == q[i] {
      NumberOfSymbol(q[i]);
    }
  }

  /** Three bytes make four groups of six bits; one or two left over are padded. */
  function Split(b: seq<byte>): seq<sextet> {
    if b == [] then []
    else if |b| == 1 then [b[0] / 4, b[0] % 4 * 16, PAD, PAD]
    else if |b| == 2 then [b[0] / 4, b[0] % 4 * 16 + b[1] / 16, b[1] % 16 * 4, PAD]
    else [b[0] / 4, b[0] % 4 * 16 + b[1] / 16, b[1] % 16 * 4 + b[2] / 64, b[2] % 64] + Split(b[3..])
  }

  predicate Six(n: int) {
    0 <= n < 64
  }

  /** Four groups make three bytes; padding only at the very end, and no stray bits before it. */
  function Unsplit(q: seq<int>): Option<seq<byte>> {
    if q == [] then Some([])
    else if |q| < 4 || !Six(q[0]) || !Six(q[1]) then None
    else
      var first := q[0] * 4 + q[1] / 16;
      if |q| == 4 && q[2] == PAD && q[3] == PAD then
        if q[1] % 16 == 0 then Some([first]) else None
      else if !Six(q[2]) then None
      else
        var second := q[1] % 16 * 16 + q[2] / 4;
        if |q| == 4 && q[3] == PAD then
          if q[2] % 4 == 0 then Some([first, second]) else None
        else if !Six(q[3]) then None
        else
          match Unsplit(q[4..])
          case None => None
          case Some(rest) => Some([first, second, q[2] % 4 * 64 + q[3]] + rest)
  }

  lemma Rejoin(a: byte, b: byte, c: byte)
    ensures var x, y, z, w := a / 4, a % 4 * 16 + b / 16, b % 16 * 4 + c / 64, c % 64;
            && Six(x) && Six(y) && Six(z) && Six(w)
            && x * 4 + y / 16 == a && y % 16 * 16 + z / 4 == b && z % 4 * 64 + w == c
  {
  }

  lemma UnsplitOne(x: int, y: int, a: byte)
    requires Six(x) && Six(y) && y % 16 == 0 && x * 4 + y / 16 == a
    ensures Unsplit([x, y, PAD, PAD]) == Some([a])
  {
  }

  lemma UnsplitTwo(x: int, y: int, z: int, a: byte, b: byte)
    requires Six(x) && Six(y) && Six(z) && z % 4 == 0 && x * 4 + y / 16 == a && y % 16 * 16 + z / 4 == b
    ensures Unsplit([x, y, z, PAD]) == Some([a, b])
  {
  }

  lemma UnsplitFull(x: int, y: int, z: int, w: int, a: byte, b: byte, c: byte, q: seq<int>, rest: seq<byte>)
    requires Six(x) && Six(y) && Six(z) && Six(w) && Unsplit(q) == Some(rest)
    requires x * 4 + y / 16 == a && y % 16 * 16 + z / 4 == b && z % 4 * 64 + w == c
    ensures Unsplit([x, y, z, w] + q) == Some([a, b, c] + rest)
  {
    assert ([x, y, z, w] + q)[4..] == q;
  }

  lemma SplitOne(a: byte)
    ensures Unsplit(Split([a])) == Some([a])
  {
    Rejoin(a, 0, 0);
    UnsplitOne(a / 4, a % 4 * 16, a);
  }

  lemma SplitTwo(a: byte, b: byte)
    ensures Unsplit(Split([a, b])) == Some([a, b])
  {
    Rejoin(a, b, 0);
    UnsplitTwo(a / 4, a % 4 * 16 + b / 16, b % 16 * 4, a, b);
  }

  lemma SplitStep(a: byte, b: byte, c: byte, rest: seq<byte>)
    ensures Split([a, b, c] + rest) == [a / 4, a % 4 * 16 + b / 16, b % 16 * 4 + c / 64, c % 64] + Split(rest)
  {
    assert ([a, b, c] + rest)[3..] == rest;
  }

  lemma SplitThree(a: byte, b: byte, c: byte, rest: seq<byte>)
    requires Unsplit(Split(rest)) == Some(rest)
    ensures Unsplit(Split([a, b, c] + rest)) == Some([a, b, c] + rest)
  {
    Rejoin(a, b, c);
    SplitStep(a, b, c, rest);
    UnsplitFull(a / 4, a % 4 * 16 + b / 16, b % 16 * 4 + c / 64, c % 64, a, b, c, Split(rest), rest);
  }

  lemma {:induction false} UnsplitOfSplit(b: seq<byte>)
    ensures Unsplit(Split(b)) == Some(b)
  {
    if |b| > 2 {
      UnsplitOfSplit(b[3..]);
      SplitThree(b[0], b[1], b[2], b[3..]);
      assert b == [b[0], b[1], b[2]] + b[3..];
    } else if |b| == 2 {
      SplitTwo(b[0], b[1]);
      assert b == [b[0], b[1]];
    } else if |b| == 1 {
      SplitOne(b[0]);
      assert b == [b[0]];
    }
  }

  function Encode(b: seq<byte>): string {
    Symbols(Split(b))
  }

  function Decode(s: string): Option<seq<byte>> {
    Unsplit(Numbers(s))
  }

  /** The alphabet of table 1 of RFC 4648. */
  lemma SymbolIs(n: sextet)
    ensures n < 64 ==> Symbol(n) == ("ABCDEFGHIJKLMNOPQRSTUVWXYZ" + "abcdefghijklmnopqrstuvwxyz" + "0123456789" + "+/")[n]
    ensures n == 64 ==> Symbol(n) == '='
  {
    if n < 26 {
      UpperIs(n);
    } else if n < 52 {
      LowerIs(n - 26);
    } else if n < 62 {
      DigitIs(n - 52);
    }
  }

  lemma DigitIs(n: nat)
    requires n < 10
    ensures '0' + n as char == "0123456789"[n]
  {
  }

  lemma UpperIs(n: nat)
    requires n < 26
    ensures 'A' + n as char == "ABCDEFGHIJKLMNOPQRSTUVWXYZ"[n]
  {
  }

  lemma LowerIs(n: nat)
    requires n < 26
    ensures 'a' + n as char == "abcdefghijklmnopqrstuvwxyz"[n]
  {
  }

  lemma SymbolsOfFour(x: sextet, y: sextet, z: sextet, w: sextet, q: seq<sextet>)
    ensures Symbols([x, y, z, w] + q) == [Symbol(x), Symbol(y), Symbol(z), Symbol(w)] + Symbols(q)
  {
  }

  /** Three bytes as four digits in base 64; there is only one way to write a number so. */
  lemma InBase64(a: byte, b: byte, c: byte)
    ensures 65536 * a + 256 * b + c == 262144 * (a / 4) + 4096 * (a % 4 * 16 + b / 16) + 64 * (b % 16 * 4 + c / 64) + c % 64
  {
  }

  lemma OneNumeral(x: sextet, y: sextet, z: sextet, w: sextet, x': sextet, y': sextet, z': sextet, w': sextet)
    requires x < 64 && y < 64 && z < 64 && w < 64 && x' < 64 && y' < 64 && z' < 64 && w' < 64
    requires 262144 * x + 4096 * y + 64 * z + w == 262144 * x' + 4096 * y' + 64 * z' + w'
    ensures x == x' && y == y' && z == z' && w == w'
  {
  }

  /**
    The encoding of a full group, spelled out: three bytes are written as a number in base 64, with the
    digits of the alphabet.
   */
  lemma EncodeIs(a: byte, b: byte, c: byte, rest: seq<byte>, x: sextet, y: sextet, z: sextet, w: sextet)
    requires x < 64 && y < 64 && z < 64 && w < 64
    requires 65536 * a + 256 * b + c == 262144 * x + 4096 * y + 64 * z + w
    ensures var digits := "ABCDEFGHIJKLMNOPQRSTUVWXYZ" + "abcdefghijklmnopqrstuvwxyz" + "0123456789" + "+/";
            Encode([a, b, c] + rest) == [digits[x], digits[y], digits[z], digits[w]] + Encode(rest)
  {
    InBase64(a, b, c);
    Rejoin(a, b, c);
    OneNumeral(x, y, z, w, a / 4, a % 4 * 16 + b / 16, b % 16 * 4 + c / 64, c % 64);
    EncodeThree(a, b, c, rest);
    SymbolIs(x);
    SymbolIs(y);
    SymbolIs(z);
    SymbolIs(w);
  }

  /** One or two bytes at the end are filled up with zero bits and padded. */
  lemma EncodeEndIs(a: byte, b: byte)
    ensures var digits := "ABCDEFGHIJKLMNOPQRSTUVWXYZ" + "abcdefghijklmnopqrstuvwxyz" + "0123456789" + "+/";
            && Encode([]) == ""
            && Encode([a]) == [digits[a / 4], digits[a % 4 * 16], '=', '=']
            && Encode([a, b]) == [digits[a / 4], digits[a % 4 * 16 + b / 16], digits[b % 16 * 4], '=']
  {
    EncodeShort(a, b);
    SymbolIs(a / 4);
    SymbolIs(a % 4 * 16);
    SymbolIs(a % 4 * 16 + b / 16);
    SymbolIs(b % 16 * 4);
  }

  lemma EncodeShort(a: byte, b: byte)
    ensures Encode([]) == ""
    ensures Encode([a]) == [Symbol(a / 4), Symbol(a % 4 * 16), '=', '=']
    ensures Encode([a, b]) == [Symbol(a / 4), Symbol(a % 4 * 16 + b / 16), Symbol(b % 16 * 4), '=']
  {
  }

  lemma EncodeThree(a: byte, b: byte, c: byte, rest: seq<byte>)
    ensures Encode([a, b, c] + rest)
            == [Symbol(a / 4), Symbol(a % 4 * 16 + b / 16), Symbol(b % 16 * 4 + c / 64), Symbol(c % 64)] + Encode(rest)
  {
    SplitStep(a, b, c, rest);
    SymbolsOfFour(a / 4, a % 4 * 16 + b / 16, b % 16 * 4 + c / 64, c % 64, Split(rest));
  }

  lemma DecodeOfEncode(b: seq<byte>)
    ensures Decode(Encode(b)) == Some(b)
  {
    NumbersOfSymbols(Split(b));
    UnsplitOfSplit(b);
  }

  const PREFIX := "Basic "
  const COLON: byte := 58

  function CreateBasicAuthCredentials(username: seq<byte>, password: seq<byte>): string {
    if username == [] || password == [] then ""
    else PREFIX + Encode(username + [COLON] + password)
  }

  function FirstColon(b: seq<byte>): (i: int)
    ensures -1 <= i < |b|
  {
    if b == [] then -1
    else if b[0] == COLON then 0
    else if FirstColon(b[1..]) == -1 then -1
    else FirstColon(b[1..]) + 1
  }

  /** What a server makes of the credential: decode, and split at the first colon. */
  function ReadCredentials(header: string): Option<(seq<byte>, seq<byte>)> {
    if !(PREFIX <= header) then None
    else
      match Decode(header[|PREFIX|..])
      case None => None
      case Some(b) =>
        var i := FirstColon(b);
        if i == -1 then None else Some((b[..i], b[i + 1..]))
  }

  lemma {:induction false} FirstColonIs(u: seq<byte>, p: seq<byte>)
    ensures var i := FirstColon(u + [COLON] + p); 0 <= i <= |u| && (i == |u| <==> COLON !in u)
  {
    var b := u + [COLON] + p;
    if u != [] {
      assert b[1..] == u[1..] + [COLON] + p;
      FirstColonIs(u[1..], p);
      assert u == [u[0]] + u[1..];
    }
  }

  /**
    A server reads back the very username and password if and only if the username holds no colon.
    There is a credential exactly when neither is empty.
   */
  lemma CredentialsReadBackIff(username: seq<byte>, password: seq<byte>)
    ensures CreateBasicAuthCredentials(username, password) == "" <==> username == [] || password == []
    ensures username != [] && password != [] ==>
              (ReadCredentials(CreateBasicAuthCredentials(username, password)) == Some((username, password))
               <==> COLON !in username)
  {
    if username != [] && password != [] {
      var b := username + [COLON] + password;
      var header := CreateBasicAuthCredentials(username, password);
      assert header[|PREFIX|..] == Encode(b);
      DecodeOfEncode(b);
      FirstColonIs(username, password);
      var i := FirstColon(b);
      if i == |username| {
        assert b[..i] == username && b[i + 1..] == password;
      } else {
        assert |b[..i]| != |username|;
      }
    }
  }

  /** The credential, spelled out. */
  lemma CredentialIs(username: seq<byte>, password: seq<byte>)
    ensures CreateBasicAuthCredentials(username, password)
            == if username == [] || password == [] then "" else "Basic " + Encode(username + [':' as byte] + password)
  {
  }

  /** So different users never share a credential. */
  lemma CredentialsInjective(u: seq<byte>, p: seq<byte>, v: seq<byte>, q: seq<byte>)
    requires u != [] && p != [] && v != [] && q != [] && COLON !in u && COLON !in v
    requires CreateBasicAuthCredentials(u, p) == CreateBasicAuthCredentials(v, q)
    ensures u == v && p == q
  {
    CredentialsReadBackIff(u, p);
    CredentialsReadBackIff(v, q);
  }
}
