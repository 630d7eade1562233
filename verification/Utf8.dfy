/** UTF-8 (section 3 of RFC 3629): the bytes of a text, and what a beginning of them
    decodes as. */
module Utf8 {
  import opened Common

  /** The one to four bytes of a character. */
  function Bytes(c: char): (b: seq<Byte>)
    ensures 1 <= |b| <= 4
    ensures |b| == 1 <==> c as int < 0x80
  {
    var n := c as int;
    if n < 0x80 then [n]
    else if n < 0x800 then [0xC0 + n / 64, 0x80 + n % 64]
    else if n < 0x1_0000 then [0xE0 + n / 4096, 0x80 + n / 64 % 64, 0x80 + n % 64]
    else [0xF0 + n / 262144, 0x80 + n / 4096 % 64, 0x80 + n / 64 % 64, 0x80 + n % 64]
  }

  function Encoded(s: string): (b: seq<Byte>)
    ensures |s| <= |b| <= 4 * |s|
  {
    if s == "" then [] else Bytes(s[0]) + Encoded(s[1..])
  }

  predicate Ascii(s: string) {
    forall i :: 0 <= i < |s| ==> s[i] as int < 0x80
  }

  /** The first byte says how many there are, and all of them the character. */
  lemma BytesAreSelfDelimiting(c: char, d: char, x: seq<Byte>, y: seq<Byte>)
    requires Bytes(c) + x == Bytes(d) + y
    ensures c == d && x == y
  {
    var b, e := Bytes(c), Bytes(d);
    assert (b + x)[0] == b[0] && (e + y)[0] == e[0];
    SameLead(c, d);
    assert b == (b + x)[..|b|] == e;
    BytesAreInjective(c, d);
    assert x == (b + x)[|b|..] && y == (e + y)[|e|..];
  }

  lemma SameLead(c: char, d: char)
    requires Bytes(c)[0] == Bytes(d)[0]
    ensures |Bytes(c)| == |Bytes(d)|
  {
  }

  lemma BytesAreInjective(c: char, d: char)
    requires Bytes(c) == Bytes(d)
    ensures c == d
  {
    var b, e := Bytes(c), Bytes(d);
    assert forall i :: 0 <= i < |b| ==> b[i] == e[i];
    if |b| == 2 {
      assert b[0] == e[0] && b[1] == e[1];
    } else if |b| == 3 {
      Digits(c as int);
      Digits(d as int);
      assert b[0] == e[0] && b[1] == e[1] && b[2] == e[2];
    } else if |b| == 4 {
      Digits(c as int);
      Digits(d as int);
      assert b[0] == e[0] && b[1] == e[1] && b[2] == e[2] && b[3] == e[3];
    }
  }

  lemma Digits(n: nat)
    ensures n == n / 64 * 64 + n % 64
    ensures n / 64 == n / 4096 * 64 + n / 64 % 64
    ensures n / 4096 == n / 262144 * 64 + n / 4096 % 64
  {
  }

  lemma {:induction false} EncodedOfBoth(a: string, b: string)
    ensures Encoded(a + b) == Encoded(a) + Encoded(b)
  {
    hide Bytes;
    if a == "" {
      assert a + b == b;
    } else {
      EncodedOfBoth(a[1..], b);
      assert (a + b)[1..] == a[1..] + b && (a + b)[0] == a[0];
      assert Bytes(a[0]) + (Encoded(a[1..]) + Encoded(b)) == Bytes(a[0]) + Encoded(a[1..]) + Encoded(b);
    }
  }

  lemma {:induction false} AsciiIsItself(s: string)
    requires Ascii(s)
    ensures |Encoded(s)| == |s|
  {
    if s != "" {
      AsciiIsItself(s[1..]);
    }
  }

  /** A text whose bytes begin those of another begins it. */
  lemma {:induction false} PrefixOfBytes(a: string, b: string)
    requires Encoded(a) <= Encoded(b)
    ensures a <= b
  {
    hide Bytes;
    if a != "" {
      var x, y := Encoded(a[1..]), Encoded(b[1..]);
      var rest := Encoded(b)[|Encoded(a)|..];
      assert Encoded(b) == Encoded(a) + rest == Bytes(a[0]) + (x + rest);
      BytesAreSelfDelimiting(a[0], b[0], x + rest, y);
      PrefixOfBytes(a[1..], b[1..]);
    }
  }

  /** The text that has these bytes, if there is one. */
  ghost function Decoded(bytes: seq<Byte>): Option<string> {
    if s :| Encoded(s) == bytes then Some(s) else None
  }

  lemma DecodedOfEncoded(s: string)
    ensures Decoded(Encoded(s)) == Some(s)
  {
    hide Bytes, Encoded;
    var bytes := Encoded(s);
    assert exists t :: Encoded(t) == bytes;
    var t := Decoded(bytes).value;
    assert Encoded(t) == bytes;
    PrefixOfBytes(s, t);
    PrefixOfBytes(t, s);
    assert s == t;
  }

  /** A beginning of the bytes of a text decodes exactly when it ends between two
      characters, and then as the beginning of the text. */
  lemma CutDecodes(s: string, n: nat)
    requires n <= |Encoded(s)|
    ensures Decoded(Encoded(s)[..n]).Some? <==> exists k :: 0 <= k <= |s| && |Encoded(s[..k])| == n
    ensures forall k :: 0 <= k <= |s| && |Encoded(s[..k])| == n ==> Decoded(Encoded(s)[..n]) == Some(s[..k])
  {
    hide Bytes, Encoded;
    forall k | 0 <= k <= |s| && |Encoded(s[..k])| == n
      ensures Decoded(Encoded(s)[..n]) == Some(s[..k])
    {
      EncodedOfBoth(s[..k], s[k..]);
      assert s[..k] + s[k..] == s;
      assert Encoded(s)[..n] == Encoded(s[..k]);
      DecodedOfEncoded(s[..k]);
    }
    if Decoded(Encoded(s)[..n]).Some? {
      var t := Decoded(Encoded(s)[..n]).value;
      PrefixOfBytes(t, s);
      assert t == s[..|t|];
    }
  }
}
