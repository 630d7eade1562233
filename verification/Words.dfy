/** Lines of words: cutting at white space, joining with spaces, decimal numbers. */
module Words {

  /** White space, as Rust's and Python's splitting see it: the Unicode property
      White_Space, and for Python the four separators from 0x1c on. */
  predicate Space(c: char, python: bool) {
    var n := c as int;
    || (9 <= n <= 13) || n == 0x20 || n == 0x85 || n == 0xA0 || n == 0x1680 || (0x2000 <= n <= 0x200A)
    || n == 0x2028 || n == 0x2029 || n == 0x202F || n == 0x205F || n == 0x3000
    || (python && 28 <= n <= 31)
  }

  predicate Solid(s: string, python: bool) {
    s != "" && forall i :: 0 <= i < |s| ==> !Space(s[i], python)
  }

  /** The start of a text up to its first white space. */
  function Word(s: string, python: bool): (w: string)
    ensures w <= s && (forall i :: 0 <= i < |w| ==> !Space(w[i], python))
    ensures |w| < |s| ==> Space(s[|w|], python)
  {
    if s == "" || Space(s[0], python) then "" else [s[0]] + Word(s[1..], python)
  }

  /** The words of a text, white space anywhere. */
  function Tokens(s: string, python: bool): (words: seq<string>)
    ensures forall i :: 0 <= i < |words| ==> Solid(words[i], python)
    decreases |s|
  {
    if s == "" then []
    else if Space(s[0], python) then Tokens(s[1..], python)
    else
      var w := Word(s, python);
      [w] + Tokens(s[|w|..], python)
  }

  lemma {:induction false} WordOf(w: string, rest: string, python: bool)
    requires forall i :: 0 <= i < |w| ==> !Space(w[i], python)
    requires rest == "" || Space(rest[0], python)
    ensures Word(w + rest, python) == w
  {
    if w == "" {
      assert w + rest == rest;
    } else {
      assert (w + rest)[1..] == w[1..] + rest;
      WordOf(w[1..], rest, python);
    }
  }

  lemma TokensOfWord(w: string, rest: string, python: bool)
    requires Solid(w, python) && (rest == "" || Space(rest[0], python))
    ensures Tokens(w + rest, python) == [w] + Tokens(rest, python)
  {
    WordOf(w, rest, python);
    assert (w + rest)[|w|..] == rest && (w + rest)[0] == w[0];
  }

  lemma SpaceFirst(c: char, s: string, python: bool)
    requires Space(c, python)
    ensures Tokens([c] + s, python) == Tokens(s, python)
  {
    assert ([c] + s)[1..] == s;
  }

  /** White space separates the words of two texts. */
  lemma {:induction false} TokensOfBoth(s: string, c: char, t: string, python: bool)
    requires Space(c, python)
    ensures Tokens(s + [c] + t, python) == Tokens(s, python) + Tokens(t, python)
    decreases |s|
  {
    hide Space, Tokens;
    if s == "" {
      NoTokens(python);
      assert s + [c] + t == [c] + t;
      SpaceFirst(c, t, python);
    } else if Space(s[0], python) {
      var rest := s[1..];
      assert s == [s[0]] + rest && s + [c] + t == [s[0]] + (rest + [c] + t);
      SpaceFirst(s[0], rest, python);
      SpaceFirst(s[0], rest + [c] + t, python);
      TokensOfBoth(rest, c, t, python);
    } else {
      var w := Word(s, python);
      var rest := s[|w|..];
      assert s == w + rest && s + [c] + t == w + (rest + [c] + t);
      TokensOfWord(w, rest, python);
      TokensOfWord(w, rest + [c] + t, python);
      TokensOfBoth(rest, c, t, python);
      assert [w] + (Tokens(rest, python) + Tokens(t, python)) == [w] + Tokens(rest, python) + Tokens(t, python);
    }
  }

  lemma NoTokens(python: bool)
    ensures Tokens("", python) == []
  {
  }

  /** White space at the end adds nothing. */
  lemma SpaceAtTheEnd(s: string, c: char, python: bool)
    requires Space(c, python)
    ensures Tokens(s + [c], python) == Tokens(s, python)
  {
    TokensOfBoth(s, c, "", python);
    assert s + [c] + "" == s + [c] && Tokens("", python) == [];
  }

  /** Words with one space between. */
  function Join(words: seq<string>): string {
    if words == [] then "" else if |words| == 1 then words[0] else words[0] + " " + Join(words[1..])
  }

  lemma {:induction false} TokensOfJoin(words: seq<string>, python: bool)
    requires forall i :: 0 <= i < |words| ==> Solid(words[i], python)
    ensures Tokens(Join(words), python) == words
  {
    if words != [] {
      var first, rest := words[0], words[1..];
      assert words == [first] + rest;
      TokensOfJoin(rest, python);
      if rest == [] {
        assert first + "" == first;
        TokensOfWord(first, "", python);
      } else {
        assert Join(words) == first + (" " + Join(rest));
        TokensOfWord(first, " " + Join(rest), python);
        assert (" " + Join(rest))[1..] == Join(rest);
      }
    }
  }

  lemma {:induction false} JoinOfBoth(a: seq<string>, b: seq<string>)
    requires a != [] && b != []
    ensures Join(a + b) == Join(a) + " " + Join(b)
  {
    assert (a + b)[0] == a[0];
    if |a| == 1 {
      assert (a + b)[1..] == b;
    } else {
      assert (a + b)[1..] == a[1..] + b;
      JoinOfBoth(a[1..], b);
    }
  }

  /** How long a joined line can be. */
  lemma {:induction false} JoinLength(words: seq<string>, most: nat)
    requires forall i :: 0 <= i < |words| ==> |words[i]| <= most
    ensures |Join(words)| <= |words| * (most + 1)
    ensures words != [] ==> |Join(words)| <= |words| * (most + 1) - 1
  {
    if |words| > 1 {
      JoinLength(words[1..], most);
      assert |words| * (most + 1) == (|words| - 1) * (most + 1) + (most + 1);
    }
  }

  function Letters(words: seq<string>): nat {
    if words == [] then 0 else |words[0]| + Letters(words[1..])
  }

  lemma {:induction false} LettersOfBoth(a: seq<string>, b: seq<string>)
    ensures Letters(a + b) == Letters(a) + Letters(b)
  {
    if a == [] {
      assert a + b == b;
    } else {
      assert (a + b)[1..] == a[1..] + b;
      LettersOfBoth(a[1..], b);
    }
  }

  lemma {:induction false} LettersOfEqual(words: seq<string>, n: nat)
    requires forall i :: 0 <= i < |words| ==> |words[i]| == n
    ensures Letters(words) == |words| * n
  {
    if words != [] {
      LettersOfEqual(words[1..], n);
      assert |words| * n == (|words| - 1) * n + n;
    }
  }

  /** How long a joined line is. */
  lemma {:induction false} JoinSize(words: seq<string>)
    requires words != []
    ensures |Join(words)| == Letters(words) + |words| - 1
  {
    if |words| > 1 {
      JoinSize(words[1..]);
    }
  }

  /** One character over and over. */
  function Repeated(c: char, n: nat): string {
    seq(n, _ => c)
  }

  // ---- decimal ---------------------------------------------------------------

  predicate Digit(c: char) {
    '0' <= c <= '9'
  }

  function Dec(n: nat): (s: string)
    ensures s != "" && forall i :: 0 <= i < |s| ==> Digit(s[i])
    ensures n < 10 ==> |s| == 1
    ensures n < 1000 ==> |s| <= 3
  {
    if n < 10 then [('0' as int + n) as char] else Dec(n / 10) + [('0' as int + n % 10) as char]
  }

  function Value(s: string): nat
    requires forall i :: 0 <= i < |s| ==> Digit(s[i])
  {
    if s == "" then 0
    else
      assert Digit(s[|s| - 1]);
      Value(s[..|s| - 1]) * 10 + (s[|s| - 1] as int - '0' as int)
  }

  lemma {:induction false} ValueOfDec(n: nat)
    ensures Value(Dec(n)) == n
  {
    if n >= 10 {
      ValueOfDec(n / 10);
      assert Dec(n)[..|Dec(n)| - 1] == Dec(n / 10);
    } else {
      assert Dec(n)[..0] == "";
    }
  }
}
