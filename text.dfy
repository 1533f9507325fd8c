/**
 * The handful of Python string operations the bot relies on: whitespace
 * stripping and splitting, `str.split(sep)`, `int(str)`, `float(str)` on
 * plain decimal text, and `str(int)`.
 */
module Text {
  import opened Wrappers
  import opened Seqs

  /** `str.isspace()` for one character (Python's Unicode whitespace set). */
  predicate IsSpace(c: char) {
    var n := c as int;
    || 0x09 <= n <= 0x0D || 0x1C <= n <= 0x20 || n == 0x85 || n == 0xA0 || n == 0x1680
    || 0x2000 <= n <= 0x200A || n == 0x2028 || n == 0x2029 || n == 0x202F || n == 0x205F
    || n == 0x3000
  }

  predicate IsDigit(c: char) {
    '0' <= c <= '9'
  }

  function DigitValue(c: char): nat
    requires IsDigit(c)
  {
    (c as int) - ('0' as int)
  }

  function TrimLeft(s: string): (r: string)
    ensures |r| <= |s| && (r != [] ==> !IsSpace(r[0]))
    ensures r == s[|s| - |r|..]
    ensures forall k | 0 <= k < |s| - |r| :: IsSpace(s[k])
    decreases |s|
  {
    if s != [] && IsSpace(s[0]) then TrimLeft(s[1..]) else s
  }

  function TrimRight(s: string): (r: string)
    ensures |r| <= |s| && (r != [] ==> !IsSpace(r[|r| - 1]))
    ensures r == s[..|r|]
    ensures forall k | |r| <= k < |s| :: IsSpace(s[k])
    decreases |s|
  {
    if s != [] && IsSpace(s[|s| - 1]) then TrimRight(s[..|s| - 1]) else s
  }

  /** `s[i..j]` is `s` less whitespace only: everything before `i` and from `j` on is whitespace. */
  ghost predicate SpaceOutside(s: string, i: int, j: int)
  {
    && 0 <= i <= j <= |s|
    && (forall k | 0 <= k < i :: IsSpace(s[k]))
    && (forall k | j <= k < |s| :: IsSpace(s[k]))
  }

  /** `s.strip()`: `s` without its leading and trailing whitespace. */
  function Strip(s: string): (r: string)
    ensures |r| <= |s|
    ensures r != [] ==> !IsSpace(r[0]) && !IsSpace(r[|r| - 1])
    ensures exists i, j {:trigger SpaceOutside(s, i, j)} :: SpaceOutside(s, i, j) && r == s[i..j]
  {
    TrimSlice(s);
    TrimRight(TrimLeft(s))
  }

  /** Where the two trims cut `s`. */
  lemma TrimBounds(s: string) returns (i: nat, j: nat)
    ensures i <= j <= |s| && TrimRight(TrimLeft(s)) == s[i..j]
    ensures forall k | 0 <= k < i :: IsSpace(s[k])
    ensures forall k | j <= k < |s| :: IsSpace(s[k])
  {
    var l := TrimLeft(s);
    var r := TrimRight(l);
    i, j := |s| - |l|, |s| - |l| + |r|;
    assert r == s[i..j];
    forall k | j <= k < |s| ensures IsSpace(s[k]) {
      assert s[k] == l[k - i];
    }
  }

  lemma TrimSlice(s: string)
    ensures var r := TrimRight(TrimLeft(s));
            && |r| <= |s|
            && (r != [] ==> !IsSpace(r[0]) && !IsSpace(r[|r| - 1]))
            && exists i, j {:trigger SpaceOutside(s, i, j)} :: SpaceOutside(s, i, j) && r == s[i..j]
  {
    var l := TrimLeft(s);
    var r := TrimRight(l);
    assert r != [] ==> r[0] == l[0];
    var i, j := TrimBounds(s);
    assert SpaceOutside(s, i, j);
  }

  lemma StripUnchanged(s: string)
    requires s != [] ==> !IsSpace(s[0]) && !IsSpace(s[|s| - 1])
    ensures Strip(s) == s
  {
  }

  /** Length of the leading run of non-whitespace characters. */
  function WordLength(s: string): (n: nat)
    ensures n <= |s|
    ensures forall i | 0 <= i < n :: !IsSpace(s[i])
    ensures n < |s| ==> IsSpace(s[n])
    decreases |s|
  {
    if s == [] || IsSpace(s[0]) then 0 else 1 + WordLength(s[1..])
  }

  /** A non-empty run of non-whitespace characters. */
  predicate IsWord(w: string) {
    w != [] && forall j | 0 <= j < |w| :: !IsSpace(w[j])
  }

  /** The characters of `s` that are not whitespace, in order. */
  function NonSpace(s: string): string
    decreases |s|
  {
    if s == [] then [] else (if IsSpace(s[0]) then [] else [s[0]]) + NonSpace(s[1..])
  }

  lemma {:induction false} NonSpaceAppend(a: string, b: string)
    ensures NonSpace(a + b) == NonSpace(a) + NonSpace(b)
    decreases |a|
  {
    if a != [] {
      NonSpaceAppend(a[1..], b);
      var head := if IsSpace(a[0]) then [] else [a[0]];
      assert (a + b)[0] == a[0] && (a + b)[1..] == a[1..] + b;
      assert NonSpace(a + b) == head + NonSpace(a[1..] + b);
    } else {
      assert a + b == b;
    }
  }

  lemma NonSpaceSplit(s: string, i: int)
    requires 0 <= i <= |s|
    ensures NonSpace(s) == NonSpace(s[..i]) + NonSpace(s[i..])
  {
    assert s == s[..i] + s[i..];
    NonSpaceAppend(s[..i], s[i..]);
  }

  lemma {:induction false} NonSpaceAllSpace(s: string)
    requires forall k | 0 <= k < |s| :: IsSpace(s[k])
    ensures NonSpace(s) == []
    decreases |s|
  {
    if s != [] {
      NonSpaceAllSpace(s[1..]);
    }
  }

  lemma {:induction false} NonSpaceWord(w: string)
    requires forall k | 0 <= k < |w| :: !IsSpace(w[k])
    ensures NonSpace(w) == w
    decreases |w|
  {
    if w != [] {
      NonSpaceWord(w[1..]);
    }
  }

  /** The strings of `ws` written one after another. */
  function Concat(ws: seq<string>): string
    decreases |ws|
  {
    if ws == [] then [] else ws[0] + Concat(ws[1..])
  }

  /**
   * `s.split()`: the maximal runs of non-whitespace characters, in order. Nothing
   * but whitespace is dropped, and there are no words exactly when `s` is all whitespace.
   */
  function Words(s: string): (ws: seq<string>)
    ensures forall w | w in ws :: IsWord(w)
    ensures Concat(ws) == NonSpace(s)
    ensures ws == [] <==> forall k | 0 <= k < |s| :: IsSpace(s[k])
    decreases |s|
  {
    var t := TrimLeft(s);
    var i := |s| - |t|;
    NonSpaceSplit(s, i);
    NonSpaceAllSpace(s[..i]);
    if t == [] then []
    else
      var n := WordLength(t);
      var rest := Words(t[n..]);
      NonSpaceSplit(t, n);
      NonSpaceWord(t[..n]);
      assert ([t[..n]] + rest)[1..] == rest;
      assert !IsSpace(s[i]);
      [t[..n]] + rest
  }

  /** Leading whitespace does not change the words. */
  lemma {:induction false} WordsSpaceFront(sp: string, t: string)
    requires forall k | 0 <= k < |sp| :: IsSpace(sp[k])
    ensures Words(sp + t) == Words(t)
    decreases |sp|
  {
    TrimLeftSpaceFront(sp, t);
    assert TrimLeft(TrimLeft(t)) == TrimLeft(t);
  }

  lemma TrimLeftSpaceFront(sp: string, t: string)
    requires forall k | 0 <= k < |sp| :: IsSpace(sp[k])
    ensures TrimLeft(sp + t) == TrimLeft(t)
  {
    var s, n := sp + t, |t| - |TrimLeft(t)|;
    var i := |sp| + n;
    forall k | 0 <= k < i ensures IsSpace(s[k]) {
      if k < |sp| {
        assert s[k] == sp[k];
      } else {
        assert s[k] == t[k - |sp|];
      }
    }
    assert i < |s| ==> s[i] == t[n] == TrimLeft(t)[0];
    TrimLeftAt(s, i);
    assert s[i..] == t[n..];
  }

  /** Trimming on the left cuts exactly the leading whitespace, up to the first other character. */
  lemma {:induction false} TrimLeftAt(s: string, i: int)
    requires 0 <= i <= |s| && forall k | 0 <= k < i :: IsSpace(s[k])
    requires i < |s| ==> !IsSpace(s[i])
    ensures TrimLeft(s) == s[i..]
    decreases i
  {
    if i == 0 {
      assert s[i..] == s;
    } else {
      assert IsSpace(s[0]);
      var tail := s[1..];
      assert forall k | 0 <= k < i - 1 :: tail[k] == s[k + 1];
      assert i - 1 < |tail| ==> tail[i - 1] == s[i];
      TrimLeftAt(tail, i - 1);
      assert tail[i - 1..] == s[i..];
    }
  }

  /**
   * The words are maximal runs: a run of non-whitespace characters ended by
   * whitespace is one word, and splitting goes on after that whitespace.
   */
  lemma WordsWordFront(w: string, sp: string, t: string)
    requires IsWord(w) && sp != [] && forall k | 0 <= k < |sp| :: IsSpace(sp[k])
    ensures Words(w + sp + t) == [w] + Words(t)
  {
    var s := w + sp + t;
    assert s[0] == w[0];
    assert TrimLeft(s) == s;
    var n := WordLength(s);
    assert s[|w|] == sp[0];
    assert n == |w|;
    assert s[..n] == w;
    assert s[n..] == sp + t;
    WordsSpaceFront(sp, t);
  }

  /** A single run of non-whitespace characters is one word. */
  lemma WordsWord(w: string)
    requires IsWord(w)
    ensures Words(w) == [w]
  {
    assert TrimLeft(w) == w;
    var n := WordLength(w);
    assert n == |w|;
    assert w[..n] == w && w[n..] == [];
  }

  /** `" ".join(ws)` */
  function Unwords(ws: seq<string>): string
    decreases |ws|
  {
    if ws == [] then [] else if |ws| == 1 then ws[0] else ws[0] + [' '] + Unwords(ws[1..])
  }

  /** Splitting words joined by single spaces gives them back: `" ".join(ws).split() == ws`. */
  lemma {:induction false} WordsUnwords(ws: seq<string>)
    requires forall w | w in ws :: IsWord(w)
    ensures Words(Unwords(ws)) == ws
    decreases |ws|
  {
    if |ws| == 1 {
      WordsWord(ws[0]);
    } else if ws != [] {
      assert forall w | w in ws[1..] :: w in ws;
      WordsUnwords(ws[1..]);
      assert ws[0] in ws;
      WordsUnwordsStep(ws);
    }
  }

  lemma WordsUnwordsStep(ws: seq<string>)
    requires |ws| >= 2 && IsWord(ws[0]) && Words(Unwords(ws[1..])) == ws[1..]
    ensures Words(Unwords(ws)) == ws
  {
    var sp, rest := [' '], Unwords(ws[1..]);
    assert Unwords(ws) == ws[0] + sp + rest;
    assert IsSpace(sp[0]);
    WordsWordFront(ws[0], sp, rest);
    HeadTail(ws);
  }

  /** `sep.join(ps)` */
  function Join(ps: seq<string>, sep: char): string
    requires |ps| >= 1
    decreases |ps|
  {
    if |ps| == 1 then ps[0] else ps[0] + [sep] + Join(ps[1..], sep)
  }

  /** `s.split(sep)`: the pieces between occurrences of `sep`; joined with `sep` they give `s` back. */
  function SplitOn(s: string, sep: char): (ps: seq<string>)
    ensures |ps| >= 1
    ensures forall i | 0 <= i < |ps| :: sep !in ps[i]
    ensures Join(ps, sep) == s
    decreases |s|
  {
    if s == [] then [""]
    else
      var rest := SplitOn(s[1..], sep);
      if s[0] == sep then
        assert ([""] + rest)[1..] == rest;
        [""] + rest
      else
        var ps := [[s[0]] + rest[0]] + rest[1..];
        assert |ps| > 1 ==> ps[1..] == rest[1..];
        ps
  }

  /** `s.replace(old, new)` for single characters. */
  function ReplaceChar(s: string, from: char, to: char): (r: string)
    ensures |r| == |s|
    ensures forall i | 0 <= i < |s| :: r[i] == if s[i] == from then to else s[i]
  {
    seq(|s|, i requires 0 <= i < |s| => if s[i] == from then to else s[i])
  }

  /** Stripping twice is stripping once. */
  lemma StripIdempotent(s: string)
    ensures Strip(Strip(s)) == Strip(s)
  {
    StripUnchanged(Strip(s));
  }

  /** Python's digit groups: digits, single underscores allowed between two digits. */
  predicate IsDigitRun(s: string) {
    && |s| > 0 && IsDigit(s[0]) && IsDigit(s[|s| - 1])
    && (forall i | 0 <= i < |s| :: IsDigit(s[i]) || s[i] == '_')
    && (forall i | 0 <= i < |s| - 1 :: !(s[i] == '_' && s[i + 1] == '_'))
  }

  /** Value of a digit string read in base ten, underscores skipped. */
  function RunValue(s: string): nat
    requires forall i | 0 <= i < |s| :: IsDigit(s[i]) || s[i] == '_'
    decreases |s|
  {
    if s == [] then 0
    else
      var last := s[|s| - 1];
      var front := RunValue(s[..|s| - 1]);
      if last == '_' then front else front * 10 + DigitValue(last)
  }

  /** Number of digits in a run (its decimal scale). */
  function DigitCount(s: string): nat
    decreases |s|
  {
    if s == [] then 0 else DigitCount(s[..|s| - 1]) + (if IsDigit(s[|s| - 1]) then 1 else 0)
  }

  function Pow10(n: nat): (p: nat)
    ensures p >= 1
  {
    if n == 0 then 1 else 10 * Pow10(n - 1)
  }

  /** `int(s)` on a str: optional surrounding whitespace, optional sign, a digit run. */
  function ParseInt(s: string): (r: Option<int>)
    ensures r.Some? ==> Strip(s) != []
  {
    IntLiteral(Strip(s))
  }

  /** An optional sign followed by a digit run, with nothing around it. */
  function IntLiteral(t: string): (r: Option<int>)
    ensures r.Some? ==> t != []
  {
    if t == [] then None
    else
      var negative := t[0] == '-';
      var body := if t[0] == '-' || t[0] == '+' then t[1..] else t;
      if !IsDigitRun(body) then None
      else
        var v: int := RunValue(body);
        Some(if negative then -v else v)
  }

  /**
   * `float(s)` on decimal text: optional surrounding whitespace, optional sign,
   * digits with an optional fraction, at least one digit on either side of the point.
   */
  function ParseFloat(s: string): (r: Option<real>)
    ensures r.Some? ==> Strip(s) != []
  {
    FloatLiteral(Strip(s))
  }

  /** An optional sign followed by decimal digits with an optional fraction, with nothing around it. */
  function FloatLiteral(t: string): (r: Option<real>)
    ensures r.Some? ==> t != []
  {
    if t == [] then None
    else
      var negative := t[0] == '-';
      var body := if t[0] == '-' || t[0] == '+' then t[1..] else t;
      var whole := if '.' in body then body[..IndexOf(body, '.')] else body;
      var frac := if '.' in body then body[IndexOf(body, '.') + 1..] else "";
      if whole == [] && frac == [] then None
      else if whole != [] && !IsDigitRun(whole) then None
      else if frac != [] && !IsDigitRun(frac) then None
      else
        var v := RunValue(whole) as real + RunValue(frac) as real / Pow10(DigitCount(frac)) as real;
        Some(if negative then -v else v)
  }

  /** `float(s.strip())` is `float(s)`. */
  lemma ParseFloatStrip(s: string)
    ensures ParseFloat(Strip(s)) == ParseFloat(s)
  {
    StripIdempotent(s);
  }

  /** Decimal digits of a natural number, most significant first. */
  function NatToString(n: nat): (s: string)
    ensures |s| > 0 && forall i | 0 <= i < |s| :: IsDigit(s[i])
  {
    if n < 10 then [('0' as int + n) as char]
    else NatToString(n / 10) + [('0' as int + n % 10) as char]
  }

  /** `str(n)` for an int. */
  function IntToString(n: int): (s: string)
    ensures |s| > 0 && !IsSpace(s[0]) && !IsSpace(s[|s| - 1])
  {
    if n < 0 then "-" + NatToString(-n) else NatToString(n)
  }

  /** `str(n)` is made of digits and a leading minus sign. */
  lemma IntToStringChars(n: int)
    ensures forall i | 0 <= i < |IntToString(n)| :: IsDigit(IntToString(n)[i]) || IntToString(n)[i] == '-'
  {
  }

  lemma {:induction false} NatToStringValue(n: nat)
    ensures IsDigitRun(NatToString(n)) && RunValue(NatToString(n)) == n
  {
    var s := NatToString(n);
    if n >= 10 {
      NatToStringValue(n / 10);
      assert s[..|s| - 1] == NatToString(n / 10);
    }
  }

  /** `int(str(n)) == n`: a stored movie id reads back as the same id. */
  lemma IntToStringRoundTrip(n: int)
    ensures ParseInt(IntToString(n)) == Some(n)
  {
    var s := IntToString(n);
    StripUnchanged(s);
    if n < 0 {
      NatToStringValue(-n);
      assert s[1..] == NatToString(-n);
    } else {
      NatToStringValue(n);
    }
  }

  /** Distinct ints print differently, so stored keys never collide. */
  lemma IntToStringInjective(a: int, b: int)
    requires IntToString(a) == IntToString(b)
    ensures a == b
  {
    IntToStringRoundTrip(a);
    IntToStringRoundTrip(b);
  }
}
