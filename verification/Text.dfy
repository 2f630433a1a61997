/** The parts of Python's text handling the parsers rely on, for ASCII input:
    `strip`, case mapping, decimal printing and `int`. */
module Text {
  import opened Prelude

  predicate IsSpace(c: char) { c == ' ' || '\t' <= c <= '\r' || 28 as char <= c <= 31 as char }

  function Strip(s: string): string { StripBoth(s, IsSpace) }

  function UpperChar(c: char): char { if 'a' <= c <= 'z' then c - 32 as char else c }

  function Upper(s: string): string { seq(|s|, i requires 0 <= i < |s| => UpperChar(s[i])) }

  function LowerChar(c: char): char { if 'A' <= c <= 'Z' then c + 32 as char else c }

  function Lower(s: string): string { seq(|s|, i requires 0 <= i < |s| => LowerChar(s[i])) }

  lemma CaseIsFolded(s: string)
    ensures |Upper(s)| == |s| == |Lower(s)|
    ensures forall i :: 0 <= i < |s| ==> !('a' <= Upper(s)[i] <= 'z') && !('A' <= Lower(s)[i] <= 'Z')
    ensures forall i :: 0 <= i < |s| && !('a' <= s[i] <= 'z') ==> Upper(s)[i] == s[i]
    ensures forall i :: 0 <= i < |s| && !('A' <= s[i] <= 'Z') ==> Lower(s)[i] == s[i]
    ensures Lower(Upper(s)) == Lower(s) && Upper(Lower(s)) == Upper(s)
  {
  }

  // Nothing to strip at either end.
  predicate Trimmed(s: string) { s != [] ==> !IsSpace(s[0]) && !IsSpace(s[|s| - 1]) }

  lemma TrimmedStrips(s: string)
    requires Trimmed(s)
    ensures Strip(s) == s
  {
  }

  lemma {:induction false} StripRightTrims(s: string)
    requires s != [] ==> !IsSpace(s[0])
    ensures Trimmed(StripRight(s, IsSpace))
  {
    if s != [] && IsSpace(s[|s| - 1]) { StripRightTrims(s[..|s| - 1]); }
  }

  lemma {:induction false} StripTrims(s: string)
    ensures Trimmed(Strip(s))
  {
    if s != [] && IsSpace(s[0]) { StripTrims(s[1..]); } else { StripRightTrims(s); }
  }

  // ---------- Decimal numbers ----------

  function DigitChar(d: nat): char
    requires d < 10
  {
    '0' + d as char
  }

  function Decimal(n: nat): string {
    if n < 10 then [DigitChar(n)] else Decimal(n / 10) + [DigitChar(n % 10)]
  }

  // Digits with single underscores between them, as `int` reads them.
  function ParseDigits(s: string): Option<nat> {
    if s == [] || !('0' <= s[|s| - 1] <= '9') then None
    else
      var d := (s[|s| - 1] - '0') as nat;
      if |s| == 1 then Some(d)
      else
        match ParseDigits(if s[|s| - 2] == '_' then s[..|s| - 2] else s[..|s| - 1])
        case None => None
        case Some(n) => Some(10 * n + d)
  }

  function Signed(n: Option<nat>, negative: bool): Option<int> {
    match n case None => None case Some(v) => Some(if negative then -(v as int) else v)
  }

  // `int(text)`; None stands for ValueError.
  function ParseInt(text: string): Option<int> {
    var s := Strip(text);
    if s != [] && (s[0] == '-' || s[0] == '+') then Signed(ParseDigits(s[1..]), s[0] == '-')
    else Signed(ParseDigits(s), false)
  }

  predicate AllDigits(s: string) { forall i :: 0 <= i < |s| ==> '0' <= s[i] <= '9' }

  lemma {:induction false} DecimalDigits(n: nat)
    ensures Decimal(n) != [] && AllDigits(Decimal(n))
    ensures ParseDigits(Decimal(n)) == Some(n)
  {
    if n >= 10 {
      DecimalDigits(n / 10);
      assert Decimal(n)[..|Decimal(n)| - 1] == Decimal(n / 10);
    }
  }

  lemma DecimalParses(n: nat)
    ensures ParseInt(Decimal(n)) == Some(n)
  {
    DecimalDigits(n);
    TrimmedStrips(Decimal(n));
  }

  // Only digits and underscores make a number.
  lemma {:induction false} ParsedDigits(s: string, c: char)
    requires ParseDigits(s).Some? && c in s
    ensures '0' <= c <= '9' || c == '_'
  {
    if |s| > 1 && c != s[|s| - 1] {
      var shorter := if s[|s| - 2] == '_' then s[..|s| - 2] else s[..|s| - 1];
      if c != s[|s| - 2] {
        var i :| 0 <= i < |s| && s[i] == c;
        assert shorter[i] == c;
      }
      if c in shorter { ParsedDigits(shorter, c); }
    }
  }

  lemma {:induction false} StripKeeps(s: string, c: char)
    requires c in s && !IsSpace(c)
    ensures c in Strip(s)
  {
    if IsSpace(s[0]) { StripKeeps(s[1..], c); } else { StripRightKeeps(s, c); }
  }

  lemma {:induction false} StripRightKeeps(s: string, c: char)
    requires c in s && !IsSpace(c)
    ensures c in StripRight(s, IsSpace)
  {
    if IsSpace(s[|s| - 1]) {
      var i :| 0 <= i < |s| && s[i] == c;
      assert s[..|s| - 1][i] == c;
      StripRightKeeps(s[..|s| - 1], c);
    }
  }

  // Text with a character that no number contains is refused.
  lemma ParseIntRefuses(text: string, c: char)
    requires c in text && !IsSpace(c) && !('0' <= c <= '9') && c != '_' && c != '-' && c != '+'
    ensures ParseInt(text) == None
  {
    StripKeeps(text, c);
    var s := Strip(text);
    var digits := if s[0] == '-' || s[0] == '+' then s[1..] else s;
    assert c in digits;
    if ParseDigits(digits).Some? { ParsedDigits(digits, c); }
  }

  // ---------- Searching ----------

  // `find`: the first position of `c`, or the length.
  function IndexOf(s: string, c: char): (i: nat)
    ensures i <= |s|
  {
    if s == [] || s[0] == c then 0 else 1 + IndexOf(s[1..], c)
  }

  lemma {:induction false} IndexOfIsFirst(s: string, c: char)
    ensures c in s <==> IndexOf(s, c) < |s|
    ensures IndexOf(s, c) < |s| ==> s[IndexOf(s, c)] == c
    ensures c !in s[..IndexOf(s, c)]
  {
    if s != [] && s[0] != c {
      IndexOfIsFirst(s[1..], c);
      assert s == [s[0]] + s[1..];
      assert s[..IndexOf(s, c)] == [s[0]] + s[1..][..IndexOf(s[1..], c)];
    }
  }

  lemma {:induction false} IndexOfAtMost(s: string, c: char, k: nat)
    requires k < |s| && s[k] == c
    ensures IndexOf(s, c) <= k
  {
    if s[0] != c { IndexOfAtMost(s[1..], c, k - 1); }
  }

  lemma {:induction false} IndexOfAfter(a: string, c: char, b: string)
    requires c !in a
    ensures IndexOf(a + [c] + b, c) == |a|
  {
    if a == [] {
      assert (a + [c] + b)[0] == c;
    } else {
      IndexOfAfter(a[1..], c, b);
      assert a[0] in a && (a + [c] + b)[1..] == a[1..] + [c] + b;
    }
  }

  function Count(s: string, c: char): nat {
    if s == [] then 0 else (if s[0] == c then 1 else 0) + Count(s[1..], c)
  }

  lemma {:induction false} CountZero(s: string, c: char)
    requires c !in s
    ensures Count(s, c) == 0
  {
    if s != [] { assert s[0] in s; CountZero(s[1..], c); }
  }

  lemma {:induction false} CountOnce(a: string, c: char, b: string)
    requires c !in a && c !in b
    ensures Count(a + [c] + b, c) == 1
  {
    if a == [] {
      assert (a + [c] + b)[1..] == b;
      CountZero(b, c);
    } else {
      CountOnce(a[1..], c, b);
      assert a[0] in a && (a + [c] + b)[1..] == a[1..] + [c] + b;
    }
  }
}
