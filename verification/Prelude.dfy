/** Small shared vocabulary: optional values, results that carry the kind of
    exception the Python code raises, and the code-point order on strings. */
module Prelude {
  datatype Option<+T> = None | Some(value: T)

  // The exception classes the modelled code raises or catches by name.
  datatype Error = ValueError | OSError | RuntimeError | IncompleteRead

  datatype Result<+T> = Ok(value: T) | Err(error: Error)

  function Min(a: int, b: int): int { if a <= b then a else b }

  function Max(a: int, b: int): int { if a >= b then a else b }

  lemma Associates<T>(a: seq<T>, b: seq<T>, c: seq<T>)
    ensures a + b + c == a + (b + c)
  {
  }

  // Python's `round` on a real: half to even.
  function RoundHalfEven(x: real): int {
    var f := x.Floor;
    var d := x - f as real;
    if d < 0.5 || (d == 0.5 && f % 2 == 0) then f else f + 1
  }

  /** Rounding gives the nearest integer, and the even one of two. */
  lemma RoundIsNearest(x: real)
    ensures var d := x - RoundHalfEven(x) as real;
      -0.5 <= d <= 0.5 && (d == 0.5 || d == -0.5 ==> RoundHalfEven(x) % 2 == 0)
  {
  }

  lemma RoundMonotone(x: real, y: real)
    requires x <= y
    ensures RoundHalfEven(x) <= RoundHalfEven(y)
  {
  }

  // `strip` on str and on bytes, which differ in what is white space.
  function StripLeft<T>(s: seq<T>, space: T -> bool): seq<T> {
    if s != [] && space(s[0]) then StripLeft(s[1..], space) else s
  }

  function StripRight<T>(s: seq<T>, space: T -> bool): seq<T> {
    if s != [] && space(s[|s| - 1]) then StripRight(s[..|s| - 1], space) else s
  }

  function StripBoth<T>(s: seq<T>, space: T -> bool): seq<T> { StripRight(StripLeft(s, space), space) }

  lemma {:induction false} StripRightOf<T>(a: seq<T>, w: seq<T>, space: T -> bool)
    requires a != [] && !space(a[|a| - 1]) && forall i :: 0 <= i < |w| ==> space(w[i])
    ensures StripRight(a + w, space) == a
  {
    if w == [] {
      assert a + w == a;
    } else {
      assert (a + w)[..|a + w| - 1] == a + w[..|w| - 1];
      StripRightOf(a, w[..|w| - 1], space);
    }
  }

  // Python's `<=` on str: lexicographic by code point.
  predicate TextLe(a: string, b: string) {
    if a == [] then true
    else if b == [] then false
    else if a[0] != b[0] then a[0] < b[0]
    else TextLe(a[1..], b[1..])
  }

  /** `a` is a prefix of `b`, or the first character in which they differ is smaller. */
  lemma {:induction false} TextLeIsLexicographic(a: string, b: string)
    ensures TextLe(a, b) <==>
      a <= b || exists i :: 0 <= i < |a| && i < |b| && a[..i] == b[..i] && a[i] < b[i]
  {
    if a != [] && b != [] {
      if a[0] == b[0] {
        TextLeIsLexicographic(a[1..], b[1..]);
        if i :| 0 <= i < |a[1..]| && i < |b[1..]| && a[1..][..i] == b[1..][..i] && a[1..][i] < b[1..][i] {
          assert a[..i + 1] == [a[0]] + a[1..][..i] && b[..i + 1] == [b[0]] + b[1..][..i];
        }
        if i :| 0 <= i < |a| && i < |b| && a[..i] == b[..i] && a[i] < b[i] {
          assert a[..i][1..] == a[1..][..i - 1] && b[..i][1..] == b[1..][..i - 1];
          assert a[1..][i - 1] < b[1..][i - 1];
        }
      } else if a[0] < b[0] {
        assert a[..0] == b[..0] && a[0] < b[0];
      } else {
        forall i | 0 <= i < |a| && i < |b| && a[i] < b[i] ensures a[..i] != b[..i] {
          if i > 0 { assert a[..i][0] != b[..i][0]; }
        }
      }
    }
  }

  lemma {:induction false} TextLeTotal(a: string, b: string)
    ensures TextLe(a, b) || TextLe(b, a)
  {
    if a != [] && b != [] && a[0] == b[0] { TextLeTotal(a[1..], b[1..]); }
  }

  lemma {:induction false} TextLeAntisymmetric(a: string, b: string)
    requires TextLe(a, b) && TextLe(b, a)
    ensures a == b
  {
    if a != [] && b != [] {
      TextLeAntisymmetric(a[1..], b[1..]);
      assert a == [a[0]] + a[1..] && b == [b[0]] + b[1..];
    }
  }

  lemma {:induction false} TextLeTransitive(a: string, b: string, c: string)
    requires TextLe(a, b) && TextLe(b, c)
    ensures TextLe(a, c)
  {
    if a != [] && a[0] == b[0] && b[0] == c[0] { TextLeTransitive(a[1..], b[1..], c[1..]); }
  }
}
