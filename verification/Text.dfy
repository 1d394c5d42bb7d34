/** White space, decimal numbers, and splitting a text at a separator and joining the pieces back. */
module Text {
  predicate Between(c: char, low: char, high: char) { low <= c <= high }

  /** Unicode `White_Space`. */
  predicate Space(c: char) {
    || Between(c, '\U{0009}', '\U{000D}') || c == ' ' || c == '\U{0085}' || c == '\U{00A0}'
    || c == '\U{1680}' || Between(c, '\U{2000}', '\U{200A}') || c == '\U{2028}' || c == '\U{2029}'
    || c == '\U{202F}' || c == '\U{205F}' || c == '\U{3000}'
  }

  // Decimal numbers.

  predicate Digit(c: char) {
    '0' <= c <= '9'
  }

  function DecText(n: nat): (r: string)
    ensures r != [] && forall i :: 0 <= i < |r| ==> Digit(r[i])
  {
    if n < 10 then [DigitOf(n)] else DecText(n / 10) + [DigitOf(n % 10)]
  }

  function DigitOf(d: nat): (c: char)
    requires d < 10
    ensures Digit(c) && DigitValue(c) == d
  {
    '0' + d as char
  }

  function DigitValue(c: char): nat
    requires Digit(c)
  {
    (c - '0') as nat
  }

  // Pieces.

  function Split(s: string, c: char): (r: seq<string>)
    ensures |r| >= 1
  {
    if s == [] then [[]]
    else
      var rest := Split(s[1..], c);
      if s[0] == c then [[]] + rest else Onto(s[0], rest)
  }

  /** `x` put in front of the first piece. */
  function Onto(x: char, pieces: seq<string>): (r: seq<string>)
    requires pieces != []
    ensures |r| == |pieces|
  {
    [[x] + pieces[0]] + pieces[1..]
  }

  lemma OntoAppend(x: char, a: seq<string>, b: seq<string>)
    requires a != []
    ensures Onto(x, a + b) == Onto(x, a) + b
  {
    assert (a + b)[1..] == a[1..] + b;
  }

  function Join(pieces: seq<string>, c: char): string {
    if pieces == [] then []
    else if |pieces| == 1 then pieces[0]
    else pieces[0] + [c] + Join(pieces[1..], c)
  }

  /** Separator-free pieces come back one by one. */
  ghost predicate Clean(pieces: seq<string>, c: char) {
    forall i :: 0 <= i < |pieces| ==> c !in pieces[i]
  }

  lemma {:induction false} SplitPiece(p: string, c: char)
    requires c !in p
    ensures Split(p, c) == [p]
  {
    if p != [] {
      SplitPiece(p[1..], c);
      assert p == [p[0]] + p[1..];
    }
  }

  lemma {:induction false} SplitAtSeparator(a: string, b: string, c: char)
    ensures Split(a + [c] + b, c) == Split(a, c) + Split(b, c)
  {
    hide Onto;
    if a == [] {
      assert (a + [c] + b)[1..] == b;
    } else {
      var x, rest := a[0], a[1..];
      SplitAtSeparator(rest, b, c);
      assert (a + [c] + b)[1..] == rest + [c] + b;
      if x == c {
        assert [[]] + (Split(rest, c) + Split(b, c)) == [[]] + Split(rest, c) + Split(b, c);
      } else {
        OntoAppend(x, Split(rest, c), Split(b, c));
      }
    }
  }

  lemma {:induction false} SplitJoin(pieces: seq<string>, c: char)
    requires pieces != [] && Clean(pieces, c)
    ensures Split(Join(pieces, c), c) == pieces
  {
    SplitPiece(pieces[0], c);
    if |pieces| > 1 {
      SplitJoin(pieces[1..], c);
      SplitAtSeparator(pieces[0], Join(pieces[1..], c), c);
    }
  }

  lemma {:induction false} JoinSplit(s: string, c: char)
    ensures Join(Split(s, c), c) == s && Clean(Split(s, c), c)
  {
    if s != [] {
      JoinSplit(s[1..], c);
      var rest := Split(s[1..], c);
      if s[0] == c {
        assert ([[]] + rest)[1..] == rest;
      } else {
        var pieces := Onto(s[0], rest);
        if |rest| > 1 {
          assert pieces[1..] == rest[1..];
        }
      }
    }
  }

  lemma SplitInjective(a: string, b: string, c: char)
    requires Split(a, c) == Split(b, c)
    ensures a == b
  {
    JoinSplit(a, c);
    JoinSplit(b, c);
  }

  lemma JoinAppend(a: seq<string>, b: seq<string>, c: char)
    requires a != [] && b != [] && Clean(a, c) && Clean(b, c)
    ensures Join(a + b, c) == Join(a, c) + [c] + Join(b, c)
  {
    SplitJoin(a, c);
    SplitJoin(b, c);
    SplitJoin(a + b, c);
    SplitAtSeparator(Join(a, c), Join(b, c), c);
    SplitInjective(Join(a + b, c), Join(a, c) + [c] + Join(b, c), c);
  }

  lemma {:induction false} JoinSnoc(pieces: seq<string>, last: string, c: char)
    requires pieces != []
    ensures Join(pieces + [last], c) == Join(pieces, c) + [c] + last
  {
    var all := pieces + [last];
    if |pieces| == 1 {
      assert all[1..] == [last];
    } else {
      JoinSnoc(pieces[1..], last, c);
      assert all[1..] == pieces[1..] + [last];
      var first, rest := pieces[0] + [c], Join(pieces[1..], c);
      assert first + (rest + [c] + last) == first + rest + [c] + last;
    }
  }

  // Sequences of pieces of any kind.

  function Concat<T>(ss: seq<seq<T>>): seq<T> {
    if ss == [] then [] else ss[0] + Concat(ss[1..])
  }

  lemma {:induction false} ConcatAppend<T>(a: seq<seq<T>>, b: seq<seq<T>>)
    ensures Concat(a + b) == Concat(a) + Concat(b)
  {
    hide Concat;
    if a == [] {
      ConcatNothing<T>();
      assert a + b == b;
    } else {
      var first, rest := a[0], a[1..];
      ConcatAppend(rest, b);
      ConcatCons(first, rest);
      ConcatCons(first, rest + b);
      assert [first] + rest == a && [first] + (rest + b) == a + b;
      assert first + (Concat(rest) + Concat(b)) == first + Concat(rest) + Concat(b);
    }
  }

  lemma ConcatNothing<T>()
    ensures Concat<T>([]) == []
  {
  }

  lemma ConcatCons<T>(x: seq<T>, xs: seq<seq<T>>)
    ensures Concat([x] + xs) == x + Concat(xs)
  {
    assert ([x] + xs)[1..] == xs;
  }

  lemma ConcatSnoc<T>(xs: seq<seq<T>>, x: seq<T>)
    ensures Concat(xs + [x]) == Concat(xs) + x
  {
    ConcatAppend(xs, [x]);
    ConcatCons(x, []);
    assert [x] + [] == [x] && x + [] == x;
  }
}
