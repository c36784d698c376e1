/** Splitting text at a separator character. */
module Splitting {
  /** The pieces of s between separators; one more than there are separators. */
  function Split(s: string, sep: char): (pieces: seq<string>)
    ensures pieces != []
  {
    if s == "" then [""]
    else Prepend(s[0], Split(s[1..], sep), sep)
  }

  /** One more character in front of a split. */
  function Prepend(c: char, pieces: seq<string>, sep: char): seq<string>
    requires pieces != []
  {
    if c == sep then [""] + pieces else [[c] + pieces[0]] + pieces[1..]
  }

  lemma {:induction false} SplitWhole(s: string, sep: char)
    requires sep !in s
    ensures Split(s, sep) == [s]
  {
    if s != "" {
      assert s == [s[0]] + s[1..];
      SplitWhole(s[1..], sep);
    }
  }

  lemma {:induction false} SplitPieces(s: string, sep: char)
    ensures forall p, c :: p in Split(s, sep) && c in p ==> c in s && c != sep
  {
    if s != "" {
      SplitPieces(s[1..], sep);
      var rest := Split(s[1..], sep);
      assert s == [s[0]] + s[1..];
      forall p, c | p in Split(s, sep) && c in p ensures c in s && c != sep {
        if p !in rest && s[0] != sep {
          assert p == [s[0]] + rest[0];
          assert c == s[0] || c in rest[0];
        }
      }
    }
  }

  /** Text after a separator is split on its own. */
  lemma {:induction false} SplitAfter(a: string, b: string, sep: char)
    ensures Split(a + [sep] + b, sep) == Split(a, sep) + Split(b, sep)
  {
    var s := a + [sep] + b;
    if a == "" {
      assert s[1..] == b;
    } else {
      SplitAfter(a[1..], b, sep);
      assert s[1..] == a[1..] + [sep] + b;
      SplitJoin(a[0], Split(a[1..], sep), Split(b, sep), sep);
    }
  }

  /** Text without separators goes to the end of the last piece. */
  lemma {:induction false} SplitExtend(s: string, x: string, sep: char)
    requires sep !in x
    ensures var p := Split(s, sep);
            Split(s + x, sep) == p[..|p|-1] + [p[|p|-1] + x]
  {
    if s == "" {
      assert s + x == x;
      SplitWhole(x, sep);
    } else {
      assert (s + x)[1..] == s[1..] + x;
      SplitExtend(s[1..], x, sep);
      PrependExtend(s[0], Split(s[1..], sep), x, sep);
    }
  }

  lemma PrependExtend(c: char, q: seq<string>, x: string, sep: char)
    requires q != []
    ensures var p := Prepend(c, q, sep);
            Prepend(c, q[..|q|-1] + [q[|q|-1] + x], sep) == p[..|p|-1] + [p[|p|-1] + x]
  {
    if |q| == 1 {
      assert [c] + (q[0] + x) == [c] + q[0] + x;
    } else {
      assert (q[..|q|-1] + [q[|q|-1] + x])[0] == q[0];
    }
  }

  lemma SplitJoin(c: char, a: seq<string>, b: seq<string>, sep: char)
    requires a != []
    ensures Prepend(c, a + b, sep) == Prepend(c, a, sep) + b
  {
  }
}
