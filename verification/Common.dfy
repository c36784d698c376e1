/** Small vocabulary shared by the protocol modules. */
module Common {
  datatype Option<+T> = None | Some(value: T)
}

/** Order-preserving inclusion of one sequence in another. */
module Subsequences {
  ghost predicate Sub<T>(a: seq<T>, b: seq<T>)
    decreases |b|
  {
    a == [] ||
    (b != [] &&
     ((a[|a|-1] == b[|b|-1] && Sub(a[..|a|-1], b[..|b|-1])) || Sub(a, b[..|b|-1])))
  }

  lemma {:induction false} SubRefl<T>(a: seq<T>)
    ensures Sub(a, a)
  {
    if a != [] {
      SubRefl(a[..|a|-1]);
    }
  }

  lemma SubGrow<T>(a: seq<T>, b: seq<T>, x: T)
    requires Sub(a, b)
    ensures Sub(a, b + [x]) && Sub(a + [x], b + [x])
  {
    assert (b + [x])[..|b|] == b;
    assert (a + [x])[..|a|] == a;
  }

  /** A proper subsequence can give up its last element. */
  lemma {:induction false} SubFront<T>(a: seq<T>, b: seq<T>)
    requires a != [] && Sub(a, b)
    ensures Sub(a[..|a|-1], b)
    decreases |b|
  {
    var a', b' := a[..|a|-1], b[..|b|-1];
    assert b == b' + [b[|b|-1]];
    if a[|a|-1] == b[|b|-1] && Sub(a', b') {
    } else {
      SubFront(a, b');
    }
    SubGrow(a', b', b[|b|-1]);
  }

  lemma {:induction false} SubTrans<T>(a: seq<T>, b: seq<T>, c: seq<T>)
    requires Sub(a, b) && Sub(b, c)
    ensures Sub(a, c)
    decreases |b| + |c|
  {
    if a != [] {
      var c' := c[..|c|-1];
      assert c == c' + [c[|c|-1]];
      if b[|b|-1] == c[|c|-1] && Sub(b[..|b|-1], c') {
        if a[|a|-1] == b[|b|-1] && Sub(a[..|a|-1], b[..|b|-1]) {
          SubTrans(a[..|a|-1], b[..|b|-1], c');
        } else {
          SubTrans(a, b[..|b|-1], c');
        }
      } else {
        SubTrans(a, b, c');
      }
    }
  }

  /** Shrinking the tail of a concatenation shrinks the whole. */
  lemma {:induction false} SubPrefix<T>(p: seq<T>, a: seq<T>, b: seq<T>)
    requires Sub(a, b)
    ensures Sub(p + a, p + b)
    decreases |b|
  {
    if b == [] {
      assert a == [];
      SubRefl(p + b);
    } else {
      var b', x := b[..|b|-1], b[|b|-1];
      assert p + b == (p + b') + [x];
      if a != [] && a[|a|-1] == x && Sub(a[..|a|-1], b') {
        SubPrefix(p, a[..|a|-1], b');
        assert p + a == (p + a[..|a|-1]) + [x];
        SubGrow(p + a[..|a|-1], p + b', x);
      } else {
        if a == [] {
          assert Sub(a, b');
        }
        SubPrefix(p, a, b');
        SubGrow(p + a, p + b', x);
      }
    }
  }
}
