/** What the modules share: values that may be absent, and the least element of a finite set. */
module Wrappers {

  datatype Option<+T> = None | Some(value: T)

  /** Any two elements compare, and comparisons chain. */
  ghost predicate Orders<T>(le: (T, T) -> bool, s: set<T>) {
    && (forall x, y :: x in s && y in s ==> le(x, y) || le(y, x))
    && (forall x, y, z :: x in s && y in s && z in s && le(x, y) && le(y, z) ==> le(x, z))
  }

  ghost predicate Least<T>(le: (T, T) -> bool, s: set<T>, x: T) {
    x in s && forall y :: y in s ==> le(x, y)
  }

  lemma {:induction false} LeastExists<T>(s: set<T>, le: (T, T) -> bool)
    requires s != {} && Orders(le, s)
    ensures exists x :: Least(le, s, x)
  {
    var x :| x in s;
    var rest := s - {x};
    assert s == rest + {x} && Orders(le, rest);
    if rest == {} {
      assert Least(le, s, x);
    } else {
      LeastExists(rest, le);
      var y :| Least(le, rest, y);
      LeastOfTwo(rest, le, x, y);
    }
  }

  lemma LeastOfTwo<T>(rest: set<T>, le: (T, T) -> bool, x: T, y: T)
    requires Orders(le, rest + {x}) && Least(le, rest, y)
    ensures Least(le, rest + {x}, x) || Least(le, rest + {x}, y)
  {
    assert y in rest + {x} && x in rest + {x};
    if le(x, y) {
      forall z | z in rest ensures le(x, z) { assert z in rest + {x} && le(y, z); }
      assert le(x, x);
    }
  }
}
