/** `sorted` of a set of strings: by code point. */
module SortedNames {
  predicate Before(a: string, b: string) {
    if a == "" then true
    else if b == "" then false
    else if a[0] != b[0] then a[0] < b[0]
    else Before(a[1..], b[1..])
  }

  /** The first difference decides, the smaller code point first; a prefix comes
      before what extends it. */
  lemma {:induction false} BeforeExactly(a: string, b: string)
    ensures Before(a, b) <==> a <= b || exists i: nat :: i < |a| && i < |b| && a[..i] == b[..i] && a[i] < b[i]
  {
    if a != "" && b != "" {
      var x, y := a[1..], b[1..];
      if a[0] == b[0] {
        BeforeExactly(x, y);
        assert a == [a[0]] + x && b == [b[0]] + y;
        if i: nat :| i < |x| && i < |y| && x[..i] == y[..i] && x[i] < y[i] {
          assert a[..i + 1] == [a[0]] + x[..i] && b[..i + 1] == [b[0]] + y[..i];
          assert a[i + 1] < b[i + 1];
        }
        if i: nat :| i < |a| && i < |b| && a[..i] == b[..i] && a[i] < b[i] {
          assert i > 0;
          assert x[..i - 1] == a[..i][1..] && y[..i - 1] == b[..i][1..];
          assert x[i - 1] < y[i - 1];
        }
      } else {
        assert a[..0] == b[..0];
        if i: nat :| i < |a| && i < |b| && a[..i] == b[..i] && i > 0 {
          assert a[..i][0] == b[..i][0];
        }
      }
    }
  }

  lemma {:induction false} BeforeTotal(a: string, b: string)
    ensures Before(a, b) || Before(b, a)
    ensures Before(a, b) && Before(b, a) ==> a == b
  {
    if a != "" && b != "" && a[0] == b[0] {
      BeforeTotal(a[1..], b[1..]);
      assert a == [a[0]] + a[1..] && b == [b[0]] + b[1..];
    }
  }

  lemma {:induction false} BeforeTransitive(a: string, b: string, c: string)
    requires Before(a, b) && Before(b, c)
    ensures Before(a, c)
  {
    if a != "" && b != "" && c != "" && a[0] == b[0] == c[0] {
      BeforeTransitive(a[1..], b[1..], c[1..]);
    }
  }

  ghost predicate IsFirst(s: set<string>, x: string) {
    x in s && forall y | y in s :: Before(x, y)
  }

  lemma {:induction false} FirstExists(s: set<string>) returns (x: string)
    requires s != {}
    ensures IsFirst(s, x)
  {
    var y :| y in s;
    if s == {y} {
      BeforeTotal(y, y);
      x := y;
    } else {
      var z := FirstExists(s - {y});
      BeforeTotal(y, z);
      BeforeTotal(y, y);
      if Before(z, y) {
        x := z;
      } else {
        forall w | w in s
          ensures Before(y, w)
        {
          if w != y {
            BeforeTransitive(y, z, w);
          }
        }
        x := y;
      }
    }
  }

  lemma FirstSome(s: set<string>)
    requires s != {}
    ensures exists x :: IsFirst(s, x)
  {
    var x := FirstExists(s);
  }

  ghost function First(s: set<string>): (x: string)
    requires s != {}
    ensures IsFirst(s, x)
  {
    FirstSome(s);
    var x :| IsFirst(s, x);
    x
  }

  ghost function Sorted(s: set<string>): seq<string> {
    if s == {} then [] else [First(s)] + Sorted(s - {First(s)})
  }

  /** Every name once, in order. */
  lemma {:induction false} SortedIsSorted(s: set<string>)
    ensures forall x :: x in Sorted(s) <==> x in s
    ensures forall i, j | 0 <= i < j < |Sorted(s)| :: Sorted(s)[i] != Sorted(s)[j] && Before(Sorted(s)[i], Sorted(s)[j])
  {
    if s != {} {
      var x := First(s);
      SortedIsSorted(s - {x});
      assert forall i | 1 <= i < |Sorted(s)| :: Sorted(s)[i] in Sorted(s - {x});
    }
  }

  lemma SortedStep(s: set<string>, x: string)
    requires IsFirst(s, x)
    ensures Sorted(s) == [x] + Sorted(s - {x})
  {
    hide Before;
    BeforeTotal(x, First(s));
  }

  method SortNames(s: set<string>) returns (l: seq<string>)
    ensures l == Sorted(s)
  {
    hide Sorted, Before;
    l := [];
    var todo := s;
    while todo != {}
      invariant l + Sorted(todo) == Sorted(s)
      decreases todo
    {
      FirstSome(todo);
      var x :| x in todo && forall y | y in todo :: Before(x, y);
      SortedStep(todo, x);
      l := l + [x];
      todo := todo - {x};
    }
    SortedEmpty();
  }

  lemma SortedEmpty()
    ensures Sorted({}) == []
  {
  }
}
