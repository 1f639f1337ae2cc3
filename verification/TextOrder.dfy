/** Strict lexicographic order on strings, as Rust and Arrow compare them. */
module TextOrder {

  predicate TextLess(a: string, b: string) {
    b != [] && (a == [] || a[0] < b[0] || (a[0] == b[0] && TextLess(a[1..], b[1..])))
  }

  /** Exactly one of less, equal, greater. */
  lemma {:induction false} TextTrichotomy(a: string, b: string)
    ensures TextLess(a, b) || a == b || TextLess(b, a)
    ensures !(TextLess(a, b) && TextLess(b, a)) && (a == b ==> !TextLess(a, b))
  {
    if a != [] && b != [] {
      TextTrichotomy(a[1..], b[1..]);
      if a[0] == b[0] && a[1..] == b[1..] {
        assert a == [a[0]] + a[1..] == b;
      }
    }
  }

  lemma {:induction false} TextTransitive(a: string, b: string, c: string)
    requires TextLess(a, b) && TextLess(b, c)
    ensures TextLess(a, c)
  {
    if a != [] && a[0] == b[0] && b[0] == c[0] {
      TextTransitive(a[1..], b[1..], c[1..]);
    }
  }

  predicate IsFirst(names: set<string>, m: string) {
    m in names && forall x :: x in names ==> x == m || TextLess(m, x)
  }

  lemma {:induction false} FirstExists(names: set<string>) returns (m: string)
    requires names != {}
    ensures IsFirst(names, m)
  {
    var x :| x in names;
    var rest := names - {x};
    if rest == {} {
      m := x;
      assert names == {x};
    } else {
      var r := FirstExists(rest);
      TextTrichotomy(x, r);
      m := if TextLess(x, r) then x else r;
      forall y | y in names
        ensures y == m || TextLess(m, y)
      {
        assert y == x || y in rest;
        if m == x && y in rest && y != r {
          TextTransitive(x, r, y);
        }
      }
    }
  }

  lemma FirstUnique(names: set<string>, m: string, n: string)
    requires IsFirst(names, m) && IsFirst(names, n)
    ensures m == n
  {
    TextTrichotomy(m, n);
  }

  /** The names in ascending order: a hash set collected into a vector and sorted. */
  function SortedNames(names: set<string>): (list: seq<string>)
    ensures forall c :: c in list <==> c in names
  {
    if names == {} then []
    else
      assert exists m :: IsFirst(names, m) by { var m := FirstExists(names); }
      assert forall m, n :: IsFirst(names, m) && IsFirst(names, n) ==> m == n by {
        forall m, n | IsFirst(names, m) && IsFirst(names, n) ensures m == n { FirstUnique(names, m, n); }
      }
      var m :| m in names && IsFirst(names, m);
      [m] + SortedNames(names - {m})
  }

  /** A text longer than every one of `texts`, hence none of them. */
  function Longer(texts: seq<string>): string {
    if texts == [] then "x" else texts[0] + Longer(texts[1..])
  }

  lemma {:induction false} LongerIsFresh(texts: seq<string>, s: string)
    requires s in texts
    ensures |s| < |Longer(texts)|
  {
    if s == texts[0] {
      LongerIsNotEmpty(texts[1..]);
    } else {
      LongerIsFresh(texts[1..], s);
    }
  }

  lemma {:induction false} LongerIsNotEmpty(texts: seq<string>)
    ensures |Longer(texts)| > 0
  {
    if texts != [] {
      LongerIsNotEmpty(texts[1..]);
    }
  }
}
