/** Facts about Java hash sets that the model needs: iterating a set visits
    every element once, in an order nobody promises, so what a loop over it
    collects is best described as a multiset. */
module Sets {
  import opened Common

  /** The zero- or one-element multiset of an optional value. */
  function Opt(o: Option<string>): (r: multiset<string>)
    ensures |r| <= 1
    ensures o.Some? ==> r == multiset{o.value}
    ensures o.None? ==> r == multiset{}
  {
    if o.Some? then multiset{o.value} else multiset{}
  }

  /** What a loop over `s` collects when it keeps `f(x)` for each element
      `x` that `f` resolves and drops the others, in any visiting order. */
  ghost function Image(s: set<string>, f: string -> Option<string>): multiset<string>
    decreases |s|
  {
    if s == {} then multiset{}
    else
      var x :| x in s;
      Image(s - {x}, f) + Opt(f(x))
  }

  /** The visiting order does not matter: any element can be taken first. */
  lemma {:induction false} ImageRemove(s: set<string>, f: string -> Option<string>, y: string)
    requires y in s
    ensures Image(s, f) == Image(s - {y}, f) + Opt(f(y))
    decreases |s|
  {
    var x :| x in s && Image(s, f) == Image(s - {x}, f) + Opt(f(x));
    if x != y {
      assert y in s - {x};
      ImageRemove(s - {x}, f, y);
      assert x in s - {y};
      ImageRemove(s - {y}, f, x);
      assert s - {x} - {y} == s - {y} - {x};
    }
  }

  /** A loop over a set keeps at most one entry per element. */
  lemma {:induction false} ImageSize(s: set<string>, f: string -> Option<string>)
    ensures |Image(s, f)| <= |s|
    decreases |s|
  {
    if s != {} {
      var x :| x in s;
      ImageRemove(s, f, x);
      ImageSize(s - {x}, f);
    }
  }

  /** A value is collected exactly when some element of the set resolves to it. */
  lemma {:induction false} ImageHas(s: set<string>, f: string -> Option<string>, v: string)
    ensures v in Image(s, f) <==> exists x :: x in s && f(x) == Some(v)
    decreases |s|
  {
    if s != {} {
      var x :| x in s;
      ImageRemove(s, f, x);
      ImageHas(s - {x}, f, v);
      if f(x) == Some(v) {
        assert v in Opt(f(x));
      }
    }
  }

  /** A string longer than every string of a finite set. */
  ghost function Longer(s: set<string>): (r: string)
    ensures |r| >= 1
    ensures forall x :: x in s ==> |x| < |r|
    decreases |s|
  {
    if s == {} then "x"
    else
      var x :| x in s;
      Longer(s - {x}) + x
  }

  /** Every finite set of ids leaves some id unused. */
  lemma FreshId(s: set<string>)
    ensures exists r :: r !in s
  {
    assert Longer(s) !in s;
  }

  /** The elements of a sequence without duplicates. */
  ghost predicate Distinct<T>(xs: seq<T>)
  {
    forall i, j :: 0 <= i < j < |xs| ==> xs[i] != xs[j]
  }

  /** A subset is no larger than its superset. */
  lemma {:induction false} SubsetSize(a: set<string>, b: set<string>)
    requires a <= b
    ensures |a| <= |b|
    decreases |a|
  {
    if a != {} {
      var x :| x in a;
      SubsetSize(a - {x}, b - {x});
    }
  }

  /** A proper subset is strictly smaller. */
  lemma StrictSubsetSize(a: set<string>, b: set<string>)
    requires a <= b && exists x :: x in b && x !in a
    ensures |a| < |b|
  {
    var x :| x in b && x !in a;
    SubsetSize(a, b - {x});
  }
}
