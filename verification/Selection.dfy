/** The elements of a sequence that satisfy a predicate, and what taking one out does to them. */
module Selection {
  import opened Types
  import opened Gossip

  /** The elements that satisfy a predicate, in order. */
  function Select<T>(s: seq<T>, f: T -> bool): seq<T> {
    if s == [] then []
    else Select(s[..|s| - 1], f) + if f(s[|s| - 1]) then [s[|s| - 1]] else []
  }

  lemma SelectLast<T>(s: seq<T>, x: T, f: T -> bool)
    ensures Select(s + [x], f) == Select(s, f) + if f(x) then [x] else []
  {
    assert (s + [x])[..|s|] == s;
  }

  lemma SplitLast<T>(s: seq<T>)
    requires s != []
    ensures s[..|s| - 1] + [s[|s| - 1]] == s
  {
  }

  lemma {:induction false} SelectSplit<T>(a: seq<T>, b: seq<T>, f: T -> bool)
    ensures Select(a + b, f) == Select(a, f) + Select(b, f)
  {
    if b == [] {
      assert a + b == a;
    } else {
      var front, x := b[..|b| - 1], b[|b| - 1];
      SelectSplit(a, front, f);
      SplitLast(b);
      Associates(a, front, [x]);
      SelectLast(a + front, x, f);
      Associates(Select(a, f), Select(front, f), if f(x) then [x] else []);
    }
  }

  lemma {:induction false} SelectAll<T>(s: seq<T>, f: T -> bool)
    requires forall x :: x in s ==> f(x)
    ensures Select(s, f) == s
  {
    if s != [] {
      var front, x := s[..|s| - 1], s[|s| - 1];
      SelectAll(front, f);
      SelectLast(front, x, f);
      assert front + [x] == s;
    }
  }

  lemma {:induction false} SelectNone<T>(s: seq<T>, f: T -> bool)
    requires forall x :: x in s ==> !f(x)
    ensures Select(s, f) == []
  {
    if s != [] {
      SelectNone(s[..|s| - 1], f);
    }
  }

  lemma {:induction false} SelectMembers<T>(s: seq<T>, f: T -> bool, x: T)
    ensures x in Select(s, f) <==> x in s && f(x)
  {
    if s != [] {
      SelectMembers(s[..|s| - 1], f, x);
      assert s == s[..|s| - 1] + [s[|s| - 1]];
    }
  }

  /** Where the `k`th of the selected elements is. */
  function Find<T>(s: seq<T>, f: T -> bool, k: nat): (j: nat)
    requires k < |Select(s, f)|
    ensures j < |s| && f(s[j]) && s[j] == Select(s, f)[k]
  {
    if k < |Select(s[..|s| - 1], f)| then Find(s[..|s| - 1], f, k) else |s| - 1
  }

  lemma WithoutFromFront<T>(front: seq<T>, x: T, j: nat)
    ensures j < |front| ==> Without(front + [x], j) == Without(front, j) + [x]
    ensures Without(front + [x], |front|) == front
  {
  }

  /** Taking that element out takes it out of the selection. */
  lemma {:induction false} FindAndRemove<T>(s: seq<T>, f: T -> bool, k: nat)
    requires k < |Select(s, f)|
    ensures Select(Without(s, Find(s, f, k)), f) == Without(Select(s, f), k)
  {
    var front, x, j := s[..|s| - 1], s[|s| - 1], Find(s, f, k);
    assert s == front + [x];
    WithoutFromFront(front, x, j);
    if k < |Select(front, f)| {
      FindAndRemove(front, f, k);
      SelectLast(Without(front, j), x, f);
      if f(x) {
        WithoutFromFront(Select(front, f), x, k);
      }
    } else {
      WithoutFromFront(Select(front, f), x, k);
    }
  }

  lemma SelectAround<T>(a: seq<T>, x: T, b: seq<T>, g: T -> bool)
    requires !g(x)
    ensures Select(a + [x] + b, g) == Select(a + b, g)
  {
    SelectSplit(a, b, g);
    SelectSplit(a + [x], b, g);
    SelectLast(a, x, g);
  }

  lemma SplitAt<T>(s: seq<T>, j: nat)
    requires j < |s|
    ensures s[..j] + [s[j]] + s[j + 1..] == s
  {
  }

  /** Other selections do not notice. */
  lemma RemoveOther<T>(s: seq<T>, j: nat, g: T -> bool)
    requires j < |s| && !g(s[j])
    ensures Select(Without(s, j), g) == Select(s, g)
  {
    SplitAt(s, j);
    SelectAround(s[..j], s[j], s[j + 1..], g);
  }

  lemma AppendToSelected<T>(s: seq<T>, selected: seq<T>, more: seq<T>, f: T -> bool)
    requires Select(s, f) == selected && forall x :: x in selected ==> f(x)
    ensures Select(s + more, f) == Select(selected + more, f)
  {
    SelectSplit(s, more, f);
    SelectSplit(selected, more, f);
    SelectAll(selected, f);
  }

  lemma AppendToOthers<T>(s: seq<T>, selected: seq<T>, more: seq<T>, g: T -> bool)
    requires forall x :: x in selected ==> !g(x)
    ensures Select(s + more, g) == Select(s, g) + Select(selected + more, g)
  {
    SelectSplit(s, more, g);
    SelectSplit(selected, more, g);
    SelectNone(selected, g);
    assert [] + Select(more, g) == Select(more, g);
  }
}
