/** The parsed HTML document as an immutable element tree, with the three
    queries the analysis uses: `find_all` (every descendant that matches, in
    document order), `find` (the first such descendant) and a count. */
module Dom {
  import opened Wrappers

  /** One element: its tag name, its `class` attribute (absent or the raw
      attribute string), its `href` attribute, and its child elements. Text
      and comment nodes are not represented. */
  datatype Node = Node(tag: string, cls: Option<string>, href: Option<string>, children: seq<Node>)

  /** The elements of a forest in document (pre-)order: each element comes
      before its own descendants, which come before its next sibling. */
  function Flatten(ns: seq<Node>): (r: seq<Node>)
    decreases ns
    ensures |r| >= |ns|
    ensures ns != [] ==> r[0] == ns[0]
  {
    if ns == [] then [] else [ns[0]] + Flatten(ns[0].children) + Flatten(ns[1..])
  }

  /** Every element strictly below `n`, in document order; `n` itself is not
      included, as a search started on an element never returns it. */
  function Descendants(n: Node): seq<Node> {
    Flatten(n.children)
  }

  /** Flattening distributes over concatenation of forests. */
  lemma {:induction false} FlattenConcat(a: seq<Node>, b: seq<Node>)
    decreases a
    ensures Flatten(a + b) == Flatten(a) + Flatten(b)
  {
    if a == [] {
      assert a + b == b;
    } else {
      assert (a + b)[0] == a[0];
      assert (a + b)[1..] == a[1..] + b;
      FlattenConcat(a[1..], b);
    }
  }

  /** The order-preserving sub-list of `s` whose elements satisfy `p`
      (a Python list comprehension with an `if`). */
  function Filter<T(==,!new)>(s: seq<T>, p: T -> bool): (r: seq<T>)
    ensures |r| <= |s|
    ensures forall x :: x in r <==> x in s && p(x)
    ensures IsSubseq(r, s)
  {
    if s == [] then []
    else
      var rest := Filter(s[1..], p);
      if p(s[0]) then
        assert ([s[0]] + rest)[1..] == rest;
        [s[0]] + rest
      else
        SubseqOfTail(rest, s);
        rest
  }

  /** Filtering keeps every occurrence of a satisfying element and drops
      every occurrence of the others: the count of each value in the result is
      its count in the input when it satisfies `p`, and zero otherwise. */
  lemma {:induction false} FilterKeepsEveryOccurrence<T(!new)>(s: seq<T>, p: T -> bool)
    ensures forall x :: multiset(Filter(s, p))[x] == if p(x) then multiset(s)[x] else 0
  {
    if s != [] {
      FilterKeepsEveryOccurrence(s[1..], p);
      assert s == [s[0]] + s[1..];
    }
  }

  /** A forest of leaves is its own document order. */
  lemma {:induction false} FlattenLeaves(ns: seq<Node>)
    requires forall i :: 0 <= i < |ns| ==> ns[i].children == []
    ensures Flatten(ns) == ns
  {
    if ns != [] {
      FlattenLeaves(ns[1..]);
      assert [ns[0]] + ns[1..] == ns;
    }
  }

  /** `a` can be obtained from `b` by deleting elements: the greedy
      left-to-right matching of `a` against `b` succeeds. */
  predicate IsSubseq<T(==)>(a: seq<T>, b: seq<T>)
    decreases |b|
  {
    if a == [] then true
    else if b == [] then false
    else if a[0] == b[0] then IsSubseq(a[1..], b[1..])
    else IsSubseq(a, b[1..])
  }

  /** Dropping the head of a subsequence keeps it a subsequence. */
  lemma {:induction false} SubseqDropHead<T>(a: seq<T>, b: seq<T>)
    requires a != [] && IsSubseq(a, b)
    ensures IsSubseq(a[1..], b)
    decreases |b|
  {
    if a[0] == b[0] {
      if a[1..] != [] {
        SubseqDropHead(a[1..], b[1..]);
        if a[1..][0] != b[0] {
          assert IsSubseq(a[1..], b[1..]);
        } else {
          assert IsSubseq(a[1..][1..], b[1..]);
        }
      }
    } else {
      SubseqDropHead(a, b[1..]);
      if a[1..] != [] && a[1..][0] == b[0] {
        SubseqDropHead(a[1..], b[1..]);
      }
    }
  }

  /** A subsequence of the tail is a subsequence of the whole. */
  lemma {:induction false} SubseqOfTail<T>(a: seq<T>, b: seq<T>)
    requires b != [] && IsSubseq(a, b[1..])
    ensures IsSubseq(a, b)
  {
    if a != [] && a[0] == b[0] {
      SubseqDropHead(a, b[1..]);
    }
  }

  /** A subsequence is no longer than the sequence and draws its elements
      from it. */
  lemma {:induction false} SubseqBounds<T>(a: seq<T>, b: seq<T>)
    requires IsSubseq(a, b)
    ensures |a| <= |b|
    ensures forall x :: x in a ==> x in b
    decreases |b|
  {
    if a != [] {
      if a[0] == b[0] {
        SubseqBounds(a[1..], b[1..]);
        forall x | x in a ensures x in b {
          if x != a[0] {
            assert x in a[1..];
          }
        }
      } else {
        SubseqBounds(a, b[1..]);
      }
    }
  }

  /** Filtering distributes over concatenation. */
  lemma {:induction false} FilterConcat<T(!new)>(a: seq<T>, b: seq<T>, p: T -> bool)
    ensures Filter(a + b, p) == Filter(a, p) + Filter(b, p)
  {
    if a == [] {
      assert a + b == b;
    } else {
      assert (a + b)[0] == a[0];
      assert (a + b)[1..] == a[1..] + b;
      FilterConcat(a[1..], b, p);
    }
  }

  /** One step of filtering a list given by its head and tail. */
  lemma FilterCons<T(!new)>(x: T, s: seq<T>, p: T -> bool)
    ensures Filter([x] + s, p) == if p(x) then [x] + Filter(s, p) else Filter(s, p)
  {
  }

  /** `s[j]` is the first element of `s` that satisfies `p`. */
  predicate IsFirstMatch<T>(s: seq<T>, p: T -> bool, j: int) {
    0 <= j < |s| && p(s[j]) && forall i :: 0 <= i < j ==> !p(s[i])
  }

  /** The first element of `s` that satisfies `p`, or None. */
  function FirstOf<T>(s: seq<T>, p: T -> bool): (r: Option<T>)
    ensures r.Some? <==> exists j :: 0 <= j < |s| && p(s[j])
    ensures r.Some? ==> exists j :: IsFirstMatch(s, p, j) && s[j] == r.value
  {
    if s == [] then None
    else if p(s[0]) then
      assert IsFirstMatch(s, p, 0);
      Some(s[0])
    else
      var r := FirstOf(s[1..], p);
      assert forall j :: 1 <= j < |s| ==> s[j] == s[1..][j - 1];
      assert r.Some? ==> exists j :: IsFirstMatch(s, p, j) && s[j] == r.value by {
        if r.Some? {
          var j :| IsFirstMatch(s[1..], p, j) && s[1..][j] == r.value;
          assert IsFirstMatch(s, p, j + 1);
        }
      }
      r
  }

  /** The first match is the head of the filtered list. */
  lemma {:induction false} FirstOfIsHeadOfFilter<T(!new)>(s: seq<T>, p: T -> bool)
    ensures FirstOf(s, p) == (if Filter(s, p) == [] then None else Some(Filter(s, p)[0]))
  {
    if s != [] && !p(s[0]) {
      FirstOfIsHeadOfFilter(s[1..], p);
    }
  }

  /** The first match in a concatenation is the first match in the left part
      if there is one, and otherwise the first match in the right part. */
  lemma {:induction false} FirstOfConcat<T>(a: seq<T>, b: seq<T>, p: T -> bool)
    ensures FirstOf(a + b, p) == if FirstOf(a, p).Some? then FirstOf(a, p) else FirstOf(b, p)
  {
    if a == [] {
      assert a + b == b;
    } else {
      assert (a + b)[0] == a[0];
      assert (a + b)[1..] == a[1..] + b;
      FirstOfConcat(a[1..], b, p);
    }
  }

  /** bs4's `find` over a forest, walking the tree depth-first and stopping at
      the first match; it agrees with the first match of the flattened
      document order. */
  function FindIn(ns: seq<Node>, p: Node -> bool): (r: Option<Node>)
    decreases ns
    ensures r == FirstOf(Flatten(ns), p)
  {
    if ns == [] then None
    else if p(ns[0]) then Some(ns[0])
    else
      var below := FindIn(ns[0].children, p);
      var after := FindIn(ns[1..], p);
      FirstOfSplit(ns, p);
      if below.Some? then below else after
  }

  /** One step of `FindIn`'s correctness: when the head of the forest does
      not match, the first match of the flattened forest is the first match
      below the head, or else the first match among the later siblings. */
  lemma {:induction false} FirstOfSplit(ns: seq<Node>, p: Node -> bool)
    requires ns != [] && !p(ns[0])
    ensures FirstOf(Flatten(ns), p)
         == if FirstOf(Flatten(ns[0].children), p).Some? then FirstOf(Flatten(ns[0].children), p)
            else FirstOf(Flatten(ns[1..]), p)
  {
    var tail := Flatten(ns[0].children) + Flatten(ns[1..]);
    assert Flatten(ns) == [ns[0]] + tail;
    assert FirstOf(Flatten(ns), p) == FirstOf(tail, p) by {
      assert ([ns[0]] + tail)[1..] == tail;
    }
    FirstOfConcat(Flatten(ns[0].children), Flatten(ns[1..]), p);
  }

  /** `element.find(...)`: the first descendant of `n` that satisfies `p`. */
  function Find(n: Node, p: Node -> bool): (r: Option<Node>)
    ensures r.Some? ==> p(r.value) && r.value in Descendants(n)
    ensures r.Some? ==> exists j :: IsFirstMatch(Descendants(n), p, j) && Descendants(n)[j] == r.value
    ensures r.None? <==> forall d :: d in Descendants(n) ==> !p(d)
  {
    FindIn(n.children, p)
  }

  /** `element.find_all(...)`: every descendant of `n` that satisfies `p`,
      in document order, each occurrence kept. */
  function FindAll(n: Node, p: Node -> bool): (r: seq<Node>)
    ensures forall x :: x in r <==> x in Descendants(n) && p(x)
    ensures IsSubseq(r, Descendants(n))
    ensures |r| == CountIn(n.children, p)
  {
    Filter(Descendants(n), p)
  }

  /** The number of elements of a forest that satisfy `p`, counted directly
      on the tree. */
  function CountIn(ns: seq<Node>, p: Node -> bool): (r: nat)
    decreases ns
    ensures r == |Filter(Flatten(ns), p)|
  {
    if ns == [] then 0
    else
      FilterConcat([ns[0]], Flatten(ns[0].children) + Flatten(ns[1..]), p);
      FilterConcat(Flatten(ns[0].children), Flatten(ns[1..]), p);
      assert [ns[0]] + Flatten(ns[0].children) + Flatten(ns[1..])
          == [ns[0]] + (Flatten(ns[0].children) + Flatten(ns[1..]));
      (if p(ns[0]) then 1 else 0) + CountIn(ns[0].children, p) + CountIn(ns[1..], p)
  }

  /** `len(element.find_all(...))` is the tree count of matching descendants,
      and `find` returns the head of `find_all`. */
  lemma FindAllAgreesWithCountAndFind(n: Node, p: Node -> bool)
    ensures |FindAll(n, p)| == CountIn(n.children, p)
    ensures Find(n, p) == if FindAll(n, p) == [] then None else Some(FindAll(n, p)[0])
  {
    FirstOfIsHeadOfFilter(Descendants(n), p);
  }
}
