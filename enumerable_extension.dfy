/** The sequence helpers of EnumerableExtension.cs: joining into a
    delimited string, a first-match index search, and the flattening of a
    tree given by a child-selector. Each is a method with the loop of the
    source, proved against a function that says what it computes or, for
    the index search, against a first-match postcondition. */
module EnumerableExtension {

  function Max(a: int, b: int): int
  {
    if a >= b then a else b
  }

  /** The elements separated by `delim`, with no delimiter after the last. */
  function Join(xs: seq<string>, delim: string): string
  {
    if xs == [] then ""
    else if |xs| == 1 then xs[0]
    else Join(xs[..|xs| - 1], delim) + delim + xs[|xs| - 1]
  }

  /** Every element followed by `delim`: what the StringBuilder holds
      after the loop of ToCSVString. */
  function Terminated(xs: seq<string>, delim: string): string
  {
    if xs == [] then "" else Terminated(xs[..|xs| - 1], delim) + xs[|xs| - 1] + delim
  }

  /** Total length of the elements. */
  function SumLengths(xs: seq<string>): nat
  {
    if xs == [] then 0 else SumLengths(xs[..|xs| - 1]) + |xs[|xs| - 1]|
  }

  /** Cutting the last delimiter off the terminated form gives the join. */
  lemma {:induction false} TerminatedIsJoinPlusDelim(xs: seq<string>, delim: string)
    requires xs != []
    ensures Terminated(xs, delim) == Join(xs, delim) + delim
  {
    if |xs| > 1 {
      var init := xs[..|xs| - 1];
      TerminatedIsJoinPlusDelim(init, delim);
    } else {
      assert xs[..0] == [];
    }
  }

  /** `list.ToCSVString(delim)`: append each element and a delimiter to a
      StringBuilder, then shorten it by the delimiter's length (not below 0). */
  method ToCSVString(list: seq<string>, delim: string) returns (r: string)
    ensures r == Join(list, delim)
  {
    var sb := "";
    for i := 0 to |list|
      invariant sb == Terminated(list[..i], delim)
    {
      assert list[..i + 1][..i] == list[..i];
      sb := sb + list[i];
      sb := sb + delim;
    }
    assert list[..|list|] == list;
    if list != [] {
      TerminatedIsJoinPlusDelim(list, delim);
    }
    r := sb[..Max(0, |sb| - |delim|)];
  }

  /** The joined string has every element's characters and one delimiter
      between each pair of neighbours. */
  lemma {:induction false} JoinLength(xs: seq<string>, delim: string)
    requires xs != []
    ensures |Join(xs, delim)| == SumLengths(xs) + (|xs| - 1) * |delim|
  {
    if |xs| > 1 {
      JoinLength(xs[..|xs| - 1], delim);
    } else {
      assert xs[..0] == [];
    }
  }

  /** Appending an element extends the join by one delimiter and that element. */
  lemma JoinSnoc(xs: seq<string>, x: string, delim: string)
    requires xs != []
    ensures Join(xs + [x], delim) == Join(xs, delim) + delim + x
  {
    assert (xs + [x])[..|xs|] == xs;
  }

  /** `source.IndexOf(predicate)`: the index of the first element that
      satisfies the predicate, or -1 when none does. */
  method IndexOf<T>(source: seq<T>, pred: T -> bool) returns (r: int)
    ensures -1 <= r < |source|
    ensures 0 <= r ==> pred(source[r])
    ensures 0 <= r ==> forall j :: 0 <= j < r ==> !pred(source[j])
    ensures r == -1 <==> forall j :: 0 <= j < |source| ==> !pred(source[j])
  {
    var c := 0;
    while c < |source|
      invariant 0 <= c <= |source|
      invariant forall j :: 0 <= j < c ==> !pred(source[j])
    {
      if pred(source[c]) {
        return c;
      }
      c := c + 1;
    }
    return -1;
  }

  /** An item of a finite tree: `children` is what the selector `func`
      of Descendants returns for it. */
  datatype Item<T> = Item(payload: T, children: seq<Item<T>>)

  /** The number of items in a forest, counting every nested child. */
  function Size<T>(list: seq<Item<T>>): nat
  {
    if list == [] then 0 else Size(list[..|list| - 1]) + 1 + Size(list[|list| - 1].children)
  }

  /** What Descendants returns: the list itself, then the descendants of
      each item's children, item by item in list order. */
  function DescendantsOf<T>(list: seq<Item<T>>): seq<Item<T>>
    decreases list, 1
  {
    list + ChildrenDescendants(list)
  }

  /** The descendants of the children of each item, concatenated in order. */
  function ChildrenDescendants<T>(list: seq<Item<T>>): seq<Item<T>>
    decreases list, 0
  {
    if list == [] then []
    else ChildrenDescendants(list[..|list| - 1]) + DescendantsOf(list[|list| - 1].children)
  }

  /** `list.Descendants(func)`: copy the list, then append the (recursively
      computed) descendants of each item's children. */
  method Descendants<T>(list: seq<Item<T>>) returns (all: seq<Item<T>>)
    ensures all == DescendantsOf(list)
    decreases list
  {
    all := list;
    for k := 0 to |list|
      invariant all == list + ChildrenDescendants(list[..k])
    {
      assert list[..k + 1][..k] == list[..k];
      var sub := Descendants(list[k].children);
      all := all + sub;
    }
    assert list[..|list|] == list;
  }

  /** The length of Descendants is the forest's size, the number of items
      in the list and beneath them, never less than the list's length. */
  lemma {:induction false} DescendantsLength<T>(list: seq<Item<T>>)
    ensures |DescendantsOf(list)| == Size(list)
    ensures |DescendantsOf(list)| >= |list|
    decreases list, 1
  {
    ChildrenDescendantsLength(list);
  }

  lemma {:induction false} ChildrenDescendantsLength<T>(list: seq<Item<T>>)
    ensures |list| + |ChildrenDescendants(list)| == Size(list)
    decreases list, 0
  {
    if list != [] {
      ChildrenDescendantsLength(list[..|list| - 1]);
      DescendantsLength(list[|list| - 1].children);
    }
  }

  /** When no item has children, Descendants is the list itself. */
  lemma {:induction false} DescendantsOfLeaves<T>(list: seq<Item<T>>)
    requires forall i :: 0 <= i < |list| ==> list[i].children == []
    ensures DescendantsOf(list) == list
  {
    LeavesHaveNoChildDescendants(list);
  }

  lemma {:induction false} LeavesHaveNoChildDescendants<T>(list: seq<Item<T>>)
    requires forall i :: 0 <= i < |list| ==> list[i].children == []
    ensures ChildrenDescendants(list) == []
  {
    if list != [] {
      LeavesHaveNoChildDescendants(list[..|list| - 1]);
      assert DescendantsOf<T>([]) == [];
    }
  }

  /** The item's position in the list does not matter: the descendants of
      any item's children appear in the result. */
  lemma {:induction false} ChildrenDescendantsContains<T>(list: seq<Item<T>>, i: int, x: Item<T>)
    requires 0 <= i < |list| && x in DescendantsOf(list[i].children)
    ensures x in ChildrenDescendants(list)
    decreases list
  {
    if i < |list| - 1 {
      ChildrenDescendantsContains(list[..|list| - 1], i, x);
    }
  }

  /** Everything in ChildrenDescendants comes from some item's children. */
  lemma {:induction false} ChildrenDescendantsSource<T>(list: seq<Item<T>>, x: Item<T>)
    requires x in ChildrenDescendants(list)
    ensures exists i :: 0 <= i < |list| && x in DescendantsOf(list[i].children)
    decreases list
  {
    var init := list[..|list| - 1];
    if x in ChildrenDescendants(init) {
      ChildrenDescendantsSource(init, x);
      var i :| 0 <= i < |init| && x in DescendantsOf(init[i].children);
      assert list[i] == init[i];
    } else {
      assert x in DescendantsOf(list[|list| - 1].children);
    }
  }

  /** The result is closed under the child selector: the children of every
      returned item are returned too. */
  lemma {:induction false} DescendantsClosed<T>(list: seq<Item<T>>, y: Item<T>, c: Item<T>)
    requires y in DescendantsOf(list) && c in y.children
    ensures c in DescendantsOf(list)
    decreases list
  {
    if y in list {
      var i :| 0 <= i < |list| && list[i] == y;
      assert c in DescendantsOf(list[i].children);
      ChildrenDescendantsContains(list, i, c);
    } else {
      ChildrenDescendantsSource(list, y);
      var i :| 0 <= i < |list| && y in DescendantsOf(list[i].children);
      DescendantsClosed(list[i].children, y, c);
      ChildrenDescendantsContains(list, i, c);
    }
  }
}
