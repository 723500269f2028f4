/**
 `find` with its slice of expansions as Go has it.  The branches of a search share one array:
 they append to it in place while it has room, and an extension is stripped from it in place.

 So what is found does not depend on the sharing, but the expansions may be those of another
 branch.  They are right when no route has more than three wildcards and extensions are at the
 end of their route; with four wildcards, or an extension before the end, they can be wrong.
 */
module PathSlices {
  import opened Basics
  import opened PathTree
  import opened PathText

  /** The arrays that were allocated so far, each as long as its capacity. */
  type Heap = seq<seq<string>>

  datatype Slice = Slice(base: nat, length: nat)

  /** The nil slice, in an array without room. */
  const NIL := Slice(0, 0)

  predicate IsSlice(h: Heap, s: Slice) {
    s.base < |h| && s.length <= |h[s.base]|
  }

  function Contents(h: Heap, s: Slice): (r: seq<string>)
    requires IsSlice(h, s)
    ensures |r| == s.length
  {
    h[s.base][..s.length]
  }

  /** The capacity that a full array of n strings is given when it grows. */
  function Grown(n: nat): nat {
    if n == 0 then 1 else if n < 1024 then 2 * n else n + n / 4
  }

  function Append(h: Heap, s: Slice, x: string): (Heap, Slice)
    requires IsSlice(h, s)
  {
    if s.length < |h[s.base]| then
      (h[s.base := h[s.base][s.length := x]], Slice(s.base, s.length + 1))
    else
      (h + [Contents(h, s) + [x] + seq(Grown(s.length) - s.length - 1, _ => "")], Slice(|h|, s.length + 1))
  }

  /** Replaces the last string by what it is without its extension. */
  function Strip(h: Heap, s: Slice): Heap
    requires IsSlice(h, s) && s.length > 0
  {
    h[s.base := h[s.base][s.length - 1 := WithoutExtension(h[s.base][s.length - 1])]]
  }

  /** Arrays stay, and keep their capacity. */
  ghost predicate Grows(h: Heap, h': Heap) {
    |h| <= |h'| && forall a :: 0 <= a < |h| ==> |h'[a]| == |h[a]|
  }

  datatype Search<V> = Search(leaf: Option<Leaf<V>>, exp: Slice, heap: Heap)

  function Nothing<V>(h: Heap): Search<V> {
    Search(None, NIL, h)
  }

  /** `find`, one function for the end of the path and one for each way on. */
  function FindFrom<V>(t: Trie<V>, elements: seq<string>, exp: Slice, h: Heap): (r: Search<V>)
    requires h != [] && IsSlice(h, exp)
    ensures Grows(h, r.heap) && IsSlice(r.heap, r.exp)
    decreases |elements|, 2
  {
    if elements == [] then AtEnd(t, exp, h)
    else
      var byEdge: Search<V> := ByEdge(t, elements, exp, h);
      var byWildcard: Search<V> := ByWildcard(t, elements, exp, byEdge.heap);
      ByStar(t, elements, exp, if IsOlder(byWildcard.leaf, byEdge.leaf) then byWildcard else byEdge.(heap := byWildcard.heap))
  }

  /** The second of two leaves is missing, or younger. */
  predicate IsOlder<V>(a: Option<Leaf<V>>, b: Option<Leaf<V>>) {
    a.Some? && (b.None? || b.value.order > a.value.order)
  }

  function AtEnd<V>(t: Trie<V>, exp: Slice, h: Heap): (r: Search<V>)
    requires h != [] && IsSlice(h, exp)
    ensures Grows(h, r.heap) && IsSlice(r.heap, r.exp)
  {
    var ext := LastExtension(Contents(h, exp));
    if ext != "" && ext in t.extensions then Search(Some(t.extensions[ext]), exp, Strip(h, exp)) else Search(t.leaf, exp, h)
  }

  function ByEdge<V>(t: Trie<V>, elements: seq<string>, exp: Slice, h: Heap): (r: Search<V>)
    requires h != [] && IsSlice(h, exp) && elements != []
    ensures Grows(h, r.heap) && IsSlice(r.heap, r.exp)
    decreases |elements|, 0
  {
    if elements[0] in t.edges then FindFrom(t.edges[elements[0]], elements[1..], exp, h) else Nothing(h)
  }

  function ByWildcard<V>(t: Trie<V>, elements: seq<string>, exp: Slice, h: Heap): (r: Search<V>)
    requires h != [] && IsSlice(h, exp) && elements != []
    ensures Grows(h, r.heap) && IsSlice(r.heap, r.exp)
    decreases |elements|, 0
  {
    if t.wildcard.None? then Nothing(h)
    else
      var (h', exp') := Append(h, exp, elements[0]);
      FindFrom(t.wildcard.value, elements[1..], exp', h')
  }

  function ByStar<V>(t: Trie<V>, elements: seq<string>, exp: Slice, found: Search<V>): (r: Search<V>)
    requires found.heap != [] && IsSlice(found.heap, exp) && IsSlice(found.heap, found.exp)
    ensures Grows(found.heap, r.heap) && IsSlice(r.heap, r.exp)
  {
    if !IsOlder(t.star, found.leaf) then found
    else
      var (h, exp') := Append(found.heap, exp, Join(elements));
      Search(t.star, exp', h)
  }

  /** `Find`: the search starts with a nil slice. */
  function Find<V>(tree: Tree<V>, path: string): Search<V> {
    if !IsPath(path) then Nothing([[]]) else FindFrom(tree.root, SplitPath(path), NIL, [[]])
  }

  // ----- Leaves do not depend on the sharing -------------------------------------------

  lemma AppendAppends(h: Heap, s: Slice, x: string)
    requires IsSlice(h, s)
    ensures var (h', s') := Append(h, s, x);
      Grows(h, h') && IsSlice(h', s') && s'.length == s.length + 1 && Contents(h', s') == Contents(h, s) + [x]
  {
  }

  /** Which leaf is found depends on the last of the expansions so far, if at all. */
  lemma {:induction false} LastDecides<V>(t: Trie<V>, elements: seq<string>, a: seq<string>, b: seq<string>)
    requires |a| == |b| && (a != [] ==> a[|a| - 1] == b[|b| - 1])
    ensures FindIn(t, elements, a).0 == FindIn(t, elements, b).0 && |FindIn(t, elements, a).1| == |FindIn(t, elements, b).1|
    decreases |elements|
  {
    if elements != [] {
      var el, rest := elements[0], elements[1..];
      if el in t.edges { LastDecides(t.edges[el], rest, a, b); }
      if t.wildcard.Some? { LastDecides(t.wildcard.value, rest, a + [el], b + [el]); }
    }
  }

  /** The same leaf, with as many expansions. */
  ghost predicate Alike<V>(r: Search<V>, found: Found<V>) {
    r.leaf == found.0 && (r.leaf.Some? ==> r.exp.length == |found.1|)
  }

  /** What the search finds, with how many expansions, is what it finds on values. */
  lemma {:induction false} LeafIsFound<V>(t: Trie<V>, elements: seq<string>, exp: Slice, h: Heap)
    requires h != [] && IsSlice(h, exp)
    ensures Alike(FindFrom(t, elements, exp, h), FindIn(t, elements, Contents(h, exp)))
    decreases |elements|, 1
  {
    if elements != [] {
      if elements[0] in t.edges { LeafIsFound(t.edges[elements[0]], elements[1..], exp, h); }
      if t.wildcard.Some? { WildcardLeaf(t, elements, exp, ByEdge(t, elements, exp, h).heap, Contents(h, exp)); }
    }
  }

  lemma {:induction false} WildcardLeaf<V>(t: Trie<V>, elements: seq<string>, exp: Slice, h: Heap, names: seq<string>)
    requires h != [] && IsSlice(h, exp) && |names| == exp.length && elements != [] && t.wildcard.Some?
    ensures Alike(ByWildcard(t, elements, exp, h), FindIn(t.wildcard.value, elements[1..], names + [elements[0]]))
    decreases |elements|, 0
  {
    var el := elements[0];
    AppendAppends(h, exp, el);
    var (h', exp') := Append(h, exp, el);
    LeafIsFound(t.wildcard.value, elements[1..], exp', h');
    LastDecides(t.wildcard.value, elements[1..], Contents(h, exp) + [el], names + [el]);
  }

  // ----- When the expansions are right --------------------------------------------------

  /** The last element of a pattern is a wildcard. */
  predicate EndsInWild(shape: Shape) {
    match shape
    case End => false
    case Star => false
    case Wild(rest) => rest == End || EndsInWild(rest)
    case Lit(_, rest) => EndsInWild(rest)
  }

  /** Below t, and at t itself if a wildcard leads to it, extensions are at the end of their route. */
  ghost predicate Safe<V>(t: Trie<V>, below: bool) {
    forall shape, ext :: ext != "" && Lookup(t, shape, ext).Some? ==> EndsInWild(shape) || (shape == End && below)
  }

  lemma SafeBelow<V>(t: Trie<V>, below: bool, el: string)
    requires Safe(t, below)
    ensures Safe(EdgeOf(t, el), false) && Safe(WildcardOf(t), true)
  {
    forall shape, ext | ext != "" && Lookup(EdgeOf(t, el), shape, ext).Some? ensures EndsInWild(shape) {
      assert Lookup(t, Lit(el, shape), ext).Some?;
    }
    forall shape, ext | ext != "" && Lookup(WildcardOf(t), shape, ext).Some? ensures EndsInWild(shape) || shape == End {
      assert Lookup(t, Wild(shape), ext).Some?;
    }
  }

  /** Up to two strings fill their array. */
  predicate Tight(h: Heap, exp: Slice)
    requires IsSlice(h, exp)
  {
    exp.length <= 2 ==> |h[exp.base]| == exp.length
  }

  /** The first three strings of each array are the same. */
  ghost predicate Same(h: Heap, h': Heap) {
    Grows(h, h') && forall a, i :: 0 <= a < |h| && 0 <= i < |h[a]| && i < 3 ==> h'[a][i] == h[a][i]
  }

  lemma SameContents(h: Heap, h': Heap, s: Slice)
    requires Same(h, h') && IsSlice(h, s) && s.length <= 3
    ensures IsSlice(h', s) && Contents(h', s) == Contents(h, s)
  {
  }

  lemma AppendTight(h: Heap, exp: Slice, x: string)
    requires IsSlice(h, exp) && Tight(h, exp)
    ensures var (h', exp') := Append(h, exp, x);
      Same(h, h') && IsSlice(h', exp') && Tight(h', exp') && (exp'.length <= 3 ==> exp'.base == |h|)
  {
  }

  lemma SameTwice(h: Heap, h': Heap, h'': Heap)
    requires Same(h, h') && Same(h', h'')
    ensures Same(h, h'')
  {
  }

  /** The leaf found on values, and the same expansions if there are up to three. */
  ghost predicate Right<V>(r: Search<V>, found: Found<V>)
    requires IsSlice(r.heap, r.exp)
  {
    r.leaf == found.0 && (r.leaf.Some? && r.exp.length <= 3 ==> Contents(r.heap, r.exp) == found.1)
  }

  /** All strings are the same but the last of the slice. */
  ghost predicate SameButLast(h: Heap, h': Heap, s: Slice) {
    Grows(h, h') && forall a, i :: 0 <= a < |h| && 0 <= i < |h[a]| && !(a == s.base && i == s.length - 1) ==> h'[a][i] == h[a][i]
  }

  /** A search changes at most the last expansion, and that only at the end of the path and below a wildcard. */
  lemma {:induction false} SearchIsRight<V>(t: Trie<V>, below: bool, elements: seq<string>, exp: Slice, h: Heap)
    requires h != [] && IsSlice(h, exp) && Tight(h, exp) && Safe(t, below)
    ensures var r := FindFrom(t, elements, exp, h);
      && Right(r, FindIn(t, elements, Contents(h, exp)))
      && (if elements == [] && below then SameButLast(h, r.heap, exp) else Same(h, r.heap))
    decreases |elements|, 1
  {
    if elements == [] {
      EndIsRight(t, below, exp, h);
    } else {
      SafeBelow(t, below, elements[0]);
      if elements[0] in t.edges { SearchIsRight(t.edges[elements[0]], false, elements[1..], exp, h); }
      var r1 := ByEdge(t, elements, exp, h);
      WildcardIsRight(t, elements, exp, h, r1.heap);
      WayOnIsRight(t, elements, exp, h);
    }
  }

  lemma EndIsRight<V>(t: Trie<V>, below: bool, exp: Slice, h: Heap)
    requires h != [] && IsSlice(h, exp) && Safe(t, below)
    ensures var r := AtEnd(t, exp, h);
      && Right(r, FindIn(t, [], Contents(h, exp)))
      && (if below then SameButLast(h, r.heap, exp) else Same(h, r.heap))
  {
    var names := Contents(h, exp);
    var ext := LastExtension(names);
    if ext != "" && ext in t.extensions {
      assert Lookup(t, End, ext).Some?;
      assert Contents(Strip(h, exp), exp) == StripLast(names);
    }
  }

  lemma {:induction false} WildcardIsRight<V>(t: Trie<V>, elements: seq<string>, exp: Slice, h: Heap, h1: Heap)
    requires h != [] && IsSlice(h, exp) && Tight(h, exp) && Same(h, h1) && Safe(WildcardOf(t), true) && elements != []
    ensures var r := ByWildcard(t, elements, exp, h1);
      && Same(h1, r.heap)
      && (t.wildcard.Some? ==> Right(r, FindIn(t.wildcard.value, elements[1..], Contents(h, exp) + [elements[0]])))
    decreases |elements|, 0
  {
    if t.wildcard.Some? {
      var el := elements[0];
      AppendTight(h1, exp, el);
      AppendAppends(h1, exp, el);
      var (h', exp') := Append(h1, exp, el);
      SearchIsRight(t.wildcard.value, true, elements[1..], exp', h');
      WildcardLeaf(t, elements, exp, h1, Contents(h, exp));
      if exp.length <= 2 {
        SameContents(h, h1, exp);
      } else if FindIn(t.wildcard.value, elements[1..], Contents(h, exp) + [el]).0.Some? {
        var shape := FindIsServed(t.wildcard.value, elements[1..], Contents(h, exp) + [el]);
      }
      LastIsFresh(h1, h', FindFrom(t.wildcard.value, elements[1..], exp', h').heap, exp');
    }
  }

  lemma LastIsFresh(h: Heap, h': Heap, h'': Heap, s: Slice)
    requires Same(h, h') && (Same(h', h'') || SameButLast(h', h'', s)) && (s.length <= 3 ==> s.base == |h|)
    ensures Same(h, h'')
  {
  }

  lemma WayOnIsRight<V>(t: Trie<V>, elements: seq<string>, exp: Slice, h: Heap)
    requires h != [] && IsSlice(h, exp) && Tight(h, exp) && elements != []
    requires var r1 := ByEdge(t, elements, exp, h); Same(h, r1.heap) && Same(r1.heap, ByWildcard(t, elements, exp, r1.heap).heap)
    requires elements[0] in t.edges ==> Right(ByEdge(t, elements, exp, h), FindIn(t.edges[elements[0]], elements[1..], Contents(h, exp)))
    requires t.wildcard.Some? ==>
      Right(ByWildcard(t, elements, exp, ByEdge(t, elements, exp, h).heap), FindIn(t.wildcard.value, elements[1..], Contents(h, exp) + [elements[0]]))
    ensures var r := FindFrom(t, elements, exp, h); Same(h, r.heap) && Right(r, FindIn(t, elements, Contents(h, exp)))
  {
  }

  // ----- Main results --------------------------------------------------------------------

  /** After any run, the leaf is that of the first route that serves the path, with one expansion for each name. */
  lemma LeafIsRight<V>(adds: seq<(string, V)>, path: string)
    requires IsPath(path)
    ensures var r := Find(TreeAfter(adds), path);
      && r.leaf == Scan(RoutesAfter(adds), 0, SplitPath(path)).0
      && (r.leaf.Some? ==> r.exp.length == |r.leaf.value.wildcards|)
  {
    FindAgreesWithScan(adds, path);
    LeafIsFound(TreeAfter(adds).root, SplitPath(path), NIL, [[]]);
  }

  /** Up to three wildcards, and an extension only at the end. */
  ghost predicate Modest<V>(routes: seq<Route<V>>) {
    forall k :: 0 <= k < |routes| ==>
      NumWildcards(routes[k].key.shape) <= 3 && (routes[k].key.ext != "" ==> EndsInWild(routes[k].key.shape))
  }

  /** With modest routes the expansions are what the wildcards of that route stand for. */
  lemma ExpansionsAreRight<V>(adds: seq<(string, V)>, path: string)
    requires IsPath(path) && Modest(RoutesAfter(adds))
    ensures var r := Find(TreeAfter(adds), path);
      r.leaf.Some? ==> (r.leaf, Contents(r.heap, r.exp)) == Scan(RoutesAfter(adds), 0, SplitPath(path))
  {
    var t, elements := TreeAfter(adds).root, SplitPath(path);
    RunRepresents(adds);
    ModestIsSafe(t, RoutesAfter(adds));
    SearchIsRight(t, false, elements, NIL, [[]]);
    LeafIsRight(adds, path);
    FindAgreesWithScan(adds, path);
    if Find(TreeAfter(adds), path).leaf.Some? {
      var k := ScanServes(RoutesAfter(adds), 0, elements);
    }
  }

  lemma ModestIsSafe<V>(t: Trie<V>, routes: seq<Route<V>>)
    requires Represents(t, routes) && Modest(routes)
    ensures Safe(t, false)
  {
    forall shape, ext | ext != "" && Lookup(t, shape, ext).Some? ensures EndsInWild(shape) {
      var j := StoredAt(routes, Key(shape, ext));
    }
  }

  // ----- When they are wrong ---------------------------------------------------------------

  /** The node below a wildcard holds a route that ends in el and asks for e's extension, and an older one that ends in a wildcard. */
  ghost predicate Rivals<V>(w: Trie<V>, e: string, el: string) {
    && w.star.None? && el in w.edges && w.wildcard.Some? && Extension(el) == ""
    && Extension(e) != "" && Extension(e) in w.edges[el].extensions
    && w.wildcard.value.leaf.Some? && w.wildcard.value.leaf.value.order < w.edges[el].extensions[Extension(e)].order
  }

  /** The search for the younger route strips the extension, and the older route is returned without it. */
  lemma ExtensionIsLost<V>(t: Trie<V>, e: string, el: string)
    requires t.edges == map[] && t.star.None? && t.wildcard.Some? && Rivals(t.wildcard.value, e, el)
    ensures FindIn(t, [e, el], []) == (t.wildcard.value.wildcard.value.leaf, [e, el])
    ensures var r := FindFrom(t, [e, el], NIL, [[]]);
      r.leaf == t.wildcard.value.wildcard.value.leaf && Contents(r.heap, r.exp) == [WithoutExtension(e), el]
  {
    var w := t.wildcard.value;
    assert [e, el][1..] == [el];
    assert [] + [e] == [e] && [e] + [el] == [e, el];
    FullAppend([[]], NIL, e);
    KeptOnValues(w, e, el);
    LostBelow(w, e, el, [[]] + [[e]], Slice(1, 1));
  }

  lemma KeptOnValues<V>(w: Trie<V>, e: string, el: string)
    requires Rivals(w, e, el)
    ensures FindIn(w, [el], [e]) == (w.wildcard.value.leaf, [e, el])
  {
    assert [el][1..] == [] && [e] + [el] == [e, el];
    assert FindIn(w.edges[el], [], [e]).0 == Some(w.edges[el].extensions[Extension(e)]);
    assert FindIn(w.wildcard.value, [], [e, el]) == (w.wildcard.value.leaf, [e, el]);
  }

  lemma LostBelow<V>(w: Trie<V>, e: string, el: string, h: Heap, exp: Slice)
    requires Rivals(w, e, el) && h != [] && IsSlice(h, exp) && exp.length == 1 && h[exp.base] == [e]
    ensures var r := FindFrom(w, [el], exp, h); r.leaf == w.wildcard.value.leaf && Contents(r.heap, r.exp) == [WithoutExtension(e), el]
  {
    assert [el][1..] == [];
    EdgeStrips(w.edges[el], e, h, exp);
    OlderEnds(w.wildcard.value, WithoutExtension(e), el, Strip(h, exp), exp);
  }

  lemma EdgeStrips<V>(t: Trie<V>, e: string, h: Heap, exp: Slice)
    requires h != [] && IsSlice(h, exp) && exp.length == 1 && h[exp.base] == [e] && Extension(e) != "" && Extension(e) in t.extensions
    ensures FindFrom(t, [], exp, h) == Search(Some(t.extensions[Extension(e)]), exp, Strip(h, exp))
    ensures Strip(h, exp)[exp.base] == [WithoutExtension(e)]
  {
    assert Contents(h, exp) == [e];
  }

  lemma OlderEnds<V>(t: Trie<V>, e: string, el: string, h: Heap, exp: Slice)
    requires h != [] && IsSlice(h, exp) && exp.length == 1 && h[exp.base] == [e] && Extension(el) == ""
    ensures var (h', exp') := Append(h, exp, el);
      IsSlice(h', exp') && Contents(h', exp') == [e, el] && FindFrom(t, [], exp', h') == Search(t.leaf, exp', h')
  {
    FullAppend(h, exp, el);
    assert Contents(h, exp) == [e] && [e] + [el] == [e, el];
  }

  lemma FullAppend(h: Heap, s: Slice, x: string)
    requires IsSlice(h, s) && |h[s.base]| == s.length < 2
    ensures Append(h, s, x) == (h + [Contents(h, s) + [x]], Slice(|h|, s.length + 1))
  {
    assert Contents(h, s) + [x] + seq(0, _ => "") == Contents(h, s) + [x];
  }

  /** The node after three wildcards holds a route that ends in x and a fourth, and a younger one that ends in a fourth and y. */
  ghost predicate Fourth<V>(t: Trie<V>, x: string, y: string) {
    && t.star.None? && x in t.edges && t.wildcard.Some?
    && t.edges[x].edges == map[] && t.edges[x].star.None? && t.edges[x].wildcard.Some?
    && t.edges[x].wildcard.value.extensions == map[] && t.edges[x].wildcard.value.leaf.Some?
    && y in t.wildcard.value.edges && t.wildcard.value.wildcard.None? && t.wildcard.value.star.None?
    && t.wildcard.value.edges[y].extensions == map[] && t.wildcard.value.edges[y].leaf.Some?
    && t.edges[x].wildcard.value.leaf.value.order < t.wildcard.value.edges[y].leaf.value.order
  }

  /** The array has room for a fourth expansion, which the search for the younger route overwrites. */
  lemma FourthIsOverwritten<V>(t: Trie<V>, x: string, y: string, exp: Slice, h: Heap)
    requires Fourth(t, x, y) && h != [] && IsSlice(h, exp) && exp.length < |h[exp.base]|
    ensures FindIn(t, [x, y], Contents(h, exp)) == (t.edges[x].wildcard.value.leaf, Contents(h, exp) + [y])
    ensures var r := FindFrom(t, [x, y], exp, h);
      r.leaf == t.edges[x].wildcard.value.leaf && Contents(r.heap, r.exp) == Contents(h, exp) + [x]
  {
    assert [x, y][1..] == [y] && [y][1..] == [];
    FourthOnValues(t, x, y, Contents(h, exp));
    var (h1, exp1) := Append(h, exp, y);
    FourthByEdge(t.edges[x], y, exp, h);
    FourthByWildcard(t.wildcard.value, x, y, exp, h1);
    AppendAppends(h, exp, y);
    AppendAppends(h1, exp, x);
    assert Contents(h1, exp) == Contents(h, exp);
  }

  lemma FourthOnValues<V>(t: Trie<V>, x: string, y: string, names: seq<string>)
    requires Fourth(t, x, y)
    ensures FindIn(t, [x, y], names) == (t.edges[x].wildcard.value.leaf, names + [y])
  {
    assert [x, y][1..] == [y] && [y][1..] == [];
    var c, w := t.edges[x].wildcard.value, t.wildcard.value;
    assert FindIn(c, [], names + [y]) == (c.leaf, names + [y]);
    assert FindIn(t.edges[x], [y], names) == (c.leaf, names + [y]);
    assert FindIn(w.edges[y], [], names + [x]) == (w.edges[y].leaf, names + [x]);
    assert FindIn(w, [y], names + [x]) == (w.edges[y].leaf, names + [x]);
  }

  lemma FourthByEdge<V>(t: Trie<V>, y: string, exp: Slice, h: Heap)
    requires h != [] && IsSlice(h, exp) && exp.length < |h[exp.base]|
    requires t.edges == map[] && t.star.None? && t.wildcard.Some? && t.wildcard.value.extensions == map[] && t.wildcard.value.leaf.Some?
    ensures var (h1, exp1) := Append(h, exp, y); FindFrom(t, [y], exp, h) == Search(t.wildcard.value.leaf, exp1, h1)
  {
    assert [y][1..] == [];
    var (h1, exp1) := Append(h, exp, y);
    assert FindFrom(t.wildcard.value, [], exp1, h1) == Search(t.wildcard.value.leaf, exp1, h1);
  }

  lemma FourthByWildcard<V>(t: Trie<V>, x: string, y: string, exp: Slice, h: Heap)
    requires h != [] && IsSlice(h, exp) && exp.length < |h[exp.base]|
    requires y in t.edges && t.wildcard.None? && t.star.None? && t.edges[y].extensions == map[] && t.edges[y].leaf.Some?
    ensures var (h1, exp1) := Append(h, exp, x); FindFrom(t, [y], exp1, h1) == Search(t.edges[y].leaf, exp1, h1)
  {
    assert [y][1..] == [];
    var (h1, exp1) := Append(h, exp, x);
    assert FindFrom(t.edges[y], [], exp1, h1) == Search(t.edges[y].leaf, exp1, h1);
  }

  // ----- Two runs of Add that lead there ------------------------------------------------------

  /** A node with nothing but a wildcard. */
  function OnlyWild<V>(below: Trie<V>): Trie<V> {
    Empty().(wildcard := Some(below))
  }

  function OnlyLeaf<V>(leaf: Leaf<V>): Trie<V> {
    Empty().(leaf := Some(leaf))
  }

  lemma AddNamed<V>(t: Trie<V>, order: nat, name: string, rest: seq<string>, names: seq<string>, val: V)
    ensures AddTo(t, order, [":" + name] + rest, names, val).0 == t.(wildcard := Some(AddTo(WildcardOf(t), order, rest, names + [name], val).0))
  {
    assert ([":" + name] + rest)[1..] == rest && (":" + name)[1..] == name;
  }

  lemma AddWild<V>(t: Trie<V>, order: nat, rest: seq<string>, names: seq<string>, val: V)
    ensures AddTo(t, order, [":"] + rest, names, val).0 == t.(wildcard := Some(AddTo(WildcardOf(t), order, rest, names + [""], val).0))
  {
    assert ":" + "" == ":";
    AddNamed(t, order, "", rest, names, val);
  }

  lemma AddEdge<V>(t: Trie<V>, order: nat, el: string, rest: seq<string>, names: seq<string>, val: V)
    requires el != "" && el[0] != ':' && el[0] != '*'
    ensures AddTo(t, order, [el] + rest, names, val).0 == t.(edges := t.edges[el := AddTo(EdgeOf(t, el), order, rest, names, val).0])
  {
    assert ([el] + rest)[1..] == rest;
  }

  lemma FindThrough<V>(below: Trie<V>, e: string, rest: seq<string>, exp: Slice, h: Heap)
    requires h != [] && IsSlice(h, exp)
    ensures var (h', exp') := Append(h, exp, e);
      && IsSlice(h', exp') && Contents(h', exp') == Contents(h, exp) + [e]
      && (FindFrom(below, rest, exp', h').leaf.Some? ==> FindFrom(OnlyWild(below), [e] + rest, exp, h) == FindFrom(below, rest, exp', h'))
  {
    AppendAppends(h, exp, e);
    assert ([e] + rest)[1..] == rest;
  }

  /** Below three wildcards, the array of expansions has room for one more. */
  lemma FindThroughThree<V>(t: Trie<V>, a: string, b: string, c: string, rest: seq<string>) returns (h: Heap, exp: Slice)
    ensures h != [] && IsSlice(h, exp) && Contents(h, exp) == [a, b, c] && exp.length < |h[exp.base]|
    ensures FindFrom(t, rest, exp, h).leaf.Some? ==> FindFrom(OnlyWild(OnlyWild(OnlyWild(t))), [a] + ([b] + ([c] + rest)), NIL, [[]]) == FindFrom(t, rest, exp, h)
  {
    var h1, exp1 := FullStep([[]], NIL, a);
    var h2, exp2 := FullStep(h1, exp1, b);
    var (h3, exp3) := Append(h2, exp2, c);
    h, exp := h3, exp3;
    FindThrough(t, c, rest, exp2, h2);
    FindThrough(OnlyWild(t), b, [c] + rest, exp1, h1);
    FindThrough(OnlyWild(OnlyWild(t)), a, [b] + ([c] + rest), NIL, [[]]);
    assert Contents(h, exp) == [] + [a] + [b] + [c];
  }

  lemma FullStep(h: Heap, s: Slice, x: string) returns (h': Heap, s': Slice)
    requires h != [] && IsSlice(h, s) && |h[s.base]| == s.length < 2
    ensures (h', s') == Append(h, s, x) && h' != [] && IsSlice(h', s') && s'.length == s.length + 1 == |h'[s'.base]|
    ensures Contents(h', s') == Contents(h, s) + [x]
  {
    FullAppend(h, s, x);
    h', s' := h + [Contents(h, s) + [x]], Slice(|h|, s.length + 1);
  }

  lemma FindInThrough<V>(below: Trie<V>, e: string, rest: seq<string>, exp: seq<string>)
    requires FindIn(below, rest, exp + [e]).0.Some?
    ensures FindIn(OnlyWild(below), [e] + rest, exp) == FindIn(below, rest, exp + [e])
  {
    assert ([e] + rest)[1..] == rest;
  }

  function LongNode(second: bool): Trie<int> {
    var first := Empty().(edges := map["x" := OnlyWild(OnlyLeaf(Leaf(1, ["", "", "", ""], 1)))]);
    if second then first.(wildcard := Some(Empty().(edges := map["y" := OnlyLeaf(Leaf(2, ["", "", "", ""], 2))]))) else first
  }

  /** `root` is made of wildcards, or still empty, down to `below`. */
  ghost predicate LeadsTo<V>(root: Trie<V>, n: nat, below: Trie<V>) {
    if n == 0 then root == below else root.(wildcard := None) == Empty() && LeadsTo(WildcardOf(root), n - 1, below)
  }

  function Wilds(n: nat, rest: seq<string>): seq<string> {
    if n == 0 then rest else [":"] + Wilds(n - 1, rest)
  }

  function NoNames(n: nat): seq<string> {
    seq(n, _ => "")
  }

  function Nested<V>(n: nat, below: Trie<V>): Trie<V> {
    if n == 0 then below else OnlyWild(Nested(n - 1, below))
  }

  lemma {:induction false} AddBelow<V>(root: Trie<V>, n: nat, below: Trie<V>, order: nat, rest: seq<string>, m: nat, val: V)
    requires LeadsTo(root, n, below)
    ensures AddTo(root, order, Wilds(n, rest), NoNames(m), val).0 == Nested(n, AddTo(below, order, rest, NoNames(m + n), val).0)
  {
    if n > 0 {
      AddWild(root, order, Wilds(n - 1, rest), NoNames(m), val);
      assert NoNames(m) + [""] == NoNames(m + 1);
      AddBelow(WildcardOf(root), n - 1, below, order, rest, m + 1, val);
    }
  }

  lemma AddFirst()
    ensures AddTo(Empty(), 1, Wilds(3, ["x", ":"]), [], 1).0 == Nested(3, LongNode(false))
  {
    assert NoNames(0) == [];
    AddBelow(Empty<int>(), 3, Empty<int>(), 1, ["x", ":"], 0, 1);
    AddEdge(Empty<int>(), 1, "x", [":"], NoNames(3), 1);
    AddWild(Empty<int>(), 1, [], NoNames(3), 1);
    assert NoNames(3) + [""] == ["", "", "", ""];
    assert LastExtension(["", "", "", ""]) == "";
  }

  lemma AddSecond()
    ensures AddTo(Nested(3, LongNode(false)), 2, Wilds(3, [":", "y"]), [], 2).0 == Nested(3, LongNode(true))
  {
    assert NoNames(0) == [];
    NestedLeads(3, LongNode(false));
    AddBelow(Nested(3, LongNode(false)), 3, LongNode(false), 2, [":", "y"], 0, 2);
    AddWild(LongNode(false), 2, ["y"], NoNames(3), 2);
    AddEdge(Empty<int>(), 2, "y", [], NoNames(4), 2);
    assert NoNames(3) + [""] == NoNames(4) == ["", "", "", ""];
    assert LastExtension(["", "", "", ""]) == "";
  }

  lemma {:induction false} NestedLeads<V>(n: nat, below: Trie<V>)
    ensures LeadsTo(Nested(n, below), n, below)
  {
    if n > 0 { NestedLeads(n - 1, below); }
  }

  lemma TwoAdds<V>(p: string, a: seq<string>, v: V, q: string, b: seq<string>, w: V)
    requires IsPath(p) && SplitPath(p) == a && IsPath(q) && SplitPath(q) == b
    ensures TreeAfter([(p, v), (q, w)]) == Tree(AddTo(AddTo(Empty(), 1, a, [], v).0, 2, b, [], w).0, 2)
  {
    var adds := [(p, v), (q, w)];
    assert adds[..1] == [(p, v)] && [(p, v)][..0] == [];
    assert TreeAfter([(p, v)]) == Tree(AddTo(Empty(), 1, a, [], v).0, 1);
  }

  lemma LongPaths(p: string, q: string, path: string)
    requires p == "/:/:/:/x/:" && q == "/:/:/:/:/y" && path == "/1/2/3/x/y"
    ensures SplitPath(p) == Wilds(3, ["x", ":"]) && SplitPath(q) == Wilds(3, [":", "y"])
    ensures SplitPath(path) == ["1", "2", "3", "x", "y"]
  {
    FivePath(":", ":", ":", "x", ":", p);
    FivePath(":", ":", ":", ":", "y", q);
    FivePath("1", "2", "3", "x", "y", path);
    ThreeWilds(["x", ":"]);
    ThreeWilds([":", "y"]);
  }

  lemma FivePath(a: string, b: string, c: string, d: string, e: string, path: string)
    requires '/' !in a && '/' !in b && '/' !in c && '/' !in d && '/' !in e && e != ""
    requires path == "/" + (a + "/" + b + "/" + c + "/" + d + "/" + e)
    ensures SplitPath(path) == [a, b, c, d, e]
  {
    JoinFive(a, b, c, d, e);
    PathReads([a, b, c, d, e]);
  }

  lemma ThreeWilds(rest: seq<string>)
    ensures Wilds(3, rest) == [":", ":", ":"] + rest
  {
    assert Wilds(2, rest) == [":"] + Wilds(1, rest) && Wilds(1, rest) == [":"] + rest;
  }

  lemma JoinFive(a: string, b: string, c: string, d: string, e: string)
    ensures Join([a, b, c, d, e]) == a + "/" + b + "/" + c + "/" + d + "/" + e
  {
    assert [a, b, c, d, e][1..] == [b, c, d, e] && [b, c, d, e][1..] == [c, d, e] && [c, d, e][1..] == [d, e] && [d, e][1..] == [e];
    assert Join([d, e]) == d + "/" + e;
    assert Join([c, d, e]) == c + "/" + (d + "/" + e);
    assert Join([b, c, d, e]) == b + "/" + (c + "/" + (d + "/" + e));
  }

  /** With four wildcards: "/:/:/:/x/:" serves "/1/2/3/x/y", but its last wildcard stands for "x". */
  lemma FourthIsWrong(p: string, q: string, path: string)
    requires p == "/:/:/:/x/:" && q == "/:/:/:/:/y" && path == "/1/2/3/x/y"
    ensures var tree := TreeAfter([(p, 1), (q, 2)]);
      var r := Find(tree, path);
      && PathTree.Find(tree, path) == (Some(Leaf(1, ["", "", "", ""], 1)), ["1", "2", "3", "y"])
      && r.leaf == Some(Leaf(1, ["", "", "", ""], 1)) && Contents(r.heap, r.exp) == ["1", "2", "3", "x"]
  {
    LongPaths(p, q, path);
    TwoAdds(p, Wilds(3, ["x", ":"]), 1, q, Wilds(3, [":", "y"]), 2);
    AddFirst();
    AddSecond();
    FindLong(LongNode(true), "1", "2", "3", "x", "y");
  }

  lemma FindLong<V>(t: Trie<V>, a: string, b: string, c: string, x: string, y: string)
    requires Fourth(t, x, y)
    ensures FindIn(Nested(3, t), [a, b, c, x, y], []) == (t.edges[x].wildcard.value.leaf, [a, b, c, y])
    ensures var r := FindFrom(Nested(3, t), [a, b, c, x, y], NIL, [[]]);
      r.leaf == t.edges[x].wildcard.value.leaf && Contents(r.heap, r.exp) == [a, b, c, x]
  {
    var h, exp := FindThroughThree(t, a, b, c, [x, y]);
    FourthIsOverwritten(t, x, y, exp, h);
    FindInThree(t, a, b, c, [x, y]);
    assert [a] + ([b] + ([c] + [x, y])) == [a, b, c, x, y];
    assert [a, b, c] + [x] == [a, b, c, x] && [a, b, c] + [y] == [a, b, c, y];
    ThreeNested(t);
  }

  lemma ThreeNested<V>(t: Trie<V>)
    ensures Nested(3, t) == OnlyWild(OnlyWild(OnlyWild(t)))
  {
    assert Nested(2, t) == OnlyWild(Nested(1, t)) && Nested(1, t) == OnlyWild(t);
  }

  lemma FindInThree<V>(t: Trie<V>, a: string, b: string, c: string, rest: seq<string>)
    requires FindIn(t, rest, [a, b, c]).0.Some?
    ensures FindIn(OnlyWild(OnlyWild(OnlyWild(t))), [a] + ([b] + ([c] + rest)), []) == FindIn(t, rest, [a, b, c])
  {
    assert [] + [a] == [a] && [a] + [b] == [a, b] && [a, b] + [c] == [a, b, c];
    FindInThrough(t, c, rest, [a, b]);
    FindInThrough(OnlyWild(t), b, [c] + rest, [a]);
    FindInThrough(OnlyWild(OnlyWild(t)), a, [b] + ([c] + rest), []);
  }

  // The other: "/:/:", and then "/:./a".

  function ShortTree(second: bool): Trie<int> {
    var w := OnlyWild(OnlyLeaf(Leaf(1, ["", ""], 1)));
    OnlyWild(if second then w.(edges := map["a" := Empty().(extensions := map["." := Leaf(2, [""], 2)])]) else w)
  }

  lemma AddShort()
    ensures AddTo(Empty(), 1, [":", ":"], [], 1).0 == ShortTree(false)
  {
    AddWild(Empty<int>(), 1, [":"], [], 1);
    AddWild(Empty<int>(), 1, [], [""], 1);
    assert [] + [""] == [""] && [""] + [""] == ["", ""];
    assert LastExtension(["", ""]) == "";
  }

  lemma AddDotted()
    ensures AddTo(ShortTree(false), 2, [":.", "a"], [], 2).0 == ShortTree(true)
  {
    var w := ShortTree(false).wildcard.value;
    AddNamed(ShortTree(false), 2, ".", ["a"], [], 2);
    assert ":" + "." == ":." && [] + ["."] == ["."];
    AddEdge(w, 2, "a", [], ["."], 2);
    DotIsExtension();
    assert AddTo(Empty<int>(), 2, [], ["."], 2).0 == Empty<int>().(extensions := map["." := Leaf(2, [""], 2)]);
  }

  lemma DotIsExtension()
    ensures Extension(".") == "." && WithoutExtension(".") == "" && StripLast(["."]) == [""] && Extension("a") == ""
  {
  }

  lemma ShortPaths(p: string, q: string, path: string)
    requires p == "/:/:" && q == "/:./a" && path == "/./a"
    ensures SplitPath(p) == [":", ":"] && SplitPath(q) == [":.", "a"] && SplitPath(path) == [".", "a"]
  {
    TwoPath(":", ":", p);
    TwoPath(":.", "a", q);
    TwoPath(".", "a", path);
  }

  lemma TwoPath(a: string, b: string, path: string)
    requires '/' !in a && '/' !in b && b != "" && path == "/" + (a + "/" + b)
    ensures SplitPath(path) == [a, b]
  {
    assert [a, b][1..] == [b];
    PathReads([a, b]);
  }

  /** With an extension before the end: "/:/:" serves "/./a", but its first wildcard stands for "". */
  lemma ExtensionIsWrong(p: string, q: string, path: string)
    requires p == "/:/:" && q == "/:./a" && path == "/./a"
    ensures var tree := TreeAfter([(p, 1), (q, 2)]);
      var r := Find(tree, path);
      && PathTree.Find(tree, path) == (Some(Leaf(1, ["", ""], 1)), [".", "a"])
      && r.leaf == Some(Leaf(1, ["", ""], 1)) && Contents(r.heap, r.exp) == ["", "a"]
  {
    ShortPaths(p, q, path);
    TwoAdds(p, [":", ":"], 1, q, [":.", "a"], 2);
    AddShort();
    AddDotted();
    DotIsExtension();
    ExtensionIsLost(ShortTree(true), ".", "a");
  }
}
