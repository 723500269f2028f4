/**
 The route trie of package pathtree: an index from '/'-separated patterns to leaves.

 A pattern element ':x' matches any one path element and '*x' the whole non-empty rest.
 If the last wildcard's name contains a '.', the part from the last dot on is the pattern's
 extension, which the last expansion must carry.

 `Trie` is the value of a node and everything below it.  Its meaning is `Lookup`: which leaf is
 stored under which key.  The main results say that `Add` changes `Lookup` at one key at most
 and that `Find` agrees with a scan of the accepted patterns in the order they were added.
 */
module PathTree {
  import opened Basics

  datatype Leaf<V> = Leaf(value: V, wildcards: seq<string>, order: nat)

  datatype Trie<V> = Trie(
    edges: map<string, Trie<V>>,
    wildcard: Option<Trie<V>>,
    leaf: Option<Leaf<V>>,
    extensions: map<string, Leaf<V>>,
    star: Option<Leaf<V>>)

  function Empty<V>(): Trie<V> {
    Trie(map[], None, None, map[], None)
  }

  // ----- Path elements and extensions -----------------------------------------------

  /** strings.Split(key, "/") */
  function Split(key: string): (r: seq<string>)
    ensures |r| >= 1
  {
    if key == "" then [""]
    else
      var rest := Split(key[1..]);
      if key[0] == '/' then [""] + rest else [[key[0]] + rest[0]] + rest[1..]
  }

  function SplitPath(key: string): seq<string> {
    WithoutEnds(Split(key))
  }

  /** Drops an empty first element, and then an empty last one. */
  function WithoutEnds(elements: seq<string>): seq<string>
    requires elements != []
  {
    var tail := if elements[0] == "" then elements[1..] else elements;
    if tail != [] && tail[|tail| - 1] == "" then tail[..|tail| - 1] else tail
  }

  /** strings.LastIndex(s, ".") */
  function LastDot(s: string): (p: int)
    ensures -1 <= p < |s|
  {
    if s == "" then -1 else if s[|s| - 1] == '.' then |s| - 1 else LastDot(s[..|s| - 1])
  }

  /** The extension of a path element, with its dot; empty if there is none. */
  function Extension(s: string): string {
    if LastDot(s) < 0 then "" else s[LastDot(s)..]
  }

  function WithoutExtension(s: string): string {
    if LastDot(s) < 0 then s else s[..LastDot(s)]
  }

  /** The extension of the last of several names; empty if there are no names. */
  function LastExtension(names: seq<string>): string {
    if names == [] then "" else Extension(names[|names| - 1])
  }

  function StripLast(names: seq<string>): (r: seq<string>)
    ensures |r| == |names|
  {
    if names == [] then [] else names[..|names| - 1] + [WithoutExtension(names[|names| - 1])]
  }

  // ----- Keys: what makes two patterns duplicates -------------------------------------

  /** A pattern without the names of its wildcards. */
  datatype Shape = End | Star | Wild(rest: Shape) | Lit(name: string, rest: Shape)

  datatype Key = Key(shape: Shape, ext: string)

  /** The shape of a pattern; None if an empty element comes before any star. */
  function ShapeOf(elements: seq<string>): Option<Shape> {
    if elements == [] then Some(End)
    else if elements[0] == "" then None
    else if elements[0][0] == '*' then Some(Star)
    else match ShapeOf(elements[1..])
      case None => None
      case Some(rest) => Some(if elements[0][0] == ':' then Wild(rest) else Lit(elements[0], rest))
  }

  /** The wildcard names of a pattern; nothing after a star counts. */
  function Names(elements: seq<string>): seq<string> {
    if elements == [] || elements[0] == "" then []
    else if elements[0][0] == '*' then [elements[0][1..]]
    else if elements[0][0] == ':' then [elements[0][1..]] + Names(elements[1..])
    else Names(elements[1..])
  }

  predicate EndsInStar(shape: Shape) {
    match shape
    case End => false
    case Star => true
    case Wild(rest) => EndsInStar(rest)
    case Lit(_, rest) => EndsInStar(rest)
  }

  /** A star's name keeps its dots: only other patterns have extensions. */
  function KeyExtension(shape: Shape, names: seq<string>): string {
    if EndsInStar(shape) then "" else LastExtension(names)
  }

  function LeafNames(shape: Shape, names: seq<string>): (r: seq<string>)
    ensures |r| == |names|
  {
    if KeyExtension(shape, names) == "" then names else StripLast(names)
  }

  function Lookup<V>(t: Trie<V>, shape: Shape, ext: string): Option<Leaf<V>>
    decreases shape
  {
    match shape
    case End => if ext == "" then t.leaf else if ext in t.extensions then Some(t.extensions[ext]) else None
    case Star => if ext == "" then t.star else None
    case Wild(rest) => Lookup(WildcardOf(t), rest, ext)
    case Lit(name, rest) => Lookup(EdgeOf(t, name), rest, ext)
  }

  lemma {:induction false} LookupEmpty<V>(shape: Shape, ext: string)
    ensures Lookup(Empty<V>(), shape, ext) == None
  {
    match shape
    case End =>
    case Star =>
    case Wild(rest) => LookupEmpty<V>(rest, ext);
    case Lit(_, rest) => LookupEmpty<V>(rest, ext);
  }

  // ----- Adding ----------------------------------------------------------------------

  function AddLeaf<V>(t: Trie<V>, leaf: Leaf<V>): (Trie<V>, bool) {
    var ext := LastExtension(leaf.wildcards);
    if ext != "" then
      if ext in t.extensions then (t, false)
      else (t.(extensions := t.extensions[ext := leaf.(wildcards := StripLast(leaf.wildcards))]), true)
    else if t.leaf.Some? then (t, false)
    else (t.(leaf := Some(leaf)), true)
  }

  /** The value of `n.add`: nodes made on the way to a failure stay, but hold no leaf. */
  function AddTo<V>(t: Trie<V>, order: nat, elements: seq<string>, names: seq<string>, val: V): (Trie<V>, bool)
    decreases |elements|
  {
    if elements == [] then AddLeaf(t, Leaf(val, names, order))
    else
      var el := elements[0];
      if el == "" then (t, false)
      else if el[0] == ':' then
        var (child, ok) := AddTo(WildcardOf(t), order, elements[1..], names + [el[1..]], val);
        (t.(wildcard := Some(child)), ok)
      else if el[0] == '*' then
        if t.star.Some? then (t, false)
        else (t.(star := Some(Leaf(val, names + [el[1..]], order))), true)
      else
        var (child, ok) := AddTo(EdgeOf(t, el), order, elements[1..], names, val);
        (t.(edges := t.edges[el := child]), ok)
  }

  function WildcardOf<V>(t: Trie<V>): Trie<V> {
    if t.wildcard.Some? then t.wildcard.value else Empty()
  }

  function EdgeOf<V>(t: Trie<V>, el: string): Trie<V> {
    if el in t.edges then t.edges[el] else Empty()
  }

  /** What adding a pattern with key (own, ownExt) may do to the leaf stored under any key. */
  ghost predicate OneKeyChanged<V>(t: Trie<V>, t': Trie<V>, ok: bool, own: Shape, ownExt: string, leaf: Leaf<V>,
                                   shape: Shape, ext: string) {
    && (ok <==> Lookup(t, own, ownExt) == None)
    && Lookup(t', shape, ext) == if ok && shape == own && ext == ownExt then Some(leaf) else Lookup(t, shape, ext)
  }

  lemma ChangeBelowWildcard<V>(t: Trie<V>, child: Trie<V>, ok: bool, own: Shape, ownExt: string, leaf: Leaf<V>,
                               shape: Shape, ext: string)
    requires OneKeyChanged(WildcardOf(t), child, ok, own, ownExt, leaf, if shape.Wild? then shape.rest else shape, ext)
    ensures OneKeyChanged(t, t.(wildcard := Some(child)), ok, Wild(own), ownExt, leaf, shape, ext)
  {
  }

  lemma ChangeBelowEdge<V>(t: Trie<V>, el: string, child: Trie<V>, ok: bool, own: Shape, ownExt: string, leaf: Leaf<V>,
                           shape: Shape, ext: string)
    requires OneKeyChanged(EdgeOf(t, el), child, ok, own, ownExt, leaf, if shape.Lit? then shape.rest else shape, ext)
    ensures OneKeyChanged(t, t.(edges := t.edges[el := child]), ok, Lit(el, own), ownExt, leaf, shape, ext)
  {
  }

  /** `add` succeeds iff the pattern is well formed and its key is free; it changes that key only. */
  lemma {:induction false} AddChangesOneKey<V>(t: Trie<V>, order: nat, elements: seq<string>, names: seq<string>, val: V,
                                               shape: Shape, ext: string)
    requires ShapeOf(elements).Some?
    ensures var (t', ok) := AddTo(t, order, elements, names, val);
      var own, all := ShapeOf(elements).value, names + Names(elements);
      OneKeyChanged(t, t', ok, own, KeyExtension(own, all), Leaf(val, LeafNames(own, all), order), shape, ext)
    decreases |elements|
  {
    if elements == [] {
      assert names + [] == names;
    } else {
      var el, rest := elements[0], elements[1..];
      var own, all := ShapeOf(elements).value, names + Names(elements);
      var leaf := Leaf(val, LeafNames(own, all), order);
      if el[0] == ':' {
        var names' := names + [el[1..]];
        assert names' + Names(rest) == all;
        AddChangesOneKey(WildcardOf(t), order, rest, names', val, if shape.Wild? then shape.rest else shape, ext);
        var (child, ok) := AddTo(WildcardOf(t), order, rest, names', val);
        ChangeBelowWildcard(t, child, ok, own.rest, KeyExtension(own, all), leaf, shape, ext);
      } else if el[0] == '*' {
        assert names + [el[1..]] == all;
      } else {
        assert names + Names(rest) == all;
        AddChangesOneKey(EdgeOf(t, el), order, rest, names, val, if shape.Lit? then shape.rest else shape, ext);
        var (child, ok) := AddTo(EdgeOf(t, el), order, rest, names, val);
        ChangeBelowEdge(t, el, child, ok, own.rest, KeyExtension(own, all), leaf, shape, ext);
      }
    }
  }

  /** A malformed pattern is refused, and nothing stored changes. */
  lemma {:induction false} AddMalformed<V>(t: Trie<V>, order: nat, elements: seq<string>, names: seq<string>, val: V,
                                           shape: Shape, ext: string)
    requires ShapeOf(elements).None?
    ensures var (t', ok) := AddTo(t, order, elements, names, val);
      !ok && Lookup(t', shape, ext) == Lookup(t, shape, ext)
    decreases |elements|
  {
    if elements[0] != "" {
      var el, rest := elements[0], elements[1..];
      if el[0] == ':' {
        AddMalformed(WildcardOf(t), order, rest, names + [el[1..]], val, if shape.Wild? then shape.rest else shape, ext);
      } else {
        AddMalformed(EdgeOf(t, el), order, rest, names, val, if shape.Lit? then shape.rest else shape, ext);
      }
    }
  }

  // ----- Finding ---------------------------------------------------------------------

  /** strings.Join(elements, "/") */
  function Join(elements: seq<string>): string {
    if elements == [] then "" else if |elements| == 1 then elements[0]
    else elements[0] + "/" + Join(elements[1..])
  }

  type Found<V> = (Option<Leaf<V>>, seq<string>)

  /** The second result wins if it has a leaf that is older than the first's. */
  function Older<V>(a: Found<V>, b: Found<V>): Found<V> {
    if b.0.Some? && (a.0.None? || a.0.value.order > b.0.value.order) then b else a
  }

  /** The value of `n.find`. */
  function FindIn<V>(t: Trie<V>, elements: seq<string>, exp: seq<string>): Found<V>
    decreases |elements|
  {
    if elements == [] then
      var ext := LastExtension(exp);
      if ext != "" && ext in t.extensions then (Some(t.extensions[ext]), StripLast(exp)) else (t.leaf, exp)
    else
      var el, rest := elements[0], elements[1..];
      var byEdge: Found<V> := if el in t.edges then FindIn(t.edges[el], rest, exp) else (None, []);
      var byWildcard: Found<V> := if t.wildcard.Some? then FindIn(t.wildcard.value, rest, exp + [el]) else (None, []);
      Older(Older(byEdge, byWildcard), (t.star, exp + [Join(elements)]))
  }

  predicate Matches(shape: Shape, elements: seq<string>) {
    match shape
    case End => elements == []
    case Star => elements != []
    case Wild(rest) => elements != [] && Matches(rest, elements[1..])
    case Lit(name, rest) => elements != [] && elements[0] == name && Matches(rest, elements[1..])
  }

  /** What the wildcards of a matching shape stand for. */
  function Expansions(shape: Shape, elements: seq<string>): seq<string>
    requires Matches(shape, elements)
  {
    match shape
    case End => []
    case Star => [Join(elements)]
    case Wild(rest) => [elements[0]] + Expansions(rest, elements[1..])
    case Lit(_, rest) => Expansions(rest, elements[1..])
  }

  /** The leaf that serves a path at a matching shape: an extension leaf hides the plain one. */
  function Served<V>(t: Trie<V>, shape: Shape, elements: seq<string>, exp: seq<string>): Option<Leaf<V>>
    requires Matches(shape, elements)
  {
    var ext := KeyExtension(shape, exp + Expansions(shape, elements));
    if ext != "" && Lookup(t, shape, ext).Some? then Lookup(t, shape, ext) else Lookup(t, shape, "")
  }

  /** What its wildcards stand for then, without the extension if that was asked for. */
  function ServedExpansions<V>(t: Trie<V>, shape: Shape, elements: seq<string>, exp: seq<string>): seq<string>
    requires Matches(shape, elements)
  {
    var all := exp + Expansions(shape, elements);
    var ext := KeyExtension(shape, all);
    if ext != "" && Lookup(t, shape, ext).Some? then StripLast(all) else all
  }

  lemma ServedBelow<V>(t: Trie<V>, shape: Shape, elements: seq<string>, exp: seq<string>)
    requires Matches(shape, elements)
    ensures match shape
      case Wild(rest) =>
        && Served(t, shape, elements, exp) == Served(WildcardOf(t), rest, elements[1..], exp + [elements[0]])
        && ServedExpansions(t, shape, elements, exp) == ServedExpansions(WildcardOf(t), rest, elements[1..], exp + [elements[0]])
      case Lit(name, rest) =>
        && Served(t, shape, elements, exp) == Served(EdgeOf(t, name), rest, elements[1..], exp)
        && ServedExpansions(t, shape, elements, exp) == ServedExpansions(EdgeOf(t, name), rest, elements[1..], exp)
      case End => true
      case Star => true
  {
    if shape.Wild? {
      assert exp + [elements[0]] + Expansions(shape.rest, elements[1..]) == exp + Expansions(shape, elements);
    }
  }

  lemma ServedByEmpty<V>(shape: Shape, elements: seq<string>, exp: seq<string>)
    requires Matches(shape, elements)
    ensures Served(Empty<V>(), shape, elements, exp) == None
  {
    LookupEmpty<V>(shape, "");
    LookupEmpty<V>(shape, KeyExtension(shape, exp + Expansions(shape, elements)));
  }

  /** No matching shape serves an older leaf than the one found. */
  lemma {:induction false} FindIsOldest<V>(t: Trie<V>, elements: seq<string>, exp: seq<string>, shape: Shape)
    requires Matches(shape, elements) && Served(t, shape, elements, exp).Some?
    ensures var found := FindIn(t, elements, exp).0;
      found.Some? && found.value.order <= Served(t, shape, elements, exp).value.order
    decreases |elements|
  {
    match shape {
      case End => assert exp + [] == exp;
      case Star =>
      case Wild(rest) =>
        ServedBelow(t, shape, elements, exp);
        if t.wildcard.None? { ServedByEmpty<V>(rest, elements[1..], exp + [elements[0]]); }
        FindIsOldest(WildcardOf(t), elements[1..], exp + [elements[0]], rest);
      case Lit(name, rest) =>
        ServedBelow(t, shape, elements, exp);
        if name !in t.edges { ServedByEmpty<V>(rest, elements[1..], exp); }
        FindIsOldest(EdgeOf(t, name), elements[1..], exp, rest);
    }
  }

  /** The leaf found is served by a matching shape, with what the wildcards stand for. */
  lemma {:induction false} FindIsServed<V>(t: Trie<V>, elements: seq<string>, exp: seq<string>) returns (shape: Shape)
    requires FindIn(t, elements, exp).0.Some?
    ensures Matches(shape, elements) && Served(t, shape, elements, exp) == FindIn(t, elements, exp).0
    ensures FindIn(t, elements, exp).1 == ServedExpansions(t, shape, elements, exp)
    decreases |elements|
  {
    if elements == [] {
      shape := End;
      assert exp + [] == exp;
    } else {
      var el, rest := elements[0], elements[1..];
      var found := FindIn(t, elements, exp);
      if el in t.edges && found == FindIn(t.edges[el], rest, exp) {
        shape := FindIsServed(t.edges[el], rest, exp);
        shape := Lit(el, shape);
        ServedBelow(t, shape, elements, exp);
      } else if t.wildcard.Some? && found == FindIn(t.wildcard.value, rest, exp + [el]) {
        shape := FindIsServed(t.wildcard.value, rest, exp + [el]);
        shape := Wild(shape);
        ServedBelow(t, shape, elements, exp);
      } else {
        shape := Star;
      }
    }
  }

  // ----- The reference: a list of routes, scanned in order ------------------------------

  datatype Route<V> = Route(key: Key, leaf: Leaf<V>)

  function StoredUnder<V>(routes: seq<Route<V>>, key: Key): Option<Leaf<V>> {
    if routes == [] then None
    else if routes[0].key == key then Some(routes[0].leaf)
    else StoredUnder(routes[1..], key)
  }

  predicate IsPath(path: string) {
    path != "" && path[0] == '/'
  }

  /** Add to the list: refused if the pattern is malformed or its key is taken. */
  function Accept<V>(routes: seq<Route<V>>, order: nat, path: string, val: V): seq<Route<V>> {
    if !IsPath(path) then routes
    else
      var elements := SplitPath(path);
      match ShapeOf(elements)
      case None => routes
      case Some(shape) =>
        var key := Key(shape, KeyExtension(shape, Names(elements)));
        if StoredUnder(routes, key).Some? then routes
        else routes + [Route(key, Leaf(val, LeafNames(shape, Names(elements)), order))]
  }

  /** An extension route of the same shape that the path asks for. */
  ghost predicate Hidden<V>(routes: seq<Route<V>>, shape: Shape, elements: seq<string>)
    requires Matches(shape, elements)
  {
    var ext := KeyExtension(shape, Expansions(shape, elements));
    ext != "" && StoredUnder(routes, Key(shape, ext)).Some?
  }

  /** A route serves a path it matches, unless it is plain and an extension route hides it. */
  ghost predicate Serves<V>(routes: seq<Route<V>>, route: Route<V>, elements: seq<string>) {
    var shape := route.key.shape;
    Matches(shape, elements) &&
    if route.key.ext != "" then KeyExtension(shape, Expansions(shape, elements)) == route.key.ext
    else !Hidden(routes, shape, elements)
  }

  /** What the wildcards of a route stand for. */
  function RouteExpansions<V>(route: Route<V>, elements: seq<string>): seq<string>
    requires Matches(route.key.shape, elements)
  {
    var exp := Expansions(route.key.shape, elements);
    if route.key.ext != "" then StripLast(exp) else exp
  }

  /** The first route, from the i-th on, that serves the path: its leaf and what its wildcards stand for. */
  ghost function Scan<V>(routes: seq<Route<V>>, i: nat, elements: seq<string>): Found<V>
    requires i <= |routes|
    decreases |routes| - i
  {
    if i == |routes| then (None, [])
    else if Serves(routes, routes[i], elements) then (Some(routes[i].leaf), RouteExpansions(routes[i], elements))
    else Scan(routes, i + 1, elements)
  }

  // ----- Runs ------------------------------------------------------------------------

  datatype Tree<V> = Tree(root: Trie<V>, leafs: nat)

  function Add<V>(tree: Tree<V>, path: string, val: V): (Tree<V>, bool) {
    if !IsPath(path) then (tree, false)
    else
      var (root, ok) := AddTo(tree.root, tree.leafs + 1, SplitPath(path), [], val);
      (Tree(root, tree.leafs + 1), ok)
  }

  function Find<V>(tree: Tree<V>, path: string): Found<V> {
    if !IsPath(path) then (None, []) else FindIn(tree.root, SplitPath(path), [])
  }

  /** The tree after a run of `Add` calls, failed ones included. */
  function TreeAfter<V>(adds: seq<(string, V)>): Tree<V> {
    if adds == [] then Tree(Empty(), 0)
    else
      var (path, val) := adds[|adds| - 1];
      Add(TreeAfter(adds[..|adds| - 1]), path, val).0
  }

  /** The routes accepted in that run; the order numbers count all calls with a proper path. */
  function RoutesAfter<V>(adds: seq<(string, V)>): seq<Route<V>> {
    if adds == [] then []
    else
      var before := adds[..|adds| - 1];
      var (path, val) := adds[|adds| - 1];
      Accept(RoutesAfter(before), TreeAfter(before).leafs + 1, path, val)
  }

  function NumWildcards(shape: Shape): nat {
    match shape
    case End => 0
    case Star => 1
    case Wild(rest) => 1 + NumWildcards(rest)
    case Lit(_, rest) => NumWildcards(rest)
  }

  lemma {:induction false} ExpansionCount(shape: Shape, elements: seq<string>)
    requires Matches(shape, elements)
    ensures |Expansions(shape, elements)| == NumWildcards(shape)
    decreases shape
  {
    if shape.Wild? || shape.Lit? {
      ExpansionCount(shape.rest, elements[1..]);
    }
  }

  lemma {:induction false} NameCount(elements: seq<string>)
    requires ShapeOf(elements).Some?
    ensures |Names(elements)| == NumWildcards(ShapeOf(elements).value)
  {
    if elements != [] && elements[0][0] != '*' {
      NameCount(elements[1..]);
    }
  }

  ghost predicate WellOrdered<V>(routes: seq<Route<V>>, last: nat) {
    && (forall j :: 0 <= j < |routes| ==>
          routes[j].leaf.order <= last && |routes[j].leaf.wildcards| == NumWildcards(routes[j].key.shape))
    && (forall i, j :: 0 <= i < j < |routes| ==>
          routes[i].leaf.order < routes[j].leaf.order && routes[i].key != routes[j].key)
  }

  /** The trie stores exactly the routes of the list. */
  ghost predicate Represents<V>(t: Trie<V>, routes: seq<Route<V>>) {
    forall shape, ext :: Lookup(t, shape, ext) == StoredUnder(routes, Key(shape, ext))
  }

  lemma {:induction false} StoredAppend<V>(routes: seq<Route<V>>, route: Route<V>, key: Key)
    ensures StoredUnder(routes + [route], key) ==
      if StoredUnder(routes, key).Some? then StoredUnder(routes, key)
      else if route.key == key then Some(route.leaf) else None
  {
    if routes != [] {
      StoredAppend(routes[1..], route, key);
      assert (routes + [route])[1..] == routes[1..] + [route];
    }
  }

  lemma {:induction false} StoredAt<V>(routes: seq<Route<V>>, key: Key) returns (j: nat)
    requires StoredUnder(routes, key).Some?
    ensures j < |routes| && routes[j].key == key && StoredUnder(routes, key) == Some(routes[j].leaf)
  {
    if routes[0].key == key {
      j := 0;
    } else {
      j := StoredAt(routes[1..], key);
      j := j + 1;
    }
  }

  lemma {:induction false} StoredMember<V>(routes: seq<Route<V>>, j: nat)
    requires j < |routes| && forall i, k :: 0 <= i < k < |routes| ==> routes[i].key != routes[k].key
    ensures StoredUnder(routes, routes[j].key) == Some(routes[j].leaf)
  {
    if j > 0 {
      StoredMember(routes[1..], j - 1);
    }
  }

  lemma EmptyRepresents<V>()
    ensures Represents(Empty<V>(), [])
  {
    forall shape, ext ensures Lookup(Empty<V>(), shape, ext) == None { LookupEmpty<V>(shape, ext); }
  }

  ghost predicate Agree<V>(tree: Tree<V>, routes: seq<Route<V>>) {
    Represents(tree.root, routes) && WellOrdered(routes, tree.leafs)
  }

  /** Every run keeps trie and list in agreement. */
  lemma {:induction false} RunRepresents<V>(adds: seq<(string, V)>)
    ensures Agree(TreeAfter(adds), RoutesAfter(adds))
  {
    if adds == [] {
      EmptyRepresents<V>();
    } else {
      var before := adds[..|adds| - 1];
      var (path, val) := adds[|adds| - 1];
      RunRepresents(before);
      LastAdd(adds);
      AddRepresents(TreeAfter(before), RoutesAfter(before), path, val);
    }
  }

  lemma LastAdd<V>(adds: seq<(string, V)>)
    requires adds != []
    ensures var before := adds[..|adds| - 1];
      var (path, val) := adds[|adds| - 1];
      && TreeAfter(adds) == Add(TreeAfter(before), path, val).0
      && RoutesAfter(adds) == Accept(RoutesAfter(before), TreeAfter(before).leafs + 1, path, val)
  {
  }

  lemma RunIsOrdered<V>(adds: seq<(string, V)>)
    ensures WellOrdered(RoutesAfter(adds), TreeAfter(adds).leafs)
  {
    RunRepresents(adds);
  }

  lemma AddRepresents<V>(tree: Tree<V>, routes: seq<Route<V>>, path: string, val: V)
    requires Agree(tree, routes)
    ensures var (tree', ok) := Add(tree, path, val);
      var routes' := Accept(routes, tree.leafs + 1, path, val);
      Agree(tree', routes') && (ok <==> routes' != routes)
  {
    if IsPath(path) {
      var elements := SplitPath(path);
      var (tree', ok) := Add(tree, path, val);
      var routes' := Accept(routes, tree.leafs + 1, path, val);
      if ShapeOf(elements).Some? { NameCount(elements); }
      forall shape, ext ensures Lookup(tree'.root, shape, ext) == StoredUnder(routes', Key(shape, ext)) {
        AddLookup(tree, routes, path, val, shape, ext);
      }
      AddLookup(tree, routes, path, val, End, "");
      if ok {
        KeyIsNew(routes, routes'[|routes|].key);
      }
    }
  }

  lemma AddLookup<V>(tree: Tree<V>, routes: seq<Route<V>>, path: string, val: V, shape: Shape, ext: string)
    requires Represents(tree.root, routes) && IsPath(path)
    ensures var (tree', ok) := Add(tree, path, val);
      var routes' := Accept(routes, tree.leafs + 1, path, val);
      && Lookup(tree'.root, shape, ext) == StoredUnder(routes', Key(shape, ext))
      && |routes'| == |routes| + (if ok then 1 else 0)
  {
    var elements := SplitPath(path);
    assert [] + Names(elements) == Names(elements);
    if ShapeOf(elements).None? {
      AddMalformed(tree.root, tree.leafs + 1, elements, [], val, shape, ext);
    } else {
      AddChangesOneKey(tree.root, tree.leafs + 1, elements, [], val, shape, ext);
      var own := ShapeOf(elements).value;
      var ownExt := KeyExtension(own, Names(elements));
      assert Lookup(tree.root, own, ownExt) == StoredUnder(routes, Key(own, ownExt));
      StoredAppend(routes, Route(Key(own, ownExt), Leaf(val, LeafNames(own, Names(elements)), tree.leafs + 1)), Key(shape, ext));
    }
    assert Lookup(tree.root, shape, ext) == StoredUnder(routes, Key(shape, ext));
  }

  lemma {:induction false} KeyIsNew<V>(routes: seq<Route<V>>, key: Key)
    requires StoredUnder(routes, key).None?
    ensures forall j :: 0 <= j < |routes| ==> routes[j].key != key
  {
    if routes != [] {
      KeyIsNew(routes[1..], key);
      assert forall j :: 0 < j < |routes| ==> routes[j] == routes[1..][j - 1];
    }
  }

  // ----- The main theorem --------------------------------------------------------------

  /** At a matching shape, the leaf served is that of a serving route of the list. */
  lemma ServedIsRoute<V>(t: Trie<V>, routes: seq<Route<V>>, shape: Shape, elements: seq<string>) returns (j: nat)
    requires Represents(t, routes) && Matches(shape, elements) && Served(t, shape, elements, []).Some?
    ensures j < |routes| && routes[j].key.shape == shape && Serves(routes, routes[j], elements)
    ensures Served(t, shape, elements, []) == Some(routes[j].leaf)
    ensures ServedExpansions(t, shape, elements, []) == RouteExpansions(routes[j], elements)
  {
    var ext := KeyExtension(shape, Expansions(shape, elements));
    assert [] + Expansions(shape, elements) == Expansions(shape, elements);
    assert Lookup(t, shape, ext) == StoredUnder(routes, Key(shape, ext));
    assert Lookup(t, shape, "") == StoredUnder(routes, Key(shape, ""));
    j := StoredAt(routes, Key(shape, if ext != "" && Lookup(t, shape, ext).Some? then ext else ""));
  }

  lemma RouteIsServed<V>(t: Trie<V>, routes: seq<Route<V>>, last: nat, elements: seq<string>, j: nat)
    requires Represents(t, routes) && WellOrdered(routes, last)
    requires j < |routes| && Serves(routes, routes[j], elements)
    ensures Served(t, routes[j].key.shape, elements, []) == Some(routes[j].leaf)
  {
    var shape := routes[j].key.shape;
    var ext := KeyExtension(shape, Expansions(shape, elements));
    assert [] + Expansions(shape, elements) == Expansions(shape, elements);
    StoredMember(routes, j);
    assert Lookup(t, shape, ext) == StoredUnder(routes, Key(shape, ext));
    assert Lookup(t, shape, routes[j].key.ext) == StoredUnder(routes, routes[j].key);
  }

  lemma {:induction false} ScanFinds<V>(routes: seq<Route<V>>, i: nat, k: nat, elements: seq<string>)
    requires i <= k < |routes| && Serves(routes, routes[k], elements)
    requires forall j :: i <= j < k ==> !Serves(routes, routes[j], elements)
    ensures Scan(routes, i, elements) == (Some(routes[k].leaf), RouteExpansions(routes[k], elements))
    decreases k - i
  {
    if i < k {
      ScanFinds(routes, i + 1, k, elements);
    }
  }

  lemma {:induction false} ScanFindsNone<V>(routes: seq<Route<V>>, i: nat, elements: seq<string>)
    requires i <= |routes| && forall j :: i <= j < |routes| ==> !Serves(routes, routes[j], elements)
    ensures Scan(routes, i, elements).0 == None
    decreases |routes| - i
  {
    if i < |routes| {
      ScanFindsNone(routes, i + 1, elements);
    }
  }

  /**
   After any run of `Add` calls, `Find` returns the leaf of the earliest accepted route that
   serves the path, with what its wildcards stand for, one string for each name, and nothing
   iff no route serves it.
   */
  lemma FindAgreesWithScan<V>(adds: seq<(string, V)>, path: string)
    requires IsPath(path)
    ensures var (leaf, expansions) := Find(TreeAfter(adds), path);
      && leaf == Scan(RoutesAfter(adds), 0, SplitPath(path)).0
      && (leaf.Some? ==> expansions == Scan(RoutesAfter(adds), 0, SplitPath(path)).1 && |expansions| == |leaf.value.wildcards|)
  {
    var t, routes, elements := TreeAfter(adds).root, RoutesAfter(adds), SplitPath(path);
    var last := TreeAfter(adds).leafs;
    RunRepresents(adds);
    if FindIn(t, elements, []).0.Some? {
      var shape := FindIsServed(t, elements, []);
      var k := ServedIsRoute(t, routes, shape, elements);
      ExpansionCount(shape, elements);
      forall j | 0 <= j < k ensures !Serves(routes, routes[j], elements) {
        if Serves(routes, routes[j], elements) {
          RouteIsServed(t, routes, last, elements, j);
          FindIsOldest(t, elements, [], routes[j].key.shape);
        }
      }
      ScanFinds(routes, 0, k, elements);
    } else {
      forall j | 0 <= j < |routes| ensures !Serves(routes, routes[j], elements) {
        if Serves(routes, routes[j], elements) {
          RouteIsServed(t, routes, last, elements, j);
          FindIsOldest(t, elements, [], routes[j].key.shape);
        }
      }
      ScanFindsNone(routes, 0, elements);
    }
  }

  /** Without extension routes, serving is matching: the earliest-added match is found. */
  lemma PlainRoutesServeAllTheyMatch<V>(adds: seq<(string, V)>, route: Route<V>, elements: seq<string>)
    requires forall j :: 0 <= j < |RoutesAfter(adds)| ==> RoutesAfter(adds)[j].key.ext == ""
    requires route in RoutesAfter(adds)
    ensures Serves(RoutesAfter(adds), route, elements) <==> Matches(route.key.shape, elements)
  {
    var routes := RoutesAfter(adds);
    if Matches(route.key.shape, elements) && Hidden(routes, route.key.shape, elements) {
      var j := StoredAt(routes, Key(route.key.shape, KeyExtension(route.key.shape, Expansions(route.key.shape, elements))));
      assert false;
    }
  }

  /** A failed `Add` changes no lookup, whatever nodes it made on the way. */
  lemma FailedAddChangesNothing<V>(adds: seq<(string, V)>, path: string, val: V, other: string)
    requires !Add(TreeAfter(adds), path, val).1 && IsPath(other)
    ensures var before, after := Find(TreeAfter(adds), other), Find(TreeAfter(adds + [(path, val)]), other);
      after.0 == before.0 && (before.0.Some? ==> after.1 == before.1)
  {
    var more := adds + [(path, val)];
    assert more[..|more| - 1] == adds;
    RunRepresents(adds);
    AddRepresents(TreeAfter(adds), RoutesAfter(adds), path, val);
    FindAgreesWithScan(adds, other);
    FindAgreesWithScan(more, other);
  }

  /** The route's own test of a path, without regard to other routes. */
  ghost predicate Fits<V>(route: Route<V>, elements: seq<string>) {
    var shape := route.key.shape;
    Matches(shape, elements) &&
    (route.key.ext != "" ==> KeyExtension(shape, Expansions(shape, elements)) == route.key.ext)
  }

  /**
   Order alone does not decide.  The earliest route that fits a path is the one found exactly
   when it has an extension itself or no extension route of its shape is asked for.
   */
  lemma EarliestFitIsFoundIffNotHidden<V>(adds: seq<(string, V)>, path: string, k: nat)
    requires IsPath(path) && k < |RoutesAfter(adds)|
    requires Fits(RoutesAfter(adds)[k], SplitPath(path))
    requires forall j :: 0 <= j < k ==> !Fits(RoutesAfter(adds)[j], SplitPath(path))
    ensures var routes := RoutesAfter(adds);
      Find(TreeAfter(adds), path).0 == Some(routes[k].leaf) <==>
      routes[k].key.ext != "" || !Hidden(routes, routes[k].key.shape, SplitPath(path))
  {
    RunIsOrdered(adds);
    FindAgreesWithScan(adds, path);
    ScanIffNotHidden(RoutesAfter(adds), TreeAfter(adds).leafs, SplitPath(path), k);
  }

  lemma ScanIffNotHidden<V>(routes: seq<Route<V>>, last: nat, elements: seq<string>, k: nat)
    requires WellOrdered(routes, last) && k < |routes| && Fits(routes[k], elements)
    requires forall j :: 0 <= j < k ==> !Fits(routes[j], elements)
    ensures Scan(routes, 0, elements).0 == Some(routes[k].leaf) <==>
      routes[k].key.ext != "" || !Hidden(routes, routes[k].key.shape, elements)
  {
    if Serves(routes, routes[k], elements) {
      ScanFinds(routes, 0, k, elements);
    } else if Scan(routes, 0, elements).0.Some? {
      var m := ScanServes(routes, 0, elements);
    }
  }

  lemma {:induction false} ScanServes<V>(routes: seq<Route<V>>, i: nat, elements: seq<string>) returns (m: nat)
    requires i <= |routes| && Scan(routes, i, elements).0.Some?
    ensures i <= m < |routes| && Serves(routes, routes[m], elements)
    ensures Scan(routes, i, elements).0 == Some(routes[m].leaf)
    decreases |routes| - i
  {
    if Serves(routes, routes[i], elements) {
      m := i;
    } else {
      m := ScanServes(routes, i + 1, elements);
    }
  }

  /** "/:" is added first, yet "/:." serves "/.". */
  lemma ExtensionBeatsOrder()
    ensures SplitPath("/:") == [":"] && SplitPath("/:.") == [":."] && SplitPath("/.") == ["."]
    ensures Find(Add(Add(Tree(Empty(), 0), "/:", 1).0, "/:.", 2).0, "/.").0 == Some(Leaf(2, [""], 2))
  {
    SplitExamples();
    AddPlain();
    AddExtension();
    FindExtension(OneWildcard(map["." := Leaf(2, [""], 2)]).wildcard.value, ".");
  }

  lemma SplitExamples()
    ensures SplitPath("/:") == [":"] && SplitPath("/:.") == [":."] && SplitPath("/.") == ["."]
  {
    assert Split(":") == [":"] by { assert ":"[1..] == "" && Split("") == [""] && [':'] + "" == ":"; }
    assert Split(".") == ["."] by { assert "."[1..] == "" && Split("") == [""] && ['.'] + "" == "."; }
    assert Split(":.") == [":."] by { assert ":."[1..] == "." && [':'] + "." == ":."; }
    assert "/:"[1..] == ":" && "/:."[1..] == ":." && "/."[1..] == ".";
  }

  function OneWildcard(extensions: map<string, Leaf<int>>): Trie<int> {
    Empty().(wildcard := Some(Empty().(leaf := Some(Leaf(1, [""], 1)), extensions := extensions)))
  }

  lemma AddPlain()
    ensures AddTo(Empty(), 1, [":"], [], 1).0 == OneWildcard(map[])
  {
    var elements := [":"];
    assert elements[1..] == [] && elements[0][1..] == "" && [] + [""] == [""];
    assert AddTo(Empty<int>(), 1, [], [""], 1).0 == Empty<int>().(leaf := Some(Leaf(1, [""], 1)));
  }

  lemma AddExtension()
    ensures AddTo(OneWildcard(map[]), 2, [":."], [], 2).0 == OneWildcard(map["." := Leaf(2, [""], 2)])
  {
    var elements := [":."];
    assert elements[1..] == [] && elements[0][1..] == ".";
    assert StripLast(["."]) == [""];
    var child := WildcardOf(OneWildcard(map[]));
    assert AddTo(child, 2, [], ["."], 2).0 == child.(extensions := map["." := Leaf(2, [""], 2)]);
  }

  /** Below a wildcard, a leaf for the extension of what the wildcard stands for is found. */
  lemma FindExtension(below: Trie<int>, el: string)
    requires Extension(el) != "" && Extension(el) in below.extensions
    ensures FindIn(Empty().(wildcard := Some(below)), [el], []).0 == Some(below.extensions[Extension(el)])
  {
    var elements := [el];
    assert elements[1..] == [] && [] + [el] == [el];
    assert FindIn(below, [], [el]).0 == Some(below.extensions[Extension(el)]);
  }
}
