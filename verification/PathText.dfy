/**
 How a path is split into elements and an element into name and extension: what is joined comes
 apart again, what is split comes together, and when a trailing slash is without consequence.
 */
module PathText {
  import opened PathTree

  ghost predicate AreElements(elements: seq<string>) {
    forall k :: 0 <= k < |elements| ==> '/' !in elements[k]
  }

  /** What one more character in front does to elements. */
  function Glue(c: char, elements: seq<string>): seq<string>
    requires elements != []
  {
    if c == '/' then [""] + elements else [[c] + elements[0]] + elements[1..]
  }

  lemma GlueParts(c: char, a: seq<string>, b: seq<string>)
    requires a != []
    ensures Glue(c, a + b) == Glue(c, a) + b
  {
  }

  lemma SplitStep(c: char, s: string)
    ensures Split([c] + s) == Glue(c, Split(s))
  {
    assert ([c] + s)[1..] == s;
  }

  lemma {:induction false} SplitParts(a: string, b: string)
    ensures Split(a + "/" + b) == Split(a) + Split(b)
  {
    if a == "" {
      SplitStep('/', b);
      assert a + "/" + b == ['/'] + b;
    } else {
      SplitParts(a[1..], b);
      SplitStep(a[0], a[1..] + "/" + b);
      SplitStep(a[0], a[1..]);
      assert [a[0]] + a[1..] == a && [a[0]] + (a[1..] + "/" + b) == a + "/" + b;
      GlueParts(a[0], Split(a[1..]), Split(b));
    }
  }

  lemma {:induction false} SplitElement(s: string)
    requires '/' !in s
    ensures Split(s) == [s]
  {
    if s != "" {
      SplitElement(s[1..]);
      assert s == [s[0]] + s[1..];
    }
  }

  lemma {:induction false} SplitJoin(elements: seq<string>)
    requires elements != [] && AreElements(elements)
    ensures Split(Join(elements)) == elements
  {
    SplitElement(elements[0]);
    if |elements| > 1 {
      SplitJoin(elements[1..]);
      SplitParts(elements[0], Join(elements[1..]));
      assert elements == [elements[0]] + elements[1..];
    }
  }

  lemma {:induction false} JoinSplit(key: string)
    ensures Join(Split(key)) == key && AreElements(Split(key))
  {
    if key != "" {
      JoinSplit(key[1..]);
      var c, rest := key[0], Split(key[1..]);
      assert key == [c] + Join(rest);
      if c == '/' {
        assert ([""] + rest)[1..] == rest;
      } else {
        JoinFirst([c], rest);
      }
    }
  }

  lemma JoinFirst(s: string, elements: seq<string>)
    requires elements != []
    ensures Join([s + elements[0]] + elements[1..]) == s + Join(elements)
  {
  }

  /** A path is split into the elements that it was joined from. */
  lemma PathReads(elements: seq<string>)
    requires AreElements(elements) && (elements != [] ==> elements[|elements| - 1] != "")
    ensures SplitPath("/" + Join(elements)) == elements
  {
    var path := "/" + Join(elements);
    assert path[1..] == Join(elements);
    if elements == [] {
      assert Split("") == [""];
    } else {
      SplitJoin(elements);
    }
  }

  /** And with a slash at the end, whatever the last element is. */
  lemma SlashReads(elements: seq<string>)
    requires AreElements(elements) && elements != []
    ensures SplitPath("/" + Join(elements) + "/") == elements
  {
    var path := "/" + Join(elements);
    SplitJoin(elements);
    SplitParts("", Join(elements));
    assert "" + "/" + Join(elements) == path && path + "/" + "" == path + "/";
    SplitParts(path, "");
    assert ([""] + elements + [""])[1..] == elements + [""];
  }

  /** A trailing slash is without consequence exactly if it is the only one at the end. */
  lemma TrailingSlashIff(path: string)
    requires IsPath(path)
    ensures SplitPath(path + "/") == SplitPath(path) <==> path[|path| - 1] != '/'
  {
    SplitParts(path, "");
    assert path + "/" + "" == path + "/";
    SplitLast(path);
    SplitFirst(path);
    OneMoreEmpty(Split(path));
  }

  lemma OneMoreEmpty(elements: seq<string>)
    requires |elements| >= 2 && elements[0] == ""
    ensures WithoutEnds(elements + [""]) == WithoutEnds(elements) <==> elements[|elements| - 1] != ""
  {
    assert (elements + [""])[1..] == elements[1..] + [""];
  }

  lemma SplitFirst(path: string)
    requires IsPath(path)
    ensures |Split(path)| >= 2 && Split(path)[0] == ""
  {
  }

  lemma {:induction false} SplitLast(key: string)
    ensures var elements := Split(key); elements[|elements| - 1] == "" <==> key == "" || key[|key| - 1] == '/'
  {
    if key != "" {
      SplitLast(key[1..]);
      var rest := Split(key[1..]);
      if |key| == 1 {
        assert key[1..] == "" && rest == [""];
      } else {
        assert key[1..][|key| - 2] == key[|key| - 1];
        if |rest| == 1 { SplitOne(key[1..]); }
      }
    }
  }

  lemma SplitOne(key: string)
    requires |Split(key)| == 1
    ensures Split(key) == [key]
  {
    JoinSplit(key);
  }

  /** So a path is found with a trailing slash as it is without. */
  lemma TrailingSlashFinds<V>(tree: Tree<V>, path: string)
    requires IsPath(path) && path[|path| - 1] != '/'
    ensures Find(tree, path + "/") == Find(tree, path)
  {
    TrailingSlashIff(path);
  }

  /** The extension starts at the last dot. */
  lemma {:induction false} ExtensionIsLast(s: string)
    ensures WithoutExtension(s) + Extension(s) == s
    ensures Extension(s) == "" <==> '.' !in s
    ensures Extension(s) != "" ==> Extension(s)[0] == '.' && '.' !in Extension(s)[1..]
  {
    if s != "" && s[|s| - 1] != '.' {
      var t := s[..|s| - 1];
      ExtensionIsLast(t);
      assert s == t + [s[|s| - 1]];
      assert Extension(t) != "" ==> Extension(s)[1..] == Extension(t)[1..] + [s[|s| - 1]];
    }
  }

  // ----- Patterns, element by element -----------------------------------------------------

  predicate IsWild(element: string) {
    element != "" && element[0] == ':'
  }

  predicate IsStar(element: string) {
    element != "" && element[0] == '*'
  }

  /** The number of elements before the first star. */
  function BeforeStar(pattern: seq<string>): (n: nat)
    ensures n <= |pattern| && (n < |pattern| ==> IsStar(pattern[n])) && forall k :: 0 <= k < n ==> !IsStar(pattern[k])
  {
    if pattern == [] || IsStar(pattern[0]) then 0 else 1 + BeforeStar(pattern[1..])
  }

  /** Up to the star each element is a wildcard or the same, and there is something for the star, or nothing more. */
  ghost predicate FitsPattern(pattern: seq<string>, elements: seq<string>) {
    var n := BeforeStar(pattern);
    && (if n == |pattern| then |elements| == n else |elements| > n)
    && forall k :: 0 <= k < n ==> IsWild(pattern[k]) || pattern[k] == elements[k]
  }

  lemma {:induction false} MatchesIff(pattern: seq<string>, elements: seq<string>)
    requires ShapeOf(pattern).Some?
    ensures Matches(ShapeOf(pattern).value, elements) <==> FitsPattern(pattern, elements)
  {
    if pattern != [] && !IsStar(pattern[0]) && elements != [] {
      MatchesIff(pattern[1..], elements[1..]);
      FitsStep(pattern, elements);
    }
  }

  lemma FitsStep(pattern: seq<string>, elements: seq<string>)
    requires pattern != [] && elements != [] && !IsStar(pattern[0])
    ensures FitsPattern(pattern, elements) <==> (IsWild(pattern[0]) || pattern[0] == elements[0]) && FitsPattern(pattern[1..], elements[1..])
  {
    var n := BeforeStar(pattern);
    assert n == 1 + BeforeStar(pattern[1..]);
    assert forall k :: 0 <= k < n - 1 && k + 1 < |elements| ==> pattern[1..][k] == pattern[k + 1] && elements[1..][k] == elements[k + 1];
    if FitsPattern(pattern[1..], elements[1..]) && (IsWild(pattern[0]) || pattern[0] == elements[0]) {
      forall k | 0 <= k < n ensures IsWild(pattern[k]) || pattern[k] == elements[k] {
        if k > 0 { assert pattern[1..][k - 1] == pattern[k] && elements[1..][k - 1] == elements[k]; }
      }
    }
  }

  /** A pattern is malformed exactly if an element before any star is empty. */
  lemma {:induction false} MalformedIff(pattern: seq<string>)
    ensures ShapeOf(pattern).None? <==> exists k :: 0 <= k < BeforeStar(pattern) && pattern[k] == ""
  {
    if pattern != [] && pattern[0] != "" && !IsStar(pattern[0]) {
      MalformedIff(pattern[1..]);
      assert forall k :: 0 <= k < BeforeStar(pattern[1..]) ==> pattern[1..][k] == pattern[k + 1];
      if k :| 0 <= k < BeforeStar(pattern) && pattern[k] == "" {
        assert pattern[1..][k - 1] == "";
      }
    } else if pattern != [] && pattern[0] == "" {
      assert BeforeStar(pattern) > 0;
    }
  }

  /** The number of wildcards among the first k elements. */
  function WildsBefore(pattern: seq<string>, k: nat): nat
    requires k <= |pattern|
  {
    if k == 0 then 0 else (if IsWild(pattern[0]) then 1 else 0) + WildsBefore(pattern[1..], k - 1)
  }

  /** The i-th wildcard gives its name to the element in its place, and a star to all that is left. */
  lemma {:induction false} NameAndExpansion(pattern: seq<string>, elements: seq<string>, k: nat)
    requires ShapeOf(pattern).Some? && Matches(ShapeOf(pattern).value, elements)
    requires k < |pattern| && k <= BeforeStar(pattern) && (k < BeforeStar(pattern) ==> IsWild(pattern[k]))
    ensures var i, names, exp := WildsBefore(pattern, k), Names(pattern), Expansions(ShapeOf(pattern).value, elements);
      && i < |names| == |exp| && k < |elements| && names[i] == pattern[k][1..]
      && exp[i] == if k < BeforeStar(pattern) then elements[k] else Join(elements[k..])
  {
    var shape := ShapeOf(pattern).value;
    NameCount(pattern);
    ExpansionCount(shape, elements);
    if k == 0 {
      assert elements[0..] == elements;
    } else {
      NameAndExpansion(pattern[1..], elements[1..], k - 1);
      assert elements[1..][k - 1..] == elements[k..];
    }
  }
}
