/**
 What is written from a Config is read back as the same sections, options and values in the same
 order, for names and values that fit on their lines.
 */
module ConfigRoundTrip {
  import opened Basics
  import opened ConfigData
  import opened ConfigText

  // ----- The text of a document ------------------------------------------------------

  function ItemText(sep: Separator, item: Item): string {
    item.option + SeparatorText(sep) + item.text
  }

  /** The items from i on, each on its line. */
  function ItemsText(sep: Separator, items: seq<Item>, i: nat): string
    requires i <= |items|
    decreases |items| - i
  {
    if i == |items| then [] else ItemText(sep, items[i]) + [NEWLINE] + ItemsText(sep, items, i + 1)
  }

  predicate Skipped(section: Section) {
    section.name == DEFAULT_SECTION && section.items == []
  }

  function HeaderText(name: string): string {
    ['['] + name + [']']
  }

  function SectionText(sep: Separator, section: Section): string {
    if Skipped(section) then []
    else [NEWLINE] + (HeaderText(section.name) + [NEWLINE] + ItemsText(sep, section.items, 0))
  }

  /** The sections from i on, and the empty line at the end. */
  function DocumentText(sep: Separator, doc: seq<Section>, i: nat): string
    requires i <= |doc|
    decreases |doc| - i
  {
    if i == |doc| then [NEWLINE] else SectionText(sep, doc[i]) + DocumentText(sep, doc, i + 1)
  }

  // ----- Values of several lines -----------------------------------------------------

  /** All lines of a value but the first. */
  predicate CleanRest(more: string)
    decreases |more|
  {
    var j := NewlineAt(more);
    CleanMore(more[..j]) && (j < |more| ==> CleanRest(more[j + 1..]))
  }

  /** An option and its value, of one or more lines, each of which is read back. */
  predicate CleanValue(sep: Separator, o: string, t: string) {
    var i := NewlineAt(t);
    OneLine(o) && CleanLine(sep, o, t[..i]) && (i < |t| ==> CleanRest(t[i + 1..]))
  }

  /** Where the cursor is after further lines of the value that it is at. */
  function ContinuedAll(c: Cursor, more: string): (last: Cursor)
    requires DEFAULT_SECTION in c.state.data
    ensures DEFAULT_SECTION in last.state.data && last.section == c.section && last.option == c.option
    decreases |more|
  {
    var j := NewlineAt(more);
    var next := Continued(c, more[..j]);
    if j == |more| then next else ContinuedAll(next, more[j + 1..])
  }

  lemma SplitAt(t: string, i: nat, rest: string)
    requires i < |t| && t[i] == NEWLINE
    ensures t + [NEWLINE] + rest == t[..i] + [NEWLINE] + (t[i + 1..] + [NEWLINE] + rest)
    ensures t == t[..i] + [NEWLINE] + t[i + 1..]
  {
  }

  lemma {:induction false} MoreLinesRead(c: Cursor, more: string, rest: string)
    requires DEFAULT_SECTION in c.state.data && c.section != "" && c.option != "" && CleanRest(more)
    ensures ReadText(c, more + [NEWLINE] + rest) == ReadText(ContinuedAll(c, more), rest)
    decreases |more|
  {
    var j := NewlineAt(more);
    MoreReads(c, more[..j]);
    if j == |more| {
      assert more[..j] == more;
      FirstLine(c, more, rest);
    } else {
      SplitAt(more, j, rest);
      FirstLine(c, more[..j], more[j + 1..] + [NEWLINE] + rest);
      MoreLinesRead(Continued(c, more[..j]), more[j + 1..], rest);
    }
  }

  // ----- Documents -------------------------------------------------------------------

  ghost predicate ItemsGood(sep: Separator, items: seq<Item>) {
    && (forall k :: 0 <= k < |items| ==> CleanValue(sep, items[k].option, items[k].text))
    && (forall j, k :: 0 <= j < k < |items| ==> items[j].option != items[k].option)
  }

  /** Names and values fit on their lines; nothing is there twice; the default section is first. */
  ghost predicate Good(sep: Separator, doc: seq<Section>) {
    && doc != [] && doc[0].name == DEFAULT_SECTION
    && (forall k :: 0 <= k < |doc| ==> CleanSection(doc[k].name) && ItemsGood(sep, doc[k].items))
    && (forall j, k :: 0 <= j < k < |doc| ==> doc[j].name != doc[k].name)
  }

  // ----- Reading a section -----------------------------------------------------------

  /** The cursor is in the last section of its state, which has these items. */
  ghost predicate InLast(c: Cursor, before: seq<Section>, name: string, items: seq<Item>) {
    && Inv(c.state) && c.section == name && name != "" && name in c.state.data
    && c.state.ids[name] == c.state.nextId - 1
    && Sections(c.state, c.state.nextId - 1) == before
    && Items(c.state.data[name], Counter(c.state, name)) == items
  }

  lemma OptionListed(opts: Options, n: nat, option: string)
    requires OptionsOk(opts, n) && option in opts
    ensures exists k :: 0 <= k < |Items(opts, n)| && Items(opts, n)[k].option == option
  {
    var p := Positions(opts);
    PositionsDistinct(opts, n);
    OrderIsComplete(p, n);
    ItemsAreOptions(opts, n);
    assert p[option] < n;
    assert option in Order(p, n);
    var k :| 0 <= k < |Order(p, n)| && Order(p, n)[k] == option;
    assert Items(opts, n)[k].option == option;
  }

  lemma NotListed(opts: Options, n: nat, items: seq<Item>, option: string)
    requires OptionsOk(opts, n) && Items(opts, n) == items && forall k :: 0 <= k < |items| ==> items[k].option != option
    ensures option !in opts
  {
    if option in opts { OptionListed(opts, n, option); }
  }

  /** Where the cursor is after the lines of an option. */
  function Moved(c: Cursor, item: Item): (next: Cursor)
    requires DEFAULT_SECTION in c.state.data
    ensures DEFAULT_SECTION in next.state.data
  {
    var i := NewlineAt(item.text);
    var first := Put(c, item.option, item.text[..i]);
    if i == |item.text| then first else ContinuedAll(first, item.text[i + 1..])
  }

  lemma ItemPut(s: State, name: string, option: string, text: string)
    requires Inv(s) && name in s.data && s.ids[name] == s.nextId - 1
    ensures var t := PutOption(s, name, option, text);
      && Inv(t) && t.ids == s.ids && t.nextId == s.nextId && name in t.data
      && Sections(t, t.nextId - 1) == Sections(s, s.nextId - 1)
      && Items(t.data[name], Counter(t, name)) == Dropped(Items(s.data[name], Counter(s, name)), option) + [Item(option, text)]
  {
    PutOptionKeepsInv(s, name, option, text);
    PutOptionElsewhere(s, name, option, text);
    OthersSame(s, PutOption(s, name, option, text), name);
    assert OptionsOk(s.data[name], Counter(s, name));
    ItemsPut(s.data[name], Counter(s, name), option, text);
  }

  /** Putting an option into the last section. */
  lemma PutInLast(c: Cursor, before: seq<Section>, name: string, items: seq<Item>, o: string, t: string)
    requires InLast(c, before, name, items)
    ensures InLast(Put(c, o, t), before, name, Dropped(items, o) + [Item(o, t)])
  {
    ItemPut(c.state, name, o, t);
    assert AddOption(c.state, name, o, t) == PutOption(c.state, name, o, t);
  }

  ghost predicate NoneOf(items: seq<Item>, o: string) {
    forall k :: 0 <= k < |items| ==> items[k].option != o
  }

  lemma DroppedLast(items: seq<Item>, o: string, t: string)
    requires NoneOf(items, o)
    ensures Dropped(items, o) == items && Dropped(items + [Item(o, t)], o) == items
  {
    DroppedAll(items, o);
    assert (items + [Item(o, t)])[..|items|] == items;
  }

  /** The value that the section has for its last option. */
  lemma LastText(c: Cursor, before: seq<Section>, name: string, items: seq<Item>, o: string, t: string)
    requires InLast(c, before, name, items + [Item(o, t)])
    ensures RawString(c.state, name, o) == t
  {
    var opts, n := c.state.data[name], Counter(c.state, name);
    ItemsAreOptions(opts, n);
    assert Items(opts, n)[|items|] == Item(o, t);
  }

  lemma ContinuedInLast(c: Cursor, before: seq<Section>, name: string, items: seq<Item>, o: string, prev: string, u: string)
    requires InLast(c, before, name, items + [Item(o, prev)]) && c.option == o && NoneOf(items, o)
    ensures InLast(Continued(c, u), before, name, items + [Item(o, prev + [NEWLINE] + u)])
  {
    LastText(c, before, name, items, o, prev);
    PutInLast(c, before, name, items + [Item(o, prev)], o, prev + [NEWLINE] + u);
    DroppedLast(items, o, prev);
  }

  lemma JoinedMore(prev: string, more: string, j: nat)
    requires j < |more| && more[j] == NEWLINE
    ensures prev + [NEWLINE] + more[..j] + [NEWLINE] + more[j + 1..] == prev + [NEWLINE] + more
  {
    SplitAt(more, j, []);
  }

  lemma {:induction false} ContinuedAllInLast(c: Cursor, before: seq<Section>, name: string, items: seq<Item>, o: string, prev: string, more: string, whole: string)
    requires InLast(c, before, name, items + [Item(o, prev)]) && c.option == o && NoneOf(items, o) && whole == prev + [NEWLINE] + more
    ensures InLast(ContinuedAll(c, more), before, name, items + [Item(o, whole)])
    decreases |more|
  {
    var j := NewlineAt(more);
    var text := prev + [NEWLINE] + more[..j];
    ContinuedInLast(c, before, name, items, o, prev, more[..j]);
    if j == |more| {
      assert more[..j] == more;
    } else {
      JoinedMore(prev, more, j);
      ContinuedAllInLast(Continued(c, more[..j]), before, name, items, o, text, more[j + 1..], whole);
    }
  }

  lemma NewInLastSection(c: Cursor, before: seq<Section>, name: string, items: seq<Item>, o: string, t: string)
    requires InLast(c, before, name, items) && NoneOf(items, o)
    ensures InLast(Put(c, o, t), before, name, items + [Item(o, t)])
  {
    PutInLast(c, before, name, items, o, t);
    DroppedAll(items, o);
  }

  lemma MovedInLast(c: Cursor, before: seq<Section>, name: string, items: seq<Item>, item: Item)
    requires InLast(c, before, name, items) && NoneOf(items, item.option)
    ensures InLast(Moved(c, item), before, name, items + [item])
  {
    var o, t := item.option, item.text;
    var i := NewlineAt(t);
    NewInLastSection(c, before, name, items, o, t[..i]);
    if i == |t| {
      assert t[..i] == t;
    } else {
      SplitAt(t, i, []);
      ContinuedAllInLast(Put(c, o, t[..i]), before, name, items, o, t[..i], t[i + 1..], t);
    }
  }

  lemma OneLineReads(c: Cursor, sep: Separator, o: string, t: string, rest: string)
    requires DEFAULT_SECTION in c.state.data && IsSeparator(sep.sign) && OneLine(o) && OneLine(t) && CleanLine(sep, o, t)
    ensures ReadText(c, o + SeparatorText(sep) + t + [NEWLINE] + rest) == ReadText(Put(c, o, t), rest)
  {
    OptionReads(c, sep, o, t);
    LineIsOne(sep, o, t);
    FirstLine(c, o + SeparatorText(sep) + t, rest);
  }

  lemma LineIsOne(sep: Separator, o: string, t: string)
    requires IsSeparator(sep.sign) && OneLine(o) && OneLine(t)
    ensures OneLine(o + SeparatorText(sep) + t)
  {
  }

  lemma Reassociate(a: string, t: string, i: nat, rest: string)
    requires i < |t| && t[i] == NEWLINE
    ensures a + t + [NEWLINE] + rest == a + t[..i] + [NEWLINE] + (t[i + 1..] + [NEWLINE] + rest)
  {
    SplitAt(t, i, rest);
    assert a + t + [NEWLINE] + rest == a + (t + [NEWLINE] + rest);
  }

  lemma ItemLineReads(c: Cursor, sep: Separator, item: Item, rest: string)
    requires DEFAULT_SECTION in c.state.data && c.section != "" && IsSeparator(sep.sign) && CleanValue(sep, item.option, item.text)
    ensures ReadText(c, ItemText(sep, item) + [NEWLINE] + rest) == ReadText(Moved(c, item), rest)
  {
    var o, t := item.option, item.text;
    var i := NewlineAt(t);
    if i == |t| {
      assert t[..i] == t;
      OneLineReads(c, sep, o, t, rest);
    } else {
      var more := t[i + 1..];
      Reassociate(o + SeparatorText(sep), t, i, rest);
      OneLineReads(c, sep, o, t[..i], more + [NEWLINE] + rest);
      MoreLinesRead(Put(c, o, t[..i]), more, rest);
    }
  }

  lemma Regroup(a: string, b: string, c: string, d: string)
    ensures a + b + c + d == a + b + (c + d)
  {
  }

  /** Where the cursor is after the lines of the items from i on. */
  function MovedAll(c: Cursor, items: seq<Item>, i: nat): (last: Cursor)
    requires DEFAULT_SECTION in c.state.data && i <= |items|
    ensures DEFAULT_SECTION in last.state.data
    decreases |items| - i
  {
    if i == |items| then c else MovedAll(Moved(c, items[i]), items, i + 1)
  }

  lemma {:induction false} ItemLinesRead(c: Cursor, sep: Separator, items: seq<Item>, i: nat, rest: string)
    requires DEFAULT_SECTION in c.state.data && c.section != "" && i <= |items| && IsSeparator(sep.sign) && ItemsGood(sep, items)
    ensures ReadText(c, ItemsText(sep, items, i) + rest) == ReadText(MovedAll(c, items, i), rest)
    decreases |items| - i
  {
    if i == |items| {
      assert [] + rest == rest;
    } else {
      var text, more := ItemText(sep, items[i]), ItemsText(sep, items, i + 1);
      ItemLineReads(c, sep, items[i], more + rest);
      ItemLinesRead(Moved(c, items[i]), sep, items, i + 1, rest);
      Regroup(text, [NEWLINE], more, rest);
    }
  }

  lemma MovedOneInLast(c: Cursor, sep: Separator, before: seq<Section>, name: string, items: seq<Item>, i: nat)
    requires i < |items| && InLast(c, before, name, items[..i]) && ItemsGood(sep, items)
    ensures InLast(Moved(c, items[i]), before, name, items[..i + 1])
  {
    MovedInLast(c, before, name, items[..i], items[i]);
    assert items[..i] + [items[i]] == items[..i + 1];
  }

  lemma {:induction false} MovedAllInLast(c: Cursor, sep: Separator, before: seq<Section>, name: string, items: seq<Item>, i: nat)
    requires i <= |items| && InLast(c, before, name, items[..i]) && ItemsGood(sep, items)
    ensures InLast(MovedAll(c, items, i), before, name, items)
    decreases |items| - i
  {
    if i == |items| {
      assert items[..i] == items;
    } else {
      MovedOneInLast(c, sep, before, name, items, i);
      MovedAllInLast(Moved(c, items[i]), sep, before, name, items, i + 1);
    }
  }

  lemma ItemsRead(c: Cursor, sep: Separator, before: seq<Section>, name: string, items: seq<Item>, rest: string)
    returns (last: Cursor)
    requires InLast(c, before, name, []) && IsSeparator(sep.sign) && ItemsGood(sep, items)
    ensures InLast(last, before, name, items)
    ensures ReadText(c, ItemsText(sep, items, 0) + rest) == ReadText(last, rest)
  {
    assert items[..0] == [];
    ItemLinesRead(c, sep, items, 0, rest);
    MovedAllInLast(c, sep, before, name, items, 0);
    last := MovedAll(c, items, 0);
  }

  // ----- Reading the sections --------------------------------------------------------

  lemma SectionListed(s: State, name: string)
    requires IdsOk(s) && name in s.data
    ensures exists k :: 0 <= k < |Document(s)| && Document(s)[k] == Section(name, Items(s.data[name], Counter(s, name)))
  {
    OrderIsComplete(s.ids, s.nextId);
    SectionsAreNames(s, s.nextId);
    assert s.ids[name] < s.nextId;
    assert name in Order(s.ids, s.nextId);
    var k :| 0 <= k < |Order(s.ids, s.nextId)| && Order(s.ids, s.nextId)[k] == name;
    assert Document(s)[k] == Section(name, Items(s.data[name], Counter(s, name)));
  }

  lemma NewInLast(s: State, name: string, t: State)
    requires Inv(s) && name !in s.data && name != ""
    requires t == s.(ids := s.ids[name := s.nextId], nextId := s.nextId + 1, data := s.data[name := map[]])
    ensures t.data[name] == map[] && Counter(t, name) == 0 && IdsOk(t) && Sections(t, s.nextId) == Document(s)
  {
    NewSectionKeeps(s, name, t);
    SectionsSame(s, t, s.nextId);
  }

  /** After the header of a new section. */
  lemma HeaderInLast(c: Cursor, before: seq<Section>, name: string)
    requires Inv(c.state) && Document(c.state) == before && name != ""
    requires forall k :: 0 <= k < |before| ==> before[k].name != name
    ensures InLast(Cursor(AddSection(c.state, name), name, ""), before, name, [])
  {
    if name in c.state.data { SectionListed(c.state, name); }
    AddSectionKeepsInv(c.state, name);
    NewInLast(c.state, name, AddSection(c.state, name));
  }

  lemma HeaderLine(c: Cursor, name: string, rest: string)
    requires DEFAULT_SECTION in c.state.data && CleanSection(name)
    ensures ReadText(c, HeaderText(name) + [NEWLINE] + rest) == ReadText(Cursor(AddSection(c.state, name), name, ""), rest)
  {
    HeaderReads(c, name);
    FirstLine(c, HeaderText(name), rest);
  }

  lemma HeaderLineReads(c: Cursor, name: string, rest: string)
    requires DEFAULT_SECTION in c.state.data && CleanSection(name)
    ensures ReadText(c, [NEWLINE] + (HeaderText(name) + [NEWLINE] + rest)) == ReadText(Cursor(AddSection(c.state, name), name, ""), rest)
  {
    var line := HeaderText(name);
    EmptyLine(c, line + [NEWLINE] + rest);
    HeaderLine(c, name, rest);
  }

  lemma InLastDocument(c: Cursor, before: seq<Section>, name: string, items: seq<Item>)
    requires InLast(c, before, name, items)
    ensures Document(c.state) == before + [Section(name, items)]
  {
    LastSection(c.state, name);
  }

  lemma RegroupHeader(h: string, items: string, rest: string)
    ensures [NEWLINE] + (h + [NEWLINE] + items) + rest == [NEWLINE] + (h + [NEWLINE] + (items + rest))
  {
  }

  /** The items after a header, given where the header leaves the cursor. */
  lemma BodyReads(c: Cursor, next: Cursor, sep: Separator, before: seq<Section>, section: Section, rest: string) returns (last: Cursor)
    requires DEFAULT_SECTION in c.state.data && CleanSection(section.name) && IsSeparator(sep.sign) && ItemsGood(sep, section.items)
    requires next == Cursor(AddSection(c.state, section.name), section.name, "") && InLast(next, before, section.name, [])
    requires !Skipped(section)
    ensures Inv(last.state) && Document(last.state) == before + [section]
    ensures ReadText(c, SectionText(sep, section) + rest) == ReadText(last, rest)
  {
    var items := ItemsText(sep, section.items, 0);
    HeaderLineReads(c, section.name, items + rest);
    RegroupHeader(HeaderText(section.name), items, rest);
    last := ItemsRead(next, sep, before, section.name, section.items, rest);
    InLastDocument(last, before, section.name, section.items);
  }

  lemma SectionReads(c: Cursor, sep: Separator, before: seq<Section>, section: Section, rest: string) returns (last: Cursor)
    requires Inv(c.state) && Document(c.state) == before && section.name != DEFAULT_SECTION
    requires CleanSection(section.name) && IsSeparator(sep.sign) && ItemsGood(sep, section.items)
    requires forall k :: 0 <= k < |before| ==> before[k].name != section.name
    ensures Inv(last.state) && Document(last.state) == before + [section]
    ensures ReadText(c, SectionText(sep, section) + rest) == ReadText(last, rest)
  {
    HeaderInLast(c, before, section.name);
    last := BodyReads(c, Cursor(AddSection(c.state, section.name), section.name, ""), sep, before, section, rest);
  }

  lemma GoodSection(sep: Separator, doc: seq<Section>, i: nat)
    requires 0 < i < |doc| && Good(sep, doc)
    ensures doc[i].name != DEFAULT_SECTION && CleanSection(doc[i].name) && ItemsGood(sep, doc[i].items)
    ensures forall k :: 0 <= k < |doc[..i]| ==> doc[..i][k].name != doc[i].name
    ensures doc[..i] + [doc[i]] == doc[..i + 1]
  {
    assert doc[0].name != doc[i].name;
  }

  lemma NextSectionReads(c: Cursor, sep: Separator, doc: seq<Section>, i: nat) returns (next: Cursor)
    requires 0 < i < |doc| && Good(sep, doc) && IsSeparator(sep.sign)
    requires Inv(c.state) && Document(c.state) == doc[..i]
    ensures Inv(next.state) && Document(next.state) == doc[..i + 1]
    ensures ReadText(c, DocumentText(sep, doc, i)) == ReadText(next, DocumentText(sep, doc, i + 1))
  {
    GoodSection(sep, doc, i);
    var before, rest := doc[..i], DocumentText(sep, doc, i + 1);
    next := SectionReads(c, sep, before, doc[i], rest);
  }

  lemma {:induction false} SectionsRead(c: Cursor, sep: Separator, doc: seq<Section>, i: nat) returns (last: Cursor)
    requires 0 < i <= |doc| && Good(sep, doc) && IsSeparator(sep.sign)
    requires Inv(c.state) && Document(c.state) == doc[..i]
    ensures Inv(last.state) && Document(last.state) == doc
    ensures ReadText(c, DocumentText(sep, doc, i)) == Ok(last)
    decreases |doc| - i
  {
    if i == |doc| {
      assert doc[..i] == doc;
      assert [NEWLINE] + [] == [NEWLINE];
      EmptyLine(c, []);
      last := c;
    } else {
      var next := NextSectionReads(c, sep, doc, i);
      last := SectionsRead(next, sep, doc, i + 1);
    }
  }

  // ----- From a state and back -------------------------------------------------------

  /** Every name and value of the state fits on its line. */
  ghost predicate Clean(sep: Separator, s: State) {
    && IsSeparator(sep.sign)
    && (forall name :: name in s.data ==> CleanSection(name) && CleanOptions(sep, s.data[name]))
  }

  ghost predicate CleanOptions(sep: Separator, opts: Options) {
    forall o :: o in opts ==> CleanValue(sep, o, opts[o].text)
  }

  lemma ItemsAreGood(sep: Separator, opts: Options, n: nat)
    requires OptionsOk(opts, n) && CleanOptions(sep, opts)
    ensures ItemsGood(sep, Items(opts, n))
  {
    var p := Positions(opts);
    PositionsDistinct(opts, n);
    OrderIsComplete(p, n);
    ItemsAreOptions(opts, n);
  }

  lemma {:induction false} FirstIsZero(p: Numbers, name: string, n: nat)
    requires Distinct(p, n) && name in p && p[name] == 0
    ensures forall m :: 0 < m ==> |Order(p, m)| > 0 && Order(p, m)[0] == name
  {
    assert NameOf(p, 0) == name;
    forall m: nat | 0 < m ensures |Order(p, m)| > 0 && Order(p, m)[0] == name { FirstStays(p, name, m); }
  }

  lemma {:induction false} FirstStays(p: Numbers, name: string, m: nat)
    requires Has(p, 0) && NameOf(p, 0) == name && m > 0
    ensures |Order(p, m)| > 0 && Order(p, m)[0] == name
  {
    if m > 1 { FirstStays(p, name, m - 1); } else { assert Order(p, 0) == []; }
  }

  /** The document of a reachable state has nothing twice and the default section first. */
  lemma DocumentIsGood(sep: Separator, s: State)
    requires Inv(s) && Clean(sep, s)
    ensures Good(sep, Document(s))
  {
    var names, doc := Order(s.ids, s.nextId), Document(s);
    OrderIsComplete(s.ids, s.nextId);
    SectionsAreNames(s, s.nextId);
    FirstIsZero(s.ids, DEFAULT_SECTION, s.nextId);
    forall k | 0 <= k < |doc| ensures CleanSection(doc[k].name) && ItemsGood(sep, doc[k].items) {
      assert OptionsOk(s.data[names[k]], Counter(s, names[k]));
      ItemsAreGood(sep, s.data[names[k]], Counter(s, names[k]));
    }
  }

  lemma NewDocument()
    ensures Inv(NewState()) && Document(NewState()) == [Section(DEFAULT_SECTION, [])]
    ensures InLast(Cursor(NewState(), DEFAULT_SECTION, ""), [], DEFAULT_SECTION, [])
  {
    NewInv();
    var s := NewState();
    assert Items(map[], 0) == [];
    LastSection(s, DEFAULT_SECTION);
  }

  /** The default section, which a new Config has already, is read into it or was skipped. */
  lemma FirstReads(sep: Separator, section: Section, rest: string) returns (last: Cursor)
    requires section.name == DEFAULT_SECTION && CleanSection(section.name) && IsSeparator(sep.sign) && ItemsGood(sep, section.items)
    ensures Inv(last.state) && Document(last.state) == [section]
    ensures DEFAULT_SECTION in NewState().data
    ensures ReadText(Cursor(NewState(), "", ""), SectionText(sep, section) + rest) == ReadText(last, rest)
  {
    NewDocument();
    var c := Cursor(NewState(), "", "");
    if Skipped(section) {
      last := c;
      assert [] + rest == rest;
    } else {
      last := BodyReads(c, Cursor(NewState(), DEFAULT_SECTION, ""), sep, [], section, rest);
      assert [] + [section] == [section];
    }
  }

  lemma DocumentReads(sep: Separator, doc: seq<Section>) returns (last: Cursor)
    requires Good(sep, doc) && IsSeparator(sep.sign)
    ensures Inv(last.state) && Document(last.state) == doc && DEFAULT_SECTION in NewState().data
    ensures ReadText(Cursor(NewState(), "", ""), DocumentText(sep, doc, 0)) == Ok(last)
  {
    var first := FirstReads(sep, doc[0], DocumentText(sep, doc, 1));
    assert doc[..1] == [doc[0]];
    last := SectionsRead(first, sep, doc, 1);
  }

  /** The same document means the same sections, options and values. */
  ghost predicate SameData(s: State, t: State) {
    && s.data.Keys == t.data.Keys
    && forall name :: name in s.data ==> SameOptions(s.data[name], t.data[name])
  }

  ghost predicate SameOptions(a: Options, b: Options) {
    a.Keys == b.Keys && forall o :: o in a ==> a[o].text == b[o].text
  }

  lemma ItemsWithin(a: Options, n: nat, b: Options, m: nat, o: string)
    requires OptionsOk(a, n) && Items(a, n) == Items(b, m) && o in a
    ensures o in b && a[o].text == b[o].text
  {
    var p := Positions(a);
    PositionsDistinct(a, n);
    OrderIsComplete(p, n);
    ItemsAreOptions(a, n);
    ItemsAreOptions(b, m);
    assert p[o] < n;
    assert o in Order(p, n);
    var k :| 0 <= k < |Order(p, n)| && Order(p, n)[k] == o;
    assert Items(b, m)[k] == Item(o, a[o].text);
  }

  lemma SectionWithin(s: State, t: State, name: string)
    requires Inv(s) && Inv(t) && Document(s) == Document(t) && name in s.data
    ensures name in t.data && Items(s.data[name], Counter(s, name)) == Items(t.data[name], Counter(t, name))
  {
    SectionListed(s, name);
    SectionsAreNames(t, t.nextId);
    var k :| 0 <= k < |Document(s)| && Document(s)[k] == Section(name, Items(s.data[name], Counter(s, name)));
    assert Order(t.ids, t.nextId)[k] == name;
  }

  lemma SameDocument(s: State, t: State)
    requires Inv(s) && Inv(t) && Document(s) == Document(t)
    ensures SameData(s, t)
  {
    forall name | name in t.data ensures name in s.data { SectionWithin(t, s, name); }
    forall name | name in s.data ensures name in t.data && SameOptions(s.data[name], t.data[name]) {
      SectionWithin(s, t, name);
      OptionsWithin(s, t, name);
    }
  }

  lemma OptionsWithin(s: State, t: State, name: string)
    requires Inv(s) && Inv(t) && name in s.data && name in t.data
    requires Items(s.data[name], Counter(s, name)) == Items(t.data[name], Counter(t, name))
    ensures SameOptions(s.data[name], t.data[name])
  {
    var a, n, b, m := s.data[name], Counter(s, name), t.data[name], Counter(t, name);
    assert OptionsOk(s.data[name], Counter(s, name)) && OptionsOk(t.data[name], Counter(t, name));
    forall o | o in a ensures o in b && a[o].text == b[o].text { ItemsWithin(a, n, b, m, o); }
    forall o | o in b ensures o in a { ItemsWithin(b, m, a, n, o); }
  }

  /**
   Writing a Config and reading the text into a new one gives the same sections, options and
   values, in the same order.
   */
  lemma RoundTrip(s: State, sep: Separator) returns (last: Cursor)
    requires Inv(s) && Clean(sep, s)
    ensures DEFAULT_SECTION in NewState().data
    ensures ReadText(Cursor(NewState(), "", ""), DocumentText(sep, Document(s), 0)) == Ok(last)
    ensures Inv(last.state) && Document(last.state) == Document(s) && SameData(s, last.state)
  {
    DocumentIsGood(sep, s);
    last := DocumentReads(sep, Document(s));
    SameDocument(s, last.state);
  }
}
