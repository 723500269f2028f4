/**
 The Config object of robfig/config: its maps and counters changed in place, its writer, which
 takes the options out as it writes them, and its reader.
 */
module Config {
  import opened Basics
  import opened ConfigData
  import opened ConfigText
  import opened ConfigRoundTrip

  // ----- Text that grows at its end --------------------------------------------------

  /** The items' lines, from the first to the last. */
  ghost function Lines(sep: Separator, items: seq<Item>): string {
    if items == [] then [] else Lines(sep, items[..|items| - 1]) + (ItemText(sep, items[|items| - 1]) + [NEWLINE])
  }

  lemma {:induction false} LinesFrom(sep: Separator, items: seq<Item>, i: nat)
    requires i <= |items|
    ensures Lines(sep, items[..i]) + ItemsText(sep, items, i) == Lines(sep, items)
    decreases |items| - i
  {
    if i == |items| {
      assert items[..i] == items;
      assert Lines(sep, items) + [] == Lines(sep, items);
    } else {
      LinesFrom(sep, items, i + 1);
      assert items[..i + 1][..i] == items[..i];
      Associate(Lines(sep, items[..i]), ItemText(sep, items[i]) + [NEWLINE], ItemsText(sep, items, i + 1));
    }
  }

  lemma Associate(a: string, b: string, c: string)
    ensures a + b + c == a + (b + c)
  {
  }

  lemma LinesAreText(sep: Separator, items: seq<Item>)
    ensures Lines(sep, items) == ItemsText(sep, items, 0)
  {
    LinesFrom(sep, items, 0);
    assert items[..0] == [] && [] + ItemsText(sep, items, 0) == ItemsText(sep, items, 0);
  }

  /** The sections' text, from the first to the last. */
  ghost function Blocks(sep: Separator, doc: seq<Section>): string {
    if doc == [] then [] else Blocks(sep, doc[..|doc| - 1]) + SectionText(sep, doc[|doc| - 1])
  }

  lemma {:induction false} BlocksFrom(sep: Separator, doc: seq<Section>, i: nat)
    requires i <= |doc|
    ensures Blocks(sep, doc[..i]) + DocumentText(sep, doc, i) == Blocks(sep, doc) + [NEWLINE]
    decreases |doc| - i
  {
    if i == |doc| {
      assert doc[..i] == doc;
    } else {
      BlocksFrom(sep, doc, i + 1);
      assert doc[..i + 1][..i] == doc[..i];
      Associate(Blocks(sep, doc[..i]), SectionText(sep, doc[i]), DocumentText(sep, doc, i + 1));
    }
  }

  lemma BlocksAreText(sep: Separator, doc: seq<Section>)
    ensures Blocks(sep, doc) + [NEWLINE] == DocumentText(sep, doc, 0)
  {
    BlocksFrom(sep, doc, 0);
    assert doc[..0] == [] && [] + DocumentText(sep, doc, 0) == DocumentText(sep, doc, 0);
  }

  // ----- The header ------------------------------------------------------------------

  /** The comment mark after each newline of the header. */
  function Marked(header: string, comment: string): string {
    if header == [] then []
    else (if header[0] == NEWLINE then [NEWLINE] + comment else [header[0]]) + Marked(header[1..], comment)
  }

  function HeaderComment(header: string, comment: string): string {
    if header == [] then [] else comment + Marked(header, comment) + [NEWLINE]
  }

  predicate IsComment(comment: string) {
    comment == ['#', ' '] || comment == [';', ' ']
  }

  lemma {:induction false} TrimRightFirst(s: string)
    requires s != [] && !IsSpace(s[0])
    ensures TrimRight(s) != [] && TrimRight(s)[0] == s[0]
  {
    if IsSpace(s[|s| - 1]) { TrimRightFirst(s[..|s| - 1]); }
  }

  lemma CommentSkipped(c: Cursor, line: string, rest: string)
    requires DEFAULT_SECTION in c.state.data && line != [] && (line[0] == '#' || line[0] == ';') && OneLine(line)
    ensures ReadText(c, line + [NEWLINE] + rest) == ReadText(c, rest)
  {
    TrimRightFirst(line);
    assert ReadLine(c, line) == Ok(c);
    FirstLine(c, line, rest);
  }

  lemma {:induction false} HeaderSkipped(c: Cursor, header: string, comment: string, line: string, rest: string)
    requires DEFAULT_SECTION in c.state.data && IsComment(comment)
    requires line != [] && (line[0] == '#' || line[0] == ';') && OneLine(line)
    ensures ReadText(c, line + Marked(header, comment) + [NEWLINE] + rest) == ReadText(c, rest)
    decreases |header|
  {
    if header == [] {
      CommentSkipped(c, line, rest);
      assert line + [] == line;
    } else if header[0] == NEWLINE {
      var more := Marked(header[1..], comment);
      HeaderSkipped(c, header[1..], comment, comment, rest);
      CommentSkipped(c, line, comment + more + [NEWLINE] + rest);
      Rejoin(line, [NEWLINE], comment, more, rest);
    } else {
      HeaderSkipped(c, header[1..], comment, line + [header[0]], rest);
      Associate(line, [header[0]], Marked(header[1..], comment));
    }
  }

  lemma Rejoin(a: string, b: string, c: string, d: string, e: string)
    ensures a + ((b + c) + d) + [NEWLINE] + e == a + b + (c + d + [NEWLINE] + e)
  {
  }

  /** A header, of one line or many, is read as comments only. */
  lemma HeaderIsComment(c: Cursor, header: string, comment: string, rest: string)
    requires DEFAULT_SECTION in c.state.data && IsComment(comment)
    ensures ReadText(c, HeaderComment(header, comment) + rest) == ReadText(c, rest)
  {
    if header == [] {
      assert [] + rest == rest;
    } else {
      HeaderSkipped(c, header, comment, comment, rest);
    }
  }

  // ----- The object ------------------------------------------------------------------

  class Config {
    const comment: string
    const separator: Separator
    var lastIdSection: nat
    var idSection: Numbers
    var lastIdOption: Numbers
    var data: map<string, Options>

    ghost function View(): State
      reads this
    {
      State(idSection, lastIdSection, lastIdOption, data)
    }

    ghost predicate Valid()
      reads this
    {
      IsComment(comment) && IsSeparator(separator.sign) && Inv(View())
    }

    /** New panics on any other comment or separator. */
    constructor (comment: string, separator: Separator)
      requires IsComment(comment) && IsSeparator(separator.sign)
      ensures Valid() && View() == NewState() && this.comment == comment && this.separator == separator
    {
      this.comment, this.separator := comment, separator;
      lastIdSection, lastIdOption := 1, map[];
      idSection, data := map[DEFAULT_SECTION := 0], map[DEFAULT_SECTION := map[]];
      new;
      NewInv();
      NewIs(View());
    }

    method AddSection(section: string) returns (added: bool)
      requires Valid()
      modifies this
      ensures Valid() && View() == ConfigData.AddSection(old(View()), section)
      ensures added == (section != "" && section !in old(data))
    {
      AddSectionKeepsInv(View(), section);
      if section == "" || section in data { return false; }
      data := data[section := map[]];
      idSection := idSection[section := lastIdSection];
      lastIdSection := lastIdSection + 1;
      return true;
    }

    method RemoveSection(section: string) returns (removed: bool)
      requires Valid()
      modifies this
      ensures Valid() && View() == ConfigData.RemoveSection(old(View()), section)
      ensures removed == (section in old(data) && section != DEFAULT_SECTION)
    {
      RemoveSectionKeepsInv(View(), section);
      if section !in data || section == DEFAULT_SECTION { return false; }
      data := data - {section};
      lastIdOption := lastIdOption - {section};
      idSection := idSection - {section};
      return true;
    }

    method AddOption(section: string, option: string, value: string) returns (inserted: bool)
      requires Valid()
      modifies this
      ensures Valid() && View() == ConfigData.AddOption(old(View()), section, option, value)
      ensures inserted == !(Named(section) in old(data) && option in old(data)[Named(section)])
    {
      AddOptionKeepsInv(View(), section, option, value);
      var added := AddSection(section);
      var name := if section == "" then DEFAULT_SECTION else section;
      inserted := option !in data[name];
      var n := if name in lastIdOption then lastIdOption[name] else 0;
      data := data[name := data[name][option := Value(n, value)]];
      lastIdOption := lastIdOption[name := n + 1];
    }

    method RemoveOption(section: string, option: string) returns (removed: bool)
      requires Valid()
      modifies this`data
      ensures Valid() && View() == ConfigData.RemoveOption(old(View()), section, option)
      ensures removed == (section in old(data) && option in old(data)[section])
    {
      RemoveOptionKeepsInv(View(), section, option);
      if section !in data { return false; }
      removed := option in data[section];
      data := data[section := data[section] - {option}];
    }

    /** The sections in the order in which they came. */
    method Sections() returns (sections: seq<string>)
      requires Valid()
      ensures sections == Order(idSection, lastIdSection) && |sections| == |idSection|
    {
      OrderSize(idSection, lastIdSection);
      sections := [];
      var i := 0;
      while i < lastIdSection
        invariant 0 <= i <= lastIdSection && sections == Order(idSection, i)
      {
        var found := WithId(i);
        sections := sections + found;
        i := i + 1;
      }
    }

    /** The inner loop: every section with this id, of which there is one at most. */
    method WithId(i: nat) returns (found: seq<string>)
      requires Valid()
      ensures found == if Has(idSection, i) then [NameOf(idSection, i)] else []
    {
      found := [];
      var todo := idSection.Keys;
      while todo != {}
        invariant todo <= idSection.Keys
        invariant found == if exists k :: k in idSection.Keys - todo && idSection[k] == i then [NameOf(idSection, i)] else []
        decreases |todo|
      {
        var section :| section in todo;
        todo := todo - {section};
        if idSection[section] == i {
          assert NameOf(idSection, i) == section;
          found := found + [section];
        }
      }
    }

    /** One position of a section: its option, if there is one, is written and taken out. */
    method WritePosition(section: string, i: nat, given: string) returns (buf: string)
      requires Valid() && section in data && OptionsOk(data[section], Counter(View(), section))
      modifies this`data
      ensures Valid() && data.Keys == old(data).Keys
      ensures forall k :: k in data && k != section ==> data[k] == old(data)[k]
      ensures Without(old(data)[section], data[section], i)
      ensures buf == given + PositionText(separator, old(data)[section], i)
    {
      buf := given;
      ghost var opts := data[section];
      var found, option := FindOption(data[section], i);
      if found {
        AtPosition(opts, option);
        buf := buf + (option + SeparatorText(separator) + data[section][option].text + [NEWLINE]);
        var removed := RemoveOption(section, option);
      } else {
        NotAtPosition(opts, i);
        assert given + [] == given;
      }
    }

    /** The loop over the positions of a section. */
    method WriteItems(section: string, given: string) returns (buf: string)
      requires Valid() && section in data
      modifies this`data
      ensures Valid() && data.Keys == old(data).Keys && data[section] == map[]
      ensures forall k :: k in data && k != section ==> data[k] == old(data)[k]
      ensures buf == given + Lines(separator, Items(old(data)[section], old(Counter(View(), section))))
    {
      ghost var opts := data[section];
      var n := if section in lastIdOption then lastIdOption[section] else 0;
      assert OptionsOk(View().data[section], Counter(View(), section));
      buf := given;
      assert given + [] == given && LeftFrom(opts, data[section], 0);
      var i := 0;
      while i < n
        invariant 0 <= i <= n && Valid() && data.Keys == old(data).Keys && OptionsOk(data[section], n)
        invariant forall k :: k in data && k != section ==> data[k] == old(data)[k]
        invariant LeftFrom(opts, data[section], i)
        invariant buf == given + Lines(separator, Items(opts, i))
      {
        SameAt(opts, data[section], i);
        LinesNext(separator, opts, i);
        Associate(given, Lines(separator, Items(opts, i)), PositionText(separator, opts, i));
        ghost var left := data[section];
        buf := WritePosition(section, i, buf);
        LeftNext(opts, left, data[section], i, n);
        i := i + 1;
      }
      NothingLeft(opts, data[section], n);
    }

    method WriteSection(section: string, given: string) returns (buf: string)
      requires Valid() && section in data
      modifies this`data
      ensures Valid() && data.Keys == old(data).Keys && data[section] == map[]
      ensures forall k :: k in data && k != section ==> data[k] == old(data)[k]
      ensures buf == given + SectionText(separator, Section(section, Items(old(data)[section], old(Counter(View(), section)))))
    {
      ghost var items := Items(data[section], Counter(View(), section));
      assert OptionsOk(View().data[section], Counter(View(), section));
      EmptyItems(data[section], Counter(View(), section));
      if section == DEFAULT_SECTION && data[section] == map[] {
        assert given + [] == given;
        return given;
      }
      buf := given + ([NEWLINE] + (['['] + section + [']'] + [NEWLINE]));
      buf := WriteItems(section, buf);
      LinesAreText(separator, items);
      Gather(given, HeaderText(section) + [NEWLINE], ItemsText(separator, items, 0));
    }

    /** Everything in order; afterwards the Config has its sections, but no options. */
    method Write(header: string) returns (buf: string)
      requires Valid()
      modifies this`data
      ensures Valid() && data.Keys == old(data).Keys && forall k :: k in data ==> data[k] == map[]
      ensures buf == HeaderComment(header, comment) + DocumentText(separator, Document(old(View())), 0)
    {
      ghost var s := View();
      var sections := Sections();
      OrderIsComplete(s.ids, s.nextId);
      SectionsAreNames(s, s.nextId);
      buf := WriteSections(sections, HeaderComment(header, comment), s);
      buf := buf + [NEWLINE];
      ghost var start, doc := HeaderComment(header, comment), Document(s);
      BlocksAreText(separator, doc);
      Associate(start, Blocks(separator, doc), [NEWLINE]);
      forall k | k in data ensures data[k] == map[] {
        assert k in s.ids && s.ids[k] < s.nextId;
        assert k in sections;
      }
    }

    /** The loop over the sections; `s` is the state before it. */
    method WriteSections(sections: seq<string>, start: string, ghost s: State) returns (buf: string)
      requires Valid() && View() == s && Listed(s, sections)
      modifies this`data
      ensures Valid() && data.Keys == old(data).Keys && forall j :: 0 <= j < |sections| ==> sections[j] in data && data[sections[j]] == map[]
      ensures buf == start + Blocks(separator, Document(s))
    {
      ghost var doc := Document(s);
      buf := start;
      assert start + [] == start;
      var k := 0;
      while k < |sections|
        invariant 0 <= k <= |sections| == |doc| && Valid() && data.Keys == s.data.Keys
        invariant Emptied(s.data, data, sections, k)
        invariant buf == start + Blocks(separator, doc[..k])
      {
        BlocksNext(separator, doc, k, start);
        EmptiedAt(s, View(), sections, k);
        ghost var before := data;
        buf := WriteSection(sections[k], buf);
        EmptiedNext(s.data, before, data, sections, k);
        k := k + 1;
      }
      assert doc[..k] == doc;
    }

    /** One line: what `read` does with it, given the section and option of the lines before. */
    method ReadOne(l: string, section: string, option: string) returns (ok: bool, nextSection: string, nextOption: string)
      requires Valid()
      modifies this
      ensures Valid()
      ensures Take(Cursor(old(View()), section, option), Classify(l)) ==
        if ok then Result.Ok(Cursor(View(), nextSection, nextOption)) else Result.Err
    {
      ok, nextSection, nextOption := true, section, option;
      if |l| == 0 || l[0] == '#' || l[0] == ';' {
      } else if l[0] == '[' && l[|l| - 1] == ']' {
        nextOption, nextSection := "", Trim(l[1..|l| - 1]);
        var added := AddSection(nextSection);
      } else {
        ok, nextOption := ReadEntry(l, section, option);
      }
    }

    /** A line that is neither empty nor a comment nor a header. */
    method ReadEntry(l: string, section: string, option: string) returns (ok: bool, nextOption: string)
      requires Valid() && l != [] && l[0] != '#' && l[0] != ';' && !IsHeader(l)
      modifies this
      ensures Valid()
      ensures Take(Cursor(old(View()), section, option), Classify(l)) ==
        if ok then Result.Ok(Cursor(View(), section, nextOption)) else Result.Err
    {
      ok, nextOption := true, option;
      var i := SeparatorAt(l);
      if 0 < i < |l| {
        nextOption := Trim(l[..i]);
        var value := Trim(StripComments(l[i + 1..]));
        assert Classify(l) == Option(nextOption, value);
        ReadOption(section, nextOption, value);
      } else {
        var value := Trim(StripComments(l));
        assert Classify(l) == More(value);
        ok := ReadMore(section, option, value);
      }
    }

    method ReadOption(section: string, option: string, value: string)
      requires Valid()
      modifies this
      ensures Valid() && View() == ConfigData.AddOption(old(View()), section, option, value)
    {
      var inserted := AddOption(section, option, value);
    }

    method ReadMore(section: string, option: string, value: string) returns (ok: bool)
      requires Valid()
      modifies this
      ensures Valid() && ok == (section != "" && option != "") && (!ok ==> View() == old(View()))
      ensures ok ==> Cursor(View(), section, option) == Continued(Cursor(old(View()), section, option), value)
    {
      ok := section != "" && option != "";
      if ok {
        var text := RawText(section, option) + [NEWLINE] + value;
        var inserted := AddOption(section, option, text);
      }
    }

    function RawText(section: string, option: string): (text: string)
      requires Valid()
      reads this
      ensures text == RawString(View(), section, option)
    {
      if section in data && option in data[section] then data[section][option].text
      else if option in data[DEFAULT_SECTION] then data[DEFAULT_SECTION][option].text
      else ""
    }

    /** Line by line, up to the last newline. */
    method Read(text: string) returns (ok: bool)
      requires Valid()
      modifies this
      ensures Valid()
      ensures match ReadText(Cursor(old(View()), "", ""), text)
        case Err => !ok
        case Ok(c) => ok && View() == c.state
    {
      var section, option, left := "", "", text;
      ghost var start := Cursor(View(), "", "");
      while true
        invariant Valid() && ReadText(start, text) == ReadText(Cursor(View(), section, option), left)
        decreases |left|
      {
        var i := NewlineAt(left);
        if i == |left| { return true; }
        ok, section, option := ReadOne(Trim(left[..i]), section, option);
        if !ok { return false; }
        left := left[i + 1..];
      }
    }
  }

  /** The first k sections have no options left, the others have theirs. */
  ghost predicate Emptied(start: map<string, Options>, data: map<string, Options>, sections: seq<string>, k: nat) {
    && data.Keys == start.Keys
    && forall j {:trigger sections[j]} :: 0 <= j < |sections| ==>
         sections[j] in start && data[sections[j]] == if j < k then map[] else start[sections[j]]
  }

  lemma EmptiedNext(start: map<string, Options>, before: map<string, Options>, data: map<string, Options>, sections: seq<string>, k: nat)
    requires Emptied(start, before, sections, k) && k < |sections| && data.Keys == before.Keys
    requires forall i, j :: 0 <= i < j < |sections| ==> sections[i] != sections[j]
    requires sections[k] in data && data[sections[k]] == map[] && forall name :: name in data && name != sections[k] ==> data[name] == before[name]
    ensures Emptied(start, data, sections, k + 1)
  {
  }

  lemma EmptiedAt(s: State, t: State, sections: seq<string>, k: nat)
    requires Listed(s, sections) && k < |sections| && Emptied(s.data, t.data, sections, k) && t.counters == s.counters
    ensures sections[k] in t.data
    ensures Document(s)[k] == Section(sections[k], Items(t.data[sections[k]], Counter(t, sections[k])))
  {
  }

  /** The sections of a document, without repetition. */
  ghost predicate Listed(s: State, sections: seq<string>) {
    && IdsOk(s) && |Document(s)| == |sections|
    && (forall j :: 0 <= j < |sections| ==>
          && sections[j] in s.data
          && Document(s)[j] == Section(sections[j], Items(s.data[sections[j]], Counter(s, sections[j]))))
    && (forall i, j :: 0 <= i < j < |sections| ==> sections[i] != sections[j])
  }

  /** The inner loop over the options of a section, which ends at the first with this position. */
  method FindOption(opts: Options, i: nat) returns (found: bool, option: string)
    ensures found ==> option in opts && opts[option].position == i
    ensures !found ==> forall o :: o in opts ==> opts[o].position != i
  {
    option := "";
    var todo := opts.Keys;
    while todo != {}
      invariant todo <= opts.Keys && forall o :: o in opts.Keys - todo ==> opts[o].position != i
      decreases |todo|
    {
      option :| option in todo;
      if opts[option].position == i { return true, option; }
      todo := todo - {option};
    }
    return false, "";
  }

  ghost function PositionText(sep: Separator, opts: Options, i: nat): string {
    if ItemAt(opts, i) == [] then [] else ItemText(sep, ItemAt(opts, i)[0]) + [NEWLINE]
  }

  /** The option at position i is gone, all others are as they were. */
  ghost predicate Without(opts: Options, left: Options, i: nat) {
    && (forall o :: o in left <==> o in opts && opts[o].position != i)
    && (forall o :: o in left ==> left[o] == opts[o])
  }

  /** The options from position i on. */
  ghost predicate LeftFrom(opts: Options, left: Options, i: nat) {
    && (forall o :: o in left <==> o in opts && opts[o].position >= i)
    && (forall o :: o in left ==> left[o] == opts[o])
  }

  lemma LeftNext(opts: Options, left: Options, next: Options, i: nat, n: nat)
    requires LeftFrom(opts, left, i) && Without(left, next, i) && OptionsOk(left, n)
    ensures LeftFrom(opts, next, i + 1) && OptionsOk(next, n)
  {
  }

  lemma NothingLeft(opts: Options, left: Options, n: nat)
    requires OptionsOk(opts, n) && LeftFrom(opts, left, n)
    ensures left == map[]
  {
    assert forall o :: o !in left;
  }

  /** What is left of the options has the same one at a position that is still to come. */
  lemma SameAt(opts: Options, left: Options, i: nat)
    requires LeftFrom(opts, left, i)
    requires forall o, q :: o in opts && q in opts && opts[o].position == opts[q].position ==> o == q
    ensures ItemAt(left, i) == ItemAt(opts, i)
  {
    if o :| o in opts && opts[o].position == i {
      AtPosition(opts, o);
      AtPosition(left, o);
    } else {
      NotAtPosition(opts, i);
      NotAtPosition(left, i);
    }
  }

  lemma EmptyItems(opts: Options, n: nat)
    requires OptionsOk(opts, n)
    ensures Items(opts, n) == [] <==> opts == map[]
  {
    ItemsAreOptions(opts, n);
    if o :| o in opts { OptionListed(opts, n, o); }
  }

  lemma Gather(a: string, h: string, b: string)
    ensures a + ([NEWLINE] + h) + b == a + ([NEWLINE] + (h + b))
  {
  }

  lemma BlocksNext(sep: Separator, doc: seq<Section>, k: nat, start: string)
    requires k < |doc|
    ensures start + Blocks(sep, doc[..k + 1]) == start + Blocks(sep, doc[..k]) + SectionText(sep, doc[k])
  {
    assert doc[..k + 1][..k] == doc[..k];
    Associate(start, Blocks(sep, doc[..k]), SectionText(sep, doc[k]));
  }

  lemma LinesNext(sep: Separator, opts: Options, i: nat)
    ensures ItemAt(opts, i) == [] ==> Items(opts, i + 1) == Items(opts, i)
    ensures ItemAt(opts, i) != [] ==>
      |ItemAt(opts, i)| == 1 && Lines(sep, Items(opts, i + 1)) == Lines(sep, Items(opts, i)) + (ItemText(sep, ItemAt(opts, i)[0]) + [NEWLINE])
  {
    var items, at := Items(opts, i), ItemAt(opts, i);
    if at != [] {
      assert (items + at)[..|items|] == items && (items + at)[|items|] == at[0];
    }
  }

  lemma NewIs(s: State)
    requires s == State(map[DEFAULT_SECTION := 0], 1, map[], map[DEFAULT_SECTION := map[]])
    ensures s == NewState()
  {
    assert map[][DEFAULT_SECTION := 0] == map[DEFAULT_SECTION := 0];
  }

  /**
   What Write gives is read into a new Config as the same sections, options and values in the same
   order, whatever the header.
   */
  lemma WriteThenRead(s: State, sep: Separator, comment: string, header: string) returns (last: Cursor)
    requires Inv(s) && Clean(sep, s) && IsComment(comment)
    ensures DEFAULT_SECTION in NewState().data
    ensures ReadText(Cursor(NewState(), "", ""), HeaderComment(header, comment) + DocumentText(sep, Document(s), 0)) == Result.Ok(last)
    ensures Inv(last.state) && Document(last.state) == Document(s) && SameData(s, last.state)
  {
    last := RoundTrip(s, sep);
    HeaderIsComment(Cursor(NewState(), "", ""), header, comment, DocumentText(sep, Document(s), 0));
  }
}
