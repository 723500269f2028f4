/**
 The data of a robfig/config Config: sections and options with the order in which they came.

 Both orders are kept as numbers that only grow: a section's id, and an option's position within
 its section.  `Order` is the list that such numbers stand for.
 */
module ConfigData {

  const DEFAULT_SECTION := "DEFAULT"

  // ----- Names in the order of their numbers -----------------------------------------

  type Numbers = map<string, nat>

  ghost predicate Distinct(p: Numbers, n: nat) {
    && (forall k :: k in p ==> p[k] < n)
    && (forall j, k :: j in p && k in p && p[j] == p[k] ==> j == k)
  }

  ghost predicate Has(p: Numbers, i: nat) {
    exists k :: k in p && p[k] == i
  }

  ghost function NameOf(p: Numbers, i: nat): (k: string)
    requires Has(p, i)
    ensures k in p && p[k] == i
  {
    var k :| k in p && p[k] == i; k
  }

  /** The names with numbers below n, by number. */
  ghost function Order(p: Numbers, n: nat): seq<string> {
    if n == 0 then []
    else Order(p, n - 1) + if Has(p, n - 1) then [NameOf(p, n - 1)] else []
  }

  /** Every name is listed, none twice, and in the order of the numbers. */
  lemma {:induction false} OrderIsComplete(p: Numbers, n: nat)
    requires forall j, k :: j in p && k in p && p[j] == p[k] ==> j == k
    ensures forall k :: k in p && p[k] < n ==> k in Order(p, n)
    ensures forall i :: 0 <= i < |Order(p, n)| ==> Order(p, n)[i] in p && p[Order(p, n)[i]] < n
    ensures forall i, j :: 0 <= i < j < |Order(p, n)| ==> p[Order(p, n)[i]] < p[Order(p, n)[j]]
  {
    if n > 0 { OrderIsComplete(p, n - 1); }
  }

  lemma {:induction false} DistinctSize(s: seq<string>)
    requires forall i, j :: 0 <= i < j < |s| ==> s[i] != s[j]
    ensures |set x | x in s| == |s|
  {
    if s != [] {
      var n := |s| - 1;
      DistinctSize(s[..n]);
      assert (set x | x in s) == (set x | x in s[..n]) + {s[n]} by { assert s == s[..n] + [s[n]]; }
      assert s[n] !in s[..n];
    }
  }

  /** The list has exactly as many names as there are. */
  lemma OrderSize(p: Numbers, n: nat)
    requires Distinct(p, n)
    ensures |Order(p, n)| == |p|
  {
    OrderIsComplete(p, n);
    DistinctSize(Order(p, n));
    assert (set x | x in Order(p, n)) == p.Keys;
  }

  lemma {:induction false} OrderSame(p: Numbers, q: Numbers, n: nat)
    requires forall k :: (k in p && p[k] < n) <==> (k in q && q[k] < n)
    requires forall k :: k in p && p[k] < n ==> p[k] == q[k]
    requires forall j, k :: j in p && k in p && p[j] == p[k] < n ==> j == k
    ensures Order(p, n) == Order(q, n)
  {
    if n > 0 { OrderSame(p, q, n - 1); }
  }

  // ----- The state and its operations ------------------------------------------------

  datatype Value = Value(position: nat, text: string)

  type Options = map<string, Value>

  datatype State = State(ids: Numbers, nextId: nat, counters: Numbers, data: map<string, Options>)

  function Counter(s: State, section: string): nat {
    if section in s.counters then s.counters[section] else 0
  }

  function Positions(opts: Options): Numbers {
    map o | o in opts :: opts[o].position
  }

  function AddSection(s: State, section: string): State {
    if section == "" || section in s.data then s
    else s.(ids := s.ids[section := s.nextId], nextId := s.nextId + 1, data := s.data[section := map[]])
  }

  /** The section's name, where the empty name stands for the default section. */
  function Named(section: string): string {
    if section == "" then DEFAULT_SECTION else section
  }

  function AddOption(s: State, section: string, option: string, text: string): State
    requires DEFAULT_SECTION in s.data
  {
    PutOption(AddSection(s, section), Named(section), option, text)
  }

  /** The option gets the next position, also if it was there before. */
  function PutOption(s: State, name: string, option: string, text: string): State
    requires name in s.data
  {
    var n := Counter(s, name);
    s.(data := s.data[name := s.data[name][option := Value(n, text)]], counters := s.counters[name := n + 1])
  }

  function RemoveOption(s: State, section: string, option: string): State {
    if section !in s.data then s
    else s.(data := s.data[section := s.data[section] - {option}])
  }

  function RemoveSection(s: State, section: string): State {
    if section !in s.data || section == DEFAULT_SECTION then s
    else s.(data := s.data - {section}, counters := s.counters - {section}, ids := s.ids - {section})
  }

  function NewState(): State {
    AddSection(State(map[], 0, map[], map[]), DEFAULT_SECTION)
  }

  /** Positions are distinct and below the counter. */
  ghost predicate OptionsOk(opts: Options, n: nat) {
    && (forall o :: o in opts ==> opts[o].position < n)
    && (forall o, q :: o in opts && q in opts && opts[o].position == opts[q].position ==> o == q)
  }

  lemma PositionsDistinct(opts: Options, n: nat)
    ensures OptionsOk(opts, n) <==> Distinct(Positions(opts), n)
  {
    var p := Positions(opts);
    assert forall o :: o in opts <==> o in p;
    assert forall o :: o in opts ==> p[o] == opts[o].position;
    if Distinct(p, n) {
      forall o, q | o in opts && q in opts && opts[o].position == opts[q].position ensures o == q { assert p[o] == p[q]; }
    }
  }

  ghost predicate IdsOk(s: State) {
    s.ids.Keys == s.data.Keys && Distinct(s.ids, s.nextId)
  }

  ghost predicate PositionsOk(s: State) {
    && s.counters.Keys <= s.data.Keys
    && forall section {:trigger OptionsOk(s.data[section], Counter(s, section))} :: section in s.data ==> OptionsOk(s.data[section], Counter(s, section))
  }

  /** The default section is there, and first; the empty name is no section. */
  ghost predicate DefaultOk(s: State) {
    DEFAULT_SECTION in s.data && DEFAULT_SECTION in s.ids && s.ids[DEFAULT_SECTION] == 0 && "" !in s.data
  }

  /** Ids are distinct; positions within a section are distinct and below its counter. */
  ghost predicate Inv(s: State) {
    IdsOk(s) && PositionsOk(s) && DefaultOk(s)
  }

  lemma NewInv()
    ensures Inv(NewState())
  {
    assert "" != DEFAULT_SECTION;
  }

  lemma AddSectionKeepsInv(s: State, section: string)
    requires Inv(s)
    ensures Inv(AddSection(s, section))
  {
    if section != "" && section !in s.data { NewSectionKeeps(s, section, AddSection(s, section)); }
  }

  lemma NewSectionKeeps(s: State, section: string, t: State)
    requires IdsOk(s) && PositionsOk(s) && section !in s.data
    requires t == s.(ids := s.ids[section := s.nextId], nextId := s.nextId + 1, data := s.data[section := map[]])
    ensures IdsOk(t) && PositionsOk(t)
  {
    forall k | k in t.data ensures OptionsOk(t.data[k], Counter(t, k)) {
      if k in s.data { assert OptionsOk(s.data[k], Counter(s, k)); }
    }
  }

  lemma PutOptionKeepsInv(s: State, name: string, option: string, text: string)
    requires Inv(s) && name in s.data
    ensures Inv(PutOption(s, name, option, text))
  {
    var t := PutOption(s, name, option, text);
    PutKeepsOptions(s.data[name], Counter(s, name), option, text);
    forall section | section in t.data ensures OptionsOk(t.data[section], Counter(t, section)) {
      if section != name { assert OptionsOk(s.data[section], Counter(s, section)); }
    }
  }

  lemma PutKeepsOptions(opts: Options, n: nat, option: string, text: string)
    requires OptionsOk(opts, n)
    ensures OptionsOk(opts[option := Value(n, text)], n + 1)
  {
  }

  lemma AddOptionKeepsInv(s: State, section: string, option: string, text: string)
    requires Inv(s)
    ensures Named(section) in AddSection(s, section).data && Inv(AddOption(s, section, option, text))
  {
    AddSectionKeepsInv(s, section);
    PutOptionKeepsInv(AddSection(s, section), Named(section), option, text);
  }

  lemma RemoveOptionKeepsInv(s: State, section: string, option: string)
    requires Inv(s)
    ensures Inv(RemoveOption(s, section, option))
  {
    var t := RemoveOption(s, section, option);
    forall k | k in t.data ensures OptionsOk(t.data[k], Counter(t, k)) { assert OptionsOk(s.data[k], Counter(s, k)); }
  }

  lemma RemoveSectionKeepsInv(s: State, section: string)
    requires Inv(s)
    ensures Inv(RemoveSection(s, section))
  {
    var t := RemoveSection(s, section);
    forall k | k in t.data ensures OptionsOk(t.data[k], Counter(t, k)) { assert OptionsOk(s.data[k], Counter(s, k)); }
  }

  // ----- Every reachable Config ------------------------------------------------------

  datatype Action =
    | DoAddSection(section: string) | DoRemoveSection(section: string)
    | DoAddOption(section: string, option: string, text: string) | DoRemoveOption(section: string, option: string)

  function Do(s: State, a: Action): State
    requires DEFAULT_SECTION in s.data
  {
    match a
    case DoAddSection(section) => AddSection(s, section)
    case DoRemoveSection(section) => RemoveSection(s, section)
    case DoAddOption(section, option, text) => AddOption(s, section, option, text)
    case DoRemoveOption(section, option) => RemoveOption(s, section, option)
  }

  function After(s: State, run: seq<Action>): State
    requires DEFAULT_SECTION in s.data
    decreases |run|
  {
    if run == [] then s else After(Do(s, run[0]), run[1..])
  }

  lemma {:induction false} RunsKeepInv(s: State, run: seq<Action>)
    requires Inv(s)
    ensures Inv(After(s, run))
    decreases |run|
  {
    if run != [] {
      match run[0] {
        case DoAddSection(section) => AddSectionKeepsInv(s, section);
        case DoRemoveSection(section) => RemoveSectionKeepsInv(s, section);
        case DoAddOption(section, option, text) => AddOptionKeepsInv(s, section, option, text);
        case DoRemoveOption(section, option) => RemoveOptionKeepsInv(s, section, option);
      }
      RunsKeepInv(Do(s, run[0]), run[1..]);
    }
  }

  // ----- The document that a state stands for ----------------------------------------

  datatype Item = Item(option: string, text: string)
  datatype Section = Section(name: string, items: seq<Item>)

  /** The options with positions below n, in order. */
  ghost function Items(opts: Options, n: nat): seq<Item> {
    if n == 0 then []
    else Items(opts, n - 1) + ItemAt(opts, n - 1)
  }

  ghost function ItemAt(opts: Options, i: nat): (items: seq<Item>)
    ensures |items| <= 1
  {
    if Has(Positions(opts), i) then [Item(NameOf(Positions(opts), i), opts[NameOf(Positions(opts), i)].text)] else []
  }

  /** The sections with ids below n, in order. */
  ghost function Sections(s: State, n: nat): seq<Section>
    requires s.ids.Keys == s.data.Keys
  {
    if n == 0 then []
    else Sections(s, n - 1) + SectionAt(s, n - 1)
  }

  ghost function SectionAt(s: State, i: nat): (found: seq<Section>)
    requires s.ids.Keys == s.data.Keys
    ensures |found| <= 1
  {
    if Has(s.ids, i) then [Section(NameOf(s.ids, i), Items(s.data[NameOf(s.ids, i)], Counter(s, NameOf(s.ids, i))))] else []
  }

  ghost function Document(s: State): seq<Section>
    requires s.ids.Keys == s.data.Keys
  {
    Sections(s, s.nextId)
  }

  /** A section's items are its options, each once, in the order of their positions. */
  lemma {:induction false} ItemsAreOptions(opts: Options, n: nat)
    ensures |Items(opts, n)| == |Order(Positions(opts), n)|
    ensures forall i :: 0 <= i < |Items(opts, n)| ==>
      Order(Positions(opts), n)[i] in opts && Items(opts, n)[i] == Item(Order(Positions(opts), n)[i], opts[Order(Positions(opts), n)[i]].text)
  {
    if n > 0 { ItemsAreOptions(opts, n - 1); }
  }

  lemma AtPosition(opts: Options, o: string)
    requires o in opts && forall q :: q in opts && opts[q].position == opts[o].position ==> q == o
    ensures ItemAt(opts, opts[o].position) == [Item(o, opts[o].text)]
  {
    var p := Positions(opts);
    assert p[o] == opts[o].position;
    assert Has(p, opts[o].position);
    var name := NameOf(p, opts[o].position);
    assert opts[name].position == opts[o].position;
  }

  lemma NotAtPosition(opts: Options, i: nat)
    requires forall o :: o in opts ==> opts[o].position != i
    ensures ItemAt(opts, i) == []
  {
    var p := Positions(opts);
    assert forall o :: o in p ==> p[o] == opts[o].position;
  }

  lemma {:induction false} ItemsSame(opts: Options, other: Options, n: nat, m: nat)
    requires n <= m && OptionsOk(opts, m)
    requires forall o :: o in opts && opts[o].position < n ==> o in other && other[o] == opts[o]
    requires forall o :: o in other && other[o].position < n ==> o in opts && other[o] == opts[o]
    ensures Items(opts, n) == Items(other, n)
  {
    if n > 0 {
      ItemsSame(opts, other, n - 1, m);
      if o :| o in opts && opts[o].position == n - 1 {
        AtPosition(opts, o);
        AtPosition(other, o);
      } else {
        NotAtPosition(opts, n - 1);
        NotAtPosition(other, n - 1);
      }
    }
  }

  /** A new option comes last in its section. */
  lemma ItemsAppend(opts: Options, n: nat, option: string, text: string)
    requires OptionsOk(opts, n) && option !in opts
    ensures Items(opts[option := Value(n, text)], n + 1) == Items(opts, n) + [Item(option, text)]
  {
    var more := opts[option := Value(n, text)];
    ItemsSame(opts, more, n, n);
    AtPosition(more, option);
  }

  lemma {:induction false} SectionsSame(s: State, t: State, n: nat)
    requires IdsOk(s) && IdsOk(t)
    requires forall k :: k in s.ids && s.ids[k] < n ==> k in t.ids && t.ids[k] == s.ids[k] && t.data[k] == s.data[k] && Counter(t, k) == Counter(s, k)
    requires forall k :: k in t.ids && t.ids[k] < n ==> k in s.ids && t.ids[k] == s.ids[k]
    ensures Sections(s, n) == Sections(t, n)
  {
    if n > 0 {
      SectionsSame(s, t, n - 1);
      SectionSame(s, t, n - 1);
    }
  }

  lemma SectionSame(s: State, t: State, i: nat)
    requires IdsOk(s) && IdsOk(t)
    requires forall k :: k in s.ids && s.ids[k] == i ==> k in t.ids && t.ids[k] == i && t.data[k] == s.data[k] && Counter(t, k) == Counter(s, k)
    requires forall k :: k in t.ids && t.ids[k] == i ==> k in s.ids && s.ids[k] == i
    ensures SectionAt(s, i) == SectionAt(t, i)
  {
    if Has(s.ids, i) { assert t.ids[NameOf(s.ids, i)] == i; }
    if Has(t.ids, i) { assert s.ids[NameOf(t.ids, i)] == i; }
  }

  lemma AtId(s: State, name: string)
    requires IdsOk(s) && name in s.ids
    ensures SectionAt(s, s.ids[name]) == [Section(name, Items(s.data[name], Counter(s, name)))]
  {
    assert NameOf(s.ids, s.ids[name]) == name;
  }

  /** A new section comes last, and is empty. */
  lemma DocumentAddSection(s: State, name: string)
    requires Inv(s) && name != "" && name !in s.data
    ensures IdsOk(AddSection(s, name)) && Document(AddSection(s, name)) == Document(s) + [Section(name, [])]
  {
    DocumentNewSection(s, name, AddSection(s, name));
  }

  lemma DocumentNewSection(s: State, name: string, t: State)
    requires IdsOk(s) && PositionsOk(s) && name !in s.data
    requires t == s.(ids := s.ids[name := s.nextId], nextId := s.nextId + 1, data := s.data[name := map[]])
    ensures IdsOk(t) && Document(t) == Document(s) + [Section(name, [])]
  {
    NewSectionKeeps(s, name, t);
    SectionsSame(s, t, s.nextId);
    AtId(t, name);
    assert Counter(t, name) == 0;
  }

  lemma LastSection(s: State, name: string)
    requires IdsOk(s) && name in s.ids && s.ids[name] == s.nextId - 1
    ensures Document(s) == Sections(s, s.nextId - 1) + [Section(name, Items(s.data[name], Counter(s, name)))]
  {
    AtId(s, name);
  }

  /** What PutOption leaves alone. */
  ghost predicate SameElsewhere(s: State, t: State, name: string) {
    && t.ids == s.ids && t.nextId == s.nextId && t.data.Keys == s.data.Keys
    && forall k :: k in s.data && k != name ==> t.data[k] == s.data[k] && Counter(t, k) == Counter(s, k)
  }

  lemma PutOptionElsewhere(s: State, name: string, option: string, text: string)
    requires name in s.data
    ensures SameElsewhere(s, PutOption(s, name, option, text), name)
  {
    var t := PutOption(s, name, option, text);
    assert t.data.Keys == s.data.Keys;
  }

  lemma OthersSame(s: State, t: State, name: string)
    requires IdsOk(s) && name in s.data && s.ids[name] == s.nextId - 1 && SameElsewhere(s, t, name)
    ensures IdsOk(t) && Sections(t, s.nextId - 1) == Sections(s, s.nextId - 1)
  {
    SectionsSame(s, t, s.nextId - 1);
  }

  /** The sections of a document are those of the data. */
  lemma {:induction false} SectionsAreNames(s: State, n: nat)
    requires IdsOk(s)
    ensures |Sections(s, n)| == |Order(s.ids, n)|
    ensures forall i :: 0 <= i < |Sections(s, n)| ==>
      var name := Order(s.ids, n)[i];
      name in s.data && Sections(s, n)[i] == Section(name, Items(s.data[name], Counter(s, name)))
  {
    if n > 0 { SectionsAreNames(s, n - 1); }
  }

  /** The items but the one of that option. */
  function Dropped(items: seq<Item>, option: string): seq<Item> {
    if items == [] then []
    else Dropped(items[..|items| - 1], option) + if items[|items| - 1].option == option then [] else [items[|items| - 1]]
  }

  /** A new option leaves the others as they are. */
  lemma {:induction false} DroppedAll(items: seq<Item>, option: string)
    requires forall k :: 0 <= k < |items| ==> items[k].option != option
    ensures Dropped(items, option) == items
  {
    if items != [] {
      DroppedAll(items[..|items| - 1], option);
      assert items == items[..|items| - 1] + [items[|items| - 1]];
    }
  }

  lemma DroppedAppend(items: seq<Item>, last: seq<Item>, fewer: seq<Item>, rest: seq<Item>, option: string)
    requires |last| <= 1 && fewer == Dropped(items, option) && rest == Dropped(last, option)
    ensures fewer + rest == Dropped(items + last, option)
  {
    if last == [] {
      assert items + last == items;
    } else {
      assert (items + last)[..|items|] == items && last[..0] == [];
    }
  }

  lemma DroppedAt(opts: Options, fewer: Options, n: nat, i: nat, option: string)
    requires OptionsOk(opts, n) && fewer == opts - {option}
    ensures ItemAt(fewer, i) == Dropped(ItemAt(opts, i), option)
  {
    if o :| o in opts && opts[o].position == i {
      AtPosition(opts, o);
      assert [Item(o, opts[o].text)][..0] == [];
      if o == option { NotAtPosition(fewer, i); } else { AtPosition(fewer, o); }
    } else {
      NotAtPosition(opts, i);
      NotAtPosition(fewer, i);
    }
  }

  lemma {:induction false} ItemsDropped(opts: Options, fewer: Options, n: nat, option: string)
    requires forall i: nat :: ItemAt(fewer, i) == Dropped(ItemAt(opts, i), option)
    ensures Items(fewer, n) == Dropped(Items(opts, n), option)
  {
    if n > 0 {
      ItemsDropped(opts, fewer, n - 1, option);
      DroppedAppend(Items(opts, n - 1), ItemAt(opts, n - 1), Items(fewer, n - 1), ItemAt(fewer, n - 1), option);
    }
  }

  /** Without an option, the others stay in their order. */
  lemma ItemsWithout(opts: Options, fewer: Options, n: nat, m: nat, option: string)
    requires OptionsOk(opts, m) && fewer == opts - {option}
    ensures Items(fewer, n) == Dropped(Items(opts, n), option)
  {
    forall i: nat ensures ItemAt(fewer, i) == Dropped(ItemAt(opts, i), option) { DroppedAt(opts, fewer, m, i, option); }
    ItemsDropped(opts, fewer, n, option);
  }

  lemma PutIsNew(opts: Options, fewer: Options, option: string, v: Value)
    requires fewer == opts - {option}
    ensures opts[option := v] == fewer[option := v]
  {
  }

  /** An option that is put comes last, also if it was there before. */
  lemma ItemsPut(opts: Options, n: nat, option: string, text: string)
    requires OptionsOk(opts, n)
    ensures Items(opts[option := Value(n, text)], n + 1) == Dropped(Items(opts, n), option) + [Item(option, text)]
  {
    var fewer := opts - {option};
    ItemsWithout(opts, fewer, n, n, option);
    PutIsNew(opts, fewer, option, Value(n, text));
    assert OptionsOk(fewer, n) && option !in fewer;
    ItemsAppend(fewer, n, option, text);
  }

  /** The document differs at most in the items of one section. */
  lemma OnlyThere(s: State, t: State, name: string, items: seq<Item>)
    requires IdsOk(s) && IdsOk(t) && SameElsewhere(s, t, name)
    requires name in s.data && Items(t.data[name], Counter(t, name)) == items
    ensures |Document(t)| == |Document(s)|
    ensures forall k :: 0 <= k < |Document(s)| ==>
      Document(t)[k] == if Document(s)[k].name == name then Section(name, items) else Document(s)[k]
  {
    SectionsAreNames(s, s.nextId);
    SectionsAreNames(t, t.nextId);
    OrderIsComplete(s.ids, s.nextId);
  }

  lemma ItemsOf(s: State, k: nat)
    requires IdsOk(s) && k < |Document(s)|
    ensures Document(s)[k].name in s.data
    ensures Document(s)[k].items == Items(s.data[Document(s)[k].name], Counter(s, Document(s)[k].name))
  {
    SectionsAreNames(s, s.nextId);
  }

  function PutIn(section: Section, name: string, option: string, text: string): Section {
    if section.name == name then Section(name, Dropped(section.items, option) + [Item(option, text)]) else section
  }

  function TakenFrom(section: Section, name: string, option: string): Section {
    if section.name == name then Section(name, Dropped(section.items, option)) else section
  }

  /** An option that is put comes last in its section, also if it was there before; nothing else changes. */
  lemma DocumentPutOption(s: State, name: string, option: string, text: string)
    requires Inv(s) && name in s.data
    ensures var t := PutOption(s, name, option, text);
      && IdsOk(t) && |Document(t)| == |Document(s)|
      && forall k :: 0 <= k < |Document(s)| ==> Document(t)[k] == PutIn(Document(s)[k], name, option, text)
  {
    var t := PutOption(s, name, option, text);
    PutOptionElsewhere(s, name, option, text);
    assert OptionsOk(s.data[name], Counter(s, name));
    ItemsPut(s.data[name], Counter(s, name), option, text);
    OnlyThere(s, t, name, Dropped(Items(s.data[name], Counter(s, name)), option) + [Item(option, text)]);
    forall k | 0 <= k < |Document(s)|
      ensures Document(s)[k].name == name ==> Document(s)[k].items == Items(s.data[name], Counter(s, name))
    {
      ItemsOf(s, k);
    }
  }

  /** Removing an option takes away its line, and nothing else changes. */
  lemma DocumentRemoveOption(s: State, name: string, option: string)
    requires Inv(s)
    ensures var t := RemoveOption(s, name, option);
      && IdsOk(t) && |Document(t)| == |Document(s)|
      && forall k :: 0 <= k < |Document(s)| ==> Document(t)[k] == TakenFrom(Document(s)[k], name, option)
  {
    forall k | 0 <= k < |Document(s)| ensures Document(s)[k].name in s.data
      && Document(s)[k].items == Items(s.data[Document(s)[k].name], Counter(s, Document(s)[k].name))
    {
      ItemsOf(s, k);
    }
    if name in s.data {
      var t := RemoveOption(s, name, option);
      assert SameElsewhere(s, t, name);
      assert OptionsOk(s.data[name], Counter(s, name));
      ItemsWithout(s.data[name], t.data[name], Counter(s, name), Counter(s, name), option);
      OnlyThere(s, t, name, Dropped(Items(s.data[name], Counter(s, name)), option));
    }
  }

  /** The sections but the one of that name. */
  function Cut(doc: seq<Section>, name: string): seq<Section> {
    if doc == [] then []
    else Cut(doc[..|doc| - 1], name) + if doc[|doc| - 1].name == name then [] else [doc[|doc| - 1]]
  }

  lemma CutAppend(doc: seq<Section>, last: seq<Section>, fewer: seq<Section>, rest: seq<Section>, name: string)
    requires |last| <= 1 && fewer == Cut(doc, name) && rest == Cut(last, name)
    ensures fewer + rest == Cut(doc + last, name)
  {
    if last == [] {
      assert doc + last == doc;
    } else {
      assert (doc + last)[..|doc|] == doc && last[..0] == [];
    }
  }

  lemma CutAt(s: State, t: State, name: string, i: nat)
    requires IdsOk(s) && IdsOk(t) && t == RemoveSection(s, name) && name != DEFAULT_SECTION
    ensures SectionAt(t, i) == Cut(SectionAt(s, i), name)
  {
    if k :| k in s.ids && s.ids[k] == i {
      AtId(s, k);
      assert SectionAt(s, i)[..0] == [];
      if k != name {
        AtId(t, k);
        assert Counter(t, k) == Counter(s, k);
      }
    }
  }

  lemma {:induction false} SectionsCut(s: State, t: State, name: string, n: nat)
    requires s.ids.Keys == s.data.Keys && t.ids.Keys == t.data.Keys
    requires forall i: nat :: SectionAt(t, i) == Cut(SectionAt(s, i), name)
    ensures Sections(t, n) == Cut(Sections(s, n), name)
  {
    if n > 0 {
      SectionsCut(s, t, name, n - 1);
      CutAppend(Sections(s, n - 1), SectionAt(s, n - 1), Sections(t, n - 1), SectionAt(t, n - 1), name);
    }
  }

  /** Removing a section, unless it is the default one, takes it away, and nothing else changes. */
  lemma DocumentRemoveSection(s: State, name: string)
    requires Inv(s)
    ensures IdsOk(RemoveSection(s, name))
    ensures Document(RemoveSection(s, name)) == if name == DEFAULT_SECTION then Document(s) else Cut(Document(s), name)
  {
    RemoveSectionKeepsInv(s, name);
    var t := RemoveSection(s, name);
    if name != DEFAULT_SECTION {
      forall i: nat ensures SectionAt(t, i) == Cut(SectionAt(s, i), name) { CutAt(s, t, name, i); }
      SectionsCut(s, t, name, s.nextId);
    }
  }
}
