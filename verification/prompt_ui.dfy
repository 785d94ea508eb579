/**
 * The selection model of PromptUIGenerator: the catalog of choices, the
 * widgets it is laid out into, the `selections` dictionary and the free-text
 * seed (`charactor`), and the prompt composed from them.
 *
 * Widgets are descriptors: a header per main category, rows of at most two
 * cells, each cell a labelled combo box whose items carry an optional Tag.
 * Fonts, margins and brushes are not modelled.
 */
module PromptUI {
  import opened Wrappers
  import opened Dictionaries
  import JsonValues

  /** One catalog choice; a JSON member that is absent or null deserialises to null (None). */
  datatype PromptData = PromptData(prompt: Option<string>, name: Option<string>)

  /** Sub-category name to its choices, in document order. */
  type SubCategories = seq<(string, seq<PromptData>)>

  /** Main category name to its sub-categories, in document order. */
  type Catalog = seq<(string, SubCategories)>

  /**
   * What reading the catalog document gives LoadAndGenerateUI. `members` are the
   * object members as written, at both levels, so a name may repeat;
   * `Deserialize` turns them into the dictionaries JsonSerializer builds.
   */
  datatype CatalogDocument =
    | Deserialized(members: Catalog)
    | NullDocument                    // the document is the JSON literal null
    | Unreadable(message: string)     // the exception caught in LoadAndGenerateUI

  datatype ComboItem = ComboItem(content: Option<string>, tag: Option<string>)

  /** A sub-category's StackPanel: its grid column, its label text, the key its handler captures, its combo items. */
  datatype Cell = Cell(column: nat, title: string, key: string, items: seq<ComboItem>)

  /** A child of the main StackPanel. */
  datatype Element = Header(text: string) | Row(cells: seq<Cell>) | ErrorText(message: string)

  const CLEAR_SELECTION := "選択解除"
  const LOAD_ERROR_PREFIX := "JSONファイルの読み込みに失敗しました: "
  const SEPARATOR := ", "
  const EMPTY_CATALOG_TEXT := "{}"

  // ---------------------------------------------------------------------------
  // Deserialising the catalog into dictionaries

  /** The names of some name-value pairs, in order. */
  function Names<V>(pairs: seq<(string, V)>): (r: seq<string>)
    ensures |r| == |pairs| && forall i :: 0 <= i < |pairs| ==> r[i] == pairs[i].0
  {
    seq(|pairs|, i requires 0 <= i < |pairs| => pairs[i].0)
  }

  predicate DistinctNames<V>(pairs: seq<(string, V)>) {
    forall i, j :: 0 <= i < j < |pairs| ==> pairs[i].0 != pairs[j].0
  }

  /** Each name once, at the position where it first occurs. */
  function FirstOccurrences(names: seq<string>): (r: seq<string>)
    ensures forall n :: n in r <==> n in names
    ensures forall i, j :: 0 <= i < j < |r| ==> r[i] != r[j]
  {
    if |names| == 0 then []
    else
      var front := FirstOccurrences(names[..|names| - 1]);
      var last := names[|names| - 1];
      assert forall n :: n in names <==> n in names[..|names| - 1] || n == last by {
        assert names == names[..|names| - 1] + [last];
      }
      if last in front then front else front + [last]
  }

  /** The position of the first pair called `name`. */
  function NameIndex<V>(pairs: seq<(string, V)>, name: string): (r: Option<nat>)
    ensures r.None? <==> forall k :: 0 <= k < |pairs| ==> pairs[k].0 != name
    ensures r.Some? ==> r.value < |pairs| && pairs[r.value].0 == name
    ensures r.Some? ==> forall k :: 0 <= k < r.value ==> pairs[k].0 != name
  {
    if |pairs| == 0 then None
    else if pairs[0].0 == name then Some(0)
    else
      match NameIndex(pairs[1..], name)
      case Some(i) => Some(i + 1)
      case None => None
  }

  /** Dictionary lookup over pairs with distinct names: the value of the pair called `name`. */
  function Lookup<V>(pairs: seq<(string, V)>, name: string): Option<V> {
    match NameIndex(pairs, name)
    case Some(i) => Some(pairs[i].1)
    case None => None
  }

  /** Two pair lists with the same names find every name at the same position. */
  lemma {:induction false} SameNamesSameIndex<V>(a: seq<(string, V)>, b: seq<(string, V)>, name: string)
    requires Names(a) == Names(b)
    ensures NameIndex(a, name) == NameIndex(b, name)
  {
    assert forall k :: 0 <= k < |a| ==> a[k].0 == Names(a)[k] == Names(b)[k] == b[k].0;
  }

  /**
   * `dictionary[name] = value` on a dictionary nothing was removed from: the
   * value is replaced where the name already is, else the pair is appended.
   */
  function Put<V>(pairs: seq<(string, V)>, name: string, value: V): (r: seq<(string, V)>)
    ensures Names(r) == if name in Names(pairs) then Names(pairs) else Names(pairs) + [name]
    ensures Lookup(r, name) == Some(value)
    ensures forall n :: n != name ==> Lookup(r, n) == Lookup(pairs, n)
    ensures DistinctNames(pairs) ==> DistinctNames(r)
  {
    match NameIndex(pairs, name)
    case Some(i) =>
      var r := pairs[i := (name, value)];
      assert Names(r) == Names(pairs);
      forall n ensures NameIndex(r, n) == NameIndex(pairs, n) {
        SameNamesSameIndex(r, pairs, n);
      }
      r
    case None =>
      var r := pairs + [(name, value)];
      assert name !in Names(pairs);
      assert Names(r) == Names(pairs) + [name];
      var j := NameIndex(r, name);
      assert r[|pairs|].0 == name;
      assert j == Some(|pairs|);
      forall n | n != name ensures NameIndex(r, n) == NameIndex(pairs, n) {
        PutAppendIndex(pairs, name, value, n);
      }
      r
  }

  lemma {:induction false} PutAppendIndex<V>(pairs: seq<(string, V)>, name: string, value: V, n: string)
    requires n != name
    ensures NameIndex(pairs + [(name, value)], n) == NameIndex(pairs, n)
  {
    var r := pairs + [(name, value)];
    assert forall k :: 0 <= k < |pairs| ==> r[k] == pairs[k];
  }

  /**
   * What JsonSerializer makes of an object's members when it deserialises them
   * into a Dictionary: it assigns them one by one, so each name keeps the
   * position of its first occurrence and takes the value of its last.
   */
  function Collapse<V>(members: seq<(string, V)>): (r: seq<(string, V)>)
    ensures DistinctNames(r)
    ensures Names(r) == FirstOccurrences(Names(members))
    ensures forall n :: Lookup(r, n) == JsonValues.LastMember(members, n)
  {
    if |members| == 0 then []
    else
      var front := members[..|members| - 1];
      var last := members[|members| - 1];
      assert Names(front) == Names(members)[..|members| - 1];
      Put(Collapse(front), last.0, last.1)
  }

  lemma {:induction false} PutAbsent<V>(pairs: seq<(string, V)>, name: string, value: V)
    requires forall k :: 0 <= k < |pairs| ==> pairs[k].0 != name
    ensures Put(pairs, name, value) == pairs + [(name, value)]
  {
    assert NameIndex(pairs, name).None?;
  }

  /** Members whose names are already distinct deserialise unchanged. */
  lemma {:induction false} CollapseDistinct<V>(members: seq<(string, V)>)
    requires DistinctNames(members)
    ensures Collapse(members) == members
  {
    if |members| > 0 {
      var front := members[..|members| - 1];
      var last := members[|members| - 1];
      assert members == front + [last];
      assert DistinctNames(front) by {
        forall i, j | 0 <= i < j < |front| ensures front[i].0 != front[j].0 {
          assert front[i] == members[i] && front[j] == members[j];
        }
      }
      CollapseDistinct(front);
      assert forall k :: 0 <= k < |front| ==> front[k].0 != last.0 by {
        forall k | 0 <= k < |front| ensures front[k].0 != last.0 {
          assert front[k] == members[k];
        }
      }
      PutAbsent(front, last.0, last.1);
    }
  }

  /**
   * JsonSerializer.Deserialize into Dictionary<string, Dictionary<string,
   * List<PromptData>>>: both levels become dictionaries.
   */
  function Deserialize(members: Catalog): (catalog: Catalog)
    ensures DistinctNames(catalog)
    ensures Names(catalog) == FirstOccurrences(Names(members))
    ensures forall c :: 0 <= c < |catalog| ==> DistinctNames(catalog[c].1)
  {
    var top := Collapse(members);
    var catalog := seq(|top|, c requires 0 <= c < |top| => (top[c].0, Collapse(top[c].1)));
    assert Names(catalog) == Names(top);
    catalog
  }

  /** Each main category keeps its first position and the sub-categories of its last occurrence, collapsed in turn. */
  lemma {:induction false} DeserializeLastWins(members: Catalog, name: string)
    ensures match JsonValues.LastMember(members, name)
      case Some(subs) => Lookup(Deserialize(members), name) == Some(Collapse(subs))
      case None => Lookup(Deserialize(members), name) == None
  {
    var top := Collapse(members);
    var catalog := Deserialize(members);
    SameNamesSameIndex(catalog, top, name);
  }

  /** A document without repeated names deserialises to its members as written. */
  lemma {:induction false} DeserializeDistinct(members: Catalog)
    requires DistinctNames(members)
    requires forall c :: 0 <= c < |members| ==> DistinctNames(members[c].1)
    ensures Deserialize(members) == members
  {
    CollapseDistinct(members);
    forall c | 0 <= c < |members| ensures Collapse(members[c].1) == members[c].1 {
      CollapseDistinct(members[c].1);
    }
  }

  // ---------------------------------------------------------------------------
  // Selection keys

  /** The dictionary key a sub-category's combo box writes under. */
  function SelectionKey(category: string, subCategory: string): (key: string)
    ensures |key| == |category| + 1 + |subCategory|
    ensures key[..|category|] == category && key[|category|] == '-' && key[|category| + 1..] == subCategory
  {
    category + "-" + subCategory
  }

  /** Keys tell widgets apart as long as category names contain no '-'. */
  lemma {:induction false} SelectionKeyInjective(c1: string, s1: string, c2: string, s2: string)
    requires '-' !in c1 && '-' !in c2
    requires SelectionKey(c1, s1) == SelectionKey(c2, s2)
    ensures c1 == c2 && s1 == s2
  {
    var k := SelectionKey(c1, s1);
    assert k[..|c1|] == c1 && k[|c1|] == '-' && k[|c1| + 1..] == s1;
    assert k[..|c2|] == c2 && k[|c2|] == '-' && k[|c2| + 1..] == s2;
    assert |c1| == |c2|;
  }

  /** With a '-' in a category name, two different widgets can share one key. */
  lemma {:induction false} SelectionKeyCollision()
    ensures SelectionKey("a-b", "c") == SelectionKey("a", "b-c")
  {
  }

  // ---------------------------------------------------------------------------
  // Combo boxes and layout

  function ClearItem(): ComboItem {
    ComboItem(Some(CLEAR_SELECTION), None)
  }

  function ChoiceItem(choice: PromptData): ComboItem {
    ComboItem(choice.name, choice.prompt)
  }

  /** The untagged clear-selection item, then one item per choice in document order. */
  function ComboItems(choices: seq<PromptData>): seq<ComboItem> {
    [ClearItem()] + seq(|choices|, j requires 0 <= j < |choices| => ChoiceItem(choices[j]))
  }

  /** Fills a combo box: the clear-selection item first, then the choices. */
  method BuildComboBox(choices: seq<PromptData>) returns (items: seq<ComboItem>)
    ensures |items| == 1 + |choices|
    ensures items[0] == ComboItem(Some(CLEAR_SELECTION), None)
    ensures forall j :: 0 <= j < |choices| ==> items[j + 1] == ComboItem(choices[j].name, choices[j].prompt)
    ensures items == ComboItems(choices)
  {
    items := [ClearItem()];
    for j := 0 to |choices|
      invariant |items| == 1 + j && items[0] == ClearItem()
      invariant forall k :: 0 <= k < j ==> items[k + 1] == ChoiceItem(choices[k])
    {
      items := items + [ChoiceItem(choices[j])];
    }
  }

  function MakeCell(category: string, sub: (string, seq<PromptData>), column: nat): Cell {
    Cell(column, sub.0, SelectionKey(category, sub.0), ComboItems(sub.1))
  }

  /** The cells of a main category's sub-categories, column alternating 0, 1, 0, ... */
  function Cells(category: string, subs: SubCategories): (cells: seq<Cell>)
    ensures |cells| == |subs|
    ensures forall i :: 0 <= i < |subs| ==> cells[i] == MakeCell(category, subs[i], i % 2)
  {
    seq(|subs|, i requires 0 <= i < |subs| => MakeCell(category, subs[i], i % 2))
  }

  /** Cells two per row: (0, 1), (2, 3), ...; an odd last one alone. */
  function Pairs(cells: seq<Cell>): (rows: seq<Element>)
    ensures |rows| == (|cells| + 1) / 2
    ensures forall r :: 0 <= r < |rows| ==> rows[r].Row? && 1 <= |rows[r].cells| <= 2
  {
    if |cells| == 0 then []
    else if |cells| == 1 then [Row([cells[0]])]
    else [Row([cells[0], cells[1]])] + Pairs(cells[2..])
  }

  /** The Grid rows under a main category's header. */
  function Layout(category: string, subs: SubCategories): (rows: seq<Element>)
    ensures |rows| == (|subs| + 1) / 2
    ensures forall r :: 0 <= r < |rows| ==> rows[r].Row? && 1 <= |rows[r].cells| <= 2
  {
    Pairs(Cells(category, subs))
  }

  lemma {:induction false} PairsRow(cells: seq<Cell>, r: nat)
    requires r < (|cells| + 1) / 2
    ensures Pairs(cells)[r] ==
      if 2 * r + 1 < |cells| then Row([cells[2 * r], cells[2 * r + 1]]) else Row([cells[2 * r]])
  {
    if r > 0 {
      PairsRow(cells[2..], r - 1);
    }
  }

  /** Row r holds sub-categories 2r and 2r+1 in columns 0 and 1, or 2r alone when it is the last. */
  lemma {:induction false} LayoutRow(category: string, subs: SubCategories, r: nat)
    requires r < (|subs| + 1) / 2
    ensures Layout(category, subs)[r] ==
      if 2 * r + 1 < |subs| then Row([MakeCell(category, subs[2 * r], 0), MakeCell(category, subs[2 * r + 1], 1)])
      else Row([MakeCell(category, subs[2 * r], 0)])
  {
    PairsRow(Cells(category, subs), r);
  }

  /** Sub-category i lands in row i / 2, column i % 2. */
  lemma {:induction false} LayoutPlacement(category: string, subs: SubCategories, i: nat)
    requires i < |subs|
    ensures var rows := Layout(category, subs);
      i / 2 < |rows| && i % 2 < |rows[i / 2].cells| &&
      rows[i / 2].cells[i % 2] == MakeCell(category, subs[i], i % 2)
  {
    LayoutRow(category, subs, i / 2);
  }

  /** Places one more cell: in a new row after an even count, else at the end of the last row. */
  function Grow(rows: seq<Element>, odd: bool, cell: Cell): seq<Element>
    requires odd ==> |rows| > 0 && rows[|rows| - 1].Row?
  {
    if !odd then rows + [Row([cell])]
    else rows[..|rows| - 1] + [Row(rows[|rows| - 1].cells + [cell])]
  }

  lemma {:induction false} GrowCons(head: Element, rest: seq<Element>, odd: bool, cell: Cell)
    requires odd ==> |rest| > 0 && rest[|rest| - 1].Row?
    ensures Grow([head] + rest, odd, cell) == [head] + Grow(rest, odd, cell)
  {
    var rows := [head] + rest;
    if odd {
      assert rows[..|rows| - 1] == [head] + rest[..|rest| - 1];
      assert rows[|rows| - 1] == rest[|rest| - 1];
    }
  }

  lemma {:induction false} PairsSnocShort(cells: seq<Cell>, cell: Cell)
    requires |cells| <= 1
    ensures Pairs(cells + [cell]) == Grow(Pairs(cells), |cells| % 2 == 1, cell)
  {
    var ext := cells + [cell];
    if |cells| == 0 {
      assert ext == [cell];
      assert Pairs(ext) == [Row([cell])];
    } else {
      var a := cells[0];
      assert ext == [a, cell];
      assert ext[2..] == [];
      assert Pairs(ext) == [Row([a, cell])] + Pairs([]);
      assert Pairs(cells) == [Row([a])];
      assert Grow(Pairs(cells), true, cell) == [Row([a] + [cell])];
      assert [a] + [cell] == [a, cell];
    }
  }

  /** One more cell opens a new row exactly when the count so far is even. */
  lemma {:induction false} PairsSnoc(cells: seq<Cell>, cell: Cell)
    ensures Pairs(cells + [cell]) == Grow(Pairs(cells), |cells| % 2 == 1, cell)
  {
    var ext := cells + [cell];
    if |cells| <= 1 {
      PairsSnocShort(cells, cell);
    } else {
      assert ext[2..] == cells[2..] + [cell];
      PairsSnoc(cells[2..], cell);
      var head := Row([cells[0], cells[1]]);
      var rest := Pairs(cells[2..]);
      var odd := |cells| % 2 == 1;
      assert (|cells| - 2) % 2 == |cells| % 2;
      assert Pairs(cells[2..] + [cell]) == Grow(rest, odd, cell);
      GrowCons(head, rest, odd, cell);
      assert Pairs(cells) == [head] + rest;
      assert Pairs(ext) == [head] + Pairs(cells[2..] + [cell]);
    }
  }

  /** Adding one more sub-category opens a new row exactly when it has an even index. */
  lemma {:induction false} LayoutSnoc(category: string, subs: SubCategories, x: (string, seq<PromptData>))
    ensures Layout(category, subs + [x]) ==
      Grow(Layout(category, subs), |subs| % 2 == 1, MakeCell(category, x, |subs| % 2))
  {
    var cell := MakeCell(category, x, |subs| % 2);
    assert Cells(category, subs + [x]) == Cells(category, subs) + [cell];
    PairsSnoc(Cells(category, subs), cell);
  }

  /** A main category: its header, then its rows. */
  function Section(category: (string, SubCategories)): seq<Element> {
    [Header(category.0)] + Layout(category.0, category.1)
  }

  /** The main StackPanel's children for a catalog, in document order. */
  function Render(catalog: Catalog): (r: seq<Element>)
    ensures |r| >= |catalog|
    ensures |catalog| > 0 ==> r[0] == Header(catalog[0].0)
  {
    if |catalog| == 0 then []
    else Render(catalog[..|catalog| - 1]) + Section(catalog[|catalog| - 1])
  }

  /** What LoadAndGenerateUI adds to the panel. */
  function Loaded(document: CatalogDocument): (r: seq<Element>)
    ensures r == [] <==> document.NullDocument? || (document.Deserialized? && document.members == [])
    ensures (exists e :: 0 <= e < |r| && r[e].ErrorText?) <==> document.Unreadable?
    ensures document.Deserialized? ==> Headers(r) == FirstOccurrences(Names(document.members))
  {
    match document
    case Deserialized(members) =>
      var catalog := Deserialize(members);
      RenderHeaders(catalog);
      RenderNoErrors(catalog);
      Render(catalog)
    case NullDocument => []
    case Unreadable(message) =>
      var r := [ErrorText(LOAD_ERROR_PREFIX + message)];
      assert r[0].ErrorText?;
      r
  }

  /** Rendering adds no error text. */
  lemma {:induction false} RenderNoErrors(catalog: Catalog)
    ensures forall e :: 0 <= e < |Render(catalog)| ==> !Render(catalog)[e].ErrorText?
  {
    if |catalog| > 0 {
      var front := catalog[..|catalog| - 1];
      var last := catalog[|catalog| - 1];
      RenderNoErrors(front);
      var a, b := Render(front), Section(last);
      assert forall e :: 0 <= e < |b| ==> !b[e].ErrorText?;
      assert forall e :: 0 <= e < |a + b| ==> (a + b)[e] == if e < |a| then a[e] else b[e - |a|];
    }
  }

  /** Rendering one more main category appends its section. */
  lemma {:induction false} RenderStep(catalog: Catalog, i: nat)
    requires i < |catalog|
    ensures Render(catalog[..i + 1]) == Render(catalog[..i]) + Section(catalog[i])
  {
    assert catalog[..i + 1][..i] == catalog[..i];
  }

  lemma {:induction false} PanelStep(start: seq<Element>, panel: seq<Element>, catalog: Catalog, i: nat)
    requires i < |catalog| && panel == start + Render(catalog[..i])
    ensures panel + Section((catalog[i].0, catalog[i].1)) == start + Render(catalog[..i + 1])
  {
    RenderStep(catalog, i);
  }

  /** Every main category contributes exactly one header, in catalog order. */
  lemma {:induction false} RenderHeaders(catalog: Catalog)
    ensures Headers(Render(catalog)) == Names(catalog)
  {
    if |catalog| > 0 {
      var front := catalog[..|catalog| - 1];
      var last := catalog[|catalog| - 1];
      RenderHeaders(front);
      var before := Render(front);
      assert Render(catalog) == before + Section(last);
      HeadersAppend(before, Section(last));
      SectionHeaders(last);
      NamesSnoc(catalog);
    }
  }

  lemma {:induction false} NamesSnoc<V>(pairs: seq<(string, V)>)
    requires |pairs| > 0
    ensures Names(pairs) == Names(pairs[..|pairs| - 1]) + [pairs[|pairs| - 1].0]
  {
    var front := pairs[..|pairs| - 1];
    assert forall i :: 0 <= i < |front| ==> Names(front)[i] == front[i].0 == pairs[i].0;
  }

  lemma {:induction false} SectionHeaders(category: (string, SubCategories))
    ensures Headers(Section(category)) == [category.0]
  {
    HeadersAppend([Header(category.0)], Layout(category.0, category.1));
    LayoutHasNoHeaders(category.0, category.1);
    assert Headers([Header(category.0)]) == [category.0] by {
      assert [Header(category.0)][..0] == [];
    }
  }

  /** The header texts among some panel children, in order. */
  function Headers(elements: seq<Element>): seq<string> {
    if |elements| == 0 then []
    else Headers(elements[..|elements| - 1]) + (if elements[|elements| - 1].Header? then [elements[|elements| - 1].text] else [])
  }

  lemma {:induction false} HeadersAppend(a: seq<Element>, b: seq<Element>)
    ensures Headers(a + b) == Headers(a) + Headers(b)
    decreases |b|
  {
    if |b| == 0 {
      assert a + b == a;
    } else {
      assert (a + b)[..|a + b| - 1] == a + b[..|b| - 1];
      HeadersAppend(a, b[..|b| - 1]);
    }
  }

  lemma {:induction false} LayoutHasNoHeaders(category: string, subs: SubCategories)
    ensures Headers(Layout(category, subs)) == []
  {
    var rows := Layout(category, subs);
    if |rows| > 0 {
      NoHeaders(rows);
    }
  }

  lemma {:induction false} NoHeaders(elements: seq<Element>)
    requires forall e :: 0 <= e < |elements| ==> elements[e].Row?
    ensures Headers(elements) == []
  {
    if |elements| > 0 {
      NoHeaders(elements[..|elements| - 1]);
    }
  }

  // ---------------------------------------------------------------------------
  // Composing the prompt

  /** The non-empty values among the entries, in enumeration order. */
  function Fragments(entries: seq<Entry>): seq<string> {
    if |entries| == 0 then []
    else Fragments(entries[..|entries| - 1]) + (if entries[|entries| - 1].value != "" then [entries[|entries| - 1].value] else [])
  }

  function SeedPart(seed: string): seq<string> {
    if seed == "" then [] else [seed]
  }

  /** string.Join(", ", parts). */
  function Join(parts: seq<string>): (r: string)
    ensures |parts| > 0 ==> parts[0] <= r
    ensures |parts| > 0 ==> |r| >= |parts[|parts| - 1]|
    ensures |parts| > 0 ==> r[|r| - |parts[|parts| - 1]|..] == parts[|parts| - 1]
    ensures AllNonEmpty(parts) ==> (r == "" <==> parts == [])
  {
    if |parts| == 0 then ""
    else if |parts| == 1 then parts[0]
    else
      var front := Join(parts[..|parts| - 1]);
      assert parts[..|parts| - 1][0] == parts[0];
      front + SEPARATOR + parts[|parts| - 1]
  }

  /**
   * The prompt text: the seed if non-empty, then every non-empty selection
   * value in enumeration order, joined by ", ". It is empty exactly when the
   * seed and every value are; a non-empty seed leads it, and is all of it when
   * no value is non-empty.
   */
  function Compose(seed: string, selections: Dict): (r: string)
    ensures r == "" <==> seed == "" && AllValuesEmpty(Occupied(selections.slots))
    ensures seed != "" ==> seed <= r
    ensures seed != "" && Fragments(Occupied(selections.slots)) == [] ==> r == seed
  {
    var entries := Occupied(selections.slots);
    PartsNonEmpty(seed, entries);
    Join(SeedPart(seed) + Fragments(entries))
  }

  predicate AllValuesEmpty(entries: seq<Entry>) {
    forall i :: 0 <= i < |entries| ==> entries[i].value == ""
  }

  predicate AllNonEmpty(parts: seq<string>) {
    forall p :: 0 <= p < |parts| ==> parts[p] != ""
  }

  lemma {:induction false} FragmentsAppend(a: seq<Entry>, b: seq<Entry>)
    ensures Fragments(a + b) == Fragments(a) + Fragments(b)
    decreases |b|
  {
    if |b| == 0 {
      assert a + b == a;
    } else {
      assert (a + b)[..|a + b| - 1] == a + b[..|b| - 1];
      FragmentsAppend(a, b[..|b| - 1]);
    }
  }

  /** Fragments are exactly the non-empty values: none of them is empty, and none is missed. */
  lemma {:induction false} FragmentsNonEmpty(entries: seq<Entry>)
    ensures AllNonEmpty(Fragments(entries))
    ensures Fragments(entries) == [] <==> AllValuesEmpty(entries)
  {
    if |entries| > 0 {
      FragmentsNonEmpty(entries[..|entries| - 1]);
      var front := entries[..|entries| - 1];
      if forall i :: 0 <= i < |front| ==> front[i].value == "" {
        if entries[|entries| - 1].value == "" {
          forall i | 0 <= i < |entries| ensures entries[i].value == "" {
            if i < |front| { assert entries[i] == front[i]; }
          }
        }
      } else {
        var i :| 0 <= i < |front| && front[i].value != "";
        assert entries[i] == front[i];
      }
    }
  }

  /** The parts of a prompt are non-empty, and there are none exactly when the seed and every value are empty. */
  lemma {:induction false} PartsNonEmpty(seed: string, entries: seq<Entry>)
    ensures AllNonEmpty(SeedPart(seed) + Fragments(entries))
    ensures SeedPart(seed) + Fragments(entries) == [] <==> seed == "" && AllValuesEmpty(entries)
  {
    var frags := Fragments(entries);
    FragmentsNonEmpty(entries);
    var parts := SeedPart(seed) + frags;
    forall p | 0 <= p < |parts| ensures parts[p] != "" {
      if p >= |SeedPart(seed)| { assert parts[p] == frags[p - |SeedPart(seed)|]; }
    }
  }

  /** Appending a non-empty value to the parts of a prompt appends it after a separator, if there was anything before. */
  lemma {:induction false} ComposeParts(seed: string, entries: seq<Entry>, e: Entry)
    requires e.value != ""
    ensures var before := Join(SeedPart(seed) + Fragments(entries));
      Join(SeedPart(seed) + Fragments(entries + [e])) == if before == "" then e.value else before + SEPARATOR + e.value
  {
    assert (entries + [e])[..|entries|] == entries;
    var parts := SeedPart(seed) + Fragments(entries);
    assert SeedPart(seed) + Fragments(entries + [e]) == parts + [e.value];
    assert (parts + [e.value])[..|parts|] == parts;
    PartsNonEmpty(seed, entries);
  }

  /**
   * In a history without removals, choosing a value for a sub-category that had
   * none appends it to the prompt.
   */
  lemma {:induction false} ComposeAppendsNewSelection(seed: string, selections: Dict, key: string, value: string)
    requires Valid(selections) && selections.freeList == []
    requires Get(selections, key).None? && value != ""
    ensures var before := Compose(seed, selections);
      Compose(seed, Set(selections, key, value)) == if before == "" then value else before + SEPARATOR + value
  {
    var after := Set(selections, key, value).slots;
    assert after == selections.slots + [Some(Entry(key, value))];
    assert after[..|after| - 1] == selections.slots;
    assert Occupied(after) == Occupied(selections.slots) + [Entry(key, value)];
    ComposeParts(seed, Occupied(selections.slots), Entry(key, value));
  }

  /** Replacing slot i by a slot without a non-empty value, or filling a freed slot with one, leaves the fragments alone. */
  lemma {:induction false} FragmentsIgnoreEmptySlot(s: seq<Option<Entry>>, i: nat, x: Option<Entry>)
    requires i < |s|
    requires x.None? || x.value.value == ""
    ensures Fragments(Occupied(s[i := x])) == Fragments(Occupied(s[..i])) + Fragments(Occupied(s[i + 1..]))
  {
    var t := s[i := x];
    var before, present, after := Occupied(s[..i]), Present(x), Occupied(s[i + 1..]);
    OccupiedSplit(t, i);
    assert t[..i] == s[..i] && t[i + 1..] == s[i + 1..] && t[i] == x;
    assert Occupied(t) == before + present + after;
    FragmentsAppend(before + present, after);
    FragmentsAppend(before, present);
    assert Fragments(present) == [] by {
      if x.Some? {
        assert present[..0] == [];
      }
    }
    assert Fragments(before) + [] == Fragments(before);
  }

  /** Storing an empty value under a key composes the same prompt as clearing that key. */
  lemma {:induction false} EmptyValueComposesAsCleared(seed: string, selections: Dict, key: string)
    requires Valid(selections)
    ensures Compose(seed, Set(selections, key, "")) == Compose(seed, Remove(selections, key))
  {
    var stored := Set(selections, key, "").slots;
    var removed := Remove(selections, key).slots;
    EmptyValueFragments(selections, key);
    assert Fragments(Occupied(stored)) == Fragments(Occupied(removed));
  }

  lemma {:induction false} EmptyValueFragments(selections: Dict, key: string)
    requires Valid(selections)
    ensures Fragments(Occupied(Set(selections, key, "").slots)) == Fragments(Occupied(Remove(selections, key).slots))
  {
    var s := selections.slots;
    var e := Some(Entry(key, ""));
    match IndexOf(s, key)
    case Some(i) =>
      assert Set(selections, key, "").slots == s[i := e];
      assert Remove(selections, key).slots == s[i := None];
      FragmentsIgnoreEmptySlot(s, i, e);
      FragmentsIgnoreEmptySlot(s, i, None);
    case None =>
      assert Remove(selections, key) == selections;
      if |selections.freeList| > 0 {
        var f := selections.freeList[0];
        assert Set(selections, key, "").slots == s[f := e];
        assert s[f].None? && s[f := None] == s;
        FragmentsIgnoreEmptySlot(s, f, e);
        FragmentsIgnoreEmptySlot(s, f, None);
      } else {
        assert Set(selections, key, "").slots == s + [e];
        FragmentsIgnoreAppendedEmpty(s, key);
      }
  }

  lemma {:induction false} FragmentsIgnoreAppendedEmpty(s: seq<Option<Entry>>, key: string)
    ensures Fragments(Occupied(s + [Some(Entry(key, ""))])) == Fragments(Occupied(s))
  {
    var t := s + [Some(Entry(key, ""))];
    assert t[..|t| - 1] == s;
    assert Occupied(t) == Occupied(s) + [Entry(key, "")];
    FragmentsAppend(Occupied(s), [Entry(key, "")]);
    assert Fragments([Entry(key, "")]) == [] by {
      assert [Entry(key, "")][..0] == [];
    }
  }

  /** The non-empty values slot by slot, the order in which UpdatePromptText meets them. */
  function Visible(slots: seq<Option<Entry>>): seq<string> {
    if |slots| == 0 then []
    else
      var last := slots[|slots| - 1];
      Visible(slots[..|slots| - 1]) + (if last.Some? && last.value.value != "" then [last.value.value] else [])
  }

  /** Walking the slots and skipping freed ones and empty values meets the non-empty values in enumeration order. */
  lemma {:induction false} VisibleFragments(slots: seq<Option<Entry>>)
    ensures Visible(slots) == Fragments(Occupied(slots))
  {
    if |slots| > 0 {
      var front := slots[..|slots| - 1];
      var last := slots[|slots| - 1];
      VisibleFragments(front);
      FragmentsAppend(Occupied(front), Present(last));
      if last.Some? {
        assert [last.value][..0] == [];
      }
    }
  }

  /** Adding sub-category i to the panel built so far gives the layout of the first i + 1. */
  lemma {:induction false} GridStep(start: seq<Element>, category: string, subs: SubCategories, i: nat)
    requires i < |subs|
    ensures var panel := start + Layout(category, subs[..i]);
      var cell := MakeCell(category, subs[i], i % 2);
      if i % 2 == 0 then
        var grown := panel + [Row([])];
        grown[|grown| - 1 := Row(grown[|grown| - 1].cells + [cell])] == start + Layout(category, subs[..i + 1])
      else
        |panel| > 0 && panel[|panel| - 1].Row? &&
        panel[|panel| - 1 := Row(panel[|panel| - 1].cells + [cell])] == start + Layout(category, subs[..i + 1])
  {
    var rows := Layout(category, subs[..i]);
    var cell := MakeCell(category, subs[i], i % 2);
    LayoutSnoc(category, subs[..i], subs[i]);
    assert subs[..i + 1] == subs[..i] + [subs[i]];
    assert Layout(category, subs[..i + 1]) == Grow(rows, i % 2 == 1, cell);
    if i % 2 == 0 {
      GrowEven(start, rows, cell);
    } else {
      assert |rows| == (i + 1) / 2;
      GrowOdd(start, rows, cell);
    }
  }

  /** Opening a new row and putting the cell into it is growing by one cell after an even count. */
  lemma {:induction false} GrowEven(start: seq<Element>, rows: seq<Element>, cell: Cell)
    ensures var grown := start + rows + [Row([])];
      grown[|grown| - 1 := Row(grown[|grown| - 1].cells + [cell])] == start + Grow(rows, false, cell)
  {
    assert [] + [cell] == [cell];
  }

  /** Adding the cell to the last row is growing by one cell after an odd count. */
  lemma {:induction false} GrowOdd(start: seq<Element>, rows: seq<Element>, cell: Cell)
    requires |rows| > 0 && rows[|rows| - 1].Row?
    ensures var panel := start + rows;
      |panel| > 0 && panel[|panel| - 1].Row? &&
      panel[|panel| - 1 := Row(panel[|panel| - 1].cells + [cell])] == start + Grow(rows, true, cell)
  {
    var panel := start + rows;
    assert panel[|panel| - 1] == rows[|rows| - 1];
    assert panel[..|panel| - 1] == start + rows[..|rows| - 1];
  }

  /** The loop of UpdatePromptText: collects the seed and the non-empty values in enumeration order, then joins them. */
  method ComposePrompt(seed: string, selections: Dict) returns (text: string)
    ensures text == Compose(seed, selections)
  {
    var prompts: seq<string> := [];
    if seed != "" {
      prompts := prompts + [seed];
    }
    var slots := selections.slots;
    for i := 0 to |slots|
      invariant prompts == SeedPart(seed) + Visible(slots[..i])
    {
      assert slots[..i + 1][..i] == slots[..i];
      if slots[i].Some? && slots[i].value.value != "" {
        prompts := prompts + [slots[i].value.value];
      }
    }
    assert slots[..|slots|] == slots;
    VisibleFragments(slots);
    text := Join(prompts);
  }

  // ---------------------------------------------------------------------------
  // The SelectionChanged handler

  /** The dictionary after a combo box's selection changes to item `selected` (None: no item). */
  function SelectionChanged(selections: Dict, cell: Cell, selected: Option<nat>): (r: Dict)
    requires Valid(selections)
    requires selected.Some? ==> selected.value < |cell.items|
    ensures Valid(r)
    ensures Get(r, cell.key) ==
      if selected.Some? && cell.items[selected.value].tag.Some? then cell.items[selected.value].tag else None
    ensures forall k :: k != cell.key ==> Get(r, k) == Get(selections, k)
  {
    if selected.Some? && cell.items[selected.value].tag.Some? then
      Set(selections, cell.key, cell.items[selected.value].tag.value)
    else
      Remove(selections, cell.key)
  }

  /** Choosing "選択解除", or nothing, clears exactly the widget's key; clearing an absent key changes nothing. */
  lemma {:induction false} ClearingRemovesOnlyThatKey(selections: Dict, category: string, sub: (string, seq<PromptData>), column: nat, selected: Option<nat>)
    requires Valid(selections)
    requires selected == None || selected == Some(0)
    ensures var r := SelectionChanged(selections, MakeCell(category, sub, column), selected);
      r == Remove(selections, SelectionKey(category, sub.0)) &&
      (Get(selections, SelectionKey(category, sub.0)).None? ==> r == selections)
  {
  }

  /** Choosing item j + 1 stores choice j's prompt under the widget's key (a choice without a prompt clears it). */
  lemma {:induction false} ChoosingStoresPrompt(selections: Dict, category: string, sub: (string, seq<PromptData>), column: nat, j: nat)
    requires Valid(selections) && j < |sub.1|
    ensures var r := SelectionChanged(selections, MakeCell(category, sub, column), Some(j + 1));
      r == (match sub.1[j].prompt
            case Some(p) => Set(selections, SelectionKey(category, sub.0), p)
            case None => Remove(selections, SelectionKey(category, sub.0)))
  {
    assert MakeCell(category, sub, column).items[j + 1] == ChoiceItem(sub.1[j]);
  }

  // ---------------------------------------------------------------------------
  // The generator object

  class PromptUIGenerator {
    var panel: seq<Element>     // the main StackPanel's children
    var selections: Dict
    var charactor: string       // the free-text seed
    var promptText: string      // the prompt TextBox's text

    ghost predicate Valid()
      reads this
    {
      Dictionaries.Valid(selections)
    }

    /** A fresh generator; the prompt TextBox is taken to start empty. */
    constructor ()
      ensures Valid()
      ensures panel == [] && selections == Empty() && charactor == "" && promptText == ""
    {
      panel := [];
      selections := Empty();
      charactor := "";
      promptText := "";
    }

    /**
     * Loads the catalog document if it exists (None: no file), else reports the
     * empty document it writes in its place.
     */
    method Initialize(document: Option<CatalogDocument>) returns (written: Option<string>)
      requires Valid()
      modifies this`panel
      ensures Valid()
      ensures written == if document.None? then Some(EMPTY_CATALOG_TEXT) else None
      ensures panel == old(panel) + (if document.Some? then Loaded(document.value) else [])
    {
      written := None;
      if document.Some? {
        LoadAndGenerateUI(document.value);
      } else {
        written := Some(EMPTY_CATALOG_TEXT);
      }
    }

    method LoadAndGenerateUI(document: CatalogDocument)
      modifies this`panel
      ensures panel == old(panel) + Loaded(document)
    {
      match document
      case Deserialized(members) =>
        var catalog := Deserialize(members);
        GenerateCategories(catalog);
      case NullDocument =>
      case Unreadable(message) =>
        panel := panel + [ErrorText(LOAD_ERROR_PREFIX + message)];
    }

    /** The foreach over the deserialised dictionary: one main category after another. */
    method GenerateCategories(catalog: Catalog)
      modifies this`panel
      ensures panel == old(panel) + Render(catalog)
    {
      for i := 0 to |catalog|
        invariant panel == old(panel) + Render(catalog[..i])
      {
        ghost var before := panel;
        CreateMainCategory(catalog[i].0, catalog[i].1);
        PanelStep(old(panel), before, catalog, i);
      }
      assert catalog[..|catalog|] == catalog;
    }

    /** Adds a header, then the sub-categories two per row, opening a row at every even index. */
    method CreateMainCategory(category: string, subCategories: SubCategories)
      modifies this`panel
      ensures panel == old(panel) + Section((category, subCategories))
    {
      panel := panel + [Header(category)];
      ghost var start := panel;
      var columnIndex := 0;
      var currentGrid := 0;
      while columnIndex < |subCategories|
        invariant 0 <= columnIndex <= |subCategories|
        invariant panel == start + Layout(category, subCategories[..columnIndex])
        invariant columnIndex % 2 == 1 ==> currentGrid == |panel| - 1
      {
        var sub := subCategories[columnIndex];
        GridStep(start, category, subCategories, columnIndex);
        if columnIndex % 2 == 0 {
          panel := panel + [Row([])];
          currentGrid := |panel| - 1;
        }
        var items := BuildComboBox(sub.1);
        var cell := Cell(columnIndex % 2, sub.0, SelectionKey(category, sub.0), items);
        assert cell == MakeCell(category, sub, columnIndex % 2);
        panel := panel[currentGrid := Row(panel[currentGrid].cells + [cell])];
        columnIndex := columnIndex + 1;
      }
      assert subCategories[..columnIndex] == subCategories;
    }

    /** Recomputes the prompt TextBox from the seed and the dictionary's values. */
    method UpdatePromptText()
      modifies this`promptText
      ensures promptText == Compose(charactor, selections)
    {
      promptText := ComposePrompt(charactor, selections);
    }

    /** The seed TextBox's TextChanged handler. */
    method OnSeedChanged(text: string)
      requires Valid()
      modifies this`charactor, this`promptText
      ensures Valid()
      ensures charactor == text
      ensures promptText == Compose(text, selections)
    {
      charactor := text;
      UpdatePromptText();
    }

    /** A combo box's SelectionChanged handler; `cell` is the widget, `selected` its selected item. */
    method OnSelectionChanged(cell: Cell, selected: Option<nat>)
      requires Valid()
      requires selected.Some? ==> selected.value < |cell.items|
      modifies this`selections, this`promptText
      ensures Valid()
      ensures selections == SelectionChanged(old(selections), cell, selected)
      ensures promptText == Compose(charactor, selections)
    {
      if selected.Some? && cell.items[selected.value].tag.Some? {
        selections := Set(selections, cell.key, cell.items[selected.value].tag.value);
      } else {
        selections := Remove(selections, cell.key);
      }
      UpdatePromptText();
    }
  }
}
