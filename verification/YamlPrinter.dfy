/** The structural YAML printer, and an indentation reader that undoes it.
    Keys and scalars are opaque tokens; a line is its indentation and its tokens. */
module YamlPrinter {
  import opened Wrappers

  type Key = string
  type Scalar = string

  const NULL: Scalar := "null"

  /** A document: scalars, mappings in insertion order, lists. */
  datatype Node = Leaf(text: Scalar) | Map(entries: Entries) | List(items: Items)
  datatype Entries = NoEntry | Entry(key: Key, value: Node, more: Entries)
  datatype Items = NoItem | Item(head: Node, more: Items)

  /** What a line carries after its indentation, dash and key. */
  datatype Tail = Nothing | EmptyMap | EmptyList | Text(text: Scalar)

  /** `indent` spaces, an optional dash, an optional `key:`, and the rest. */
  datatype Line = Line(indent: nat, dash: bool, key: Option<Key>, tail: Tail)

  // ----- the printer -----------------------------------------------------------------------------

  /** `_dump_dict_item` */
  function DumpEntry(key: Key, value: Node, indent: nat): seq<Line>
    decreases value, 1
  {
    match value
    case Map(NoEntry) => [Line(indent, false, Some(key), EmptyMap)]
    case List(NoItem) => [Line(indent, false, Some(key), EmptyList)]
    case Leaf(text) => [Line(indent, false, Some(key), Text(text))]
    case _ => [Line(indent, false, Some(key), Nothing)] + Dump(value, indent + 2)
  }

  /** `_dump_yaml_lines` */
  function Dump(value: Node, indent: nat): seq<Line>
    decreases value, 0
  {
    match value
    case Leaf(text) => [Line(indent, false, None, Text(text))]
    case Map(entries) => DumpEntries(entries, indent)
    case List(items) => DumpItems(items, indent)
  }

  function DumpEntries(entries: Entries, indent: nat): seq<Line> {
    match entries
    case NoEntry => []
    case Entry(key, value, more) => DumpEntry(key, value, indent) + DumpEntries(more, indent)
  }

  function DumpItems(items: Items, indent: nat): seq<Line> {
    match items
    case NoItem => []
    case Item(head, more) => DumpItem(head, indent) + DumpItems(more, indent)
  }

  function DumpItem(item: Node, indent: nat): seq<Line>
    decreases item, 1
  {
    match item
    case Leaf(text) => [Line(indent, true, None, Text(text))]
    case List(items) => [Line(indent, true, None, Nothing)] + DumpItems(items, indent + 2)
    case Map(NoEntry) => [Line(indent, true, None, EmptyMap)]
    case Map(Entry(key, child, more)) => DumpFirst(key, child, indent) + DumpEntries(more, indent + 2)
  }

  /** The first entry of a mapping inside a list shares the dash's line; an empty container prints
      nothing after the key. */
  function DumpFirst(key: Key, child: Node, indent: nat): seq<Line>
    decreases child, 1
  {
    match child
    case Leaf(text) => [Line(indent, true, Some(key), Text(text))]
    case _ => [Line(indent, true, Some(key), Nothing)] + Dump(child, indent + 4)
  }

  // ----- the reader ------------------------------------------------------------------------------

  /** A block is as wide as its first line; deeper lines belong to the line above them. */
  predicate Deeper(lines: seq<Line>, indent: nat) {
    lines != [] && lines[0].indent > indent
  }

  /** The value announced by a line: given on the line, or the deeper block below it, or null. */
  function ReadValue(tail: Tail, lines: seq<Line>, indent: nat): (r: (Node, seq<Line>))
    ensures |r.1| <= |lines|
    decreases |lines|, 3
  {
    match tail
    case Text(text) => (Leaf(text), lines)
    case EmptyMap => (Map(NoEntry), lines)
    case EmptyList => (List(NoItem), lines)
    case Nothing => if Deeper(lines, indent) then ReadBlock(lines) else (Leaf(NULL), lines)
  }

  function ReadBlock(lines: seq<Line>): (r: (Node, seq<Line>))
    ensures |r.1| <= |lines|
    decreases |lines|, 2
  {
    if lines == [] then (Leaf(NULL), lines)
    else
      var first := lines[0];
      if first.dash then
        var (items, rest) := ReadItems(lines, first.indent);
        (List(items), rest)
      else if first.key.Some? then
        var (entries, rest) := ReadEntries(lines, first.indent);
        (Map(entries), rest)
      else
        (if first.tail.Text? then Leaf(first.tail.text) else Leaf(NULL), lines[1..])
  }

  /** The entries of a mapping: the key lines of its column. */
  function ReadEntries(lines: seq<Line>, indent: nat): (r: (Entries, seq<Line>))
    ensures |r.1| <= |lines|
    decreases |lines|, 1
  {
    if lines == [] || lines[0].indent != indent || lines[0].dash || lines[0].key.None? then (NoEntry, lines)
    else
      var (value, rest) := ReadValue(lines[0].tail, lines[1..], indent);
      var (more, rest') := ReadEntries(rest, indent);
      (Entry(lines[0].key.value, value, more), rest')
  }

  /** The items of a list: the dash lines of its column. A key after the dash opens a mapping two
      columns in, which the following lines of that column continue. */
  function ReadItems(lines: seq<Line>, indent: nat): (r: (Items, seq<Line>))
    ensures |r.1| <= |lines|
    decreases |lines|, 1
  {
    if lines == [] || lines[0].indent != indent || !lines[0].dash then (NoItem, lines)
    else if lines[0].key.Some? then
      var (value, rest) := ReadValue(lines[0].tail, lines[1..], indent + 2);
      var (others, rest') := ReadEntries(rest, indent + 2);
      var (more, rest'') := ReadItems(rest', indent);
      (Item(Map(Entry(lines[0].key.value, value, others)), more), rest'')
    else
      var (value, rest) := ReadValue(lines[0].tail, lines[1..], indent);
      var (more, rest') := ReadItems(rest, indent);
      (Item(value, more), rest')
  }

  /** A whole document: one block and nothing after it. */
  function Read(lines: seq<Line>): Option<Node> {
    var (value, rest) := ReadBlock(lines);
    if rest == [] then Some(value) else None
  }

  // ----- what the printer loses ------------------------------------------------------------------

  predicate Empty(value: Node) {
    value == Map(NoEntry) || value == List(NoItem)
  }

  /** What a container that may print nothing reads back as. */
  function Lost(value: Node): Node
    decreases value, 1
  {
    if Empty(value) then Leaf(NULL) else Kept(value)
  }

  /** The document with every container the printer drops replaced by null: an empty list as a list
      item, and an empty container as the first value of a mapping that is a list item. */
  function Kept(value: Node): Node
    decreases value, 0
  {
    match value
    case Leaf(_) => value
    case Map(entries) => Map(KeptEntries(entries))
    case List(items) => List(KeptItems(items))
  }

  function KeptEntries(entries: Entries): Entries {
    match entries
    case NoEntry => NoEntry
    case Entry(key, value, more) => Entry(key, Kept(value), KeptEntries(more))
  }

  function KeptItems(items: Items): Items {
    match items
    case NoItem => NoItem
    case Item(head, more) => Item(KeptItem(head), KeptItems(more))
  }

  function KeptItem(item: Node): Node {
    match item
    case Leaf(_) => item
    case List(NoItem) => Leaf(NULL)
    case List(items) => List(KeptItems(items))
    case Map(NoEntry) => item
    case Map(Entry(key, child, more)) => Map(Entry(key, Lost(child), KeptEntries(more)))
  }

  /** No container the printer drops. */
  predicate Printable(value: Node) {
    match value
    case Leaf(_) => true
    case Map(entries) => PrintableEntries(entries)
    case List(items) => PrintableItems(items)
  }

  predicate PrintableEntries(entries: Entries) {
    match entries
    case NoEntry => true
    case Entry(_, value, more) => Printable(value) && PrintableEntries(more)
  }

  predicate PrintableItems(items: Items) {
    match items
    case NoItem => true
    case Item(head, more) => PrintableItem(head) && PrintableItems(more)
  }

  predicate PrintableItem(item: Node) {
    match item
    case Leaf(_) => true
    case List(items) => items != NoItem && PrintableItems(items)
    case Map(NoEntry) => true
    case Map(Entry(_, child, more)) => !Empty(child) && Printable(child) && PrintableEntries(more)
  }

  lemma {:induction false} KeptIffPrintable(value: Node)
    ensures Kept(value) == value <==> Printable(value)
    decreases value, 0
  {
    match value
    case Leaf(_) =>
    case Map(entries) => KeptEntriesIffPrintable(entries);
    case List(items) => KeptItemsIffPrintable(items);
  }

  lemma {:induction false} KeptEntriesIffPrintable(entries: Entries)
    ensures KeptEntries(entries) == entries <==> PrintableEntries(entries)
  {
    match entries
    case NoEntry =>
    case Entry(_, value, more) =>
      KeptIffPrintable(value);
      KeptEntriesIffPrintable(more);
  }

  lemma {:induction false} KeptItemsIffPrintable(items: Items)
    ensures KeptItems(items) == items <==> PrintableItems(items)
  {
    match items
    case NoItem =>
    case Item(head, more) =>
      KeptItemIffPrintable(head);
      KeptItemsIffPrintable(more);
  }

  lemma {:induction false} KeptItemIffPrintable(item: Node)
    ensures KeptItem(item) == item <==> PrintableItem(item)
  {
    match item
    case Leaf(_) =>
    case List(items) => KeptItemsIffPrintable(items);
    case Map(NoEntry) =>
    case Map(Entry(_, child, more)) =>
      KeptIffPrintable(child);
      KeptEntriesIffPrintable(more);
  }

  // ----- reading back what was printed -----------------------------------------------------------

  /** The lines after a block at this column: none, or to the left of it. */
  predicate Ends(rest: seq<Line>, indent: nat) {
    rest == [] || rest[0].indent < indent
  }

  lemma EntriesStart(entries: Entries, indent: nat)
    ensures var lines := DumpEntries(entries, indent);
            if entries == NoEntry then lines == []
            else lines != [] && lines[0].indent == indent && !lines[0].dash && lines[0].key.Some?
  {
    if entries.Entry? {
      assert DumpEntry(entries.key, entries.value, indent)[0].indent == indent;
    }
  }

  lemma ItemsStart(items: Items, indent: nat)
    ensures var lines := DumpItems(items, indent);
            if items == NoItem then lines == [] else lines != [] && lines[0].indent == indent && lines[0].dash
  {
    if items.Item? {
      ItemStart(items.head, indent);
    }
  }

  lemma ItemStart(item: Node, indent: nat)
    ensures var lines := DumpItem(item, indent); lines != [] && lines[0].indent == indent && lines[0].dash
  {
    match item
    case Leaf(_) =>
    case List(_) =>
    case Map(NoEntry) =>
    case Map(Entry(key, child, _)) => assert DumpFirst(key, child, indent)[0].dash;
  }

  /** A block is read back whole, and reading stops where the block stops. */
  lemma {:induction false} ReadsBlock(value: Node, indent: nat, rest: seq<Line>)
    requires !Empty(value) && Ends(rest, indent)
    ensures ReadBlock(Dump(value, indent) + rest) == (Kept(value), rest)
    ensures Dump(value, indent) != [] && Dump(value, indent)[0].indent == indent
    decreases value, 1
  {
    match value
    case Leaf(text) =>
      assert ([Line(indent, false, None, Text(text))] + rest)[1..] == rest;
    case Map(entries) =>
      EntriesStart(entries, indent);
      ReadsEntries(entries, indent, rest);
    case List(items) =>
      ItemsStart(items, indent);
      ReadsItems(items, indent, rest);
  }

  /** The value under a key or dash whose children print at `deep`, to the right of column `indent`. */
  lemma {:induction false} ReadsNested(value: Node, indent: nat, deep: nat, rest: seq<Line>)
    requires indent < deep && Ends(rest, indent + 1)
    ensures ReadValue(Nothing, Dump(value, deep) + rest, indent) == (Lost(value), rest)
    decreases value, 2
  {
    if Empty(value) {
      assert Dump(value, deep) + rest == rest;
    } else {
      ReadsBlock(value, deep, rest);
      assert (Dump(value, deep) + rest)[0] == Dump(value, deep)[0];
    }
  }

  lemma {:induction false} ReadsEntries(entries: Entries, indent: nat, rest: seq<Line>)
    requires Ends(rest, indent)
    ensures ReadEntries(DumpEntries(entries, indent) + rest, indent) == (KeptEntries(entries), rest)
    decreases entries, 0
  {
    hide DumpEntry, ReadValue, Kept;
    match entries
    case NoEntry =>
      assert DumpEntries(entries, indent) + rest == rest;
    case Entry(key, value, more) =>
      var after := DumpEntries(more, indent) + rest;
      var head := DumpEntry(key, value, indent);
      EntriesStart(more, indent);
      ReadsEntry(key, value, indent, after);
      ReadsEntries(more, indent, rest);
      var lines := DumpEntries(entries, indent) + rest;
      assert lines == head + after && lines[0] == head[0] && lines[1..] == head[1..] + after;
  }

  lemma {:induction false} ReadsEntry(key: Key, value: Node, indent: nat, after: seq<Line>)
    requires Ends(after, indent + 1)
    ensures var head := DumpEntry(key, value, indent);
            && head != [] && head[0] == Line(indent, false, Some(key), head[0].tail)
            && ReadValue(head[0].tail, head[1..] + after, indent) == (Kept(value), after)
    decreases value, 3
  {
    var head := DumpEntry(key, value, indent);
    if value.Leaf? || Empty(value) {
      assert head[1..] + after == after;
    } else {
      assert head[1..] == Dump(value, indent + 2);
      ReadsNested(value, indent, indent + 2, after);
    }
  }

  lemma {:induction false} ReadsItems(items: Items, indent: nat, rest: seq<Line>)
    requires Ends(rest, indent)
    ensures ReadItems(DumpItems(items, indent) + rest, indent) == (KeptItems(items), rest)
    decreases items, 0
  {
    match items
    case NoItem =>
      assert DumpItems(items, indent) + rest == rest;
    case Item(head, more) =>
      var after := DumpItems(more, indent) + rest;
      var lines := DumpItem(head, indent);
      ItemsStart(more, indent);
      ItemStart(head, indent);
      assert DumpItems(items, indent) + rest == lines + after;
      assert (lines + after)[0] == lines[0] && (lines + after)[1..] == lines[1..] + after;
      ReadsItems(more, indent, rest);
      hide DumpItems, Ends;
      match head {
        case Leaf(_) => assert lines[1..] + after == after;
        case List(inner) =>
          assert lines[1..] == Dump(head, indent + 2);
          ReadsNested(head, indent, indent + 2, after);
        case Map(NoEntry) => assert lines[1..] + after == after;
        case Map(entries) => ReadsFirst(entries, indent, after);
      }
  }

  /** The rest of a mapping that starts on a dash's line. */
  lemma {:induction false} ReadsFirst(entries: Entries, indent: nat, after: seq<Line>)
    requires entries.Entry? && Ends(after, indent + 1)
    ensures var lines := DumpItem(Map(entries), indent);
            && lines != [] && lines[0] == Line(indent, true, Some(entries.key), lines[0].tail)
            && var (value, left) := ReadValue(lines[0].tail, lines[1..] + after, indent + 2);
            value == Lost(entries.value) && ReadEntries(left, indent + 2) == (KeptEntries(entries.more), after)
    decreases entries, 0
  {
    var Entry(key, child, others) := entries;
    var first, tail := DumpFirst(key, child, indent), DumpEntries(others, indent + 2) + after;
    var lines := first + DumpEntries(others, indent + 2);
    EntriesStart(others, indent + 2);
    assert lines[1..] + after == first[1..] + tail;
    if child.Leaf? {
      assert first[1..] + tail == tail;
    } else {
      assert first[1..] == Dump(child, indent + 4);
      ReadsNested(child, indent + 2, indent + 4, tail);
    }
    ReadsEntries(others, indent + 2, after);
  }

  /** Printing and reading back, for every document: what was printed comes back, and each container
      the printer drops comes back as null. */
  lemma ReadsBack(value: Node)
    ensures Read(Dump(value, 0)) == Some(Lost(value))
  {
    if Empty(value) {
      assert Dump(value, 0) == [];
    } else {
      ReadsBlock(value, 0, []);
      assert Dump(value, 0) + [] == Dump(value, 0);
    }
  }

  /** The printed document says the same as the document exactly when nothing in it is dropped. */
  lemma RoundTripExactly(value: Node)
    ensures Read(Dump(value, 0)) == Some(value) <==> !Empty(value) && Printable(value)
  {
    ReadsBack(value);
    KeptIffPrintable(value);
  }

  /** Two documents that print alike differ only in dropped containers; printable ones are equal. */
  lemma PrintingIsInjective(a: Node, b: Node)
    requires Dump(a, 0) == Dump(b, 0)
    ensures Lost(a) == Lost(b)
    ensures Printable(a) && Printable(b) && !Empty(a) && !Empty(b) ==> a == b
  {
    ReadsBack(a);
    ReadsBack(b);
    KeptIffPrintable(a);
    KeptIffPrintable(b);
  }
}
