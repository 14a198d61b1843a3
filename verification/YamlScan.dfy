/** The YAML safety scan: one pass over the parser's events with a stack of open
    collections, against a recursive reading of the same document as a tree.
    Source: crates/pve-meta-core/src/format.rs. */
module YamlScan {
  import opened Values

  /** What a node carries besides its content; 0 is "no anchor". */
  datatype Props = Props(anchor: nat, tagged: bool)

  datatype Node =
    | Ref
    | Scalar(props: Props)
    | Sequence(props: Props, items: seq<Node>)
    | Mapping(props: Props, entries: seq<Entry>)

  datatype Entry = Entry(key: Node, value: Node)

  datatype Event =
    | AliasEvent
    | ScalarEvent(props: Props)
    | SequenceStart(props: Props)
    | SequenceEnd
    | MappingStart(props: Props)
    | MappingEnd
    | Marker

  datatype Fault = Alias | Anchor | Tag | ComplexKey

  // ---------------------------------------------------------------- the document, read as a tree

  function EventsOf(n: Node): seq<Event>
    decreases n, 1
  {
    match n
    case Ref => [AliasEvent]
    case Scalar(p) => [ScalarEvent(p)]
    case Sequence(p, items) => [SequenceStart(p)] + ItemEvents(items) + [SequenceEnd]
    case Mapping(p, entries) => [MappingStart(p)] + TableEvents(entries) + [MappingEnd]
  }

  function ItemEvents(items: seq<Node>): seq<Event>
    decreases items, 0
  {
    if items == [] then [] else EventsOf(items[0]) + ItemEvents(items[1..])
  }

  function TableEvents(entries: seq<Entry>): seq<Event>
    decreases entries, 0
  {
    if entries == [] then [] else EntryEvents(entries[0]) + TableEvents(entries[1..])
  }

  function EntryEvents(e: Entry): seq<Event>
    decreases e, 0
  {
    EventsOf(e.key) + EventsOf(e.value)
  }

  function DocumentEvents(docs: seq<Node>): seq<Event> {
    if docs == [] then [] else [Marker] + EventsOf(docs[0]) + [Marker] + DocumentEvents(docs[1..])
  }

  /** A whole text: any number of documents between the stream's own marks. */
  function StreamEvents(docs: seq<Node>): seq<Event> {
    [Marker] + DocumentEvents(docs) + [Marker]
  }

  predicate Bare(p: Props) {
    p.anchor == 0 && !p.tagged
  }

  /** What the store accepts: no alias, anchor or tag anywhere, and only scalars for keys. */
  predicate Safe(n: Node)
    decreases n, 1
  {
    match n
    case Ref => false
    case Scalar(p) => Bare(p)
    case Sequence(p, items) => Bare(p) && forall i :: 0 <= i < |items| ==> Safe(items[i])
    case Mapping(p, entries) =>
      Bare(p) && forall i :: 0 <= i < |entries| ==> SafeEntry(entries[i])
  }

  predicate SafeEntry(e: Entry)
    decreases e, 0
  {
    e.key.Scalar? && Safe(e.key) && Safe(e.value)
  }

  /** Where a document first offends: the fault, and how many events come before it. */
  datatype Offence = Offence(fault: Fault, at: nat)

  function Later(o: Option<Offence>, n: nat): Option<Offence> {
    if o.None? then None else Some(Offence(o.value.fault, o.value.at + n))
  }

  function PropsFault(p: Props): Option<Fault> {
    if p.anchor != 0 then Some(Anchor) else if p.tagged then Some(Tag) else None
  }

  function FirstOffence(n: Node, isKey: bool): Option<Offence>
    decreases n, 1
  {
    if n.Ref? then Some(Offence(Alias, 0))
    else if PropsFault(n.props).Some? then Some(Offence(PropsFault(n.props).value, 0))
    else match n
      case Scalar(_) => None
      case Sequence(_, items) => if isKey then Some(Offence(ComplexKey, 0)) else Later(ItemsOffence(items), 1)
      case Mapping(_, entries) => if isKey then Some(Offence(ComplexKey, 0)) else Later(TableOffence(entries), 1)
  }

  function ItemsOffence(items: seq<Node>): Option<Offence>
    decreases items, 0
  {
    if items == [] then None
    else
      var first := FirstOffence(items[0], false);
      if first.Some? then first else Later(ItemsOffence(items[1..]), |EventsOf(items[0])|)
  }

  function TableOffence(entries: seq<Entry>): Option<Offence>
    decreases entries, 0
  {
    if entries == [] then None
    else
      var first := EntryOffence(entries[0]);
      if first.Some? then first else Later(TableOffence(entries[1..]), |EntryEvents(entries[0])|)
  }

  function EntryOffence(e: Entry): Option<Offence>
    decreases e, 0
  {
    var key := FirstOffence(e.key, true);
    if key.Some? then key else Later(FirstOffence(e.value, false), |EventsOf(e.key)|)
  }

  /** No offence and safe are the same, at every depth. */
  lemma {:induction false} SafeIffNoOffence(n: Node, isKey: bool)
    ensures FirstOffence(n, isKey).None? <==> Safe(n) && (isKey ==> n.Scalar?)
    decreases n, 1
  {
    match n
    case Ref =>
    case Scalar(_) =>
    case Sequence(_, items) => ItemsSafe(items);
    case Mapping(_, entries) => TableSafe(entries);
  }

  lemma {:induction false} ItemsSafe(items: seq<Node>)
    ensures ItemsOffence(items).None? <==> forall i :: 0 <= i < |items| ==> Safe(items[i])
    decreases items, 0
  {
    if items != [] {
      SafeIffNoOffence(items[0], false);
      ItemsSafe(items[1..]);
      assert items == [items[0]] + items[1..];
    }
  }

  lemma {:induction false} TableSafe(entries: seq<Entry>)
    ensures TableOffence(entries).None? <==> forall i :: 0 <= i < |entries| ==> SafeEntry(entries[i])
    decreases entries, 0
  {
    if entries != [] {
      EntrySafe(entries[0]);
      TableSafe(entries[1..]);
      assert entries == [entries[0]] + entries[1..];
    }
  }

  lemma {:induction false} EntrySafe(e: Entry)
    ensures EntryOffence(e).None? <==> SafeEntry(e)
    decreases e, 0
  {
    SafeIffNoOffence(e.key, true);
    SafeIffNoOffence(e.value, false);
  }

  // ---------------------------------------------------------------- the document, read as events

  datatype Ctx = Seq | Map(expectKey: bool)

  datatype Progress = Going(stack: seq<Ctx>) | Refused(offence: Offence)

  predicate InKeyPosition(stack: seq<Ctx>) {
    stack != [] && stack[|stack| - 1] == Map(true)
  }

  /** A child of the innermost open collection is complete. */
  function NoteChild(stack: seq<Ctx>): seq<Ctx> {
    if stack != [] && stack[|stack| - 1].Map?
    then stack[..|stack| - 1] + [Map(!stack[|stack| - 1].expectKey)]
    else stack
  }

  function Pop(stack: seq<Ctx>): seq<Ctx> {
    if stack == [] then [] else stack[..|stack| - 1]
  }

  function Enter(stack: seq<Ctx>, p: Props, ctx: Ctx): Progress {
    if PropsFault(p).Some? then Refused(Offence(PropsFault(p).value, 0))
    else if InKeyPosition(stack) then Refused(Offence(ComplexKey, 0))
    else Going(stack + [ctx])
  }

  function Step(stack: seq<Ctx>, e: Event): Progress {
    match e
    case AliasEvent => Refused(Offence(Alias, 0))
    case ScalarEvent(p) => if PropsFault(p).Some? then Refused(Offence(PropsFault(p).value, 0)) else Going(NoteChild(stack))
    case SequenceStart(p) => Enter(stack, p, Seq)
    case MappingStart(p) => Enter(stack, p, Map(true))
    case SequenceEnd => Going(NoteChild(Pop(stack)))
    case MappingEnd => Going(NoteChild(Pop(stack)))
    case Marker => Going(stack)
  }

  function After(p: Progress, n: nat): Progress {
    if p.Going? then p else Refused(Offence(p.offence.fault, p.offence.at + n))
  }

  function Run(stack: seq<Ctx>, events: seq<Event>): Progress
    decreases |events|
  {
    if events == [] then Going(stack)
    else
      var p := Step(stack, events[0]);
      if p.Refused? then p else After(Run(p.stack, events[1..]), 1)
  }

  lemma {:induction false} RunOn(stack: seq<Ctx>, a: seq<Event>, b: seq<Event>)
    ensures Run(stack, a + b) ==
            var p := Run(stack, a); if p.Refused? then p else After(Run(p.stack, b), |a|)
    decreases |a|
  {
    hide Step;
    if a == [] {
      assert a + b == b;
    } else {
      assert (a + b)[0] == a[0] && (a + b)[1..] == a[1..] + b;
      var p := Step(stack, a[0]);
      if p.Going? { RunOn(p.stack, a[1..], b); }
    }
  }

  /** `scan_yaml_safety` over the parser's events. */
  method Scan(events: seq<Event>) returns (refused: Option<Offence>)
    ensures refused == match Run([], events) case Going(_) => None case Refused(o) => Some(o)
  {
    var stack: seq<Ctx> := [];
    for i := 0 to |events|
      invariant Run([], events) == After(Run(stack, events[i..]), i)
    {
      var rest := events[i..];
      assert rest[1..] == events[i + 1..];
      match events[i] {
        case AliasEvent => return Some(Offence(Alias, i));
        case ScalarEvent(p) =>
          if p.anchor != 0 { return Some(Offence(Anchor, i)); }
          if p.tagged { return Some(Offence(Tag, i)); }
          stack := NoteChild(stack);
        case SequenceStart(p) =>
          if p.anchor != 0 { return Some(Offence(Anchor, i)); }
          if p.tagged { return Some(Offence(Tag, i)); }
          if InKeyPosition(stack) { return Some(Offence(ComplexKey, i)); }
          stack := stack + [Seq];
        case MappingStart(p) =>
          if p.anchor != 0 { return Some(Offence(Anchor, i)); }
          if p.tagged { return Some(Offence(Tag, i)); }
          if InKeyPosition(stack) { return Some(Offence(ComplexKey, i)); }
          stack := stack + [Map(true)];
        case SequenceEnd => stack := NoteChild(Pop(stack));
        case MappingEnd => stack := NoteChild(Pop(stack));
        case Marker =>
      }
    }
    return None;
  }

  // ---------------------------------------------------------------- the two readings agree

  /** What reading a node's events does, from whatever stack it starts. */
  function Verdict(offence: Option<Offence>, stack: seq<Ctx>): Progress {
    match offence case None => Going(stack) case Some(o) => Refused(o)
  }

  lemma {:induction false} NodeRuns(stack: seq<Ctx>, n: Node)
    ensures Run(stack, EventsOf(n)) == Verdict(FirstOffence(n, InKeyPosition(stack)), NoteChild(stack))
    decreases n, 1
  {
    match n
    case Ref => assert EventsOf(n)[1..] == [];
    case Scalar(_) => assert EventsOf(n)[1..] == [];
    case Sequence(p, items) =>
      if PropsFault(p).None? && !InKeyPosition(stack) {
        ItemsRun(stack + [Seq], items);
        Enclosed(stack, EventsOf(n)[0], Seq, ItemEvents(items), SequenceEnd, ItemsOffence(items), Seq);
      }
    case Mapping(p, entries) =>
      if PropsFault(p).None? && !InKeyPosition(stack) {
        TableRuns(stack, entries);
        Enclosed(stack, EventsOf(n)[0], Map(true), TableEvents(entries), MappingEnd, TableOffence(entries), Map(true));
      }
  }

  /** An opening event, what is inside, and the closing one. */
  lemma Enclosed(stack: seq<Ctx>, open: Event, ctx: Ctx, inner: seq<Event>, close: Event, offence: Option<Offence>, left: Ctx)
    requires Step(stack, open) == Going(stack + [ctx])
    requires Run(stack + [ctx], inner) == Verdict(offence, stack + [left])
    requires close.SequenceEnd? || close.MappingEnd?
    ensures Run(stack, [open] + inner + [close]) == Verdict(Later(offence, 1), NoteChild(stack))
  {
    hide Run, NoteChild;
    RunFirst(stack, open, inner + [close]);
    assert [open] + inner + [close] == [open] + (inner + [close]);
    RunOn(stack + [ctx], inner, [close]);
    RunOne(stack + [left], close);
    assert Pop(stack + [left]) == stack;
  }

  lemma RunFirst(stack: seq<Ctx>, e: Event, rest: seq<Event>)
    requires Step(stack, e).Going?
    ensures Run(stack, [e] + rest) == After(Run(Step(stack, e).stack, rest), 1)
  {
    hide Step;
    assert ([e] + rest)[1..] == rest;
  }

  lemma RunOne(stack: seq<Ctx>, e: Event)
    ensures Run(stack, [e]) == Step(stack, e)
  {
    hide Step;
    assert [e][1..] == [];
  }

  lemma {:induction false} ItemsRun(stack: seq<Ctx>, items: seq<Node>)
    requires stack != [] && stack[|stack| - 1] == Seq
    ensures Run(stack, ItemEvents(items)) == Verdict(ItemsOffence(items), stack)
    decreases items, 0
  {
    if items != [] {
      NodeRuns(stack, items[0]);
      ItemsRun(stack, items[1..]);
      RunOn(stack, EventsOf(items[0]), ItemEvents(items[1..]));
    }
  }

  lemma {:induction false} TableRuns(stack: seq<Ctx>, entries: seq<Entry>)
    ensures Run(stack + [Map(true)], TableEvents(entries)) == Verdict(TableOffence(entries), stack + [Map(true)])
    decreases entries, 0
  {
    hide Run, EntryEvents, EntryOffence;
    if entries == [] {
      RunNothing(stack + [Map(true)]);
    } else {
      EntryRuns(stack, entries[0]);
      TableRuns(stack, entries[1..]);
      RunOn(stack + [Map(true)], EntryEvents(entries[0]), TableEvents(entries[1..]));
    }
  }

  lemma RunNothing(stack: seq<Ctx>)
    ensures Run(stack, []) == Going(stack)
  {
  }

  lemma Toggled(stack: seq<Ctx>)
    ensures NoteChild(stack + [Map(true)]) == stack + [Map(false)]
    ensures NoteChild(stack + [Map(false)]) == stack + [Map(true)]
  {
  }

  lemma {:induction false} EntryRuns(stack: seq<Ctx>, e: Entry)
    ensures Run(stack + [Map(true)], EntryEvents(e)) == Verdict(EntryOffence(e), stack + [Map(true)])
    decreases e, 0
  {
    hide Run, EventsOf, FirstOffence, NoteChild;
    Toggled(stack);
    NodeRuns(stack + [Map(true)], e.key);
    NodeRuns(stack + [Map(false)], e.value);
    RunOn(stack + [Map(true)], EventsOf(e.key), EventsOf(e.value));
  }

  function DocumentsOffence(docs: seq<Node>): Option<Offence> {
    if docs == [] then None
    else
      var first := Later(FirstOffence(docs[0], false), 1);
      if first.Some? then first else Later(DocumentsOffence(docs[1..]), |EventsOf(docs[0])| + 2)
  }

  lemma MarkerFirst(stack: seq<Ctx>, rest: seq<Event>)
    ensures Run(stack, [Marker] + rest) == After(Run(stack, rest), 1)
  {
    hide Run;
    RunFirst(stack, Marker, rest);
  }

  /** One document between its markers, and then the others. */
  lemma DocumentFirst(doc: seq<Event>, rest: seq<Event>)
    ensures Run([], [Marker] + doc + [Marker] + rest) ==
            var p := Run([], doc);
            if p.Refused? then After(p, 1) else After(Run(p.stack, rest), |doc| + 2)
  {
    hide Run;
    var p := Run([], doc);
    RunOn([], doc, [Marker] + rest);
    if p.Going? { MarkerFirst(p.stack, rest); }
    MarkerFirst([], doc + ([Marker] + rest));
    assert [Marker] + doc + [Marker] + rest == [Marker] + (doc + ([Marker] + rest));
  }

  lemma {:induction false} DocumentsRun(docs: seq<Node>)
    ensures Run([], DocumentEvents(docs)) == Verdict(DocumentsOffence(docs), [])
  {
    if docs != [] {
      hide Run, EventsOf, FirstOffence;
      NodeRuns([], docs[0]);
      DocumentsRun(docs[1..]);
      DocumentFirst(EventsOf(docs[0]), DocumentEvents(docs[1..]));
    }
  }

  /** The scan of a text stops at the first offence of its documents, and nowhere else. */
  lemma StreamRuns(docs: seq<Node>)
    ensures Run([], StreamEvents(docs)) == Verdict(Later(DocumentsOffence(docs), 1), [])
  {
    hide Run;
    DocumentsRun(docs);
    RunOn([], DocumentEvents(docs), [Marker]);
    RunOne([], Marker);
    MarkerFirst([], DocumentEvents(docs) + [Marker]);
    assert StreamEvents(docs) == [Marker] + (DocumentEvents(docs) + [Marker]);
  }

  lemma {:induction false} DocumentsSafe(docs: seq<Node>)
    ensures DocumentsOffence(docs).None? <==> forall i :: 0 <= i < |docs| ==> Safe(docs[i])
  {
    if docs != [] {
      SafeIffNoOffence(docs[0], false);
      DocumentsSafe(docs[1..]);
      assert docs == [docs[0]] + docs[1..];
    }
  }

  /** The stream is accepted exactly when every document in it is safe. */
  lemma AcceptsIffSafe(docs: seq<Node>)
    ensures Run([], StreamEvents(docs)).Going? <==> forall i :: 0 <= i < |docs| ==> Safe(docs[i])
  {
    StreamRuns(docs);
    DocumentsSafe(docs);
  }

  // ---------------------------------------------------------------- the stack mirrors the open nodes

  /** The collections still open after the first `k` events of `n`, outermost first; a
      mapping waits for a key exactly when as many keys as values are complete. */
  function OpenAt(n: Node, k: nat): seq<Ctx>
    requires k <= |EventsOf(n)|
    decreases n, 1
  {
    if k == 0 || k == |EventsOf(n)| then []
    else match n
      case Ref => []
      case Scalar(_) => []
      case Sequence(_, items) => [Seq] + OpenInItems(items, k - 1)
      case Mapping(_, entries) => OpenInTable(entries, k - 1)
  }

  function OpenInItems(items: seq<Node>, k: nat): seq<Ctx>
    requires k <= |ItemEvents(items)|
    decreases items, 0
  {
    if items == [] then []
    else if k < |EventsOf(items[0])| then OpenAt(items[0], k)
    else OpenInItems(items[1..], k - |EventsOf(items[0])|)
  }

  function OpenInTable(entries: seq<Entry>, k: nat): seq<Ctx>
    requires k <= |TableEvents(entries)|
    decreases entries, 0
  {
    if entries == [] then [Map(true)]
    else if k < |EntryEvents(entries[0])| then OpenInEntry(entries[0], k)
    else OpenInTable(entries[1..], k - |EntryEvents(entries[0])|)
  }

  function OpenInEntry(e: Entry, k: nat): seq<Ctx>
    requires k < |EntryEvents(e)|
    decreases e, 0
  {
    var a := |EventsOf(e.key)|;
    if k < a then [Map(true)] + OpenAt(e.key, k) else [Map(false)] + OpenAt(e.value, k - a)
  }

  /** Reading on: a prefix of a longer run. */
  lemma RunBeyond(stack: seq<Ctx>, a: seq<Event>, b: seq<Event>, k: nat)
    requires |a| <= k <= |a| + |b| && Run(stack, a).Going?
    ensures Run(stack, (a + b)[..k]) == After(Run(Run(stack, a).stack, b[..k - |a|]), |a|)
  {
    assert (a + b)[..k] == a + b[..k - |a|];
    RunOn(stack, a, b[..k - |a|]);
  }

  /** At any point of a safe node the scanner's stack is what it started with and then
      exactly the collections that are open at that point. */
  lemma {:induction false} StackMirrors(stack: seq<Ctx>, n: Node, k: nat)
    requires Safe(n) && (InKeyPosition(stack) ==> n.Scalar?) && k < |EventsOf(n)|
    ensures Run(stack, EventsOf(n)[..k]) == Going(stack + OpenAt(n, k))
    decreases n, 1
  {
    hide Run;
    var all := EventsOf(n);
    if k == 0 {
      assert all[..0] == [] && stack + [] == stack;
      RunNothing(stack);
    } else if n.Sequence? {
      ItemsMirror(stack + [Seq], n.items, k - 1);
      OpenedFirst(stack, all[0], ItemEvents(n.items), SequenceEnd, k);
      assert stack + [Seq] + OpenInItems(n.items, k - 1) == stack + OpenAt(n, k);
    } else {
      TableMirrors(stack, n.entries, k - 1);
      OpenedFirst(stack, all[0], TableEvents(n.entries), MappingEnd, k);
    }
  }

  /** Inside a collection: its opening event, and then a part of what it holds. */
  lemma OpenedFirst(stack: seq<Ctx>, open: Event, inner: seq<Event>, close: Event, k: nat)
    requires Step(stack, open).Going? && 0 < k <= |inner| + 1
    ensures Run(stack, ([open] + inner + [close])[..k]) == After(Run(Step(stack, open).stack, inner[..k - 1]), 1)
  {
    hide Run, Step;
    RunFirst(stack, open, inner[..k - 1]);
    assert ([open] + inner + [close])[..k] == [open] + inner[..k - 1];
  }

  lemma {:induction false} ItemsMirror(stack: seq<Ctx>, items: seq<Node>, k: nat)
    requires stack != [] && stack[|stack| - 1] == Seq && k <= |ItemEvents(items)|
    requires forall i :: 0 <= i < |items| ==> Safe(items[i])
    ensures Run(stack, ItemEvents(items)[..k]) == Going(stack + OpenInItems(items, k))
    decreases items, 0
  {
    if items == [] {
      assert stack + [] == stack;
    } else {
      var first, rest := EventsOf(items[0]), ItemEvents(items[1..]);
      if k < |first| {
        StackMirrors(stack, items[0], k);
        assert (first + rest)[..k] == first[..k];
      } else {
        NodeRuns(stack, items[0]);
        SafeIffNoOffence(items[0], false);
        RunBeyond(stack, first, rest, k);
        ItemsMirror(stack, items[1..], k - |first|);
      }
    }
  }

  lemma {:induction false} TableMirrors(stack: seq<Ctx>, entries: seq<Entry>, k: nat)
    requires k <= |TableEvents(entries)|
    requires forall i :: 0 <= i < |entries| ==> SafeEntry(entries[i])
    ensures Run(stack + [Map(true)], TableEvents(entries)[..k]) == Going(stack + OpenInTable(entries, k))
    decreases entries, 0
  {
    hide Run, EntryEvents, EntryOffence, SafeEntry, OpenInEntry;
    if entries == [] {
      assert TableEvents(entries)[..k] == [];
      RunNothing(stack + [Map(true)]);
    } else {
      var first, rest := EntryEvents(entries[0]), TableEvents(entries[1..]);
      if k < |first| {
        EntryMirrors(stack, entries[0], k);
        assert (first + rest)[..k] == first[..k];
      } else {
        EntryRuns(stack, entries[0]);
        EntrySafe(entries[0]);
        RunBeyond(stack + [Map(true)], first, rest, k);
        TableMirrors(stack, entries[1..], k - |first|);
      }
    }
  }

  lemma {:induction false} EntryMirrors(stack: seq<Ctx>, e: Entry, k: nat)
    requires SafeEntry(e) && k < |EntryEvents(e)|
    ensures Run(stack + [Map(true)], EntryEvents(e)[..k]) == Going(stack + OpenInEntry(e, k))
    decreases e, 0
  {
    hide Run, EventsOf, FirstOffence, NoteChild, Safe, OpenAt;
    var a, b := EventsOf(e.key), EventsOf(e.value);
    var at, mid := stack + [Map(true)], stack + [Map(false)];
    if k < |a| {
      StackMirrors(at, e.key, k);
      assert (a + b)[..k] == a[..k];
      assert at + OpenAt(e.key, k) == stack + ([Map(true)] + OpenAt(e.key, k));
    } else {
      Toggled(stack);
      NodeRuns(at, e.key);
      SafeIffNoOffence(e.key, true);
      RunBeyond(at, a, b, k);
      StackMirrors(mid, e.value, k - |a|);
      assert mid + OpenAt(e.value, k - |a|) == stack + ([Map(false)] + OpenAt(e.value, k - |a|));
    }
  }
}
