/** Building rendered nodes from a markdown event stream. Two readers share one
    iterator: one builds nodes, the other collapses an image's children to text. */
module MarkdownTree {
  import opened Text
  import opened SafeLinks

  datatype Alignment = Unaligned | Left | Center | Right

  /** What a tag carries: `reference` and `attributes` stand for whatever else the
      tokeniser says about a link or a heading. */
  datatype Tag =
    | Image(dest: string, title: string, reference: string)
    | Link(dest: string, title: string, reference: string)
    | Paragraph
    | Heading(level: nat, attributes: string)
    | BlockQuote(kind: Option<string>)
    | CodeBlock(language: Option<string>)
    | List(start: Option<nat>)
    | Item
    | Emphasis
    | Strong
    | Strikethrough
    | Table(alignments: seq<Alignment>)
    | TableHead
    | TableRow
    | TableCell
    | OtherTag(name: string)

  /** An event that neither opens nor closes anything. */
  datatype Leaf =
    | Words(text: string)
    | Code(text: string)
    | SoftBreak
    | HardBreak
    | Rule
    | TaskMarker(checked: bool)
    | RawHtml(html: string)
    | OtherLeaf

  datatype Event = Start(tag: Tag) | End(closes: Tag) | Inline(leaf: Leaf)

  datatype Node =
    | Elem(name: string, kids: seq<Node>)
    | Anchor(href: string, title: string, kids: seq<Node>)
    | Img(src: string, alt: string, title: string)
    | Str(text: string)
    | Br
    | Hr
    | Checkbox(checked: bool)
    | Fragment(kids: seq<Node>)

  // ---------------------------------------------------------------- one node

  function RenderTag(tag: Tag, kids: seq<Node>): Node {
    match tag
    case Paragraph => Elem("p", kids)
    case Heading(level, _) =>
      if level == 1 then Elem("h1", kids)
      else if level == 2 then Elem("h2", kids)
      else if level == 3 then Elem("h3", kids)
      else Elem("h4", kids)
    case BlockQuote(_) => Elem("blockquote", kids)
    case CodeBlock(_) => Elem("pre", [Elem("code", kids)])
    case List(start) => Elem(if start.None? then "ul" else "ol", kids)
    case Item => Elem("li", kids)
    case Emphasis => Elem("em", kids)
    case Strong => Elem("strong", kids)
    case Strikethrough => Elem("s", kids)
    case Table(_) => Elem("div.md-table", [Elem("table", kids)])
    case TableHead => Elem("tr", kids)
    case TableRow => Elem("tr", kids)
    case TableCell => Elem("td", kids)
    case Link(dest, title, _) => Anchor(SafeHref(dest), title, kids)
    case _ => Fragment(kids)
  }

  function RenderLeaf(leaf: Leaf): seq<Node> {
    match leaf
    case Words(text) => [Str(text)]
    case Code(text) => [Elem("code", [Str(text)])]
    case SoftBreak => [Str(" ")]
    case HardBreak => [Br]
    case Rule => [Hr]
    case TaskMarker(checked) => [Checkbox(checked)]
    case _ => []
  }

  function LeafText(leaf: Leaf): string {
    match leaf
    case Words(text) => text
    case Code(text) => text
    case SoftBreak => " "
    case HardBreak => " "
    case _ => ""
  }

  // ------------------------------------------------------ the two readers

  /** Collapsing reader: the text, and the events left for the caller. */
  function Collect(events: seq<Event>): (r: (string, seq<Event>))
    ensures |r.1| <= |events|
    decreases |events|
  {
    if events == [] then ("", [])
    else match events[0]
      case End(_) => ("", events[1..])
      case Start(_) =>
        var (inner, after) := Collect(events[1..]);
        var (more, rest) := Collect(after);
        (inner + more, rest)
      case Inline(leaf) =>
        var (more, rest) := Collect(events[1..]);
        (LeafText(leaf) + more, rest)
  }

  /** Building reader: the nodes, and the events left for the caller. */
  function Render(events: seq<Event>): (r: (seq<Node>, seq<Event>))
    ensures |r.1| <= |events|
    decreases |events|
  {
    if events == [] then ([], [])
    else match events[0]
      case End(_) => ([], events[1..])
      case Start(tag) =>
        if tag.Image? then
          var (alt, after) := Collect(events[1..]);
          var (more, rest) := Render(after);
          ([Img(SafeHref(tag.dest), alt, tag.title)] + more, rest)
        else
          var (kids, after) := Render(events[1..]);
          var (more, rest) := Render(after);
          ([RenderTag(tag, kids)] + more, rest)
      case Inline(leaf) =>
        var (more, rest) := Render(events[1..]);
        (RenderLeaf(leaf) + more, rest)
  }

  /** The shared iterator. */
  class EventIter {
    var pending: seq<Event>

    constructor (events: seq<Event>)
      ensures pending == events
    {
      pending := events;
    }

    method Next() returns (event: Option<Event>)
      modifies this
      ensures old(pending) == [] ==> event == None && pending == []
      ensures old(pending) != [] ==> event == Some(old(pending)[0]) && pending == old(pending)[1..]
    {
      if pending == [] {
        return None;
      }
      event := Some(pending[0]);
      pending := pending[1..];
    }
  }

  method CollectText(iter: EventIter) returns (text: string)
    modifies iter
    ensures (text, iter.pending) == Collect(old(iter.pending))
    decreases |iter.pending|
  {
    text := "";
    ghost var all := iter.pending;
    assert text + Collect(all).0 == Collect(all).0;
    while iter.pending != []
      invariant |iter.pending| <= |all|
      invariant Collect(all) == (text + Collect(iter.pending).0, Collect(iter.pending).1)
      decreases |iter.pending|
    {
      var event := iter.Next();
      match event.value
      case End(_) =>
        assert text + "" == text;
        return;
      case Start(_) =>
        var inner := CollectText(iter);
        AppendIsAssociative(text, inner, Collect(iter.pending).0);
        text := text + inner;
      case Inline(leaf) =>
        AppendIsAssociative(text, LeafText(leaf), Collect(iter.pending).0);
        text := text + LeafText(leaf);
    }
    assert text + "" == text;
  }

  method RenderSeq(iter: EventIter) returns (out: seq<Node>)
    modifies iter
    ensures (out, iter.pending) == Render(old(iter.pending))
    decreases |iter.pending|
  {
    out := [];
    ghost var all := iter.pending;
    assert out + Render(all).0 == Render(all).0;
    while iter.pending != []
      invariant |iter.pending| <= |all|
      invariant Render(all) == (out + Render(iter.pending).0, Render(iter.pending).1)
      decreases |iter.pending|
    {
      ghost var here := iter.pending;
      var event := iter.Next();
      var made: seq<Node>;
      match event.value {
        case End(_) =>
          assert out + [] == out;
          return;
        case Start(tag) =>
          if tag.Image? {
            var alt := CollectText(iter);
            made := [Img(SafeHref(tag.dest), alt, tag.title)];
          } else {
            var kids := RenderSeq(iter);
            made := [RenderTag(tag, kids)];
          }
        case Inline(leaf) =>
          made := RenderLeaf(leaf);
      }
      assert Render(here) == (made + Render(iter.pending).0, Render(iter.pending).1);
      AppendIsAssociative(out, made, Render(iter.pending).0);
      out := out + made;
    }
    assert out + [] == out;
  }

  // ------------------------------------------------------ where a reader stops

  function Weight(event: Event): int {
    match event case Start(_) => 1 case End(_) => -1 case Inline(_) => 0
  }

  /** Starts minus ends among the first `k` events. */
  function Level(events: seq<Event>, k: nat): int
    requires k <= |events|
  {
    if k == 0 then 0 else Weight(events[0]) + Level(events[1..], k - 1)
  }

  /** `k` is just past the first end that closes none of the `depth` levels already
      open, or the end of the stream when there is no such end. */
  predicate StopsAt(events: seq<Event>, depth: nat, k: nat) {
    && k <= |events|
    && (forall j :: 0 <= j < k ==> Level(events, j) + depth >= 0)
    && (Level(events, k) + depth == -1 || (k == |events| && Level(events, k) + depth >= 0))
  }

  /** Skipping out of `depth` further levels. */
  function Skip(events: seq<Event>, depth: nat): (r: seq<Event>)
    ensures |r| <= |events|
  {
    if events == [] then []
    else match events[0]
      case End(_) => if depth == 0 then events[1..] else Skip(events[1..], depth - 1)
      case Start(_) => Skip(events[1..], depth + 1)
      case Inline(_) => Skip(events[1..], depth)
  }

  lemma {:induction false} SkipOneLevel(events: seq<Event>, depth: nat)
    ensures Skip(events, depth + 1) == Skip(Skip(events, 0), depth)
    decreases |events|
  {
    if events != [] {
      match events[0]
      case End(_) =>
      case Inline(_) => SkipOneLevel(events[1..], depth);
      case Start(_) =>
        SkipOneLevel(events[1..], depth + 1);
        SkipOneLevel(events[1..], 0);
        SkipOneLevel(Skip(events[1..], 0), depth);
    }
  }

  lemma {:induction false} ReadersSkip(events: seq<Event>)
    ensures Collect(events).1 == Skip(events, 0)
    ensures Render(events).1 == Skip(events, 0)
    decreases |events|
  {
    if events != [] {
      match events[0]
      case End(_) =>
      case Inline(_) => ReadersSkip(events[1..]);
      case Start(_) =>
        ReadersSkip(events[1..]);
        ReadersSkip(Skip(events[1..], 0));
        SkipOneLevel(events[1..], 0);
    }
  }

  lemma {:induction false} SkipStops(events: seq<Event>, depth: nat) returns (k: nat)
    ensures StopsAt(events, depth, k) && Skip(events, depth) == events[k..]
    decreases |events|
  {
    if events == [] {
      return 0;
    }
    if events[0].End? && depth == 0 {
      k := 1;
    } else {
      var m := SkipStops(events[1..], depth + Weight(events[0]));
      k := m + 1;
      forall j | 0 < j < k
        ensures Level(events, j) + depth >= 0
      {
        assert Level(events[1..], j - 1) + depth + Weight(events[0]) >= 0;
      }
    }
  }

  /** On every event stream, balanced or not, both readers stop at the same
      place: just past the first end that closes nothing, or at the end. */
  lemma ReadersStopTogether(events: seq<Event>) returns (k: nat)
    ensures StopsAt(events, 0, k)
    ensures Collect(events).1 == Render(events).1 == events[k..]
  {
    ReadersSkip(events);
    k := SkipStops(events, 0);
  }

  /** And that place is the only one of its kind. */
  lemma ReadersStopExactlyThere(events: seq<Event>, k: nat)
    requires StopsAt(events, 0, k)
    ensures Collect(events).1 == Render(events).1 == events[k..]
  {
    var m := ReadersStopTogether(events);
  }

  // ------------------------------------------------------ text agreement

  /** The text that a built node shows. */
  function NodeText(node: Node): string
  {
    match node
    case Elem(_, kids) => NodesText(kids)
    case Anchor(_, _, kids) => NodesText(kids)
    case Fragment(kids) => NodesText(kids)
    case Img(_, alt, _) => alt
    case Str(text) => text
    case Br => " "
    case Hr => ""
    case Checkbox(_) => ""
  }

  function NodesText(nodes: seq<Node>): string {
    if nodes == [] then "" else NodeText(nodes[0]) + NodesText(nodes[1..])
  }

  lemma {:induction false} NodesTextAppend(a: seq<Node>, b: seq<Node>)
    ensures NodesText(a + b) == NodesText(a) + NodesText(b)
    decreases |a|
  {
    if a == [] {
      assert a + b == b;
    } else {
      assert (a + b)[0] == a[0] && (a + b)[1..] == a[1..] + b;
      NodesTextAppend(a[1..], b);
    }
  }

  lemma SingleText(node: Node)
    ensures NodesText([node]) == NodeText(node)
  {
    assert [node][1..] == [];
  }

  lemma TagText(tag: Tag, kids: seq<Node>)
    ensures NodeText(RenderTag(tag, kids)) == NodesText(kids)
  {
    if tag.CodeBlock? {
      SingleText(Elem("code", kids));
    } else if tag.Table? {
      SingleText(Elem("table", kids));
    }
  }

  lemma LeafTextAgrees(leaf: Leaf)
    ensures NodesText(RenderLeaf(leaf)) == LeafText(leaf)
  {
    match leaf
    case Words(text) => SingleText(Str(text));
    case Code(text) =>
      SingleText(Elem("code", [Str(text)]));
      SingleText(Str(text));
    case SoftBreak => SingleText(Str(" "));
    case HardBreak => SingleText(Br);
    case Rule => SingleText(Hr);
    case TaskMarker(checked) => SingleText(Checkbox(checked));
    case _ =>
  }

  /** Collapsing a span yields exactly the text that building it would have shown. */
  lemma {:induction false} CollectIsTextOfRender(events: seq<Event>)
    ensures Collect(events).0 == NodesText(Render(events).0)
    decreases |events|
  {
    if events != [] {
      match events[0]
      case End(_) =>
      case Inline(leaf) =>
        CollectIsTextOfRender(events[1..]);
        LeafTextAgrees(leaf);
        NodesTextAppend(RenderLeaf(leaf), Render(events[1..]).0);
      case Start(tag) =>
        ReadersSkip(events[1..]);
        var after := Skip(events[1..], 0);
        CollectIsTextOfRender(events[1..]);
        CollectIsTextOfRender(after);
        var made := if tag.Image? then Img(SafeHref(tag.dest), Collect(events[1..]).0, tag.title)
                    else RenderTag(tag, Render(events[1..]).0);
        TagText(tag, Render(events[1..]).0);
        SingleText(made);
        NodesTextAppend([made], Render(after).0);
    }
  }

  // ------------------------------------------------------ every link is inert

  /** Every link and image source in a node is `good`. */
  predicate NodeLinks(good: string -> bool, node: Node) {
    match node
    case Elem(_, kids) => NodesLinks(good, kids)
    case Anchor(href, _, kids) => good(href) && NodesLinks(good, kids)
    case Fragment(kids) => NodesLinks(good, kids)
    case Img(src, _, _) => good(src)
    case _ => true
  }

  predicate NodesLinks(good: string -> bool, nodes: seq<Node>) {
    nodes == [] || (NodeLinks(good, nodes[0]) && NodesLinks(good, nodes[1..]))
  }

  lemma {:induction false} LinksAppend(good: string -> bool, a: seq<Node>, b: seq<Node>)
    requires NodesLinks(good, a) && NodesLinks(good, b)
    ensures NodesLinks(good, a + b)
    decreases |a|
  {
    if a == [] {
      assert a + b == b;
    } else {
      assert (a + b)[0] == a[0] && (a + b)[1..] == a[1..] + b;
      LinksAppend(good, a[1..], b);
    }
  }

  lemma SingleLinks(good: string -> bool, node: Node)
    requires NodeLinks(good, node)
    ensures NodesLinks(good, [node])
  {
    assert [node][1..] == [];
  }

  lemma TagLinks(good: string -> bool, tag: Tag, kids: seq<Node>)
    requires NodesLinks(good, kids) && (tag.Link? ==> good(SafeHref(tag.dest)))
    ensures NodeLinks(good, RenderTag(tag, kids))
  {
    if tag.CodeBlock? {
      SingleLinks(good, Elem("code", kids));
    } else if tag.Table? {
      SingleLinks(good, Elem("table", kids));
    }
  }

  lemma LeafLinks(good: string -> bool, leaf: Leaf)
    ensures NodesLinks(good, RenderLeaf(leaf))
  {
    if leaf.Code? {
      SingleLinks(good, Str(leaf.text));
    }
    var made := RenderLeaf(leaf);
    if made != [] {
      SingleLinks(good, made[0]);
      assert made == [made[0]];
    }
  }

  /** `good` holds of every filtered destination in the stream. */
  ghost predicate DestsAre(good: string -> bool, events: seq<Event>) {
    forall i :: 0 <= i < |events| ==> DestIs(good, events[i])
  }

  predicate DestIs(good: string -> bool, event: Event) {
    event.Start? && (event.tag.Link? || event.tag.Image?) ==> good(SafeHref(event.tag.dest))
  }

  lemma DestsAfter(good: string -> bool, events: seq<Event>)
    requires DestsAre(good, events)
    ensures DestsAre(good, Collect(events).1) && Collect(events).1 == Render(events).1
  {
    var k := ReadersStopTogether(events);
    forall i | 0 <= i < |events[k..]| ensures DestIs(good, events[k..][i]) {
      assert events[k..][i] == events[k + i];
    }
  }

  /** Whatever holds of the filtered destinations of a stream holds of every link and image
      source in what is built from it. */
  lemma {:induction false} LinksAreFiltered(good: string -> bool, events: seq<Event>)
    requires DestsAre(good, events)
    ensures NodesLinks(good, Render(events).0)
    decreases |events|
  {
    if events != [] {
      var tail := events[1..];
      assert DestIs(good, events[0]) && DestsAre(good, tail);
      match events[0]
      case End(_) =>
      case Inline(leaf) =>
        LinksAreFiltered(good, tail);
        LeafLinks(good, leaf);
        LinksAppend(good, RenderLeaf(leaf), Render(tail).0);
      case Start(tag) =>
        DestsAfter(good, tail);
        var after := Render(tail).1;
        var made := if tag.Image? then Img(SafeHref(tag.dest), Collect(tail).0, tag.title)
                    else RenderTag(tag, Render(tail).0);
        if !tag.Image? {
          LinksAreFiltered(good, tail);
          TagLinks(good, tag, Render(tail).0);
        }
        LinksAreFiltered(good, after);
        SingleLinks(good, made);
        LinksAppend(good, [made], Render(after).0);
    }
  }

  /** Everywhere in what any stream renders, links pass the filter's test. */
  lemma RenderedLinksAreInert(events: seq<Event>)
    ensures NodesLinks(Inert, Render(events).0)
  {
    forall i | 0 <= i < |events| ensures DestIs(Inert, events[i]) {
      if events[i].Start? && (events[i].tag.Link? || events[i].tag.Image?) {
        SafeHrefIsInert(events[i].tag.dest);
      }
    }
    LinksAreFiltered(Inert, events);
  }

  /** `url` is live only as a destination that hides its scheme from the filter's test. */
  ghost predicate LiveOnlyIfMissed(events: seq<Event>, url: string) {
    Live(url) ==>
      exists i :: 0 <= i < |events| && events[i].Start? && (events[i].tag.Link? || events[i].tag.Image?)
        && Hidden(Trim(events[i].tag.dest)) && Live(Trim(events[i].tag.dest)) && url == Trim(events[i].tag.dest)
  }

  /** A rendered link can only be live where some destination of the stream hides its
      scheme behind control characters. */
  lemma RenderedLinksAreLiveOnlyIfMissed(events: seq<Event>)
    ensures NodesLinks(url => LiveOnlyIfMissed(events, url), Render(events).0)
  {
    var good := url => LiveOnlyIfMissed(events, url);
    forall i | 0 <= i < |events| ensures DestIs(good, events[i]) {
      if events[i].Start? && (events[i].tag.Link? || events[i].tag.Image?) {
        SafeHrefIsLiveExactly(events[i].tag.dest);
        SafeHrefIsLiveIfMissed(events[i].tag.dest);
        SafeHrefIsInert(events[i].tag.dest);
      }
    }
    LinksAreFiltered(good, events);
  }

  /** So where no destination holds a control character, once trimmed, no rendered link is live. */
  lemma WithoutControlsNoLinkIsLive(events: seq<Event>)
    requires forall i :: 0 <= i < |events| && events[i].Start? && (events[i].tag.Link? || events[i].tag.Image?) ==>
               NoControls(Trim(events[i].tag.dest))
    ensures NodesLinks(url => !Live(url), Render(events).0)
  {
    var good := url => !Live(url);
    forall i | 0 <= i < |events| ensures DestIs(good, events[i]) {
      if events[i].Start? && (events[i].tag.Link? || events[i].tag.Image?) {
        WithoutControlsItIsDead(events[i].tag.dest);
      }
    }
    LinksAreFiltered(good, events);
  }

  /** And such a link is rendered as it stands. */
  lemma TabbedSchemePasses()
    ensures Inert(TABBED) && Live(TABBED) && SafeHref(TABBED) == TABBED
    ensures Render([Start(Link(TABBED, "", "")), End(Link(TABBED, "", ""))]).0 == [Anchor(TABBED, "", [])]
  {
    TabbedIsTrimmed();
    TabbedIsInert();
    TabbedIsLive();
    SafeHrefIsInert(TABBED);
    LinkRenders(Link(TABBED, "", ""));
  }

  lemma LinkRenders(tag: Tag)
    requires tag.Link?
    ensures Render([Start(tag), End(tag)]).0 == [Anchor(SafeHref(tag.dest), tag.title, [])]
  {
    var stream := [Start(tag), End(tag)];
    assert stream[1..] == [End(tag)];
    assert stream[1..][1..] == [];
    assert Render(stream[1..]) == ([], []);
  }

  // ------------------------------------------------------ print, then build

  datatype Tree = Twig(leaf: Leaf) | Branch(tag: Tag, kids: seq<Tree>)

  function Flatten(tree: Tree): seq<Event> {
    match tree
    case Twig(leaf) => [Inline(leaf)]
    case Branch(tag, kids) => [Start(tag)] + FlattenAll(kids) + [End(tag)]
  }

  function FlattenAll(forest: seq<Tree>): seq<Event> {
    if forest == [] then [] else Flatten(forest[0]) + FlattenAll(forest[1..])
  }

  /** The text of a forest: its leaves' text in order. */
  function ForestText(forest: seq<Tree>): string {
    if forest == [] then ""
    else
      (match forest[0] case Twig(leaf) => LeafText(leaf) case Branch(_, kids) => ForestText(kids))
      + ForestText(forest[1..])
  }

  function RenderTree(tree: Tree): seq<Node> {
    match tree
    case Twig(leaf) => RenderLeaf(leaf)
    case Branch(tag, kids) =>
      if tag.Image? then [Img(SafeHref(tag.dest), ForestText(kids), tag.title)]
      else [RenderTag(tag, RenderForest(kids))]
  }

  function RenderForest(forest: seq<Tree>): seq<Node> {
    if forest == [] then [] else RenderTree(forest[0]) + RenderForest(forest[1..])
  }

  /** Both readers walk over a printed forest and carry on with what follows it. */
  ghost predicate ReadsOver(events: seq<Event>, text: string, nodes: seq<Node>, tail: seq<Event>) {
    && Collect(events) == (text + Collect(tail).0, Collect(tail).1)
    && Render(events) == (nodes + Render(tail).0, Render(tail).1)
  }

  lemma {:induction false} ReadOverForest(forest: seq<Tree>, tail: seq<Event>)
    ensures ReadsOver(FlattenAll(forest) + tail, ForestText(forest), RenderForest(forest), tail)
    decreases forest
  {
    if forest == [] {
      assert FlattenAll(forest) + tail == tail;
      assert "" + Collect(tail).0 == Collect(tail).0;
      assert [] + Render(tail).0 == Render(tail).0;
    } else {
      var first, others := forest[0], forest[1..];
      var after := FlattenAll(others) + tail;
      ReadOverForest(others, tail);
      AppendIsAssociative(Flatten(first), FlattenAll(others), tail);
      match first
      case Twig(leaf) =>
        ReadTwig(leaf, after);
        ReadOverBoth(Flatten(first) + after, LeafText(leaf), RenderTree(first), after,
                     ForestText(others), RenderForest(others), tail);
      case Branch(tag, kids) =>
        ReadOverForest(kids, [End(tag)] + after);
        ReadBranch(tag, kids, after);
        ReadOverBoth(Flatten(first) + after, ForestText(kids), RenderTree(first), after,
                     ForestText(others), RenderForest(others), tail);
    }
  }

  lemma ReadTwig(leaf: Leaf, after: seq<Event>)
    ensures ReadsOver([Inline(leaf)] + after, LeafText(leaf), RenderLeaf(leaf), after)
  {
    assert ([Inline(leaf)] + after)[1..] == after;
  }

  lemma BranchEvents(tag: Tag, kids: seq<Tree>, after: seq<Event>)
    ensures var events := Flatten(Branch(tag, kids)) + after;
            events != [] && events[0] == Start(tag) && events[1..] == FlattenAll(kids) + ([End(tag)] + after)
  {
  }

  lemma ReadBranch(tag: Tag, kids: seq<Tree>, after: seq<Event>)
    requires ReadsOver(FlattenAll(kids) + ([End(tag)] + after), ForestText(kids), RenderForest(kids),
                       [End(tag)] + after)
    ensures ReadsOver(Flatten(Branch(tag, kids)) + after, ForestText(kids), RenderTree(Branch(tag, kids)), after)
  {
    BranchEvents(tag, kids, after);
    ReadEnd(tag, after);
    assert ForestText(kids) + "" == ForestText(kids);
    assert RenderForest(kids) + [] == RenderForest(kids);
  }

  lemma ReadOverBoth(events: seq<Event>, text: string, nodes: seq<Node>, middle: seq<Event>,
                     text': string, nodes': seq<Node>, tail: seq<Event>)
    requires ReadsOver(events, text, nodes, middle) && ReadsOver(middle, text', nodes', tail)
    ensures ReadsOver(events, text + text', nodes + nodes', tail)
  {
    AppendIsAssociative(text, text', Collect(tail).0);
    AppendIsAssociative(nodes, nodes', Render(tail).0);
  }

  lemma ReadEnd(closes: Tag, after: seq<Event>)
    ensures Collect([End(closes)] + after) == ("", after)
    ensures Render([End(closes)] + after) == ([], after)
  {
    assert ([End(closes)] + after)[1..] == after;
  }

  /** Printing a forest and building it back returns exactly the rendered forest,
      whatever closes it and whatever follows, and leaves what follows unread. */
  lemma PrintThenBuild(forest: seq<Tree>, closes: Tag, rest: seq<Event>)
    ensures Render(FlattenAll(forest) + [End(closes)] + rest) == (RenderForest(forest), rest)
    ensures Collect(FlattenAll(forest) + [End(closes)] + rest) == (ForestText(forest), rest)
  {
    var tail := [End(closes)] + rest;
    assert FlattenAll(forest) + [End(closes)] + rest == FlattenAll(forest) + tail;
    ReadOverForest(forest, tail);
    ReadEnd(closes, rest);
    assert RenderForest(forest) + [] == RenderForest(forest);
    assert ForestText(forest) + "" == ForestText(forest);
  }

  /** At top level the whole printed stream is consumed. */
  lemma PrintThenBuildTop(forest: seq<Tree>)
    ensures Render(FlattenAll(forest)) == (RenderForest(forest), [])
  {
    assert FlattenAll(forest) + [] == FlattenAll(forest);
    ReadOverForest(forest, []);
    assert RenderForest(forest) + [] == RenderForest(forest);
  }

  // ------------------------------------------------- what the nodes still tell

  /** The tag that an element with these children stands for. */
  function TagNamed(name: string): Option<Tag> {
    if name == "p" then Some(Paragraph)
    else if name == "h1" then Some(Heading(1, ""))
    else if name == "h2" then Some(Heading(2, ""))
    else if name == "h3" then Some(Heading(3, ""))
    else if name == "h4" then Some(Heading(4, ""))
    else if name == "blockquote" then Some(BlockQuote(None))
    else if name == "ul" then Some(List(None))
    else if name == "ol" then Some(List(Some(1)))
    else if name == "li" then Some(Item)
    else if name == "em" then Some(Emphasis)
    else if name == "strong" then Some(Strong)
    else if name == "s" then Some(Strikethrough)
    else if name == "tr" then Some(TableRow)
    else if name == "td" then Some(TableCell)
    else None
  }

  /** The tag that two nested elements stand for together. */
  function TagWrapped(outer: string, inner: string): Option<Tag> {
    if outer == "pre" && inner == "code" then Some(CodeBlock(None))
    else if outer == "div.md-table" && inner == "table" then Some(Table([]))
    else None
  }

  function Back(node: Node): Tree {
    match node
    case Elem(name, kids) =>
      if TagNamed(name).Some? then Branch(TagNamed(name).value, BackAll(kids))
      else if |kids| == 1 && kids[0].Elem? && TagWrapped(name, kids[0].name).Some? then
        Branch(TagWrapped(name, kids[0].name).value, BackAll(kids[0].kids))
      else if |kids| == 1 && kids[0].Str? then Twig(Code(kids[0].text))
      else Branch(OtherTag(""), BackAll(kids))
    case Anchor(href, title, kids) => Branch(Link(href, title, ""), BackAll(kids))
    case Img(src, alt, title) => Branch(Image(src, title, ""), [Twig(Words(alt))])
    case Str(text) => Twig(Words(text))
    case Br => Twig(HardBreak)
    case Hr => Twig(Rule)
    case Checkbox(checked) => Twig(TaskMarker(checked))
    case Fragment(kids) => Branch(OtherTag(""), BackAll(kids))
  }

  function BackAll(nodes: seq<Node>): seq<Tree> {
    if nodes == [] then [] else [Back(nodes[0])] + BackAll(nodes[1..])
  }

  /** Everything rendering loses about a tag: the level of a deep heading and its
      attributes, the kind of a quote, the language of a code block, where a list starts
      counting, how a table's columns align and which of its rows is the head, an unsafe
      link, how a link was referenced, and which unknown tag it was. */
  function ShownTag(tag: Tag): Tag {
    match tag
    case Heading(level, _) => Heading(if 1 <= level <= 3 then level else 4, "")
    case BlockQuote(_) => BlockQuote(None)
    case CodeBlock(_) => CodeBlock(None)
    case List(start) => List(if start.None? then None else Some(1))
    case Table(_) => Table([])
    case TableHead => TableRow
    case Link(dest, title, _) => Link(SafeHref(dest), title, "")
    case OtherTag(_) => OtherTag("")
    case _ => tag
  }

  /** Raw HTML and unknown leaves go, a soft break becomes a space, and an image's
      children collapse to their text. */
  function ShownTree(tree: Tree): seq<Tree> {
    match tree
    case Twig(leaf) =>
      if leaf.SoftBreak? then [Twig(Words(" "))]
      else if leaf.RawHtml? || leaf.OtherLeaf? then []
      else [tree]
    case Branch(tag, kids) =>
      if tag.Image? then [Branch(Image(SafeHref(tag.dest), tag.title, ""), [Twig(Words(ForestText(kids)))])]
      else [Branch(ShownTag(tag), Shown(kids))]
  }

  function Shown(forest: seq<Tree>): seq<Tree> {
    if forest == [] then [] else ShownTree(forest[0]) + Shown(forest[1..])
  }

  lemma {:induction false} BackAppend(a: seq<Node>, b: seq<Node>)
    ensures BackAll(a + b) == BackAll(a) + BackAll(b)
    decreases |a|
  {
    if a == [] {
      assert a + b == b;
    } else {
      assert (a + b)[1..] == a[1..] + b;
      BackAppend(a[1..], b);
    }
  }

  lemma SingleBack(node: Node)
    ensures BackAll([node]) == [Back(node)]
  {
    assert [node][1..] == [];
  }

  lemma LeafReadsBack(leaf: Leaf)
    ensures BackAll(RenderLeaf(leaf)) == ShownTree(Twig(leaf))
  {
    match leaf {
      case Words(text) => SingleBack(Str(text));
      case Code(text) =>
        SingleBack(Elem("code", [Str(text)]));
        assert TagNamed("code") == None;
      case SoftBreak => SingleBack(Str(" "));
      case HardBreak => SingleBack(Br);
      case Rule => SingleBack(Hr);
      case TaskMarker(checked) => SingleBack(Checkbox(checked));
      case _ =>
    }
  }

  lemma NameReadsBack(name: string, tag: Tag, kids: seq<Node>)
    requires TagNamed(name) == Some(tag)
    ensures Back(Elem(name, kids)) == Branch(tag, BackAll(kids))
  {
  }

  lemma WrapReadsBack(outer: string, inner: string, tag: Tag, kids: seq<Node>)
    requires TagNamed(outer) == None && TagWrapped(outer, inner) == Some(tag)
    ensures Back(Elem(outer, [Elem(inner, kids)])) == Branch(tag, BackAll(kids))
  {
  }

  lemma HeadingReadsBack(level: nat, attributes: string, kids: seq<Node>)
    ensures Back(RenderTag(Heading(level, attributes), kids)) ==
            Branch(ShownTag(Heading(level, attributes)), BackAll(kids))
  {
    var name := if level == 1 then "h1" else if level == 2 then "h2" else if level == 3 then "h3" else "h4";
    NameReadsBack(name, ShownTag(Heading(level, attributes)), kids);
  }

  lemma StyleReadsBack(tag: Tag, kids: seq<Node>)
    requires tag.Paragraph? || tag.BlockQuote? || tag.Emphasis? || tag.Strong? || tag.Strikethrough?
    ensures Back(RenderTag(tag, kids)) == Branch(ShownTag(tag), BackAll(kids))
  {
    NameReadsBack(RenderTag(tag, kids).name, ShownTag(tag), kids);
  }

  lemma ListReadsBack(tag: Tag, kids: seq<Node>)
    requires tag.List? || tag.Item? || tag.TableHead? || tag.TableRow? || tag.TableCell?
    ensures Back(RenderTag(tag, kids)) == Branch(ShownTag(tag), BackAll(kids))
  {
    NameReadsBack(RenderTag(tag, kids).name, ShownTag(tag), kids);
  }

  lemma TagReadsBack(tag: Tag, kids: seq<Node>)
    requires !tag.Image?
    ensures Back(RenderTag(tag, kids)) == Branch(ShownTag(tag), BackAll(kids))
  {
    match tag {
      case Heading(level, attributes) => HeadingReadsBack(level, attributes, kids);
      case CodeBlock(_) => WrapReadsBack("pre", "code", CodeBlock(None), kids);
      case Table(_) => WrapReadsBack("div.md-table", "table", Table([]), kids);
      case Link(_, _, _) =>
      case Image(_, _, _) =>
      case OtherTag(_) =>
      case Paragraph | BlockQuote(_) | Emphasis | Strong | Strikethrough => StyleReadsBack(tag, kids);
      case _ => ListReadsBack(tag, kids);
    }
  }

  /** Nothing else is lost: from the nodes of any forest the forest can be read back, up
      to exactly those losses. */
  lemma {:induction false} ForestReadsBack(forest: seq<Tree>)
    ensures BackAll(RenderForest(forest)) == Shown(forest)
    decreases forest
  {
    if forest != [] {
      ForestReadsBack(forest[1..]);
      BackAppend(RenderTree(forest[0]), RenderForest(forest[1..]));
      match forest[0]
      case Twig(leaf) => LeafReadsBack(leaf);
      case Branch(tag, kids) =>
        SingleBack(RenderTree(forest[0])[0]);
        if !tag.Image? {
          ForestReadsBack(kids);
          TagReadsBack(tag, RenderForest(kids));
        }
    }
  }

  /** From tree to events, to nodes, and back to the tree. */
  lemma EventsReadBack(forest: seq<Tree>)
    ensures BackAll(Render(FlattenAll(forest)).0) == Shown(forest)
  {
    PrintThenBuildTop(forest);
    ForestReadsBack(forest);
  }

  lemma {:induction false} RenderForestAppend(a: seq<Tree>, b: seq<Tree>)
    ensures RenderForest(a + b) == RenderForest(a) + RenderForest(b)
    decreases |a|
  {
    if a == [] {
      assert a + b == b;
    } else {
      assert (a + b)[1..] == a[1..] + b;
      RenderForestAppend(a[1..], b);
      AppendIsAssociative(RenderTree(a[0]), RenderForest(a[1..]), RenderForest(b));
    }
  }

  lemma SingleRender(tree: Tree)
    ensures RenderForest([tree]) == RenderTree(tree)
  {
    assert [tree][1..] == [];
    assert RenderTree(tree) + [] == RenderTree(tree);
  }

  lemma WordsText(text: string)
    ensures ForestText([Twig(Words(text))]) == text
  {
    assert [Twig(Words(text))][1..] == [];
    assert text + "" == text;
  }

  lemma ShownTagRenders(tag: Tag, kids: seq<Node>)
    requires !tag.Image?
    ensures !ShownTag(tag).Image? && RenderTag(ShownTag(tag), kids) == RenderTag(tag, kids)
  {
    if tag.Link? {
      SafeHrefIsInert(tag.dest);
    }
  }

  /** What is lost makes no difference to what is rendered. */
  lemma {:induction false} ShownRendersAlike(forest: seq<Tree>)
    ensures RenderForest(Shown(forest)) == RenderForest(forest)
    decreases forest
  {
    if forest != [] {
      ShownRendersAlike(forest[1..]);
      RenderForestAppend(ShownTree(forest[0]), Shown(forest[1..]));
      if forest[0].Branch? {
        ShownRendersAlike(forest[0].kids);
      }
      ShownTreeRenders(forest[0]);
    }
  }

  lemma ShownTreeRenders(tree: Tree)
    requires tree.Branch? ==> RenderForest(Shown(tree.kids)) == RenderForest(tree.kids)
    ensures RenderForest(ShownTree(tree)) == RenderTree(tree)
  {
    if ShownTree(tree) != [] {
      SingleRender(ShownTree(tree)[0]);
      assert ShownTree(tree) == [ShownTree(tree)[0]];
      match tree
      case Twig(_) =>
      case Branch(tag, kids) =>
        if tag.Image? {
          WordsText(ForestText(kids));
          SafeHrefIsInert(tag.dest);
        } else {
          ShownTagRenders(tag, RenderForest(kids));
        }
    }
  }

  /** The losses are exactly those: two forests render to the same nodes if and only if
      they are the same once the losses are taken off. */
  lemma RenderAlikeExactly(a: seq<Tree>, b: seq<Tree>)
    ensures RenderForest(a) == RenderForest(b) <==> Shown(a) == Shown(b)
  {
    ForestReadsBack(a);
    ForestReadsBack(b);
    ShownRendersAlike(a);
    ShownRendersAlike(b);
  }
}
