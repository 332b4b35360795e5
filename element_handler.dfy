/**
 * The event handler under every content-service XML decoder: it turns the
 * parser's start-tag, characters and end-tag events into one `element`
 * report per element, carrying the element's text when it is a leaf and
 * null when it has children.
 */
module ElementHandling {
  import opened Wrappers

  /** One attribute as the parser gives it; an empty namespace stands for "none". */
  datatype Attribute = Attribute(namespace: string, localName: string, value: string)

  /** The parser's callbacks, in document order. */
  datatype Event =
    | Start(uri: string, localName: string, attributes: seq<Attribute>)
    | Characters(text: string)
    | End(uri: string, localName: string)

  /** One `element(uri, localName, attributes, characters)` call. */
  datatype Element = Element(uri: string, localName: string, attributes: map<string, string>, characters: Option<string>)

  /** The handler's fields: the open text buffer (None once delivered) and the last start tag. */
  datatype HandlerState = HandlerState(buffer: Option<string>, attributes: map<string, string>, uri: string, localName: string)

  const Initial := HandlerState(None, map[], "", "")

  /** The keys an attribute is stored under: "{ns}name" when it has a namespace, and always "name". */
  function KeysOf(a: Attribute): set<string>
  {
    (if a.namespace != "" then {"{" + a.namespace + "}" + a.localName} else {}) + {a.localName}
  }

  /** The attribute map a start tag leaves behind, filled in attribute order. */
  function AttributeMap(attrs: seq<Attribute>): map<string, string>
  {
    if |attrs| == 0 then map[]
    else
      var a := attrs[|attrs| - 1];
      var m := AttributeMap(attrs[..|attrs| - 1]);
      var withNs := if a.namespace != "" then m["{" + a.namespace + "}" + a.localName := a.value] else m;
      withNs[a.localName := a.value]
  }

  /** A key is stored iff some attribute is stored under it. */
  lemma {:induction false} AttributeMapKeys(attrs: seq<Attribute>, k: string)
    ensures k in AttributeMap(attrs) <==> exists i :: 0 <= i < |attrs| && k in KeysOf(attrs[i])
  {
    if |attrs| > 0 {
      var n := |attrs| - 1;
      AttributeMapKeys(attrs[..n], k);
      if k in AttributeMap(attrs[..n]) {
        var i :| 0 <= i < n && k in KeysOf(attrs[..n][i]);
        assert attrs[i] == attrs[..n][i];
      }
      if exists i :: 0 <= i < |attrs| && k in KeysOf(attrs[i]) {
        var i :| 0 <= i < |attrs| && k in KeysOf(attrs[i]);
        if i < n {
          assert attrs[..n][i] == attrs[i];
        }
      }
    }
  }

  /** Each key holds the value of the last attribute stored under it. */
  lemma {:induction false} AttributeMapLast(attrs: seq<Attribute>, i: nat, k: string)
    requires i < |attrs| && k in KeysOf(attrs[i])
    requires forall j :: i < j < |attrs| ==> k !in KeysOf(attrs[j])
    ensures k in AttributeMap(attrs) && AttributeMap(attrs)[k] == attrs[i].value
  {
    var n := |attrs| - 1;
    if i < n {
      forall j | i < j < n
        ensures k !in KeysOf(attrs[..n][j])
      {
        assert attrs[..n][j] == attrs[j];
      }
      AttributeMapLast(attrs[..n], i, k);
      assert k !in KeysOf(attrs[n]);
    }
  }

  /**
   * One event: a start tag first reports a still-open element with null
   * text, then records the tag and opens a fresh buffer; characters extend
   * an open buffer; an end tag reports an open buffer's element with its
   * text and closes the buffer, and reports nothing otherwise.
   */
  function Next(s: HandlerState, e: Event): (HandlerState, seq<Element>)
  {
    match e
    case Start(uri, localName, attrs) =>
      var pending := if s.buffer.Some? then [Element(s.uri, s.localName, s.attributes, None)] else [];
      (HandlerState(Some(""), AttributeMap(attrs), uri, localName), pending)
    case Characters(text) =>
      if s.buffer.Some? then (s.(buffer := Some(s.buffer.value + text)), []) else (s, [])
    case End(uri, localName) =>
      if s.buffer.Some? then (s.(buffer := None), [Element(uri, localName, s.attributes, s.buffer)])
      else (s, [])
  }

  /** The state and the reports after a run of events. */
  function Run(s: HandlerState, events: seq<Event>): (HandlerState, seq<Element>)
    decreases |events|
  {
    if |events| == 0 then (s, [])
    else
      var (s1, r1) := Next(s, events[0]);
      var (s2, r2) := Run(s1, events[1..]);
      (s2, r1 + r2)
  }

  /** The `element` calls a whole parse makes. */
  function Reports(events: seq<Event>): seq<Element>
  {
    Run(Initial, events).1
  }

  /** Running two stretches of events one after the other. */
  lemma {:induction false} RunAppend(s: HandlerState, a: seq<Event>, b: seq<Event>)
    ensures Run(s, a + b).0 == Run(Run(s, a).0, b).0
    ensures Run(s, a + b).1 == Run(s, a).1 + Run(Run(s, a).0, b).1
    decreases |a|
  {
    if |a| > 0 {
      assert (a + b)[1..] == a[1..] + b;
      assert (a + b)[0] == a[0];
      var (s1, r1) := Next(s, a[0]);
      RunAppend(s1, a[1..], b);
      var m := Run(s1, a[1..]);
      var rest := Run(m.0, b);
      assert r1 + (m.1 + rest.1) == (r1 + m.1) + rest.1;
    } else {
      assert a + b == b;
      assert Run(s, a) == (s, []);
    }
  }

  /** A well-nested document: an element whose content is text and child elements. */
  datatype Node = Node(uri: string, localName: string, attributes: seq<Attribute>, content: seq<Content>)
  datatype Content = TextNode(text: string) | ElementNode(node: Node)

  function NodeEvents(n: Node): seq<Event>
    decreases n, 1
  {
    [Start(n.uri, n.localName, n.attributes)] + ContentEvents(n, 0) + [End(n.uri, n.localName)]
  }

  /** The events of an element's content from position `i` on. */
  function ContentEvents(n: Node, i: nat): seq<Event>
    requires i <= |n.content|
    decreases n, 0, |n.content| - i
  {
    if i == |n.content| then []
    else
      (match n.content[i]
       case TextNode(t) => [Characters(t)]
       case ElementNode(m) => NodeEvents(m))
      + ContentEvents(n, i + 1)
  }

  /** The elements of a document, counted. */
  function NodeCount(n: Node): nat
    decreases n, 1
  {
    1 + ContentCount(n, 0)
  }

  function ContentCount(n: Node, i: nat): nat
    requires i <= |n.content|
    decreases n, 0, |n.content| - i
  {
    if i == |n.content| then 0
    else (match n.content[i] case TextNode(_) => 0 case ElementNode(m) => NodeCount(m)) + ContentCount(n, i + 1)
  }

  /** Some element of the content from position `i` on is a child element. */
  predicate HasChild(n: Node, i: nat)
  {
    exists j :: i <= j < |n.content| && n.content[j].ElementNode?
  }

  /**
   * An element's events report, besides the element still open before
   * them, exactly one element per start tag, and leave the buffer closed.
   */
  lemma {:induction false} NodeReports(s: HandlerState, n: Node)
    ensures var (t, r) := Run(s, NodeEvents(n));
      t.buffer.None? && |r| == (if s.buffer.Some? then 1 else 0) + NodeCount(n)
    decreases n, 1
  {
    var start := [Start(n.uri, n.localName, n.attributes)];
    var body := ContentEvents(n, 0);
    var end := [End(n.uri, n.localName)];
    assert NodeEvents(n) == start + (body + end);
    RunAppend(s, start, body + end);
    var s1 := Run(s, start).0;
    assert s1.buffer == Some("");
    RunAppend(s1, body, end);
    ContentReports(s1, n, 0);
  }

  /** The events of the content element at position `i`. */
  function ItemEvents(n: Node, i: nat): seq<Event>
    requires i < |n.content|
  {
    match n.content[i]
    case TextNode(t) => [Characters(t)]
    case ElementNode(m) => NodeEvents(m)
  }

  /**
   * Content after an open start tag: with a child element, the open
   * element is reported once and the buffer ends closed; without one, the
   * buffer stays open and nothing is reported.
   */
  lemma {:induction false} ContentReports(s: HandlerState, n: Node, i: nat)
    requires s.buffer.Some? && i <= |n.content|
    ensures var (t, r) := Run(s, ContentEvents(n, i));
      && (HasChild(n, i) ==> t.buffer.None? && |r| == 1 + ContentCount(n, i))
      && (!HasChild(n, i) ==> t.buffer.Some? && |r| == 0 && ContentCount(n, i) == 0)
    decreases n, 0, |n.content| - i
  {
    if i < |n.content| {
      var head := ItemEvents(n, i);
      assert ContentEvents(n, i) == head + ContentEvents(n, i + 1);
      RunAppend(s, head, ContentEvents(n, i + 1));
      var s1 := Run(s, head).0;
      assert HasChild(n, i) <==> n.content[i].ElementNode? || HasChild(n, i + 1);
      match n.content[i]
      case TextNode(t) =>
        assert s1.buffer.Some?;
        ContentReports(s1, n, i + 1);
      case ElementNode(m) =>
        NodeReports(s, m);
        ContentAfterClose(s1, n, i + 1);
    }
  }

  /** Content after a closed buffer reports one element per start tag and leaves the buffer closed. */
  lemma {:induction false} ContentAfterClose(s: HandlerState, n: Node, i: nat)
    requires s.buffer.None? && i <= |n.content|
    ensures var (t, r) := Run(s, ContentEvents(n, i));
      t.buffer.None? && |r| == ContentCount(n, i)
    decreases n, 0, |n.content| - i
  {
    if i < |n.content| {
      var head := ItemEvents(n, i);
      assert ContentEvents(n, i) == head + ContentEvents(n, i + 1);
      RunAppend(s, head, ContentEvents(n, i + 1));
      match n.content[i]
      case TextNode(t) =>
        ContentAfterClose(Run(s, head).0, n, i + 1);
      case ElementNode(m) =>
        NodeReports(s, m);
        ContentAfterClose(Run(s, head).0, n, i + 1);
    }
  }

  /** A whole well-nested document yields exactly one `element` call per element. */
  lemma DocumentReports(root: Node)
    ensures |Reports(NodeEvents(root))| == NodeCount(root)
  {
    NodeReports(Initial, root);
  }

  /** The handler object: its fields, and the `element` calls it has made so far. */
  class ElementHandler {
    var buffer: Option<string>
    var lastAttributes: map<string, string>
    var lastUri: string
    var lastLocalName: string
    var reports: seq<Element>

    function State(): HandlerState
      reads this
    {
      HandlerState(buffer, lastAttributes, lastUri, lastLocalName)
    }

    constructor()
      ensures State() == Initial && reports == []
    {
      buffer := None;
      lastAttributes := map[];
      lastUri := "";
      lastLocalName := "";
      reports := [];
    }

    /** `startElement`: report a still-open element with null text, then record this tag. */
    method StartElement(uri: string, localName: string, attributes: seq<Attribute>)
      modifies this
      ensures State() == Next(old(State()), Start(uri, localName, attributes)).0
      ensures reports == old(reports) + Next(old(State()), Start(uri, localName, attributes)).1
    {
      var stored := map[];
      for i := 0 to |attributes|
        invariant stored == AttributeMap(attributes[..i])
      {
        var a := attributes[i];
        if a.namespace != "" {
          stored := stored["{" + a.namespace + "}" + a.localName := a.value];
        }
        stored := stored[a.localName := a.value];
        assert attributes[..i + 1][..i] == attributes[..i];
      }
      assert attributes[..|attributes|] == attributes;
      if buffer.Some? {
        reports := reports + [Element(lastUri, lastLocalName, lastAttributes, None)];
      }
      lastUri := uri;
      lastLocalName := localName;
      lastAttributes := stored;
      buffer := Some("");
    }

    /** `characters`: append to an open buffer. */
    method Characters(text: string)
      modifies this`buffer
      ensures State() == Next(old(State()), Event.Characters(text)).0
      ensures reports == old(reports) && Next(old(State()), Event.Characters(text)).1 == []
    {
      if buffer.Some? {
        buffer := Some(buffer.value + text);
      }
    }

    /** `endElement`: report an open buffer's element with its text, then close the buffer. */
    method EndElement(uri: string, localName: string)
      modifies this`buffer, this`reports
      ensures State() == Next(old(State()), End(uri, localName)).0
      ensures reports == old(reports) + Next(old(State()), End(uri, localName)).1
    {
      if buffer.Some? {
        reports := reports + [Element(uri, localName, lastAttributes, buffer)];
        buffer := None;
      }
    }

    /** Feed a parse's events to the handler, in order. */
    method Parse(events: seq<Event>)
      modifies this
      ensures State() == Run(old(State()), events).0
      ensures reports == old(reports) + Run(old(State()), events).1
    {
      for i := 0 to |events|
        invariant State() == Run(old(State()), events[..i]).0
        invariant reports == old(reports) + Run(old(State()), events[..i]).1
      {
        RunAppend(old(State()), events[..i], [events[i]]);
        assert events[..i + 1] == events[..i] + [events[i]];
        match events[i]
        case Start(uri, localName, attrs) => StartElement(uri, localName, attrs);
        case Characters(text) => Characters(text);
        case End(uri, localName) => EndElement(uri, localName);
      }
      assert events[..|events|] == events;
    }
  }

  /** The `element` calls of a fresh handler fed a whole parse. */
  method ParseReports(events: seq<Event>) returns (reports: seq<Element>)
    ensures reports == Reports(events)
  {
    var handler := new ElementHandler();
    handler.Parse(events);
    reports := handler.reports;
  }
}
