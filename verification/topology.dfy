/**
 * The topology canvas: switches, routers and PCs placed with the mouse and joined by links.
 * The program keeps nodes and links as objects and compares them with `==`; here every node
 * and every link carries an identity number that stands for the object reference. The canvas
 * draws new identities from two counters that only grow, so an identity is never given to a
 * second object, just as a new object is never `==` to an old one. Selections hold
 * identities, and the node a link drag starts from is held as the node it was when the drag
 * began.
 */
module Topology {
  import opened Optional
  import opened Text
  import opened Store

  // ---------------------------------------------------------------------------
  // Sequences searched and rewritten by a condition
  // ---------------------------------------------------------------------------

  /** The highest index whose element satisfies `p`: the backward scan of `getNodeAt` and `getLinkAt`. */
  function LastWhere<T>(xs: seq<T>, p: T -> bool): (r: Option<nat>)
    ensures r.Some? ==> r.value < |xs| && p(xs[r.value])
    ensures r.Some? ==> forall i :: r.value < i < |xs| ==> !p(xs[i])
    ensures r.None? <==> forall i :: 0 <= i < |xs| ==> !p(xs[i])
    decreases |xs|
  {
    if xs == [] then None
    else if p(xs[|xs| - 1]) then Some(|xs| - 1)
    else LastWhere(xs[..|xs| - 1], p)
  }

  /** Every element satisfying `p` is replaced by its image under `f`; the others stay. */
  function MapWhere<T>(xs: seq<T>, p: T -> bool, f: T -> T): (r: seq<T>)
    ensures |r| == |xs|
    ensures forall i :: 0 <= i < |xs| ==> r[i] == if p(xs[i]) then f(xs[i]) else xs[i]
    decreases |xs|
  {
    if xs == [] then [] else [if p(xs[0]) then f(xs[0]) else xs[0]] + MapWhere(xs[1..], p, f)
  }

  // ---------------------------------------------------------------------------
  // Nodes, links and the 32-bit hit test
  // ---------------------------------------------------------------------------

  /** Java's `int` arithmetic: the value taken modulo 2^32 into the signed range. */
  function Wrap(v: int): (r: int)
    ensures IntMin <= r <= IntMax
    ensures IntMin <= v <= IntMax ==> r == v
    ensures (r - v) % 0x1_0000_0000 == 0
  {
    (v - IntMin) % 0x1_0000_0000 + IntMin
  }

  /** Every node is drawn as a disc of this radius. */
  const Radius: int := 32

  datatype Kind = Switch | Router | Pc

  /** The type string a node records, which also starts its default name. */
  function KindName(k: Kind): string {
    match k
    case Switch => "switch"
    case Router => "router"
    case Pc => "pc"
  }

  datatype Node = Node(id: nat, x: int, y: int, kind: string, name: string, radius: int)

  /** A link joins the nodes with identities `a` and `b`. */
  datatype Link = Link(id: nat, a: nat, b: nat, name: string, bandwidth: string, delay: string)

  const DefaultBandwidth: string := "1G"
  const DefaultDelay: string := "1ms"

  /** `TopoNode.contains`: squared distance against squared radius, all in 32-bit `int`. */
  predicate Hits(n: Node, px: int, py: int) {
    var dx := Wrap(n.x - px);
    var dy := Wrap(n.y - py);
    Wrap(Wrap(dx * dx) + Wrap(dy * dy)) <= Wrap(n.radius * n.radius)
  }

  /** Near the node, the 32-bit test is the disc test: no product or sum leaves the `int` range. */
  lemma HitsIsDisc(n: Node, px: int, py: int)
    requires -30000 <= n.x - px <= 30000 && -30000 <= n.y - py <= 30000 && 0 <= n.radius <= 30000
    ensures Hits(n, px, py) <==> (n.x - px) * (n.x - px) + (n.y - py) * (n.y - py) <= n.radius * n.radius
  {
    var dx := n.x - px;
    var dy := n.y - py;
    assert 0 <= dx * dx <= 900_000_000 by {
      SquareBound(dx, 30000);
    }
    assert 0 <= dy * dy <= 900_000_000 by {
      SquareBound(dy, 30000);
    }
    assert 0 <= n.radius * n.radius <= 900_000_000 by {
      SquareBound(n.radius, 30000);
    }
  }

  lemma SquareBound(v: int, b: int)
    requires 0 <= b && -b <= v <= b
    ensures 0 <= v * v <= b * b
  {
    if v < 0 {
      assert v * v == (-v) * (-v);
    }
  }

  /**
   * Far away, the squares wrap: a node 65536 pixels to the right of the point (placed there
   * through the property dialog) still counts as hit, because 65536 * 65536 is 0 in `int`.
   */
  lemma FarNodeHit(id: nat, kind: string, name: string)
    ensures Hits(Node(id, 65536, 0, kind, name, Radius), 0, 0)
  {
    assert Wrap(65536 * 65536) == 0;
  }

  /** `getNodeAt`: the index of the most recently added node whose disc holds the point. */
  function NodeAt(nodes: seq<Node>, px: int, py: int): (r: Option<nat>)
    ensures r.Some? ==> r.value < |nodes| && Hits(nodes[r.value], px, py)
    ensures r.Some? ==> forall i :: r.value < i < |nodes| ==> !Hits(nodes[i], px, py)
    ensures r.None? <==> forall i :: 0 <= i < |nodes| ==> !Hits(nodes[i], px, py)
  {
    LastWhere(nodes, (n: Node) => Hits(n, px, py))
  }

  /** The scan as the program runs it, from the last node down to the first. */
  method FindNodeAt(nodes: seq<Node>, px: int, py: int) returns (r: Option<nat>)
    ensures r.Some? ==> r.value < |nodes| && Hits(nodes[r.value], px, py)
    ensures r.Some? ==> forall i :: r.value < i < |nodes| ==> !Hits(nodes[i], px, py)
    ensures r.None? <==> forall i :: 0 <= i < |nodes| ==> !Hits(nodes[i], px, py)
    ensures r == NodeAt(nodes, px, py)
  {
    var i := |nodes|;
    while i > 0
      invariant 0 <= i <= |nodes|
      invariant forall k :: i <= k < |nodes| ==> !Hits(nodes[k], px, py)
    {
      i := i - 1;
      if Hits(nodes[i], px, py) {
        LastHitIsNodeAt(nodes, px, py, i);
        return Some(i);
      }
    }
    return None;
  }

  lemma LastHitIsNodeAt(nodes: seq<Node>, px: int, py: int, i: nat)
    requires i < |nodes| && Hits(nodes[i], px, py)
    requires forall k :: i < k < |nodes| ==> !Hits(nodes[k], px, py)
    ensures NodeAt(nodes, px, py) == Some(i)
  {
  }

  /** `getLinkAt` with the link hit test left to the caller: it measures floating-point distances. */
  function LinkAt(links: seq<Link>, near: Link -> bool): (r: Option<nat>)
    ensures r.Some? ==> r.value < |links| && near(links[r.value])
    ensures r.Some? ==> forall i :: r.value < i < |links| ==> !near(links[i])
    ensures r.None? <==> forall i :: 0 <= i < |links| ==> !near(links[i])
  {
    LastWhere(links, near)
  }

  function NodeIds(nodes: seq<Node>): set<nat> {
    set i | 0 <= i < |nodes| :: nodes[i].id
  }

  function LinkIds(links: seq<Link>): set<nat> {
    set i | 0 <= i < |links| :: links[i].id
  }

  /** Where the node object with identity `id` sits in the list, if it is there. */
  function NodeIndex(nodes: seq<Node>, id: nat): (r: Option<nat>)
    ensures r.Some? ==> r.value < |nodes| && nodes[r.value].id == id
    ensures r.None? <==> id !in NodeIds(nodes)
    decreases |nodes|
  {
    if nodes == [] then None
    else if nodes[0].id == id then Some(0)
    else
      assert forall i :: 1 <= i < |nodes| ==> nodes[i] == nodes[1..][i - 1];
      match NodeIndex(nodes[1..], id)
      case None => None
      case Some(k) => Some(k + 1)
  }

  /** Where the link object with identity `id` sits in the list, if it is there. */
  function LinkIndex(links: seq<Link>, id: nat): (r: Option<nat>)
    ensures r.Some? ==> r.value < |links| && links[r.value].id == id
    ensures r.None? <==> id !in LinkIds(links)
    decreases |links|
  {
    if links == [] then None
    else if links[0].id == id then Some(0)
    else
      assert forall i :: 1 <= i < |links| ==> links[i] == links[1..][i - 1];
      match LinkIndex(links[1..], id)
      case None => None
      case Some(k) => Some(k + 1)
  }

  predicate Incident(l: Link, id: nat) {
    l.a == id || l.b == id
  }

  /** `links.removeIf(l -> l.a == node || l.b == node)`: the links not touching the node, in order. */
  function Detach(links: seq<Link>, id: nat): (r: seq<Link>)
    ensures |r| <= |links|
    ensures forall l :: l in r <==> l in links && !Incident(l, id)
    decreases |links|
  {
    if links == [] then []
    else
      var rest := Detach(links[1..], id);
      assert forall l :: l in links <==> l == links[0] || l in links[1..];
      if Incident(links[0], id) then rest else [links[0]] + rest
  }

  /** `removeIf` works link by link: one link is kept exactly when it does not touch the node. */
  lemma DetachOne(l: Link, id: nat)
    ensures Detach([l], id) == if Incident(l, id) then [] else [l]
  {
  }

  /** `removeIf` keeps the order of the links it keeps: it distributes over concatenation. */
  lemma {:induction false} DetachAppend(a: seq<Link>, b: seq<Link>, id: nat)
    ensures Detach(a + b, id) == Detach(a, id) + Detach(b, id)
    decreases |a|
  {
    if a != [] {
      assert (a + b)[0] == a[0];
      assert (a + b)[1..] == a[1..] + b;
      DetachAppend(a[1..], b, id);
    } else {
      assert a + b == b;
    }
  }

  /** The `TopoNode` constructor: the type, the random number (0..999) after it, radius 32. */
  function NewNode(id: nat, px: int, py: int, k: Kind, serial: nat): (n: Node)
    requires serial < 1000
    ensures n.id == id && n.x == px && n.y == py && n.kind == KindName(k) && n.radius == Radius
    ensures |KindName(k)| < |n.name| && n.name[..|KindName(k)|] == KindName(k) && n.name[|KindName(k)|] == '_'
    ensures ParseInt(n.name[|KindName(k)| + 1..]) == Some(serial)
  {
    var digits := NatToString(serial);
    var name := KindName(k) + "_" + digits;
    assert name[|KindName(k)| + 1..] == digits;
    ParseIntOfNatToString(serial);
    Node(id, px, py, KindName(k), name, Radius)
  }

  /** The `TopoLink` constructor: named after both ends, 1G, 1ms. */
  function NewLink(id: nat, a: Node, b: Node): (l: Link)
    ensures l.id == id && l.a == a.id && l.b == b.id
    ensures l.bandwidth == DefaultBandwidth && l.delay == DefaultDelay
    ensures |l.name| == |a.name| + 3 + |b.name| && l.name[..|a.name|] == a.name && l.name[|a.name|..|a.name| + 3] == "<->" && l.name[|a.name| + 3..] == b.name
  {
    var name := a.name + "<->" + b.name;
    assert name[..|a.name|] == a.name;
    assert name[|a.name|..|a.name| + 3] == "<->";
    assert name[|a.name| + 3..] == b.name;
    Link(id, a.id, b.id, name, DefaultBandwidth, DefaultDelay)
  }

  // ---------------------------------------------------------------------------
  // The canvas and its events
  // ---------------------------------------------------------------------------

  /** What a mouse press does: select, place a node of a kind, or start a link. */
  datatype Mode = Select | Place(kind: Kind) | Connect

  /**
   * The panel's state: the node and link lists, the selected node (by identity), the node a
   * link drag started from, the selected link (by identity) and the add mode. `nextNode` and
   * `nextLink` are the identities the next new node and the next new link receive: the
   * number of node and link objects created so far.
   */
  datatype Canvas = Canvas(nodes: seq<Node>, links: seq<Link>, selectedNode: Option<nat>,
                           linkStart: Option<Node>, selectedLink: Option<nat>, mode: Mode,
                           nextNode: nat, nextLink: nat)

  const Empty: Canvas := Canvas([], [], None, None, None, Select, 0, 0)

  predicate UniqueNodes(nodes: seq<Node>) {
    forall i, j :: 0 <= i < j < |nodes| ==> nodes[i].id != nodes[j].id
  }

  predicate UniqueLinks(links: seq<Link>) {
    forall i, j :: 0 <= i < j < |links| ==> links[i].id != links[j].id
  }

  /** Every link joins two different identities of `ids`. */
  predicate Attached(links: seq<Link>, ids: set<nat>) {
    forall l :: l in links ==> l.a in ids && l.b in ids && l.a != l.b
  }

  /** Every identity held for a node or a link was handed out before: it is below its counter. */
  predicate Issued(c: Canvas) {
    (forall i :: 0 <= i < |c.nodes| ==> c.nodes[i].id < c.nextNode)
    && (forall i :: 0 <= i < |c.links| ==> c.links[i].id < c.nextLink)
    && (c.selectedLink.Some? ==> c.selectedLink.value < c.nextLink)
  }

  /**
   * The invariant the events keep: identities are unique and were all handed out by the
   * counters, every link joins two different nodes of the list, and the selected node and
   * the link drag's start are in the list. A selected link need not be in the list: deleting
   * a node takes its links away and leaves the link selection as it was.
   */
  predicate Valid(c: Canvas) {
    UniqueNodes(c.nodes) && UniqueLinks(c.links) && Attached(c.links, NodeIds(c.nodes)) && Issued(c)
    && (c.selectedNode.Some? ==> c.selectedNode.value in NodeIds(c.nodes))
    && (c.linkStart.Some? ==> c.linkStart.value.id in NodeIds(c.nodes))
  }

  lemma EmptyValid()
    ensures Valid(Empty)
  {
  }

  /** Which property dialog a right click opens. */
  datatype Dialog = NoDialog | NodeDialog(node: nat) | LinkDialog(link: nat)

  datatype Pressed = Pressed(canvas: Canvas, dialog: Dialog)

  /**
   * A mouse press at (px, py). `serial` is the random number in a new node's name; `near` is
   * the link hit test.
   */
  function Press(c: Canvas, px: int, py: int, right: bool, serial: nat, near: Link -> bool): (r: Pressed)
    requires serial < 1000
    ensures c.mode.Place? ==> r.canvas.mode == Select && r.dialog == NoDialog
    ensures c.mode.Place? ==> r.canvas.nodes == c.nodes + [NewNode(c.nextNode, px, py, c.mode.kind, serial)]
    ensures c.mode.Place? ==> r.canvas.selectedNode == Some(c.nextNode) && r.canvas.nextNode == c.nextNode + 1
    ensures !c.mode.Place? ==> r.canvas.nextNode == c.nextNode
    ensures r.canvas.links == c.links && r.canvas.nextLink == c.nextLink
    ensures !c.mode.Place? ==> r.canvas.nodes == c.nodes && r.canvas.mode == c.mode
    ensures !c.mode.Place? ==> (r.canvas.selectedNode.Some? <==> NodeAt(c.nodes, px, py).Some?)
    ensures !c.mode.Place? && NodeAt(c.nodes, px, py).Some? ==>
      r.canvas.selectedNode == Some(c.nodes[NodeAt(c.nodes, px, py).value].id)
    ensures r.dialog.NodeDialog? <==> c.mode.Select? && right && NodeAt(c.nodes, px, py).Some?
    ensures r.dialog.NodeDialog? ==> r.dialog.node == c.nodes[NodeAt(c.nodes, px, py).value].id
    ensures c.mode.Connect? && NodeAt(c.nodes, px, py).Some? ==>
      r.canvas.linkStart == Some(c.nodes[NodeAt(c.nodes, px, py).value])
    ensures !(c.mode.Connect? && NodeAt(c.nodes, px, py).Some?) ==> r.canvas.linkStart == c.linkStart
    ensures c.mode.Select? && NodeAt(c.nodes, px, py).None? ==>
      r.canvas.selectedLink == (if LinkAt(c.links, near).Some? then Some(c.links[LinkAt(c.links, near).value].id) else None)
    ensures !(c.mode.Select? && NodeAt(c.nodes, px, py).None?) ==> r.canvas.selectedLink == c.selectedLink
    ensures r.dialog.LinkDialog? <==> c.mode.Select? && right && NodeAt(c.nodes, px, py).None? && LinkAt(c.links, near).Some?
    ensures r.dialog.LinkDialog? ==> r.dialog.link == c.links[LinkAt(c.links, near).value].id
  {
    match c.mode
    case Place(k) =>
      var n := NewNode(c.nextNode, px, py, k, serial);
      Pressed(c.(nodes := c.nodes + [n], selectedNode := Some(n.id), mode := Select, nextNode := c.nextNode + 1), NoDialog)
    case Connect =>
      (match NodeAt(c.nodes, px, py)
       case None => Pressed(c.(selectedNode := None), NoDialog)
       case Some(i) => Pressed(c.(selectedNode := Some(c.nodes[i].id), linkStart := Some(c.nodes[i])), NoDialog))
    case Select =>
      match NodeAt(c.nodes, px, py)
      case Some(i) =>
        Pressed(c.(selectedNode := Some(c.nodes[i].id)), if right then NodeDialog(c.nodes[i].id) else NoDialog)
      case None =>
        match LinkAt(c.links, near)
        case None => Pressed(c.(selectedNode := None, selectedLink := None), NoDialog)
        case Some(j) =>
          Pressed(c.(selectedNode := None, selectedLink := Some(c.links[j].id)),
                  if right then LinkDialog(c.links[j].id) else NoDialog)
  }

  /**
   * A mouse release at (px, py) ends a link drag: a link is added only when the point hits a
   * node other than the start node. The drag and the link mode end either way.
   */
  function Release(c: Canvas, px: int, py: int): (r: Canvas)
    ensures r.nodes == c.nodes && r.selectedNode == c.selectedNode && r.selectedLink == c.selectedLink
    ensures r.nextNode == c.nextNode
    ensures !(c.mode.Connect? && c.linkStart.Some?) ==> r == c
    ensures c.mode.Connect? && c.linkStart.Some? ==> r.mode == Select && r.linkStart.None?
    ensures |r.links| == |c.links| || (|r.links| == |c.links| + 1 && r.links[..|c.links|] == c.links)
    ensures |r.links| != |c.links| <==>
      c.mode.Connect? && c.linkStart.Some? && NodeAt(c.nodes, px, py).Some?
      && c.nodes[NodeAt(c.nodes, px, py).value].id != c.linkStart.value.id
    ensures |r.links| != |c.links| ==>
      r.links[|c.links|] == NewLink(c.nextLink, c.linkStart.value, c.nodes[NodeAt(c.nodes, px, py).value])
    ensures r.nextLink == if |r.links| != |c.links| then c.nextLink + 1 else c.nextLink
  {
    if c.mode.Connect? && c.linkStart.Some? then
      var start := c.linkStart.value;
      match NodeAt(c.nodes, px, py)
      case Some(i) =>
        if c.nodes[i].id != start.id then
          c.(links := c.links + [NewLink(c.nextLink, start, c.nodes[i])], nextLink := c.nextLink + 1,
             linkStart := None, mode := Select)
        else c.(linkStart := None, mode := Select)
      case None => c.(linkStart := None, mode := Select)
    else c
  }

  /** Dragging with the left button moves the selected node to the mouse position. */
  function Drag(c: Canvas, px: int, py: int, left: bool): (r: Canvas)
    ensures r.links == c.links && r.selectedNode == c.selectedNode && |r.nodes| == |c.nodes|
    ensures forall i :: 0 <= i < |c.nodes| ==> r.nodes[i].id == c.nodes[i].id
    ensures forall i :: 0 <= i < |c.nodes| ==>
      r.nodes[i] == if left && Some(c.nodes[i].id) == c.selectedNode then c.nodes[i].(x := px, y := py) else c.nodes[i]
  {
    if c.selectedNode.Some? && left then
      var id := c.selectedNode.value;
      c.(nodes := MapWhere(c.nodes, (n: Node) => n.id == id, (n: Node) => n.(x := px, y := py)))
    else c
  }

  /** The delete-node button: the selected node goes, with every link that touches it. */
  function DeleteNode(c: Canvas): (r: Canvas)
    ensures c.selectedNode.None? ==> r == c
    ensures r.selectedNode.None? && r.selectedLink == c.selectedLink && r.linkStart == c.linkStart && r.mode == c.mode
    ensures c.selectedNode.Some? ==> forall l :: l in r.links <==> l in c.links && !Incident(l, c.selectedNode.value)
    ensures c.selectedNode.Some? ==> r.links == Detach(c.links, c.selectedNode.value)
    ensures c.selectedNode.Some? && c.selectedNode.value in NodeIds(c.nodes) ==>
      var k := NodeIndex(c.nodes, c.selectedNode.value).value; r.nodes == RemoveAt(c.nodes, k)
  {
    match c.selectedNode
    case None => c
    case Some(id) =>
      var nodes := match NodeIndex(c.nodes, id) case None => c.nodes case Some(k) => RemoveAt(c.nodes, k);
      c.(nodes := nodes, links := Detach(c.links, id), selectedNode := None)
  }

  /** Deleting a node keeps the surviving links in their order: each part of the list is filtered on its own. */
  lemma DeleteNodeKeepsLinkOrder(c: Canvas, front: seq<Link>, back: seq<Link>)
    requires c.selectedNode.Some? && c.links == front + back
    ensures DeleteNode(c).links == Detach(front, c.selectedNode.value) + Detach(back, c.selectedNode.value)
  {
    DetachAppend(front, back, c.selectedNode.value);
  }

  /** The delete-link button: the selected link goes; a selection no longer in the list removes nothing. */
  function DeleteLink(c: Canvas): (r: Canvas)
    ensures r.nodes == c.nodes && r.selectedLink.None? && r.selectedNode == c.selectedNode
    ensures c.selectedLink.None? ==> r == c
    ensures c.selectedLink.Some? && c.selectedLink.value !in LinkIds(c.links) ==> r.links == c.links
    ensures c.selectedLink.Some? && c.selectedLink.value in LinkIds(c.links) ==>
      var k := LinkIndex(c.links, c.selectedLink.value).value; r.links == RemoveAt(c.links, k)
  {
    match c.selectedLink
    case None => c
    case Some(id) =>
      var links := match LinkIndex(c.links, id) case None => c.links case Some(k) => RemoveAt(c.links, k);
      c.(links := links, selectedLink := None)
  }

  /**
   * The node dialog's OK: the name is trimmed; x and y are parsed in turn, and a number that
   * does not parse leaves that coordinate and the ones after it as they were.
   */
  function EditNode(n: Node, name: string, xText: string, yText: string): (r: Node)
    ensures r.id == n.id && r.kind == n.kind && r.radius == n.radius && r.name == Trim(name)
    ensures r.x == if ParseInt(Trim(xText)).Some? then ParseInt(Trim(xText)).value else n.x
    ensures r.y == if ParseInt(Trim(xText)).Some? && ParseInt(Trim(yText)).Some? then ParseInt(Trim(yText)).value else n.y
  {
    var named := n.(name := Trim(name));
    match ParseInt(Trim(xText))
    case None => named
    case Some(x) =>
      match ParseInt(Trim(yText))
      case None => named.(x := x)
      case Some(y) => named.(x := x, y := y)
  }

  /** The link dialog's OK: name, bandwidth and delay are stored trimmed. */
  function EditLink(l: Link, name: string, bandwidth: string, delay: string): (r: Link)
    ensures r.id == l.id && r.a == l.a && r.b == l.b
    ensures r.name == Trim(name) && r.bandwidth == Trim(bandwidth) && r.delay == Trim(delay)
  {
    l.(name := Trim(name), bandwidth := Trim(bandwidth), delay := Trim(delay))
  }

  /** Confirming the node dialog for node `id`. */
  function ApplyNodeDialog(c: Canvas, id: nat, name: string, xText: string, yText: string): (r: Canvas)
    ensures r.links == c.links && |r.nodes| == |c.nodes|
    ensures forall i :: 0 <= i < |c.nodes| ==>
      r.nodes[i] == if c.nodes[i].id == id then EditNode(c.nodes[i], name, xText, yText) else c.nodes[i]
  {
    c.(nodes := MapWhere(c.nodes, (n: Node) => n.id == id, (n: Node) => EditNode(n, name, xText, yText)))
  }

  /** Confirming the link dialog for link `id`. */
  function ApplyLinkDialog(c: Canvas, id: nat, name: string, bandwidth: string, delay: string): (r: Canvas)
    ensures r.nodes == c.nodes && |r.links| == |c.links|
    ensures forall i :: 0 <= i < |c.links| ==>
      r.links[i] == if c.links[i].id == id then EditLink(c.links[i], name, bandwidth, delay) else c.links[i]
  {
    c.(links := MapWhere(c.links, (l: Link) => l.id == id, (l: Link) => EditLink(l, name, bandwidth, delay)))
  }

  // ---------------------------------------------------------------------------
  // The invariant through every event
  // ---------------------------------------------------------------------------

  lemma PressKeepsValid(c: Canvas, px: int, py: int, right: bool, serial: nat, near: Link -> bool)
    requires Valid(c) && serial < 1000
    ensures Valid(Press(c, px, py, right, serial, near).canvas)
  {
    if c.mode.Place? {
      var n := NewNode(c.nextNode, px, py, c.mode.kind, serial);
      PlaceKeepsValid(c, n);
    }
  }

  /** Adding a node with the next identity, counting it and selecting it keeps the invariant. */
  lemma PlaceKeepsValid(c: Canvas, n: Node)
    requires Valid(c) && n.id == c.nextNode
    ensures Valid(c.(nodes := c.nodes + [n], selectedNode := Some(n.id), mode := Select, nextNode := c.nextNode + 1))
  {
    var nodes := c.nodes + [n];
    assert nodes[|c.nodes|] == n;
    assert forall i :: 0 <= i < |c.nodes| ==> nodes[i] == c.nodes[i];
    assert NodeIds(c.nodes) <= NodeIds(nodes);
  }

  lemma ReleaseKeepsValid(c: Canvas, px: int, py: int)
    requires Valid(c)
    ensures Valid(Release(c, px, py))
  {
    var r := Release(c, px, py);
    if |r.links| != |c.links| {
      assert r.links[|c.links|].id == c.nextLink;
      assert forall i :: 0 <= i < |c.links| ==> r.links[i] == c.links[i];
      var i := NodeAt(c.nodes, px, py).value;
      assert c.nodes[i].id in NodeIds(c.nodes);
    }
  }

  lemma DragKeepsValid(c: Canvas, px: int, py: int, left: bool)
    requires Valid(c)
    ensures Valid(Drag(c, px, py, left))
  {
    SameIdsSameSet(c.nodes, Drag(c, px, py, left).nodes);
  }

  lemma NodeDialogKeepsValid(c: Canvas, id: nat, name: string, xText: string, yText: string)
    requires Valid(c)
    ensures Valid(ApplyNodeDialog(c, id, name, xText, yText))
  {
    SameIdsSameSet(c.nodes, ApplyNodeDialog(c, id, name, xText, yText).nodes);
  }

  lemma LinkDialogKeepsValid(c: Canvas, id: nat, name: string, bandwidth: string, delay: string)
    requires Valid(c)
    ensures Valid(ApplyLinkDialog(c, id, name, bandwidth, delay))
  {
  }

  lemma SameIdsSameSet(a: seq<Node>, b: seq<Node>)
    requires |a| == |b| && forall i :: 0 <= i < |a| ==> a[i].id == b[i].id
    ensures NodeIds(a) == NodeIds(b)
  {
    forall x | x in NodeIds(a) ensures x in NodeIds(b) {
      var i :| 0 <= i < |a| && a[i].id == x;
      assert b[i].id == x;
    }
    forall x | x in NodeIds(b) ensures x in NodeIds(a) {
      var i :| 0 <= i < |b| && b[i].id == x;
      assert a[i].id == x;
    }
  }

  /**
   * Deleting a node keeps the invariant when no link drag is under way (between a press and
   * its release on the canvas, the button cannot be clicked).
   */
  lemma DeleteNodeKeepsValid(c: Canvas)
    requires Valid(c) && c.linkStart.None?
    ensures Valid(DeleteNode(c))
  {
    if c.selectedNode.Some? {
      var id := c.selectedNode.value;
      var k := NodeIndex(c.nodes, id).value;
      RemovedNode(c.nodes, k);
      DetachKeepsAttached(c.links, id, NodeIds(c.nodes));
      DetachKeepsUnique(c.links, id);
    }
  }

  /** Taking out node `k` of a list with unique identities removes exactly its identity. */
  lemma RemovedNode(nodes: seq<Node>, k: nat)
    requires k < |nodes| && UniqueNodes(nodes)
    ensures NodeIds(RemoveAt(nodes, k)) == NodeIds(nodes) - {nodes[k].id}
    ensures UniqueNodes(RemoveAt(nodes, k))
  {
    var r := RemoveAt(nodes, k);
    forall x | x in NodeIds(nodes) - {nodes[k].id} ensures x in NodeIds(r) {
      var i :| 0 <= i < |nodes| && nodes[i].id == x;
      if i < k {
        assert r[i].id == x;
      } else {
        assert r[i - 1].id == x;
      }
    }
    forall x | x in NodeIds(r) ensures x in NodeIds(nodes) - {nodes[k].id} {
      var i :| 0 <= i < |r| && r[i].id == x;
      if i < k {
        assert nodes[i].id == x;
      } else {
        assert nodes[i + 1].id == x;
      }
    }
    forall i, j | 0 <= i < j < |r| ensures r[i].id != r[j].id {
      var i' := if i < k then i else i + 1;
      var j' := if j < k then j else j + 1;
      assert r[i] == nodes[i'] && r[j] == nodes[j'];
    }
  }

  lemma DetachKeepsAttached(links: seq<Link>, id: nat, ids: set<nat>)
    requires Attached(links, ids)
    ensures Attached(Detach(links, id), ids - {id})
  {
  }

  /** `removeIf` keeps link identities unique. */
  lemma {:induction false} DetachKeepsUnique(links: seq<Link>, id: nat)
    requires UniqueLinks(links)
    ensures UniqueLinks(Detach(links, id))
    decreases |links|
  {
    if links != [] {
      var rest := links[1..];
      assert forall i :: 0 <= i < |rest| ==> rest[i] == links[i + 1];
      DetachKeepsUnique(rest, id);
      var r := Detach(rest, id);
      if !Incident(links[0], id) {
        forall i | 0 <= i < |r| ensures r[i].id != links[0].id {
          assert r[i] in rest;
          var j :| 0 <= j < |rest| && rest[j] == r[i];
        }
        var full := [links[0]] + r;
        forall i, j | 0 <= i < j < |full| ensures full[i].id != full[j].id {
          assert full[j] == r[j - 1];
          if i > 0 {
            assert full[i] == r[i - 1];
          }
        }
      }
    }
  }

  lemma DeleteLinkKeepsValid(c: Canvas)
    requires Valid(c)
    ensures Valid(DeleteLink(c))
  {
    if c.selectedLink.Some? && c.selectedLink.value in LinkIds(c.links) {
      RemovedLink(c.links, LinkIndex(c.links, c.selectedLink.value).value, NodeIds(c.nodes));
    }
  }

  /** Taking out one link keeps identities unique and every other link attached. */
  lemma RemovedLink(links: seq<Link>, k: nat, ids: set<nat>)
    requires k < |links| && UniqueLinks(links) && Attached(links, ids)
    ensures UniqueLinks(RemoveAt(links, k)) && Attached(RemoveAt(links, k), ids)
    ensures forall l :: l in links && l.id != links[k].id ==> l in RemoveAt(links, k)
  {
    var r := RemoveAt(links, k);
    forall i, j | 0 <= i < j < |r| ensures r[i].id != r[j].id {
      var i' := if i < k then i else i + 1;
      var j' := if j < k then j else j + 1;
      assert r[i] == links[i'] && r[j] == links[j'];
    }
    forall l | l in r ensures l in links {
      var i :| 0 <= i < |r| && r[i] == l;
      assert r[i] == links[if i < k then i else i + 1];
    }
    forall l | l in links && l.id != links[k].id ensures l in r {
      var i :| 0 <= i < |links| && links[i] == l;
      if i < k {
        assert r[i] == l;
      } else {
        assert r[i - 1] == l;
      }
    }
  }

  // ---------------------------------------------------------------------------
  // Properties of single events
  // ---------------------------------------------------------------------------

  /** No event sequence builds a self-loop: a release on the start node adds nothing. */
  lemma ReleaseOnStartAddsNothing(c: Canvas, px: int, py: int)
    requires c.mode.Connect? && c.linkStart.Some?
    requires NodeAt(c.nodes, px, py).Some? && c.nodes[NodeAt(c.nodes, px, py).value].id == c.linkStart.value.id
    ensures Release(c, px, py).links == c.links
  {
  }

  /** Placing a node adds exactly one node, the only node with its identity, and selects it. */
  lemma PlaceAddsOne(c: Canvas, px: int, py: int, right: bool, serial: nat, near: Link -> bool)
    requires Valid(c) && c.mode.Place? && serial < 1000
    ensures var r := Press(c, px, py, right, serial, near).canvas;
      |r.nodes| == |c.nodes| + 1 && r.nodes[..|c.nodes|] == c.nodes
      && r.selectedNode == Some(r.nodes[|c.nodes|].id) && r.nodes[|c.nodes|].id !in NodeIds(c.nodes)
      && r.nodes[|c.nodes|].x == px && r.nodes[|c.nodes|].y == py && r.mode == Select
  {
    var r := Press(c, px, py, right, serial, near).canvas;
    assert r.nodes[..|c.nodes|] == c.nodes;
  }

  /** Deleting a node removes exactly that node: the others stay, in order. */
  lemma DeleteNodeRemovesOne(c: Canvas)
    requires Valid(c) && c.selectedNode.Some?
    ensures var r := DeleteNode(c); var id := c.selectedNode.value;
      |r.nodes| == |c.nodes| - 1 && NodeIds(r.nodes) == NodeIds(c.nodes) - {id}
  {
    RemovedNode(c.nodes, NodeIndex(c.nodes, c.selectedNode.value).value);
  }

  /** The node that appears last in the list wins when discs overlap. */
  lemma LaterNodeOnTop(nodes: seq<Node>, n: Node, px: int, py: int)
    requires Hits(n, px, py)
    ensures NodeAt(nodes + [n], px, py) == Some(|nodes|)
  {
  }

  /** Deleting the selected link, when it is in the list, removes exactly it. */
  lemma DeleteLinkRemovesOne(c: Canvas)
    requires Valid(c) && c.selectedLink.Some? && c.selectedLink.value in LinkIds(c.links)
    ensures var r := DeleteLink(c);
      |r.links| == |c.links| - 1 && c.selectedLink.value !in LinkIds(r.links)
      && forall l :: l in c.links && l.id != c.selectedLink.value ==> l in r.links
  {
    var k := LinkIndex(c.links, c.selectedLink.value).value;
    RemovedLink(c.links, k, NodeIds(c.nodes));
    var r := RemoveAt(c.links, k);
    forall i | 0 <= i < |r| ensures r[i].id != c.links[k].id {
      assert r[i] == c.links[if i < k then i else i + 1];
    }
  }

  // ---------------------------------------------------------------------------
  // Identities are never reused
  // ---------------------------------------------------------------------------

  /**
   * The link a release adds gets an identity that no link of the canvas holds and that the
   * link selection does not name: a new object, different from every object seen before.
   */
  lemma NewLinkIdentityUnused(c: Canvas, px: int, py: int)
    requires Valid(c) && |Release(c, px, py).links| != |c.links|
    ensures var id := Release(c, px, py).links[|c.links|].id;
      id !in LinkIds(c.links) && (c.selectedLink.Some? ==> c.selectedLink.value != id)
  {
  }

  /**
   * Deleting a node takes the selected link with it when that link touches the node, but the
   * link selection stays: it now names a link that is no longer in the list.
   */
  lemma DeleteNodeLeavesSelectionStale(c: Canvas, k: nat)
    requires Valid(c) && c.selectedNode.Some? && c.selectedLink.Some?
    requires k < |c.links| && c.links[k].id == c.selectedLink.value && Incident(c.links[k], c.selectedNode.value)
    ensures DeleteNode(c).selectedLink == c.selectedLink
    ensures c.selectedLink.value !in LinkIds(DeleteNode(c).links)
  {
    var r := DeleteNode(c);
    forall j | 0 <= j < |r.links| ensures r.links[j].id != c.selectedLink.value {
      assert r.links[j] in c.links;
    }
  }

  /**
   * A stale link selection stays stale through a link drag, whatever link the drag adds, so
   * the delete-link button then removes nothing: `links.remove` of an object no longer in the
   * list leaves the list as it is.
   */
  lemma StaleSelectionRemovesNothing(c: Canvas, px: int, py: int)
    requires Valid(c) && c.selectedLink.Some? && c.selectedLink.value !in LinkIds(c.links)
    ensures var r := Release(c, px, py);
      r.selectedLink == c.selectedLink && c.selectedLink.value !in LinkIds(r.links)
      && DeleteLink(r).links == r.links
  {
    var r := Release(c, px, py);
    if |r.links| != |c.links| {
      assert r.links == c.links + [r.links[|c.links|]];
      NewLinkIdentityUnused(c, px, py);
    }
  }

  /**
   * Delete the node that holds the selected link, start a link drag from another node and end
   * it on a third: the delete-link button then removes nothing, and the new link stays.
   */
  lemma CascadeThenConnect(c: Canvas, k: nat, x0: int, y0: int, x1: int, y1: int, near: Link -> bool)
    requires Valid(c) && c.linkStart.None? && c.selectedNode.Some? && c.selectedLink.Some?
    requires k < |c.links| && c.links[k].id == c.selectedLink.value && Incident(c.links[k], c.selectedNode.value)
    ensures var deleted := DeleteNode(c);
      var pressed := Press(deleted.(mode := Connect), x0, y0, false, 0, near).canvas;
      var released := Release(pressed, x1, y1);
      DeleteLink(released).links == released.links
  {
    DeleteNodeLeavesSelectionStale(c, k);
    DeleteNodeKeepsValid(c);
    var deleted := DeleteNode(c).(mode := Connect);
    PressKeepsValid(deleted, x0, y0, false, 0, near);
    var pressed := Press(deleted, x0, y0, false, 0, near).canvas;
    assert pressed.selectedLink == c.selectedLink && pressed.links == deleted.links;
    StaleSelectionRemovesNothing(pressed, x1, y1);
  }
}
