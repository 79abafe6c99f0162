/**
 * `DragAndDropManager`: registration of draggable elements and drop zones,
 * and the six native drag-event handlers with their dispatcher.
 *
 * Each handler is a method on the fake document; what it does to the node
 * map is given by a pure function (`DragEndNodes`, `DropNodes`, ...) and the
 * lemmas beside those functions state the promised behaviour.
 */
module DragAndDrop {
  import opened Dom
  import opened Utils

  /** `cssClasses.dragstart`: marks the element being dragged. */
  const Moving := "moving"
  /** `cssClasses.dragenter`: marks the drop zone under the pointer. */
  const Over := "over"

  /** Both class names are non-empty single tokens, as `classList` requires. */
  lemma ClassNamesAreTokens()
    ensures IsClassName(Moving) && IsClassName(Over)
  {
  }

  /** Listeners attached by `addDraggable` and `addDraggables`. */
  const DraggableEvents: set<string> := {"dragstart", "dragend"}
  /** Listeners attached by `addDroppable`. */
  const DroppableEvents: set<string> := {"dragenter", "dragleave", "dragover", "drop"}

  /** The keys of the handler table. */
  const HandledEvents: set<string> := DraggableEvents + DroppableEvents

  /**
   * How a registration call ends: normally, or by throwing `NotANodeException`.
   * The script itself does not define that constructor; the page is taken to.
   */
  datatype Completion = Normal | NotANodeException(message: string)

  const AddDroppableMessage :=
    "DragAndDropManager.addDroppable(element) - the supplied element is not a valid DOM node"
  const MakeDraggableMessage :=
    "DragAndDropManager.makeDraggable(element) - the supplied element is not a valid DOM node"
  const AddDraggableMessage :=
    "DragAndDropManager.addDraggable(element) - the supplied element is not a valid DOM node"
  const AddDraggablesMessage :=
    "DragAndDropManager.addDraggables(element) - the supplied element is not a valid DOM node"

  ghost predicate IsElementIn(m: map<NodeId, Node>, id: NodeId) {
    id in m && m[id].nodeType == ElementNode
  }

  // ---------------------------------------------------------------------
  // Registration

  /** What `makeDraggable` does to an element: `draggable="true"`, except on images and anchors. */
  function MarkedDraggable(element: Node): Node {
    var tag := Lower(element.tagName);
    if tag != "img" && tag != "a" then AttributeSet(element, "draggable", "true") else element
  }

  /**
   * An image or an anchor is left exactly as it was; any other element gets
   * `draggable="true"` and no other attribute, class, link or listener changes.
   */
  lemma DraggablePolicy(element: Node)
    ensures var tag := Lower(element.tagName);
      (tag == "img" || tag == "a") ==> MarkedDraggable(element) == element
    ensures var tag := Lower(element.tagName);
      (tag != "img" && tag != "a") ==> GetAttr(MarkedDraggable(element).attributes, "draggable") == Some("true")
    ensures forall name | name != "draggable" ::
      GetAttr(MarkedDraggable(element).attributes, name) == GetAttr(element.attributes, name)
    ensures MarkedDraggable(element).(attributes := element.attributes) == element
    ensures WellFormed(element) ==> WellFormed(MarkedDraggable(element))
  {
    forall name ensures GetAttr(SetAttr(element.attributes, "draggable", "true"), name) ==
        if name == "draggable" then Some("true") else GetAttr(element.attributes, name)
    {
      SetAttrGet(element.attributes, "draggable", "true", name);
    }
  }

  /** The document after `addDraggables(p)`: element children marked, listeners on `p` only. */
  function DraggablesMarked(m: map<NodeId, Node>, p: NodeId): map<NodeId, Node>
    requires p in m
  {
    map id | id in m ::
      if id == p then Listening(m[p], DraggableEvents)
      else if id in m[p].children && m[id].nodeType == ElementNode then MarkedDraggable(m[id])
      else m[id]
  }

  /**
   * `addDraggables(p)` keeps the document coherent, marks every element child
   * by the draggable policy, skips the other children, and gives `p` the
   * `dragstart`/`dragend` listeners without marking `p` itself.
   */
  lemma DraggablesMarkedSpec(m: map<NodeId, Node>, p: NodeId)
    requires Coherent(m) && p in m
    ensures var r := DraggablesMarked(m, p);
      && Coherent(r) && r.Keys == m.Keys
      && r[p].attributes == m[p].attributes
      && r[p].listeners == m[p].listeners + DraggableEvents
      && (forall c | c in m[p].children ::
            r[c] == if m[c].nodeType == ElementNode then MarkedDraggable(m[c]) else m[c])
      && (forall id | id in m && id != p && id !in m[p].children :: r[id] == m[id])
  {
    assert p !in m[p].children;
    DraggablesMarkedCoherent(m, p);
  }

  /** Marking and listening change no link, so the document stays coherent. */
  lemma DraggablesMarkedCoherent(m: map<NodeId, Node>, p: NodeId)
    requires Coherent(m) && p in m
    ensures Coherent(DraggablesMarked(m, p))
  {
    var r := DraggablesMarked(m, p);
    forall id | id in r ensures WellFormed(r[id]) && r[id].parent == m[id].parent && r[id].children == m[id].children {
      assert WellFormed(m[id]);
      DraggablePolicy(m[id]);
    }
    SameLinks(m, r);
  }

  /** The map after the loop of `addDraggables` has marked the element nodes among `ids`. */
  ghost function MarkedAmong(m: map<NodeId, Node>, ids: seq<NodeId>): map<NodeId, Node> {
    map id | id in m :: if id in ids && m[id].nodeType == ElementNode then MarkedDraggable(m[id]) else m[id]
  }

  /** One more turn of the loop marks one more child, if it is an element. */
  lemma MarkedAmongStep(m: map<NodeId, Node>, ids: seq<NodeId>, c: NodeId)
    requires c in m && c !in ids
    ensures var before := MarkedAmong(m, ids);
      && before[c] == m[c]
      && MarkedAmong(m, ids + [c]) ==
           if before[c].nodeType == ElementNode then before[c := MarkedDraggable(before[c])] else before
  {
    var a := MarkedAmong(m, ids + [c]);
    var b := if m[c].nodeType == ElementNode then MarkedAmong(m, ids)[c := MarkedDraggable(m[c])] else MarkedAmong(m, ids);
    assert a.Keys == b.Keys;
    forall id | id in a ensures a[id] == b[id] {
      assert id in ids + [c] <==> id in ids || id == c;
    }
  }

  /** After the loop, adding the two listeners to the parent gives `DraggablesMarked`. */
  lemma MarkedAmongAll(m: map<NodeId, Node>, p: NodeId)
    requires p in m && p !in m[p].children
    ensures DraggablesMarked(m, p) == MarkedAmong(m, m[p].children)[p := Listening(m[p], DraggableEvents)]
  {
  }

  /**
   * A zone whose markup says `class="x"` holds the token "x", not an empty
   * list; hovering over it keeps "x" and writes `class="x over"`.
   */
  lemma HoverKeepsMarkupClasses()
    ensures var zone := Node(ElementNode, "DIV", [Attr("class", "x")], ["x"], None, [], {});
      && WellFormed(zone)
      && !WellFormed(zone.(classList := []))
      && ClassAdd(zone, Over).classList == ["x", Over]
      && GetAttr(ClassAdd(zone, Over).attributes, "class") == Some("x over")
  {
    assert WordEnd("x") == 1 by {
      assert "x"[1..] == [];
    }
    assert Words("x") == ["x"] by {
      assert "x"[..1] == "x" && "x"[1..] == [];
    }
    assert Tokens("x") == ["x"];
    assert Join(["x", Over], " ") == "x over" by {
      assert ["x", Over][1..] == [Over];
    }
  }

  // ---------------------------------------------------------------------
  // dragend

  /** The document after the `dragend` handler. */
  function DragEndNodes(m: map<NodeId, Node>, target: NodeId, currentTarget: NodeId, dropEffect: string)
    : map<NodeId, Node>
    requires target in m && currentTarget in m
    requires dropEffect != "none" ==> m[target].parent.Some? && m[target].parent.value in m
  {
    var m1 := m[target := WithoutClass(m[target], Moving)];
    var m2 := m1[currentTarget := WithoutClass(m1[currentTarget], Over)];
    if dropEffect != "none" then Detach(m2, target) else m2
  }

  /**
   * `dragend` clears "moving" from the dragged element and "over" from the
   * element listening; it detaches the dragged element exactly when the drop
   * effect is not "none", closing the gap among its former siblings, and
   * otherwise changes no link.
   */
  lemma DragEndRule(m: map<NodeId, Node>, target: NodeId, currentTarget: NodeId, dropEffect: string)
    requires Coherent(m) && IsElementIn(m, target) && IsElementIn(m, currentTarget)
    requires dropEffect != "none" ==> m[target].parent.Some?
    ensures var r := DragEndNodes(m, target, currentTarget, dropEffect);
      && Coherent(r) && r.Keys == m.Keys
      && Moving !in r[target].classList
      && Over !in r[currentTarget].classList
      && (m[target].parent.Some? ==> (r[target].parent.None? <==> dropEffect != "none"))
      && (dropEffect == "none" ==>
            forall id | id in m :: r[id].parent == m[id].parent && r[id].children == m[id].children)
  {
    var m1 := m[target := WithoutClass(m[target], Moving)];
    ClassCleared(m, target, Moving);
    var m2 := m1[currentTarget := WithoutClass(m1[currentTarget], Over)];
    ClassCleared(m1, currentTarget, Over);
    assert Moving !in m2[target].classList by {
      if currentTarget == target {
        WithoutClassMeaning(m1[target], Over);
      }
    }
    var r := DragEndNodes(m, target, currentTarget, dropEffect);
    if dropEffect != "none" {
      assert r == Detach(m2, target);
      DetachCoherent(m2, target);
    } else {
      assert r == m2;
      forall id | id in m ensures r[id].parent == m[id].parent && r[id].children == m[id].children {
        if id != target && id != currentTarget {
          assert r[id] == m[id];
        }
      }
    }
  }

  /** Removing a class from an element keeps the map coherent and leaves the links alone. */
  lemma ClassCleared(m: map<NodeId, Node>, id: NodeId, className: string)
    requires Coherent(m) && IsElementIn(m, id) && className != ""
    ensures var r := m[id := WithoutClass(m[id], className)];
      && Coherent(r) && r.Keys == m.Keys && className !in r[id].classList
      && r[id].parent == m[id].parent && r[id].children == m[id].children
      && r[id].nodeType == ElementNode
  {
    WithoutClassMeaning(m[id], className);
    UpdateCoherent(m, id, WithoutClass(m[id], className));
  }

  /** When `dragend` detaches the dragged element, its former siblings keep their order. */
  lemma DragEndSiblings(m: map<NodeId, Node>, target: NodeId, currentTarget: NodeId, dropEffect: string, k: nat)
    requires Coherent(m) && IsElementIn(m, target) && IsElementIn(m, currentTarget)
    requires dropEffect != "none" && m[target].parent.Some?
    requires var p := m[target].parent.value; k < |m[p].children| && m[p].children[k] == target
    ensures var p := m[target].parent.value;
      DragEndNodes(m, target, currentTarget, dropEffect)[p].children == m[p].children[..k] + m[p].children[k + 1..]
  {
    var p := m[target].parent.value;
    WithoutAt(m[p].children, k);
  }

  // ---------------------------------------------------------------------
  // drop

  /** A parsed node that `drop` keeps: it has a tag name, and it is not `meta`. */
  predicate IsKept(n: Node) {
    n.tagName != "" && Lower(n.tagName) != "meta"
  }

  /** The nodes of `parsed` that `drop` keeps, in their order. */
  function Kept(m: map<NodeId, Node>, parsed: seq<NodeId>): (r: seq<NodeId>)
    requires forall k | k in parsed :: k in m
    ensures forall k :: k in r <==> k in parsed && IsKept(m[k])
    ensures |r| <= |parsed|
  {
    if parsed == [] then []
    else (if IsKept(m[parsed[0]]) then [parsed[0]] else []) + Kept(m, parsed[1..])
  }

  /** The nodes of `parsed` that `drop` throws away, in their order. */
  function Discarded(m: map<NodeId, Node>, parsed: seq<NodeId>): seq<NodeId>
    requires forall k | k in parsed :: k in m
  {
    if parsed == [] then []
    else (if IsKept(m[parsed[0]]) then [] else [parsed[0]]) + Discarded(m, parsed[1..])
  }

  lemma {:induction false} KeptAppend(m: map<NodeId, Node>, a: seq<NodeId>, b: seq<NodeId>)
    requires forall k | k in a + b :: k in m
    ensures Kept(m, a + b) == Kept(m, a) + Kept(m, b)
  {
    if a == [] {
      assert a + b == b;
    } else {
      var head := if IsKept(m[a[0]]) then [a[0]] else [];
      assert (a + b)[0] == a[0];
      assert (a + b)[1..] == a[1..] + b;
      KeptAppend(m, a[1..], b);
      calc {
        Kept(m, a + b);
        head + Kept(m, a[1..] + b);
        head + (Kept(m, a[1..]) + Kept(m, b));
        (head + Kept(m, a[1..])) + Kept(m, b);
      }
    }
  }

  lemma {:induction false} KeptNoDups(m: map<NodeId, Node>, parsed: seq<NodeId>)
    requires forall k | k in parsed :: k in m
    requires NoDups(parsed)
    ensures NoDups(Kept(m, parsed))
  {
    if parsed != [] {
      assert NoDups(parsed[1..]) by {
        forall i, j | 0 <= i < j < |parsed[1..]| ensures parsed[1..][i] != parsed[1..][j] {
          assert parsed[1..][i] == parsed[i + 1] && parsed[1..][j] == parsed[j + 1];
        }
      }
      KeptNoDups(m, parsed[1..]);
      var rest := Kept(m, parsed[1..]);
      if IsKept(m[parsed[0]]) {
        assert parsed[0] !in parsed[1..];
        assert parsed[0] !in rest;
        forall i, j | 0 <= i < j < |[parsed[0]] + rest| ensures ([parsed[0]] + rest)[i] != ([parsed[0]] + rest)[j] {
          if i == 0 {
            assert ([parsed[0]] + rest)[j] == rest[j - 1];
          } else {
            assert ([parsed[0]] + rest)[i] == rest[i - 1] && ([parsed[0]] + rest)[j] == rest[j - 1];
          }
        }
      }
    }
  }

  /**
   * A payload of N kept nodes and M discarded ones splits exactly into the
   * two; every discarded node is either tagless (text, comment) or `meta`.
   */
  lemma {:induction false} PayloadPartition(m: map<NodeId, Node>, parsed: seq<NodeId>)
    requires forall k | k in parsed :: k in m
    ensures |Kept(m, parsed)| + |Discarded(m, parsed)| == |parsed|
    ensures forall k | k in Discarded(m, parsed) :: k in parsed && (m[k].tagName == "" || Lower(m[k].tagName) == "meta")
  {
    if parsed != [] {
      PayloadPartition(m, parsed[1..]);
    }
  }

  /** `dataset["element"]`: the `data-element` attribute, undefined when absent. */
  function DataElement(n: Node): Option<string> {
    GetAttr(n.attributes, "data-element")
  }

  /** The identifiers `drop` reports, one per node, in order. */
  function Identifiers(m: map<NodeId, Node>, nodes: seq<NodeId>): (r: seq<Option<string>>)
    requires forall k | k in nodes :: k in m
    ensures |r| == |nodes|
  {
    seq(|nodes|, i requires 0 <= i < |nodes| => DataElement(m[nodes[i]]))
  }

  /** The document after the `drop` handler. */
  function DropNodes(m: map<NodeId, Node>, dropTarget: NodeId, parsed: seq<NodeId>): map<NodeId, Node>
    requires dropTarget in m && forall k | k in parsed :: k in m
  {
    var m1 := Adopt(m, dropTarget, Kept(m, parsed));
    m1[dropTarget := WithoutClass(m1[dropTarget], Over)]
  }

  /**
   * `drop` appends exactly the kept nodes after the drop zone's existing
   * children, in payload order, re-parents them to the zone, leaves every
   * discarded node detached and untouched, clears "over" from the zone and
   * keeps the document coherent.
   */
  lemma DropAppends(m: map<NodeId, Node>, dropTarget: NodeId, parsed: seq<NodeId>)
    requires Coherent(m) && IsElementIn(m, dropTarget) && Adoptable(m, dropTarget, parsed)
    ensures var r := DropNodes(m, dropTarget, parsed);
      && Coherent(r) && r.Keys == m.Keys
      && r[dropTarget].children == m[dropTarget].children + Kept(m, parsed)
      && Over !in r[dropTarget].classList
      && (forall k | k in Kept(m, parsed) :: r[k] == m[k].(parent := Some(dropTarget)))
      && (forall k | k in parsed && k !in Kept(m, parsed) :: r[k] == m[k] && r[k].parent == None)
      && (forall id | id in m && id != dropTarget && id !in parsed :: r[id] == m[id])
  {
    var kept := Kept(m, parsed);
    KeptNoDups(m, parsed);
    AdoptCoherent(m, dropTarget, kept);
    var m1 := Adopt(m, dropTarget, kept);
    WithoutClassMeaning(m1[dropTarget], Over);
    UpdateCoherent(m1, dropTarget, WithoutClass(m1[dropTarget], Over));
  }

  /**
   * The identifiers `drop` reads after moving the nodes are those the
   * payload carried: moving a node changes its parent and nothing else.
   */
  lemma DropKeepsIdentifiers(m: map<NodeId, Node>, dropTarget: NodeId, parsed: seq<NodeId>)
    requires dropTarget in m && Adoptable(m, dropTarget, parsed)
    ensures Identifiers(DropNodes(m, dropTarget, parsed), Kept(m, parsed)) == Identifiers(m, Kept(m, parsed))
  {
    var kept := Kept(m, parsed);
    var r := DropNodes(m, dropTarget, parsed);
    forall i | 0 <= i < |kept| ensures DataElement(r[kept[i]]) == DataElement(m[kept[i]]) {
      assert kept[i] in parsed;
      assert r[kept[i]] == m[kept[i]].(parent := Some(dropTarget));
    }
  }

  /**
   * The drop scenario: a payload holding a `meta` node and `<li data-element="worf">`
   * dropped on an empty `<ul class="over">` leaves the list holding exactly
   * that item, no hover class and no `class` attribute, and reports ["worf"].
   */
  lemma WorfScenario()
    ensures var ul := Node(ElementNode, "UL", [Attr("class", "over")], [Over], None, [], DroppableEvents);
      var meta := Node(ElementNode, "META", [Attr("charset", "utf-8")], [], None, [], {});
      var li := Node(ElementNode, "LI", [Attr("data-element", "worf")], [], None, [], {});
      var m := map[0 := ul, 1 := meta, 2 := li];
      var r := DropNodes(m, 0, [1, 2]);
      && Kept(m, [1, 2]) == [2]
      && r[0].children == [2] && r[2].parent == Some(0)
      && r[0].classList == [] && GetAttr(r[0].attributes, "class") == None
      && r[1] == meta
      && Identifiers(m, Kept(m, [1, 2])) == [Some("worf")]
  {
    var meta := Node(ElementNode, "META", [Attr("charset", "utf-8")], [], None, [], {});
    var li := Node(ElementNode, "LI", [Attr("data-element", "worf")], [], None, [], {});
    var m := map[0 := Node(ElementNode, "UL", [Attr("class", "over")], [Over], None, [], DroppableEvents), 1 := meta, 2 := li];
    assert Lower("META") == "meta";
    assert Lower("LI") == "li";
    assert Kept(m, [1, 2]) == [2] by {
      assert [1, 2][1..] == [2];
      assert Kept(m, [2]) == [2];
    }
    var m1 := Adopt(m, 0, [2]);
    assert m1[0].classList == [Over] && m1[0].attributes == [Attr("class", "over")];
    assert Without([Over], Over) == [] by {
      assert [Over][1..] == [];
    }
    var removed := ClassRemove(m1[0], Over);
    assert removed.attributes == [Attr("class", "")];
    assert RemoveAttr(removed.attributes, "class") == [] by {
      assert removed.attributes[1..] == [];
    }
  }

  // ---------------------------------------------------------------------
  // The manager

  class DragAndDropManager {
    /** The document whose elements the manager registers and moves. */
    const document: Document
    /**
     * One entry per `request.send` call: the identifier list its success
     * callback reports.
     */
    var sent: seq<seq<Option<string>>>

    constructor (document: Document)
      ensures this.document == document && sent == []
    {
      this.document := document;
      sent := [];
    }

    /** `addDroppable`. */
    method AddDroppable(element: JsValue) returns (c: Completion)
      requires document.Valid()
      modifies document
      ensures document.Valid()
      ensures c == if IsNode(element, old(document.nodes)) then Normal else NotANodeException(AddDroppableMessage)
      ensures document.nodes ==
        if c.Normal? then old(document.nodes)[element.id := Listening(old(document.nodes)[element.id], DroppableEvents)]
        else old(document.nodes)
    {
      if IsNode(element, document.nodes) {
        ghost var m := document.nodes;
        document.AddEventListener(element.id, "dragenter");
        document.AddEventListener(element.id, "dragleave");
        document.AddEventListener(element.id, "dragover");
        document.AddEventListener(element.id, "drop");
        ListeningFour(m[element.id], "dragenter", "dragleave", "dragover", "drop");
        c := Normal;
      } else {
        c := NotANodeException(AddDroppableMessage);
      }
    }

    /** `makeDraggable`. */
    method MakeDraggable(element: JsValue) returns (c: Completion)
      requires document.Valid()
      modifies document
      ensures document.Valid()
      ensures c == if IsNode(element, old(document.nodes)) then Normal else NotANodeException(MakeDraggableMessage)
      ensures document.nodes ==
        if c.Normal? then old(document.nodes)[element.id := MarkedDraggable(old(document.nodes)[element.id])]
        else old(document.nodes)
    {
      if IsNode(element, document.nodes) {
        var elementTag := Lower(document.nodes[element.id].tagName);
        if elementTag != "img" && elementTag != "a" {
          document.SetAttribute(element.id, "draggable", "true");
        }
        c := Normal;
      } else {
        c := NotANodeException(MakeDraggableMessage);
      }
    }

    /** `addDraggable`. */
    method AddDraggable(element: JsValue) returns (c: Completion)
      requires document.Valid()
      modifies document
      ensures document.Valid()
      ensures c == if IsNode(element, old(document.nodes)) then Normal else NotANodeException(AddDraggableMessage)
      ensures document.nodes ==
        if c.Normal? then
          old(document.nodes)[element.id := Listening(MarkedDraggable(old(document.nodes)[element.id]), DraggableEvents)]
        else old(document.nodes)
    {
      if IsNode(element, document.nodes) {
        ghost var m := document.nodes;
        var _ := MakeDraggable(element);
        document.AddEventListener(element.id, "dragstart");
        document.AddEventListener(element.id, "dragend");
        ListeningTwice(MarkedDraggable(m[element.id]), "dragstart", "dragend");
        c := Normal;
      } else {
        c := NotANodeException(AddDraggableMessage);
      }
    }

    /**
     * The loop of `addDraggables`: every child that is an element node goes
     * through `makeDraggable`, in order; the other children are skipped.
     */
    method MarkChildren(children: seq<NodeId>)
      requires document.Valid() && NoDups(children)
      requires forall c | c in children :: c in document.nodes
      modifies document
      ensures document.Valid()
      ensures document.nodes == MarkedAmong(old(document.nodes), children)
    {
      ghost var m := document.nodes;
      for i := 0 to |children|
        invariant document.Valid()
        invariant document.nodes == MarkedAmong(m, children[..i])
      {
        assert children[i] !in children[..i];
        assert children[..i + 1] == children[..i] + [children[i]];
        MarkedAmongStep(m, children[..i], children[i]);
        if IsNode(NodeRef(children[i]), document.nodes) {
          var _ := MakeDraggable(NodeRef(children[i]));
        }
      }
      assert children[..|children|] == children;
    }

    /** `addDraggables`. */
    method AddDraggables(element: JsValue) returns (c: Completion)
      requires document.Valid()
      modifies document
      ensures document.Valid()
      ensures c == if IsNode(element, old(document.nodes)) then Normal else NotANodeException(AddDraggablesMessage)
      ensures document.nodes ==
        if c.Normal? then DraggablesMarked(old(document.nodes), element.id) else old(document.nodes)
    {
      if IsNode(element, document.nodes) {
        var p := element.id;
        ghost var m := document.nodes;
        assert p !in m[p].children && NoDups(m[p].children);
        MarkChildren(document.nodes[p].children);
        MarkedAmongAll(m, p);
        assert document.nodes[p] == m[p];
        document.AddEventListener(p, "dragstart");
        document.AddEventListener(p, "dragend");
        ListeningTwice(m[p], "dragstart", "dragend");
        c := Normal;
      } else {
        c := NotANodeException(AddDraggablesMessage);
      }
    }

    // -------------------------------------------------------------------
    // The handler table

    /** `handlers.dragstart`. */
    method DragStart(event: DragEvent, outerHTML: string, innerHTML: string)
      requires document.Valid() && IsElementIn(document.nodes, event.target)
      modifies document, event.dataTransfer
      ensures document.Valid()
      ensures event.dataTransfer.effectAllowed == "move"
      ensures event.dataTransfer.payload == GetOuterHTML(old(document.nodes)[event.target], outerHTML, innerHTML)
      ensures event.dataTransfer.dropEffect == old(event.dataTransfer.dropEffect)
      ensures document.nodes == old(document.nodes)[event.target := ClassAdd(old(document.nodes)[event.target], Moving)]
    {
      event.dataTransfer.effectAllowed := "move";
      event.dataTransfer.payload := GetOuterHTML(document.nodes[event.target], outerHTML, innerHTML);
      ClassNamesAreTokens();
      document.ClassListAdd(event.target, Moving);
    }

    /** `handlers.dragover`. */
    method DragOver(event: DragEvent) returns (r: JsValue)
      requires document.Valid() && IsElementIn(document.nodes, event.currentTarget)
      modifies document, event, event.dataTransfer
      ensures document.Valid()
      ensures r == Boolean(false)
      ensures event.defaultPrevented && event.propagationStopped == old(event.propagationStopped)
      ensures event.dataTransfer.dropEffect == "move"
      ensures event.dataTransfer.effectAllowed == old(event.dataTransfer.effectAllowed)
      ensures event.dataTransfer.payload == old(event.dataTransfer.payload)
      ensures document.nodes ==
        old(document.nodes)[event.currentTarget := ClassAdd(old(document.nodes)[event.currentTarget], Over)]
    {
      event.defaultPrevented := true;
      event.dataTransfer.dropEffect := "move";
      ClassNamesAreTokens();
      document.ClassListAdd(event.currentTarget, Over);
      r := Boolean(false);
    }

    /** `handlers.dragenter`. */
    method DragEnter(event: DragEvent)
      requires document.Valid() && IsElementIn(document.nodes, event.currentTarget)
      modifies document
      ensures document.Valid()
      ensures document.nodes ==
        old(document.nodes)[event.currentTarget := ClassAdd(old(document.nodes)[event.currentTarget], Over)]
    {
      ClassNamesAreTokens();
      document.ClassListAdd(event.currentTarget, Over);
    }

    /** `handlers.dragleave`. */
    method DragLeave(event: DragEvent)
      requires document.Valid() && IsElementIn(document.nodes, event.currentTarget)
      modifies document
      ensures document.Valid()
      ensures document.nodes ==
        old(document.nodes)[event.currentTarget := WithoutClass(old(document.nodes)[event.currentTarget], Over)]
    {
      ClassNamesAreTokens();
      RemoveClass(document, Some(event.currentTarget), Over);
    }

    /** `handlers.dragend`. */
    method DragEnd(event: DragEvent)
      requires document.Valid()
      requires IsElementIn(document.nodes, event.target) && IsElementIn(document.nodes, event.currentTarget)
      requires event.dataTransfer.dropEffect != "none" ==> document.nodes[event.target].parent.Some?
      modifies document
      ensures document.Valid()
      ensures document.nodes ==
        DragEndNodes(old(document.nodes), event.target, event.currentTarget, event.dataTransfer.dropEffect)
    {
      ghost var m := document.nodes;
      ClassNamesAreTokens();
      ClassCleared(m, event.target, Moving);
      RemoveClass(document, Some(event.target), Moving);
      ghost var m1 := document.nodes;
      ClassCleared(m1, event.currentTarget, Over);
      RemoveClass(document, Some(event.currentTarget), Over);
      if event.dataTransfer.dropEffect != "none" {
        assert document.nodes[event.target].parent == m[event.target].parent;
        var parentNode := document.nodes[event.target].parent.value;
        document.RemoveChild(parentNode, event.target);
      }
    }

    /**
     * `handlers.drop`. `parsed` is what the browser's HTML parser makes of
     * the transferred markup: fresh, detached nodes in document order.
     */
    method Drop(event: DragEvent, parsed: seq<NodeId>)
      requires document.Valid() && IsElementIn(document.nodes, event.currentTarget)
      requires Adoptable(document.nodes, event.currentTarget, parsed)
      modifies document, event, this
      ensures document.Valid()
      ensures event.propagationStopped && event.defaultPrevented == old(event.defaultPrevented)
      ensures document.nodes == DropNodes(old(document.nodes), event.currentTarget, parsed)
      ensures sent == old(sent) + [Identifiers(old(document.nodes), Kept(old(document.nodes), parsed))]
    {
      ghost var m := document.nodes;
      event.propagationStopped := true;
      var dropTarget := event.currentTarget;
      var fragment, nodes := DrainPayload(parsed);
      KeptNoDups(m, parsed);
      document.AppendFragment(dropTarget, fragment);
      ClassNamesAreTokens();
      RemoveClass(document, Some(dropTarget), Over);
      var properties := CollectIdentifiers(nodes);
      DropKeepsIdentifiers(m, dropTarget, parsed);
      sent := sent + [properties];
    }

    /**
     * The loop of `drop` that empties the parsing `div`: it keeps, in order,
     * the nodes with a tag other than `meta`, once in the fragment and once
     * in the list whose identifiers are reported.
     */
    method DrainPayload(parsed: seq<NodeId>) returns (fragment: seq<NodeId>, nodes: seq<NodeId>)
      requires forall k | k in parsed :: k in document.nodes
      ensures fragment == nodes == Kept(document.nodes, parsed)
    {
      fragment, nodes := [], [];
      var div := parsed;
      ghost var drained: seq<NodeId> := [];
      while div != []
        invariant parsed == drained + div
        invariant fragment == nodes == Kept(document.nodes, drained)
      {
        var node := div[0];
        assert node in parsed;
        div := div[1..];
        var tagName := document.nodes[node].tagName;
        if tagName != "" && Lower(tagName) != "meta" {
          fragment := fragment + [node];
          nodes := nodes + [node];
        }
        KeptAppend(document.nodes, drained, [node]);
        drained := drained + [node];
      }
      assert drained == parsed;
    }

    /** The loop of `drop` that reads `dataset["element"]` of each kept node, in order. */
    method CollectIdentifiers(nodes: seq<NodeId>) returns (properties: seq<Option<string>>)
      requires forall k | k in nodes :: k in document.nodes
      ensures properties == Identifiers(document.nodes, nodes)
    {
      properties := [];
      for i := 0 to |nodes|
        invariant properties == Identifiers(document.nodes, nodes[..i])
      {
        assert nodes[..i + 1] == nodes[..i] + [nodes[i]];
        properties := properties + [DataElement(document.nodes[nodes[i]])];
      }
      assert nodes[..|nodes|] == nodes;
    }

    /**
     * `getEventHandler`: runs the handler the table holds for the event's
     * type and returns its result; any other type changes nothing and yields
     * undefined. `outerHTML`/`innerHTML` are the browser's serialisations of
     * the dragged element and `parsed` its parse of the transferred markup.
     */
    method GetEventHandler(event: DragEvent, outerHTML: string, innerHTML: string, parsed: seq<NodeId>)
      returns (r: JsValue)
      requires document.Valid()
      requires event.eventType == "dragstart" ==> IsElementIn(document.nodes, event.target)
      requires event.eventType in {"dragenter", "dragover", "dragleave", "drop"} ==>
        IsElementIn(document.nodes, event.currentTarget)
      requires event.eventType == "dragend" ==>
        && IsElementIn(document.nodes, event.target) && IsElementIn(document.nodes, event.currentTarget)
        && (event.dataTransfer.dropEffect != "none" ==> document.nodes[event.target].parent.Some?)
      requires event.eventType == "drop" ==> Adoptable(document.nodes, event.currentTarget, parsed)
      modifies document, event, event.dataTransfer, this
      ensures document.Valid()
      ensures r == if event.eventType == "dragover" then Boolean(false) else Undefined
      ensures event.eventType !in HandledEvents ==>
        unchanged(document, event, event.dataTransfer, this)
      ensures event.eventType == "dragstart" ==>
        && document.nodes == old(document.nodes)[event.target := ClassAdd(old(document.nodes)[event.target], Moving)]
        && event.dataTransfer.effectAllowed == "move"
        && event.dataTransfer.payload == GetOuterHTML(old(document.nodes)[event.target], outerHTML, innerHTML)
        && event.dataTransfer.dropEffect == old(event.dataTransfer.dropEffect)
        && unchanged(event)
      ensures event.eventType in {"dragenter", "dragover"} ==>
        document.nodes ==
          old(document.nodes)[event.currentTarget := ClassAdd(old(document.nodes)[event.currentTarget], Over)]
      ensures event.eventType == "dragover" ==>
        && event.defaultPrevented && event.propagationStopped == old(event.propagationStopped)
        && event.dataTransfer.dropEffect == "move"
        && event.dataTransfer.effectAllowed == old(event.dataTransfer.effectAllowed)
        && event.dataTransfer.payload == old(event.dataTransfer.payload)
      ensures event.eventType == "dragleave" ==>
        document.nodes ==
          old(document.nodes)[event.currentTarget := WithoutClass(old(document.nodes)[event.currentTarget], Over)]
      ensures event.eventType == "dragend" ==>
        document.nodes ==
          DragEndNodes(old(document.nodes), event.target, event.currentTarget, old(event.dataTransfer.dropEffect))
      ensures event.eventType in {"dragenter", "dragleave", "dragend"} ==> unchanged(event, event.dataTransfer)
      ensures event.eventType == "drop" ==>
        && event.propagationStopped && event.defaultPrevented == old(event.defaultPrevented)
        && unchanged(event.dataTransfer)
        && document.nodes == DropNodes(old(document.nodes), event.currentTarget, parsed)
        && sent == old(sent) + [Identifiers(old(document.nodes), Kept(old(document.nodes), parsed))]
      ensures event.eventType != "drop" ==> sent == old(sent)
    {
      r := Undefined;
      if event.eventType == "dragstart" {
        DragStart(event, outerHTML, innerHTML);
      } else if event.eventType == "dragover" {
        r := DragOver(event);
      } else if event.eventType == "dragenter" {
        DragEnter(event);
      } else if event.eventType == "dragleave" {
        DragLeave(event);
      } else if event.eventType == "dragend" {
        DragEnd(event);
      } else if event.eventType == "drop" {
        Drop(event, parsed);
      }
    }
  }
}
