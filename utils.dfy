/**
 * The `Utils` helpers of the drag-and-drop script: the element-node guard,
 * the outer-markup serialiser with its hand-built fallback, and class removal
 * that also drops an emptied `class` attribute.
 */
module Utils {
  import opened Dom

  /**
   * A JavaScript value as far as the guard can tell them apart: a DOM node
   * is a reference into the document's node map.
   */
  datatype JsValue =
    | Undefined
    | Null
    | Boolean(b: bool)
    | Number(x: int)
    | Str(s: string)
    | PlainObject
    | NodeRef(id: NodeId)

  /** JavaScript truthiness. */
  predicate Truthy(v: JsValue) {
    match v
    case Undefined => false
    case Null => false
    case Boolean(b) => b
    case Number(x) => x != 0
    case Str(s) => s != ""
    case PlainObject => true
    case NodeRef(_) => true
  }

  /** The value of `v.nodeType`. */
  function NodeTypeOf(v: JsValue, nodes: map<NodeId, Node>): JsValue {
    if v.NodeRef? && v.id in nodes then Number(nodes[v.id].nodeType) else Undefined
  }

  /** `Utils.isNode`: the value is truthy, has a truthy `nodeType`, and that `nodeType` is 1. */
  function IsNode(element: JsValue, nodes: map<NodeId, Node>): (r: bool)
    ensures r <==> element.NodeRef? && element.id in nodes && nodes[element.id].nodeType == ElementNode
  {
    if Truthy(element) && Truthy(NodeTypeOf(element, nodes)) then
      NodeTypeOf(element, nodes) == Number(ElementNode)
    else
      false
  }

  // ---------------------------------------------------------------------
  // Outer markup

  /** `name="value"`, as the fallback serialiser writes one attribute. */
  function AttributeString(a: Attr): string {
    a.name + "=\"" + a.value + "\""
  }

  function AttributeStrings(attrs: seq<Attr>): (r: seq<string>)
    ensures |r| == |attrs|
  {
    seq(|attrs|, i requires 0 <= i < |attrs| => AttributeString(attrs[i]))
  }

  /** Each attribute in order, each preceded by one space. */
  function AttributeText(attrs: seq<Attr>): string {
    if attrs == [] then "" else " " + AttributeString(attrs[0]) + AttributeText(attrs[1..])
  }

  /** Joining the tag and the attribute strings with spaces puts one space before each attribute. */
  lemma {:induction false} JoinedAttributes(head: string, attrs: seq<Attr>)
    ensures Join([head] + AttributeStrings(attrs), " ") == head + AttributeText(attrs)
    decreases attrs
  {
    if attrs != [] {
      var rest := AttributeStrings(attrs);
      assert rest == [AttributeString(attrs[0])] + AttributeStrings(attrs[1..]);
      assert ([head] + rest)[1..] == rest;
      JoinedAttributes(AttributeString(attrs[0]), attrs[1..]);
    }
  }

  /**
   * `Utils.getOuterHTML`. `outerHTML` is what the browser's own property
   * yields ("" where it has none) and `innerHTML` the browser's serialisation
   * of the children; both come from the host. Without the native property the
   * markup is rebuilt from the lower-cased tag and the attributes in order.
   * The caller must pass an element unless the native property is there: the
   * fallback reads the tag name.
   */
  function GetOuterHTML(element: Node, outerHTML: string, innerHTML: string): (r: string)
    requires outerHTML != "" || element.tagName != ""
    ensures outerHTML != "" ==> r == outerHTML
    ensures outerHTML == "" ==>
      r == "<" + Lower(element.tagName) + AttributeText(element.attributes) + ">"
           + innerHTML + "</" + Lower(element.tagName) + ">"
  {
    if outerHTML != "" then outerHTML
    else
      var tag := Lower(element.tagName);
      var html := [tag] + AttributeStrings(element.attributes);
      JoinedAttributes(tag, element.attributes);
      "<" + Join(html, " ") + ">" + innerHTML + "</" + html[0] + ">"
  }

  // ---------------------------------------------------------------------
  // Class removal

  /** What `Utils.removeClass` does to one element (an empty class name is falsy: no change). */
  function WithoutClass(element: Node, className: string): Node {
    if className == "" then element
    else
      var removed := ClassRemove(element, className);
      if |removed.classList| == 0 then AttributeRemoved(removed, "class") else removed
  }

  /**
   * Removing a class keeps every other class in order, leaves a `class`
   * attribute exactly when some class remains, and touches nothing else.
   */
  lemma WithoutClassMeaning(element: Node, className: string)
    requires WellFormed(element) && className != ""
    ensures var r := WithoutClass(element, className);
      && r.classList == Without(element.classList, className)
      && className !in r.classList
      && (GetAttr(r.attributes, "class").Some? <==> r.classList != [])
      && (r.classList != [] ==> GetAttr(r.attributes, "class") == Some(Join(r.classList, " ")))
      && (forall name | name != "class" :: GetAttr(r.attributes, name) == GetAttr(element.attributes, name))
      && r.(attributes := element.attributes, classList := element.classList) == element
      && WellFormed(r)
  {
    var removed := ClassRemove(element, className);
    ClassRemoveWellFormed(element, className);
    forall name ensures GetAttr(removed.attributes, name) ==
        if name == "class" && GetAttr(element.attributes, "class").Some? then Some(Join(removed.classList, " "))
        else GetAttr(element.attributes, name)
    {
      if GetAttr(element.attributes, "class").Some? {
        SetAttrGet(element.attributes, "class", Join(removed.classList, " "), name);
      }
    }
    if |removed.classList| == 0 {
      AttributeRemovedWellFormed(removed, "class");
      forall name ensures GetAttr(RemoveAttr(removed.attributes, "class"), name) ==
          if name == "class" then None else GetAttr(removed.attributes, name)
      {
        RemoveAttrGet(removed.attributes, "class", name);
      }
    }
  }

  /** `Utils.removeClass`: a missing element or an empty class name leaves the document alone. */
  method RemoveClass(document: Document, element: Option<NodeId>, className: string)
    requires document.Valid() && IsToken(className)
    requires element.Some? && className != "" ==>
      element.value in document.nodes && document.nodes[element.value].nodeType == ElementNode
    modifies document
    ensures document.Valid()
    ensures document.nodes ==
      if element.Some? && className != "" then
        old(document.nodes)[element.value := WithoutClass(old(document.nodes)[element.value], className)]
      else old(document.nodes)
  {
    if element.Some? && className != "" {
      var id := element.value;
      document.ClassListRemove(id, className);
      if |document.nodes[id].classList| == 0 {
        document.RemoveAttribute(id, "class");
      }
    }
  }
}
