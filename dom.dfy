/**
 * An in-memory stand-in for the browser DOM that the drag-and-drop manager
 * works on. Every node is a value (`Node`) stored under its identity in a map;
 * the `Document` object owns that map and offers the handful of DOM operations
 * the manager uses (setAttribute, removeAttribute, classList.add/remove,
 * addEventListener, removeChild, appendChild of a fragment), each stated as a
 * pure function of the old map.
 */
module Dom {

  datatype Option<T> = None | Some(value: T)

  /** Identity of a DOM node. */
  type NodeId = nat

  /** `Node.ELEMENT_NODE`. */
  const ElementNode := 1

  datatype Attr = Attr(name: string, value: string)

  /**
   * One DOM node. `tagName` is "" for nodes that have no tag name (text,
   * comment, ...). `attributes` is the ordered attribute list, which holds
   * the `class` attribute when there is one; `classList` is its token list.
   * `listeners` holds the event types a listener was registered for.
   */
  datatype Node = Node(
    nodeType: int,
    tagName: string,
    attributes: seq<Attr>,
    classList: seq<string>,
    parent: Option<NodeId>,
    children: seq<NodeId>,
    listeners: set<string>)

  // ---------------------------------------------------------------------
  // Sequences and strings

  ghost predicate NoDups<T>(s: seq<T>) {
    forall i, j :: 0 <= i < j < |s| ==> s[i] != s[j]
  }

  /** `s` with every occurrence of `x` taken out, the rest in order. */
  function Without<T(==,!new)>(s: seq<T>, x: T): (r: seq<T>)
    ensures forall y :: y in r <==> y in s && y != x
    ensures |r| <= |s|
  {
    if s == [] then []
    else if s[0] == x then Without(s[1..], x)
    else [s[0]] + Without(s[1..], x)
  }

  lemma {:induction false} WithoutNoDups<T(!new)>(s: seq<T>, x: T)
    requires NoDups(s)
    ensures NoDups(Without(s, x))
  {
    if s != [] {
      assert NoDups(s[1..]) by {
        forall i, j | 0 <= i < j < |s[1..]| ensures s[1..][i] != s[1..][j] {
          assert s[1..][i] == s[i + 1] && s[1..][j] == s[j + 1];
        }
      }
      WithoutNoDups(s[1..], x);
      if s[0] != x {
        var r := Without(s[1..], x);
        assert s[0] !in s[1..];
        assert s[0] !in r;
        forall i, j | 0 <= i < j < |[s[0]] + r| ensures ([s[0]] + r)[i] != ([s[0]] + r)[j] {
          if i == 0 {
            assert ([s[0]] + r)[j] == r[j - 1];
          } else {
            assert ([s[0]] + r)[i] == r[i - 1] && ([s[0]] + r)[j] == r[j - 1];
          }
        }
      }
    }
  }

  /** Removing a member of a duplicate-free sequence closes the gap it leaves, keeping the order. */
  lemma {:induction false} WithoutAt<T(!new)>(s: seq<T>, k: nat)
    requires NoDups(s) && k < |s|
    ensures Without(s, s[k]) == s[..k] + s[k + 1..]
  {
    if k == 0 {
      WithoutAbsent(s[1..], s[0]);
      assert s[1..] == s[..0] + s[1..];
    } else {
      assert s[0] != s[k];
      assert NoDups(s[1..]) by {
        forall i, j | 0 <= i < j < |s[1..]| ensures s[1..][i] != s[1..][j] {
          assert s[1..][i] == s[i + 1] && s[1..][j] == s[j + 1];
        }
      }
      WithoutAt(s[1..], k - 1);
      assert s[1..][k - 1] == s[k];
      assert s[1..][..k - 1] + s[1..][k..] == s[1..k] + s[k + 1..];
      assert [s[0]] + (s[1..k] + s[k + 1..]) == s[..k] + s[k + 1..];
    }
  }

  lemma {:induction false} WithoutAbsent<T(!new)>(s: seq<T>, x: T)
    requires x !in s
    ensures Without(s, x) == s
  {
    if s != [] {
      WithoutAbsent(s[1..], x);
      assert [s[0]] + s[1..] == s;
    }
  }

  /** `Array.prototype.join`. */
  function Join(parts: seq<string>, sep: string): string {
    if |parts| == 0 then ""
    else if |parts| == 1 then parts[0]
    else parts[0] + sep + Join(parts[1..], sep)
  }

  function LowerChar(c: char): char {
    if 'A' <= c <= 'Z' then (c as int + 32) as char else c
  }

  /** `String.prototype.toLowerCase`, on ASCII letters. */
  function Lower(s: string): string {
    seq(|s|, i requires 0 <= i < |s| => LowerChar(s[i]))
  }

  // ---------------------------------------------------------------------
  // Class tokens

  /** ASCII whitespace, which separates the tokens of a `class` attribute. */
  predicate IsSpace(c: char) {
    c == ' ' || c == '\t' || c == '\n' || c == '\r' || c == '\U{000C}'
  }

  /** A string without ASCII whitespace (the empty string is one). */
  predicate IsToken(s: string) {
    forall i | 0 <= i < |s| :: !IsSpace(s[i])
  }

  /** A name `classList` can hold: a non-empty token. */
  predicate IsClassName(s: string) {
    s != "" && IsToken(s)
  }

  /** The length of the leading run of non-whitespace characters. */
  function WordEnd(s: string): (k: nat)
    ensures k <= |s|
    ensures forall i | 0 <= i < k :: !IsSpace(s[i])
    ensures k < |s| ==> IsSpace(s[k])
    ensures s != [] && !IsSpace(s[0]) ==> k > 0
  {
    if s == [] || IsSpace(s[0]) then 0 else 1 + WordEnd(s[1..])
  }

  /** The whitespace-separated words of `s`, in order. */
  function Words(s: string): seq<string>
    decreases |s|
  {
    if s == [] then []
    else if IsSpace(s[0]) then Words(s[1..])
    else [s[..WordEnd(s)]] + Words(s[WordEnd(s)..])
  }

  /** The ordered set of `s`: each element kept at its first occurrence. */
  function Dedupe(s: seq<string>): (r: seq<string>)
    ensures forall x :: x in r <==> x in s
  {
    if s == [] then [] else [s[0]] + Without(Dedupe(s[1..]), s[0])
  }

  /** The DOM's ordered-set parser, as applied to the value of a `class` attribute. */
  function Tokens(v: string): seq<string> {
    Dedupe(Words(v))
  }

  /** The token list a `class` attribute stands for: none when the attribute is absent. */
  function ClassListOf(attrs: seq<Attr>): seq<string> {
    match GetAttr(attrs, "class")
    case None => []
    case Some(v) => Tokens(v)
  }

  lemma {:induction false} DedupeDistinct(s: seq<string>)
    requires NoDups(s)
    ensures Dedupe(s) == s
  {
    if s != [] {
      forall i, j | 0 <= i < j < |s[1..]| ensures s[1..][i] != s[1..][j] {
        assert s[1..][i] == s[i + 1] && s[1..][j] == s[j + 1];
      }
      DedupeDistinct(s[1..]);
      forall k | 0 <= k < |s[1..]| ensures s[1..][k] != s[0] {
        assert s[1..][k] == s[k + 1];
      }
      WithoutAbsent(s[1..], s[0]);
      assert [s[0]] + s[1..] == s;
    }
  }

  lemma {:induction false} WordEndOf(a: string, rest: string)
    requires IsToken(a) && (rest == [] || IsSpace(rest[0]))
    ensures WordEnd(a + rest) == |a|
    decreases |a|
  {
    if a == [] {
      assert a + rest == rest;
    } else {
      assert (a + rest)[0] == a[0];
      assert (a + rest)[1..] == a[1..] + rest;
      WordEndOf(a[1..], rest);
    }
  }

  /** Splitting space-joined class names gives the names back. */
  lemma {:induction false} WordsOfJoin(ts: seq<string>)
    requires forall t | t in ts :: IsClassName(t)
    ensures Words(Join(ts, " ")) == ts
  {
    if |ts| == 1 {
      var a := ts[0];
      assert a in ts;
      WordEndOf(a, "");
      assert a + "" == a;
      assert a[..|a|] == a && a[|a|..] == [];
      assert ts == [a];
    } else if |ts| > 1 {
      var a := ts[0];
      assert a in ts;
      var rest := " " + Join(ts[1..], " ");
      assert Join(ts, " ") == a + rest;
      assert (a + rest)[0] == a[0];
      WordEndOf(a, rest);
      assert (a + rest)[..|a|] == a;
      assert (a + rest)[|a|..] == rest;
      assert rest[1..] == Join(ts[1..], " ");
      WordsOfJoin(ts[1..]);
      assert ts == [a] + ts[1..];
    }
  }

  /**
   * Parsing the serialisation of a duplicate-free list of class names gives
   * the list back: what `classList` writes to the attribute reads back as
   * the same tokens.
   */
  lemma TokensOfJoin(ts: seq<string>)
    requires NoDups(ts) && forall t | t in ts :: IsClassName(t)
    ensures Tokens(Join(ts, " ")) == ts
  {
    WordsOfJoin(ts);
    DedupeDistinct(ts);
  }

  // ---------------------------------------------------------------------
  // Attributes

  /** `getAttribute`: the value of the first attribute called `name`. */
  function GetAttr(attrs: seq<Attr>, name: string): Option<string> {
    if attrs == [] then None
    else if attrs[0].name == name then Some(attrs[0].value)
    else GetAttr(attrs[1..], name)
  }

  /** `setAttribute`: overwrite the value in place, or append a new attribute. */
  function SetAttr(attrs: seq<Attr>, name: string, value: string): seq<Attr> {
    if attrs == [] then [Attr(name, value)]
    else if attrs[0].name == name then [Attr(name, value)] + attrs[1..]
    else [attrs[0]] + SetAttr(attrs[1..], name, value)
  }

  /** `removeAttribute`. */
  function RemoveAttr(attrs: seq<Attr>, name: string): seq<Attr> {
    if attrs == [] then []
    else if attrs[0].name == name then RemoveAttr(attrs[1..], name)
    else [attrs[0]] + RemoveAttr(attrs[1..], name)
  }

  lemma {:induction false} SetAttrGet(attrs: seq<Attr>, name: string, value: string, other: string)
    ensures GetAttr(SetAttr(attrs, name, value), other) ==
            if other == name then Some(value) else GetAttr(attrs, other)
  {
    if attrs != [] && attrs[0].name != name {
      SetAttrGet(attrs[1..], name, value, other);
    }
  }

  lemma {:induction false} RemoveAttrGet(attrs: seq<Attr>, name: string, other: string)
    ensures GetAttr(RemoveAttr(attrs, name), other) ==
            if other == name then None else GetAttr(attrs, other)
  {
    if attrs != [] {
      RemoveAttrGet(attrs[1..], name, other);
    }
  }

  /** Setting the same value twice is setting it once. */
  lemma {:induction false} SetAttrTwice(attrs: seq<Attr>, name: string, value: string)
    ensures SetAttr(SetAttr(attrs, name, value), name, value) == SetAttr(attrs, name, value)
  {
    if attrs != [] && attrs[0].name != name {
      var once := SetAttr(attrs, name, value);
      assert once[0] == attrs[0] && once[1..] == SetAttr(attrs[1..], name, value);
      SetAttrTwice(attrs[1..], name, value);
    }
  }

  // ---------------------------------------------------------------------
  // Single-node operations

  /** `element.setAttribute(name, value)` for a name other than `class`. */
  function AttributeSet(n: Node, name: string, value: string): Node {
    n.(attributes := SetAttr(n.attributes, name, value))
  }

  /** `element.removeAttribute(name)`; dropping `class` empties the class list it backs. */
  function AttributeRemoved(n: Node, name: string): Node {
    n.(attributes := RemoveAttr(n.attributes, name),
       classList := if name == "class" then [] else n.classList)
  }

  /** `element.classList.add(token)`: append if absent, then rewrite the `class` attribute. */
  function ClassAdd(n: Node, token: string): Node {
    var tokens := if token in n.classList then n.classList else n.classList + [token];
    n.(classList := tokens, attributes := SetAttr(n.attributes, "class", Join(tokens, " ")))
  }

  /**
   * `element.classList.remove(token)`: drop the token, then rewrite the
   * `class` attribute if there is one (an element without one has no tokens).
   */
  function ClassRemove(n: Node, token: string): Node {
    var tokens := Without(n.classList, token);
    if GetAttr(n.attributes, "class").Some? then
      n.(classList := tokens, attributes := SetAttr(n.attributes, "class", Join(tokens, " ")))
    else
      n.(classList := tokens)
  }

  /** `element.addEventListener(type, ...)` for each of `types`. */
  function Listening(n: Node, types: set<string>): Node {
    n.(listeners := n.listeners + types)
  }

  /** Registering two types in turn is registering both. */
  lemma ListeningTwice(n: Node, a: string, b: string)
    ensures Listening(Listening(n, {a}), {b}) == Listening(n, {a, b})
  {
    assert n.listeners + {a} + {b} == n.listeners + {a, b};
  }

  /** Registering four types in turn is registering all four. */
  lemma ListeningFour(n: Node, a: string, b: string, c: string, d: string)
    ensures Listening(Listening(Listening(Listening(n, {a}), {b}), {c}), {d}) == Listening(n, {a, b, c, d})
  {
    assert n.listeners + {a} + {b} + {c} + {d} == n.listeners + {a, b, c, d};
  }

  /**
   * What the DOM guarantees of a single node: the class list is the token
   * parse of the `class` attribute (empty without one), so it holds distinct
   * class names, stated here too so that proofs need not re-derive them from
   * the parser; and exactly the element nodes have a tag name.
   */
  ghost predicate WellFormed(n: Node) {
    && n.classList == ClassListOf(n.attributes)
    && NoDups(n.classList)
    && (forall t | t in n.classList :: IsClassName(t))
    && (n.nodeType == ElementNode <==> n.tagName != "")
  }

  lemma ClassAddWellFormed(n: Node, token: string)
    requires WellFormed(n) && IsClassName(token)
    ensures WellFormed(ClassAdd(n, token))
  {
    var tokens := ClassAdd(n, token).classList;
    if token !in n.classList {
      forall i, j | 0 <= i < j < |tokens| ensures tokens[i] != tokens[j] {
        if j == |n.classList| {
          assert tokens[i] in n.classList;
        }
      }
    }
    TokensOfJoin(tokens);
    SetAttrGet(n.attributes, "class", Join(tokens, " "), "class");
  }

  /**
   * `classList.add` puts the token last unless it is there already, keeps the
   * other tokens in order, writes all of them to the `class` attribute, leaves
   * every other attribute and field alone, and a second add changes nothing.
   */
  lemma ClassAddMeaning(n: Node, token: string)
    ensures var r := ClassAdd(n, token);
      && (forall t :: t in r.classList <==> t in n.classList || t == token)
      && |n.classList| <= |r.classList| <= |n.classList| + 1
      && r.classList[..|n.classList|] == n.classList
      && GetAttr(r.attributes, "class") == Some(Join(r.classList, " "))
      && (forall name | name != "class" :: GetAttr(r.attributes, name) == GetAttr(n.attributes, name))
      && r.(attributes := n.attributes, classList := n.classList) == n
      && ClassAdd(r, token) == r
  {
    var r := ClassAdd(n, token);
    forall name ensures GetAttr(r.attributes, name) ==
        if name == "class" then Some(Join(r.classList, " ")) else GetAttr(n.attributes, name)
    {
      SetAttrGet(n.attributes, "class", Join(r.classList, " "), name);
    }
    SetAttrTwice(n.attributes, "class", Join(r.classList, " "));
  }

  lemma ClassRemoveWellFormed(n: Node, token: string)
    requires WellFormed(n)
    ensures WellFormed(ClassRemove(n, token))
  {
    var tokens := Without(n.classList, token);
    WithoutNoDups(n.classList, token);
    if GetAttr(n.attributes, "class").Some? {
      TokensOfJoin(tokens);
      SetAttrGet(n.attributes, "class", Join(tokens, " "), "class");
    }
  }

  lemma AttributeSetWellFormed(n: Node, name: string, value: string)
    requires WellFormed(n) && name != "class"
    ensures WellFormed(AttributeSet(n, name, value))
  {
    SetAttrGet(n.attributes, name, value, "class");
  }

  lemma AttributeRemovedWellFormed(n: Node, name: string)
    requires WellFormed(n)
    ensures WellFormed(AttributeRemoved(n, name))
  {
    RemoveAttrGet(n.attributes, name, "class");
  }

  // ---------------------------------------------------------------------
  // The node map and its parent/child links

  /** No node lists the same child twice. */
  ghost predicate ChildrenDistinct(m: map<NodeId, Node>) {
    forall p {:trigger NoDups(m[p].children)} | p in m :: NoDups(m[p].children)
  }

  /** Every listed child is in the map and names the lister as its parent. */
  ghost predicate ChildrenPointBack(m: map<NodeId, Node>) {
    forall p, c | p in m && c in m[p].children :: c in m && m[c].parent == Some(p)
  }

  /** Every node with a parent is among that parent's children, and is not its own parent. */
  ghost predicate ParentsListChild(m: map<NodeId, Node>) {
    forall c {:trigger m[c].parent} | c in m && m[c].parent.Some? ::
      m[c].parent.value != c && m[c].parent.value in m && c in m[m[c].parent.value].children
  }

  /** Parent and child links agree. */
  ghost predicate Linked(m: map<NodeId, Node>) {
    ChildrenDistinct(m) && ChildrenPointBack(m) && ParentsListChild(m)
  }

  ghost predicate Coherent(m: map<NodeId, Node>) {
    (forall id {:trigger WellFormed(m[id])} {:trigger m[id].nodeType} | id in m :: WellFormed(m[id])) && Linked(m)
  }

  /** A change of one node that leaves its links alone keeps the map coherent. */
  lemma {:induction false} UpdateCoherent(m: map<NodeId, Node>, id: NodeId, n: Node)
    requires Coherent(m) && id in m && WellFormed(n)
    requires n.parent == m[id].parent && n.children == m[id].children
    ensures Coherent(m[id := n])
  {
    var m' := m[id := n];
    SameLinks(m, m');
    forall q | q in m' ensures WellFormed(m'[q]) {
      if q != id {
        assert WellFormed(m[q]);
      }
    }
  }

  /** Links are all `Linked` looks at: a map with the same keys and the same links is linked alike. */
  lemma {:induction false} SameLinks(m: map<NodeId, Node>, r: map<NodeId, Node>)
    requires Linked(m) && r.Keys == m.Keys
    requires forall id | id in m :: r[id].parent == m[id].parent && r[id].children == m[id].children
    ensures Linked(r)
  {
    SameDistinct(m, r);
    SamePointBack(m, r);
    SameParents(m, r);
  }

  lemma {:induction false} SameDistinct(m: map<NodeId, Node>, r: map<NodeId, Node>)
    requires ChildrenDistinct(m) && r.Keys == m.Keys
    requires forall id | id in m :: r[id].children == m[id].children
    ensures ChildrenDistinct(r)
  {
    forall q | q in r ensures NoDups(r[q].children) {
      assert NoDups(m[q].children);
    }
  }

  lemma {:induction false} SamePointBack(m: map<NodeId, Node>, r: map<NodeId, Node>)
    requires ChildrenPointBack(m) && r.Keys == m.Keys
    requires forall id | id in m :: r[id].parent == m[id].parent && r[id].children == m[id].children
    ensures ChildrenPointBack(r)
  {
    forall q, d | q in r && d in r[q].children ensures d in r && r[d].parent == Some(q) {
      assert d in m[q].children;
    }
  }

  lemma {:induction false} SameParents(m: map<NodeId, Node>, r: map<NodeId, Node>)
    requires ParentsListChild(m) && r.Keys == m.Keys
    requires forall id | id in m :: r[id].parent == m[id].parent && r[id].children == m[id].children
    ensures ParentsListChild(r)
  {
    forall d {:trigger r[d].parent} | d in r && r[d].parent.Some?
      ensures r[d].parent.value != d && r[d].parent.value in r && d in r[r[d].parent.value].children
    {
      assert m[d].parent == r[d].parent;
    }
  }

  /** `parent.removeChild(c)` where `parent` is `c`'s parent. */
  function Detach(m: map<NodeId, Node>, c: NodeId): (r: map<NodeId, Node>)
    requires c in m && m[c].parent.Some? && m[c].parent.value in m
    ensures r.Keys == m.Keys
  {
    var p := m[c].parent.value;
    m[p := m[p].(children := Without(m[p].children, c))][c := m[c].(parent := None)]
  }

  lemma {:induction false} DetachCoherent(m: map<NodeId, Node>, c: NodeId)
    requires Coherent(m) && c in m && m[c].parent.Some?
    ensures Coherent(Detach(m, c))
  {
    var m' := Detach(m, c);
    DetachDistinct(m, c);
    DetachPointBack(m, c);
    DetachParents(m, c);
    forall id | id in m' ensures WellFormed(m'[id]) {
      assert m'[id] == m[id] || m'[id] == m[id].(children := m'[id].children) || m'[id] == m[id].(parent := None);
    }
  }

  lemma {:induction false} DetachDistinct(m: map<NodeId, Node>, c: NodeId)
    requires ChildrenDistinct(m) && c in m && m[c].parent.Some? && m[c].parent.value in m
    ensures ChildrenDistinct(Detach(m, c))
  {
    var p := m[c].parent.value;
    var m' := Detach(m, c);
    forall q | q in m' ensures NoDups(m'[q].children) {
      if q == p && q != c {
        WithoutNoDups(m[p].children, c);
      }
    }
  }

  lemma {:induction false} DetachPointBack(m: map<NodeId, Node>, c: NodeId)
    requires ChildrenPointBack(m) && ParentsListChild(m) && ChildrenDistinct(m)
    requires c in m && m[c].parent.Some?
    ensures ChildrenPointBack(Detach(m, c))
  {
    var p := m[c].parent.value;
    var m' := Detach(m, c);
    forall q, d | q in m' && d in m'[q].children ensures d in m' && m'[d].parent == Some(q) {
      if q == p {
        assert d in m[q].children && d != c;
      } else if q == c {
        assert d in m[q].children;
        assert d != c;
      } else {
        assert d in m[q].children;
      }
    }
  }

  lemma {:induction false} DetachParents(m: map<NodeId, Node>, c: NodeId)
    requires ParentsListChild(m) && c in m && m[c].parent.Some?
    ensures ParentsListChild(Detach(m, c))
  {
    var p := m[c].parent.value;
    var m' := Detach(m, c);
    forall d {:trigger m'[d].parent} | d in m' && m'[d].parent.Some?
      ensures m'[d].parent.value != d && m'[d].parent.value in m' && d in m'[m'[d].parent.value].children
    {
      assert d != c;
      assert m'[d].parent == m[d].parent;
      var q := m[d].parent.value;
      if q == p {
        assert d in m[p].children;
      }
    }
  }

  /**
   * `parent.appendChild(fragment)` where the fragment holds the detached
   * nodes `kids`: they move, in order, to the end of `p`'s children.
   */
  function Adopt(m: map<NodeId, Node>, p: NodeId, kids: seq<NodeId>): map<NodeId, Node>
    requires p in m && forall k | k in kids :: k in m
  {
    map id | id in m ::
      if id == p then m[p].(children := m[p].children + kids)
      else if id in kids then m[id].(parent := Some(p))
      else m[id]
  }

  /** The nodes of `kids` are distinct, in the map, detached, and not `p`. */
  ghost predicate Adoptable(m: map<NodeId, Node>, p: NodeId, kids: seq<NodeId>) {
    && p in m
    && NoDups(kids)
    && (forall k | k in kids :: k in m && k != p && m[k].parent == None)
  }

  lemma {:induction false} AdoptCoherent(m: map<NodeId, Node>, p: NodeId, kids: seq<NodeId>)
    requires Coherent(m) && Adoptable(m, p, kids)
    ensures Coherent(Adopt(m, p, kids))
  {
    var m' := Adopt(m, p, kids);
    AdoptDistinct(m, p, kids);
    AdoptPointBack(m, p, kids);
    AdoptParents(m, p, kids);
    forall id | id in m' ensures WellFormed(m'[id]) {
      assert WellFormed(m[id]);
    }
  }

  lemma {:induction false} AdoptDistinct(m: map<NodeId, Node>, p: NodeId, kids: seq<NodeId>)
    requires ChildrenDistinct(m) && ChildrenPointBack(m) && Adoptable(m, p, kids)
    ensures ChildrenDistinct(Adopt(m, p, kids))
  {
    var m' := Adopt(m, p, kids);
    var all := m[p].children + kids;
    assert NoDups(m[p].children);
    forall i, j | 0 <= i < j < |all| ensures all[i] != all[j] {
      if j < |m[p].children| {
      } else if i >= |m[p].children| {
        assert all[i] == kids[i - |m[p].children|] && all[j] == kids[j - |m[p].children|];
      } else {
        assert m[all[i]].parent == Some(p);
        assert all[j] in kids;
      }
    }
    forall q | q in m' ensures NoDups(m'[q].children) {
      if q != p {
        assert NoDups(m[q].children);
      }
    }
  }

  lemma {:induction false} AdoptPointBack(m: map<NodeId, Node>, p: NodeId, kids: seq<NodeId>)
    requires ChildrenPointBack(m) && Adoptable(m, p, kids)
    ensures ChildrenPointBack(Adopt(m, p, kids))
  {
    var m' := Adopt(m, p, kids);
    forall q, d | q in m' && d in m'[q].children ensures d in m' && m'[d].parent == Some(q) {
      if q == p {
        if d !in kids {
          assert d in m[p].children;
        }
      } else {
        assert d in m[q].children;
        assert m[d].parent == Some(q);
        assert d !in kids;
      }
    }
  }

  lemma {:induction false} AdoptParents(m: map<NodeId, Node>, p: NodeId, kids: seq<NodeId>)
    requires ParentsListChild(m) && Adoptable(m, p, kids)
    ensures ParentsListChild(Adopt(m, p, kids))
  {
    var m' := Adopt(m, p, kids);
    forall d {:trigger m'[d].parent} | d in m' && m'[d].parent.Some?
      ensures m'[d].parent.value != d && m'[d].parent.value in m' && d in m'[m'[d].parent.value].children
    {
      if d !in kids {
        assert m'[d].parent == m[d].parent;
      }
    }
  }

  // ---------------------------------------------------------------------
  // The host objects

  /** The page's document: all nodes the manager can reach. */
  class Document {
    var nodes: map<NodeId, Node>

    ghost predicate Valid()
      reads this
    {
      Coherent(nodes)
    }

    constructor (nodes: map<NodeId, Node>)
      requires Coherent(nodes)
      ensures Valid() && this.nodes == nodes
    {
      this.nodes := nodes;
    }

    method SetAttribute(id: NodeId, name: string, value: string)
      requires Valid() && id in nodes && name != "class"
      modifies this
      ensures Valid()
      ensures nodes == old(nodes)[id := AttributeSet(old(nodes)[id], name, value)]
    {
      AttributeSetWellFormed(nodes[id], name, value);
      UpdateCoherent(nodes, id, AttributeSet(nodes[id], name, value));
      nodes := nodes[id := AttributeSet(nodes[id], name, value)];
    }

    method RemoveAttribute(id: NodeId, name: string)
      requires Valid() && id in nodes
      modifies this
      ensures Valid()
      ensures nodes == old(nodes)[id := AttributeRemoved(old(nodes)[id], name)]
    {
      AttributeRemovedWellFormed(nodes[id], name);
      UpdateCoherent(nodes, id, AttributeRemoved(nodes[id], name));
      nodes := nodes[id := AttributeRemoved(nodes[id], name)];
    }

    method ClassListAdd(id: NodeId, token: string)
      requires Valid() && id in nodes && IsClassName(token)
      modifies this
      ensures Valid()
      ensures nodes == old(nodes)[id := ClassAdd(old(nodes)[id], token)]
    {
      ClassAddWellFormed(nodes[id], token);
      UpdateCoherent(nodes, id, ClassAdd(nodes[id], token));
      nodes := nodes[id := ClassAdd(nodes[id], token)];
    }

    method ClassListRemove(id: NodeId, token: string)
      requires Valid() && id in nodes && IsClassName(token)
      modifies this
      ensures Valid()
      ensures nodes == old(nodes)[id := ClassRemove(old(nodes)[id], token)]
    {
      ClassRemoveWellFormed(nodes[id], token);
      UpdateCoherent(nodes, id, ClassRemove(nodes[id], token));
      nodes := nodes[id := ClassRemove(nodes[id], token)];
    }

    method AddEventListener(id: NodeId, eventType: string)
      requires Valid() && id in nodes
      modifies this
      ensures Valid()
      ensures nodes == old(nodes)[id := Listening(old(nodes)[id], {eventType})]
    {
      UpdateCoherent(nodes, id, Listening(nodes[id], {eventType}));
      nodes := nodes[id := Listening(nodes[id], {eventType})];
    }

    method RemoveChild(parent: NodeId, child: NodeId)
      requires Valid() && parent in nodes && child in nodes[parent].children
      modifies this
      ensures Valid()
      ensures nodes == Detach(old(nodes), child)
    {
      assert nodes[child].parent == Some(parent);
      DetachCoherent(nodes, child);
      nodes := Detach(nodes, child);
    }

    method AppendFragment(parent: NodeId, fragment: seq<NodeId>)
      requires Valid() && Adoptable(nodes, parent, fragment)
      modifies this
      ensures Valid()
      ensures nodes == Adopt(old(nodes), parent, fragment)
    {
      AdoptCoherent(nodes, parent, fragment);
      nodes := Adopt(nodes, parent, fragment);
    }
  }

  /** `event.dataTransfer`; `payload` is the data stored under "text/html". */
  class DataTransfer {
    var effectAllowed: string
    var dropEffect: string
    var payload: string

    constructor (effectAllowed: string, dropEffect: string, payload: string)
      ensures this.effectAllowed == effectAllowed && this.dropEffect == dropEffect
      ensures this.payload == payload
    {
      this.effectAllowed := effectAllowed;
      this.dropEffect := dropEffect;
      this.payload := payload;
    }
  }

  /** A native drag event, with `preventDefault`/`stopPropagation` recorded as flags. */
  class DragEvent {
    const eventType: string
    const target: NodeId
    const currentTarget: NodeId
    const dataTransfer: DataTransfer
    var defaultPrevented: bool
    var propagationStopped: bool

    constructor (eventType: string, target: NodeId, currentTarget: NodeId, dataTransfer: DataTransfer)
      ensures this.eventType == eventType && this.target == target
      ensures this.currentTarget == currentTarget && this.dataTransfer == dataTransfer
      ensures !defaultPrevented && !propagationStopped
    {
      this.eventType := eventType;
      this.target := target;
      this.currentTarget := currentTarget;
      this.dataTransfer := dataTransfer;
      defaultPrevented := false;
      propagationStopped := false;
    }
  }
}
