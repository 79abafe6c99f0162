# Drag-and-drop manager, modelled in Dafny

The script `js/dragndrop.js` turns elements of a page into drag sources and
drop zones with the HTML5 drag-and-drop API. `DragAndDropManager` registers
elements (`addDroppable`, `makeDraggable`, `addDraggable`, `addDraggables`).
Each registration first checks the argument with `Utils.isNode` and throws
`NotANodeException` when it is not an element node. The manager keeps a table
of six handlers (`dragstart`, `dragover`, `dragenter`, `dragleave`, `dragend`,
`drop`) behind `getEventHandler`. Together they move the CSS classes "moving"
(on the dragged element) and "over" (on the zone under the pointer). They also
detach the dragged element at the end of a move. On a drop they append the
transferred markup to the zone and report the `data-element` identifiers of
the appended nodes to a server.

The project has three modules:

- `Dom` (`dom.dfy`): an in-memory stand-in for the browser DOM.
  - A `Node` value holds the node type, tag name, ordered attributes, class
    list, parent, ordered children and the event types listened for.
  - A `Document` object owns the map from node identity to node. Its methods
    are the DOM calls the script makes: `setAttribute`, `removeAttribute`,
    `classList.add`/`remove`, `addEventListener`, `removeChild`, and
    `appendChild` of a fragment. Each method states the new map as a pure
    function of the old one.
  - Every method keeps `Coherent`. Each class list is the token list the
    `class` attribute parses to, split at ASCII whitespace with repeats
    dropped, and empty when the attribute is absent. Exactly the element
    nodes have a tag name. Parent and child links agree.
  - `DataTransfer` and `DragEvent` are the native event objects.
- `Utils` (`utils.dfy`): `isNode`, `getOuterHTML` and `removeClass`.
- `DragAndDrop` (`dragndrop.dfy`): the manager class, its registration
  methods, the handler table and the dispatcher.
  - Each handler is a method whose `ensures` ties the new document to a pure
    function (`DragEndNodes`, `DropNodes`, `DraggablesMarked`, ...).
  - Lemmas next to those functions state what the script promises about them.
  - The two loops of `drop` and the loop of `addDraggables` are methods with
    loop invariants, proved against `Kept`, `Identifiers` and `MarkedAmong`.

## Model

| member | source | states |
|---|---|---|
| Utils.IsNode | js/dragndrop.js:210-220 | The guard holds exactly for a reference to a node whose `nodeType` is 1. Every other value is rejected: undefined, null, booleans, numbers, strings, plain objects, and non-element nodes. |
| Utils.JoinedAttributes | js/dragndrop.js:237-243 | Joining the tag and the `name="value"` strings with single spaces gives the tag followed by each attribute, in order, each preceded by one space. |
| Utils.GetOuterHTML | js/dragndrop.js:227-245 | A non-empty native `outerHTML` is returned unchanged. Otherwise the result is `<tag attrs>` + innerHTML + `</tag>`, with the tag lower-cased at both ends and the attributes in document order. |
| Utils.WithoutClassMeaning | js/dragndrop.js:252-262 | Removing a class drops every occurrence of it and keeps the other classes in order. The `class` attribute stays exactly when some class remains, and then it holds the remaining classes joined by spaces. No other attribute, link or listener changes. |
| Utils.RemoveClass | js/dragndrop.js:252-262 | With no element or an empty class name the document is unchanged. Otherwise the element becomes `WithoutClass` of itself, and the document stays coherent. |
| DragAndDrop.HoverKeepsMarkupClasses | js/dragndrop.js:38-41 | A zone written as `class="x"` holds the token "x" and cannot have an empty class list. Adding "over" to it gives the list ["x", "over"] and the attribute `class="x over"`. |
| Dom.ClassAddMeaning | js/dragndrop.js:38-41 | `classList.add` leaves exactly the old classes plus the token, keeps the old ones as a prefix in order, adds at most one entry, and writes the list to the `class` attribute without touching other attributes. A second add of the same token changes nothing. |
| Dom.DetachCoherent | js/dragndrop.js:52 | `parentNode.removeChild(target)` keeps the document coherent. |
| Dom.AdoptCoherent | js/dragndrop.js:78 | Appending a fragment of distinct, detached nodes other than the zone itself keeps the document coherent. |
| Dom.Document.SetAttribute | js/dragndrop.js:143 | `setAttribute` changes the one node's attribute list and nothing else, and keeps the document coherent. |
| Dom.Document.RemoveAttribute | js/dragndrop.js:259 | `removeAttribute` changes the one node and nothing else; removing `class` empties its class list. |
| Dom.TokensOfJoin | js/dragndrop.js:25 | What `classList` writes to the `class` attribute, its names joined by single spaces, parses back to the same list, provided the names are distinct, non-empty and free of whitespace. |
| Dom.Document.ClassListAdd | js/dragndrop.js:25 | `classList.add` of a class name changes the one node and nothing else, and keeps the document coherent. |
| Dom.Document.ClassListRemove | js/dragndrop.js:256 | `classList.remove` changes the one node and nothing else, and keeps the document coherent. |
| Dom.Document.AddEventListener | js/dragndrop.js:120-123 | Registering a listener adds the event type to the one node's listener set and changes nothing else. |
| Dom.Document.RemoveChild | js/dragndrop.js:52 | The new document is `Detach` of the old one, and it stays coherent. |
| Dom.Document.AppendFragment | js/dragndrop.js:78 | The new document is `Adopt` of the old one, and it stays coherent. |
| DragAndDrop.DraggablePolicy | js/dragndrop.js:136-150 | An `img` or `a` element, in any letter case, is left exactly as it was. Any other element gets `draggable="true"`, and no other attribute or field changes. Well-formedness is kept. |
| DragAndDrop.DragAndDropManager.MakeDraggable | js/dragndrop.js:136-150 | Throws `NotANodeException` with the source's message exactly when `isNode` fails, and then the document is unchanged. Otherwise only the element changes, by the draggable policy. |
| DragAndDrop.DragAndDropManager.AddDraggable | js/dragndrop.js:157-169 | Throws exactly when `isNode` fails, and then changes nothing. Otherwise the element is marked by the policy and listens for `dragstart` and `dragend`. No other node changes. |
| DragAndDrop.DragAndDropManager.AddDroppable | js/dragndrop.js:116-129 | Throws exactly when `isNode` fails, and then changes nothing. Otherwise the element listens for `dragenter`, `dragleave`, `dragover` and `drop`. No other node changes. |
| DragAndDrop.MarkedAmongStep | js/dragndrop.js:181-187 | One more turn of the children loop marks the next child if it is an element and leaves the map alone otherwise. |
| DragAndDrop.DragAndDropManager.MarkChildren | js/dragndrop.js:180-187 | After the loop, exactly the element nodes among the children have been through `makeDraggable`, and the document is coherent. |
| DragAndDrop.DragAndDropManager.AddDraggables | js/dragndrop.js:176-195 | Throws exactly when `isNode` fails, and then changes nothing. Otherwise the document becomes `DraggablesMarked` of the old one. |
| DragAndDrop.DraggablesMarkedSpec | js/dragndrop.js:176-195 | `addDraggables(p)` marks every element child by the draggable policy and leaves non-element children unchanged. It gives `p` the `dragstart`/`dragend` listeners but keeps `p`'s attributes, so `p` is not marked. Every other node is untouched and the document stays coherent. |
| DragAndDrop.DragAndDropManager.DragStart | js/dragndrop.js:21-26 | Sets `effectAllowed` to "move" and the "text/html" payload to the target's outer markup. Adds "moving" to the target and changes nothing else. |
| DragAndDrop.DragAndDropManager.DragOver | js/dragndrop.js:27-37 | Prevents the default action, sets `dropEffect` to "move", adds "over" to the current target and returns false. Propagation, `effectAllowed` and the payload are unchanged. |
| DragAndDrop.DragAndDropManager.DragEnter | js/dragndrop.js:38-41 | Adds "over" to the current target and changes nothing else. |
| DragAndDrop.DragAndDropManager.DragLeave | js/dragndrop.js:42-45 | Removes "over" from the current target through `removeClass` and changes nothing else. |
| DragAndDrop.ClassCleared | js/dragndrop.js:48-49 | Removing a class from an element leaves it without that class, keeps its links and node type, and keeps the document coherent. |
| DragAndDrop.DragEndRule | js/dragndrop.js:46-54 | After `dragend`, the target has no "moving" and the current target has no "over". An attached target ends detached exactly when the drop effect is not "none". With effect "none", no link in the document changes. The document stays coherent. |
| DragAndDrop.DragEndSiblings | js/dragndrop.js:50-53 | When the target is detached, its former parent's children are the old list with that one entry taken out, the others in their original order. |
| DragAndDrop.DragAndDropManager.DragEnd | js/dragndrop.js:46-54 | The document becomes `DragEndNodes` of the old one and stays coherent. |
| DragAndDrop.Kept | js/dragndrop.js:72 | A parsed node is kept exactly when it has a tag name whose lower case is not `meta`. There are never more kept nodes than parsed ones. |
| DragAndDrop.KeptAppend | js/dragndrop.js:69-77 | Filtering a concatenation filters each part, in order. The drain loop's invariant rests on this. |
| DragAndDrop.KeptNoDups | js/dragndrop.js:69-77 | The kept nodes of a duplicate-free payload are duplicate-free. |
| DragAndDrop.PayloadPartition | js/dragndrop.js:69-77 | N kept and M discarded nodes add up to the payload. Each discarded node is tagless or a `meta`. |
| DragAndDrop.DragAndDropManager.DrainPayload | js/dragndrop.js:63-77 | Emptying the parse container yields the fragment and the node list. Both are exactly the kept nodes, in payload order. |
| DragAndDrop.Identifiers | js/dragndrop.js:82-87 | There is one identifier per appended node. |
| DragAndDrop.DragAndDropManager.CollectIdentifiers | js/dragndrop.js:82-87 | The identifier list is the `data-element` value of each node, in order; it is undefined where the attribute is missing. |
| DragAndDrop.DropAppends | js/dragndrop.js:61-80 | The kept nodes go after the zone's existing children, in payload order, and point to the zone. Discarded nodes stay detached and untouched. "over" is cleared from the zone, whatever the payload. No other node changes and the document stays coherent. |
| DragAndDrop.DropKeepsIdentifiers | js/dragndrop.js:78-87 | Reading the identifiers after the move gives the same list as the payload carried. |
| DragAndDrop.DragAndDropManager.Drop | js/dragndrop.js:55-95 | Stops propagation. The document becomes `DropNodes` of the old one. Exactly one report is sent, carrying the kept nodes' identifiers, even when nothing was kept. |
| DragAndDrop.WorfScenario | js/dragndrop.js:55-95 | Dropping a payload of a `meta` and `<li data-element="worf">` on an empty `<ul class="over">` leaves the list holding only that item. The list then has no class and no `class` attribute, the `meta` stays aside, and the report is ["worf"]. |
| DragAndDrop.DragAndDropManager.GetEventHandler | js/dragndrop.js:101-107 | Each of the six event types runs its handler and returns its result: false for `dragover`, undefined otherwise. Each type asks only for what its handler reads: an element target for `dragstart`, an element current target for `dragenter`, `dragover`, `dragleave` and `drop`, and both for `dragend`. The document gets that handler's effect. The event fields the handler does not write keep their values: its flags and `dataTransfer` under `dragenter`, `dragleave` and `dragend`; the flags and `dropEffect` under `dragstart`; propagation, `effectAllowed` and the payload under `dragover`; `defaultPrevented` and `dataTransfer` under `drop`. Any other type changes nothing and returns undefined. Only `drop` sends a report. |
| DragAndDrop.DragAndDropManager.constructor | js/dragndrop.js:8-11 | A new manager works on the given document and has sent nothing. |

## Left out

- `AjaxRequest`, the network request, its status handling, `JSON.parse` and the success callback are not modelled. A drop only appends the identifier list it would report to the manager's `sent` log. The `console.log` lines are left out with them.
- HTML parsing and the browser's serialisers are host inputs. `DragStart` takes the native `outerHTML` and `innerHTML` strings ("" when there is no native `outerHTML`). `Drop` takes the parser's output as a sequence of fresh, detached nodes in document order.
- Event dispatch and bubbling are not modelled. Registering a listener adds an event type to the node's listener set. `this` binding and listener identity are not modelled.
- Plain objects that carry a `nodeType` property of their own, and a `nodeType` such as "1" that is equal to 1 only under loose equality, are not modelled. `Utils.IsNode` sees a `nodeType` only on references into the document.
- Numbers are integers: no NaN and no fractions.
- `Dom.Lower` lower-cases ASCII letters only.
- `DragAndDrop.DragAndDropManager.GetEventHandler` dispatches on the six handled types only. Property names that a plain object inherits, such as "constructor", are not modelled as table entries.
- `drop` builds a temporary `div` and a document fragment. They are modelled as local sequences. Nothing outside the handler can observe them.
- The loops of `drop` and `addDraggables` are separate methods (`DrainPayload`, `CollectIdentifiers`, `MarkChildren`), called where the loops stand.
- The DOM's hierarchy checks are not modelled: appending an ancestor of the zone, or a node that is attached elsewhere. `Drop` requires detached payload nodes other than the zone, which is what the parser yields. Acyclicity of the tree is not part of `Coherent`.
- Each handler requires an element node wherever it reads `classList`: the target in `dragstart` and `dragend`, and the current target in `dragover`, `dragenter`, `dragleave`, `dragend` and `drop`. `dragend` with an effect other than "none" also requires the target to have a parent. Where the script would instead fail with a `TypeError` (a null `parentNode`, a missing `classList`), that path is not modelled.
- `Dom.Document.ClassListAdd` requires a non-empty class name without whitespace. `classList.add` throws `SyntaxError` or `InvalidCharacterError` otherwise, and those exceptions are not modelled. The script adds only "moving" and "over".
- `Dom.Document.ClassListRemove` has the same requirement, for the same reason: `classList.remove` throws in the same cases. Its one caller, `Utils.RemoveClass`, calls it only with a non-empty, whitespace-free name.
- `DragAndDrop.Completion` assumes the page defines `NotANodeException`. `js/dragndrop.js` never defines it; it only constructs it at lines 127, 148, 167 and 193. Without a definition elsewhere on the page, evaluating `new NotANodeException(...)` throws a `ReferenceError` ("NotANodeException is not defined"), and the message the model records never appears. The exception is still raised exactly when `isNode` fails, and nothing changes before it.
- `Utils.RemoveClass` requires a class name without whitespace. `classList.remove` throws `InvalidCharacterError` otherwise, and that exception is not modelled. Both class names the script uses qualify.
- `Dom.Document.SetAttribute` is used only for names other than `class`. The script sets only `draggable`.
- The `preventDefault` and `stopPropagation` feature tests are not modelled: both methods are taken to exist, and their calls are recorded as flags on the event.
