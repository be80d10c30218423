// The widget tree a view frame carries (crates/view-wire/src/node.rs). A node is its kind, its
// key, its own fields and its children; the walks below go through the children only.
module Nodes {
  import opened Wrappers
  import opened Texts

  datatype Kind =
    | Qr | RichText | Flex | Pin | Float | KeyedColumn | Container | ResizeHandle | MouseArea
    | Linear | Grid | Responsive | Lazy | When | Sensor | Scroll | Tooltip | Text | Svg | Image
    | ImageViewer | Input | Editor | Button | Space | Rule | Toggle | Radio | Slider | ComboBox
    | PickList | Progress | Stack | Hover | Overlay | Canvas | Surface

  // A node's own fields: its shaped strings in the order they are spent, whether letter tracking
  // is on, and everything else.
  datatype Fields = Fields(texts: seq<Texts.Text>, tracked: bool, other: Settings)

  // Sizes, colours, flags and the like as one opaque value, with what pulling each of them inside
  // its bounds makes of it.
  datatype Settings = Settings(raw: nat, bounded: nat)

  predicate InBounds(s: Settings) {
    s.raw == s.bounded
  }

  function Bounded(s: Settings): (r: Settings)
    ensures InBounds(r) && (InBounds(s) ==> r == s)
  {
    Settings(s.bounded, s.bounded)
  }

  datatype Node = Node(kind: Kind, key: Option<Texts.Text>, fields: Fields, children: seq<Node>)

  const EMPTY := Node(Space, None, Fields([], false, Settings(0, 0)), [])

  // The variants whose children are a list that can grow and shrink.
  predicate HoldsList(kind: Kind) {
    kind in {Linear, Grid, KeyedColumn, Flex, Stack, When, Hover, Tooltip, Overlay}
  }

  function Count(node: Node): (c: nat)
    ensures c >= 1
    decreases node
  {
    1 + CountAll(node.children)
  }

  function CountAll(nodes: seq<Node>): nat
    decreases nodes
  {
    if nodes == [] then 0 else Count(nodes[0]) + CountAll(nodes[1..])
  }

  lemma CountAllConcat(a: seq<Node>, b: seq<Node>)
    ensures CountAll(a + b) == CountAll(a) + CountAll(b)
  {
    if a == [] {
      assert a + b == b;
    } else {
      CountAllConcat(a[1..], b);
      assert (a + b)[1..] == a[1..] + b;
    }
  }
}
