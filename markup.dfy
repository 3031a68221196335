/**
 * An abstract markup tree standing in for the pugixml document of the styles part:
 * element names, attribute lookup and child navigation as the serializer uses them.
 */
module Markup {
  import opened Wrappers

  /** One element: its name, its attributes and its child elements in document order. */
  datatype Node = Node(name: string, attributes: map<string, string>, children: seq<Node>)

  /** What pugixml returns for a child that is not there: no name, no attributes, no children. */
  const Null: Node := Node("", map[], [])

  /** A fresh element with no attributes and no children. */
  function Element(name: string): Node {
    Node(name, map[], [])
  }

  /** `node.attribute(key)` converts to true exactly when the attribute is present. */
  predicate HasAttr(n: Node, key: string) {
    key in n.attributes
  }

  /** `node.attribute(key).value()`: the attribute's text, or "" when it is absent. */
  function Attr(n: Node, key: string): string {
    if key in n.attributes then n.attributes[key] else ""
  }

  /** Position of the first element of `cs` named `name`, or |cs| when there is none. */
  function FirstIndex(cs: seq<Node>, name: string): (k: nat)
    ensures k <= |cs|
    ensures k < |cs| ==> cs[k].name == name
    ensures forall j :: 0 <= j < k ==> cs[j].name != name
  {
    if cs == [] then 0
    else if cs[0].name == name then 0
    else 1 + FirstIndex(cs[1..], name)
  }

  /** Appending a child leaves an earlier match in place, or else finds the new child. */
  lemma FirstIndexAppend(cs: seq<Node>, c: Node, name: string)
    ensures FirstIndex(cs + [c], name) ==
      if FirstIndex(cs, name) < |cs| then FirstIndex(cs, name)
      else if c.name == name then |cs| else |cs| + 1
  {
    var k := FirstIndex(cs + [c], name);
    var j := FirstIndex(cs, name);
    if j < |cs| {
      assert (cs + [c])[j] == cs[j];
    } else if c.name == name {
      assert (cs + [c])[|cs|] == c;
    }
  }

  /** `node.child(name)` converts to true: some child carries that name. */
  predicate HasChild(n: Node, name: string) {
    FirstIndex(n.children, name) < |n.children|
  }

  /** `node.child(name)`: the first child with that name, or the null node. */
  function Child(n: Node, name: string): Node {
    var k := FirstIndex(n.children, name);
    if k < |n.children| then n.children[k] else Null
  }

  /** `node.children(name)`: the children with that name, in document order. */
  function ChildrenNamed(cs: seq<Node>, name: string): (r: seq<Node>)
    ensures |r| <= |cs|
    ensures forall i :: 0 <= i < |r| ==> r[i].name == name
  {
    if cs == [] then []
    else (if cs[0].name == name then [cs[0]] else []) + ChildrenNamed(cs[1..], name)
  }

  /** When every child already carries `name`, `children(name)` visits them all. */
  lemma {:induction false} ChildrenNamedAll(cs: seq<Node>, name: string)
    requires forall i :: 0 <= i < |cs| ==> cs[i].name == name
    ensures ChildrenNamed(cs, name) == cs
  {
    if cs != [] {
      ChildrenNamedAll(cs[1..], name);
    }
  }

  /** `children(name)` filters in document order: it distributes over concatenation. */
  lemma {:induction false} ChildrenNamedAppend(a: seq<Node>, b: seq<Node>, name: string)
    ensures ChildrenNamed(a + b, name) == ChildrenNamed(a, name) + ChildrenNamed(b, name)
    decreases |a|
  {
    if a == [] {
      assert a + b == b;
    } else {
      assert (a + b)[0] == a[0];
      assert (a + b)[1..] == a[1..] + b;
      ChildrenNamedAppend(a[1..], b, name);
    }
  }

  /** `children(name)` visits every child carrying `name` and no other. */
  lemma {:induction false} ChildrenNamedMembers(cs: seq<Node>, name: string)
    ensures forall c :: c in ChildrenNamed(cs, name) <==> c in cs && c.name == name
    decreases |cs|
  {
    if cs != [] {
      ChildrenNamedMembers(cs[1..], name);
      assert cs == [cs[0]] + cs[1..];
    }
  }

  /**
   * `append_attribute(key).set_value(value)`. pugixml would append a second attribute of
   * the same name, but lookups find the first one, so an existing value is what stays visible.
   */
  function WithAttr(n: Node, key: string, value: string): (r: Node)
    ensures r.name == n.name && r.children == n.children
    ensures HasAttr(r, key) && Attr(r, key) == (if HasAttr(n, key) then Attr(n, key) else value)
    ensures forall k :: k != key ==> HasAttr(r, k) == HasAttr(n, k) && Attr(r, k) == Attr(n, k)
  {
    if key in n.attributes then n else n.(attributes := n.attributes[key := value])
  }

  /** `append_child`: `c` becomes the last child; earlier children keep winning lookups. */
  function WithChild(n: Node, c: Node): (r: Node)
    ensures r.name == n.name && r.attributes == n.attributes && r.children == n.children + [c]
    ensures forall name {:trigger HasChild(r, name)} ::
      HasChild(r, name) == (HasChild(n, name) || c.name == name)
    ensures forall name {:trigger Child(r, name)} ::
      Child(r, name) == (if HasChild(n, name) then Child(n, name) else if c.name == name then c else Null)
  {
    forall name ensures FirstIndex(n.children + [c], name) ==
      if FirstIndex(n.children, name) < |n.children| then FirstIndex(n.children, name)
      else if c.name == name then |n.children| else |n.children| + 1
    {
      FirstIndexAppend(n.children, c, name);
    }
    n.(children := n.children + [c])
  }

  /** `append_child` done only when `cond` holds. */
  function WithChildIf(n: Node, cond: bool, c: Node): (r: Node)
    ensures r.name == n.name && r.attributes == n.attributes
    ensures r.children == if cond then n.children + [c] else n.children
    ensures forall name {:trigger HasChild(r, name)} ::
      HasChild(r, name) == (HasChild(n, name) || (cond && c.name == name))
    ensures forall name {:trigger Child(r, name)} ::
      Child(r, name) == (if HasChild(n, name) then Child(n, name) else if cond && c.name == name then c else Null)
  {
    if cond then WithChild(n, c) else n
  }

  /** `append_attribute` done only when `cond` holds. */
  function WithAttrIf(n: Node, cond: bool, key: string, value: string): (r: Node)
    ensures r.name == n.name && r.children == n.children
    ensures HasAttr(r, key) == (HasAttr(n, key) || cond)
    ensures Attr(r, key) == (if HasAttr(n, key) || !cond then Attr(n, key) else value)
    ensures forall k :: k != key ==> HasAttr(r, k) == HasAttr(n, k) && Attr(r, k) == Attr(n, k)
  {
    if cond then WithAttr(n, key, value) else n
  }

  /**
   * A child the writer appends only when `present` holds. The writers append their children
   * in a fixed order, each at most once, so an element is described by its list of slots.
   */
  datatype Slot = Slot(present: bool, node: Node)

  /** The children a list of slots produces: the present ones, in order. */
  function Present(slots: seq<Slot>): (r: seq<Node>)
    ensures |r| <= |slots|
  {
    if slots == [] then []
    else (if slots[0].present then [slots[0].node] else []) + Present(slots[1..])
  }

  /** No two slots carry children of the same name. */
  predicate DistinctSlots(slots: seq<Slot>) {
    forall i, j :: 0 <= i < j < |slots| ==> slots[i].node.name != slots[j].node.name
  }

  /** A name no slot carries is not found among the children. */
  lemma {:induction false} PresentMissing(slots: seq<Slot>, name: string)
    requires forall i :: 0 <= i < |slots| ==> slots[i].node.name != name
    ensures FirstIndex(Present(slots), name) == |Present(slots)|
  {
    if slots != [] {
      PresentMissing(slots[1..], name);
      var head := if slots[0].present then [slots[0].node] else [];
      var rest := Present(slots[1..]);
      if slots[0].present {
        assert (head + rest)[1..] == rest;
      } else {
        assert head + rest == rest;
      }
    }
  }

  /** With distinct names, the lookup of slot `k`'s name finds that slot's child exactly when it is present. */
  lemma {:induction false} PresentFinds(slots: seq<Slot>, k: nat)
    requires DistinctSlots(slots) && k < |slots|
    ensures FirstIndex(Present(slots), slots[k].node.name) < |Present(slots)| <==> slots[k].present
    ensures slots[k].present ==> Present(slots)[FirstIndex(Present(slots), slots[k].node.name)] == slots[k].node
  {
    var name := slots[k].node.name;
    var head := if slots[0].present then [slots[0].node] else [];
    var rest := Present(slots[1..]);
    assert Present(slots) == head + rest;
    if k == 0 {
      PresentMissing(slots[1..], name);
      if !slots[0].present {
        assert head + rest == rest;
      }
    } else {
      PresentFinds(slots[1..], k - 1);
      assert slots[1..][k - 1] == slots[k];
      if slots[0].present {
        assert (head + rest)[1..] == rest;
      } else {
        assert head + rest == rest;
      }
    }
  }

  /** An element built from distinct slots: the child of slot `k`'s name is that slot's, or null. */
  lemma SlotChild(tag: string, attributes: map<string, string>, slots: seq<Slot>, k: nat)
    requires DistinctSlots(slots) && k < |slots|
    ensures HasChild(Node(tag, attributes, Present(slots)), slots[k].node.name) == slots[k].present
    ensures Child(Node(tag, attributes, Present(slots)), slots[k].node.name) ==
      if slots[k].present then slots[k].node else Null
  {
    PresentFinds(slots, k);
  }

  /**
   * `append_child` done only when `cond` holds, as the `k`-th of a run of conditional appends:
   * children made of the first `k` slots become those of the first `k + 1`.
   */
  method AppendSlotChild(n: Node, cond: bool, c: Node, ghost slots: seq<Slot>, ghost k: nat) returns (r: Node)
    requires k < |slots| && slots[k] == Slot(cond, c) && n.children == Present(slots[..k])
    ensures r.name == n.name && r.attributes == n.attributes && r.children == Present(slots[..k + 1])
  {
    r := WithChildIf(n, cond, c);
    PresentSnoc(slots, k);
  }

  /** Slots that agree on which are present, and on the nodes of those, give the same children. */
  lemma {:induction false} PresentAgree(a: seq<Slot>, b: seq<Slot>)
    requires |a| == |b|
    requires forall i :: 0 <= i < |a| ==> a[i].present == b[i].present && (a[i].present ==> a[i].node == b[i].node)
    ensures Present(a) == Present(b)
  {
    if a != [] {
      PresentAgree(a[1..], b[1..]);
    }
  }

  /** An element built from slots has no child of a name no slot carries. */
  lemma SlotMissing(tag: string, attributes: map<string, string>, slots: seq<Slot>, name: string)
    requires forall i :: 0 <= i < |slots| ==> slots[i].node.name != name
    ensures !HasChild(Node(tag, attributes, Present(slots)), name)
    ensures Child(Node(tag, attributes, Present(slots)), name) == Null
  {
    PresentMissing(slots, name);
  }

  /** The element names of `cs`, in order. */
  function Names(cs: seq<Node>): (r: seq<string>)
    ensures |r| == |cs| && forall i :: 0 <= i < |cs| ==> r[i] == cs[i].name
  {
    if cs == [] then [] else [cs[0].name] + Names(cs[1..])
  }

  /** A fresh copy of `n` with `cs` appended after its children. */
  function AppendChildren(n: Node, cs: seq<Node>): (r: Node)
    ensures r.name == n.name && r.attributes == n.attributes
  {
    n.(children := n.children + cs)
  }

  /** `f` applied to each item of `xs`, in order: the elements a writer emits, or the values read back. */
  function Each<T, U>(xs: seq<T>, f: T -> U): (r: seq<U>)
    ensures |r| == |xs| && forall i :: 0 <= i < |xs| ==> r[i] == f(xs[i])
  {
    seq(|xs|, i requires 0 <= i < |xs| => f(xs[i]))
  }

  /** A prefix one longer ends in the next item. */
  lemma PrefixSnoc<T>(xs: seq<T>, i: nat)
    requires i < |xs|
    ensures xs[..i + 1] == xs[..i] + [xs[i]]
  {
  }

  /** One more item adds its element at the end. */
  lemma EachSnoc<T, U>(xs: seq<T>, f: T -> U, i: nat)
    requires i < |xs|
    ensures Each(xs[..i + 1], f) == Each(xs[..i], f) + [f(xs[i])]
  {
  }

  /** A writer loop: `append_child` of each item's element onto `n`, in order. */
  method AppendEach<T>(n: Node, xs: seq<T>, encode: T -> Node) returns (r: Node)
    ensures r == AppendChildren(n, Each(xs, encode))
  {
    r := n;
    var i := 0;
    while i < |xs|
      invariant i <= |xs|
      invariant r == AppendChildren(n, Each(xs[..i], encode))
    {
      EachSnoc(xs, encode, i);
      r := WithChild(r, encode(xs[i]));
      i := i + 1;
    }
    assert xs[..i] == xs;
  }

  /** One more slot adds its child at the end when it is present. */
  lemma {:induction false} PresentSnoc(slots: seq<Slot>, i: nat)
    requires i < |slots|
    ensures Present(slots[..i + 1]) == Present(slots[..i]) + if slots[i].present then [slots[i].node] else []
  {
    if i > 0 {
      PresentSnoc(slots[1..], i - 1);
      assert slots[..i + 1][1..] == slots[1..][..i];
      assert slots[..i][1..] == slots[1..][..i - 1];
      assert slots[1..][i - 1] == slots[i];
    } else {
      assert slots[..1][1..] == [];
    }
  }

  /** The child appended under a name the element did not have is the one a lookup finds. */
  lemma ChildOfAppended(n: Node, c: Node)
    requires !HasChild(n, c.name)
    ensures HasChild(WithChild(n, c), c.name) && Child(WithChild(n, c), c.name) == c
  {
    FirstIndexAppend(n.children, c, c.name);
  }

  /**
   * A reader loop over `ns`: decode every node in order; the first node that fails decides
   * the failure, and success yields one value per node.
   */
  function MapNodes<T>(ns: seq<Node>, decode: Node -> Result<T>): (r: Result<seq<T>>)
    ensures r.Ok? <==> forall i :: 0 <= i < |ns| ==> decode(ns[i]).Ok?
    ensures r.Ok? ==> |r.value| == |ns| && forall i :: 0 <= i < |ns| ==> decode(ns[i]) == Ok(r.value[i])
    ensures r.Err? ==> exists i :: 0 <= i < |ns| && decode(ns[i]) == Err(r.error) && forall j :: 0 <= j < i ==> decode(ns[j]).Ok?
  {
    if ns == [] then Ok([])
    else
      var init :- MapNodes(ns[..|ns| - 1], decode);
      var last :- decode(ns[|ns| - 1]);
      Ok(init + [last])
  }

  /** When every node decodes to the matching value, the loop yields exactly those values. */
  lemma MapNodesOk<T>(ns: seq<Node>, decode: Node -> Result<T>, xs: seq<T>)
    requires |ns| == |xs|
    requires forall i :: 0 <= i < |ns| ==> decode(ns[i]) == Ok(xs[i])
    ensures MapNodes(ns, decode) == Ok(xs)
  {
    var r := MapNodes(ns, decode);
    assert r.value == xs;
  }

  /** One more node that decodes extends the values by its value. */
  lemma MapNodesSnoc<T>(ns: seq<Node>, decode: Node -> Result<T>, i: nat)
    requires i < |ns| && MapNodes(ns[..i], decode).Ok? && decode(ns[i]).Ok?
    ensures MapNodes(ns[..i + 1], decode) == Ok(MapNodes(ns[..i], decode).value + [decode(ns[i]).value])
  {
    assert ns[..i + 1][..i] == ns[..i];
  }

  /** The first node that fails decides the failure of the whole list. */
  lemma MapNodesFirstFailure<T>(ns: seq<Node>, decode: Node -> Result<T>, i: nat)
    requires i < |ns| && MapNodes(ns[..i], decode).Ok? && decode(ns[i]).Err?
    ensures MapNodes(ns, decode) == Err(decode(ns[i]).error)
  {
    assert forall k :: 0 <= k < i ==> ns[..i][k] == ns[k];
    var r := MapNodes(ns, decode);
    var j :| 0 <= j < |ns| && decode(ns[j]) == Err(r.error) && forall k :: 0 <= k < j ==> decode(ns[k]).Ok?;
    assert j == i;
  }

  /**
   * What a reader loop has pushed when it stops: the values of the longest prefix of `ns`
   * that decodes, that is all of them on success and those before the first failure otherwise.
   */
  function DecodedPrefix<T>(ns: seq<Node>, decode: Node -> Result<T>): seq<T> {
    if MapNodes(ns, decode).Ok? then MapNodes(ns, decode).value
    else DecodedPrefix(ns[..|ns| - 1], decode)
  }

  /** When node `i` is the first that fails, the loop has pushed exactly the values before it. */
  lemma {:induction false} DecodedPrefixAtFailure<T>(ns: seq<Node>, decode: Node -> Result<T>, i: nat)
    requires i < |ns| && MapNodes(ns[..i], decode).Ok? && decode(ns[i]).Err?
    ensures DecodedPrefix(ns, decode) == MapNodes(ns[..i], decode).value
    decreases |ns|
  {
    assert MapNodes(ns, decode).Err?;
    var init := ns[..|ns| - 1];
    if |ns| == i + 1 {
      assert init == ns[..i];
    } else {
      assert init[..i] == ns[..i] && init[i] == ns[i];
      DecodedPrefixAtFailure(init, decode, i);
    }
  }

  /**
   * The loop of a list reader: decode `ns` in order, pushing each value onto `prior`, and stop
   * at the first node that fails, leaving what was pushed so far.
   */
  method ReadEach<T>(ns: seq<Node>, decode: Node -> Result<T>, prior: seq<T>) returns (items: seq<T>, r: Result<()>)
    ensures r.Ok? <==> MapNodes(ns, decode).Ok?
    ensures r.Err? ==> MapNodes(ns, decode) == Err(r.error)
    ensures items == prior + DecodedPrefix(ns, decode)
  {
    items := prior;
    var i := 0;
    while i < |ns|
      invariant i <= |ns|
      invariant MapNodes(ns[..i], decode).Ok? && items == prior + MapNodes(ns[..i], decode).value
    {
      assert ns[..i + 1][..i] == ns[..i];
      var v := decode(ns[i]);
      if v.Err? {
        DecodedPrefixAtFailure(ns, decode, i);
        MapNodesFirstFailure(ns, decode, i);
        return items, Err(v.error);
      }
      items := items + [v.value];
      i := i + 1;
    }
    assert ns[..i] == ns;
    r := Ok(());
  }
}
