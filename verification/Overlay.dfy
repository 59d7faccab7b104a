/** Path attributes as an overlay: a clone records only what it sets and deletes, and reads the
    rest through its parents. The two readers, one attribute at a time and all at once, agree. */
module Overlay {
  import opened Common
  import opened AsPaths
  import opened Bitmaps

  const ATTR_TYPE_AS_PATH := 2
  const MAX_UINT8 := 255

  datatype Value = AsPathValue(path: AsPath) | OtherValue(id: nat)

  datatype Attr = Attr(typ: nat, value: Value)

  /** What one path object records. */
  datatype Node = Node(attrs: seq<Attr>, dels: seq<nat>)

  // ----- Reading, on values

  /** The first attribute of the type in a list. */
  function FindAttr(attrs: seq<Attr>, typ: nat): (r: Option<Attr>)
    ensures r.Some? ==> r.value in attrs && r.value.typ == typ
    ensures r == None ==> forall a :: a in attrs ==> a.typ != typ
  {
    if attrs == [] then None
    else if attrs[0].typ == typ then Some(attrs[0])
    else FindAttr(attrs[1..], typ)
  }

  /** The attribute seen from the first node of a chain: its own deletion comes before its own
      setting, and both before those of its parents. */
  function Lookup(nodes: seq<Node>, typ: nat): (r: Option<Attr>)
    ensures r.Some? ==> r.value.typ == typ
  {
    if nodes == [] then None
    else if typ in nodes[0].dels then None
    else if FindAttr(nodes[0].attrs, typ).Some? then FindAttr(nodes[0].attrs, typ)
    else Lookup(nodes[1..], typ)
  }

  predicate UniqueTypes(attrs: seq<Attr>) {
    forall i, j :: 0 <= i < j < |attrs| ==> attrs[i].typ != attrs[j].typ
  }

  predicate SortedTypes(attrs: seq<Attr>) {
    forall i, j :: 0 <= i < j < |attrs| ==> attrs[i].typ < attrs[j].typ
  }

  /** What the wire and the setter guarantee of every node: types fit a byte and occur once. */
  predicate WellTyped(n: Node) {
    && UniqueTypes(n.attrs)
    && (forall a :: a in n.attrs ==> a.typ <= MAX_UINT8)
    && (forall t :: t in n.dels ==> t <= MAX_UINT8)
  }

  /** The attributes of the root's types, as seen from the first node, in the root's order. */
  function InRootOrder(nodes: seq<Node>, root: seq<Attr>): seq<Attr> {
    if root == [] then []
    else
      var n := |root| - 1;
      var r, a := InRootOrder(nodes, root[..n]), Lookup(nodes, root[n].typ);
      if a == None then r else r + [a.value]
  }

  lemma {:induction false} InRootOrderHolds(nodes: seq<Node>, root: seq<Attr>)
    ensures forall a :: a in InRootOrder(nodes, root) ==>
              Lookup(nodes, a.typ) == Some(a) && exists b :: b in root && b.typ == a.typ
    ensures forall b :: b in root && Lookup(nodes, b.typ).Some? ==>
      Lookup(nodes, b.typ).value in InRootOrder(nodes, root)
  {
    if root != [] {
      var n := |root| - 1;
      InRootOrderHolds(nodes, root[..n]);
      assert forall b :: b in root <==> b in root[..n] || b == root[n];
    }
  }

  lemma {:induction false} RootOrderIsUnique(nodes: seq<Node>, root: seq<Attr>)
    requires UniqueTypes(root)
    ensures UniqueTypes(InRootOrder(nodes, root))
  {
    if root != [] {
      var n := |root| - 1;
      RootOrderIsUnique(nodes, root[..n]);
      InRootOrderHolds(nodes, root[..n]);
      forall a | a in InRootOrder(nodes, root[..n]) ensures a.typ != root[n].typ {
        var b :| b in root[..n] && b.typ == a.typ;
      }
    }
  }

  lemma {:induction false} RootOrderIsSorted(nodes: seq<Node>, root: seq<Attr>)
    requires SortedTypes(root)
    ensures SortedTypes(InRootOrder(nodes, root))
  {
    if root != [] {
      var n := |root| - 1;
      RootOrderIsSorted(nodes, root[..n]);
      InRootOrderHolds(nodes, root[..n]);
      forall a | a in InRootOrder(nodes, root[..n]) ensures a.typ < root[n].typ {
        var b :| b in root[..n] && b.typ == a.typ;
      }
    }
  }

  /** Some attribute seen from the first node has a type that the root does not carry. */
  ghost predicate HasNewType(nodes: seq<Node>, root: seq<Attr>) {
    exists t :: Lookup(nodes, t).Some? && FindAttr(root, t) == None
  }

  /** A list that says the same as the chain, type by type. */
  ghost predicate Agrees(l: seq<Attr>, nodes: seq<Node>) {
    UniqueTypes(l) && forall a :: a in l <==> Lookup(nodes, a.typ) == Some(a)
  }

  function SetIn(attrs: seq<Attr>, a: Attr): (r: seq<Attr>)
    ensures UniqueTypes(attrs) ==> UniqueTypes(r)
    ensures forall b :: b in r ==> b == a || b in attrs
  {
    if attrs == [] then [a]
    else if attrs[0].typ == a.typ then [a] + attrs[1..]
    else
      var r := SetIn(attrs[1..], a);
      assert UniqueTypes(attrs) ==> forall b :: b in r ==> b.typ != attrs[0].typ;
      [attrs[0]] + r
  }

  lemma {:induction false} SetInAt(attrs: seq<Attr>, a: Attr, at: nat)
    requires at <= |attrs| && (at < |attrs| ==> attrs[at].typ == a.typ)
    requires forall j :: 0 <= j < at ==> attrs[j].typ != a.typ
    ensures SetIn(attrs, a) == if at < |attrs| then attrs[at := a] else attrs + [a]
  {
    if at > 0 {
      SetInAt(attrs[1..], a, at - 1);
    }
  }

  lemma {:induction false} FindAfterSet(attrs: seq<Attr>, a: Attr, typ: nat)
    ensures FindAttr(SetIn(attrs, a), typ) == if typ == a.typ then Some(a) else FindAttr(attrs, typ)
  {
    if attrs != [] && attrs[0].typ != a.typ {
      FindAfterSet(attrs[1..], a, typ);
      assert SetIn(attrs, a)[1..] == SetIn(attrs[1..], a);
    } else if attrs != [] {
      assert SetIn(attrs, a)[1..] == attrs[1..];
    }
  }

  /** Setting is seen unless the same node deleted the type: a deletion beats a setting. */
  lemma SetThenLookup(nodes: seq<Node>, a: Attr, typ: nat)
    requires nodes != []
    ensures Lookup(nodes[0 := Node(SetIn(nodes[0].attrs, a), nodes[0].dels)], typ) ==
              if typ == a.typ && typ !in nodes[0].dels then Some(a) else Lookup(nodes, typ)
  {
    FindAfterSet(nodes[0].attrs, a, typ);
    assert nodes[0 := Node(SetIn(nodes[0].attrs, a), nodes[0].dels)][1..] == nodes[1..];
  }

  lemma DelThenLookup(nodes: seq<Node>, del: nat, typ: nat)
    requires nodes != []
    ensures Lookup(nodes[0 := Node(nodes[0].attrs, nodes[0].dels + [del])], typ) ==
              if typ == del then None else Lookup(nodes, typ)
  {
    assert nodes[0 := Node(nodes[0].attrs, nodes[0].dels + [del])][1..] == nodes[1..];
  }

  // ----- Reading everything at once

  /** What is known of a type after the nodes in front of `rest` have been visited. */
  ghost predicate Visited(nodes: seq<Node>, modified: map<nat, Attr>, flags: set<nat>, rest: seq<Node>) {
    && (forall t :: t in modified ==> modified[t].typ == t)
    && forall t :: Lookup(nodes, t) ==
         if t in modified then Some(modified[t]) else if t in flags then None else Lookup(rest, t)
  }

  ghost predicate Collected(was: map<nat, Attr>, flags: set<nat>, attrs: seq<Attr>, now: map<nat, Attr>) {
    forall t :: if t in was then t in now && now[t] == was[t]
                else if t !in flags && FindAttr(attrs, t).Some? then t in now && now[t] == FindAttr(attrs, t).value
                else t !in now
  }

  /** Visiting one more node: its deletions first, then what it sets and nothing before it did. */
  lemma VisitNode(nodes: seq<Node>, modified: map<nat, Attr>, flags: set<nat>, rest: seq<Node>, now: map<nat, Attr>)
    requires rest != [] && Visited(nodes, modified, flags, rest)
    requires Collected(modified, flags + (set t | t in rest[0].dels), rest[0].attrs, now)
    ensures Visited(nodes, now, flags + (set t | t in rest[0].dels), rest[1..])
  {
    var more := flags + set t | t in rest[0].dels;
    forall t ensures Lookup(nodes, t) ==
      if t in now then Some(now[t]) else if t in more then None else Lookup(rest[1..], t)
    {
      assert t in more <==> t in flags || t in rest[0].dels;
    }
  }

  method FlagAll(deleted: Bitmap, dels: seq<nat>)
    requires forall t :: t in dels ==> t < deleted.Capacity()
    modifies deleted
    ensures deleted.Flags() == old(deleted.Flags()) + (set t | t in dels)
    ensures deleted.Capacity() == old(deleted.Capacity())
  {
    for i := 0 to |dels|
      invariant deleted.Flags() == old(deleted.Flags()) + (set t | t in dels[..i])
      invariant deleted.Capacity() == old(deleted.Capacity())
    {
      assert dels[..i + 1] == dels[..i] + [dels[i]] && dels[i] in dels;
      deleted.Flag(dels[i]);
    }
    assert dels[..|dels|] == dels;
  }

  lemma {:induction false} FindUnique(attrs: seq<Attr>, i: nat)
    requires UniqueTypes(attrs) && i < |attrs|
    ensures FindAttr(attrs, attrs[i].typ) == Some(attrs[i])
  {
    if i > 0 {
      FindUnique(attrs[1..], i - 1);
    }
  }

  lemma {:induction false} FindInPrefix(attrs: seq<Attr>, i: nat, typ: nat)
    requires UniqueTypes(attrs) && i < |attrs|
    ensures FindAttr(attrs[..i + 1], typ) == if typ == attrs[i].typ then Some(attrs[i]) else FindAttr(attrs[..i], typ)
    ensures FindAttr(attrs[..i], attrs[i].typ) == None
  {
    if i > 0 {
      FindInPrefix(attrs[1..], i - 1, typ);
      assert attrs[..i + 1][1..] == attrs[1..][..i] && attrs[..i][1..] == attrs[1..][..i - 1];
    }
  }

  lemma CollectedOneMore(was: map<nat, Attr>, flags: set<nat>, attrs: seq<Attr>, i: nat, now: map<nat, Attr>)
    requires UniqueTypes(attrs) && i < |attrs| && Collected(was, flags, attrs[..i], now)
    ensures var a := attrs[i];
            Collected(was, flags, attrs[..i + 1], if a.typ !in flags && a.typ !in now then now[a.typ := a] else now)
  {
    forall t
      ensures FindAttr(attrs[..i + 1], t) == if t == attrs[i].typ then Some(attrs[i]) else FindAttr(attrs[..i], t)
      ensures FindAttr(attrs[..i], attrs[i].typ) == None
    {
      FindInPrefix(attrs, i, t);
    }
  }

  /** The types a node sets that were neither deleted nor set nearer to the first node. */
  method CollectNode(deleted: Bitmap, modified: map<nat, Attr>, attrs: seq<Attr>) returns (now: map<nat, Attr>)
    requires UniqueTypes(attrs) && forall a :: a in attrs ==> a.typ < deleted.Capacity()
    ensures Collected(modified, deleted.Flags(), attrs, now)
  {
    now := modified;
    for i := 0 to |attrs|
      invariant Collected(modified, deleted.Flags(), attrs[..i], now)
    {
      var typ := attrs[i].typ;
      CollectedOneMore(modified, deleted.Flags(), attrs, i, now);
      var flagged := deleted.GetFlag(typ);
      if !flagged && typ !in now {
        now := now[typ := attrs[i]];
      }
    }
    assert attrs[..|attrs|] == attrs;
  }

  function WithoutTypes(modified: map<nat, Attr>, attrs: seq<Attr>): map<nat, Attr> {
    map t | t in modified && FindAttr(attrs, t) == None :: modified[t]
  }

  lemma WithoutOneMore(modified: map<nat, Attr>, attrs: seq<Attr>, i: nat)
    requires UniqueTypes(attrs) && i < |attrs|
    ensures WithoutTypes(modified, attrs[..i + 1]) == WithoutTypes(modified, attrs[..i]) - {attrs[i].typ}
    ensures attrs[i].typ in WithoutTypes(modified, attrs[..i]) <==> attrs[i].typ in modified
  {
    forall t | t in modified {
      FindInPrefix(attrs, i, t);
    }
    FindInPrefix(attrs, i, attrs[i].typ);
  }

  /** The root's turn: its types in its order, each as seen from the first node. What is left of
      the modified ones is new. */
  method CollectRoot(deleted: Bitmap, modified: map<nat, Attr>, attrs: seq<Attr>, ghost nodes: seq<Node>)
    returns (list: seq<Attr>, left: map<nat, Attr>)
    requires UniqueTypes(attrs) && forall a :: a in attrs ==> a.typ < deleted.Capacity()
    requires forall t :: Lookup(nodes, t) ==
               if t in modified then Some(modified[t]) else if t in deleted.Flags() then None else FindAttr(attrs, t)
    ensures list == InRootOrder(nodes, attrs) && left == WithoutTypes(modified, attrs)
  {
    list, left := [], modified;
    for i := 0 to |attrs|
      invariant list == InRootOrder(nodes, attrs[..i]) && left == WithoutTypes(modified, attrs[..i])
    {
      var typ := attrs[i].typ;
      RootTurn(nodes, modified, deleted.Flags(), attrs, i);
      var flagged := deleted.GetFlag(typ);
      if typ in left {
        list := list + [left[typ]];
        left := left - {typ};
      } else if !flagged {
        list := list + [attrs[i]];
      }
    }
    assert attrs[..|attrs|] == attrs;
  }

  lemma RootTurn(nodes: seq<Node>, modified: map<nat, Attr>, flags: set<nat>, attrs: seq<Attr>, i: nat)
    requires UniqueTypes(attrs) && i < |attrs|
    requires forall t :: Lookup(nodes, t) ==
               if t in modified then Some(modified[t]) else if t in flags then None else FindAttr(attrs, t)
    ensures var typ, list, left := attrs[i].typ, InRootOrder(nodes, attrs[..i]), WithoutTypes(modified, attrs[..i]);
            WithoutTypes(modified, attrs[..i + 1]) == (if typ in left then left - {typ} else left) &&
            InRootOrder(nodes, attrs[..i + 1]) ==
              if typ in left then list + [left[typ]] else if typ !in flags then list + [attrs[i]] else list
  {
    FindUnique(attrs, i);
    RootOneMore(nodes, attrs, i);
    WithoutOneMore(modified, attrs, i);
    var typ, left := attrs[i].typ, WithoutTypes(modified, attrs[..i]);
    assert typ !in left ==> left - {typ} == left;
  }

  lemma RootOneMore(nodes: seq<Node>, attrs: seq<Attr>, i: nat)
    requires i < |attrs|
    ensures var found := Lookup(nodes, attrs[i].typ);
            InRootOrder(nodes, attrs[..i + 1]) ==
              if found.Some? then InRootOrder(nodes, attrs[..i]) + [found.value] else InRootOrder(nodes, attrs[..i])
  {
    assert attrs[..i + 1][..i] == attrs[..i];
  }

  lemma RootOrderMembers(nodes: seq<Node>, root: seq<Attr>)
    requires UniqueTypes(root)
    ensures forall a :: a in InRootOrder(nodes, root) <==>
      Lookup(nodes, a.typ) == Some(a) && FindAttr(root, a.typ).Some?
  {
    InRootOrderHolds(nodes, root);
    forall a | a in InRootOrder(nodes, root) ensures FindAttr(root, a.typ).Some? {
      var b :| b in root && b.typ == a.typ;
    }
    forall a: Attr | Lookup(nodes, a.typ) == Some(a) && FindAttr(root, a.typ).Some?
      ensures a in InRootOrder(nodes, root) {
      var b := FindAttr(root, a.typ).value;
      assert b in root && Lookup(nodes, b.typ).value in InRootOrder(nodes, root);
    }
  }

  /** Adds the new attributes, in whatever order the map yields them. */
  method AppendNew(list: seq<Attr>, new_: map<nat, Attr>) returns (r: seq<Attr>)
    requires UniqueTypes(list) && forall t :: t in new_ ==> new_[t].typ == t
    requires forall a :: a in list ==> a.typ !in new_
    ensures UniqueTypes(r)
    ensures forall a :: a in r <==> a in list || (a.typ in new_ && new_[a.typ] == a)
  {
    r := list;
    var todo := new_.Keys;
    while todo != {}
      invariant todo <= new_.Keys && UniqueTypes(r)
      invariant forall a :: a in r <==> a in list || (a.typ in new_ && a.typ !in todo && new_[a.typ] == a)
      decreases |todo|
    {
      var t :| t in todo;
      assert forall a :: a in r ==> a.typ != t;
      r := r + [new_[t]];
      todo := todo - {t};
    }
  }

  method SortByType(list: seq<Attr>) returns (r: seq<Attr>)
    requires UniqueTypes(list)
    ensures SortedTypes(r) && UniqueTypes(r)
    ensures forall a :: a in r <==> a in list
  {
    r := SortSlice(list, (a: Attr, b: Attr) => a.typ < b.typ);
    assert forall a :: a in r <==> a in multiset(r);
    assert forall a :: a in list <==> a in multiset(list);
    forall k | 0 < k < |r| ensures r[k - 1].typ <= r[k].typ {
      assert InOrder((a: Attr, b: Attr) => a.typ < b.typ, r[k - 1], r[k]);
    }
    StillUnique(list, r);
    StrictlyUp(r);
  }

  lemma StillUnique(list: seq<Attr>, r: seq<Attr>)
    requires UniqueTypes(list) && multiset(r) == multiset(list)
    ensures UniqueTypes(r)
  {
    assert NoDuplicates(list);
    NoDuplicatesIn(list, r);
    SameMembers(r, list);
    assert forall i :: 0 <= i < |r| ==> r[i] in list;
  }

  lemma StrictlyUp(r: seq<Attr>)
    requires UniqueTypes(r) && forall k {:trigger r[k]} :: 0 < k < |r| ==> r[k - 1].typ <= r[k].typ
    ensures SortedTypes(r)
  {
    forall i, j | 0 <= i < j < |r| ensures r[i].typ < r[j].typ {
      NeverDown(r, i, j);
    }
  }

  lemma {:induction false} NeverDown(r: seq<Attr>, i: nat, j: nat)
    requires forall k {:trigger r[k]} :: 0 < k < |r| ==> r[k - 1].typ <= r[k].typ
    requires i < j < |r|
    ensures r[i].typ <= r[j].typ
  {
    if i < j - 1 {
      NeverDown(r, i, j - 1);
    }
    var last := r[j];
  }

  /** The end of the walk: new attributes are added and only then is the list sorted. */
  method Finish(list: seq<Attr>, left: map<nat, Attr>, ghost nodes: seq<Node>, ghost root: seq<Attr>)
    returns (r: seq<Attr>)
    requires UniqueTypes(root) && list == InRootOrder(nodes, root)
    requires forall t :: t in left <==> Lookup(nodes, t).Some? && FindAttr(root, t) == None
    requires forall t :: t in left ==> Lookup(nodes, t) == Some(left[t])
    ensures Agrees(r, nodes)
    ensures if HasNewType(nodes, root) then SortedTypes(r) else r == InRootOrder(nodes, root)
  {
    RootOrderIsUnique(nodes, root);
    RootOrderMembers(nodes, root);
    r := list;
    if |left| > 0 {
      var t :| t in left;
      assert Lookup(nodes, t).Some? && FindAttr(root, t) == None;
      r := AppendNew(r, left);
      r := SortByType(r);
    } else {
      assert forall t :: t !in left;
    }
  }

  // ----- Paths

  class OverlayPath {
    const parent: OverlayPath?
    var pathAttrs: seq<Attr>
    var dels: seq<nat>
    ghost const chain: seq<OverlayPath>  // this path, its parent, and so on up to the root

    /** The chain follows the parents and ends. Parents never change, so neither does this. */
    ghost predicate Linked()
      decreases |chain|
    {
      if parent == null then chain == [this]
      else |parent.chain| < |chain| && chain == [this] + parent.chain && parent.Linked()
    }

    ghost function Nodes(): seq<Node>
      reads chain
    {
      seq(|chain|, i requires 0 <= i < |chain| reads chain => Node(chain[i].pathAttrs, chain[i].dels))
    }

    ghost predicate Valid()
      reads chain
    {
      Linked() && forall i :: 0 <= i < |chain| ==> WellTyped(Node(chain[i].pathAttrs, chain[i].dels))
    }

    constructor (attrs: seq<Attr>)
      requires UniqueTypes(attrs) && forall a :: a in attrs ==> a.typ <= MAX_UINT8
      ensures Valid() && Nodes() == [Node(attrs, [])] && parent == null
    {
      parent, pathAttrs, dels := null, attrs, [];
      chain := [this];
    }

    constructor Clone(original: OverlayPath)
      requires original.Valid()
      ensures Valid() && Nodes() == [Node([], [])] + original.Nodes() && parent == original
    {
      parent, pathAttrs, dels := original, [], [];
      chain := [this] + original.chain;
    }

    /** Whose attributes a node's parent adds: the rest of the chain. */
    lemma ParentNodes()
      requires Linked()
      ensures parent != null ==> parent.Linked() && Nodes() == [Node(pathAttrs, dels)] + parent.Nodes()
      ensures parent == null ==> Nodes() == [Node(pathAttrs, dels)]
      ensures parent != null ==> RootAttrs() == parent.RootAttrs()
      ensures Valid() && parent != null ==> parent.Valid()
    {
      if parent != null {
        assert forall i :: 0 <= i < |parent.chain| ==> parent.chain[i] == chain[i + 1];
      }
    }

    /** A path is not among its own ancestors, so changing it never changes what they read. */
    lemma {:induction false} NotItsOwnAncestor(other: OverlayPath)
      requires Linked() && |other.chain| < |chain|
      ensures this !in other.chain || !other.Linked()
      decreases |other.chain|
    {
      if other.Linked() && other.parent != null {
        NotItsOwnAncestor(other.parent);
      }
    }

    /** Reads one attribute by walking up. None is the source's nil. */
    method GetPathAttr(typ: nat) returns (r: Option<Attr>)
      requires Valid()
      ensures r == Lookup(Nodes(), typ)
    {
      var p: OverlayPath := this;
      while true
        invariant p.Linked() && Lookup(Nodes(), typ) == Lookup(p.Nodes(), typ)
        decreases |p.chain|
      {
        p.ParentNodes();
        assert p.Nodes()[0] == Node(p.pathAttrs, p.dels);
        var deleted, found := p.OwnAttr(typ);
        if deleted || found.Some? {
          return found;
        }
        if p.parent == null {
          assert p.Nodes()[1..] == [];
          return None;
        }
        assert p.Nodes()[1..] == p.parent.Nodes();
        p := p.parent;
      }
    }

    /** What this path itself says of the type; a deletion hides what it sets. */
    method OwnAttr(typ: nat) returns (deleted: bool, found: Option<Attr>)
      ensures deleted <==> typ in dels
      ensures found == if deleted then None else FindAttr(pathAttrs, typ)
    {
      for i := 0 to |dels|
        invariant typ !in dels[..i]
      {
        if dels[i] == typ {
          return true, None;
        }
      }
      for i := 0 to |pathAttrs|
        invariant FindAttr(pathAttrs, typ) == FindAttr(pathAttrs[i..], typ)
      {
        if pathAttrs[i].typ == typ {
          return false, Some(pathAttrs[i]);
        }
        assert pathAttrs[i..][1..] == pathAttrs[i + 1..];
      }
      return false, None;
    }

    /** The attributes of the root of the chain. */
    ghost function RootAttrs(): seq<Attr>
      requires Linked()
      reads chain
    {
      chain[|chain| - 1].pathAttrs
    }

    /** One turn of the walk, at a path that has a parent. */
    method Visit(deleted: Bitmap, modified: map<nat, Attr>, ghost nodes: seq<Node>) returns (now: map<nat, Attr>)
      requires Valid() && parent != null && deleted.Capacity() > MAX_UINT8
      requires Visited(nodes, modified, deleted.Flags(), Nodes())
      modifies deleted
      ensures deleted.Capacity() == old(deleted.Capacity())
      ensures parent.Linked() && Visited(nodes, now, deleted.Flags(), parent.Nodes())
    {
      ParentNodes();
      ghost var flags, rest := deleted.Flags(), Nodes();
      assert chain[0] == this && WellTyped(Node(pathAttrs, dels));
      FlagAll(deleted, dels);
      now := CollectNode(deleted, modified, pathAttrs);
      assert rest[0] == Node(pathAttrs, dels);
      VisitNode(nodes, modified, flags, rest, now);
      assert rest[1..] == parent.Nodes();
    }

    /** The last turn, at the root. */
    method VisitRoot(deleted: Bitmap, modified: map<nat, Attr>, ghost nodes: seq<Node>) returns (list: seq<Attr>)
      requires Valid() && parent == null && deleted.Capacity() > MAX_UINT8
      requires Visited(nodes, modified, deleted.Flags(), Nodes())
      modifies deleted
      ensures Agrees(list, nodes)
      ensures if HasNewType(nodes, pathAttrs) then SortedTypes(list) else list == InRootOrder(nodes, pathAttrs)
    {
      ParentNodes();
      assert chain[0] == this && WellTyped(Node(pathAttrs, dels));
      forall t ensures Lookup([Node(pathAttrs, dels)], t) == if t in dels then None else FindAttr(pathAttrs, t) {
        assert [Node(pathAttrs, dels)][1..] == [];
      }
      FlagAll(deleted, dels);
      var left;
      list, left := CollectRoot(deleted, modified, pathAttrs, nodes);
      list := Finish(list, left, nodes, pathAttrs);
    }

    /** Reads all attributes in one walk. They agree, type by type, with reading them singly. They
        come in the root's order unless a type is new to the root, in which case they are sorted. */
    method GetPathAttrs() returns (list: seq<Attr>)
      requires Valid()
      ensures Agrees(list, Nodes())
      ensures if HasNewType(Nodes(), RootAttrs()) then SortedTypes(list) else list == InRootOrder(Nodes(), RootAttrs())
    {
      var deleted := new Bitmap(MAX_UINT8);
      var p, modified := WalkUp(deleted);
      list := p.VisitRoot(deleted, modified, Nodes());
    }

    /** Visits every path of the chain but the root. */
    method WalkUp(deleted: Bitmap) returns (p: OverlayPath, modified: map<nat, Attr>)
      requires Valid() && deleted.Capacity() > MAX_UINT8 && deleted.Flags() == {}
      modifies deleted
      ensures deleted.Capacity() == old(deleted.Capacity())
      ensures p.Valid() && p.parent == null && p.pathAttrs == RootAttrs()
      ensures Visited(Nodes(), modified, deleted.Flags(), p.Nodes())
    {
      ghost var nodes, root := Nodes(), RootAttrs();
      modified := map[];
      p := this;
      while p.parent != null
        invariant deleted.Capacity() == old(deleted.Capacity())
        invariant p.Valid() && p.RootAttrs() == root
        invariant Visited(nodes, modified, deleted.Flags(), p.Nodes())
        decreases |p.chain|
      {
        modified := p.Visit(deleted, modified, nodes);
        p.ParentNodes();
        p := p.parent;
      }
      p.ParentNodes();
    }

    /** Replaces the attribute of the same type on this path, or adds it. */
    method SetPathAttr(a: Attr)
      requires Valid() && a.typ <= MAX_UINT8
      modifies this`pathAttrs
      ensures Valid()
      ensures Nodes() == old(Nodes())[0 := Node(SetIn(old(pathAttrs), a), dels)]
      ensures parent != null ==> parent.Nodes() == old(parent.Nodes())
    {
      OnlyHead();
      var at := |pathAttrs|;
      for i := 0 to |pathAttrs|
        invariant pathAttrs == old(pathAttrs) && at == |pathAttrs|
        invariant forall j :: 0 <= j < i ==> pathAttrs[j].typ != a.typ
      {
        if a.typ == pathAttrs[i].typ {
          at := i;
          break;
        }
      }
      SetInAt(pathAttrs, a, at);
      if at < |pathAttrs| {
        pathAttrs := pathAttrs[at := a];
      } else {
        pathAttrs := pathAttrs + [a];
      }
    }

    method DelPathAttr(typ: nat)
      requires Valid() && typ <= MAX_UINT8
      modifies this`dels
      ensures Valid()
      ensures Nodes() == old(Nodes())[0 := Node(pathAttrs, old(dels) + [typ])]
      ensures parent != null ==> parent.Nodes() == old(parent.Nodes())
    {
      OnlyHead();
      dels := dels + [typ];
    }

    /** This path is the first node of its chain and no other. */
    lemma OnlyHead()
      requires Linked()
      ensures chain[0] == this && forall i :: 0 < i < |chain| ==> chain[i] != this
      ensures parent != null ==> this !in parent.chain && parent.chain == chain[1..]
    {
      if parent != null {
        NotItsOwnAncestor(parent);
      }
    }

    // ----- The AS path of this path

    /** The AS path attribute as read from this path, or none. */
    ghost function CurrentAsPath(): Option<AsPath>
      requires Linked()
      reads chain
    {
      AsPathIn(Nodes())
    }

    method GetAsPath() returns (r: Option<AsPath>)
      requires Valid()
      ensures r == CurrentAsPath()
    {
      var a := GetPathAttr(ATTR_TYPE_AS_PATH);
      r := if a.Some? && a.value.value.AsPathValue? then Some(a.value.value.path) else None;
    }

    method SetAsPath(path: AsPath)
      requires Valid()
      modifies this`pathAttrs
      ensures Valid()
      ensures Nodes() == old(Nodes())[0 :=
        Node(SetIn(old(pathAttrs), Attr(ATTR_TYPE_AS_PATH, AsPathValue(path))), dels)]
      ensures parent != null ==> parent.Nodes() == old(parent.Nodes())
      ensures CurrentAsPath() == if ATTR_TYPE_AS_PATH in dels then None else Some(path)
    {
      ghost var nodes := Nodes();
      ParentNodes();
      SetThenLookup(nodes, Attr(ATTR_TYPE_AS_PATH, AsPathValue(path)), ATTR_TYPE_AS_PATH);
      SetPathAttr(Attr(ATTR_TYPE_AS_PATH, AsPathValue(path)));
    }

    method PrependAsn(asn: nat, repeat: nat, confed: bool)
      requires Valid() && repeat <= MAX_UINT8
      requires CurrentAsPath().Some? ==> SegmentsFit(CurrentAsPath().value)
      modifies this`pathAttrs
      ensures Valid()
      ensures var path := if old(CurrentAsPath()).Some? then old(CurrentAsPath()).value else [];
              Nodes() == old(Nodes())[0 := Node(SetIn(old(pathAttrs),
                Attr(ATTR_TYPE_AS_PATH, AsPathValue(Prepended(path, asn, repeat, confed)))), dels)] &&
              CurrentAsPath() ==
                if ATTR_TYPE_AS_PATH in dels then None else Some(Prepended(path, asn, repeat, confed))
      ensures parent != null ==> parent.Nodes() == old(parent.Nodes())
    {
      var asPath := PrependedAsPath(asn, repeat, confed);
      SetAsPath(asPath);
    }

    method PrependedAsPath(asn: nat, repeat: nat, confed: bool) returns (asPath: AsPath)
      requires Valid() && repeat <= MAX_UINT8
      requires CurrentAsPath().Some? ==> SegmentsFit(CurrentAsPath().value)
      ensures Valid() && Nodes() == old(Nodes()) && (parent != null ==> parent.Nodes() == old(parent.Nodes()))
      ensures asPath == Prepended(if CurrentAsPath().Some? then CurrentAsPath().value else [], asn, repeat, confed)
    {
      var original := GetAsPath();
      asPath := PrependTo(if original.Some? then original.value else [], asn, repeat, confed);
      assert Valid() == old(Valid()) && Nodes() == old(Nodes());
    }

    /** Takes the confederation segments out of the AS path, if there is one. */
    method RemoveConfedAs()
      requires Valid()
      modifies this`pathAttrs
      ensures Valid() && (parent != null ==> parent.Nodes() == old(parent.Nodes()))
      ensures CurrentAsPath() ==
        if old(CurrentAsPath()).Some? then Some(WithoutConfed(old(CurrentAsPath()).value)) else None
    {
      var original := GetAsPath();
      if original == None {
        return;
      }
      var newAsParams := [];
      for i := 0 to |original.value|
        invariant newAsParams == WithoutConfed(original.value[..i])
      {
        assert original.value[..i + 1][..i] == original.value[..i];
        if original.value[i].typ == AsSequence || original.value[i].typ == AsSet {
          newAsParams := newAsParams + [original.value[i]];
        }
      }
      assert original.value[..|original.value|] == original.value;
      SetAsPath(newAsParams);
    }

    /** Takes private ASes out of the AS path, or puts `localAs` in their place, as `option` says. */
    method RemovePrivateAs(localAs: nat, option: PrivateOption)
      requires Valid()
      modifies this`pathAttrs
      ensures Valid() && (parent != null ==> parent.Nodes() == old(parent.Nodes()))
      ensures CurrentAsPath() ==
        if old(CurrentAsPath()).Some? then Some(WithoutPrivate(old(CurrentAsPath()).value, localAs, option)) else None
    {
      var original := GetAsPath();
      if original == None || option == NoPrivateOption {
        return;
      }
      var newAsParams := RewriteSegments(original.value, localAs, option);
      assert Valid() == old(Valid()) && Nodes() == old(Nodes());
      SetAsPath(newAsParams);
    }

    /** What happens to the AS path on the way to a neighbour in another AS. */
    method ExportAsPath(localAs: nat, option: PrivateOption, confed: bool)
      requires Valid()
      requires CurrentAsPath().Some? ==> SegmentsFit(CurrentAsPath().value)
      modifies this`pathAttrs
      ensures Valid() && (parent != null ==> parent.Nodes() == old(parent.Nodes()))
      ensures var path := if old(CurrentAsPath()).Some? then old(CurrentAsPath()).value else [];
              CurrentAsPath() == if ATTR_TYPE_AS_PATH in dels then None
                                 else Some(Exported(WithoutPrivate(path, localAs, option), localAs, confed))
    {
      RemovePrivateAs(localAs, option);
      AddLocalAs(localAs, confed);
    }

    method AddLocalAs(localAs: nat, confed: bool)
      requires Valid()
      requires CurrentAsPath().Some? ==> SegmentsFit(CurrentAsPath().value)
      modifies this`pathAttrs
      ensures Valid() && (parent != null ==> parent.Nodes() == old(parent.Nodes()))
      ensures var path := if old(CurrentAsPath()).Some? then old(CurrentAsPath()).value else [];
              CurrentAsPath() == if ATTR_TYPE_AS_PATH in dels then None else Some(Exported(path, localAs, confed))
    {
      PrependAsn(localAs, 1, confed);
      if !confed {
        RemoveConfedAs();
      }
    }

    /** Prepends `asn` the given number of times. The slice that holds the copies has capacity for
        exactly that many; appending the first segment to a part of it writes into the rest of it
        whenever everything fits. */
    method PrependTo(path: AsPath, asn: nat, repeat: nat, confed: bool) returns (asPath: AsPath)
      requires SegmentsFit(path) && repeat <= MAX_UINT8
      ensures asPath == Prepended(path, asn, repeat, confed)
    {
      var segType := if confed then ConfedSequence else AsSequence;
      var asns := NewCopies(asn, repeat);
      asPath := path;
      var from := 0;
      if |asPath| > 0 && asPath[0].typ == segType {
        var newAsList;
        from, newAsList := FillFirst(asns, asn, asPath[0].asns);
        asPath := asPath[0 := Segment(segType, newAsList)];
        PrependedToFirst(path, asn, repeat, confed, from, asns[from..]);
      }
      if asns.Length - from > 0 {
        asPath := [Segment(segType, asns[from..])] + asPath;
      }
    }

    method NewCopies(asn: nat, n: nat) returns (asns: array<nat>)
      ensures fresh(asns) && asns[..] == Copies(asn, n) && asns[0..] == asns[..]
    {
      asns := new nat[n];
      for i := 0 to n
        invariant forall j :: 0 <= j < i ==> asns[j] == asn
      {
        asns[i] := asn;
      }
      CopiesAre(asn, n, asns[..]);
    }

    /** Puts as many of the copies as fit in front of the first segment's list. */
    method FillFirst(asns: array<nat>, asn: nat, asList: seq<nat>) returns (count: nat, newAsList: seq<nat>)
      requires |asList| <= 255 && asns.Length <= 255 && asns[..] == Copies(asn, asns.Length)
      modifies asns
      ensures count == if asns.Length + |asList| > 255 then 255 - |asList| else asns.Length
      ensures newAsList == Copies(asn, count) + asList
      ensures asns[count..] == if asns.Length == 255 && 255 > count then asList else Copies(asn, asns.Length - count)
    {
      var repeat := asns.Length;
      count := if repeat + |asList| > 255 then 255 - |asList| else repeat;
      assert asns[..count] == asns[..][..count] && asns[count..] == asns[..][count..];
      CopiesAre(asn, count, asns[..count]);
      CopiesAre(asn, repeat - count, asns[count..]);
      newAsList := AppendToSlice(asns, count, asList);
    }

    /** Appending to the first `count` elements of a slice whose capacity is the array's length:
        in place when the result fits, in a new array otherwise. */
    method AppendToSlice(a: array<nat>, count: nat, more: seq<nat>) returns (r: seq<nat>)
      requires count <= a.Length
      modifies a
      ensures r == old(a[..count]) + more
      ensures a[..] ==
        if count + |more| <= a.Length then old(a[..count]) + more + old(a[count + |more|..]) else old(a[..])
    {
      if count + |more| <= a.Length {
        for i := 0 to |more|
          invariant a[..count] == old(a[..count]) && a[count..count + i] == more[..i]
          invariant a[count + i..] == old(a[count + i..])
        {
          a[count + i] := more[i];
          assert a[count..count + i + 1] == a[count..count + i] + [more[i]];
          assert a[count + i + 1..] == old(a[count + i..])[1..];
        }
        r := a[..count + |more|];
        assert a[..] == a[..count] + a[count..count + |more|] + a[count + |more|..];
      } else {
        r := a[..count] + more;
      }
    }
  }

  function AsPathIn(nodes: seq<Node>): Option<AsPath> {
    var a := Lookup(nodes, ATTR_TYPE_AS_PATH);
    if a.Some? && a.value.value.AsPathValue? then Some(a.value.value.path) else None
  }

  // ----- What prepending means

  function Copies(asn: nat, n: nat): (r: seq<nat>)
    ensures |r| == n && forall i :: 0 <= i < n ==> r[i] == asn
  {
    seq(n, _ => asn)
  }

  lemma CopiesAre(asn: nat, n: nat, s: seq<nat>)
    requires |s| == n && forall i :: 0 <= i < n ==> s[i] == asn
    ensures s == Copies(asn, n)
  {
  }

  /** The AS path after a prepend. When 255 copies are asked for, the array of copies is filled up
      by the first segment, and what is left of it is that segment instead of copies. */
  function Prepended(path: AsPath, asn: nat, repeat: nat, confed: bool): AsPath
    requires SegmentsFit(path) && repeat <= MAX_UINT8
  {
    var segType := if confed then ConfedSequence else AsSequence;
    if path != [] && path[0].typ == segType then
      var count := CountInFirst(path, repeat);
      var first := Segment(segType, Copies(asn, count) + path[0].asns);
      (if repeat > count then [Segment(segType, LeftOver(path, asn, repeat))] else []) + [first] + path[1..]
    else (if repeat > 0 then [Segment(segType, Copies(asn, repeat))] else []) + path
  }

  lemma PrependedToFirst(path: AsPath, asn: nat, repeat: nat, confed: bool, count: nat, left: seq<nat>)
    requires SegmentsFit(path) && repeat <= MAX_UINT8 && path != []
    requires path[0].typ == (if confed then ConfedSequence else AsSequence)
    requires count == (if repeat + |path[0].asns| > 255 then 255 - |path[0].asns| else repeat)
    requires left == if repeat == 255 && 255 > count then path[0].asns else Copies(asn, repeat - count)
    ensures var t := path[0].typ;
            var filled := path[0 := Segment(t, Copies(asn, count) + path[0].asns)];
            Prepended(path, asn, repeat, confed) == if left != [] then [Segment(t, left)] + filled else filled
  {
    var t := path[0].typ;
    var first := Segment(t, Copies(asn, count) + path[0].asns);
    assert path[0 := first] == [first] + path[1..];
    assert [] + ([first] + path[1..]) == [first] + path[1..];
    ConcatAssociates([Segment(t, left)], [first], path[1..]);
  }

  // ----- Private ASes

  datatype PrivateOption = NoPrivateOption | RemoveAll | ReplaceByLocal

  predicate IsPrivate(asn: nat) {
    64512 <= asn <= 65534 || 4200000000 <= asn <= 4294967294
  }

  /** The ASes of a segment without the private ones, or with `localAs` in their place. */
  function Rewritten(asns: seq<nat>, localAs: nat, option: PrivateOption): (r: seq<nat>)
    ensures |r| <= |asns|
  {
    if asns == [] then []
    else
      var n := |asns| - 1;
      Rewritten(asns[..n], localAs, option) +
      if option == NoPrivateOption || !IsPrivate(asns[n]) then [asns[n]]
      else if option == ReplaceByLocal then [localAs]
      else []
  }

  /** Segments that become empty go, unless the option is off. */
  function WithoutPrivate(path: AsPath, localAs: nat, option: PrivateOption): (r: AsPath)
    ensures SegmentsFit(path) ==> SegmentsFit(r)
    ensures option == NoPrivateOption ==> r == path
  {
    if option == NoPrivateOption then path
    else if path == [] then []
    else
      var n := |path| - 1;
      var asns := Rewritten(path[n].asns, localAs, option);
      WithoutPrivate(path[..n], localAs, option) + if asns == [] then [] else [Segment(path[n].typ, asns)]
  }

  lemma {:induction false} RewrittenConcat(a: seq<nat>, b: seq<nat>, localAs: nat, option: PrivateOption)
    ensures Rewritten(a + b, localAs, option) == Rewritten(a, localAs, option) + Rewritten(b, localAs, option)
  {
    if b == [] {
      assert a + b == a;
    } else {
      var n := |b| - 1;
      assert (a + b)[..|a| + n] == a + b[..n];
      RewrittenConcat(a, b[..n], localAs, option);
    }
  }

  /** The ASes of the whole path are rewritten alike, in order, across segments of any type. */
  lemma {:induction false} PrivateAsesRewritten(path: AsPath, localAs: nat, option: PrivateOption)
    requires option != NoPrivateOption
    ensures Flatten(WithoutPrivate(path, localAs, option)) == Rewritten(Flatten(path), localAs, option)
  {
    if path != [] {
      var n := |path| - 1;
      var front, asns := WithoutPrivate(path[..n], localAs, option), Rewritten(path[n].asns, localAs, option);
      PrivateAsesRewritten(path[..n], localAs, option);
      assert path == path[..n] + [path[n]];
      FlattenConcat(path[..n], [path[n]]);
      FlattenOne(path[n]);
      RewrittenConcat(Flatten(path[..n]), path[n].asns, localAs, option);
      assert Rewritten(Flatten(path), localAs, option) == Flatten(front) + asns;
      if asns == [] {
        assert WithoutPrivate(path, localAs, option) == front + [] == front;
      } else {
        FlattenConcat(front, [Segment(path[n].typ, asns)]);
        FlattenOne(Segment(path[n].typ, asns));
      }
    }
  }

  /** No private AS is left unless it is the local one that replaces others. */
  lemma {:induction false} NoPrivateLeft(asns: seq<nat>, localAs: nat, option: PrivateOption)
    requires option != NoPrivateOption
    ensures forall a :: a in Rewritten(asns, localAs, option) && IsPrivate(a) ==>
              option == ReplaceByLocal && a == localAs
    ensures forall a :: a in asns && !IsPrivate(a) ==> a in Rewritten(asns, localAs, option)
  {
    if asns != [] {
      NoPrivateLeft(asns[..|asns| - 1], localAs, option);
    }
  }

  /** The rewriting loop over the segments. */
  method RewriteSegments(path: AsPath, localAs: nat, option: PrivateOption) returns (r: AsPath)
    requires option != NoPrivateOption
    ensures r == WithoutPrivate(path, localAs, option)
  {
    r := [];
    for i := 0 to |path|
      invariant r == WithoutPrivate(path[..i], localAs, option)
    {
      assert path[..i + 1][..i] == path[..i];
      var newAsParam := RewritePrivate(path[i].asns, localAs, option);
      if |newAsParam| > 0 {
        r := r + [Segment(path[i].typ, newAsParam)];
      }
    }
    assert path[..|path|] == path;
  }

  /** The rewriting loop over one segment. */
  method RewritePrivate(asns: seq<nat>, localAs: nat, option: PrivateOption) returns (r: seq<nat>)
    requires option != NoPrivateOption
    ensures r == Rewritten(asns, localAs, option)
  {
    r := [];
    for i := 0 to |asns|
      invariant r == Rewritten(asns[..i], localAs, option)
    {
      assert asns[..i + 1][..i] == asns[..i];
      if !IsPrivate(asns[i]) {
        r := r + [asns[i]];
      } else if option == ReplaceByLocal {
        r := r + [localAs];
      }
    }
    assert asns[..|asns|] == asns;
  }

  /** The AS path sent to a neighbour in another AS. */
  function Exported(path: AsPath, localAs: nat, confed: bool): AsPath
    requires SegmentsFit(path)
  {
    var p := Prepended(path, localAs, 1, confed);
    if confed then p else WithoutConfed(p)
  }

  /** 255 copies are put in front of a sequence that contains some other AS. */
  predicate Overwritten(path: AsPath, asn: nat, repeat: nat, confed: bool) {
    && repeat == 255 && path != [] && path[0].typ == (if confed then ConfedSequence else AsSequence)
    && exists i :: 0 <= i < |path[0].asns| && path[0].asns[i] != asn
  }

  /** Prepending yields `repeat` copies of `asn` followed by the old ASes, with segments of at most
      255, if and only if it is not 255 copies in front of a sequence with some other AS. */
  lemma PrependIsExact(path: AsPath, asn: nat, repeat: nat, confed: bool)
    requires SegmentsFit(path) && repeat <= MAX_UINT8
    ensures var r := Prepended(path, asn, repeat, confed);
            && SegmentsFit(r)
            && (Flatten(r) == Copies(asn, repeat) + Flatten(path) <==> !Overwritten(path, asn, repeat, confed))
  {
    var segType := if confed then ConfedSequence else AsSequence;
    if path != [] && path[0].typ == segType {
      FlattenPrepended(path, asn, repeat, confed);
      FlattenIs(path, asn, repeat, CountInFirst(path, repeat), LeftOver(path, asn, repeat),
                Flatten(Prepended(path, asn, repeat, confed)));
    } else if repeat > 0 {
      FlattenConcat([Segment(segType, Copies(asn, repeat))], path);
      FlattenOne(Segment(segType, Copies(asn, repeat)));
    } else {
      assert [] + path == path && Copies(asn, 0) + Flatten(path) == Flatten(path);
    }
  }

  function CountInFirst(path: AsPath, repeat: nat): (n: nat)
    requires path != [] && SegmentsFit(path) && repeat <= MAX_UINT8
    ensures n <= repeat
  {
    if repeat + |path[0].asns| > 255 then 255 - |path[0].asns| else repeat
  }

  function LeftOver(path: AsPath, asn: nat, repeat: nat): (r: seq<nat>)
    requires path != [] && SegmentsFit(path) && repeat <= MAX_UINT8
    ensures |r| == repeat - CountInFirst(path, repeat)
  {
    if repeat == 255 then path[0].asns else Copies(asn, repeat - CountInFirst(path, repeat))
  }

  lemma FlattenPrepended(path: AsPath, asn: nat, repeat: nat, confed: bool)
    requires path != [] && SegmentsFit(path) && repeat <= MAX_UINT8
    requires path[0].typ == if confed then ConfedSequence else AsSequence
    ensures var r := Prepended(path, asn, repeat, confed);
            && SegmentsFit(r)
            && Flatten(r) == LeftOver(path, asn, repeat) +
                 (Copies(asn, CountInFirst(path, repeat)) + path[0].asns + Flatten(path[1..]))
  {
    var segType := if confed then ConfedSequence else AsSequence;
    var first := Segment(segType, Copies(asn, CountInFirst(path, repeat)) + path[0].asns);
    var left := Segment(segType, LeftOver(path, asn, repeat));
    var tail := [first] + path[1..];
    FlattenConcat([first], path[1..]);
    FlattenOne(first);
    if repeat > CountInFirst(path, repeat) {
      FlattenConcat([left], tail);
      FlattenOne(left);
      assert Prepended(path, asn, repeat, confed) == [left] + tail;
    } else {
      assert Prepended(path, asn, repeat, confed) == tail;
      assert [] + Flatten(tail) == Flatten(tail);
    }
  }

  lemma FlattenOne(s: Segment)
    ensures Flatten([s]) == s.asns
  {
    assert [s][1..] == [];
  }

  lemma CopiesInFront(asn: nat, left: seq<nat>, tail: seq<nat>)
    ensures left + tail == Copies(asn, |left|) + tail <==> forall i :: 0 <= i < |left| ==> left[i] == asn
  {
    if left + tail == Copies(asn, |left|) + tail {
      forall i | 0 <= i < |left| ensures left[i] == asn {
        assert left[i] == (left + tail)[i] == (Copies(asn, |left|) + tail)[i];
      }
    } else {
      assert left != Copies(asn, |left|);
    }
  }

  lemma FlattenIs(path: AsPath, asn: nat, repeat: nat, count: nat, left: seq<nat>, f: seq<nat>)
    requires path != [] && count <= repeat && |left| == repeat - count
    requires f == left + (Copies(asn, count) + path[0].asns + Flatten(path[1..]))
    ensures f == Copies(asn, repeat) + Flatten(path) <==> forall i :: 0 <= i < |left| ==> left[i] == asn
  {
    var c, rest := Copies(asn, count), Flatten(path[1..]);
    CopiesInFront(asn, left, c + path[0].asns + rest);
    assert Copies(asn, repeat) == Copies(asn, repeat - count) + c;
    ConcatAssociates(c, path[0].asns, rest);
    ConcatAssociates(Copies(asn, repeat - count), c, path[0].asns + rest);
  }
}
