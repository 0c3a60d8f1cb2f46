// Grouping Redis keys on ":" (src/components/redis/keyspace-browser.tsx): a mutable
// prefix tree with counters, and its depth-first flattening into rows.
module KeyTree {
  import opened Common
  import opened Text
  import Sorting

  datatype KeyMeta = KeyMeta(key: string, valueType: string, ttlMs: int)

  datatype Leaf = Leaf(name: string, meta: KeyMeta)

  // A path in the tree: the labels from the root.
  type Path = seq<string>

  datatype Row =
    | FolderRow(path: string, name: string, depth: nat, count: nat, expanded: bool)
    | KeyRow(name: string, depth: nat, meta: KeyMeta)

  // `folders` is a JavaScript Map, which lists its entries in the order they were
  // added: `labels` is that order.
  class KeyTreeNode {
    const name: string
    const path: string
    var count: nat
    var labels: seq<string>
    var folders: map<string, KeyTreeNode>
    var keys: seq<Leaf>

    constructor (name: string, path: string)
      ensures Now() == Content(name, path, 0, [], map[], [])
    {
      this.name, this.path := name, path;
      count, labels, folders, keys := 0, [], map[], [];
    }

    ghost function Now(): Content
      reads this
    {
      Content(name, path, count, labels, folders, keys)
    }
  }

  // The fields of a node at one moment.
  datatype Content = Content(
    name: string, path: string, count: nat, labels: seq<string>, folders: map<string, KeyTreeNode>, keys: seq<Leaf>)

  // ----- what each node has to hold, as a function of the keys grouped so far ------------

  function Parts(m: KeyMeta): (parts: Path)
    ensures parts != []
  {
    Split(m.key, ':')
  }

  function LastOf(p: Path): string {
    if p == [] then "" else p[|p| - 1]
  }

  predicate Beneath(parts: Path, p: Path) {
    |p| < |parts| && parts[..|p|] == p
  }

  predicate DirectlyIn(parts: Path, p: Path) {
    |p| + 1 == |parts| && parts[..|p|] == p
  }

  // The keys beneath a path: how many, the next labels by first appearance, and the
  // ones directly in it.
  datatype Group = Group(count: nat, labels: seq<string>, keys: seq<Leaf>)

  const NOBODY := Group(0, [], [])

  function Joined(g: Group, m: KeyMeta, p: Path): Group {
    var parts := Parts(m);
    if !Beneath(parts, p) then g
    else if DirectlyIn(parts, p) then Group(g.count + 1, g.labels, g.keys + [Leaf(LastOf(parts), m)])
    else Group(g.count + 1, if parts[|p|] in g.labels then g.labels else g.labels + [parts[|p|]], g.keys)
  }

  function GroupOf(ks: seq<KeyMeta>, p: Path): Group {
    if ks == [] then NOBODY else Joined(GroupOf(ks[..|ks| - 1], p), ks[|ks| - 1], p)
  }

  // ----- the tree on the heap --------------------------------------------------------------

  type Nodes = map<Path, KeyTreeNode>

  ghost function Picture(nodes: Nodes): map<Path, Content>
    reads set p | p in nodes :: nodes[p]
  {
    map p | p in nodes :: nodes[p].Now()
  }

  ghost predicate Separate(nodes: Nodes) {
    forall p, q :: p in nodes && q in nodes && p != q ==> nodes[p] != nodes[q]
  }

  ghost predicate Right(c: Content, p: Path, count: nat, labels: seq<string>, keys: seq<Leaf>) {
    && c.name == LastOf(p) && c.path == Join(p, ":")
    && c.count == (if p == [] then 0 else count)
    && c.labels == labels
    && (forall l :: l in c.folders <==> l in labels)
    && c.keys == keys
  }

  ghost predicate Linked(nodes: Nodes, c: Content, p: Path, l: string) {
    l in c.folders && p + [l] in nodes && nodes[p + [l]] == c.folders[l]
  }

  ghost predicate Links(nodes: Nodes, c: Content, p: Path) {
    forall l {:trigger Linked(nodes, c, p, l)} :: l in c.folders ==> Linked(nodes, c, p, l)
  }

  ghost predicate Rooted(nodes: Nodes, pic: map<Path, Content>) {
    [] in nodes && Separate(nodes) && pic.Keys == nodes.Keys
  }

  // `nodes` says which node sits where, `pic` what it holds, `g` what it should hold.
  ghost predicate Groups(nodes: Nodes, pic: map<Path, Content>, g: Path -> Group) {
    && Rooted(nodes, pic)
    && forall p :: p in nodes ==>
         Right(pic[p], p, g(p).count, g(p).labels, g(p).keys) && Links(nodes, pic[p], p) && (p == [] || g(p).count > 0)
  }

  // ----- building -----------------------------------------------------------------------

  ghost predicate Coherent(g: Path -> Group) {
    && (forall p, l {:trigger g(p + [l])} :: g(p + [l]).count > 0 <==> l in g(p).labels)
    && (forall p {:trigger g(p)} :: g(p).count == 0 ==> g(p) == NOBODY)
  }

  // `g2` is `g` with one more key.
  ghost predicate OneMore(g: Path -> Group, g2: Path -> Group, m: KeyMeta) {
    forall p {:trigger g2(p)} :: g2(p) == Joined(g(p), m, p)
  }

  predicate OnWay(p: Path, parts: Path, depth: int) {
    |p| <= depth && |p| <= |parts| && parts[..|p|] == p
  }

  ghost function Upto(g: Path -> Group, g2: Path -> Group, parts: Path, p: Path, depth: int): Group {
    if OnWay(p, parts, depth) then g2(p) else g(p)
  }

  // `m` is on its way down: counted to depth `c`, its folders made to depth `f`.
  ghost predicate Descended(nodes: Nodes, pic: map<Path, Content>, g: Path -> Group, g2: Path -> Group, parts: Path,
                            c: nat, f: nat) {
    && Rooted(nodes, pic)
    && forall p :: p in nodes ==>
         && Right(pic[p], p, Upto(g, g2, parts, p, c).count, Upto(g, g2, parts, p, f - 1).labels, g(p).keys)
         && Links(nodes, pic[p], p)
         && (p == [] || Upto(g, g2, parts, p, f).count > 0)
  }

  lemma OneStepDown(p: Path, parts: Path, d: nat)
    requires d <= |parts|
    ensures OnWay(p, parts, d) <==> OnWay(p, parts, d - 1) || p == parts[..d]
  {
  }

  lemma FolderWasThere(nodes: Nodes, pic: map<Path, Content>, g: Path -> Group, g2: Path -> Group, m: KeyMeta,
                       parts: Path, i: nat)
    requires parts == Parts(m) && i + 1 < |parts| && OneMore(g, g2, m) && Descended(nodes, pic, g, g2, parts, i, i)
    requires parts[..i] in nodes && parts[i] in pic[parts[..i]].folders
    ensures Descended(nodes, pic, g, g2, parts, i, i + 1)
    ensures parts[..i + 1] in nodes && nodes[parts[..i + 1]] == pic[parts[..i]].folders[parts[i]]
  {
    TakeNext(parts, i);
    assert Linked(nodes, pic[parts[..i]], parts[..i], parts[i]);
    assert parts[i] in g(parts[..i]).labels;
    forall p | p in nodes
      ensures Upto(g, g2, parts, p, i).labels == Upto(g, g2, parts, p, i - 1).labels
      ensures p == [] || Upto(g, g2, parts, p, i + 1).count > 0
    {
      OneStepDown(p, parts, i);
      OneStepDown(p, parts, i + 1);
      assert g2(p) == Joined(g(p), m, p);
    }
  }

  function WithFolder(c: Content, l: string, child: KeyTreeNode): Content {
    c.(folders := c.folders[l := child], labels := c.labels + [l])
  }

  function Empty(p: Path): Content {
    Content(LastOf(p), Join(p, ":"), 0, [], map[], [])
  }

  lemma NewFolderIsRight(g: Path -> Group, g2: Path -> Group, m: KeyMeta, here: Path, l: string)
    requires OneMore(g, g2, m) && Coherent(g)
    requires l !in g(here).labels && |here| + 1 < |Parts(m)| && Parts(m)[..|here|] == here && Parts(m)[|here|] == l
    ensures var below := here + [l]; g(below) == NOBODY && g2(below).count > 0
    ensures g2(here).labels == g(here).labels + [l]
  {
    var below := here + [l];
    assert below == Parts(m)[..|below|];
    assert g2(below) == Joined(g(below), m, below);
    assert g2(here) == Joined(g(here), m, here);
  }

  lemma ContentsAfterAdding(nodes: Nodes, pic: map<Path, Content>, g: Path -> Group, g2: Path -> Group, parts: Path,
                            i: nat,
                            here: Path, l: string, child: KeyTreeNode, later: map<Path, Content>)
    requires i + 1 < |parts| && Descended(nodes, pic, g, g2, parts, i, i)
    requires here == parts[..i] && l == parts[i] && here in nodes && here + [l] !in nodes
    requires g(here + [l]) == NOBODY && g2(here + [l]).count > 0 && g2(here).labels == g(here).labels + [l]
    requires later == pic[here := WithFolder(pic[here], l, child)][here + [l] := Empty(here + [l])]
    ensures forall p :: p in later ==>
      && Right(later[p], p, Upto(g, g2, parts, p, i).count, Upto(g, g2, parts, p, i).labels, g(p).keys)
      && (p == [] || Upto(g, g2, parts, p, i + 1).count > 0)
  {
    assert here + [l] == parts[..i + 1];
    forall p | p in later
      ensures Right(later[p], p, Upto(g, g2, parts, p, i).count, Upto(g, g2, parts, p, i).labels, g(p).keys)
      ensures p == [] || Upto(g, g2, parts, p, i + 1).count > 0
    {
      OneStepDown(p, parts, i);
      OneStepDown(p, parts, i + 1);
    }
  }

  lemma RootedAfterAdding(nodes: Nodes, pic: map<Path, Content>, below: Path, child: KeyTreeNode, after: Nodes,
                          later: map<Path, Content>)
    requires Rooted(nodes, pic) && (forall p :: p in nodes ==> nodes[p] != child)
    requires after == nodes[below := child] && later.Keys == pic.Keys + {below}
    ensures Rooted(after, later)
  {
  }

  lemma FolderIsAdded(nodes: Nodes, pic: map<Path, Content>, g: Path -> Group, g2: Path -> Group, parts: Path, i: nat,
                      here: Path, l: string, child: KeyTreeNode, after: Nodes, later: map<Path, Content>)
    requires i + 1 < |parts| && Descended(nodes, pic, g, g2, parts, i, i)
    requires here == parts[..i] && l == parts[i] && here in nodes && here + [l] !in nodes
    requires g(here + [l]) == NOBODY && g2(here + [l]).count > 0 && g2(here).labels == g(here).labels + [l]
    requires forall p :: p in nodes ==> nodes[p] != child
    requires after == nodes[here + [l] := child]
    requires later == pic[here := WithFolder(pic[here], l, child)][here + [l] := Empty(here + [l])]
    ensures Descended(after, later, g, g2, parts, i, i + 1)
  {
    RootedAfterAdding(nodes, pic, here + [l], child, after, later);
    ContentsAfterAdding(nodes, pic, g, g2, parts, i, here, l, child, later);
    LinksAfterAdding(nodes, pic, here, l, child, after, later);
  }

  lemma LinksAfterAdding(nodes: Nodes, pic: map<Path, Content>, here: Path, l: string, child: KeyTreeNode,
                         after: Nodes, later: map<Path, Content>)
    requires pic.Keys == nodes.Keys && here in nodes && here + [l] !in nodes
    requires forall p :: p in nodes ==> Links(nodes, pic[p], p)
    requires after == nodes[here + [l] := child]
    requires later == pic[here := WithFolder(pic[here], l, child)][here + [l] := Empty(here + [l])]
    ensures forall p :: p in after ==> Links(after, later[p], p)
  {
    forall p, k | p in after && k in later[p].folders
      ensures Linked(after, later[p], p, k)
    {
      if p != here + [l] && !(p == here && k == l) {
        assert Linked(nodes, pic[p], p, k);
      }
    }
  }

  method Attach(ghost nodes: Nodes, ghost here: Path, node: KeyTreeNode, l: string, child: KeyTreeNode)
    requires Separate(nodes) && here in nodes && nodes[here] == node
    modifies node
    ensures var pic := old(Picture(nodes)); Picture(nodes) == pic[here := WithFolder(pic[here], l, child)]
  {
    Link(nodes, here, node, l, child);
    Name(nodes, here, node, l);
  }

  method Link(ghost nodes: Nodes, ghost here: Path, node: KeyTreeNode, l: string, child: KeyTreeNode)
    requires Separate(nodes) && here in nodes && nodes[here] == node
    modifies node`folders
    ensures var pic := old(Picture(nodes));
      Picture(nodes) == pic[here := pic[here].(folders := pic[here].folders[l := child])]
  {
    node.folders := node.folders[l := child];
  }

  method Name(ghost nodes: Nodes, ghost here: Path, node: KeyTreeNode, l: string)
    requires Separate(nodes) && here in nodes && nodes[here] == node
    modifies node`labels
    ensures var pic := old(Picture(nodes));
      Picture(nodes) == pic[here := pic[here].(labels := pic[here].labels + [l])]
  {
    node.labels := node.labels + [l];
  }

  lemma PictureWithOneMore(nodes: Nodes, below: Path, child: KeyTreeNode)
    requires below !in nodes
    ensures Picture(nodes[below := child]) == Picture(nodes)[below := child.Now()]
  {
  }

  method AddFolder(ghost nodes: Nodes, ghost here: Path, node: KeyTreeNode, l: string, path: string)
      returns (child: KeyTreeNode)
    requires Separate(nodes) && here in nodes && nodes[here] == node && here + [l] !in nodes &&
      path == Join(here + [l], ":")
    modifies node
    ensures fresh(child)
    ensures var pic := old(Picture(nodes));
      Picture(nodes[here + [l] := child])
        == pic[here := WithFolder(pic[here], l, child)][here + [l] := Empty(here + [l])]
  {
    child := new KeyTreeNode(l, path);
    Attach(nodes, here, node, l, child);
    PictureWithOneMore(nodes, here + [l], child);
  }

  method OpenFolder(ghost root: KeyTreeNode, ghost nodes: Nodes, ghost g: Path -> Group, ghost g2: Path -> Group,
                    m: KeyMeta, parts: Path, i: nat, node: KeyTreeNode)
    returns (child: KeyTreeNode, ghost after: Nodes)
    requires parts == Parts(m) && i + 1 < |parts| && OneMore(g, g2, m) && Coherent(g)
    requires Descended(nodes, Picture(nodes), g, g2, parts, i, i)
    requires parts[..i] in nodes && nodes[parts[..i]] == node && nodes[[]] == root
    modifies node
    ensures Descended(after, Picture(after), g, g2, parts, i, i + 1) && after[[]] == root
    ensures parts[..i + 1] in after && after[parts[..i + 1]] == child
    ensures forall p :: p in after ==> fresh(after[p]) || (p in nodes && after[p] == nodes[p])
  {
    var segment := parts[i];
    ghost var pic := Picture(nodes);
    if segment in node.folders {
      FolderWasThere(nodes, pic, g, g2, m, parts, i);
      child := node.folders[segment];
      after := nodes;
    } else {
      child, after := MakeFolder(nodes, g, g2, m, parts, i, node);
    }
  }

  method MakeFolder(ghost nodes: Nodes, ghost g: Path -> Group, ghost g2: Path -> Group, ghost m: KeyMeta, parts: Path,
                    i: nat, node: KeyTreeNode)
    returns (child: KeyTreeNode, ghost after: Nodes)
    requires parts == Parts(m) && i + 1 < |parts| && OneMore(g, g2, m) && Coherent(g)
    requires Descended(nodes, Picture(nodes), g, g2, parts, i, i)
    requires parts[..i] in nodes && nodes[parts[..i]] == node && parts[i] !in node.folders
    modifies node
    ensures Descended(after, Picture(after), g, g2, parts, i, i + 1)
    ensures fresh(child) && after == nodes[parts[..i + 1] := child]
  {
    ghost var here, pic := parts[..i], Picture(nodes);
    TakeNext(parts, i);
    MissingFolder(nodes, pic, g, g2, m, parts, i);
    child := AddFolder(nodes, here, node, parts[i], Join(parts[..i + 1], ":"));
    after := nodes[here + [parts[i]] := child];
    FolderIsAdded(nodes, pic, g, g2, parts, i, here, parts[i], child, after, Picture(after));
  }

  lemma MissingFolder(nodes: Nodes, pic: map<Path, Content>, g: Path -> Group, g2: Path -> Group, m: KeyMeta,
                      parts: Path, i: nat)
    requires parts == Parts(m) && i + 1 < |parts| && OneMore(g, g2, m) && Coherent(g)
    requires Descended(nodes, pic, g, g2, parts, i, i) && parts[..i] in nodes && parts[i] !in pic[parts[..i]].folders
    ensures var here, below := parts[..i], parts[..i] + [parts[i]];
      below !in nodes && g(below) == NOBODY && g2(below).count > 0 && g2(here).labels == g(here).labels + [parts[i]]
  {
    NewFolderIsRight(g, g2, m, parts[..i], parts[i]);
  }

  lemma FolderIsCounted(nodes: Nodes, pic: map<Path, Content>, g: Path -> Group, g2: Path -> Group, m: KeyMeta,
                        parts: Path, i: nat,
                        later: map<Path, Content>)
    requires parts == Parts(m) && i + 1 < |parts| && OneMore(g, g2, m)
    requires Descended(nodes, pic, g, g2, parts, i, i + 1) && parts[..i + 1] in nodes
    requires var below := parts[..i + 1]; later == pic[below := pic[below].(count := pic[below].count + 1)]
    ensures Descended(nodes, later, g, g2, parts, i + 1, i + 1)
  {
    assert g2(parts[..i + 1]) == Joined(g(parts[..i + 1]), m, parts[..i + 1]);
    forall p | p in nodes
      ensures Right(later[p], p, Upto(g, g2, parts, p, i + 1).count, Upto(g, g2, parts, p, i).labels, g(p).keys)
    {
      OneStepDown(p, parts, i + 1);
    }
    assert forall p :: p in nodes ==> later[p].folders == pic[p].folders;
    LinksDependOnFolders(nodes, pic, later);
  }

  lemma LinksDependOnFolders(nodes: Nodes, pic: map<Path, Content>, later: map<Path, Content>)
    requires pic.Keys == nodes.Keys == later.Keys
    requires forall p :: p in nodes ==> Links(nodes, pic[p], p) && later[p].folders == pic[p].folders
    ensures forall p :: p in nodes ==> Links(nodes, later[p], p)
  {
    forall p, k | p in nodes && k in later[p].folders
      ensures Linked(nodes, later[p], p, k)
    {
      assert Linked(nodes, pic[p], p, k);
    }
  }

  lemma KeyIsStored(nodes: Nodes, pic: map<Path, Content>, g: Path -> Group, g2: Path -> Group, m: KeyMeta, parts: Path,
                    later: map<Path, Content>)
    requires parts == Parts(m) && OneMore(g, g2, m)
    requires var home := parts[..|parts| - 1];
      && home in nodes && Descended(nodes, pic, g, g2, parts, |parts| - 1, |parts| - 1)
      && later == pic[home := pic[home].(keys := pic[home].keys + [Leaf(LastOf(parts), m)])]
    ensures Groups(nodes, later, g2)
  {
    var home := parts[..|parts| - 1];
    forall p | p in nodes
      ensures Right(later[p], p, g2(p).count, g2(p).labels, g2(p).keys)
      ensures p == [] || g2(p).count > 0
    {
      assert g2(p) == Joined(g(p), m, p);
      OneStepDown(p, parts, |parts| - 1);
    }
    LinksDependOnFolders(nodes, pic, later);
  }

  ghost function Grouping(ks: seq<KeyMeta>): Path -> Group {
    p => GroupOf(ks, p)
  }

  lemma {:induction false} LabelledIsCounted(ks: seq<KeyMeta>, p: Path, l: string)
    ensures GroupOf(ks, p + [l]).count > 0 <==> l in GroupOf(ks, p).labels
    ensures GroupOf(ks, p).count == 0 ==> GroupOf(ks, p) == NOBODY
  {
    if ks != [] {
      var parts := Parts(ks[|ks| - 1]);
      LabelledIsCounted(ks[..|ks| - 1], p, l);
      if Beneath(parts, p + [l]) {
        assert parts[..|p|] == (p + [l])[..|p|] == p && parts[|p|] == l;
      } else if Beneath(parts, p) && !DirectlyIn(parts, p) {
        assert parts[..|p| + 1] == p + [parts[|p|]];
      }
    }
  }

  lemma GroupingIsCoherent(ks: seq<KeyMeta>)
    ensures Coherent(Grouping(ks))
  {
    forall p, l
      ensures Grouping(ks)(p + [l]).count > 0 <==> l in Grouping(ks)(p).labels
    {
      LabelledIsCounted(ks, p, l);
    }
    forall p
      ensures Grouping(ks)(p).count == 0 ==> Grouping(ks)(p) == NOBODY
    {
      LabelledIsCounted(ks, p, "");
    }
  }

  lemma GroupingOneMore(ks: seq<KeyMeta>, m: KeyMeta)
    ensures OneMore(Grouping(ks), Grouping(ks + [m]), m)
  {
    var all := ks + [m];
    assert all[..|all| - 1] == ks && all[|all| - 1] == m;
  }

  lemma StartsDescent(nodes: Nodes, pic: map<Path, Content>, g: Path -> Group, g2: Path -> Group, m: KeyMeta)
    requires Groups(nodes, pic, g) && OneMore(g, g2, m)
    ensures Descended(nodes, pic, g, g2, Parts(m), 0, 0)
  {
    forall p | p in nodes
      ensures Right(pic[p], p, Upto(g, g2, Parts(m), p, 0).count, Upto(g, g2, Parts(m), p, -1).labels, g(p).keys)
      ensures p == [] || Upto(g, g2, Parts(m), p, 0).count > 0
    {
    }
  }

  method CountIn(ghost nodes: Nodes, ghost p: Path, node: KeyTreeNode)
    requires Separate(nodes) && p in nodes && nodes[p] == node
    modifies node`count
    ensures var pic := old(Picture(nodes)); Picture(nodes) == pic[p := pic[p].(count := pic[p].count + 1)]
  {
    node.count := node.count + 1;
  }

  method Store(ghost nodes: Nodes, ghost p: Path, node: KeyTreeNode, leaf: Leaf)
    requires Separate(nodes) && p in nodes && nodes[p] == node
    modifies node`keys
    ensures var pic := old(Picture(nodes)); Picture(nodes) == pic[p := pic[p].(keys := pic[p].keys + [leaf])]
  {
    node.keys := node.keys + [leaf];
  }

  // One key's way down from the root.
  method AddKey(root: KeyTreeNode, meta: KeyMeta, ghost before: Nodes, ghost g: Path -> Group,
                ghost g2: Path -> Group) returns (ghost nodes: Nodes)
    requires OneMore(g, g2, meta) && Coherent(g)
    requires Descended(before, Picture(before), g, g2, Parts(meta), 0, 0) && before[[]] == root
    modifies set p | p in before :: before[p]
    ensures Groups(nodes, Picture(nodes), g2) && nodes[[]] == root
    ensures forall p :: p in nodes ==> fresh(nodes[p]) || (p in before && nodes[p] == before[p])
  {
    var parts := Parts(meta);
    var node := root;
    nodes := before;
    for i := 0 to |parts| - 1
      invariant Descended(nodes, Picture(nodes), g, g2, parts, i, i)
      invariant parts[..i] in nodes && nodes[parts[..i]] == node && nodes[[]] == root
      invariant forall p :: p in nodes ==> fresh(nodes[p]) || (p in before && nodes[p] == before[p])
    {
      node, nodes := StepDown(root, nodes, g, g2, meta, parts, i, node);
    }
    StoreKey(nodes, g, g2, meta, parts, node);
  }

  // The body of the loop: the folder is found or made, and counts the key.
  method StepDown(ghost root: KeyTreeNode, ghost nodes: Nodes, ghost g: Path -> Group, ghost g2: Path -> Group,
                  m: KeyMeta, parts: Path, i: nat, node: KeyTreeNode)
    returns (child: KeyTreeNode, ghost after: Nodes)
    requires parts == Parts(m) && i + 1 < |parts| && OneMore(g, g2, m) && Coherent(g)
    requires Descended(nodes, Picture(nodes), g, g2, parts, i, i)
    requires parts[..i] in nodes && nodes[parts[..i]] == node && nodes[[]] == root
    modifies set p | p in nodes :: nodes[p]
    ensures Descended(after, Picture(after), g, g2, parts, i + 1, i + 1) && after[[]] == root
    ensures parts[..i + 1] in after && after[parts[..i + 1]] == child
    ensures forall p :: p in after ==> fresh(after[p]) || (p in nodes && after[p] == nodes[p])
  {
    child, after := OpenFolder(root, nodes, g, g2, m, parts, i, node);
    CountKey(after, g, g2, m, parts, i, child);
  }

  method CountKey(ghost nodes: Nodes, ghost g: Path -> Group, ghost g2: Path -> Group, ghost m: KeyMeta, parts: Path,
                  i: nat, node: KeyTreeNode)
    requires parts == Parts(m) && i + 1 < |parts| && OneMore(g, g2, m)
    requires Descended(nodes, Picture(nodes), g, g2, parts, i, i + 1)
    requires parts[..i + 1] in nodes && nodes[parts[..i + 1]] == node
    modifies node
    ensures Descended(nodes, Picture(nodes), g, g2, parts, i + 1, i + 1)
  {
    ghost var pic, below := Picture(nodes), parts[..i + 1];
    ghost var later := pic[below := pic[below].(count := pic[below].count + 1)];
    FolderIsCounted(nodes, pic, g, g2, m, parts, i, later);
    CountIn(nodes, below, node);
    assert Picture(nodes) == later;
  }

  method StoreKey(ghost nodes: Nodes, ghost g: Path -> Group, ghost g2: Path -> Group, m: KeyMeta, parts: Path,
                  node: KeyTreeNode)
    requires parts == Parts(m) && OneMore(g, g2, m)
    requires Descended(nodes, Picture(nodes), g, g2, parts, |parts| - 1, |parts| - 1)
    requires parts[..|parts| - 1] in nodes && nodes[parts[..|parts| - 1]] == node
    modifies node
    ensures Groups(nodes, Picture(nodes), g2)
  {
    ghost var pic, home := Picture(nodes), parts[..|parts| - 1];
    ghost var later := pic[home := pic[home].(keys := pic[home].keys + [Leaf(LastOf(parts), m)])];
    KeyIsStored(nodes, pic, g, g2, m, parts, later);
    Store(nodes, home, node, Leaf(parts[|parts| - 1], m));
    assert Picture(nodes) == later;
  }

  lemma ReadyForNext(nodes: Nodes, pic: map<Path, Content>, keys: seq<KeyMeta>, k: nat)
    requires k < |keys| && Groups(nodes, pic, Grouping(keys[..k]))
    ensures OneMore(Grouping(keys[..k]), Grouping(keys[..k + 1]), keys[k]) && Coherent(Grouping(keys[..k]))
    ensures Descended(nodes, pic, Grouping(keys[..k]), Grouping(keys[..k + 1]), Parts(keys[k]), 0, 0)
  {
    assert keys[..k + 1] == keys[..k] + [keys[k]];
    GroupingOneMore(keys[..k], keys[k]);
    GroupingIsCoherent(keys[..k]);
    StartsDescent(nodes, pic, Grouping(keys[..k]), Grouping(keys[..k + 1]), keys[k]);
  }

  method BuildTree(keys: seq<KeyMeta>) returns (root: KeyTreeNode, ghost nodes: Nodes)
    ensures Groups(nodes, Picture(nodes), Grouping(keys)) && nodes[[]] == root
    ensures forall p :: p in nodes ==> fresh(nodes[p])
  {
    root := new KeyTreeNode("", "");
    nodes := map[[] := root];
    for k := 0 to |keys|
      invariant Groups(nodes, Picture(nodes), Grouping(keys[..k])) && nodes[[]] == root
      invariant forall p :: p in nodes ==> fresh(nodes[p])
    {
      ReadyForNext(nodes, Picture(nodes), keys, k);
      nodes := AddKey(root, keys[k], nodes, Grouping(keys[..k]), Grouping(keys[..k + 1]));
    }
    assert keys[..|keys|] == keys;
  }

  // ----- flattening ---------------------------------------------------------------------

  function Height(ks: seq<KeyMeta>): nat {
    if ks == [] then 0
    else
      var below := Height(ks[..|ks| - 1]);
      var here := |Parts(ks[|ks| - 1])|;
      if here > below then here else below
  }

  lemma {:induction false} LabelsAreBounded(ks: seq<KeyMeta>, p: Path, l: string)
    requires l in GroupOf(ks, p).labels
    ensures |p| + 1 < Height(ks)
  {
    if ks != [] && l in GroupOf(ks[..|ks| - 1], p).labels {
      LabelsAreBounded(ks[..|ks| - 1], p, l);
    }
  }

  function FolderRowAt(ks: seq<KeyMeta>, q: Path, isOpen: (string, nat) -> bool): Row
    requires q != []
  {
    var path := Join(q, ":");
    FolderRow(path, LastOf(q), |q| - 1, GroupOf(ks, q).count, isOpen(path, |q| - 1))
  }

  function LeafRows(leaves: seq<Leaf>, depth: nat): seq<Row> {
    Map((leaf: Leaf) => KeyRow(leaf.name, depth, leaf.meta), leaves)
  }

  function SortedLeaves(leq: (string, string) -> bool, leaves: seq<Leaf>): seq<Leaf> {
    Sorting.Sort((a: Leaf, b: Leaf) => leq(a.name, b.name), leaves)
  }

  // The rows below `p`: its folders in order, each followed by its own rows when it is
  // open, then its keys in order.
  function Rows(ks: seq<KeyMeta>, p: Path, isOpen: (string, nat) -> bool, leq: (string, string) -> bool): seq<Row>
    decreases Height(ks) - |p|, 1, 0
  {
    var g := GroupOf(ks, p);
    FolderRows(ks, p, Sorting.Sort(leq, g.labels), isOpen, leq) + LeafRows(SortedLeaves(leq, g.keys), |p|)
  }

  // No folder lies deeper than the longest key, which is what ends the recursion.
  function FolderRows(ks: seq<KeyMeta>, p: Path, labels: seq<string>, isOpen: (string, nat) -> bool,
                      leq: (string, string) -> bool): seq<Row>
    decreases Height(ks) - |p|, 0, |labels|
  {
    if labels == [] || |p| + 1 >= Height(ks) then []
    else
      var q := p + [labels[0]];
      [FolderRowAt(ks, q, isOpen)]
      + (if isOpen(Join(q, ":"), |p|) then Rows(ks, q, isOpen, leq) else [])
      + FolderRows(ks, p, labels[1..], isOpen, leq)
  }

  lemma FolderAt(nodes: Nodes, pic: map<Path, Content>, ks: seq<KeyMeta>, p: Path, l: string)
    requires Groups(nodes, pic, Grouping(ks)) && p in nodes && l in pic[p].labels
    ensures l in pic[p].folders && l in GroupOf(ks, p).labels
    ensures var q := p + [l];
      && q in nodes && nodes[q] == pic[p].folders[l]
      && pic[q].name == l && pic[q].path == Join(q, ":") && pic[q].count == GroupOf(ks, q).count
  {
    assert Linked(nodes, pic[p], p, l);
    assert Right(pic[p + [l]], p + [l], Grouping(ks)(p + [l]).count, Grouping(ks)(p + [l]).labels,
      Grouping(ks)(p + [l]).keys);
  }

  ghost function Inner(ks: seq<KeyMeta>, q: Path, isOpen: (string, nat) -> bool,
                       leq: (string, string) -> bool): seq<Row>
    requires q != []
  {
    if isOpen(Join(q, ":"), |q| - 1) then Rows(ks, q, isOpen, leq) else []
  }

  ghost function Block(ks: seq<KeyMeta>, q: Path, isOpen: (string, nat) -> bool,
                       leq: (string, string) -> bool): seq<Row>
    requires q != []
  {
    [FolderRowAt(ks, q, isOpen)] + Inner(ks, q, isOpen, leq)
  }

  ghost function Blocks(ks: seq<KeyMeta>, p: Path, labels: seq<string>, isOpen: (string, nat) -> bool,
                        leq: (string, string) -> bool): seq<seq<Row>> {
    seq(|labels|, i requires 0 <= i < |labels| => Block(ks, p + [labels[i]], isOpen, leq))
  }

  lemma BlocksSplit(ks: seq<KeyMeta>, p: Path, labels: seq<string>, isOpen: (string, nat) -> bool,
                    leq: (string, string) -> bool)
    requires labels != []
    ensures Concat(Blocks(ks, p, labels, isOpen, leq))
         == Block(ks, p + [labels[0]], isOpen, leq) + Concat(Blocks(ks, p, labels[1..], isOpen, leq))
  {
    assert Blocks(ks, p, labels, isOpen, leq)[1..] == Blocks(ks, p, labels[1..], isOpen, leq);
  }

  // The folders' rows come in blocks, one for each label.
  lemma {:induction false} FolderRowsAreBlocks(ks: seq<KeyMeta>, p: Path, labels: seq<string>,
                                               isOpen: (string, nat) -> bool, leq: (string, string) -> bool)
    requires forall i :: 0 <= i < |labels| ==> labels[i] in GroupOf(ks, p).labels
    ensures FolderRows(ks, p, labels, isOpen, leq) == Concat(Blocks(ks, p, labels, isOpen, leq))
  {
    if labels != [] {
      LabelsAreBounded(ks, p, labels[0]);
      FolderRowsAreBlocks(ks, p, labels[1..], isOpen, leq);
      BlocksSplit(ks, p, labels, isOpen, leq);
    }
  }

  lemma FolderRowIs(nodes: Nodes, pic: map<Path, Content>, ks: seq<KeyMeta>, p: Path, l: string,
                    isOpen: (string, nat) -> bool)
    requires Groups(nodes, pic, Grouping(ks)) && p in nodes && l in pic[p].labels
    ensures var q := p + [l]; q in nodes && var c := pic[q];
      FolderRowAt(ks, q, isOpen) == FolderRow(c.path, c.name, |p|, c.count, isOpen(c.path, |p|))
  {
    FolderAt(nodes, pic, ks, p, l);
  }

  lemma Gather<T>(out: seq<T>, row: seq<T>, inner: seq<T>)
    ensures (out + row) + inner == out + (row + inner)
    ensures out + row == out + (row + [])
  {
  }

  // The body of the loop over the folders.
  method FlattenFolder(node: KeyTreeNode, name: string, depth: nat, isOpen: (string, nat) -> bool,
                       leq: (string, string) -> bool,
                       out: seq<Row>, ghost ks: seq<KeyMeta>, ghost nodes: Nodes, ghost p: Path)
    returns (rows: seq<Row>)
    requires Groups(nodes, Picture(nodes), Grouping(ks)) && p in nodes && nodes[p] == node && depth == |p|
    requires name in node.labels
    ensures name in GroupOf(ks, p).labels
    ensures var q := p + [name]; rows == out + ([FolderRowAt(ks, q, isOpen)] + Inner(ks, q, isOpen, leq))
    decreases Height(ks) - |p|, 0
  {
    ghost var q := p + [name];
    FolderAt(nodes, Picture(nodes), ks, p, name);
    FolderRowIs(nodes, Picture(nodes), ks, p, name, isOpen);
    LabelsAreBounded(ks, p, name);
    var folder := node.folders[name];
    var expanded := isOpen(folder.path, depth);
    var row := FolderRow(folder.path, folder.name, depth, folder.count, expanded);
    Gather(out, [row], Inner(ks, q, isOpen, leq));
    rows := out + [row];
    if expanded {
      rows := FlattenTree(folder, depth + 1, isOpen, leq, rows, ks, nodes, q);
    }
  }

  lemma RowsOfNode(nodes: Nodes, pic: map<Path, Content>, ks: seq<KeyMeta>, p: Path, isOpen: (string, nat) -> bool,
                   leq: (string, string) -> bool)
    requires Groups(nodes, pic, Grouping(ks)) && p in nodes
    ensures var labels := Sorting.Sort(leq, pic[p].labels);
      && Rows(ks, p, isOpen, leq) == Concat(Blocks(ks, p, labels, isOpen, leq))
        + LeafRows(SortedLeaves(leq, pic[p].keys), |p|)
      && forall i :: 0 <= i < |labels| ==> labels[i] in pic[p].labels
  {
    assert pic[p].labels == Grouping(ks)(p).labels;
    Sorting.SortLists(leq, pic[p].labels);
    FolderRowsAreBlocks(ks, p, Sorting.Sort(leq, pic[p].labels), isOpen, leq);
  }

  method FlattenTree(node: KeyTreeNode, depth: nat, isOpen: (string, nat) -> bool, leq: (string, string) -> bool,
                     out: seq<Row>,
                     ghost ks: seq<KeyMeta>, ghost nodes: Nodes, ghost p: Path)
    returns (rows: seq<Row>)
    requires Groups(nodes, Picture(nodes), Grouping(ks)) && p in nodes && nodes[p] == node && depth == |p|
    ensures rows == out + Rows(ks, p, isOpen, leq)
    decreases Height(ks) - |p|, 1
  {
    rows := out;
    var labels := Sorting.Sort(leq, node.labels);
    var leaves := LeafRows(SortedLeaves(leq, node.keys), depth);
    RowsOfNode(nodes, Picture(nodes), ks, p, isOpen, leq);
    ghost var blocks := Blocks(ks, p, labels, isOpen, leq);
    ConcatStarts(blocks, out);
    for i := 0 to |labels|
      invariant rows == out + Concat(blocks[..i])
    {
      rows := FlattenFolder(node, labels[i], depth, isOpen, leq, rows, ks, nodes, p);
      ConcatStep(blocks, i, out);
    }
    ConcatEnds(blocks, out, leaves);
    rows := rows + leaves;
  }
}
