// What the flattened key tree shows: exactly the keys whose folders are all open,
// each once; one row per reachable folder, with its true count; and labels that,
// read by indentation, spell the keys again.
module KeyTreeRows {
  import opened Common
  import opened Text
  import opened KeyTree
  import Sorting

  type Opens = (string, nat) -> bool
  type Order = (string, string) -> bool

  // Every folder strictly between `p` and the key is open.
  ghost predicate AllOpen(parts: Path, p: Path, isOpen: Opens) {
    forall j :: |p| < j < |parts| ==> isOpen(Join(parts[..j], ":"), j - 1)
  }

  function KeyRowOf(m: KeyMeta): Row {
    KeyRow(LastOf(Parts(m)), |Parts(m)| - 1, m)
  }

  // The row of `m`, if it is to be seen below `p`.
  ghost function Seen(m: KeyMeta, p: Path, isOpen: Opens): multiset<Row> {
    if Beneath(Parts(m), p) && AllOpen(Parts(m), p, isOpen) then multiset{KeyRowOf(m)} else multiset{}
  }

  ghost function VisibleKeys(ks: seq<KeyMeta>, p: Path, isOpen: Opens): multiset<Row> {
    if ks == [] then multiset{}
    else VisibleKeys(ks[..|ks| - 1], p, isOpen) + Seen(ks[|ks| - 1], p, isOpen)
  }

  ghost function KeyRows(rows: seq<Row>): multiset<Row> {
    if rows == [] then multiset{}
    else (if rows[0].KeyRow? then multiset{rows[0]} else multiset{}) + KeyRows(rows[1..])
  }

  lemma {:induction false} KeyRowsAppend(a: seq<Row>, b: seq<Row>)
    ensures KeyRows(a + b) == KeyRows(a) + KeyRows(b)
  {
    if a == [] {
      assert a + b == b;
    } else {
      assert (a + b)[1..] == a[1..] + b;
      KeyRowsAppend(a[1..], b);
    }
  }

  // ----- each key once --------------------------------------------------------------------

  // One step down: the key's first folder below `p` is open and so are the rest.
  lemma AllOpenStep(parts: Path, p: Path, isOpen: Opens)
    requires Beneath(parts, p) && !DirectlyIn(parts, p)
    ensures var q := p + [parts[|p|]];
      Beneath(parts, q) && (AllOpen(parts, p, isOpen) <==> isOpen(Join(q, ":"), |p|) && AllOpen(parts, q, isOpen))
  {
    var q := p + [parts[|p|]];
    assert parts[..|q|] == q;
    if isOpen(Join(q, ":"), |p|) && AllOpen(parts, q, isOpen) {
      forall j | |p| < j < |parts|
        ensures isOpen(Join(parts[..j], ":"), j - 1)
      {
        if j == |q| {
          assert parts[..j] == q;
        }
      }
    }
  }

  // What the folders `labels` of `p` show between them.
  ghost function SeenInside(ks: seq<KeyMeta>, p: Path, labels: seq<string>, isOpen: Opens): multiset<Row> {
    if labels == [] then multiset{} else Through(ks, p, labels[0], isOpen) + SeenInside(ks, p, labels[1..], isOpen)
  }

  ghost function Through(ks: seq<KeyMeta>, p: Path, l: string, isOpen: Opens): multiset<Row> {
    if isOpen(Join(p + [l], ":"), |p|) then VisibleKeys(ks, p + [l], isOpen) else multiset{}
  }

  ghost function SeenThrough(m: KeyMeta, p: Path, l: string, isOpen: Opens): multiset<Row> {
    if isOpen(Join(p + [l], ":"), |p|) then Seen(m, p + [l], isOpen) else multiset{}
  }

  // The folder a key passes through below `p`, if it does not stop there.
  function NextFolder(m: KeyMeta, p: Path): Option<string> {
    if Beneath(Parts(m), p) && !DirectlyIn(Parts(m), p) then Some(Parts(m)[|p|]) else None
  }

  lemma BeneathAFolder(m: KeyMeta, p: Path, l: string)
    ensures Beneath(Parts(m), p + [l]) <==> NextFolder(m, p) == Some(l)
  {
    var parts, q := Parts(m), p + [l];
    if |q| < |parts| {
      assert parts[..|q|] == parts[..|p|] + [parts[|p|]];
    }
  }

  lemma DistinctTail<T>(s: seq<T>)
    requires Distinct(s) && s != []
    ensures Distinct(s[1..]) && s[0] !in s[1..]
    ensures forall x :: x in s <==> x == s[0] || x in s[1..]
  {
    assert s == [s[0]] + s[1..];
  }

  lemma LastSeen(ks: seq<KeyMeta>, m: KeyMeta, p: Path, isOpen: Opens)
    ensures VisibleKeys(ks + [m], p, isOpen) == VisibleKeys(ks, p, isOpen) + Seen(m, p, isOpen)
  {
    var all := ks + [m];
    assert all[..|all| - 1] == ks && all[|all| - 1] == m;
  }

  lemma ThroughOneMore(ks: seq<KeyMeta>, m: KeyMeta, p: Path, l: string, isOpen: Opens)
    ensures Through(ks + [m], p, l, isOpen) == Through(ks, p, l, isOpen) + SeenThrough(m, p, l, isOpen)
  {
    LastSeen(ks, m, p + [l], isOpen);
  }

  ghost function SeenAmong(m: KeyMeta, p: Path, labels: seq<string>, isOpen: Opens): multiset<Row> {
    var l := NextFolder(m, p);
    if l.Some? && l.value in labels then SeenThrough(m, p, l.value, isOpen) else multiset{}
  }

  lemma SeenAmongSplits(m: KeyMeta, p: Path, labels: seq<string>, isOpen: Opens)
    requires Distinct(labels) && labels != []
    ensures SeenAmong(m, p, labels, isOpen)
      == SeenThrough(m, p, labels[0], isOpen) + SeenAmong(m, p, labels[1..], isOpen)
  {
    DistinctTail(labels);
    BeneathAFolder(m, p, labels[0]);
  }

  lemma Regroup<T>(a: multiset<T>, b: multiset<T>, c: multiset<T>, d: multiset<T>)
    ensures (a + b) + (c + d) == (a + c) + (b + d)
  {
  }

  // Adding a key adds its row in the one folder it passes through.
  lemma {:induction false} SeenInsideOneMore(ks: seq<KeyMeta>, m: KeyMeta, p: Path, labels: seq<string>, isOpen: Opens)
    requires Distinct(labels)
    ensures SeenInside(ks + [m], p, labels, isOpen)
      == SeenInside(ks, p, labels, isOpen) + SeenAmong(m, p, labels, isOpen)
  {
    if labels != [] {
      var l, rest := labels[0], labels[1..];
      ThroughOneMore(ks, m, p, l, isOpen);
      DistinctTail(labels);
      SeenInsideOneMore(ks, m, p, rest, isOpen);
      SeenAmongSplits(m, p, labels, isOpen);
      Regroup(Through(ks, p, l, isOpen), SeenThrough(m, p, l, isOpen), SeenInside(ks, p, rest, isOpen),
              SeenAmong(m, p, rest, isOpen));
    }
  }

  lemma {:induction false} SeenInsideNothing(p: Path, labels: seq<string>, isOpen: Opens)
    ensures SeenInside([], p, labels, isOpen) == multiset{}
  {
    if labels != [] {
      SeenInsideNothing(p, labels[1..], isOpen);
    }
  }

  ghost function LeafBag(leaves: seq<Leaf>, depth: nat): multiset<Row> {
    multiset(LeafRows(leaves, depth))
  }

  lemma LeafBagSnoc(leaves: seq<Leaf>, leaf: Leaf, depth: nat)
    ensures LeafBag(leaves + [leaf], depth) == LeafBag(leaves, depth) + multiset{KeyRow(leaf.name, depth, leaf.meta)}
  {
    assert LeafRows(leaves + [leaf], depth) == LeafRows(leaves, depth) + [KeyRow(leaf.name, depth, leaf.meta)];
  }

  ghost function SeenHere(m: KeyMeta, p: Path): multiset<Row> {
    if DirectlyIn(Parts(m), p) then multiset{KeyRowOf(m)} else multiset{}
  }

  lemma SeenHereOrBelow(m: KeyMeta, p: Path, labels: seq<string>, isOpen: Opens)
    requires NextFolder(m, p).Some? ==> NextFolder(m, p).value in labels
    ensures Seen(m, p, isOpen) == SeenHere(m, p) + SeenAmong(m, p, labels, isOpen)
  {
    if NextFolder(m, p).Some? {
      AllOpenStep(Parts(m), p, isOpen);
    }
  }

  lemma LeafBagOneMore(ks: seq<KeyMeta>, m: KeyMeta, p: Path)
    ensures LeafBag(GroupOf(ks + [m], p).keys, |p|) == LeafBag(GroupOf(ks, p).keys, |p|) + SeenHere(m, p)
    ensures forall l :: l in GroupOf(ks, p).labels ==> l in GroupOf(ks + [m], p).labels
    ensures NextFolder(m, p).Some? ==> NextFolder(m, p).value in GroupOf(ks + [m], p).labels
  {
    var all := ks + [m];
    assert all[..|all| - 1] == ks && all[|all| - 1] == m;
    LeafBagSnoc(GroupOf(ks, p).keys, Leaf(LastOf(Parts(m)), m), |p|);
  }

  // What is seen below `p` is its own keys and what its folders show.
  lemma {:induction false} VisibleKeysByFolder(ks: seq<KeyMeta>, p: Path, labels: seq<string>, isOpen: Opens)
    requires Distinct(labels) && forall l :: l in GroupOf(ks, p).labels ==> l in labels
    ensures VisibleKeys(ks, p, isOpen) == LeafBag(GroupOf(ks, p).keys, |p|) + SeenInside(ks, p, labels, isOpen)
  {
    if ks == [] {
      SeenInsideNothing(p, labels, isOpen);
    } else {
      var before, m := ks[..|ks| - 1], ks[|ks| - 1];
      assert ks == before + [m];
      LeafBagOneMore(before, m, p);
      VisibleKeysByFolder(before, p, labels, isOpen);
      SeenInsideOneMore(before, m, p, labels, isOpen);
      SeenHereOrBelow(m, p, labels, isOpen);
    }
  }

  lemma {:induction false} LeavesAreKeyRows(leaves: seq<Leaf>, depth: nat)
    ensures KeyRows(LeafRows(leaves, depth)) == LeafBag(leaves, depth)
  {
    if leaves != [] {
      var rows := LeafRows(leaves, depth);
      assert rows[1..] == LeafRows(leaves[1..], depth) && rows == [rows[0]] + rows[1..];
      LeavesAreKeyRows(leaves[1..], depth);
    }
  }

  lemma LeafBagCons(leaf: Leaf, leaves: seq<Leaf>, depth: nat)
    ensures LeafBag([leaf] + leaves, depth) == multiset{KeyRow(leaf.name, depth, leaf.meta)} + LeafBag(leaves, depth)
  {
    assert LeafRows([leaf] + leaves, depth) == [KeyRow(leaf.name, depth, leaf.meta)] + LeafRows(leaves, depth);
  }

  lemma SwapFirst<T>(a: multiset<T>, b: multiset<T>, c: multiset<T>)
    ensures a + (b + c) == b + (a + c)
  {
  }

  lemma {:induction false} InsertedLeafBag(leq: (Leaf, Leaf) -> bool, leaf: Leaf, leaves: seq<Leaf>, depth: nat)
    ensures LeafBag(Sorting.Insert(leq, leaf, leaves), depth) == LeafBag([leaf] + leaves, depth)
  {
    if leaves != [] && !leq(leaf, leaves[0]) {
      var first, rest := leaves[0], leaves[1..];
      InsertedLeafBag(leq, leaf, rest, depth);
      InsertedBehind(first, leaf, rest, Sorting.Insert(leq, leaf, rest), depth);
      assert leaves == [first] + rest;
    }
  }

  lemma InsertedBehind(first: Leaf, leaf: Leaf, rest: seq<Leaf>, tail: seq<Leaf>, depth: nat)
    requires LeafBag(tail, depth) == LeafBag([leaf] + rest, depth)
    ensures LeafBag([first] + tail, depth) == LeafBag([leaf] + ([first] + rest), depth)
  {
    LeafBagCons(first, tail, depth);
    LeafBagCons(leaf, rest, depth);
    LeafBagCons(first, rest, depth);
    LeafBagCons(leaf, [first] + rest, depth);
    var a, b := KeyRow(first.name, depth, first.meta), KeyRow(leaf.name, depth, leaf.meta);
    SwapFirst(multiset{a}, multiset{b}, LeafBag(rest, depth));
  }

  lemma {:induction false} SortedLeafBag(leq: (Leaf, Leaf) -> bool, leaves: seq<Leaf>, depth: nat)
    ensures LeafBag(Sorting.Sort(leq, leaves), depth) == LeafBag(leaves, depth)
  {
    if leaves != [] {
      SortedLeafBag(leq, leaves[1..], depth);
      InsertedLeafBag(leq, leaves[0], Sorting.Sort(leq, leaves[1..]), depth);
      LeafBagCons(leaves[0], leaves[1..], depth);
      LeafBagCons(leaves[0], Sorting.Sort(leq, leaves[1..]), depth);
      assert leaves == [leaves[0]] + leaves[1..];
    }
  }

  lemma {:induction false} GroupLabelsDistinct(ks: seq<KeyMeta>, p: Path)
    ensures Distinct(GroupOf(ks, p).labels)
  {
    if ks != [] {
      GroupLabelsDistinct(ks[..|ks| - 1], p);
    }
  }

  // The rows below `p` show exactly the keys below `p` behind open folders, each once.
  lemma {:induction false} ShowsExactlyTheOpenKeys(ks: seq<KeyMeta>, p: Path, isOpen: Opens, leq: Order)
    ensures KeyRows(Rows(ks, p, isOpen, leq)) == VisibleKeys(ks, p, isOpen)
    decreases Height(ks) - |p|, 1, 0
  {
    var g := GroupOf(ks, p);
    var labels, leaves := Sorting.Sort(leq, g.labels), SortedLeaves(leq, g.keys);
    GroupLabelsDistinct(ks, p);
    Sorting.SortKeepsDistinct(leq, g.labels);
    Sorting.SortLists(leq, g.labels);
    FolderRowsShow(ks, p, labels, isOpen, leq);
    KeyRowsAppend(FolderRows(ks, p, labels, isOpen, leq), LeafRows(leaves, |p|));
    LeavesAreKeyRows(leaves, |p|);
    SortedLeafBag((a: Leaf, b: Leaf) => leq(a.name, b.name), g.keys, |p|);
    VisibleKeysByFolder(ks, p, labels, isOpen);
  }

  lemma {:induction false} FolderRowsShow(ks: seq<KeyMeta>, p: Path, labels: seq<string>, isOpen: Opens, leq: Order)
    requires forall l :: l in labels ==> l in GroupOf(ks, p).labels
    ensures KeyRows(FolderRows(ks, p, labels, isOpen, leq)) == SeenInside(ks, p, labels, isOpen)
    decreases Height(ks) - |p|, 0, |labels|
  {
    if labels != [] {
      var q := p + [labels[0]];
      var inner := if isOpen(Join(q, ":"), |p|) then Rows(ks, q, isOpen, leq) else [];
      LabelsAreBounded(ks, p, labels[0]);
      if isOpen(Join(q, ":"), |p|) {
        ShowsExactlyTheOpenKeys(ks, q, isOpen, leq);
      }
      FolderRowsShow(ks, p, labels[1..], isOpen, leq);
      FolderRowHidden(FolderRowAt(ks, q, isOpen), inner, FolderRows(ks, p, labels[1..], isOpen, leq));
    }
  }

  lemma FolderRowHidden(row: Row, inner: seq<Row>, rest: seq<Row>)
    requires row.FolderRow?
    ensures KeyRows([row] + inner + rest) == KeyRows(inner) + KeyRows(rest)
  {
    KeyRowsAppend([row] + inner, rest);
    KeyRowsAppend([row], inner);
    assert [row][1..] == [];
  }

  // ----- counts ------------------------------------------------------------------------------

  // A folder's count is the number of keys it shows when everything in it is open.
  lemma {:induction false} CountIsKeysBeneath(ks: seq<KeyMeta>, p: Path)
    ensures GroupOf(ks, p).count == |VisibleKeys(ks, p, (path, depth) => true)|
  {
    if ks != [] {
      CountIsKeysBeneath(ks[..|ks| - 1], p);
    }
  }

  // ----- labels spell the keys -----------------------------------------------------------------

  // Reading the rows from the top, keeping the folder labels of the current indentation:
  // a folder's path is those labels and its own, a key is those labels and its own.
  ghost predicate Spelled(rows: seq<Row>, stack: seq<string>)
    decreases |rows|
  {
    rows == [] || (
      && rows[0].depth <= |stack|
      && var here := stack[..rows[0].depth];
         match rows[0]
         case FolderRow(path, name, _, _, _) => path == Join(here + [name], ":") && Spelled(rows[1..], here + [name])
         case KeyRow(name, _, meta) => meta.key == Join(here + [name], ":") && Spelled(rows[1..], stack))
  }

  // The labels in force once the rows have been read.
  ghost function After(rows: seq<Row>, stack: seq<string>): seq<string>
    decreases |rows|
  {
    if rows == [] then stack
    else if rows[0].FolderRow? && rows[0].depth <= |stack|
      then After(rows[1..], stack[..rows[0].depth] + [rows[0].name])
    else After(rows[1..], stack)
  }

  lemma {:induction false} SpelledAppend(a: seq<Row>, b: seq<Row>, stack: seq<string>)
    requires Spelled(a, stack) && Spelled(b, After(a, stack))
    ensures Spelled(a + b, stack) && After(a + b, stack) == After(b, After(a, stack))
    decreases |a|
  {
    if a == [] {
      assert a + b == b;
    } else {
      assert (a + b)[1..] == a[1..] + b && (a + b)[0] == a[0];
      if a[0].FolderRow? {
        SpelledAppend(a[1..], b, stack[..a[0].depth] + [a[0].name]);
      } else {
        SpelledAppend(a[1..], b, stack);
      }
    }
  }

  ghost predicate Under(stack: seq<string>, p: Path) {
    |p| <= |stack| && stack[..|p|] == p
  }

  // Spelled, and leaves the labels of `p` in force.
  ghost predicate SpelledUnder(rows: seq<Row>, p: Path, stack: seq<string>) {
    Spelled(rows, stack) && Under(After(rows, stack), p)
  }

  // Every leaf of `p` is a key made of `p` and its label.
  lemma {:induction false} LeavesSpell(ks: seq<KeyMeta>, p: Path, leaf: Leaf)
    requires leaf in GroupOf(ks, p).keys
    ensures leaf.meta.key == Join(p + [leaf.name], ":") && leaf.meta in ks
  {
    var before, m := ks[..|ks| - 1], ks[|ks| - 1];
    if leaf in GroupOf(before, p).keys {
      LeavesSpell(before, p, leaf);
    } else {
      SplitIsJoinable(m.key, ':');
      assert Parts(m) == p + [LastOf(Parts(m))];
    }
  }

  lemma {:induction false} LeafRowsSpell(leaves: seq<Leaf>, p: Path, stack: seq<string>)
    requires Under(stack, p) && forall leaf :: leaf in leaves ==> leaf.meta.key == Join(p + [leaf.name], ":")
    ensures Spelled(LeafRows(leaves, |p|), stack) && After(LeafRows(leaves, |p|), stack) == stack
  {
    if leaves != [] {
      var rows := LeafRows(leaves, |p|);
      assert rows[1..] == LeafRows(leaves[1..], |p|);
      assert leaves[0] in leaves;
      LeafRowsSpell(leaves[1..], p, stack);
    }
  }

  // Indentation and labels alone recover every folder's path and every key.
  lemma {:induction false} RowsSpellTheKeys(ks: seq<KeyMeta>, p: Path, isOpen: Opens, leq: Order, stack: seq<string>)
    requires Under(stack, p)
    ensures SpelledUnder(Rows(ks, p, isOpen, leq), p, stack)
    decreases Height(ks) - |p|, 1, 0
  {
    var g := GroupOf(ks, p);
    var labels, leaves := Sorting.Sort(leq, g.labels), SortedLeaves(leq, g.keys);
    FolderRowsSpell(ks, p, labels, isOpen, leq, stack);
    var folders := FolderRows(ks, p, labels, isOpen, leq);
    Sorting.SortLists((a: Leaf, b: Leaf) => leq(a.name, b.name), g.keys);
    forall leaf | leaf in leaves
      ensures leaf.meta.key == Join(p + [leaf.name], ":")
    {
      LeavesSpell(ks, p, leaf);
    }
    LeafRowsSpell(leaves, p, After(folders, stack));
    SpelledAppend(folders, LeafRows(leaves, |p|), stack);
  }

  lemma FolderRowSpells(ks: seq<KeyMeta>, p: Path, l: string, isOpen: Opens, stack: seq<string>)
    requires Under(stack, p)
    ensures var q := p + [l]; var row := [FolderRowAt(ks, q, isOpen)]; Spelled(row, stack) && After(row, stack) == q
  {
    var q := p + [l];
    var row := [FolderRowAt(ks, q, isOpen)];
    assert stack[..|p|] + [LastOf(q)] == q;
    assert row[1..] == [] && Spelled(row[1..], q) && After(row[1..], q) == q;
  }

  lemma {:induction false} FolderRowsSpell(ks: seq<KeyMeta>, p: Path, labels: seq<string>, isOpen: Opens, leq: Order,
                                           stack: seq<string>)
    requires Under(stack, p)
    ensures SpelledUnder(FolderRows(ks, p, labels, isOpen, leq), p, stack)
    decreases Height(ks) - |p|, 0, |labels|
  {
    if labels != [] && |p| + 1 < Height(ks) {
      var q := p + [labels[0]];
      var row := [FolderRowAt(ks, q, isOpen)];
      FolderRowSpells(ks, p, labels[0], isOpen, stack);
      var inner := if isOpen(Join(q, ":"), |p|) then Rows(ks, q, isOpen, leq) else [];
      if isOpen(Join(q, ":"), |p|) {
        RowsSpellTheKeys(ks, q, isOpen, leq, q);
      }
      assert SpelledUnder(inner, q, q);
      var next := After(inner, q);
      SpelledAppend(row, inner, stack);
      assert next[..|p|] == next[..|q|][..|p|] == p;
      FolderRowsSpell(ks, p, labels[1..], isOpen, leq, next);
      SpelledAppend(row + inner, FolderRows(ks, p, labels[1..], isOpen, leq), stack);
    }
  }

  // The whole tree, read from the top.
  lemma TreeSpellsItsKeys(ks: seq<KeyMeta>, isOpen: Opens, leq: Order)
    ensures Spelled(Rows(ks, [], isOpen, leq), [])
  {
    RowsSpellTheKeys(ks, [], isOpen, leq, []);
  }

  // ----- each folder once -------------------------------------------------------------------

  ghost predicate Within(q: Path, p: Path) {
    |p| < |q| && q[..|p|] == p
  }

  // A folder holding at least one key, with every folder between it and `p` open.
  ghost predicate Reached(ks: seq<KeyMeta>, q: Path, p: Path, isOpen: Opens) {
    && Within(q, p) && GroupOf(ks, q).count > 0
    && forall j :: |p| < j < |q| ==> isOpen(Join(q[..j], ":"), j - 1)
  }

  ghost predicate NoColon(p: Path) {
    forall i :: 0 <= i < |p| ==> ':' !in p[i]
  }

  lemma {:induction false} CountedHasNoColon(ks: seq<KeyMeta>, q: Path)
    requires GroupOf(ks, q).count > 0
    ensures NoColon(q)
  {
    var m := ks[|ks| - 1];
    if GroupOf(ks[..|ks| - 1], q).count > 0 {
      CountedHasNoColon(ks[..|ks| - 1], q);
    } else {
      SplitIsJoinable(m.key, ':');
      assert forall i :: 0 <= i < |q| ==> q[i] == Parts(m)[..|q|][i] == Parts(m)[i];
    }
  }

  // Two folders never show the same path.
  lemma PathsTellFoldersApart(ks: seq<KeyMeta>, q: Path, r: Path)
    requires q != [] && r != [] && GroupOf(ks, q).count > 0 && GroupOf(ks, r).count > 0 && Join(q, ":") == Join(r, ":")
    ensures q == r
  {
    CountedHasNoColon(ks, q);
    CountedHasNoColon(ks, r);
    SplitInvertsJoin(q, ':');
    SplitInvertsJoin(r, ':');
  }

  // How many rows show the folder `q`.
  ghost function Showings(rows: seq<Row>, path: string): nat {
    if rows == [] then 0
    else (if rows[0].FolderRow? && rows[0].path == path then 1 else 0) + Showings(rows[1..], path)
  }

  lemma {:induction false} ShowingsAppend(a: seq<Row>, b: seq<Row>, path: string)
    ensures Showings(a + b, path) == Showings(a, path) + Showings(b, path)
  {
    if a == [] {
      assert a + b == b;
    } else {
      assert (a + b)[1..] == a[1..] + b;
      ShowingsAppend(a[1..], b, path);
    }
  }

  lemma {:induction false} LeavesShowNoFolder(leaves: seq<Leaf>, depth: nat, path: string)
    ensures Showings(LeafRows(leaves, depth), path) == 0
  {
    if leaves != [] {
      assert LeafRows(leaves, depth)[1..] == LeafRows(leaves[1..], depth);
      LeavesShowNoFolder(leaves[1..], depth, path);
    }
  }

  ghost function Once(b: bool): nat {
    if b then 1 else 0
  }

  lemma {:induction false} CountShrinks(ks: seq<KeyMeta>, q: Path, p: Path)
    requires GroupOf(ks, q).count > 0 && Within(q, p)
    ensures GroupOf(ks, p).count > 0 && GroupOf(ks, p + [q[|p|]]).count > 0
    ensures q[|p|] in GroupOf(ks, p).labels
  {
    var m := ks[|ks| - 1];
    if GroupOf(ks[..|ks| - 1], q).count > 0 {
      CountShrinks(ks[..|ks| - 1], q, p);
    } else {
      assert Parts(m)[..|p|] == Parts(m)[..|q|][..|p|] == p;
      assert Parts(m)[..|p| + 1] == Parts(m)[..|q|][..|p| + 1] == p + [q[|p|]];
    }
    LabelledIsCounted(ks, p, q[|p|]);
  }

  // Reaching `q` from `p` is entering its first folder and reaching `q` from there.
  lemma ReachedStep(ks: seq<KeyMeta>, q: Path, p: Path, isOpen: Opens)
    requires GroupOf(ks, q).count > 0 && Within(q, p)
    ensures var r := p + [q[|p|]];
      Reached(ks, q, p, isOpen) <==> q == r || (isOpen(Join(r, ":"), |p|) && Reached(ks, q, r, isOpen))
  {
    var r := p + [q[|p|]];
    assert q[..|p| + 1] == r;
    if |q| == |p| + 1 {
      assert q == r;
    } else {
      assert Within(q, r);
      if isOpen(Join(r, ":"), |p|) && Reached(ks, q, r, isOpen) {
        forall j | |p| < j < |q|
          ensures isOpen(Join(q[..j], ":"), j - 1)
        {
        }
      }
    }
  }

  // Each reached folder has exactly one row below `p`; no other folder has any.
  lemma {:induction false} ShowsReachedFoldersOnce(ks: seq<KeyMeta>, p: Path, isOpen: Opens, leq: Order, q: Path)
    requires GroupOf(ks, q).count > 0 && q != []
    ensures Showings(Rows(ks, p, isOpen, leq), Join(q, ":")) == Once(Reached(ks, q, p, isOpen))
    decreases Height(ks) - |p|, 1, 0
  {
    var g := GroupOf(ks, p);
    var labels, leaves := Sorting.Sort(leq, g.labels), SortedLeaves(leq, g.keys);
    GroupLabelsDistinct(ks, p);
    Sorting.SortKeepsDistinct(leq, g.labels);
    Sorting.SortLists(leq, g.labels);
    FolderRowsShowOnce(ks, p, labels, isOpen, leq, q);
    ShowingsAppend(FolderRows(ks, p, labels, isOpen, leq), LeafRows(leaves, |p|), Join(q, ":"));
    LeavesShowNoFolder(leaves, |p|, Join(q, ":"));
    if Within(q, p) {
      CountShrinks(ks, q, p);
    }
  }

  lemma {:induction false} FolderRowsShowOnce(ks: seq<KeyMeta>, p: Path, labels: seq<string>, isOpen: Opens,
                                              leq: Order, q: Path)
    requires GroupOf(ks, q).count > 0 && q != []
    requires Distinct(labels) && forall l :: l in labels ==> l in GroupOf(ks, p).labels
    ensures Showings(FolderRows(ks, p, labels, isOpen, leq), Join(q, ":"))
      == Once(Reached(ks, q, p, isOpen) && q[|p|] in labels)
    decreases Height(ks) - |p|, 0, |labels|
  {
    if labels != [] {
      var r := p + [labels[0]];
      var row, path := [FolderRowAt(ks, r, isOpen)], Join(q, ":");
      LabelsAreBounded(ks, p, labels[0]);
      LabelledIsCounted(ks, p, labels[0]);
      DistinctTail(labels);
      var inner := if isOpen(Join(r, ":"), |p|) then Rows(ks, r, isOpen, leq) else [];
      var rest := FolderRows(ks, p, labels[1..], isOpen, leq);
      FolderRowsShowOnce(ks, p, labels[1..], isOpen, leq, q);
      ShowingsAppend(row + inner, rest, path);
      ShowingsAppend(row, inner, path);
      if isOpen(Join(r, ":"), |p|) {
        ShowsReachedFoldersOnce(ks, r, isOpen, leq, q);
      }
      ShownThroughFirst(ks, p, labels[0], isOpen, q);
    }
  }

  lemma ShownThroughFirst(ks: seq<KeyMeta>, p: Path, l: string, isOpen: Opens, q: Path)
    requires GroupOf(ks, q).count > 0 && q != [] && GroupOf(ks, p + [l]).count > 0
    ensures var r := p + [l];
      Once(Join(r, ":") == Join(q, ":")) + Once(isOpen(Join(r, ":"), |p|) && Reached(ks, q, r, isOpen))
      == Once(Reached(ks, q, p, isOpen) && q[|p|] == l)
  {
    var r := p + [l];
    if Join(r, ":") == Join(q, ":") {
      PathsTellFoldersApart(ks, q, r);
    }
    if Within(q, p) {
      ReachedStep(ks, q, p, isOpen);
    }
    assert Within(q, r) ==> q[..|p|] == q[..|r|][..|p|] == p && q[|p|] == q[..|r|][|p|] == l;
  }

  // And the row of a folder is true to it: its own path, label, depth and count.
  lemma {:induction false} FolderRowsAreTrue(ks: seq<KeyMeta>, p: Path, isOpen: Opens, leq: Order, row: Row)
    requires row in Rows(ks, p, isOpen, leq) && row.FolderRow?
    ensures exists q :: q != [] && Reached(ks, q, p, isOpen) && row == FolderRowAt(ks, q, isOpen)
    decreases Height(ks) - |p|, 1, 0
  {
    var g := GroupOf(ks, p);
    Sorting.SortLists(leq, g.labels);
    var labels := Sorting.Sort(leq, g.labels);
    assert row in FolderRows(ks, p, labels, isOpen, leq);
    TrueAmongFolders(ks, p, labels, isOpen, leq, row);
  }

  lemma {:induction false} TrueAmongFolders(ks: seq<KeyMeta>, p: Path, labels: seq<string>, isOpen: Opens, leq: Order,
                                            row: Row)
    requires forall l :: l in labels ==> l in GroupOf(ks, p).labels
    requires row in FolderRows(ks, p, labels, isOpen, leq) && row.FolderRow?
    ensures exists q :: q != [] && Reached(ks, q, p, isOpen) && row == FolderRowAt(ks, q, isOpen)
    decreases Height(ks) - |p|, 0, |labels|
  {
    var r := p + [labels[0]];
    LabelsAreBounded(ks, p, labels[0]);
    LabelledIsCounted(ks, p, labels[0]);
    if row == FolderRowAt(ks, r, isOpen) {
      assert Reached(ks, r, p, isOpen);
    } else if row in FolderRows(ks, p, labels[1..], isOpen, leq) {
      TrueAmongFolders(ks, p, labels[1..], isOpen, leq, row);
    } else {
      FolderRowsAreTrue(ks, r, isOpen, leq, row);
      var q :| q != [] && Reached(ks, q, r, isOpen) && row == FolderRowAt(ks, q, isOpen);
      ExtendsToo(q, p, labels[0]);
      ReachedStep(ks, q, p, isOpen);
    }
  }

  lemma ExtendsToo(q: Path, p: Path, l: string)
    requires |p| < |q| && q[..|p| + 1] == p + [l]
    ensures q[..|p|] == p && q[|p|] == l
  {
    assert q[..|p| + 1][..|p|] == p && q[..|p| + 1][|p|] == l;
  }
}
