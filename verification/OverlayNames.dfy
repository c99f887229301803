/**
 Which nodes the renaming of an overlay relates, in terms of names and child numbers: the nodes of
 the overlay that are merged with nodes of the base, and the cells that the fixups list.
 */
module OverlayNames {

  import opened Basics
  import opened Overlay
  import opened OverlayProofs

  // ---------------------------------------------------------------------------------------------
  // Looking up a child
  // ---------------------------------------------------------------------------------------------

  /** A name with a unit address matches only itself, one without also every node that adds one. */
  lemma MatchesExactly(node: string, name: string)
    ensures '@' in name ==> (NameMatches(node, name) <==> node == name)
    ensures '@' !in name ==> (NameMatches(node, name) <==> node == name || exists unit :: node == name + "@" + unit)
  {
    if '@' !in name && NameMatches(node, name) && node != name {
      assert node == name + "@" + node[|name| + 1..];
    }
    if '@' !in name {
      forall unit | node == name + "@" + unit
        ensures NameMatches(node, name)
      {
        assert node[|name|] == '@';
      }
    }
  }

  /** Child `i` is the first that matches the name. */
  predicate FirstBase(kids: seq<Base>, name: string, i: nat) {
    i < |kids| && NameMatches(kids[i].name, name) && forall j :: 0 <= j < i ==> !NameMatches(kids[j].name, name)
  }

  predicate FirstShape(kids: seq<Shape>, name: string, i: nat) {
    i < |kids| && NameMatches(kids[i].name, name) && forall j :: 0 <= j < i ==> !NameMatches(kids[j].name, name)
  }

  lemma {:induction false} FindBaseExactly(kids: seq<Base>, name: string)
    ensures FindBase(kids, name).None? <==> forall i :: 0 <= i < |kids| ==> !NameMatches(kids[i].name, name)
    ensures forall i: nat :: FirstBase(kids, name, i) ==> FindBase(kids, name) == Some(kids[i])
    ensures FindBase(kids, name).Some? ==> exists i: nat :: FirstBase(kids, name, i)
    decreases |kids|
  {
    hide NameMatches;
    if kids != [] && !NameMatches(kids[0].name, name) {
      var rest := kids[1..];
      FindBaseExactly(rest, name);
      forall i: nat | FirstBase(kids, name, i)
        ensures FindBase(kids, name) == Some(kids[i])
      {
        assert FirstBase(rest, name, i - 1) by {
          assert forall j :: 0 <= j < i - 1 ==> rest[j] == kids[j + 1];
        }
      }
      if k: nat :| FirstBase(rest, name, k) {
        assert FirstBase(kids, name, k + 1) by {
          assert forall j :: 0 < j < k + 1 ==> kids[j] == rest[j - 1];
        }
      }
      assert forall i :: 0 < i < |kids| ==> kids[i] == rest[i - 1];
      assert forall i :: 0 <= i < |rest| ==> rest[i] == kids[i + 1];
    } else if kids != [] {
      assert FirstBase(kids, name, 0);
      forall i: nat | FirstBase(kids, name, i)
        ensures i == 0
      {
      }
    }
  }

  lemma {:induction false} FindShapeExactly(kids: seq<Shape>, name: string)
    ensures FindShape(kids, name).None? <==> forall i :: 0 <= i < |kids| ==> !NameMatches(kids[i].name, name)
    ensures forall i: nat :: FirstShape(kids, name, i) ==> FindShape(kids, name) == Some(kids[i])
    ensures FindShape(kids, name).Some? ==> exists i: nat :: FirstShape(kids, name, i)
    decreases |kids|
  {
    hide NameMatches;
    if kids != [] && !NameMatches(kids[0].name, name) {
      var rest := kids[1..];
      FindShapeExactly(rest, name);
      forall i: nat | FirstShape(kids, name, i)
        ensures FindShape(kids, name) == Some(kids[i])
      {
        assert FirstShape(rest, name, i - 1) by {
          assert forall j :: 0 <= j < i - 1 ==> rest[j] == kids[j + 1];
        }
      }
      if k: nat :| FirstShape(rest, name, k) {
        assert FirstShape(kids, name, k + 1) by {
          assert forall j :: 0 < j < k + 1 ==> kids[j] == rest[j - 1];
        }
      }
      assert forall i :: 0 < i < |kids| ==> kids[i] == rest[i - 1];
      assert forall i :: 0 <= i < |rest| ==> rest[i] == kids[i + 1];
    } else if kids != [] {
      assert FirstShape(kids, name, 0);
      forall i: nat | FirstShape(kids, name, i)
        ensures i == 0
      {
      }
    }
  }

  // ---------------------------------------------------------------------------------------------
  // Nodes that are merged
  // ---------------------------------------------------------------------------------------------

  /** A step from a base node and the overlay node merged with it to a child of each. */
  datatype Down = Down(base: nat, overlay: nat)

  /**
   Overlay node `n` below `s` is merged with a base node of phandle `q` below `b`: the steps lead
   from the overlay's children, by their names, to the base's first children of these names.
   */
  predicate Merges(b: Base, s: Shape, steps: seq<Down>, n: nat, q: nat)
    decreases |steps|
  {
    if steps == [] then n == s.id && q == b.phandle
    else
      && steps[0].overlay < |s.kids| && FirstBase(b.kids, s.kids[steps[0].overlay].name, steps[0].base)
      && Merges(b.kids[steps[0].base], s.kids[steps[0].overlay], steps[1..], n, q)
  }

  ghost predicate SomeMerge(b: Base, s: Shape, n: nat, q: nat) {
    exists steps :: Merges(b, s, steps, n, q)
  }

  predicate MergesBelow(b: Base, kids: seq<Shape>, d: Down, steps: seq<Down>, n: nat, q: nat) {
    && d.overlay < |kids| && FirstBase(b.kids, kids[d.overlay].name, d.base)
    && Merges(b.kids[d.base], kids[d.overlay], steps, n, q)
  }

  ghost predicate SomeMergeBelow(b: Base, kids: seq<Shape>, n: nat, q: nat) {
    exists d, steps :: MergesBelow(b, kids, d, steps, n, q)
  }

  /** A node is merged itself or one below it is. */
  lemma MergeSplits(b: Base, s: Shape, n: nat, q: nat)
    ensures SomeMerge(b, s, n, q) <==> (n == s.id && q == b.phandle) || SomeMergeBelow(b, s.kids, n, q)
  {
    hide NameMatches;
    if n == s.id && q == b.phandle {
      assert Merges(b, s, [], n, q);
    }
    if SomeMergeBelow(b, s.kids, n, q) {
      var d, steps :| MergesBelow(b, s.kids, d, steps, n, q);
      assert ([d] + steps)[1..] == steps;
      assert Merges(b, s, [d] + steps, n, q);
    }
    if SomeMerge(b, s, n, q) {
      var steps :| Merges(b, s, steps, n, q);
      if steps != [] {
        assert MergesBelow(b, s.kids, steps[0], steps[1..], n, q);
      }
    }
  }

  /** One of the nodes is merged: the first of them or a later one. */
  lemma MergeBelowSplits(b: Base, kids: seq<Shape>, n: nat, q: nat)
    requires kids != []
    ensures var found := FindBase(b.kids, kids[0].name);
            SomeMergeBelow(b, kids, n, q)
            <==> (found.Some? && SomeMerge(found.value, kids[0], n, q)) || SomeMergeBelow(b, kids[1..], n, q)
  {
    hide NameMatches, FindBase, Merges;
    var found := FindBase(b.kids, kids[0].name);
    FindBaseExactly(b.kids, kids[0].name);
    if SomeMergeBelow(b, kids[1..], n, q) {
      var d, steps :| MergesBelow(b, kids[1..], d, steps, n, q);
      assert MergesBelow(b, kids, Down(d.base, d.overlay + 1), steps, n, q);
    }
    if found.Some? && SomeMerge(found.value, kids[0], n, q) {
      var i: nat :| FirstBase(b.kids, kids[0].name, i);
      var steps :| Merges(found.value, kids[0], steps, n, q);
      assert MergesBelow(b, kids, Down(i, 0), steps, n, q);
    }
    if SomeMergeBelow(b, kids, n, q) {
      var d, steps :| MergesBelow(b, kids, d, steps, n, q);
      if d.overlay > 0 {
        assert MergesBelow(b, kids[1..], Down(d.base, d.overlay - 1), steps, n, q);
      } else {
        NotNone(b.kids, kids[0].name, d.base);
        assert Merges(found.value, kids[0], steps, n, q);
      }
    }
  }

  lemma {:induction false} NodeVisitsExactly(b: Base, s: Shape, n: nat, q: nat)
    ensures Visit(n, q) in NodeVisits(b, s) <==> SomeMerge(b, s, n, q)
    decreases s
  {
    hide SomeMerge, SomeMergeBelow;
    KidVisitsExactly(b, s.kids, n, q);
    MergeSplits(b, s, n, q);
  }

  lemma {:induction false} KidVisitsExactly(b: Base, kids: seq<Shape>, n: nat, q: nat)
    ensures Visit(n, q) in KidVisits(b, kids) <==> SomeMergeBelow(b, kids, n, q)
    decreases kids
  {
    hide SomeMerge;
    if kids != [] {
      var found := FindBase(b.kids, kids[0].name);
      KidVisitsExactly(b, kids[1..], n, q);
      if found.Some? {
        NodeVisitsExactly(found.value, kids[0], n, q);
      }
      MergeBelowSplits(b, kids, n, q);
    }
  }

  lemma NotNone(kids: seq<Base>, name: string, i: nat)
    requires FirstBase(kids, name, i)
    ensures FindBase(kids, name) == Some(kids[i])
  {
    FindBaseExactly(kids, name);
  }

  /**
   Overlay node `n` is merged with a base node of phandle `q`: it lies under the `__overlay__` child
   of fragment `f`, whose target is a node of the base.
   */
  predicate MergedVia(base: Base, fragments: seq<Shape>, target: map<nat, seq<nat>>, f: nat, o: nat, steps: seq<Down>,
                      n: nat, q: nat)
  {
    && f < |fragments| && FirstShape(fragments[f].kids, "__overlay__", o)
    && fragments[f].id in target && BaseAt(base, target[fragments[f].id]).Some?
    && Merges(BaseAt(base, target[fragments[f].id]).value, fragments[f].kids[o], steps, n, q)
  }

  ghost predicate Merged(base: Base, fragments: seq<Shape>, target: map<nat, seq<nat>>, n: nat, q: nat) {
    exists f: nat, o: nat, steps :: MergedVia(base, fragments, target, f, o, steps, n, q)
  }

  ghost predicate MergedInFirst(base: Base, f: Shape, target: map<nat, seq<nat>>, n: nat, q: nat) {
    exists o: nat, steps :: MergedVia(base, [f], target, 0, o, steps, n, q)
  }

  lemma FragmentVisitsExactly(base: Base, f: Shape, target: map<nat, seq<nat>>, n: nat, q: nat)
    ensures Visit(n, q) in FragmentVisits(base, f, target) <==> MergedInFirst(base, f, target, n, q)
  {
    hide NameMatches, Merges, NodeVisits, BaseAt;
    FindShapeExactly(f.kids, "__overlay__");
    var found := FindShape(f.kids, "__overlay__");
    if found.Some? && f.id in target && BaseAt(base, target[f.id]).Some? {
      var b := BaseAt(base, target[f.id]).value;
      NodeVisitsExactly(b, found.value, n, q);
      if SomeMerge(b, found.value, n, q) {
        var o: nat :| FirstShape(f.kids, "__overlay__", o);
        var steps :| Merges(b, found.value, steps, n, q);
        assert MergedVia(base, [f], target, 0, o, steps, n, q);
      }
    }
    if MergedInFirst(base, f, target, n, q) {
      var o: nat, steps :| MergedVia(base, [f], target, 0, o, steps, n, q);
      assert [f][0].kids[o] == f.kids[o];
      assert FirstShape(f.kids, "__overlay__", o) && found == Some(f.kids[o]);
    }
  }

  lemma {:induction false} VisitsAreMerges(base: Base, fragments: seq<Shape>, target: map<nat, seq<nat>>,
                                           n: nat, q: nat)
    ensures Visit(n, q) in AllVisits(base, fragments, target) <==> Merged(base, fragments, target, n, q)
    decreases |fragments|
  {
    hide FragmentVisits, NameMatches, Merges, BaseAt;
    if fragments != [] {
      var first, rest := fragments[0], fragments[1..];
      FragmentVisitsExactly(base, first, target, n, q);
      VisitsAreMerges(base, rest, target, n, q);
      if MergedInFirst(base, first, target, n, q) {
        var o: nat, steps :| MergedVia(base, [first], target, 0, o, steps, n, q);
        assert MergedVia(base, fragments, target, 0, o, steps, n, q);
      }
      if Merged(base, rest, target, n, q) {
        var f: nat, o: nat, steps :| MergedVia(base, rest, target, f, o, steps, n, q);
        assert MergedVia(base, fragments, target, f + 1, o, steps, n, q);
      }
      if Merged(base, fragments, target, n, q) {
        var f: nat, o: nat, steps :| MergedVia(base, fragments, target, f, o, steps, n, q);
        if f == 0 {
          assert MergedVia(base, [first], target, 0, o, steps, n, q);
        } else {
          assert MergedVia(base, rest, target, f - 1, o, steps, n, q);
        }
      }
    }
  }

  // ---------------------------------------------------------------------------------------------
  // The largest phandle of the base
  // ---------------------------------------------------------------------------------------------

  /** The node at a path of child numbers has phandle `q`. */
  predicate HasPhandle(b: Base, path: seq<nat>, q: nat) {
    BaseAt(b, path).Some? && BaseAt(b, path).value.phandle == q
  }

  ghost predicate SomePhandle(b: Base, q: nat) {
    exists path :: HasPhandle(b, path, q)
  }

  lemma HasBelow(b: Base, i: nat, q: nat)
    requires i < |b.kids| && SomePhandle(b.kids[i], q)
    ensures SomePhandle(b, q)
  {
    var path :| HasPhandle(b.kids[i], path, q);
    assert ([i] + path)[1..] == path;
    assert HasPhandle(b, [i] + path, q);
  }

  /** No node of the base has a larger phandle, and some node has this one. */
  lemma MaxPhandleExactly(b: Base)
    ensures SomePhandle(b, MaxPhandle(b))
    ensures forall q: nat :: SomePhandle(b, q) ==> q <= MaxPhandle(b)
  {
    MaxIsThere(b);
    forall q: nat | SomePhandle(b, q)
      ensures q <= MaxPhandle(b)
    {
      var path :| HasPhandle(b, path, q);
      BaseAtMax(b, path);
    }
  }

  lemma {:induction false} MaxIsThere(b: Base)
    ensures SomePhandle(b, MaxPhandle(b))
    decreases b, |b.kids| + 1
  {
    hide SomePhandle;
    if MaxPhandle(b) == b.phandle {
      OwnPhandle(b);
    } else {
      var i := LargestKid(b, b.kids, 0);
      HasBelow(b, i, MaxPhandle(b));
    }
  }

  lemma OwnPhandle(b: Base)
    ensures SomePhandle(b, b.phandle)
  {
    assert HasPhandle(b, [], b.phandle);
  }

  lemma {:induction false} LargestKid(b: Base, kids: seq<Base>, k: nat) returns (i: nat)
    requires k <= |b.kids| && kids == b.kids[k..] && MaxOfKids(kids) > 0
    ensures i < |b.kids| && SomePhandle(b.kids[i], MaxOfKids(kids))
    decreases b, |kids|
  {
    hide SomePhandle;
    assert kids != [];
    assert kids[0] == b.kids[k] && kids[1..] == b.kids[k + 1..];
    if MaxPhandle(kids[0]) == MaxOfKids(kids) {
      MaxIsThere(b.kids[k]);
      i := k;
    } else {
      i := LargestKid(b, kids[1..], k + 1);
    }
  }

  /**
   No phandle of the overlay captures a node of the base: in the end it is above the phandle of
   every node of the base, or the node is merged with a base node of that phandle. A node that is
   merged with a base node that has a phandle ends with that one.
   */
  lemma NoCapture(base: Base, root: Shape, fixups: Fixup, target: map<nat, seq<nat>>, external: map<Cell, nat>,
                  v: Values, n: nat)
    requires NoDup(Ids(root)) && Clean(v, Ids(root)) && MaxPhandle(base) < U32
    requires Apply(base, root, fixups, target, external, v).Ok? && n in Ids(root) && Locals(root, fixups).Ok?
    requires Spares(Refs(Locals(root, fixups).value, external), n)
    ensures var p := GetPhandle(Apply(base, root, fixups, target, external, v).value, n);
            && (p == 0 <==> GetPhandle(v, n) == 0)
            && (p == 0 || (forall q: nat :: SomePhandle(base, q) ==> p > q)
                || Merged(base, root.kids, target, n, p))
            && (forall q: nat :: Merged(base, root.kids, target, n, q) && q != 0 && p != 0 ==> p == q)
  {
    hide GetPhandle, Apply, Locals, Clean, MaxPhandle, Spares, AllVisits, Merged, SomePhandle;
    PhandleEnds(base, root, fixups, target, external, v, n);
    MaxPhandleExactly(base);
    forall q: nat
      ensures Visit(n, q) in AllVisits(base, root.kids, target) <==> Merged(base, root.kids, target, n, q)
    {
      VisitsAreMerges(base, root.kids, target, n, q);
    }
  }

  // ---------------------------------------------------------------------------------------------
  // The cells that the fixups list
  // ---------------------------------------------------------------------------------------------

  /** A place in the fixups: fixup nodes by child number, then a property and one of its offsets. */
  datatype Place = Place(nodes: seq<nat>, prop: nat, offset: nat)

  /** The place lists `c`: the names of the fixup nodes lead to the first children of these names. */
  ghost predicate Lists(s: Shape, f: Fixup, at: Place, c: Cell)
    decreases |at.nodes|
  {
    if at.nodes == [] then
      && at.prop < |f.props| && at.offset < |f.props[at.prop].offsets|
      && c == Cell(s.id, f.props[at.prop].name, f.props[at.prop].offsets[at.offset])
    else
      && at.nodes[0] < |f.kids|
      && exists k: nat :: FirstShape(s.kids, f.kids[at.nodes[0]].name, k)
                          && Lists(s.kids[k], f.kids[at.nodes[0]], at.(nodes := at.nodes[1..]), c)
  }

  ghost predicate Listed(s: Shape, f: Fixup, c: Cell) {
    exists at :: Lists(s, f, at, c)
  }

  ghost predicate ListedHere(s: Shape, props: seq<FixupProp>, c: Cell) {
    exists i: nat, j: nat ::
      i < |props| && j < |props[i].offsets| && c == Cell(s.id, props[i].name, props[i].offsets[j])
  }

  ghost predicate ListedBelow(s: Shape, kids: seq<Fixup>, c: Cell) {
    exists i: nat, k: nat :: i < |kids| && FirstShape(s.kids, kids[i].name, k) && Listed(s.kids[k], kids[i], c)
  }

  lemma ListedSplits(s: Shape, f: Fixup, c: Cell)
    ensures Listed(s, f, c) <==> ListedHere(s, f.props, c) || ListedBelow(s, f.kids, c)
  {
    hide NameMatches;
    if ListedHere(s, f.props, c) {
      var i: nat, j: nat :| i < |f.props| && j < |f.props[i].offsets|
                            && c == Cell(s.id, f.props[i].name, f.props[i].offsets[j]);
      assert Lists(s, f, Place([], i, j), c);
    }
    if ListedBelow(s, f.kids, c) {
      var i: nat, k: nat :| i < |f.kids| && FirstShape(s.kids, f.kids[i].name, k) && Listed(s.kids[k], f.kids[i], c);
      var at :| Lists(s.kids[k], f.kids[i], at, c);
      var up := at.(nodes := [i] + at.nodes);
      assert up.(nodes := up.nodes[1..]) == at;
      assert Lists(s, f, up, c);
    }
    if Listed(s, f, c) {
      var at :| Lists(s, f, at, c);
      if at.nodes != [] {
        var i := at.nodes[0];
        var k: nat :| FirstShape(s.kids, f.kids[i].name, k)
                      && Lists(s.kids[k], f.kids[i], at.(nodes := at.nodes[1..]), c);
        assert Listed(s.kids[k], f.kids[i], c);
      }
    }
  }

  lemma {:induction false} CellsOfExactly(n: nat, prop: string, offsets: seq<nat>, c: Cell)
    ensures c in CellsOf(n, prop, offsets) <==> exists j: nat :: j < |offsets| && c == Cell(n, prop, offsets[j])
    ensures |CellsOf(n, prop, offsets)| == |offsets|
    decreases |offsets|
  {
    if offsets != [] {
      CellsOfExactly(n, prop, offsets[1..], c);
      if j: nat :| j < |offsets[1..]| && c == Cell(n, prop, offsets[1..][j]) {
        assert c == Cell(n, prop, offsets[j + 1]);
      }
      if j: nat :| j < |offsets| && c == Cell(n, prop, offsets[j]) {
        assert j > 0 ==> c == Cell(n, prop, offsets[1..][j - 1]);
      }
    }
  }

  function OffsetsIn(props: seq<FixupProp>): nat {
    if props == [] then 0 else |props[0].offsets| + OffsetsIn(props[1..])
  }

  lemma {:induction false} PropCellsExactly(s: Shape, props: seq<FixupProp>, c: Cell)
    ensures PropCells(s, props).Ok? <==>
              forall i :: 0 <= i < |props| ==> !props[i].ragged && props[i].name in s.props
    ensures PropCells(s, props).Ok? ==>
              && (c in PropCells(s, props).value <==> ListedHere(s, props, c))
              && |PropCells(s, props).value| == OffsetsIn(props)
    decreases |props|
  {
    if props != [] {
      var rest := props[1..];
      PropCellsExactly(s, rest, c);
      CellsOfExactly(s.id, props[0].name, props[0].offsets, c);
      assert forall i :: 0 < i < |props| ==> props[i] == rest[i - 1];
      assert forall i :: 0 <= i < |rest| ==> rest[i] == props[i + 1];
      HereSplits(s, props, c);
    }
  }

  lemma HereSplits(s: Shape, props: seq<FixupProp>, c: Cell)
    requires props != []
    ensures ListedHere(s, props, c) <==>
              (exists j: nat :: j < |props[0].offsets| && c == Cell(s.id, props[0].name, props[0].offsets[j]))
              || ListedHere(s, props[1..], c)
  {
    var rest := props[1..];
    if ListedHere(s, rest, c) {
      var i: nat, j: nat :| i < |rest| && j < |rest[i].offsets| && c == Cell(s.id, rest[i].name, rest[i].offsets[j]);
      assert props[i + 1] == rest[i];
      assert c == Cell(s.id, props[i + 1].name, props[i + 1].offsets[j]);
    }
    if ListedHere(s, props, c) {
      var i: nat, j: nat :|
        i < |props| && j < |props[i].offsets| && c == Cell(s.id, props[i].name, props[i].offsets[j]);
      if i > 0 {
        assert rest[i - 1] == props[i];
        assert c == Cell(s.id, rest[i - 1].name, rest[i - 1].offsets[j]);
      }
    }
  }

  /** The number of offsets that the fixups hold. */
  function Offsets(f: Fixup): nat
    decreases f
  {
    OffsetsIn(f.props) + OffsetsOf(f.kids)
  }

  function OffsetsOf(kids: seq<Fixup>): nat
    decreases kids
  {
    if kids == [] then 0 else Offsets(kids[0]) + OffsetsOf(kids[1..])
  }

  /** The fixups fit the overlay: every list is whole and names a property, every node has its counterpart. */
  ghost predicate Fits(s: Shape, f: Fixup)
    decreases f
  {
    && (forall i :: 0 <= i < |f.props| ==> !f.props[i].ragged && f.props[i].name in s.props)
    && (forall i :: 0 <= i < |f.kids| ==>
          FindShape(s.kids, f.kids[i].name).Some? && Fits(FindShape(s.kids, f.kids[i].name).value, f.kids[i]))
  }

  ghost predicate KidsFit(s: Shape, kids: seq<Fixup>)
    decreases kids
  {
    forall i :: 0 <= i < |kids| ==>
      FindShape(s.kids, kids[i].name).Some? && Fits(FindShape(s.kids, kids[i].name).value, kids[i])
  }

  /** The walk over the fixups succeeds exactly if they fit; it gives the cells they list, one for each offset. */
  lemma {:induction false} LocalsExactly(s: Shape, f: Fixup, c: Cell)
    ensures Locals(s, f).Ok? <==> Fits(s, f)
    ensures Locals(s, f).Ok? ==>
              (c in Locals(s, f).value <==> Listed(s, f, c)) && |Locals(s, f).value| == Offsets(f)
    decreases f
  {
    hide Listed, ListedHere, ListedBelow, FindShape;
    PropCellsExactly(s, f.props, c);
    KidLocalsExactly(s, f.kids, c);
    ListedSplits(s, f, c);
  }

  lemma {:induction false} KidLocalsExactly(s: Shape, kids: seq<Fixup>, c: Cell)
    ensures KidLocals(s, kids).Ok? <==> KidsFit(s, kids)
    ensures KidLocals(s, kids).Ok? ==>
              && (c in KidLocals(s, kids).value <==> ListedBelow(s, kids, c))
              && |KidLocals(s, kids).value| == OffsetsOf(kids)
    decreases kids
  {
    hide Listed, FindShape, Fits;
    if kids != [] {
      var found := FindShape(s.kids, kids[0].name);
      FindShapeExactly(s.kids, kids[0].name);
      KidLocalsExactly(s, kids[1..], c);
      if found.Some? {
        LocalsExactly(found.value, kids[0], c);
      }
      assert forall i :: 0 < i < |kids| ==> kids[i] == kids[1..][i - 1];
      assert forall i :: 0 <= i < |kids[1..]| ==> kids[1..][i] == kids[i + 1];
      BelowSplits(s, kids, c);
    }
  }

  lemma BelowSplits(s: Shape, kids: seq<Fixup>, c: Cell)
    requires kids != []
    ensures var found := FindShape(s.kids, kids[0].name);
            ListedBelow(s, kids, c)
            <==> (found.Some? && Listed(found.value, kids[0], c)) || ListedBelow(s, kids[1..], c)
  {
    hide Listed, FindShape, NameMatches;
    var found, rest := FindShape(s.kids, kids[0].name), kids[1..];
    FindShapeExactly(s.kids, kids[0].name);
    if found.Some? && Listed(found.value, kids[0], c) {
      var k: nat :| FirstShape(s.kids, kids[0].name, k);
      assert Listed(s.kids[k], kids[0], c);
    }
    if ListedBelow(s, rest, c) {
      var i: nat, k: nat :| i < |rest| && FirstShape(s.kids, rest[i].name, k) && Listed(s.kids[k], rest[i], c);
      assert rest[i] == kids[i + 1];
      assert FirstShape(s.kids, kids[i + 1].name, k) && Listed(s.kids[k], kids[i + 1], c);
    }
    if ListedBelow(s, kids, c) {
      var i: nat, k: nat :| i < |kids| && FirstShape(s.kids, kids[i].name, k) && Listed(s.kids[k], kids[i], c);
      if i > 0 {
        assert rest[i - 1] == kids[i];
        assert FirstShape(s.kids, rest[i - 1].name, k) && Listed(s.kids[k], rest[i - 1], c);
      }
    }
  }
}
