/** The renaming of an overlay's phandles is consistent and free of capture. */
module OverlayProofs {

  import opened Arith
  import opened Basics
  import opened Overlay

  // ---------------------------------------------------------------------------------------------
  // Lists without repetition
  // ---------------------------------------------------------------------------------------------

  ghost predicate NoDup<T>(s: seq<T>) {
    forall i, j :: 0 <= i < j < |s| ==> s[i] != s[j]
  }

  lemma NoDupParts<T>(a: seq<T>, b: seq<T>)
    requires NoDup(a + b)
    ensures NoDup(a) && NoDup(b) && forall x :: x in a ==> x !in b
  {
    var s := a + b;
    assert forall i :: 0 <= i < |a| ==> s[i] == a[i];
    assert forall i :: 0 <= i < |b| ==> s[|a| + i] == b[i];
    forall x | x in a
      ensures x !in b
    {
      var i :| 0 <= i < |a| && a[i] == x;
      forall j | 0 <= j < |b|
        ensures b[j] != x
      {
        assert s[i] != s[|a| + j];
      }
    }
  }

  lemma NoDupJoin<T>(a: seq<T>, b: seq<T>)
    requires NoDup(a) && NoDup(b) && forall x :: x in a ==> x !in b
    ensures NoDup(a + b)
  {
    var s := a + b;
    forall i, j | 0 <= i < j < |s|
      ensures s[i] != s[j]
    {
      if i < |a| && j >= |a| {
        assert s[i] in a && s[j] == b[j - |a|];
      }
    }
  }

  // ---------------------------------------------------------------------------------------------
  // Shifting
  // ---------------------------------------------------------------------------------------------

  /** The cells that hold the phandle of their node. */
  predicate IsOwn(c: Cell) {
    c == PhandleCell(c.node) || c == LinuxCell(c.node)
  }

  lemma OwnCells(n: nat)
    ensures PhandleCell(n).node == n && LinuxCell(n).node == n && PhandleCell(n) != LinuxCell(n)
    ensures IsOwn(PhandleCell(n)) && IsOwn(LinuxCell(n))
  {
  }

  /** A phandle property that can be moved up: absent, or a word that stays below the reserved one. */
  predicate Movable(v: Values, c: Cell, delta: nat) {
    c in v.kind ==> v.kind[c].Word? && CellValue(v.cells, c) + delta < U32 - 1
  }

  ghost predicate AllWords(v: Values) {
    forall c :: Holds(v, c) ==> CellValue(v.cells, c) < U32
  }

  /** The listed cells are moved up and no others. */
  ghost predicate MovedBy(v: Values, v': Values, moved: set<Cell>, delta: nat) {
    && v'.kind == v.kind
    && (forall c :: CellValue(v'.cells, c) == CellValue(v.cells, c) + if c in moved then delta else 0)
  }

  lemma AddOffsetExact(v: Values, c: Cell, delta: nat)
    requires AllWords(v) && delta < U32
    ensures AddOffset(v, c, delta).Ok? <==> Movable(v, c, delta)
    ensures AddOffset(v, c, delta).Ok? ==>
              MovedBy(v, AddOffset(v, c, delta).value, if Holds(v, c) then {c} else {}, delta)
  {
  }

  ghost predicate AllMovable(v: Values, ids: seq<nat>, delta: nat) {
    forall c :: IsOwn(c) && c.node in ids ==> Movable(v, c, delta)
  }

  /** The phandle properties of the listed nodes are moved up and nothing else. */
  ghost predicate Shifted(v: Values, v': Values, ids: seq<nat>, delta: nat) {
    && v'.kind == v.kind
    && (forall c :: CellValue(v'.cells, c)
                 == CellValue(v.cells, c) + if Holds(v, c) && IsOwn(c) && c.node in ids then delta else 0)
  }

  lemma AddBothExact(v: Values, n: nat, delta: nat)
    requires AllWords(v) && delta < U32
    ensures AddBoth(v, n, delta).Ok? <==> AllMovable(v, [n], delta)
    ensures AddBoth(v, n, delta).Ok? ==> Shifted(v, AddBoth(v, n, delta).value, [n], delta)
  {
    hide AddOffset, PhandleCell, LinuxCell;
    OwnCells(n);
    AddOffsetExact(v, PhandleCell(n), delta);
    assert n in [n];
    if AddOffset(v, PhandleCell(n), delta).Ok? {
      var v1 := AddOffset(v, PhandleCell(n), delta).value;
      assert AllWords(v1);
      AddOffsetExact(v1, LinuxCell(n), delta);
      assert Movable(v1, LinuxCell(n), delta) <==> Movable(v, LinuxCell(n), delta);
    }
  }

  /** Two shifts of different nodes are one, and the second does not look at the first. */
  lemma ShiftTwice(v: Values, v1: Values, a: seq<nat>, b: seq<nat>, delta: nat)
    requires Shifted(v, v1, a, delta) && AllWords(v) && AllMovable(v, a, delta) && forall n :: n in a ==> n !in b
    ensures AllWords(v1) && (AllMovable(v1, b, delta) <==> AllMovable(v, b, delta))
    ensures AllMovable(v, a + b, delta) <==> AllMovable(v, b, delta)
    ensures forall v2 :: Shifted(v1, v2, b, delta) ==> Shifted(v, v2, a + b, delta)
  {
    hide IsOwn;
    assert forall c: Cell :: c.node in b ==> CellValue(v1.cells, c) == CellValue(v.cells, c);
    assert forall c :: Holds(v1, c) <==> Holds(v, c);
  }

  /** Shifting succeeds exactly if every phandle of the overlay can move, and then moves them all. */
  lemma {:induction false} AdjustExact(s: Shape, v: Values, delta: nat)
    requires NoDup(Ids(s)) && AllWords(v) && delta < U32
    ensures AdjustNode(s, v, delta).Ok? <==> AllMovable(v, Ids(s), delta)
    ensures AdjustNode(s, v, delta).Ok? ==> Shifted(v, AdjustNode(s, v, delta).value, Ids(s), delta)
    decreases s
  {
    NoDupParts([s.id], KidIds(s.kids));
    AddBothExact(v, s.id, delta);
    if AddBoth(v, s.id, delta).Ok? {
      var v1 := AddBoth(v, s.id, delta).value;
      ShiftTwice(v, v1, [s.id], KidIds(s.kids), delta);
      AdjustKidsExact(s.kids, v1, delta);
    } else {
      assert s.id in Ids(s);
    }
  }

  lemma {:induction false} AdjustKidsExact(kids: seq<Shape>, v: Values, delta: nat)
    requires NoDup(KidIds(kids)) && AllWords(v) && delta < U32
    ensures AdjustKids(kids, v, delta).Ok? <==> AllMovable(v, KidIds(kids), delta)
    ensures AdjustKids(kids, v, delta).Ok? ==> Shifted(v, AdjustKids(kids, v, delta).value, KidIds(kids), delta)
    decreases kids
  {
    if kids != [] {
      NoDupParts(Ids(kids[0]), KidIds(kids[1..]));
      AdjustExact(kids[0], v, delta);
      if AdjustNode(kids[0], v, delta).Ok? {
        var v1 := AdjustNode(kids[0], v, delta).value;
        ShiftTwice(v, v1, Ids(kids[0]), KidIds(kids[1..]), delta);
        AdjustKidsExact(kids[1..], v1, delta);
      } else {
        assert forall n :: n in Ids(kids[0]) ==> n in KidIds(kids);
      }
    }
  }

  // ---------------------------------------------------------------------------------------------
  // References
  // ---------------------------------------------------------------------------------------------

  lemma {:induction false} RewriteElsewhere(cells: map<Cell, nat>, locals: seq<Cell>, r: Rewrite, c: Cell)
    requires c !in locals
    ensures CellValue(RewriteCells(cells, locals, r), c) == CellValue(cells, c)
    decreases |locals|
  {
    if locals != [] {
      RewriteElsewhere(cells[locals[0] := Rewritten(CellValue(cells, locals[0]), r)], locals[1..], r, c);
    }
  }

  /** Replacing looks at each listed cell, listed once or more often, and changes those that match. */
  lemma {:induction false} ReplaceAt(cells: map<Cell, nat>, locals: seq<Cell>, was: nat, p: nat, c: Cell)
    ensures CellValue(RewriteCells(cells, locals, Replace(was, p)), c)
         == if c in locals && CellValue(cells, c) == was then p else CellValue(cells, c)
    decreases |locals|
  {
    if locals != [] {
      ReplaceAt(cells[locals[0] := Rewritten(CellValue(cells, locals[0]), Replace(was, p))], locals[1..], was, p, c);
      assert locals == [locals[0]] + locals[1..];
    }
  }

  // ---------------------------------------------------------------------------------------------
  // Taking over phandles of the base, in any order
  // ---------------------------------------------------------------------------------------------

  datatype Visit = Visit(node: nat, phandle: nat)

  function TakeAll(v: Values, visits: seq<Visit>, locals: seq<Cell>): Values
    decreases |visits|
  {
    if visits == [] then v
    else TakeAll(TakeOver(v, visits[0].node, visits[0].phandle, locals), visits[1..], locals)
  }

  function Nodes(visits: seq<Visit>): seq<nat> {
    if visits == [] then [] else [visits[0].node] + Nodes(visits[1..])
  }

  predicate InPhandle(c: Cell) {
    c.prop == "phandle" || c.prop == "linux,phandle"
  }

  /** No reference stands in the phandle properties of node `n`. */
  ghost predicate Spares(refs: set<Cell>, n: nat) {
    forall c :: c in refs && c.node == n ==> !InPhandle(c)
  }

  ghost predicate SparesAll(refs: set<Cell>) {
    forall c :: c in refs ==> !InPhandle(c)
  }

  function Listed(locals: seq<Cell>): set<Cell> {
    set c | c in locals
  }

  lemma OwnIsSpared(refs: set<Cell>, n: nat)
    requires Spares(refs, n)
    ensures PhandleCell(n) !in refs && LinuxCell(n) !in refs
  {
    assert InPhandle(PhandleCell(n)) && InPhandle(LinuxCell(n));
  }

  /** No two nodes share a phandle above `delta`. */
  ghost predicate Unique(v: Values, ids: seq<nat>, delta: nat) {
    forall n, m :: n in ids && m in ids && GetPhandle(v, n) > delta && GetPhandle(v, n) == GetPhandle(v, m) ==> n == m
  }

  /** The nodes still to be visited have no phandle or one above `delta`, and get one that is not. */
  ghost predicate Pending(v: Values, visits: seq<Visit>, ids: seq<nat>, delta: nat) {
    && NoDup(Nodes(visits))
    && (forall n :: n in Nodes(visits) ==> n in ids && (GetPhandle(v, n) == 0 || GetPhandle(v, n) > delta))
    && (forall i :: 0 <= i < |visits| ==> visits[i].phandle <= delta)
  }

  lemma SetBothPhandle(v: Values, n: nat, p: nat, m: nat)
    requires GetPhandle(v, n) != 0
    ensures GetPhandle(SetBoth(v, n, p), m) == if m == n then p else GetPhandle(v, m)
  {
    OwnCells(n);
    OwnCells(m);
  }

  lemma SetBothCell(v: Values, n: nat, p: nat, c: Cell)
    requires !InPhandle(c)
    ensures CellValue(SetBoth(v, n, p).cells, c) == CellValue(v.cells, c)
  {
  }

  /** A phandle is read from cells of its own node. */
  lemma SameOwnCells(v: Values, cells: map<Cell, nat>, n: nat)
    requires CellValue(cells, PhandleCell(n)) == CellValue(v.cells, PhandleCell(n))
    requires CellValue(cells, LinuxCell(n)) == CellValue(v.cells, LinuxCell(n))
    ensures GetPhandle(v.(cells := cells), n) == GetPhandle(v, n)
  {
  }

  lemma TakeOverPhandle(v: Values, n: nat, p: nat, locals: seq<Cell>, m: nat)
    requires Spares(Listed(locals), m)
    ensures GetPhandle(TakeOver(v, n, p, locals), m)
         == if m == n && p != 0 && GetPhandle(v, n) != 0 then p else GetPhandle(v, m)
  {
    hide GetPhandle, SetBoth, RewriteCells, PhandleCell, LinuxCell;
    var was := GetPhandle(v, n);
    if p != 0 && was != 0 {
      var v1 := SetBoth(v, n, p);
      SetBothPhandle(v, n, p, m);
      OwnIsSpared(Listed(locals), m);
      RewriteElsewhere(v1.cells, locals, Replace(was, p), PhandleCell(m));
      RewriteElsewhere(v1.cells, locals, Replace(was, p), LinuxCell(m));
      SameOwnCells(v1, RewriteCells(v1.cells, locals, Replace(was, p)), m);
    }
  }

  lemma TakeOverCell(v: Values, n: nat, p: nat, locals: seq<Cell>, c: Cell)
    requires !InPhandle(c)
    ensures CellValue(TakeOver(v, n, p, locals).cells, c)
         == if p != 0 && GetPhandle(v, n) != 0 && c in locals && CellValue(v.cells, c) == GetPhandle(v, n) then p
            else CellValue(v.cells, c)
  {
    hide GetPhandle, SetBoth, RewriteCells;
    if p != 0 && GetPhandle(v, n) != 0 {
      SetBothCell(v, n, p, c);
      ReplaceAt(SetBoth(v, n, p).cells, locals, GetPhandle(v, n), p, c);
    }
  }

  lemma PendingNext(v: Values, visits: seq<Visit>, locals: seq<Cell>, ids: seq<nat>, delta: nat)
    requires visits != [] && Pending(v, visits, ids, delta) && Unique(v, ids, delta) && SparesAll(Listed(locals))
    ensures var v' := TakeOver(v, visits[0].node, visits[0].phandle, locals);
            Pending(v', visits[1..], ids, delta) && Unique(v', ids, delta)
  {
    hide TakeOver, GetPhandle, InPhandle;
    var n, p := visits[0].node, visits[0].phandle;
    var v' := TakeOver(v, n, p, locals);
    NoDupParts([n], Nodes(visits[1..]));
    assert n in [n];
    forall m: nat
      ensures GetPhandle(v', m) == if m == n && p != 0 && GetPhandle(v, n) != 0 then p else GetPhandle(v, m)
    {
      TakeOverPhandle(v, n, p, locals, m);
    }
  }

  /** A reference carries the phandle of the node it names. */
  predicate Names(v: Values, c: Cell, t: nat) {
    CellValue(v.cells, c) == GetPhandle(v, t) != 0
  }

  /** The phandle of a node after the shift by `delta`. */
  function Raised(v: Values, delta: nat, n: nat): nat {
    if GetPhandle(v, n) == 0 then 0 else GetPhandle(v, n) + delta
  }

  /** What becomes of a reference of value `x`: each visited node takes along the references to it. */
  function Pushed(v: Values, delta: nat, visits: seq<Visit>, x: nat): nat {
    if visits == [] then x
    else
      var was, p := Raised(v, delta, visits[0].node), visits[0].phandle;
      Pushed(v, delta, visits[1..], if p != 0 && was != 0 && x == was then p else x)
  }

  lemma {:induction false} PushedSame(v: Values, delta: nat, v': Values, delta': nat, visits: seq<Visit>, x: nat)
    requires forall n :: n in Nodes(visits) ==> Raised(v', delta', n) == Raised(v, delta, n)
    ensures Pushed(v', delta', visits, x) == Pushed(v, delta, visits, x)
    decreases |visits|
  {
    hide Raised;
    if visits != [] {
      var was, p := Raised(v, delta, visits[0].node), visits[0].phandle;
      assert visits[0].node in Nodes(visits);
      PushedSame(v, delta, v', delta', visits[1..], if p != 0 && was != 0 && x == was then p else x);
    }
  }

  /** After a visit, the phandles of the nodes still to be visited are what they were. */
  lemma PushedNext(v: Values, visits: seq<Visit>, locals: seq<Cell>, x: nat)
    requires visits != [] && NoDup(Nodes(visits)) && SparesAll(Listed(locals))
    ensures var v' := TakeOver(v, visits[0].node, visits[0].phandle, locals);
            Pushed(v', 0, visits[1..], x) == Pushed(v, 0, visits[1..], x)
  {
    hide TakeOver, GetPhandle, InPhandle, Pushed;
    var n, p := visits[0].node, visits[0].phandle;
    NoDupParts([n], Nodes(visits[1..]));
    assert n in [n];
    forall m | m in Nodes(visits[1..])
      ensures Raised(TakeOver(v, n, p, locals), 0, m) == Raised(v, 0, m)
    {
      TakeOverPhandle(v, n, p, locals, m);
    }
    PushedSame(v, 0, TakeOver(v, n, p, locals), 0, visits[1..], x);
  }

  /** A local reference, whatever it holds, is pushed through the visits. */
  lemma {:induction false} CellPushed(v: Values, visits: seq<Visit>, locals: seq<Cell>, c: Cell)
    requires NoDup(Nodes(visits)) && SparesAll(Listed(locals)) && c in locals
    ensures CellValue(TakeAll(v, visits, locals).cells, c) == Pushed(v, 0, visits, CellValue(v.cells, c))
    decreases |visits|
  {
    hide TakeOver, GetPhandle, InPhandle;
    if visits != [] {
      var n, p := visits[0].node, visits[0].phandle;
      var v' := TakeOver(v, n, p, locals);
      NoDupParts([n], Nodes(visits[1..]));
      TakeOverCell(v, n, p, locals, c);
      CellPushed(v', visits[1..], locals, c);
      PushedNext(v, visits, locals, CellValue(v'.cells, c));
    }
  }

  /** The phandle of a node is pushed through the visits as the references to it are. */
  lemma {:induction false} PhandlePushed(v: Values, visits: seq<Visit>, locals: seq<Cell>, ids: seq<nat>, delta: nat,
                                         t: nat)
    requires Pending(v, visits, ids, delta) && Unique(v, ids, delta) && SparesAll(Listed(locals))
    requires t in ids && GetPhandle(v, t) != 0
    ensures GetPhandle(TakeAll(v, visits, locals), t) == Pushed(v, 0, visits, GetPhandle(v, t)) != 0
    decreases |visits|
  {
    hide TakeOver, GetPhandle, InPhandle;
    if visits != [] {
      var n, p := visits[0].node, visits[0].phandle;
      var v' := TakeOver(v, n, p, locals);
      PendingNext(v, visits, locals, ids, delta);
      TakeOverPhandle(v, n, p, locals, t);
      assert n in Nodes(visits);
      assert t != n && GetPhandle(v, n) != 0 ==> GetPhandle(v, t) != GetPhandle(v, n);
      PhandlePushed(v', visits[1..], locals, ids, delta, t);
      PushedNext(v, visits, locals, GetPhandle(v', t));
    }
  }

  /** Where the phandle of a node comes from in the end. */
  lemma {:induction false} TakeAllPhandle(v: Values, visits: seq<Visit>, locals: seq<Cell>, m: nat)
    requires NoDup(Nodes(visits)) && Spares(Listed(locals), m)
    ensures var p := GetPhandle(TakeAll(v, visits, locals), m);
            p == GetPhandle(v, m) || (p != 0 && GetPhandle(v, m) != 0 && Visit(m, p) in visits)
    ensures forall p :: Visit(m, p) in visits && p != 0 && GetPhandle(v, m) != 0 ==>
              GetPhandle(TakeAll(v, visits, locals), m) == p
    decreases |visits|
  {
    hide TakeOver, GetPhandle, Spares;
    if visits != [] {
      var n, p := visits[0].node, visits[0].phandle;
      NoDupParts([n], Nodes(visits[1..]));
      assert n in [n];
      TakeOverPhandle(v, n, p, locals, m);
      TakeAllPhandle(TakeOver(v, n, p, locals), visits[1..], locals, m);
      assert visits == [visits[0]] + visits[1..];
      forall q | Visit(m, q) in visits[1..]
        ensures m in Nodes(visits[1..])
      {
        NodeListed(visits[1..], Visit(m, q));
      }
    }
  }

  lemma {:induction false} NodeListed(visits: seq<Visit>, x: Visit)
    requires x in visits
    ensures x.node in Nodes(visits)
    decreases |visits|
  {
    if visits[0] != x {
      NodeListed(visits[1..], x);
    }
  }

  // ---------------------------------------------------------------------------------------------
  // The order the trees give
  // ---------------------------------------------------------------------------------------------

  function NodeVisits(b: Base, s: Shape): seq<Visit>
    decreases s
  {
    [Visit(s.id, b.phandle)] + KidVisits(b, s.kids)
  }

  function KidVisits(b: Base, kids: seq<Shape>): seq<Visit>
    decreases kids
  {
    if kids == [] then []
    else
      (match FindBase(b.kids, kids[0].name)
       case None => []
       case Some(k) => NodeVisits(k, kids[0]))
      + KidVisits(b, kids[1..])
  }

  function FragmentVisits(base: Base, f: Shape, target: map<nat, seq<nat>>): seq<Visit> {
    var o := FindShape(f.kids, "__overlay__");
    if o.None? || f.id !in target || BaseAt(base, target[f.id]).None? then []
    else NodeVisits(BaseAt(base, target[f.id]).value, o.value)
  }

  function AllVisits(base: Base, fragments: seq<Shape>, target: map<nat, seq<nat>>): seq<Visit> {
    if fragments == [] then []
    else FragmentVisits(base, fragments[0], target) + AllVisits(base, fragments[1..], target)
  }

  lemma {:induction false} TakeAllAppend(v: Values, a: seq<Visit>, b: seq<Visit>, locals: seq<Cell>)
    ensures TakeAll(v, a + b, locals) == TakeAll(TakeAll(v, a, locals), b, locals)
    decreases |a|
  {
    if a == [] {
      assert a + b == b;
    } else {
      assert (a + b)[1..] == a[1..] + b;
      TakeAllAppend(TakeOver(v, a[0].node, a[0].phandle, locals), a[1..], b, locals);
    }
  }

  lemma {:induction false} NodeOrder(b: Base, s: Shape, v: Values, locals: seq<Cell>)
    ensures PreventNode(b, s, v, locals) == TakeAll(v, NodeVisits(b, s), locals)
    decreases s
  {
    var rest := KidVisits(b, s.kids);
    assert NodeVisits(b, s)[1..] == rest;
    KidOrder(b, s.kids, TakeOver(v, s.id, b.phandle, locals), locals);
  }

  lemma {:induction false} KidOrder(b: Base, kids: seq<Shape>, v: Values, locals: seq<Cell>)
    ensures PreventKids(b, kids, v, locals) == TakeAll(v, KidVisits(b, kids), locals)
    decreases kids
  {
    if kids != [] {
      match FindBase(b.kids, kids[0].name)
      case None =>
        assert KidVisits(b, kids) == KidVisits(b, kids[1..]);
        KidOrder(b, kids[1..], v, locals);
      case Some(k) =>
        NodeOrder(k, kids[0], v, locals);
        TakeAllAppend(v, NodeVisits(k, kids[0]), KidVisits(b, kids[1..]), locals);
        KidOrder(b, kids[1..], PreventNode(k, kids[0], v, locals), locals);
    }
  }

  lemma {:induction false} AllOrder(base: Base, fragments: seq<Shape>, target: map<nat, seq<nat>>, v: Values,
                                    locals: seq<Cell>)
    ensures PreventAll(base, fragments, target, v, locals) == TakeAll(v, AllVisits(base, fragments, target), locals)
    decreases |fragments|
  {
    if fragments != [] {
      var f := fragments[0];
      var v1 := PreventFragment(base, f, target, v, locals);
      var o := FindShape(f.kids, "__overlay__");
      if !(o.None? || f.id !in target || BaseAt(base, target[f.id]).None?) {
        NodeOrder(BaseAt(base, target[f.id]).value, o.value, v, locals);
      }
      assert v1 == TakeAll(v, FragmentVisits(base, f, target), locals);
      TakeAllAppend(v, FragmentVisits(base, f, target), AllVisits(base, fragments[1..], target), locals);
      AllOrder(base, fragments[1..], target, v1, locals);
    }
  }

  // ---------------------------------------------------------------------------------------------
  // Every node is visited at most once, with a phandle of the base
  // ---------------------------------------------------------------------------------------------

  /** The visits go to listed nodes, each once, with phandles no larger than `max`. */
  ghost predicate Proper(visits: seq<Visit>, ids: seq<nat>, max: nat) {
    && NoDup(Nodes(visits))
    && (forall n :: n in Nodes(visits) ==> n in ids)
    && (forall i :: 0 <= i < |visits| ==> visits[i].phandle <= max)
  }

  lemma {:induction false} NodesAppend(a: seq<Visit>, b: seq<Visit>)
    ensures Nodes(a + b) == Nodes(a) + Nodes(b)
    decreases |a|
  {
    if a == [] {
      assert a + b == b;
    } else {
      assert (a + b)[1..] == a[1..] + b;
      NodesAppend(a[1..], b);
    }
  }

  lemma ProperJoin(a: seq<Visit>, b: seq<Visit>, idsA: seq<nat>, idsB: seq<nat>, max: nat)
    requires Proper(a, idsA, max) && Proper(b, idsB, max) && NoDup(idsA + idsB)
    ensures Proper(a + b, idsA + idsB, max)
  {
    NodesAppend(a, b);
    NoDupParts(idsA, idsB);
    NoDupJoin(Nodes(a), Nodes(b));
  }

  lemma ProperMore(a: seq<Visit>, ids: seq<nat>, ids': seq<nat>, max: nat, max': nat)
    requires Proper(a, ids, max) && max <= max' && forall n :: n in ids ==> n in ids'
    ensures Proper(a, ids', max')
  {
  }

  lemma FindBaseMax(kids: seq<Base>, name: string)
    ensures FindBase(kids, name).Some? ==> MaxPhandle(FindBase(kids, name).value) <= MaxOfKids(kids)
  {
  }

  lemma {:induction false} NodeProper(b: Base, s: Shape)
    requires NoDup(Ids(s))
    ensures Proper(NodeVisits(b, s), Ids(s), MaxPhandle(b))
    decreases s
  {
    var first, rest := [Visit(s.id, b.phandle)], KidVisits(b, s.kids);
    NoDupParts([s.id], KidIds(s.kids));
    KidsProper(b, s.kids);
    ProperMore(rest, KidIds(s.kids), KidIds(s.kids), MaxOfKids(b.kids), MaxPhandle(b));
    assert Nodes(first) == [s.id];
    ProperJoin(first, rest, [s.id], KidIds(s.kids), MaxPhandle(b));
  }

  lemma {:induction false} KidsProper(b: Base, kids: seq<Shape>)
    requires NoDup(KidIds(kids))
    ensures Proper(KidVisits(b, kids), KidIds(kids), MaxOfKids(b.kids))
    decreases kids
  {
    if kids != [] {
      var rest := KidVisits(b, kids[1..]);
      NoDupParts(Ids(kids[0]), KidIds(kids[1..]));
      KidsProper(b, kids[1..]);
      FindBaseMax(b.kids, kids[0].name);
      match FindBase(b.kids, kids[0].name)
      case None =>
        assert KidVisits(b, kids) == rest;
        ProperMore(rest, KidIds(kids[1..]), KidIds(kids), MaxOfKids(b.kids), MaxOfKids(b.kids));
      case Some(k) =>
        NodeProper(k, kids[0]);
        ProperMore(NodeVisits(k, kids[0]), Ids(kids[0]), Ids(kids[0]), MaxPhandle(k), MaxOfKids(b.kids));
        ProperJoin(NodeVisits(k, kids[0]), rest, Ids(kids[0]), KidIds(kids[1..]), MaxOfKids(b.kids));
    }
  }

  lemma {:induction false} KidMax(kids: seq<Base>, i: nat)
    requires i < |kids|
    ensures MaxPhandle(kids[i]) <= MaxOfKids(kids)
    decreases |kids|
  {
    if i > 0 {
      KidMax(kids[1..], i - 1);
    }
  }

  lemma {:induction false} BaseAtMax(b: Base, path: seq<nat>)
    ensures BaseAt(b, path).Some? ==> MaxPhandle(BaseAt(b, path).value) <= MaxPhandle(b)
    decreases |path|
  {
    if path != [] && path[0] < |b.kids| {
      KidMax(b.kids, path[0]);
      BaseAtMax(b.kids[path[0]], path[1..]);
    }
  }

  lemma {:induction false} FoundIds(kids: seq<Shape>, s: Shape)
    requires s in kids && NoDup(KidIds(kids))
    ensures NoDup(Ids(s)) && forall n :: n in Ids(s) ==> n in KidIds(kids)
    decreases |kids|
  {
    NoDupParts(Ids(kids[0]), KidIds(kids[1..]));
    if kids[0] != s {
      FoundIds(kids[1..], s);
    }
  }

  lemma {:induction false} AllProper(base: Base, fragments: seq<Shape>, target: map<nat, seq<nat>>)
    requires NoDup(KidIds(fragments))
    ensures Proper(AllVisits(base, fragments, target), KidIds(fragments), MaxPhandle(base))
    decreases |fragments|
  {
    if fragments != [] {
      var f := fragments[0];
      NoDupParts(Ids(f), KidIds(fragments[1..]));
      FragmentProper(base, f, target);
      AllProper(base, fragments[1..], target);
      ProperJoin(FragmentVisits(base, f, target), AllVisits(base, fragments[1..], target), Ids(f),
                 KidIds(fragments[1..]), MaxPhandle(base));
    }
  }

  lemma FragmentProper(base: Base, f: Shape, target: map<nat, seq<nat>>)
    requires NoDup(Ids(f))
    ensures Proper(FragmentVisits(base, f, target), Ids(f), MaxPhandle(base))
  {
    var o := FindShape(f.kids, "__overlay__");
    NoDupParts([f.id], KidIds(f.kids));
    if !(o.None? || f.id !in target || BaseAt(base, target[f.id]).None?) {
      var b := BaseAt(base, target[f.id]).value;
      FoundIds(f.kids, o.value);
      NodeProper(b, o.value);
      BaseAtMax(base, target[f.id]);
      ProperMore(NodeVisits(b, o.value), Ids(o.value), Ids(f), MaxPhandle(b), MaxPhandle(base));
    }
  }

  // ---------------------------------------------------------------------------------------------
  // The whole renaming
  // ---------------------------------------------------------------------------------------------

  /** Every node of the overlay has its own nonzero phandle or none; words are words. */
  ghost predicate Clean(v: Values, ids: seq<nat>) {
    && AllWords(v)
    && (forall c :: Holds(v, c) ==> CellValue(v.cells, c) != 0)
    && (forall n, m :: n in ids && m in ids && GetPhandle(v, n) != 0 && GetPhandle(v, n) == GetPhandle(v, m) ==> n == m)
  }

  lemma ShiftedPhandle(v: Values, v': Values, ids: seq<nat>, delta: nat, n: nat)
    requires Shifted(v, v', ids, delta) && Clean(v, ids) && n in ids && AllMovable(v, ids, delta)
    ensures GetPhandle(v', n) == Raised(v, delta, n) < U32
  {
    hide PhandleCell, LinuxCell;
    OwnCells(n);
    assert Holds(v', PhandleCell(n)) <==> Holds(v, PhandleCell(n));
    assert Movable(v, PhandleCell(n), delta) && Movable(v, LinuxCell(n), delta);
  }

  /** The references: the local ones and those that were resolved through symbols of the base. */
  function Refs(locals: seq<Cell>, external: map<Cell, nat>): set<Cell> {
    Listed(locals) + external.Keys
  }

  /** The state after the phandles are shifted, the state before the take-overs, and what follows. */
  lemma Stages(base: Base, root: Shape, fixups: Fixup, target: map<nat, seq<nat>>, external: map<Cell, nat>, v: Values)
    returns (v1: Values, v2: Values, locals: seq<Cell>)
    requires NoDup(Ids(root)) && Clean(v, Ids(root)) && MaxPhandle(base) < U32
    requires Apply(base, root, fixups, target, external, v).Ok?
    ensures Locals(root, fixups) == Ok(locals)
    ensures Shifted(v, v1, Ids(root), MaxPhandle(base)) && AllMovable(v, Ids(root), MaxPhandle(base))
    ensures v2 == v1.(cells := RewriteCells(v1.cells, locals, Shift(MaxPhandle(base))) + external)
    ensures Proper(AllVisits(base, root.kids, target), Ids(root), MaxPhandle(base))
    ensures Apply(base, root, fixups, target, external, v).value
         == TakeAll(v2, AllVisits(base, root.kids, target), locals)
  {
    hide GetPhandle, AdjustNode, Locals, PreventAll, RewriteCells, AllVisits, Clean, MaxPhandle, Shifted, AllMovable;
    var delta, ids := MaxPhandle(base), Ids(root);
    assert AllWords(v) by { CleanWords(v, ids); }
    AdjustExact(root, v, delta);
    v1 := AdjustNode(root, v, delta).value;
    locals := Locals(root, fixups).value;
    v2 := v1.(cells := RewriteCells(v1.cells, locals, Shift(delta)) + external);
    NoDupParts([root.id], KidIds(root.kids));
    AllProper(base, root.kids, target);
    ProperMore(AllVisits(base, root.kids, target), KidIds(root.kids), ids, delta, delta);
    AllOrder(base, root.kids, target, v2, locals);
  }

  lemma CleanWords(v: Values, ids: seq<nat>)
    requires Clean(v, ids)
    ensures AllWords(v)
  {
  }

  /** Before the take-overs, a node whose phandle properties hold no reference has its shifted phandle. */
  lemma StagePhandle(v: Values, v1: Values, v2: Values, ids: seq<nat>, delta: nat, locals: seq<Cell>,
                     external: map<Cell, nat>, n: nat)
    requires Shifted(v, v1, ids, delta) && Clean(v, ids) && AllMovable(v, ids, delta) && n in ids
    requires v2 == v1.(cells := RewriteCells(v1.cells, locals, Shift(delta)) + external)
    requires Spares(Refs(locals, external), n)
    ensures GetPhandle(v2, n) == Raised(v, delta, n) < U32
  {
    hide GetPhandle, Clean, Shifted, AllMovable, PhandleCell, LinuxCell, RewriteCells, Raised;
    ShiftedPhandle(v, v1, ids, delta, n);
    OwnIsSpared(Refs(locals, external), n);
    RewriteElsewhere(v1.cells, locals, Shift(delta), PhandleCell(n));
    RewriteElsewhere(v1.cells, locals, Shift(delta), LinuxCell(n));
    SameOwnCells(v1, v2.cells, n);
  }

  /** Before the take-overs, a local reference has been shifted as often as it is listed. */
  lemma StageCell(v: Values, v1: Values, v2: Values, ids: seq<nat>, delta: nat, locals: seq<Cell>,
                  external: map<Cell, nat>, c: Cell)
    requires Shifted(v, v1, ids, delta) && c !in external && !InPhandle(c) && CellValue(v.cells, c) < U32
    requires v2 == v1.(cells := RewriteCells(v1.cells, locals, Shift(delta)) + external)
    ensures CellValue(v2.cells, c) == (CellValue(v.cells, c) + multiset(locals)[c] * delta) % U32
  {
    hide RewriteCells;
    assert CellValue(v1.cells, c) == CellValue(v.cells, c);
    ShiftCount(v1.cells, locals, delta, c);
  }

  lemma StagesPending(v: Values, v1: Values, v2: Values, ids: seq<nat>, delta: nat, locals: seq<Cell>,
                      external: map<Cell, nat>, visits: seq<Visit>)
    requires Shifted(v, v1, ids, delta) && Clean(v, ids) && AllMovable(v, ids, delta) && Proper(visits, ids, delta)
    requires v2 == v1.(cells := RewriteCells(v1.cells, locals, Shift(delta)) + external)
    requires SparesAll(Refs(locals, external))
    ensures Pending(v2, visits, ids, delta) && Unique(v2, ids, delta)
    ensures forall n :: n in ids ==> GetPhandle(v2, n) == Raised(v, delta, n) < U32
  {
    hide GetPhandle, Shifted, AllMovable, RewriteCells, InPhandle;
    forall n | n in ids
      ensures GetPhandle(v2, n) == Raised(v, delta, n) < U32
    {
      StagePhandle(v, v1, v2, ids, delta, locals, external, n);
    }
  }

  lemma NamedIsWord(v: Values, ids: seq<nat>, c: Cell, t: nat)
    requires Clean(v, ids) && Names(v, c, t)
    ensures CellValue(v.cells, c) < U32
  {
  }

  /**
   A local reference that carried the phandle of a node of the overlay carries it afterwards if
   and only if the value it was shifted to, once for every time the fixups list it, is pushed
   through the visits to where the node's shifted phandle is.
   */
  lemma LocalReferenceExactly(base: Base, root: Shape, fixups: Fixup, target: map<nat, seq<nat>>,
                              external: map<Cell, nat>, v: Values, c: Cell, t: nat)
    requires NoDup(Ids(root)) && Clean(v, Ids(root)) && MaxPhandle(base) < U32
    requires Apply(base, root, fixups, target, external, v).Ok? && Locals(root, fixups).Ok?
    requires SparesAll(Refs(Locals(root, fixups).value, external))
    requires c in Locals(root, fixups).value && c !in external && t in Ids(root) && Names(v, c, t)
    ensures var delta, visits := MaxPhandle(base), AllVisits(base, root.kids, target);
            var x, k := CellValue(v.cells, c), multiset(Locals(root, fixups).value)[c];
            && Names(Apply(base, root, fixups, target, external, v).value, c, t)
               == (Pushed(v, delta, visits, (x + k * delta) % U32) == Pushed(v, delta, visits, x + delta))
            && x + delta < U32
  {
    hide GetPhandle, Apply, Locals, RewriteCells, AllVisits, Clean, Unique, MaxPhandle, TakeAll, Shifted, AllMovable,
         InPhandle, Pushed;
    var delta, ids, visits := MaxPhandle(base), Ids(root), AllVisits(base, root.kids, target);
    var v1, v2, locals := Stages(base, root, fixups, target, external, v);
    StagesPending(v, v1, v2, ids, delta, locals, external, visits);
    NamedIsWord(v, ids, c, t);
    StageCell(v, v1, v2, ids, delta, locals, external, c);
    CellPushed(v2, visits, locals, c);
    PhandlePushed(v2, visits, locals, ids, delta, t);
    PushedSame(v, delta, v2, 0, visits, CellValue(v2.cells, c));
    PushedSame(v, delta, v2, 0, visits, GetPhandle(v2, t));
  }

  /**
   Applying an overlay keeps every local reference: a cell the fixups list once, or so often
   that the additional shifts come to a multiple of 2^32, which carried the phandle of a node of
   the overlay, carries the phandle of that node afterwards.
   */
  lemma LocalReferencesKept(base: Base, root: Shape, fixups: Fixup, target: map<nat, seq<nat>>,
                            external: map<Cell, nat>, v: Values, c: Cell, t: nat)
    requires NoDup(Ids(root)) && Clean(v, Ids(root)) && MaxPhandle(base) < U32
    requires Apply(base, root, fixups, target, external, v).Ok? && Locals(root, fixups).Ok?
    requires SparesAll(Refs(Locals(root, fixups).value, external))
    requires c in Locals(root, fixups).value && c !in external && t in Ids(root) && Names(v, c, t)
    requires ((multiset(Locals(root, fixups).value)[c] - 1) * MaxPhandle(base)) % U32 == 0
    ensures Names(Apply(base, root, fixups, target, external, v).value, c, t)
  {
    hide GetPhandle, Apply, Locals, AllVisits, Clean, MaxPhandle, InPhandle, Pushed;
    LocalReferenceExactly(base, root, fixups, target, external, v, c, t);
    ListedTimes(CellValue(v.cells, c), multiset(Locals(root, fixups).value)[c], MaxPhandle(base));
  }

  lemma ListedTimes(x: nat, k: nat, delta: nat)
    requires k >= 1 && x + delta < U32
    ensures (x + k * delta) % U32 == x + delta <==> ((k - 1) * delta) % U32 == 0
  {
    assert x + k * delta == (x + delta) + (k - 1) * delta;
    ModShift(x + delta, (k - 1) * delta, U32);
  }

  /** No visited node has a phandle that it gives up for one of the base. */
  predicate NoTakeOvers(v: Values, visits: seq<Visit>) {
    forall i :: 0 <= i < |visits| ==> visits[i].phandle == 0 || GetPhandle(v, visits[i].node) == 0
  }

  lemma {:induction false} NotPushed(v: Values, delta: nat, visits: seq<Visit>, x: nat)
    requires NoTakeOvers(v, visits)
    ensures Pushed(v, delta, visits, x) == x
    decreases |visits|
  {
    if visits != [] {
      NotPushed(v, delta, visits[1..], x);
    }
  }

  /** If no node takes over a phandle of the base, that is the only way for it to stay. */
  lemma ListedOften(base: Base, root: Shape, fixups: Fixup, target: map<nat, seq<nat>>, external: map<Cell, nat>,
                    v: Values, c: Cell, t: nat)
    requires NoDup(Ids(root)) && Clean(v, Ids(root)) && MaxPhandle(base) < U32
    requires Apply(base, root, fixups, target, external, v).Ok? && Locals(root, fixups).Ok?
    requires SparesAll(Refs(Locals(root, fixups).value, external)) && NoTakeOvers(v, AllVisits(base, root.kids, target))
    requires c in Locals(root, fixups).value && c !in external && t in Ids(root) && Names(v, c, t)
    ensures Names(Apply(base, root, fixups, target, external, v).value, c, t)
       <==> ((multiset(Locals(root, fixups).value)[c] - 1) * MaxPhandle(base)) % U32 == 0
  {
    hide GetPhandle, Apply, Locals, Clean, MaxPhandle, InPhandle, AllVisits, Pushed, NoTakeOvers;
    LocalReferenceExactly(base, root, fixups, target, external, v, c, t);
    var x, k, delta := CellValue(v.cells, c), multiset(Locals(root, fixups).value)[c], MaxPhandle(base);
    NotPushed(v, delta, AllVisits(base, root.kids, target), (x + k * delta) % U32);
    NotPushed(v, delta, AllVisits(base, root.kids, target), x + delta);
    ListedTimes(x, k, delta);
  }

  lemma {:induction false} NoVisits(base: Base, fragments: seq<Shape>)
    ensures AllVisits(base, fragments, map[]) == []
    decreases |fragments|
  {
    if fragments != [] {
      NoVisits(base, fragments[1..]);
    }
  }

  /** Where the phandle of a node ends whose phandle properties hold no reference. */
  lemma PhandleEnds(base: Base, root: Shape, fixups: Fixup, target: map<nat, seq<nat>>, external: map<Cell, nat>,
                    v: Values, n: nat)
    requires NoDup(Ids(root)) && Clean(v, Ids(root)) && MaxPhandle(base) < U32
    requires Apply(base, root, fixups, target, external, v).Ok? && n in Ids(root) && Locals(root, fixups).Ok?
    requires Spares(Refs(Locals(root, fixups).value, external), n)
    ensures var p := GetPhandle(Apply(base, root, fixups, target, external, v).value, n);
            var visits := AllVisits(base, root.kids, target);
            && (p == 0 <==> GetPhandle(v, n) == 0)
            && (p == 0 || p == GetPhandle(v, n) + MaxPhandle(base) > MaxPhandle(base) || Visit(n, p) in visits)
            && (forall q :: Visit(n, q) in visits && q != 0 && GetPhandle(v, n) != 0 ==> p == q)
  {
    hide GetPhandle, Apply, Locals, RewriteCells, AllVisits, Clean, MaxPhandle, TakeAll, Shifted, AllMovable, InPhandle;
    var delta := MaxPhandle(base);
    var v1, v2, locals := Stages(base, root, fixups, target, external, v);
    StagePhandle(v, v1, v2, Ids(root), delta, locals, external, n);
    TakeAllPhandle(v2, AllVisits(base, root.kids, target), locals, n);
  }

  /** The cell a node's phandle is read from. */
  function Source(v: Values, n: nat): Cell {
    if Holds(v, PhandleCell(n)) then PhandleCell(n) else LinuxCell(n)
  }

  /**
   References in phandle properties are the one way to be captured: of a node that is not merged
   into the base, the phandle is in the end above every phandle of the base if and only if the
   cell it is read from is no reference that was resolved through a symbol of the base.
   */
  lemma CapturedExactly(base: Base, root: Shape, fixups: Fixup, target: map<nat, seq<nat>>, external: map<Cell, nat>,
                        v: Values, n: nat)
    requires NoDup(Ids(root)) && Clean(v, Ids(root)) && MaxPhandle(base) < U32
    requires Apply(base, root, fixups, target, external, v).Ok? && n in Ids(root) && Locals(root, fixups).Ok?
    requires Spares(Listed(Locals(root, fixups).value), n) && GetPhandle(v, n) != 0
    requires n !in Nodes(AllVisits(base, root.kids, target))
    requires forall c :: c in external ==> external[c] <= MaxPhandle(base)
    ensures GetPhandle(Apply(base, root, fixups, target, external, v).value, n) > MaxPhandle(base)
       <==> Source(v, n) !in external
  {
    hide GetPhandle, Apply, Locals, RewriteCells, AllVisits, Clean, MaxPhandle, TakeAll, Shifted, AllMovable, InPhandle,
         Source;
    var delta, visits := MaxPhandle(base), AllVisits(base, root.kids, target);
    var v1, v2, locals := Stages(base, root, fixups, target, external, v);
    ShiftedPhandle(v, v1, Ids(root), delta, n);
    OwnIsSpared(Listed(locals), n);
    RewriteElsewhere(v1.cells, locals, Shift(delta), PhandleCell(n));
    RewriteElsewhere(v1.cells, locals, Shift(delta), LinuxCell(n));
    SourceRead(v, v1, v2, n, external, Ids(root), delta);
    TakeAllPhandle(v2, visits, locals, n);
    if p: nat :| Visit(n, p) in visits {
      NodeListed(visits, Visit(n, p));
    }
  }

  lemma SourceRead(v: Values, v1: Values, v2: Values, n: nat, external: map<Cell, nat>, ids: seq<nat>, delta: nat)
    requires Shifted(v, v1, ids, delta) && v2.kind == v1.kind && GetPhandle(v, n) != 0
    requires forall c :: c in {PhandleCell(n), LinuxCell(n)} ==>
               CellValue(v2.cells, c) == if c in external then external[c] else CellValue(v1.cells, c)
    ensures GetPhandle(v2, n) == if Source(v, n) in external then external[Source(v, n)] else GetPhandle(v1, n)
  {
    hide PhandleCell, LinuxCell;
    assert forall c :: Holds(v2, c) == Holds(v, c) == Holds(v1, c);
  }

  /** References that were resolved in the base are not touched by the take-overs. */
  lemma ExternalReferencesKept(base: Base, root: Shape, fixups: Fixup, target: map<nat, seq<nat>>,
                               external: map<Cell, nat>, v: Values, c: Cell)
    requires Apply(base, root, fixups, target, external, v).Ok? && Locals(root, fixups).Ok?
    requires c in external && c !in Locals(root, fixups).value && !InPhandle(c)
    ensures CellValue(Apply(base, root, fixups, target, external, v).value.cells, c) == external[c]
  {
    hide AdjustNode, Locals, PreventAll, RewriteCells, AllVisits;
    var delta, locals := MaxPhandle(base), Locals(root, fixups).value;
    var v1 := AdjustNode(root, v, delta).value;
    var v2 := v1.(cells := RewriteCells(v1.cells, locals, Shift(delta)) + external);
    AllOrder(base, root.kids, target, v2, locals);
    TakeAllElsewhere(v2, AllVisits(base, root.kids, target), locals, c);
  }

  lemma {:induction false} TakeAllElsewhere(v: Values, visits: seq<Visit>, locals: seq<Cell>, c: Cell)
    requires c !in locals && !InPhandle(c)
    ensures CellValue(TakeAll(v, visits, locals).cells, c) == CellValue(v.cells, c)
    decreases |visits|
  {
    hide TakeOver, InPhandle;
    if visits != [] {
      TakeOverCell(v, visits[0].node, visits[0].phandle, locals, c);
      TakeAllElsewhere(TakeOver(v, visits[0].node, visits[0].phandle, locals), visits[1..], locals, c);
    }
  }

  // ---------------------------------------------------------------------------------------------
  // Cells that the fixups list more than once
  // ---------------------------------------------------------------------------------------------

  lemma ModAdd(a: nat, b: nat, n: nat)
    requires n > 0
    ensures (a % n + b) % n == (a + b) % n
  {
    var q := a / n;
    assert a + b == n * q + (a % n + b);
    var q', r := (a % n + b) / n, (a % n + b) % n;
    assert a + b == n * (q + q') + r;
    DivModUnique(a + b, n, q + q', r);
  }

  lemma ModShift(a: nat, b: nat, n: nat)
    requires n > 0 && a < n
    ensures (a + b) % n == a <==> b % n == 0
  {
    var q, r := b / n, b % n;
    if a + r < n {
      assert a + b == n * q + (a + r);
      DivModUnique(a + b, n, q, a + r);
    } else {
      assert a + b == n * (q + 1) + (a + r - n);
      DivModUnique(a + b, n, q + 1, a + r - n);
    }
  }

  /** A cell is shifted once for every time it is listed. */
  lemma {:induction false} ShiftCount(cells: map<Cell, nat>, locals: seq<Cell>, delta: nat, c: Cell)
    requires CellValue(cells, c) < U32
    ensures CellValue(RewriteCells(cells, locals, Shift(delta)), c)
         == (CellValue(cells, c) + multiset(locals)[c] * delta) % U32
    decreases |locals|
  {
    hide Rewritten;
    if locals != [] {
      var first := cells[locals[0] := Rewritten(CellValue(cells, locals[0]), Shift(delta))];
      var k := multiset(locals[1..])[c];
      assert locals == [locals[0]] + locals[1..];
      ShiftedOnce(CellValue(cells, locals[0]), delta);
      ShiftCount(first, locals[1..], delta, c);
      ShiftOnceMore(CellValue(cells, c), k, delta);
    }
  }

  lemma ShiftedOnce(x: nat, delta: nat)
    ensures Rewritten(x, Shift(delta)) == (x + delta) % U32 < U32
  {
  }

  lemma ShiftOnceMore(x: nat, k: nat, delta: nat)
    ensures ((x + delta) % U32 + k * delta) % U32 == (x + (k + 1) * delta) % U32
  {
    ModAdd(x + delta, k * delta, U32);
    assert (k + 1) * delta == k * delta + delta;
  }

  // ---------------------------------------------------------------------------------------------
  // Two overlays that go wrong
  // ---------------------------------------------------------------------------------------------

  /** An overlay of one node with phandle 1 and a reference to itself. */
  function SelfRoot(): Shape {
    Shape(0, "", {}, [Shape(1, "a", {"ref"}, [])])
  }

  function SelfValues(): Values {
    Values(map[PhandleCell(1) := Word], map[PhandleCell(1) := 1, Cell(1, "ref", 0) := 1])
  }

  function SelfFixups(offsets: seq<nat>): Fixup {
    Fixup("", [], [Fixup("a", [FixupProp("ref", false, offsets)], [])])
  }

  lemma SelfAdjusted(delta: nat)
    requires delta < U32 - 2
    ensures AdjustNode(SelfRoot(), SelfValues(), delta)
         == Ok(SelfValues().(cells := SelfValues().cells[PhandleCell(1) := 1 + delta]))
  {
    var v := SelfValues();
    OwnCells(0);
    OwnCells(1);
    assert AddBoth(v, 0, delta) == Ok(v);
    var v1 := v.(cells := v.cells[PhandleCell(1) := 1 + delta]);
    assert AddBoth(v, 1, delta) == Ok(v1);
    var a := SelfRoot().kids[0];
    assert AdjustKids([], v1, delta) == Ok(v1);
    assert AdjustNode(a, v, delta) == Ok(v1);
    assert AdjustKids([a], v, delta) == Ok(v1);
  }

  lemma SelfLocals(offsets: seq<nat>)
    ensures Locals(SelfRoot(), SelfFixups(offsets)) == Ok(CellsOf(1, "ref", offsets))
  {
    var a := SelfRoot().kids[0];
    var cells := CellsOf(1, "ref", offsets);
    var f := Fixup("a", [FixupProp("ref", false, offsets)], []);
    assert PropCells(a, f.props[1..]) == Ok([]);
    assert PropCells(a, f.props) == Ok(cells + []) && cells + [] == cells;
    assert Locals(a, f) == Ok(cells + []);
    assert KidLocals(SelfRoot(), [f][1..]) == Ok([]);
    assert KidLocals(SelfRoot(), [f]) == Ok(cells + []);
    assert [] + cells == cells;
  }

  /** In a base whose largest phandle is 5, a reference that the fixups list twice ends at 11 and its node at 6. */
  lemma ReferenceListedTwice()
    ensures var c := Cell(1, "ref", 0);
            var result := Apply(Base("", 5, []), SelfRoot(), SelfFixups([0, 0]), map[], map[], SelfValues());
            && Names(SelfValues(), c, 1)
            && result.Ok? && CellValue(result.value.cells, c) == 11 && GetPhandle(result.value, 1) == 6
            && !Names(result.value, c, 1)
  {
    var c, v, locals := Cell(1, "ref", 0), SelfValues(), CellsOf(1, "ref", [0, 0]);
    SelfAdjusted(5);
    SelfLocals([0, 0]);
    var v1 := AdjustNode(SelfRoot(), v, 5).value;
    assert locals == [c, c] by { assert CellsOf(1, "ref", [0, 0][1..]) == [c]; }
    var once := v1.cells[c := 6];
    assert RewriteCells(v1.cells, [c, c], Shift(5)) == RewriteCells(once, [c], Shift(5)) == once[c := 11];
    NoVisits(Base("", 5, []), SelfRoot().kids);
    AllOrder(Base("", 5, []), SelfRoot().kids, map[], v1.(cells := once[c := 11] + map[]), locals);
  }

  /** A phandle property that a symbol of the base was written into: node 1 gets the base's phandle 3. */
  lemma PhandleResolvedInBase()
    ensures var base, external := Base("", 5, [Base("b", 3, [])]), map[PhandleCell(1) := 3];
            var result := Apply(base, SelfRoot(), SelfFixups([0]), map[], external, SelfValues());
            result.Ok? && GetPhandle(result.value, 1) == 3 == base.kids[0].phandle
  {
    var base, external, c := Base("", 5, [Base("b", 3, [])]), map[PhandleCell(1) := 3], Cell(1, "ref", 0);
    assert MaxOfKids(base.kids[1..]) == 0;
    assert MaxPhandle(base.kids[0]) == 3;
    assert MaxPhandle(base) == 5;
    SelfAdjusted(5);
    SelfLocals([0]);
    var v1 := AdjustNode(SelfRoot(), SelfValues(), 5).value;
    var cells := RewriteCells(v1.cells, CellsOf(1, "ref", [0]), Shift(5)) + external;
    NoVisits(base, SelfRoot().kids);
    AllOrder(base, SelfRoot().kids, map[], v1.(cells := cells), CellsOf(1, "ref", [0]));
  }
}
