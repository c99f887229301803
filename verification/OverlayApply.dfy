/** Overlay application with the phandles and the cells of the overlay rewritten in place. */
module OverlayApply {

  import opened Basics
  import opened Overlay

  lemma {:induction false} RewriteAppend(cells: map<Cell, nat>, a: seq<Cell>, b: seq<Cell>, r: Rewrite)
    ensures RewriteCells(cells, a + b, r) == RewriteCells(RewriteCells(cells, a, r), b, r)
    decreases |a|
  {
    if a == [] {
      assert a + b == b;
    } else {
      assert (a + b)[0] == a[0] && (a + b)[1..] == a[1..] + b;
      RewriteAppend(cells[a[0] := Rewritten(CellValue(cells, a[0]), r)], a[1..], b, r);
    }
  }

  /** Rewriting the cells of `rest`, if they are found, ends where rewriting those of `whole` does. */
  ghost predicate Onward(cells: map<Cell, nat>, rest: Result<seq<Cell>>, start: map<Cell, nat>,
                         whole: Result<seq<Cell>>, r: Rewrite)
  {
    match whole
    case Err(e) => rest == Err(e)
    case Ok(all) => rest.Ok? && RewriteCells(cells, rest.value, r) == RewriteCells(start, all, r)
  }

  lemma PropStep(s: Shape, props: seq<FixupProp>, i: nat, cells: map<Cell, nat>, start: map<Cell, nat>,
                 whole: Result<seq<Cell>>, r: Rewrite)
    requires i < |props| && Onward(cells, PropCells(s, props[i..]), start, whole, r)
    ensures props[i].ragged || props[i].name !in s.props ==> whole == Err(BADOVERLAY)
    ensures !props[i].ragged && props[i].name in s.props ==>
              Onward(RewriteCells(cells, CellsOf(s.id, props[i].name, props[i].offsets), r),
                     PropCells(s, props[i + 1..]), start, whole, r)
  {
    assert props[i..][0] == props[i] && props[i..][1..] == props[i + 1..];
    var rest := PropCells(s, props[i + 1..]);
    if rest.Ok? {
      RewriteAppend(cells, CellsOf(s.id, props[i].name, props[i].offsets), rest.value, r);
    }
  }

  lemma KidStep(s: Shape, kids: seq<Fixup>, i: nat, cells: map<Cell, nat>, start: map<Cell, nat>,
                whole: Result<seq<Cell>>, r: Rewrite)
    requires i < |kids| && Onward(cells, KidLocals(s, kids[i..]), start, whole, r)
    ensures FindShape(s.kids, kids[i].name).None? ==> whole == Err(BADOVERLAY)
    ensures FindShape(s.kids, kids[i].name).Some? ==>
              var first := Locals(FindShape(s.kids, kids[i].name).value, kids[i]);
              && (first.Err? ==> whole.Err? && whole.code == first.code)
              && (first.Ok? ==>
                    Onward(RewriteCells(cells, first.value, r), KidLocals(s, kids[i + 1..]), start, whole, r))
  {
    hide Locals;
    assert kids[i..][0] == kids[i] && kids[i..][1..] == kids[i + 1..];
    var t := FindShape(s.kids, kids[i].name);
    var rest := KidLocals(s, kids[i + 1..]);
    if t.Some? && Locals(t.value, kids[i]).Ok? && rest.Ok? {
      RewriteAppend(cells, Locals(t.value, kids[i]).value, rest.value, r);
    }
  }

  lemma KidsAfterProps(s: Shape, f: Fixup, cells: map<Cell, nat>, start: map<Cell, nat>, r: Rewrite)
    requires PropCells(s, f.props).Ok? && cells == RewriteCells(start, PropCells(s, f.props).value, r)
    ensures Onward(cells, KidLocals(s, f.kids), start, Locals(s, f), r)
  {
    if KidLocals(s, f.kids).Ok? {
      RewriteAppend(start, PropCells(s, f.props).value, KidLocals(s, f.kids).value, r);
    }
  }

  class Blob {
    const kind: map<Cell, Kind>
    var cells: map<Cell, nat>

    ghost function View(): Values
      reads this
    {
      Values(kind, cells)
    }

    constructor (v: Values)
      ensures View() == v
    {
      kind, cells := v.kind, v.cells;
    }

    method AddOffsetTo(c: Cell, delta: nat) returns (err: int)
      modifies this`cells
      ensures match AddOffset(old(View()), c, delta)
              case Err(e) => err == e && View() == old(View())
              case Ok(v) => err == 0 && View() == v
    {
      if c !in kind {
        return 0;
      }
      if kind[c].Malformed? {
        return BADPHANDLE;
      }
      var x := CellValue(cells, c);
      if (x + delta) % U32 < x || (x + delta) % U32 == U32 - 1 {
        return NOPHANDLES;
      }
      cells := cells[c := (x + delta) % U32];
      return 0;
    }

    /** One node's phandle properties, moved up. */
    method AddOffsets(n: nat, delta: nat) returns (err: int)
      modifies this`cells
      ensures match AddBoth(old(View()), n, delta)
              case Err(e) => err == e
              case Ok(v) => err == 0 && View() == v
    {
      err := AddOffsetTo(PhandleCell(n), delta);
      if err == 0 {
        err := AddOffsetTo(LinuxCell(n), delta);
      }
    }

    method AdjustNodePhandles(s: Shape, delta: nat) returns (err: int)
      modifies this`cells
      ensures match AdjustNode(s, old(View()), delta)
              case Err(e) => err == e
              case Ok(v) => err == 0 && View() == v
      decreases s
    {
      hide AddBoth, AddOffset;
      NegativeCodes(View(), s.id, delta);
      err := AddOffsets(s.id, delta);
      if err != 0 {
        return;
      }
      ghost var v1 := View();
      AdjustNegative(s, old(View()), delta);
      var i := 0;
      assert s.kids[0..] == s.kids;
      while i < |s.kids|
        invariant 0 <= i <= |s.kids| && AdjustKids(s.kids[i..], View(), delta) == AdjustKids(s.kids, v1, delta)
      {
        assert s.kids[i..][0] == s.kids[i] && s.kids[i..][1..] == s.kids[i + 1..];
        AdjustNegative(s.kids[i], View(), delta);
        err := AdjustNodePhandles(s.kids[i], delta);
        if err != 0 {
          return;
        }
        i := i + 1;
      }
      return 0;
    }

    /** Both walks over the local references: shifting them, and replacing one value by another. */
    method UpdateReferences(s: Shape, f: Fixup, r: Rewrite) returns (err: int)
      modifies this`cells
      ensures match Locals(s, f)
              case Err(e) => err == e
              case Ok(locals) => err == 0 && cells == RewriteCells(old(cells), locals, r)
      decreases f
    {
      hide RewriteCells, PropCells, KidLocals;
      LocalsNegative(s, f);
      err := UpdateProperties(s, f.props, r);
      if err != 0 {
        return;
      }
      KidsAfterProps(s, f, cells, old(cells), r);
      assert f.kids[0..] == f.kids;
      var i := 0;
      while i < |f.kids|
        invariant 0 <= i <= |f.kids| && Onward(cells, KidLocals(s, f.kids[i..]), old(cells), Locals(s, f), r)
      {
        KidStep(s, f.kids, i, cells, old(cells), Locals(s, f), r);
        var t := FindShape(s.kids, f.kids[i].name);
        if t.None? {
          return BADOVERLAY;
        }
        LocalsNegative(t.value, f.kids[i]);
        err := UpdateReferences(t.value, f.kids[i], r);
        if err != 0 {
          return;
        }
        i := i + 1;
      }
      assert f.kids[i..] == [];
      NoneLeft(s, cells, r);
      return 0;
    }

    method UpdateProperties(s: Shape, props: seq<FixupProp>, r: Rewrite) returns (err: int)
      modifies this`cells
      ensures match PropCells(s, props)
              case Err(e) => err == e != 0
              case Ok(own) => err == 0 && cells == RewriteCells(old(cells), own, r)
    {
      hide RewriteCells, PropCells, CellsOf;
      ghost var whole := PropCells(s, props);
      assert props[0..] == props;
      var i := 0;
      while i < |props|
        invariant 0 <= i <= |props| && Onward(cells, PropCells(s, props[i..]), old(cells), whole, r)
      {
        PropStep(s, props, i, cells, old(cells), whole, r);
        if props[i].ragged || props[i].name !in s.props {
          return BADOVERLAY;
        }
        UpdateOffsets(s.id, props[i].name, props[i].offsets, r);
        i := i + 1;
      }
      assert props[i..] == [];
      NoneLeft(s, cells, r);
      return 0;
    }

    method UpdateOffsets(n: nat, prop: string, offsets: seq<nat>, r: Rewrite)
      modifies this`cells
      ensures cells == RewriteCells(old(cells), CellsOf(n, prop, offsets), r)
    {
      assert offsets[0..] == offsets;
      var i := 0;
      while i < |offsets|
        invariant 0 <= i <= |offsets|
        invariant RewriteCells(cells, CellsOf(n, prop, offsets[i..]), r)
               == RewriteCells(old(cells), CellsOf(n, prop, offsets), r)
      {
        var c := Cell(n, prop, offsets[i]);
        assert offsets[i..][0] == offsets[i] && offsets[i..][1..] == offsets[i + 1..];
        assert CellsOf(n, prop, offsets[i..])[1..] == CellsOf(n, prop, offsets[i + 1..]);
        cells := cells[c := Rewritten(CellValue(cells, c), r)];
        i := i + 1;
      }
    }

    method ReadPhandle(n: nat) returns (p: nat)
      ensures p == GetPhandle(View(), n)
    {
      var c := PhandleCell(n);
      if !(c in kind && kind[c].Word?) {
        c := LinuxCell(n);
        if !(c in kind && kind[c].Word?) {
          return 0;
        }
      }
      return CellValue(cells, c);
    }

    method AdjustConflictingPhandle(n: nat, p: nat)
      modifies this`cells
      ensures View() == SetBoth(old(View()), n, p)
    {
      if PhandleCell(n) in kind && kind[PhandleCell(n)].Word? {
        cells := cells[PhandleCell(n) := p];
      }
      if LinuxCell(n) in kind && kind[LinuxCell(n)].Word? {
        cells := cells[LinuxCell(n) := p];
      }
    }

    method PreventOverwriteNode(b: Base, s: Shape, root: Shape, fixups: Fixup)
      requires Locals(root, fixups).Ok?
      modifies this`cells
      ensures View() == PreventNode(b, s, old(View()), Locals(root, fixups).value)
      decreases s
    {
      hide Locals, RewriteCells;
      ghost var locals := Locals(root, fixups).value;
      var was := ReadPhandle(s.id);
      if b.phandle != 0 && was != 0 {
        AdjustConflictingPhandle(s.id, b.phandle);
        var err := UpdateReferences(root, fixups, Replace(was, b.phandle));
      }
      ghost var v1 := View();
      assert s.kids[0..] == s.kids;
      var i := 0;
      while i < |s.kids|
        invariant 0 <= i <= |s.kids|
        invariant PreventKids(b, s.kids[i..], View(), locals) == PreventKids(b, s.kids, v1, locals)
      {
        assert s.kids[i..][0] == s.kids[i] && s.kids[i..][1..] == s.kids[i + 1..];
        var k := FindBase(b.kids, s.kids[i].name);
        if k.Some? {
          PreventOverwriteNode(k.value, s.kids[i], root, fixups);
        }
        i := i + 1;
      }
    }

    /** `external` holds the references that other code resolves through symbols of the base. */
    method ApplyTo(base: Base, root: Shape, fixups: Fixup, target: map<nat, seq<nat>>, external: map<Cell, nat>)
      returns (err: int)
      modifies this`cells
      ensures match Apply(base, root, fixups, target, external, old(View()))
              case Err(e) => err == e
              case Ok(v) => err == 0 && View() == v
    {
      hide AdjustNode, Locals, PreventNode, RewriteCells, MaxPhandle;
      var delta := MaxPhandle(base);
      AdjustNegative(root, View(), delta);
      err := AdjustNodePhandles(root, delta);
      if err != 0 {
        return;
      }
      LocalsNegative(root, fixups);
      err := UpdateReferences(root, fixups, Shift(delta));
      if err != 0 {
        return;
      }
      cells := cells + external;
      ghost var v2, locals := View(), Locals(root, fixups).value;
      assert root.kids[0..] == root.kids;
      var i := 0;
      while i < |root.kids|
        invariant 0 <= i <= |root.kids|
        invariant PreventAll(base, root.kids[i..], target, View(), locals)
               == PreventAll(base, root.kids, target, v2, locals)
      {
        var f := root.kids[i];
        assert root.kids[i..][0] == f && root.kids[i..][1..] == root.kids[i + 1..];
        var o := FindShape(f.kids, "__overlay__");
        if o.Some? && f.id in target {
          var b := BaseAt(base, target[f.id]);
          if b.Some? {
            PreventOverwriteNode(b.value, o.value, root, fixups);
          }
        }
        i := i + 1;
      }
      return 0;
    }
  }

  // ---------------------------------------------------------------------------------------------
  // Error codes are negative, so zero means success
  // ---------------------------------------------------------------------------------------------

  lemma NegativeCodes(v: Values, n: nat, delta: nat)
    ensures AddBoth(v, n, delta).Err? ==> AddBoth(v, n, delta).code < 0
  {
  }

  lemma {:induction false} AdjustNegative(s: Shape, v: Values, delta: nat)
    ensures AdjustNode(s, v, delta).Err? ==> AdjustNode(s, v, delta).code < 0
    decreases s
  {
    NegativeCodes(v, s.id, delta);
    if AddBoth(v, s.id, delta).Ok? {
      AdjustKidsNegative(s.kids, AddBoth(v, s.id, delta).value, delta);
    }
  }

  lemma {:induction false} AdjustKidsNegative(kids: seq<Shape>, v: Values, delta: nat)
    ensures AdjustKids(kids, v, delta).Err? ==> AdjustKids(kids, v, delta).code < 0
    decreases kids
  {
    if kids != [] {
      AdjustNegative(kids[0], v, delta);
      if AdjustNode(kids[0], v, delta).Ok? {
        AdjustKidsNegative(kids[1..], AdjustNode(kids[0], v, delta).value, delta);
      }
    }
  }

  lemma PropsNegative(s: Shape, props: seq<FixupProp>)
    ensures PropCells(s, props).Err? ==> PropCells(s, props).code < 0
  {
  }

  lemma {:induction false} LocalsNegative(s: Shape, f: Fixup)
    ensures Locals(s, f).Err? ==> Locals(s, f).code < 0
    decreases f
  {
    PropsNegative(s, f.props);
    KidLocalsNegative(s, f.kids);
  }

  lemma {:induction false} KidLocalsNegative(s: Shape, kids: seq<Fixup>)
    ensures KidLocals(s, kids).Err? ==> KidLocals(s, kids).code < 0
    decreases kids
  {
    if kids != [] {
      var t := FindShape(s.kids, kids[0].name);
      if t.Some? {
        LocalsNegative(t.value, kids[0]);
        KidLocalsNegative(s, kids[1..]);
      }
    }
  }

  lemma NoneLeft(s: Shape, cells: map<Cell, nat>, r: Rewrite)
    ensures PropCells(s, []) == Ok([]) && KidLocals(s, []) == Ok([]) && RewriteCells(cells, [], r) == cells
  {
  }
}
