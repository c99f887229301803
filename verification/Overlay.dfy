/**
 The phandle renaming of overlay application (3rd/dtc/libfdt/fdt_overlay.c) on trees. Phandles
 and references are 32-bit words. A node of the overlay is known by a number; what the renaming
 changes are its phandle properties and the cells that refer to phandles.
 */
module Overlay {

  import opened Basics

  const BADPHANDLE: int := -6
  const BADOVERLAY: int := -16
  const NOPHANDLES: int := -17

  /** A node of the base tree; a node without a phandle has phandle 0. */
  datatype Base = Base(name: string, phandle: nat, kids: seq<Base>)

  /** A node of the overlay: what no step changes. */
  datatype Shape = Shape(id: nat, name: string, props: set<string>, kids: seq<Shape>)

  /** A node of `__local_fixups__`: for properties of the node of the same path, where references stand. */
  datatype Fixup = Fixup(name: string, props: seq<FixupProp>, kids: seq<Fixup>)

  /** `ragged`: the length of the value is no multiple of four. */
  datatype FixupProp = FixupProp(name: string, ragged: bool, offsets: seq<nat>)

  /** The four bytes at an offset of a property of a node. */
  datatype Cell = Cell(node: nat, prop: string, offset: nat)

  /** A phandle property holds one word, or has another length. */
  datatype Kind = Word | Malformed

  /** The phandle properties that are there, and the words that stand in properties of any kind. */
  datatype Values = Values(kind: map<Cell, Kind>, cells: map<Cell, nat>)

  function PhandleCell(n: nat): Cell {
    Cell(n, "phandle", 0)
  }

  function LinuxCell(n: nat): Cell {
    Cell(n, "linux,phandle", 0)
  }

  // ---------------------------------------------------------------------------------------------
  // Reading
  // ---------------------------------------------------------------------------------------------

  function CellValue(cells: map<Cell, nat>, c: Cell): nat {
    if c in cells then cells[c] else 0
  }

  predicate Holds(v: Values, c: Cell) {
    c in v.kind && v.kind[c].Word?
  }

  /** The phandle of a node, from `phandle` or else `linux,phandle`; 0 if there is none. */
  function GetPhandle(v: Values, n: nat): nat {
    if Holds(v, PhandleCell(n)) then CellValue(v.cells, PhandleCell(n))
    else if Holds(v, LinuxCell(n)) then CellValue(v.cells, LinuxCell(n))
    else 0
  }

  function MaxPhandle(b: Base): nat {
    Max(b.phandle, MaxOfKids(b.kids))
  }

  function MaxOfKids(kids: seq<Base>): nat {
    if kids == [] then 0 else Max(MaxPhandle(kids[0]), MaxOfKids(kids[1..]))
  }

  function Max(a: nat, b: nat): nat {
    if a > b then a else b
  }

  /** A name looked up without a unit address matches a node whatever its unit address is. */
  predicate NameMatches(node: string, name: string) {
    node == name || ('@' !in name && |name| < |node| && node[..|name|] == name && node[|name|] == '@')
  }

  function FindBase(kids: seq<Base>, name: string): Option<Base> {
    if kids == [] then None else if NameMatches(kids[0].name, name) then Some(kids[0]) else FindBase(kids[1..], name)
  }

  function FindShape(kids: seq<Shape>, name: string): (r: Option<Shape>)
    ensures r.Some? ==> r.value in kids
  {
    if kids == [] then None else if NameMatches(kids[0].name, name) then Some(kids[0]) else FindShape(kids[1..], name)
  }

  /** The node at the end of a path of child numbers. */
  function BaseAt(b: Base, path: seq<nat>): Option<Base>
    decreases |path|
  {
    if path == [] then Some(b)
    else if path[0] < |b.kids| then BaseAt(b.kids[path[0]], path[1..])
    else None
  }

  function Ids(s: Shape): seq<nat> {
    [s.id] + KidIds(s.kids)
  }

  function KidIds(kids: seq<Shape>): seq<nat> {
    if kids == [] then [] else Ids(kids[0]) + KidIds(kids[1..])
  }

  // ---------------------------------------------------------------------------------------------
  // Shifting the overlay's phandles
  // ---------------------------------------------------------------------------------------------

  datatype Result<T> = Ok(value: T) | Err(code: int)

  /** One phandle property moved up; a missing one is left alone. */
  function AddOffset(v: Values, c: Cell, delta: nat): Result<Values> {
    var x := CellValue(v.cells, c);
    if c !in v.kind then Ok(v)
    else if v.kind[c].Malformed? then Err(BADPHANDLE)
    else if (x + delta) % U32 < x || (x + delta) % U32 == U32 - 1 then Err(NOPHANDLES)
    else Ok(v.(cells := v.cells[c := (x + delta) % U32]))
  }

  function AddBoth(v: Values, n: nat, delta: nat): Result<Values> {
    match AddOffset(v, PhandleCell(n), delta)
    case Err(e) => Err(e)
    case Ok(v1) => AddOffset(v1, LinuxCell(n), delta)
  }

  function AdjustNode(s: Shape, v: Values, delta: nat): Result<Values> {
    match AddBoth(v, s.id, delta)
    case Err(e) => Err(e)
    case Ok(v1) => AdjustKids(s.kids, v1, delta)
  }

  function AdjustKids(kids: seq<Shape>, v: Values, delta: nat): Result<Values> {
    if kids == [] then Ok(v)
    else
      match AdjustNode(kids[0], v, delta)
      case Err(e) => Err(e)
      case Ok(v1) => AdjustKids(kids[1..], v1, delta)
  }

  // ---------------------------------------------------------------------------------------------
  // The local references
  // ---------------------------------------------------------------------------------------------

  function CellsOf(n: nat, prop: string, offsets: seq<nat>): seq<Cell> {
    if offsets == [] then [] else [Cell(n, prop, offsets[0])] + CellsOf(n, prop, offsets[1..])
  }

  function PropCells(s: Shape, props: seq<FixupProp>): Result<seq<Cell>> {
    if props == [] then Ok([])
    else if props[0].ragged || props[0].name !in s.props then Err(BADOVERLAY)
    else
      match PropCells(s, props[1..])
      case Err(e) => Err(e)
      case Ok(rest) => Ok(CellsOf(s.id, props[0].name, props[0].offsets) + rest)
  }

  /** The local references, in the order in which the fixups list them. */
  function Locals(s: Shape, f: Fixup): Result<seq<Cell>>
    decreases f
  {
    match PropCells(s, f.props)
    case Err(e) => Err(e)
    case Ok(own) =>
      match KidLocals(s, f.kids)
      case Err(e) => Err(e)
      case Ok(below) => Ok(own + below)
  }

  function KidLocals(s: Shape, kids: seq<Fixup>): Result<seq<Cell>>
    decreases kids
  {
    if kids == [] then Ok([])
    else
      match FindShape(s.kids, kids[0].name)
      case None => Err(BADOVERLAY)
      case Some(t) =>
        match Locals(t, kids[0])
        case Err(e) => Err(e)
        case Ok(first) =>
          match KidLocals(s, kids[1..])
          case Err(e) => Err(e)
          case Ok(rest) => Ok(first + rest)
  }

  /** What a walk over the local references does to each of them. */
  datatype Rewrite = Shift(delta: nat) | Replace(was: nat, next: nat)

  function Rewritten(x: nat, r: Rewrite): nat {
    match r
    case Shift(delta) => (x + delta) % U32
    case Replace(was, p) => if x == was then p else x
  }

  function RewriteCells(cells: map<Cell, nat>, locals: seq<Cell>, r: Rewrite): map<Cell, nat>
    decreases |locals|
  {
    if locals == [] then cells
    else RewriteCells(cells[locals[0] := Rewritten(CellValue(cells, locals[0]), r)], locals[1..], r)
  }

  // ---------------------------------------------------------------------------------------------
  // Keeping the phandles of the base
  // ---------------------------------------------------------------------------------------------

  function SetOne(v: Values, c: Cell, p: nat): Values {
    if Holds(v, c) then v.(cells := v.cells[c := p]) else v
  }

  function SetBoth(v: Values, n: nat, p: nat): Values {
    SetOne(SetOne(v, PhandleCell(n), p), LinuxCell(n), p)
  }

  /** Node `n` and the references to it take over the phandle of the base node it will be merged with. */
  function TakeOver(v: Values, n: nat, p: nat, locals: seq<Cell>): Values {
    var was := GetPhandle(v, n);
    if p == 0 || was == 0 then v
    else
      var v1 := SetBoth(v, n, p);
      v1.(cells := RewriteCells(v1.cells, locals, Replace(was, p)))
  }

  function PreventNode(b: Base, s: Shape, v: Values, locals: seq<Cell>): Values
    decreases s
  {
    PreventKids(b, s.kids, TakeOver(v, s.id, b.phandle, locals), locals)
  }

  function PreventKids(b: Base, kids: seq<Shape>, v: Values, locals: seq<Cell>): Values
    decreases kids
  {
    if kids == [] then v
    else
      var v1 :=
        match FindBase(b.kids, kids[0].name)
        case None => v
        case Some(k) => PreventNode(k, kids[0], v, locals);
      PreventKids(b, kids[1..], v1, locals)
  }

  /** The fragments of the overlay; `target` gives the base path a fragment resolves to. */
  function PreventAll(base: Base, fragments: seq<Shape>, target: map<nat, seq<nat>>, v: Values,
                      locals: seq<Cell>): Values
  {
    if fragments == [] then v
    else PreventAll(base, fragments[1..], target, PreventFragment(base, fragments[0], target, v, locals), locals)
  }

  function PreventFragment(base: Base, f: Shape, target: map<nat, seq<nat>>, v: Values, locals: seq<Cell>): Values {
    var o := FindShape(f.kids, "__overlay__");
    if o.None? || f.id !in target || BaseAt(base, target[f.id]).None? then v
    else PreventNode(BaseAt(base, target[f.id]).value, o.value, v, locals)
  }

  /** The renaming; `external` are the references that were resolved through symbols of the base. */
  function Apply(base: Base, root: Shape, fixups: Fixup, target: map<nat, seq<nat>>, external: map<Cell, nat>,
                 v: Values): Result<Values>
  {
    var delta := MaxPhandle(base);
    match AdjustNode(root, v, delta)
    case Err(e) => Err(e)
    case Ok(v1) =>
      match Locals(root, fixups)
      case Err(e) => Err(e)
      case Ok(locals) =>
        var v2 := v1.(cells := RewriteCells(v1.cells, locals, Shift(delta)) + external);
        Ok(PreventAll(base, root.kids, target, v2, locals))
  }
}
