/** What running a generated Reset method does to the heap. The generator emits no visited set,
    so a run follows every child pointer it meets; fuel bounds the call depth, and a run that
    needs more than its fuel has no result. */
module ResetSemantics {
  import opened Options
  import opened ResetGenerator

  // ---------------------------------------------------------------------------
  // Heaps
  // ---------------------------------------------------------------------------

  type Addr = nat

  datatype Primitive = Number(n: int) | Text(s: string) | Flag(b: bool)

  /** Inline is a struct stored in its parent: it has an address, which never changes. Whole is a
      value the generated code only ever replaces by its type's zero value, coded 0. */
  datatype Value =
    | Prim(p: Primitive)
    | Pointer(target: Option<Addr>)
    | SliceOf(arr: Option<Addr>, offset: nat, len: nat, cap: nat)
    | MapAt(map_: Option<Addr>)
    | Inline(at: Addr)
    | Whole(code: int)

  /** A type declared in a package. */
  datatype TypeName = TypeName(pkg: string, name: string)

  /** What a pointer can lead to: a struct, a basic value, or a cell that holds a slice header, a map
      reference, another pointer or a whole value; and the arrays and maps behind those. */
  datatype Obj =
    | StructObj(ty: TypeName, fields: map<string, Value>)
    | PrimObj(p: Primitive)
    | CellObj(v: Value)
    | ArrayObj(elems: seq<Value>)
    | MapObj(entries: map<Value, Value>)

  type Heap = map<Addr, Obj>

  /** The marked structs of all packages with their named fields, and the alias declarations that
      stand for one of them. */
  datatype Program = Program(structs: map<TypeName, seq<Field>>, aliases: map<TypeName, TypeName>)

  function LiteralValue(l: Literal): Primitive {
    match l
    case EmptyText => Text("")
    case FalseFlag => Flag(false)
    case ZeroNumber => Number(0)
  }

  function Lookup(prog: Program, name: TypeName): Option<TypeName> {
    if name in prog.structs then Some(name)
    else if name in prog.aliases && prog.aliases[name] in prog.structs then Some(prog.aliases[name])
    else None
  }

  /** The marked struct a type expression stands for in a package. The dynamic type assertion finds its
      generated Reset on &s.f for a field of that type, and on s.f for a pointer to it, whichever
      package it was generated for. */
  function Denotes(prog: Program, pkg: string, ty: Type): (r: Option<TypeName>)
    ensures r.Some? ==> r.value in prog.structs
  {
    match ty
    case Ident(name) => Lookup(prog, TypeName(pkg, name))
    case Qualified(other, name) => Lookup(prog, TypeName(other, name))
    case Paren(inner) => Denotes(prog, pkg, inner)
    case _ => None
  }

  function PointsTo(prog: Program, pkg: string, ty: Type): Option<TypeName> {
    if ty.Star? then Denotes(prog, pkg, ty.elem) else None
  }

  function Read(h: Heap, a: Addr, f: string): Option<Value> {
    if a in h && h[a].StructObj? && f in h[a].fields then Some(h[a].fields[f]) else None
  }

  function Store(h: Heap, a: Addr, f: string, v: Value): Heap {
    if a in h && h[a].StructObj? then h[a := StructObj(h[a].ty, h[a].fields[f := v])] else h
  }

  // ---------------------------------------------------------------------------
  // Running
  // ---------------------------------------------------------------------------

  /** func (s *T) Reset() on a target; a nil receiver returns at once. */
  function Call(prog: Program, h: Heap, target: Option<Addr>, ty: TypeName, fuel: nat): Option<Heap>
    decreases fuel, 0, 0
  {
    if target.None? then Some(h)
    else if fuel == 0 || ty !in prog.structs then None
    else RunBody(prog, h, ty.pkg, target.value, ResetBody(prog.structs[ty]), fuel - 1)
  }

  function RunBody(prog: Program, h: Heap, pkg: string, a: Addr, body: seq<Stmt>, fuel: nat): Option<Heap>
    decreases fuel, |body|, 2
  {
    if body == [] then Some(h)
    else match RunStmt(prog, h, pkg, a, body[0], fuel)
         case None => None
         case Some(next) => RunBody(prog, next, pkg, a, body[1..], fuel)
  }

  function RunStmt(prog: Program, h: Heap, pkg: string, a: Addr, stmt: Stmt, fuel: nat): Option<Heap>
    decreases fuel, 0, 1
  {
    match stmt
    case AssignLiteral(f, literal) => Some(Store(h, a, f, Prim(LiteralValue(literal))))
    case ResetOrZero(f, ty) =>
      if Denotes(prog, pkg, ty).None? then Some(Store(h, a, f, Whole(0)))
      else (match Read(h, a, f)
            case Some(Inline(c)) => Call(prog, h, Some(c), Denotes(prog, pkg, ty).value, fuel)
            case _ => Some(h))
    case StoreThrough(f, literal) =>
      (match Read(h, a, f)
       case Some(Pointer(Some(p))) => Some(h[p := PrimObj(LiteralValue(literal))])
       case _ => Some(h))
    case CallThrough(f, ty) =>
      (match Read(h, a, f)
       case Some(Pointer(Some(c))) =>
         if PointsTo(prog, pkg, ty).Some? then Call(prog, h, Some(c), PointsTo(prog, pkg, ty).value, fuel) else Some(h)
       case _ => Some(h))
    case Truncate(f) =>
      (match Read(h, a, f)
       case Some(SliceOf(arr, offset, _, cap)) => Some(Store(h, a, f, SliceOf(arr, offset, 0, cap)))
       case _ => Some(h))
    case Clear(f) =>
      (match Read(h, a, f)
       case Some(MapAt(Some(m))) => Some(h[m := MapObj(map[])])
       case _ => Some(h))
    case AssignZero(f, _) => Some(Store(h, a, f, Whole(0)))
  }

  // ---------------------------------------------------------------------------
  // Typing
  // ---------------------------------------------------------------------------

  /** What a predeclared basic type of Go holds. */
  datatype Kind = TextKind | FlagKind | NumberKind

  const INTEGERS: set<string> := {
    "int", "int8", "int16", "int32", "rune", "int64",
    "uint", "uint8", "byte", "uint16", "uint32", "uint64", "uintptr"
  }
  const FLOATS: set<string> := {"float32", "float64"}
  const COMPLEXES: set<string> := {"complex64", "complex128"}

  /** The predeclared basic types, by name. */
  function KindOf(name: string): Option<Kind> {
    if name in INTEGERS || name in FLOATS || name in COMPLEXES then Some(NumberKind)
    else match name
         case "string" => Some(TextKind)
         case "bool" => Some(FlagKind)
         case _ => None
  }

  predicate HasKind(p: Primitive, kind: Kind) {
    match kind
    case TextKind => p.Text?
    case FlagKind => p.Flag?
    case NumberKind => p.Number?
  }

  function ZeroOfKind(kind: Kind): Primitive {
    match kind
    case TextKind => Text("")
    case FlagKind => Flag(false)
    case NumberKind => Number(0)
  }

  /** The type spells a pointer to a predeclared basic type. */
  function BasicTarget(ty: Type): Option<Kind> {
    if ty.Star? && ty.elem.Ident? then KindOf(ty.elem.name) else None
  }

  predicate StructAt(h: Heap, a: Addr, ty: TypeName) {
    a in h && h[a].StructObj? && h[a].ty == ty
  }

  /** The value a field of this type, declared in this package, holds in a running Go program. */
  predicate ValueOk(prog: Program, h: Heap, pkg: string, ty: Type, v: Value)
    decreases ty, 0
  {
    match ty
    case Ident(name) =>
      (match KindOf(name)
       case Some(kind) => v.Prim? && HasKind(v.p, kind)
       case None =>
         match Denotes(prog, pkg, ty)
         case Some(struct_) => v.Inline? && StructAt(h, v.at, struct_)
         case None => v.Whole?)
    case Star(elem) => v.Pointer? && (v.target.Some? ==> TargetOk(prog, h, pkg, elem, v.target.value))
    case ArrayOf(None, _) => v.SliceOf?
    case MapOf(_, _) => v.MapAt? && (v.map_.Some? ==> v.map_.value in h && h[v.map_.value].MapObj?)
    case _ => v.Whole?
  }

  /** The object a pointer to this type leads to. Behind a named type that is neither basic nor a
      marked struct there may be anything but a marked struct. */
  predicate TargetOk(prog: Program, h: Heap, pkg: string, elem: Type, x: Addr)
    decreases elem, 1
  {
    && x in h
    && match BasicTarget(Star(elem))
       case Some(kind) => h[x].PrimObj? && HasKind(h[x].p, kind)
       case None =>
         match Denotes(prog, pkg, elem)
         case Some(struct_) => StructAt(h, x, struct_)
         case None =>
           && !(h[x].StructObj? && h[x].ty in prog.structs)
           && ((elem.ArrayOf? && elem.length.None?) || elem.MapOf? || elem.Star? ==>
                 h[x].CellObj? && ValueOk(prog, h, pkg, elem, h[x].v))
  }

  /** Field names of a struct differ, and no type takes the name of a predeclared one. */
  predicate WellFormed(prog: Program) {
    && (forall name | name in prog.structs.Keys + prog.aliases.Keys :: KindOf(name.name).None?)
    && (forall name | name in prog.structs ::
          forall i, j | 0 <= i < j < |prog.structs[name]| :: prog.structs[name][i].name != prog.structs[name][j].name)
  }

  predicate ObjOk(prog: Program, h: Heap, o: Obj) {
    o.StructObj? && o.ty in prog.structs ==>
      var fs := prog.structs[o.ty];
      forall i | 0 <= i < |fs| :: fs[i].name in o.fields && ValueOk(prog, h, o.ty.pkg, fs[i].ty, o.fields[fs[i].name])
  }

  predicate WellTyped(prog: Program, h: Heap) {
    WellFormed(prog) && forall a | a in h :: ObjOk(prog, h, h[a])
  }

  // ---------------------------------------------------------------------------
  // The child graph
  // ---------------------------------------------------------------------------

  /** The place of a declared field of a marked struct. */
  type Slot = (Addr, string)

  function FieldsAt(prog: Program, h: Heap, a: Addr): seq<Field> {
    if a in h && h[a].StructObj? && h[a].ty in prog.structs then prog.structs[h[a].ty] else []
  }

  function PackageAt(h: Heap, a: Addr): string {
    if a in h && h[a].StructObj? then h[a].ty.pkg else ""
  }

  /** The struct that field's value holds or points to, when its type has a generated Reset. */
  function ChildOf(prog: Program, h: Heap, a: Addr, f: Field): Option<Addr> {
    match Read(h, a, f.name)
    case Some(Inline(c)) => if f.ty.Ident? && Denotes(prog, PackageAt(h, a), f.ty).Some? then Some(c) else None
    case Some(Pointer(Some(c))) => if PointsTo(prog, PackageAt(h, a), f.ty).Some? then Some(c) else None
    case _ => None
  }

  ghost predicate Edge(prog: Program, h: Heap, a: Addr, c: Addr) {
    exists f :: f in FieldsAt(prog, h, a) && ChildOf(prog, h, a, f) == Some(c)
  }

  ghost predicate IsPath(prog: Program, h: Heap, path: seq<Addr>) {
    && path != []
    && (forall i | 0 <= i < |path| - 1 :: Edge(prog, h, path[i], path[i + 1]))
  }

  ghost predicate Reaches(prog: Program, h: Heap, a: Addr, x: Addr) {
    exists path :: IsPath(prog, h, path) && path[0] == a && path[|path| - 1] == x
  }

  /** No struct reachable from a can be reached again from one of its children. */
  ghost predicate AcyclicFrom(prog: Program, h: Heap, a: Addr) {
    forall x, c | Reaches(prog, h, a, x) && Edge(prog, h, x, c) :: !Reaches(prog, h, c, x)
  }

  ghost function Reached(prog: Program, h: Heap, a: Addr): set<Addr> {
    set x | x in h && Reaches(prog, h, a, x)
  }

  // ---------------------------------------------------------------------------
  // The declarative meaning
  // ---------------------------------------------------------------------------

  function ZeroOf(p: Primitive): Primitive {
    match p
    case Number(_) => Number(0)
    case Text(_) => Text("")
    case Flag(_) => Flag(false)
  }

  /** What a reset field holds: zero of the same kind, or the same slice array with length 0.
      Pointers, maps and inline structs stay where they are; their targets are objects of their own. */
  function ResetValue(v: Value): Value {
    match v
    case Prim(p) => Prim(ZeroOf(p))
    case SliceOf(arr, offset, _, cap) => SliceOf(arr, offset, 0, cap)
    case Whole(_) => Whole(0)
    case _ => v
  }

  /** The slot is a pointer to a primitive, and points to x. */
  ghost predicate PointsAtPrimitive(prog: Program, h: Heap, slot: Slot, x: Addr) {
    exists f :: f in FieldsAt(prog, h, slot.0) && f.name == slot.1
                && BasicTarget(f.ty).Some? && Read(h, slot.0, slot.1) == Some(Pointer(Some(x)))
  }

  ghost predicate HoldsMap(h: Heap, slot: Slot, x: Addr) {
    Read(h, slot.0, slot.1) == Some(MapAt(Some(x)))
  }

  ghost function ResetObj(prog: Program, h: Heap, slots: set<Slot>, x: Addr): Obj
    requires x in h
  {
    match h[x]
    case StructObj(ty, fields) =>
      StructObj(ty, map f | f in fields :: if (x, f) in slots then ResetValue(fields[f]) else fields[f])
    case PrimObj(p) =>
      if exists slot | slot in slots :: PointsAtPrimitive(prog, h, slot, x) then PrimObj(ZeroOf(p)) else h[x]
    case MapObj(_) =>
      if exists slot | slot in slots :: HoldsMap(h, slot, x) then MapObj(map[]) else h[x]
    case _ => h[x]
  }

  /** The heap in which exactly these slots, and what they point at, have been reset. */
  ghost function ResetHeap(prog: Program, h: Heap, slots: set<Slot>): Heap {
    map x | x in h :: ResetObj(prog, h, slots, x)
  }

  ghost function NamesAt(prog: Program, h: Heap, a: Addr): set<string> {
    set f | f in FieldsAt(prog, h, a) :: f.name
  }

  ghost function SlotsOf(prog: Program, h: Heap, structs: set<Addr>): set<Slot> {
    set a, name | a in structs && name in NamesAt(prog, h, a) :: (a, name)
  }
}
