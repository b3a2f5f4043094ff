/** The generated Reset methods reset exactly what is reachable, terminate exactly on acyclic child
    graphs, are idempotent, commute, and leave everything else alone. */
module ResetTheorems {
  import opened Options
  import opened ResetGenerator
  import opened ResetSemantics

  // ---------------------------------------------------------------------------
  // The generator's names
  // ---------------------------------------------------------------------------

  /** The generator knows exactly the predeclared basic types, and writes each one's zero. */
  lemma ZeroValuesAreZeros(name: string)
    ensures PrimitiveZeroValue(name).Some? <==> KindOf(name).Some?
    ensures PrimitiveZeroValue(name).Some? ==>
              LiteralValue(PrimitiveZeroValue(name).value) == ZeroOfKind(KindOf(name).value)
  {
  }

  lemma ThroughBasicPointers(ty: Type)
    ensures PrimitivePointerZeroValue(ty).Some? <==> BasicTarget(ty).Some?
    ensures BasicTarget(ty).Some? ==>
              LiteralValue(PrimitivePointerZeroValue(ty).value) == ZeroOfKind(BasicTarget(ty).value)
  {
    if ty.Star? && ty.elem.Ident? {
      ZeroValuesAreZeros(ty.elem.name);
    }
  }

  function InParens(n: nat, ty: Type): Type {
    if n == 0 then ty else Paren(InParens(n - 1, ty))
  }

  /** The name is that of a marked struct, or of an alias for it. */
  predicate Names(prog: Program, name: TypeName, struct_: TypeName) {
    && struct_ in prog.structs
    && (name == struct_ || (name !in prog.structs && name in prog.aliases && prog.aliases[name] == struct_))
  }

  /** In the package, the type expression is that name in n pairs of parentheses. */
  predicate Spells(pkg: string, ty: Type, n: nat, name: TypeName) {
    ty == InParens(n, Qualified(name.pkg, name.name)) || (name.pkg == pkg && ty == InParens(n, Ident(name.name)))
  }

  /** The type expressions whose values or targets have a given generated Reset: its struct's name or an
      alias of it, plain in the package, qualified elsewhere, in any number of parentheses. */
  lemma {:induction false} DenotesIff(prog: Program, pkg: string, ty: Type, struct_: TypeName)
    ensures Denotes(prog, pkg, ty) == Some(struct_)
       <==> exists n: nat, name: TypeName :: Spells(pkg, ty, n, name) && Names(prog, name, struct_)
  {
    match ty {
      case Ident(name) => assert Spells(pkg, ty, 0, TypeName(pkg, name));
      case Qualified(other, name) => assert Spells(pkg, ty, 0, TypeName(other, name));
      case Paren(inner) =>
        DenotesIff(prog, pkg, inner, struct_);
        if n: nat, name: TypeName :| Spells(pkg, inner, n, name) && Names(prog, name, struct_) {
          assert Spells(pkg, ty, n + 1, name);
        }
        if n: nat, name: TypeName :| Spells(pkg, ty, n, name) && Names(prog, name, struct_) {
          assert Spells(pkg, inner, n - 1, name);
        }
      case _ =>
    }
  }

  /** A nil receiver returns at once. */
  lemma NilReceiver(prog: Program, h: Heap, ty: TypeName, fuel: nat)
    ensures Call(prog, h, None, ty, fuel) == Some(h)
  {
  }

  // ---------------------------------------------------------------------------
  // One slot
  // ---------------------------------------------------------------------------

  /** A declared field of a marked struct in a well-typed heap. */
  ghost predicate DeclaredAt(prog: Program, h: Heap, a: Addr, f: Field) {
    WellTyped(prog, h) && f in FieldsAt(prog, h, a)
  }

  lemma DeclaredValue(prog: Program, h: Heap, a: Addr, f: Field) returns (v: Value)
    requires DeclaredAt(prog, h, a, f)
    ensures Read(h, a, f.name) == Some(v) && ValueOk(prog, h, PackageAt(h, a), f.ty, v)
  {
    assert ObjOk(prog, h, h[a]);
    v := h[a].fields[f.name];
  }

  /** Within one struct a name stands for one field. */
  lemma OneFieldPerName(prog: Program, h: Heap, a: Addr, f: Field, g: Field)
    requires WellFormed(prog) && f in FieldsAt(prog, h, a) && g in FieldsAt(prog, h, a) && f.name == g.name
    ensures f == g
  {
    var fs := FieldsAt(prog, h, a);
    var i :| 0 <= i < |fs| && fs[i] == f;
    var j :| 0 <= j < |fs| && fs[j] == g;
  }

  lemma ReadReset(prog: Program, h: Heap, slots: set<Slot>, a: Addr, f: string)
    requires Read(h, a, f).Some?
    ensures Read(ResetHeap(prog, h, slots), a, f)
         == Some(if (a, f) in slots then ResetValue(Read(h, a, f).value) else Read(h, a, f).value)
  {
  }

  lemma NoPrimitiveTarget(prog: Program, h: Heap, a: Addr, f: Field)
    requires DeclaredAt(prog, h, a, f) && BasicTarget(f.ty).None?
    ensures forall x :: !PointsAtPrimitive(prog, h, (a, f.name), x)
  {
    forall x ensures !PointsAtPrimitive(prog, h, (a, f.name), x) {
      if PointsAtPrimitive(prog, h, (a, f.name), x) {
        var g :| g in FieldsAt(prog, h, a) && g.name == f.name && BasicTarget(g.ty).Some?;
        OneFieldPerName(prog, h, a, f, g);
      }
    }
  }

  lemma StructStored(prog: Program, h: Heap, slots: set<Slot>, a: Addr, f: string, v: Value, x: Addr)
    requires x in h && h[x].StructObj? && Read(h, a, f) == Some(v)
    ensures ResetObj(prog, h, slots + {(a, f)}, x)
         == if x == a then StructObj(h[x].ty, ResetObj(prog, h, slots, x).fields[f := ResetValue(v)])
            else ResetObj(prog, h, slots, x)
  {
  }

  /** A slot holding a plain value, a slice header or a whole value. */
  lemma StoreCase(prog: Program, h: Heap, slots: set<Slot>, a: Addr, f: Field, v: Value)
    requires DeclaredAt(prog, h, a, f) && Read(h, a, f.name) == Some(v)
    requires v.Prim? || v.SliceOf? || v.Whole?
    ensures ResetHeap(prog, h, slots + {(a, f.name)})
         == Store(ResetHeap(prog, h, slots), a, f.name, ResetValue(v))
  {
    var more := slots + {(a, f.name)};
    forall x | x in h
      ensures ResetHeap(prog, h, more)[x] == Store(ResetHeap(prog, h, slots), a, f.name, ResetValue(v))[x]
    {
      if h[x].StructObj? {
        StructStored(prog, h, slots, a, f.name, v, x);
      } else {
        assert !PointsAtPrimitive(prog, h, (a, f.name), x) && !HoldsMap(h, (a, f.name), x);
        assert ResetObj(prog, h, more, x) == ResetObj(prog, h, slots, x);
      }
    }
  }

  /** What a struct looks like does not depend on a slot whose value stays as it is. */
  lemma StructUntouched(prog: Program, h: Heap, slots: set<Slot>, slot: Slot, x: Addr)
    requires x in h && h[x].StructObj?
    requires forall v | Read(h, slot.0, slot.1) == Some(v) :: ResetValue(v) == v
    ensures ResetObj(prog, h, slots + {slot}, x) == ResetObj(prog, h, slots, x)
  {
    assert forall f | f in h[x].fields && (x, f) == slot :: Read(h, slot.0, slot.1) == Some(h[x].fields[f]);
  }

  /** A slot holding a non-nil pointer to a primitive: the pointer stays, its target is zeroed. */
  lemma PointerCase(prog: Program, h: Heap, slots: set<Slot>, a: Addr, f: Field, p: Addr)
    requires DeclaredAt(prog, h, a, f) && Read(h, a, f.name) == Some(Pointer(Some(p)))
    requires BasicTarget(f.ty).Some? && p in h && h[p].PrimObj?
    ensures ResetHeap(prog, h, slots + {(a, f.name)}) == ResetHeap(prog, h, slots)[p := PrimObj(ZeroOf(h[p].p))]
  {
    var more := slots + {(a, f.name)};
    assert PointsAtPrimitive(prog, h, (a, f.name), p);
    assert (a, f.name) in more;
    forall x | x in h
      ensures ResetHeap(prog, h, more)[x] == ResetHeap(prog, h, slots)[p := PrimObj(ZeroOf(h[p].p))][x]
    {
      if h[x].StructObj? {
        StructUntouched(prog, h, slots, (a, f.name), x);
      } else {
        assert !HoldsMap(h, (a, f.name), x);
        assert x != p ==> !PointsAtPrimitive(prog, h, (a, f.name), x);
      }
    }
  }

  /** A slot holding a map that is not nil: the same map object, now empty. */
  lemma MapCase(prog: Program, h: Heap, slots: set<Slot>, a: Addr, f: Field, m: Addr)
    requires DeclaredAt(prog, h, a, f) && Read(h, a, f.name) == Some(MapAt(Some(m))) && m in h && h[m].MapObj?
    ensures ResetHeap(prog, h, slots + {(a, f.name)}) == ResetHeap(prog, h, slots)[m := MapObj(map[])]
  {
    var more := slots + {(a, f.name)};
    assert HoldsMap(h, (a, f.name), m) && (a, f.name) in more;
    forall x | x in h
      ensures ResetHeap(prog, h, more)[x] == ResetHeap(prog, h, slots)[m := MapObj(map[])][x]
    {
      if h[x].StructObj? {
        StructUntouched(prog, h, slots, (a, f.name), x);
      } else {
        assert !PointsAtPrimitive(prog, h, (a, f.name), x);
        assert x != m ==> !HoldsMap(h, (a, f.name), x);
      }
    }
  }

  /** A slot holding nil, a child, or a pointer to something without Reset changes nothing by itself. */
  lemma NeutralCase(prog: Program, h: Heap, slots: set<Slot>, a: Addr, f: Field, v: Value)
    requires DeclaredAt(prog, h, a, f) && Read(h, a, f.name) == Some(v)
    requires v.Inline? || (v.Pointer? && (v.target.None? || BasicTarget(f.ty).None?)) || v == MapAt(None)
    ensures ResetHeap(prog, h, slots + {(a, f.name)}) == ResetHeap(prog, h, slots)
  {
    var more := slots + {(a, f.name)};
    if BasicTarget(f.ty).None? {
      NoPrimitiveTarget(prog, h, a, f);
    }
    forall x | x in h ensures ResetObj(prog, h, more, x) == ResetObj(prog, h, slots, x) {
      assert !PointsAtPrimitive(prog, h, (a, f.name), x) && !HoldsMap(h, (a, f.name), x);
    }
  }

  // ---------------------------------------------------------------------------
  // Paths
  // ---------------------------------------------------------------------------

  lemma ReachesSelf(prog: Program, h: Heap, a: Addr)
    ensures Reaches(prog, h, a, a)
  {
    assert IsPath(prog, h, [a]);
  }

  lemma ReachesThrough(prog: Program, h: Heap, a: Addr, c: Addr, x: Addr)
    requires Edge(prog, h, a, c) && Reaches(prog, h, c, x)
    ensures Reaches(prog, h, a, x)
  {
    var path :| IsPath(prog, h, path) && path[0] == c && path[|path| - 1] == x;
    assert IsPath(prog, h, [a] + path);
  }

  lemma PathTail(prog: Program, h: Heap, path: seq<Addr>)
    requires IsPath(prog, h, path) && |path| > 1
    ensures Edge(prog, h, path[0], path[1]) && IsPath(prog, h, path[1..])
  {
    assert Edge(prog, h, path[0], path[0 + 1]);
    forall i | 0 <= i < |path[1..]| - 1 ensures Edge(prog, h, path[1..][i], path[1..][i + 1]) {
      assert Edge(prog, h, path[i + 1], path[i + 1 + 1]);
    }
  }

  lemma ReachesBy(prog: Program, h: Heap, a: Addr, x: Addr) returns (c: Addr)
    requires Reaches(prog, h, a, x) && a != x
    ensures Edge(prog, h, a, c) && Reaches(prog, h, c, x)
  {
    var path :| IsPath(prog, h, path) && path[0] == a && path[|path| - 1] == x;
    c := path[1];
    PathTail(prog, h, path);
  }

  lemma {:induction false} ReachesAll(prog: Program, h: Heap, path: seq<Addr>, x: Addr)
    requires IsPath(prog, h, path) && Reaches(prog, h, path[|path| - 1], x)
    ensures Reaches(prog, h, path[0], x)
  {
    if |path| > 1 {
      PathTail(prog, h, path);
      ReachesAll(prog, h, path[1..], x);
      ReachesThrough(prog, h, path[0], path[1], x);
    }
  }

  lemma ReachesTransitive(prog: Program, h: Heap, a: Addr, b: Addr, c: Addr)
    requires Reaches(prog, h, a, b) && Reaches(prog, h, b, c)
    ensures Reaches(prog, h, a, c)
  {
    var path :| IsPath(prog, h, path) && path[0] == a && path[|path| - 1] == b;
    ReachesAll(prog, h, path, c);
  }

  lemma ReachedEdge(prog: Program, h: Heap, a: Addr, y: Addr, q: Addr)
    requires Reaches(prog, h, a, y) && Edge(prog, h, y, q)
    ensures Reaches(prog, h, a, q)
  {
    ReachesSelf(prog, h, q);
    ReachesThrough(prog, h, y, q, q);
    ReachesTransitive(prog, h, a, y, q);
  }

  // ---------------------------------------------------------------------------
  // Running
  // ---------------------------------------------------------------------------

  /** Every chain of children from a has fewer than k links. */
  ghost predicate Bounded(prog: Program, h: Heap, a: Addr, k: nat)
    decreases k
  {
    k > 0 && forall c: Addr | Edge(prog, h, a, c) :: Bounded(prog, h, c, k - 1)
  }

  ghost predicate ChildBounded(prog: Program, h: Heap, a: Addr, f: Field, k: nat) {
    ChildOf(prog, h, a, f).Some? ==> Bounded(prog, h, ChildOf(prog, h, a, f).value, k)
  }

  ghost function ChildSlots(prog: Program, h: Heap, a: Addr, f: Field): set<Slot> {
    match ChildOf(prog, h, a, f)
    case None => {}
    case Some(c) => SlotsOf(prog, h, Reached(prog, h, c))
  }

  /** What resetting the fields from the i-th on touches. */
  ghost function SlotsFrom(prog: Program, h: Heap, a: Addr, fs: seq<Field>, i: nat): set<Slot>
    requires i <= |fs|
    decreases |fs| - i
  {
    if i == |fs| then {}
    else {(a, fs[i].name)} + ChildSlots(prog, h, a, fs[i]) + SlotsFrom(prog, h, a, fs, i + 1)
  }

  lemma {:induction false} InSlotsFrom(prog: Program, h: Heap, a: Addr, fs: seq<Field>, i: nat, slot: Slot)
    requires i <= |fs|
    ensures slot in SlotsFrom(prog, h, a, fs, i)
       <==> exists j :: i <= j < |fs| && (slot == (a, fs[j].name) || slot in ChildSlots(prog, h, a, fs[j]))
    decreases |fs| - i
  {
    if i < |fs| {
      InSlotsFrom(prog, h, a, fs, i + 1, slot);
    }
  }

  /** Resetting all fields of a struct touches the declared fields of all structs it reaches. */
  lemma SlotsOfReached(prog: Program, h: Heap, a: Addr)
    requires a in h
    ensures SlotsFrom(prog, h, a, FieldsAt(prog, h, a), 0) == SlotsOf(prog, h, Reached(prog, h, a))
  {
    var fs := FieldsAt(prog, h, a);
    forall slot: Slot
      ensures slot in SlotsFrom(prog, h, a, fs, 0) <==> slot in SlotsOf(prog, h, Reached(prog, h, a))
    {
      InSlotsFrom(prog, h, a, fs, 0, slot);
      if slot in SlotsFrom(prog, h, a, fs, 0) {
        var j :| 0 <= j < |fs| && (slot == (a, fs[j].name) || slot in ChildSlots(prog, h, a, fs[j]));
        assert fs[j] in fs;
        if slot == (a, fs[j].name) {
          ReachesSelf(prog, h, a);
        } else {
          var c := ChildOf(prog, h, a, fs[j]).value;
          assert Edge(prog, h, a, c);
          ReachesThrough(prog, h, a, c, slot.0);
        }
      }
      if slot in SlotsOf(prog, h, Reached(prog, h, a)) {
        if slot.0 == a {
          var f :| f in fs && f.name == slot.1;
          var j :| 0 <= j < |fs| && fs[j] == f;
        } else {
          var c := ReachesBy(prog, h, a, slot.0);
          var f :| f in fs && ChildOf(prog, h, a, f) == Some(c);
          var j :| 0 <= j < |fs| && fs[j] == f;
          assert slot in ChildSlots(prog, h, a, fs[j]);
        }
      }
    }
  }

  /** The run ends exactly when the fuel covers every chain below a, and then it has reset everything reached. */
  ghost predicate CallMeans(prog: Program, h: Heap, slots: set<Slot>, a: Addr, fuel: nat, run: Option<Heap>) {
    && (run.Some? <==> Bounded(prog, h, a, fuel))
    && (run.Some? ==> run.value == ResetHeap(prog, h, slots + SlotsOf(prog, h, Reached(prog, h, a))))
  }

  lemma {:induction false} CallMeaning(prog: Program, h: Heap, slots: set<Slot>, a: Addr, ty: TypeName, fuel: nat)
    requires WellTyped(prog, h) && ty in prog.structs && StructAt(h, a, ty)
    ensures CallMeans(prog, h, slots, a, fuel, Call(prog, ResetHeap(prog, h, slots), Some(a), ty, fuel))
    decreases fuel, 0, 1
  {
    if fuel == 0 {
      NoFuel(prog, h, slots, a, ty);
    } else {
      var less: nat, fs := fuel - 1, prog.structs[ty];
      var run := CallUnfolds(prog, ResetHeap(prog, h, slots), a, ty, ty.pkg, fs, fuel, less);
      CallOf(prog, h, slots, ResetHeap(prog, h, slots), ty.pkg, a, fs, fuel, less, run);
    }
  }

  lemma {:induction false} CallOf(prog: Program, h: Heap, slots: set<Slot>, g: Heap, pkg: string, a: Addr, fs: seq<Field>,
                                  fuel: nat, less: nat, run: Option<Heap>)
    requires WellTyped(prog, h) && a in h && pkg == PackageAt(h, a) && fs == FieldsAt(prog, h, a) && fuel == less + 1
    requires g == ResetHeap(prog, h, slots) && run == RunBody(prog, g, pkg, a, ResetBody(fs)[0..], less)
    ensures CallMeans(prog, h, slots, a, fuel, run)
    decreases less, |fs|, 4
  {
    BodyMeaning(prog, h, slots, pkg, a, fs, 0, less, run);
    CallFromBody(prog, h, slots, a, fs, fuel, less, run);
  }

  lemma NoFuel(prog: Program, h: Heap, slots: set<Slot>, a: Addr, ty: TypeName)
    ensures CallMeans(prog, h, slots, a, 0, Call(prog, ResetHeap(prog, h, slots), Some(a), ty, 0))
  {
  }

  /** The same for the body of a method from its i-th field on. */
  ghost predicate BodyMeans(prog: Program, h: Heap, slots: set<Slot>, a: Addr, fs: seq<Field>, i: nat, fuel: nat,
                            run: Option<Heap>)
    requires i <= |fs|
  {
    && (run.Some? <==> FieldsBounded(prog, h, a, fs, i, fuel))
    && (run.Some? ==> run.value == ResetHeap(prog, h, slots + SlotsFrom(prog, h, a, fs, i)))
  }

  lemma CallFromBody(prog: Program, h: Heap, slots: set<Slot>, a: Addr, fs: seq<Field>, fuel: nat, less: nat,
                     run: Option<Heap>)
    requires a in h && fs == FieldsAt(prog, h, a) && fuel == less + 1 && BodyMeans(prog, h, slots, a, fs, 0, less, run)
    ensures CallMeans(prog, h, slots, a, fuel, run)
  {
    BoundedByFields(prog, h, a, fuel);
    SlotsOfReached(prog, h, a);
  }

  lemma CallUnfolds(prog: Program, g: Heap, a: Addr, ty: TypeName, pkg: string, fs: seq<Field>, fuel: nat, less: nat)
    returns (run: Option<Heap>)
    requires ty in prog.structs && pkg == ty.pkg && fs == prog.structs[ty] && fuel == less + 1
    ensures run == RunBody(prog, g, pkg, a, ResetBody(fs)[0..], less) && Call(prog, g, Some(a), ty, fuel) == run
  {
    run := RunBody(prog, g, pkg, a, ResetBody(fs)[0..], less);
    assert ResetBody(fs)[0..] == ResetBody(fs);
  }

  ghost predicate FieldsBounded(prog: Program, h: Heap, a: Addr, fs: seq<Field>, i: nat, k: nat) {
    forall j | i <= j < |fs| :: ChildBounded(prog, h, a, fs[j], k)
  }

  lemma BoundedByFields(prog: Program, h: Heap, a: Addr, k: nat)
    requires k > 0
    ensures Bounded(prog, h, a, k) <==> FieldsBounded(prog, h, a, FieldsAt(prog, h, a), 0, k - 1)
  {
    var fs := FieldsAt(prog, h, a);
    if Bounded(prog, h, a, k) {
      forall j | 0 <= j < |fs| ensures ChildBounded(prog, h, a, fs[j], k - 1) {
        if ChildOf(prog, h, a, fs[j]).Some? {
          assert fs[j] in fs && Edge(prog, h, a, ChildOf(prog, h, a, fs[j]).value);
        }
      }
    }
    if FieldsBounded(prog, h, a, fs, 0, k - 1) {
      forall c: Addr | Edge(prog, h, a, c) ensures Bounded(prog, h, c, k - 1) {
        var f :| f in fs && ChildOf(prog, h, a, f) == Some(c);
        var j :| 0 <= j < |fs| && fs[j] == f;
        assert ChildBounded(prog, h, a, fs[j], k - 1);
      }
    }
  }

  lemma {:induction false} BodyMeaning(prog: Program, h: Heap, slots: set<Slot>, pkg: string, a: Addr, fs: seq<Field>, i: nat,
                                       fuel: nat, run: Option<Heap>)
    requires WellTyped(prog, h) && a in h && pkg == PackageAt(h, a) && fs == FieldsAt(prog, h, a) && i <= |fs|
    requires run == RunBody(prog, ResetHeap(prog, h, slots), pkg, a, ResetBody(fs)[i..], fuel)
    ensures BodyMeans(prog, h, slots, a, fs, i, fuel, run)
    decreases fuel, |fs| - i, 3
  {
    var body := ResetBody(fs)[i..];
    if i == |fs| {
      assert slots + SlotsFrom(prog, h, a, fs, i) == slots;
    } else {
      assert fs[i] in fs && body[0] == ResetField(fs[i]) && body[1..] == ResetBody(fs)[i + 1..];
      var next := RunStmt(prog, ResetHeap(prog, h, slots), pkg, a, body[0], fuel);
      FieldMeaning(prog, h, slots, a, fs[i], fuel, next);
      var touched := {(a, fs[i].name)} + ChildSlots(prog, h, a, fs[i]);
      if next.Some? {
        BodyMeaning(prog, h, slots + touched, pkg, a, fs, i + 1, fuel, run);
        assert slots + touched + SlotsFrom(prog, h, a, fs, i + 1) == slots + SlotsFrom(prog, h, a, fs, i);
      }
    }
  }

  lemma {:induction false} FieldMeaning(prog: Program, h: Heap, slots: set<Slot>, a: Addr, f: Field, fuel: nat, run: Option<Heap>)
    requires DeclaredAt(prog, h, a, f)
    requires run == RunStmt(prog, ResetHeap(prog, h, slots), PackageAt(h, a), a, ResetField(f), fuel)
    ensures run.Some? <==> ChildBounded(prog, h, a, f, fuel)
    ensures run.Some? ==> run.value == ResetHeap(prog, h, slots + ({(a, f.name)} + ChildSlots(prog, h, a, f)))
    decreases fuel, 0, 2
  {
    var v := DeclaredValue(prog, h, a, f);
    ReadReset(prog, h, slots, a, f.name);
    var more := slots + {(a, f.name)};
    match ChildOf(prog, h, a, f)
    case Some(c) =>
      var child := ChildType(prog, h, a, f, v, c);
      RunsChild(prog, ResetHeap(prog, h, slots), PackageAt(h, a), a, f, v, c, fuel);
      NeutralCase(prog, h, slots, a, f, v);
      CallMeaning(prog, h, more, c, child, fuel);
      assert more + SlotsOf(prog, h, Reached(prog, h, c)) == slots + ({(a, f.name)} + ChildSlots(prog, h, a, f));
    case None =>
      assert more == slots + ({(a, f.name)} + ChildSlots(prog, h, a, f));
      LeafMeaning(prog, h, slots, a, f, v, fuel);
  }

  // What the statement emitted for one field does

  lemma ChildType(prog: Program, h: Heap, a: Addr, f: Field, v: Value, c: Addr) returns (child: TypeName)
    requires DeclaredAt(prog, h, a, f) && Read(h, a, f.name) == Some(v) && ChildOf(prog, h, a, f) == Some(c)
    requires ValueOk(prog, h, PackageAt(h, a), f.ty, v)
    ensures Some(child) == Denotes(prog, PackageAt(h, a), if f.ty.Star? then f.ty.elem else f.ty)
    ensures child in prog.structs && StructAt(h, c, child) && BasicTarget(f.ty).None?
    ensures if f.ty.Star? then v == Pointer(Some(c)) else f.ty.Ident? && v == Inline(c)
  {
    child := Denotes(prog, PackageAt(h, a), if f.ty.Star? then f.ty.elem else f.ty).value;
    NamesApart(prog, PackageAt(h, a), if f.ty.Star? then f.ty.elem else f.ty);
  }

  lemma NamesApart(prog: Program, pkg: string, ty: Type)
    requires WellFormed(prog) && Denotes(prog, pkg, ty).Some?
    ensures ty.Ident? ==> KindOf(ty.name).None?
  {
    if ty.Ident? {
      assert TypeName(pkg, ty.name) in prog.structs.Keys + prog.aliases.Keys;
    }
  }

  lemma RunsChild(prog: Program, g: Heap, pkg: string, a: Addr, f: Field, v: Value, c: Addr, fuel: nat)
    requires BasicTarget(f.ty).None? && (f.ty.Ident? ==> KindOf(f.ty.name).None?) && Read(g, a, f.name) == Some(v)
    requires if f.ty.Star? then v == Pointer(Some(c)) else f.ty.Ident? && v == Inline(c)
    requires Denotes(prog, pkg, if f.ty.Star? then f.ty.elem else f.ty).Some?
    ensures RunStmt(prog, g, pkg, a, ResetField(f), fuel)
         == Call(prog, g, Some(c), Denotes(prog, pkg, if f.ty.Star? then f.ty.elem else f.ty).value, fuel)
  {
    ThroughBasicPointers(f.ty);
    if f.ty.Ident? {
      ZeroValuesAreZeros(f.ty.name);
    }
  }

  lemma RunsStore(prog: Program, h: Heap, g: Heap, pkg: string, a: Addr, f: Field, v: Value, fuel: nat)
    requires ValueOk(prog, h, pkg, f.ty, v) && (v.Prim? || v.SliceOf? || v.Whole?)
    requires Read(g, a, f.name) == Some(v) || Read(g, a, f.name) == Some(ResetValue(v))
    ensures RunStmt(prog, g, pkg, a, ResetField(f), fuel) == Some(Store(g, a, f.name, ResetValue(v)))
  {
    if f.ty.Ident? {
      ZeroValuesAreZeros(f.ty.name);
    }
  }

  lemma RunsClear(prog: Program, h: Heap, g: Heap, pkg: string, a: Addr, f: Field, m: Option<Addr>, fuel: nat)
    requires ValueOk(prog, h, pkg, f.ty, MapAt(m)) && Read(g, a, f.name) == Some(MapAt(m))
    ensures RunStmt(prog, g, pkg, a, ResetField(f), fuel)
         == Some(if m.Some? then g[m.value := MapObj(map[])] else g)
  {
  }

  lemma RunsThrough(prog: Program, g: Heap, pkg: string, a: Addr, f: Field, p: Option<Addr>, fuel: nat)
    requires BasicTarget(f.ty).Some? && Read(g, a, f.name) == Some(Pointer(p))
    ensures RunStmt(prog, g, pkg, a, ResetField(f), fuel)
         == Some(if p.Some? then g[p.value := PrimObj(ZeroOfKind(BasicTarget(f.ty).value))] else g)
  {
    ThroughBasicPointers(f.ty);
  }

  lemma RunsNothing(prog: Program, g: Heap, pkg: string, a: Addr, f: Field, p: Option<Addr>, fuel: nat)
    requires f.ty.Star? && BasicTarget(f.ty).None? && Read(g, a, f.name) == Some(Pointer(p))
    requires p.None? || PointsTo(prog, pkg, f.ty).None?
    ensures RunStmt(prog, g, pkg, a, ResetField(f), fuel) == Some(g)
  {
    ThroughBasicPointers(f.ty);
  }

  lemma LeafMeaning(prog: Program, h: Heap, slots: set<Slot>, a: Addr, f: Field, v: Value, fuel: nat)
    requires DeclaredAt(prog, h, a, f) && Read(h, a, f.name) == Some(v) && ChildOf(prog, h, a, f).None?
    requires ValueOk(prog, h, PackageAt(h, a), f.ty, v)
    ensures RunStmt(prog, ResetHeap(prog, h, slots), PackageAt(h, a), a, ResetField(f), fuel)
         == Some(ResetHeap(prog, h, slots + {(a, f.name)}))
  {
    ReadReset(prog, h, slots, a, f.name);
    var g, pkg := ResetHeap(prog, h, slots), PackageAt(h, a);
    match v {
      case MapAt(m) =>
        RunsClear(prog, h, g, pkg, a, f, m, fuel);
        if m.Some? {
          MapCase(prog, h, slots, a, f, m.value);
        } else {
          NeutralCase(prog, h, slots, a, f, v);
        }
      case Pointer(p) => PointerMeaning(prog, h, slots, g, pkg, a, f, p, fuel);
      case _ =>
        RunsStore(prog, h, g, pkg, a, f, v, fuel);
        StoreCase(prog, h, slots, a, f, v);
    }
  }

  lemma PointerMeaning(prog: Program, h: Heap, slots: set<Slot>, g: Heap, pkg: string, a: Addr, f: Field,
                       p: Option<Addr>, fuel: nat)
    requires DeclaredAt(prog, h, a, f) && Read(h, a, f.name) == Some(Pointer(p)) && ChildOf(prog, h, a, f).None?
    requires g == ResetHeap(prog, h, slots) && pkg == PackageAt(h, a) && Read(g, a, f.name) == Some(Pointer(p))
    requires ValueOk(prog, h, pkg, f.ty, Pointer(p))
    ensures RunStmt(prog, g, pkg, a, ResetField(f), fuel) == Some(ResetHeap(prog, h, slots + {(a, f.name)}))
  {
    if BasicTarget(f.ty).Some? {
      RunsThrough(prog, g, pkg, a, f, p, fuel);
      if p.Some? {
        PointerCase(prog, h, slots, a, f, p.value);
      } else {
        NeutralCase(prog, h, slots, a, f, Pointer(p));
      }
    } else {
      RunsNothing(prog, g, pkg, a, f, p, fuel);
      NeutralCase(prog, h, slots, a, f, Pointer(p));
    }
  }

  // ---------------------------------------------------------------------------
  // Main results
  // ---------------------------------------------------------------------------

  /** Reset on a struct: exactly the declared fields of every struct it reaches, each once however
      often it is shared, and what those fields point at. */
  lemma ResetMeaning(prog: Program, h: Heap, a: Addr, ty: TypeName, fuel: nat, after: Heap)
    requires WellTyped(prog, h) && ty in prog.structs && StructAt(h, a, ty)
    requires Call(prog, h, Some(a), ty, fuel) == Some(after)
    ensures after == ResetHeap(prog, h, SlotsOf(prog, h, Reached(prog, h, a)))
  {
    NothingReset(prog, h);
    CallMeaning(prog, h, {}, a, ty, fuel);
    assert {} + SlotsOf(prog, h, Reached(prog, h, a)) == SlotsOf(prog, h, Reached(prog, h, a));
  }

  lemma NothingReset(prog: Program, h: Heap)
    ensures ResetHeap(prog, h, {}) == h
  {
    forall x | x in h ensures ResetObj(prog, h, {}, x) == h[x] {
      if h[x].StructObj? {
        assert (map f | f in h[x].fields :: h[x].fields[f]) == h[x].fields;
      }
    }
  }

  /** The rules of the documentation, for every named field of every struct reached: basic values
      are zero, slices have length 0 on the same array, pointers and maps are the same; and a child is reached too. */
  lemma FieldsReset(prog: Program, h: Heap, a: Addr, ty: TypeName, fuel: nat, after: Heap)
    requires WellTyped(prog, h) && ty in prog.structs && StructAt(h, a, ty)
    requires Call(prog, h, Some(a), ty, fuel) == Some(after)
    ensures forall x: Addr, f | x in Reached(prog, h, a) && f in FieldsAt(prog, h, x) ::
              Read(h, x, f.name).Some? && Read(after, x, f.name) == Some(ResetValue(Read(h, x, f.name).value))
    ensures forall x: Addr, c: Addr | x in Reached(prog, h, a) && Edge(prog, h, x, c) :: c in Reached(prog, h, a)
  {
    ResetMeaning(prog, h, a, ty, fuel, after);
    forall x: Addr, f | x in Reached(prog, h, a) && f in FieldsAt(prog, h, x)
      ensures Read(h, x, f.name).Some? && Read(after, x, f.name) == Some(ResetValue(Read(h, x, f.name).value))
    {
      var v := DeclaredValue(prog, h, x, f);
      ReadReset(prog, h, SlotsOf(prog, h, Reached(prog, h, a)), x, f.name);
    }
    forall x: Addr, c: Addr | x in Reached(prog, h, a) && Edge(prog, h, x, c) ensures c in Reached(prog, h, a) {
      ReachedEdge(prog, h, a, x, c);
      ChildInHeap(prog, h, x, c);
    }
  }

  lemma PointerSlot(prog: Program, h: Heap, slots: set<Slot>, slot: Slot, p: Addr)
    requires WellTyped(prog, h) && slot in slots && PointsAtPrimitive(prog, h, slot, p)
    ensures p in h && h[p].PrimObj? && ResetHeap(prog, h, slots)[p] == PrimObj(ZeroOf(h[p].p))
  {
    var f :| f in FieldsAt(prog, h, slot.0) && f.name == slot.1 && BasicTarget(f.ty).Some?;
    var v := DeclaredValue(prog, h, slot.0, f);
  }

  lemma MapSlot(prog: Program, h: Heap, slots: set<Slot>, slot: Slot, m: Addr)
    requires WellTyped(prog, h) && slot in slots && HoldsMap(h, slot, m)
    requires slot.1 in NamesAt(prog, h, slot.0)
    ensures m in h && ResetHeap(prog, h, slots)[m] == MapObj(map[])
  {
    var f :| f in FieldsAt(prog, h, slot.0) && f.name == slot.1;
    var v := DeclaredValue(prog, h, slot.0, f);
  }

  /** The field is declared `name *T` with T a predeclared basic type of that kind, and points to p. */
  ghost predicate BasicPointer(prog: Program, h: Heap, x: Addr, name: string, kind: Kind, p: Addr) {
    && (exists basic: string :: KindOf(basic) == Some(kind) && Field(name, Star(Ident(basic))) in FieldsAt(prog, h, x))
    && Read(h, x, name) == Some(Pointer(Some(p)))
  }

  lemma BasicPointerSlot(prog: Program, h: Heap, x: Addr, name: string, kind: Kind, p: Addr)
    requires WellTyped(prog, h) && BasicPointer(prog, h, x, name, kind, p)
    ensures PointsAtPrimitive(prog, h, (x, name), p)
    ensures p in h && h[p].PrimObj? && ZeroOf(h[p].p) == ZeroOfKind(kind)
  {
    var basic: string :| KindOf(basic) == Some(kind) && Field(name, Star(Ident(basic))) in FieldsAt(prog, h, x);
    var v := DeclaredValue(prog, h, x, Field(name, Star(Ident(basic))));
    assert BasicTarget(Star(Ident(basic))) == Some(kind);
  }

  lemma SlotIsBasicPointer(prog: Program, h: Heap, slot: Slot, p: Addr) returns (kind: Kind)
    requires PointsAtPrimitive(prog, h, slot, p)
    ensures BasicPointer(prog, h, slot.0, slot.1, kind, p)
  {
    var f :| f in FieldsAt(prog, h, slot.0) && f.name == slot.1 && BasicTarget(f.ty).Some?;
    assert f == Field(slot.1, Star(Ident(f.ty.elem.name)));
    kind := BasicTarget(f.ty).value;
  }

  /** Whatever a reached field points at whose type is a pointer to a predeclared basic type holds that
      type's zero afterwards. A basic value no such field points at is as it was. */
  lemma PointersReset(prog: Program, h: Heap, a: Addr, ty: TypeName, fuel: nat, after: Heap)
    requires WellTyped(prog, h) && ty in prog.structs && StructAt(h, a, ty)
    requires Call(prog, h, Some(a), ty, fuel) == Some(after)
    ensures forall x: Addr, name, kind, p: Addr | x in Reached(prog, h, a) && BasicPointer(prog, h, x, name, kind, p) ::
              p in after && after[p] == PrimObj(ZeroOfKind(kind))
    ensures forall p: Addr | p in h && h[p].PrimObj?
              && (forall x: Addr, name, kind | x in Reached(prog, h, a) :: !BasicPointer(prog, h, x, name, kind, p)) ::
              p in after && after[p] == h[p]
  {
    ResetMeaning(prog, h, a, ty, fuel, after);
    var slots := SlotsOf(prog, h, Reached(prog, h, a));
    forall x: Addr, name, kind, p: Addr | x in Reached(prog, h, a) && BasicPointer(prog, h, x, name, kind, p)
      ensures p in after && after[p] == PrimObj(ZeroOfKind(kind))
    {
      BasicPointerSlot(prog, h, x, name, kind, p);
      PointerSlot(prog, h, slots, (x, name), p);
    }
    forall p: Addr | p in h && h[p].PrimObj?
      && (forall x: Addr, name, kind | x in Reached(prog, h, a) :: !BasicPointer(prog, h, x, name, kind, p))
      ensures p in after && after[p] == h[p]
    {
      forall slot | slot in slots ensures !PointsAtPrimitive(prog, h, slot, p) {
        if PointsAtPrimitive(prog, h, slot, p) {
          var kind := SlotIsBasicPointer(prog, h, slot, p);
        }
      }
    }
  }

  /** Every map a reached field holds is the same object, emptied. */
  lemma MapsCleared(prog: Program, h: Heap, a: Addr, ty: TypeName, fuel: nat, after: Heap)
    requires WellTyped(prog, h) && ty in prog.structs && StructAt(h, a, ty)
    requires Call(prog, h, Some(a), ty, fuel) == Some(after)
    ensures forall slot, m: Addr | slot in SlotsOf(prog, h, Reached(prog, h, a)) && HoldsMap(h, slot, m) ::
              m in after && after[m] == MapObj(map[])
  {
    ResetMeaning(prog, h, a, ty, fuel, after);
    var slots := SlotsOf(prog, h, Reached(prog, h, a));
    forall slot, m: Addr | slot in slots && HoldsMap(h, slot, m) ensures m in after && after[m] == MapObj(map[]) {
      MapSlot(prog, h, slots, slot, m);
    }
  }

  /** Nothing else changes: no object appears or disappears; slice arrays keep their elements; a struct
      not reached, a field without a name of its own, a cell or map no reached field points at stay as they were. */
  lemma FrameKept(prog: Program, h: Heap, a: Addr, ty: TypeName, fuel: nat, after: Heap, x: Addr)
    requires WellTyped(prog, h) && ty in prog.structs && StructAt(h, a, ty)
    requires Call(prog, h, Some(a), ty, fuel) == Some(after) && x in h
    ensures after.Keys == h.Keys
    ensures h[x].ArrayObj? ==> after[x] == h[x]
    ensures h[x].StructObj? && x !in Reached(prog, h, a) ==> after[x] == h[x]
    ensures h[x].StructObj? ==>
              after[x].StructObj? && after[x].ty == h[x].ty && after[x].fields.Keys == h[x].fields.Keys
    ensures h[x].StructObj? ==>
              forall f | f in h[x].fields && f !in NamesAt(prog, h, x) :: after[x].fields[f] == h[x].fields[f]
    ensures after[x] != h[x] && (h[x].PrimObj? || h[x].MapObj?) ==>
              exists slot | slot in SlotsOf(prog, h, Reached(prog, h, a)) ::
                PointsAtPrimitive(prog, h, slot, x) || HoldsMap(h, slot, x)
  {
    ResetMeaning(prog, h, a, ty, fuel, after);
    if h[x].StructObj? && x !in Reached(prog, h, a) {
      var slots := SlotsOf(prog, h, Reached(prog, h, a));
      assert forall f | f in h[x].fields :: (x, f) !in slots;
      assert after[x].fields == h[x].fields;
    }
  }

  /** A second Reset terminates with the same fuel and changes nothing. */
  lemma ResetIdempotent(prog: Program, h: Heap, a: Addr, ty: TypeName, fuel: nat, after: Heap)
    requires WellTyped(prog, h) && ty in prog.structs && StructAt(h, a, ty)
    requires Call(prog, h, Some(a), ty, fuel) == Some(after)
    ensures Call(prog, after, Some(a), ty, fuel) == Some(after)
  {
    ResetMeaning(prog, h, a, ty, fuel, after);
    var slots := SlotsOf(prog, h, Reached(prog, h, a));
    NothingReset(prog, h);
    CallMeaning(prog, h, {}, a, ty, fuel);
    CallMeaning(prog, h, slots, a, ty, fuel);
    assert slots + slots == slots;
  }

  /** Two Resets may run in either order, whatever they share. */
  lemma ResetsCommute(prog: Program, h: Heap, a: Addr, s: TypeName, b: Addr, t: TypeName, fuel: nat, first: Heap, second: Heap)
    requires WellTyped(prog, h) && s in prog.structs && StructAt(h, a, s) && t in prog.structs && StructAt(h, b, t)
    requires Call(prog, h, Some(a), s, fuel) == Some(first) && Call(prog, h, Some(b), t, fuel) == Some(second)
    ensures Call(prog, first, Some(b), t, fuel).Some?
    ensures Call(prog, first, Some(b), t, fuel) == Call(prog, second, Some(a), s, fuel)
  {
    ResetMeaning(prog, h, a, s, fuel, first);
    ResetMeaning(prog, h, b, t, fuel, second);
    NothingReset(prog, h);
    CallMeaning(prog, h, {}, a, s, fuel);
    CallMeaning(prog, h, {}, b, t, fuel);
    var mine, yours := SlotsOf(prog, h, Reached(prog, h, a)), SlotsOf(prog, h, Reached(prog, h, b));
    CallMeaning(prog, h, mine, b, t, fuel);
    CallMeaning(prog, h, yours, a, s, fuel);
    assert mine + yours == yours + mine;
  }

  // Termination

  lemma {:induction false} BoundedDown(prog: Program, h: Heap, path: seq<Addr>, k: nat)
    requires IsPath(prog, h, path) && Bounded(prog, h, path[0], k)
    ensures k >= |path| && Bounded(prog, h, path[|path| - 1], k - (|path| - 1))
  {
    if |path| > 1 {
      PathTail(prog, h, path);
      BoundedDown(prog, h, path[1..], k - 1);
    }
  }

  lemma {:induction false} CycleUnbounded(prog: Program, h: Heap, path: seq<Addr>, k: nat)
    requires IsPath(prog, h, path) && |path| > 1 && path[0] == path[|path| - 1]
    ensures !Bounded(prog, h, path[0], k)
    decreases k
  {
    if Bounded(prog, h, path[0], k) {
      BoundedDown(prog, h, path, k);
      CycleUnbounded(prog, h, path, k - (|path| - 1));
    }
  }

  lemma CycleNeverEnds(prog: Program, h: Heap, a: Addr, k: nat)
    requires Bounded(prog, h, a, k)
    ensures AcyclicFrom(prog, h, a)
  {
    forall x: Addr, c: Addr | Reaches(prog, h, a, x) && Edge(prog, h, x, c) ensures !Reaches(prog, h, c, x) {
      if Reaches(prog, h, c, x) {
        var down :| IsPath(prog, h, down) && down[0] == a && down[|down| - 1] == x;
        BoundedDown(prog, h, down, k);
        var back :| IsPath(prog, h, back) && back[0] == c && back[|back| - 1] == x;
        assert IsPath(prog, h, [x] + back);
        CycleUnbounded(prog, h, [x] + back, k - (|down| - 1));
      }
    }
  }

  lemma ChildInHeap(prog: Program, h: Heap, a: Addr, c: Addr)
    requires WellTyped(prog, h) && Edge(prog, h, a, c)
    ensures a in h && c in h
  {
    var f :| f in FieldsAt(prog, h, a) && ChildOf(prog, h, a, f) == Some(c);
    var v := DeclaredValue(prog, h, a, f);
  }

  /** x is on the way from root to a. */
  ghost predicate Behind(prog: Program, h: Heap, root: Addr, a: Addr, x: Addr) {
    Reaches(prog, h, root, x) && exists d :: Edge(prog, h, x, d) && Reaches(prog, h, d, a)
  }

  /** A chain of children led from root to a through the addresses behind it. */
  ghost predicate Chain(prog: Program, h: Heap, root: Addr, a: Addr, behind: set<Addr>) {
    && Reaches(prog, h, root, a)
    && a in h && a !in behind && behind <= h.Keys
    && (forall x | x in behind :: Behind(prog, h, root, a, x))
  }

  lemma NotBehindItself(prog: Program, h: Heap, root: Addr, x: Addr)
    requires AcyclicFrom(prog, h, root)
    ensures !Behind(prog, h, root, x, x)
  {
  }

  lemma BehindNext(prog: Program, h: Heap, root: Addr, a: Addr, c: Addr, x: Addr)
    requires Reaches(prog, h, root, a) && Edge(prog, h, a, c)
    requires x == a || Behind(prog, h, root, a, x)
    ensures Behind(prog, h, root, c, x)
  {
    ReachesSelf(prog, h, c);
    if x != a {
      var d :| Edge(prog, h, x, d) && Reaches(prog, h, d, a);
      ReachesThrough(prog, h, a, c, c);
      ReachesTransitive(prog, h, d, a, c);
    }
  }

  lemma ChainNext(prog: Program, h: Heap, root: Addr, a: Addr, c: Addr, behind: set<Addr>)
    requires WellTyped(prog, h) && AcyclicFrom(prog, h, root) && Edge(prog, h, a, c)
    requires Chain(prog, h, root, a, behind)
    ensures Chain(prog, h, root, c, behind + {a})
  {
    ReachesSelf(prog, h, c);
    ReachesThrough(prog, h, a, c, c);
    ReachesTransitive(prog, h, root, a, c);
    ChildInHeap(prog, h, a, c);
    NotBehindItself(prog, h, root, c);
    forall x | x in behind + {a} ensures Behind(prog, h, root, c, x) {
      BehindNext(prog, h, root, a, c, x);
    }
  }

  /** Below a, every address of the chain that led to it lies behind: without cycles none comes
      again, so the chain is at most as long as the heap is large. */
  lemma {:induction false} AcyclicBounded(prog: Program, h: Heap, root: Addr, a: Addr, behind: set<Addr>, k: nat)
    requires WellTyped(prog, h) && AcyclicFrom(prog, h, root)
    requires Chain(prog, h, root, a, behind) && k + |behind| == |h.Keys|
    ensures Bounded(prog, h, a, k)
    decreases k
  {
    Fewer(behind, a, h.Keys);
    forall c: Addr | Edge(prog, h, a, c) ensures Bounded(prog, h, c, k - 1) {
      ChainNext(prog, h, root, a, c, behind);
      AcyclicBounded(prog, h, root, c, behind + {a}, k - 1);
    }
  }

  lemma Fewer(some: set<Addr>, a: Addr, all: set<Addr>)
    requires some <= all && a in all && a !in some
    ensures |some + {a}| == |some| + 1 && |some| < |all|
  {
    assert some + {a} <= all;
    SubsetSize(some + {a}, all);
  }

  lemma {:induction false} SubsetSize(some: set<Addr>, all: set<Addr>)
    requires some <= all
    ensures |some| <= |all|
  {
    if some != {} {
      var x :| x in some;
      SubsetSize(some - {x}, all - {x});
    }
  }

  lemma CallEndsIffBounded(prog: Program, h: Heap, a: Addr, ty: TypeName, fuel: nat)
    requires WellTyped(prog, h) && ty in prog.structs && StructAt(h, a, ty)
    ensures Call(prog, h, Some(a), ty, fuel).Some? <==> Bounded(prog, h, a, fuel)
  {
    NothingReset(prog, h);
    CallMeaning(prog, h, {}, a, ty, fuel);
  }

  lemma EndsOnlyAcyclic(prog: Program, h: Heap, a: Addr, ty: TypeName, fuel: nat)
    requires WellTyped(prog, h) && ty in prog.structs && StructAt(h, a, ty) && Call(prog, h, Some(a), ty, fuel).Some?
    ensures AcyclicFrom(prog, h, a)
  {
    CallEndsIffBounded(prog, h, a, ty, fuel);
    CycleNeverEnds(prog, h, a, fuel);
  }

  lemma AcyclicEnds(prog: Program, h: Heap, a: Addr, ty: TypeName)
    requires WellTyped(prog, h) && ty in prog.structs && StructAt(h, a, ty) && AcyclicFrom(prog, h, a)
    ensures Call(prog, h, Some(a), ty, |h|).Some?
  {
    CallEndsIffBounded(prog, h, a, ty, |h|);
    ReachesSelf(prog, h, a);
    assert |h| == |h.Keys|;
    AcyclicBounded(prog, h, a, a, {}, |h|);
  }

  /** The generated method keeps no visited set. It terminates, whatever the depth allowed,
      exactly when no reachable struct can be reached again from one of its children. */
  lemma ResetTerminates(prog: Program, h: Heap, a: Addr, ty: TypeName)
    requires WellTyped(prog, h) && ty in prog.structs && StructAt(h, a, ty)
    ensures (exists fuel: nat :: Call(prog, h, Some(a), ty, fuel).Some?) <==> AcyclicFrom(prog, h, a)
    ensures AcyclicFrom(prog, h, a) ==> Call(prog, h, Some(a), ty, |h|).Some?
  {
    if fuel: nat :| Call(prog, h, Some(a), ty, fuel).Some? {
      EndsOnlyAcyclic(prog, h, a, ty, fuel);
    }
    if AcyclicFrom(prog, h, a) {
      AcyclicEnds(prog, h, a, ty);
    }
  }

  // Where the code departs from its rules

  /** The object holds something the documented rules would change: a basic value that is not zero, a
      slice of positive length, a map with entries, or a marked struct with a field not yet reset. */
  ghost predicate Stale(prog: Program, h: Heap, q: Addr) {
    && q in h
    && match h[q]
       case PrimObj(v) => v != ZeroOf(v)
       case CellObj(SliceOf(_, _, len, _)) => len > 0
       case CellObj(MapAt(Some(m))) => m in h && h[m].MapObj? && h[m] != MapObj(map[])
       case StructObj(_, fields) =>
         exists f | f in FieldsAt(prog, h, q) :: f.name in fields && ResetValue(fields[f.name]) != fields[f.name]
       case _ => false
  }

  /** It has been reset by those rules. */
  ghost predicate Done(prog: Program, h: Heap, after: Heap, q: Addr)
    requires q in h
  {
    && q in after
    && match h[q]
       case PrimObj(v) => after[q] == PrimObj(ZeroOf(v))
       case CellObj(MapAt(Some(m))) => after[q] == h[q] && m in after && after[m] == MapObj(map[])
       case CellObj(v) => after[q] == CellObj(ResetValue(v))
       case StructObj(_, fields) =>
         forall f | f in FieldsAt(prog, h, q) && f.name in fields ::
           Read(after, q, f.name) == Some(ResetValue(fields[f.name]))
       case _ => true
  }

  /** The slot's value is a child at q. */
  ghost predicate ChildAt(prog: Program, h: Heap, slot: Slot, q: Addr) {
    exists f | f in FieldsAt(prog, h, slot.0) :: f.name == slot.1 && ChildOf(prog, h, slot.0, f) == Some(q)
  }

  /** Resetting the slot resets q: it points to the basic value, holds the map, or holds or points to the struct. */
  ghost predicate Resets(prog: Program, h: Heap, slot: Slot, q: Addr) {
    || PointsAtPrimitive(prog, h, slot, q)
    || (q in h && h[q].CellObj? && h[q].v.MapAt? && h[q].v.map_.Some? && HoldsMap(h, slot, h[q].v.map_.value))
    || ChildAt(prog, h, slot, q)
  }

  lemma LastEdge(prog: Program, h: Heap, a: Addr, q: Addr) returns (y: Addr)
    requires Reaches(prog, h, a, q) && q != a
    ensures Reaches(prog, h, a, y) && Edge(prog, h, y, q)
  {
    var path :| IsPath(prog, h, path) && path[0] == a && path[|path| - 1] == q;
    y := path[|path| - 2];
    assert Edge(prog, h, path[|path| - 2], path[|path| - 2 + 1]);
    assert IsPath(prog, h, path[..|path| - 1]);
  }

  lemma ReachedBySlot(prog: Program, h: Heap, a: Addr, q: Addr)
    requires WellTyped(prog, h) && Reaches(prog, h, a, q) && q != a
    ensures exists slot | slot in SlotsOf(prog, h, Reached(prog, h, a)) :: ChildAt(prog, h, slot, q)
  {
    var y := LastEdge(prog, h, a, q);
    ChildInHeap(prog, h, y, q);
    var f :| f in FieldsAt(prog, h, y) && ChildOf(prog, h, y, f) == Some(q);
    assert (y, f.name) in SlotsOf(prog, h, Reached(prog, h, a)) && ChildAt(prog, h, (y, f.name), q);
  }

  lemma ChildIsStruct(prog: Program, h: Heap, y: Addr, f: Field, q: Addr)
    requires DeclaredAt(prog, h, y, f) && ChildOf(prog, h, y, f) == Some(q)
    ensures q in h && h[q].StructObj?
  {
    var v := DeclaredValue(prog, h, y, f);
  }

  lemma ReachedChild(prog: Program, h: Heap, a: Addr, slot: Slot, q: Addr)
    requires WellTyped(prog, h) && slot in SlotsOf(prog, h, Reached(prog, h, a)) && ChildAt(prog, h, slot, q)
    ensures q in Reached(prog, h, a) && h[q].StructObj?
  {
    var f :| f in FieldsAt(prog, h, slot.0) && f.name == slot.1 && ChildOf(prog, h, slot.0, f) == Some(q);
    ChildIsStruct(prog, h, slot.0, f, q);
    ReachedEdge(prog, h, a, slot.0, q);
  }

  lemma StructReset(prog: Program, h: Heap, slots: set<Slot>, q: Addr)
    requires q in h && h[q].StructObj? && forall f | f in FieldsAt(prog, h, q) :: (q, f.name) in slots
    ensures Done(prog, h, ResetHeap(prog, h, slots), q)
  {
    forall f | f in FieldsAt(prog, h, q) && f.name in h[q].fields
      ensures Read(ResetHeap(prog, h, slots), q, f.name) == Some(ResetValue(h[q].fields[f.name]))
    {
      ReadReset(prog, h, slots, q, f.name);
    }
  }

  lemma StructKept(prog: Program, h: Heap, slots: set<Slot>, q: Addr)
    requires Stale(prog, h, q) && h[q].StructObj? && forall f | f in FieldsAt(prog, h, q) :: (q, f.name) !in slots
    ensures !Done(prog, h, ResetHeap(prog, h, slots), q)
  {
    var f :| f in FieldsAt(prog, h, q) && f.name in h[q].fields && ResetValue(h[q].fields[f.name]) != h[q].fields[f.name];
    ReadReset(prog, h, slots, q, f.name);
  }

  lemma StructDone(prog: Program, h: Heap, a: Addr, q: Addr)
    requires WellTyped(prog, h) && a in h && Stale(prog, h, q) && h[q].StructObj?
    ensures var slots := SlotsOf(prog, h, Reached(prog, h, a));
            Done(prog, h, ResetHeap(prog, h, slots), q) <==> q == a || exists slot | slot in slots :: ChildAt(prog, h, slot, q)
  {
    var slots := SlotsOf(prog, h, Reached(prog, h, a));
    ReachesSelf(prog, h, a);
    if q in Reached(prog, h, a) {
      StructReset(prog, h, slots, q);
      if q != a {
        ReachedBySlot(prog, h, a, q);
      }
    } else {
      StructKept(prog, h, slots, q);
      forall slot | slot in slots ensures !ChildAt(prog, h, slot, q) {
        if ChildAt(prog, h, slot, q) {
          ReachedChild(prog, h, a, slot, q);
        }
      }
    }
  }

  lemma CellDone(prog: Program, h: Heap, slots: set<Slot>, q: Addr)
    requires WellTyped(prog, h) && Stale(prog, h, q) && !h[q].StructObj?
    ensures Done(prog, h, ResetHeap(prog, h, slots), q)
       <==> exists slot | slot in slots ::
              || PointsAtPrimitive(prog, h, slot, q)
              || (h[q].CellObj? && h[q].v.MapAt? && h[q].v.map_.Some? && HoldsMap(h, slot, h[q].v.map_.value))
  {
    match h[q] {
      case PrimObj(_) =>
      case CellObj(v) =>
        forall slot: Slot ensures !PointsAtPrimitive(prog, h, slot, q) {
          NoCellTarget(prog, h, slot, q);
        }
        match v {
          case MapAt(Some(m)) => assert ResetHeap(prog, h, slots)[m] == MapObj(map[]) <==> exists slot | slot in slots :: HoldsMap(h, slot, m);
          case _ =>
        }
      case _ =>
    }
  }

  lemma NoCellTarget(prog: Program, h: Heap, slot: Slot, q: Addr)
    requires WellTyped(prog, h) && q in h && h[q].CellObj?
    ensures !PointsAtPrimitive(prog, h, slot, q)
  {
    if PointsAtPrimitive(prog, h, slot, q) {
      var f :| f in FieldsAt(prog, h, slot.0) && f.name == slot.1 && BasicTarget(f.ty).Some?
               && Read(h, slot.0, slot.1) == Some(Pointer(Some(q)));
      var v := DeclaredValue(prog, h, slot.0, f);
    }
  }

  /** Anything at all that the rules would change is reset by a run if and only if it is the struct itself
      or some reached field resets it: a pointer spelling its predeclared type, a map field holding its
      map, or a pointer or inline field of its marked type. */
  lemma ResetReach(prog: Program, h: Heap, a: Addr, ty: TypeName, fuel: nat, after: Heap, q: Addr)
    requires WellTyped(prog, h) && ty in prog.structs && StructAt(h, a, ty)
    requires Call(prog, h, Some(a), ty, fuel) == Some(after) && Stale(prog, h, q)
    ensures Done(prog, h, after, q)
       <==> q == a || exists slot | slot in SlotsOf(prog, h, Reached(prog, h, a)) :: Resets(prog, h, slot, q)
  {
    var slots := SlotsOf(prog, h, Reached(prog, h, a));
    ResetMeaning(prog, h, a, ty, fuel, after);
    if h[q].StructObj? {
      StructDone(prog, h, a, q);
      forall slot: Slot ensures !PointsAtPrimitive(prog, h, slot, q) {
        NoStructTarget(prog, h, slot, q);
      }
    } else {
      CellDone(prog, h, slots, q);
      forall slot | slot in slots ensures !ChildAt(prog, h, slot, q) {
        if ChildAt(prog, h, slot, q) {
          ReachedChild(prog, h, a, slot, q);
        }
      }
    }
  }

  lemma NoStructTarget(prog: Program, h: Heap, slot: Slot, q: Addr)
    requires WellTyped(prog, h) && q in h && h[q].StructObj?
    ensures !PointsAtPrimitive(prog, h, slot, q)
  {
    if PointsAtPrimitive(prog, h, slot, q) {
      var f :| f in FieldsAt(prog, h, slot.0) && f.name == slot.1 && BasicTarget(f.ty).Some?
               && Read(h, slot.0, slot.1) == Some(Pointer(Some(q)));
      var v := DeclaredValue(prog, h, slot.0, f);
    }
  }

  /** The pointer's type is one the generator resets through: it spells a pointer to a predeclared type,
      or its target's type has a generated Reset. */
  predicate ResetsThrough(prog: Program, pkg: string, ty: Type) {
    BasicTarget(ty).Some? || PointsTo(prog, pkg, ty).Some?
  }

  lemma OwnSlot(prog: Program, h: Heap, x: Addr, f: Field, p: Addr, q: Addr)
    requires DeclaredAt(prog, h, x, f) && f.ty.Star? && Read(h, x, f.name) == Some(Pointer(Some(p)))
    ensures Resets(prog, h, (x, f.name), q) <==> q == p && ResetsThrough(prog, PackageAt(h, x), f.ty)
  {
    forall g | g in FieldsAt(prog, h, x) && g.name == f.name ensures g == f {
      OneFieldPerName(prog, h, x, f, g);
    }
    if q == p && PointsTo(prog, PackageAt(h, x), f.ty).Some? {
      assert ChildOf(prog, h, x, f) == Some(q);
      assert ChildAt(prog, h, (x, f.name), q);
    }
    if q == p && BasicTarget(f.ty).Some? {
      assert PointsAtPrimitive(prog, h, (x, f.name), q);
    }
  }

  /** The field f of the reached struct x points to p. */
  ghost predicate ReachedPointer(prog: Program, h: Heap, a: Addr, x: Addr, f: Field, p: Addr) {
    && x in Reached(prog, h, a) && f in FieldsAt(prog, h, x) && f.ty.Star?
    && Read(h, x, f.name) == Some(Pointer(Some(p)))
  }

  /** q is reset though that field does not reset it: it is the struct Reset was called on, or another
      reached field resets it. */
  ghost predicate ResetAnyway(prog: Program, h: Heap, a: Addr, own: Slot, q: Addr) {
    q == a || exists slot | slot in SlotsOf(prog, h, Reached(prog, h, a)) && slot != own :: Resets(prog, h, slot, q)
  }

  lemma OwnOrAnyway(prog: Program, h: Heap, a: Addr, x: Addr, f: Field, p: Addr, q: Addr)
    requires WellTyped(prog, h) && ReachedPointer(prog, h, a, x, f, p)
    ensures (q == a || exists slot | slot in SlotsOf(prog, h, Reached(prog, h, a)) :: Resets(prog, h, slot, q))
       <==> (q == p && ResetsThrough(prog, PackageAt(h, x), f.ty)) || ResetAnyway(prog, h, a, (x, f.name), q)
  {
    OwnSlot(prog, h, x, f, p, q);
    assert (x, f.name) in SlotsOf(prog, h, Reached(prog, h, a));
  }

  /** The documented rule asks every pointer that is not nil to reset what it points to. For a reached
      pointer field and an object the rule reaches from it (the target, or what further pointers lead to),
      the code resets the object if and only if the object is the target itself and the field's type is one
      the generator resets through, or the object is reset anyway. So a pointer to a named basic type, a
      slice, a map or another pointer leaves its target alone. */
  lemma PointerTargetReset(prog: Program, h: Heap, a: Addr, ty: TypeName, fuel: nat, after: Heap)
    requires WellTyped(prog, h) && ty in prog.structs && StructAt(h, a, ty)
    requires Call(prog, h, Some(a), ty, fuel) == Some(after)
    ensures forall x: Addr, f, p: Addr, q: Addr | ReachedPointer(prog, h, a, x, f, p) && Stale(prog, h, q) ::
              Done(prog, h, after, q)
              <==> (q == p && ResetsThrough(prog, PackageAt(h, x), f.ty)) || ResetAnyway(prog, h, a, (x, f.name), q)
  {
    forall x: Addr, f, p: Addr, q: Addr | ReachedPointer(prog, h, a, x, f, p) && Stale(prog, h, q)
      ensures Done(prog, h, after, q)
         <==> (q == p && ResetsThrough(prog, PackageAt(h, x), f.ty)) || ResetAnyway(prog, h, a, (x, f.name), q)
    {
      ResetReach(prog, h, a, ty, fuel, after, q);
      OwnOrAnyway(prog, h, a, x, f, p, q);
    }
  }

  /** A struct with one pointer field, and what it points to. */
  ghost predicate OnePointer(prog: Program, h: Heap, elem: Type, target: Obj) {
    && prog == Program(map[TypeName("a", "S") := [Field("p", Star(elem))]], map[])
    && 0 in h && 1 in h && h[0] == StructObj(TypeName("a", "S"), map["p" := Pointer(Some(1))]) && h[1] == target
  }

  /** Unless the generator resets through it, its Reset does nothing at all. */
  lemma LoneTargetKept(prog: Program, h: Heap, elem: Type, target: Obj)
    requires OnePointer(prog, h, elem, target) && !ResetsThrough(prog, "a", Star(elem))
    ensures Call(prog, h, Some(0), TypeName("a", "S"), 1) == Some(h)
  {
    var f := Field("p", Star(elem));
    assert ResetBody([f]) == [ResetField(f)] && [ResetField(f)][1..] == [];
    RunsNothing(prog, h, "a", 0, f, Some(1), 0);
    assert RunBody(prog, h, "a", 0, [ResetField(f)], 0) == Some(h);
  }

  /** T a named string: the Reset of a struct S { p *T } leaves the text. */
  lemma NamedPointerKept(prog: Program, h: Heap)
    requires OnePointer(prog, h, Ident("T"), PrimObj(Text("busy")))
    ensures Call(prog, h, Some(0), TypeName("a", "S"), 1) == Some(h) && Stale(prog, h, 1)
  {
    LoneTargetKept(prog, h, Ident("T"), PrimObj(Text("busy")));
  }

  /** S { p *[]int }: the slice keeps its length. */
  lemma SlicePointerKept(prog: Program, h: Heap)
    requires OnePointer(prog, h, ArrayOf(None, Ident("int")), CellObj(SliceOf(Some(2), 0, 3, 3)))
    ensures Call(prog, h, Some(0), TypeName("a", "S"), 1) == Some(h) && Stale(prog, h, 1)
  {
    LoneTargetKept(prog, h, ArrayOf(None, Ident("int")), CellObj(SliceOf(Some(2), 0, 3, 3)));
  }
}
