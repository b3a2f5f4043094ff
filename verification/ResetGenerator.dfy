/** The Reset generator (cmd/reset/generator.go): from struct declarations to the statements of
    the generated methods. Statements are kept as syntax; ResetSemantics says what running them does. */
module ResetGenerator {
  import opened Options

  // ---------------------------------------------------------------------------
  // Declarations
  // ---------------------------------------------------------------------------

  /** Qualified is pkg.Name. Other stands for the remaining type expressions: channels, functions,
      interfaces and struct literals. As the type of a field, a qualified or parenthesised name is
      handled by its zero value, like Other; behind a pointer it may still have a Reset method. */
  datatype Type =
    | Ident(name: string)
    | Qualified(pkg: string, name: string)
    | Paren(inner: Type)
    | Star(elem: Type)
    | ArrayOf(length: Option<string>, elem: Type)
    | MapOf(key: Type, elem: Type)
    | Other(text: string)

  /** One line of a struct: several names share a type, an embedded field has no name. */
  datatype FieldDecl = FieldDecl(names: seq<string>, ty: Type)

  datatype Spec = StructSpec(name: string, marked: bool, fields: seq<FieldDecl>) | OtherSpec

  /** marked: the comment above carries the directive. */
  datatype Decl = TypeDecl(marked: bool, specs: seq<Spec>) | OtherDecl

  datatype Field = Field(name: string, ty: Type)

  datatype ResetStruct = ResetStruct(name: string, fields: seq<Field>)

  // ---------------------------------------------------------------------------
  // Collecting
  // ---------------------------------------------------------------------------

  function NamedFields(names: seq<string>, ty: Type): (fs: seq<Field>)
    ensures |fs| == |names|
    ensures forall i | 0 <= i < |fs| :: fs[i] == Field(names[i], ty)
  {
    if names == [] then [] else NamedFields(names[..|names| - 1], ty) + [Field(names[|names| - 1], ty)]
  }

  function Flatten(decls: seq<FieldDecl>): seq<Field> {
    if decls == [] then []
    else Flatten(decls[..|decls| - 1]) + NamedFields(decls[|decls| - 1].names, decls[|decls| - 1].ty)
  }

  method CollectFields(decls: seq<FieldDecl>) returns (fields: seq<Field>)
    ensures fields == Flatten(decls)
  {
    fields := [];
    for i := 0 to |decls|
      invariant fields == Flatten(decls[..i])
    {
      ghost var before := fields;
      var names := decls[i].names;
      for j := 0 to |names|
        invariant fields == before + NamedFields(names[..j], decls[i].ty)
      {
        assert names[..j + 1][..j] == names[..j];
        fields := fields + [Field(names[j], decls[i].ty)];
      }
      assert names[..|names|] == names && decls[..i + 1][..i] == decls[..i];
    }
    assert decls[..|decls|] == decls;
  }

  /** The fields collected are the named ones, each with its line's type: an embedded field,
      having no name, contributes nothing and is never reset. */
  lemma {:induction false} CollectedFields(decls: seq<FieldDecl>, f: Field)
    ensures f in Flatten(decls) <==> exists d :: d in decls && f.name in d.names && f.ty == d.ty
  {
    if decls != [] {
      var front, last := decls[..|decls| - 1], decls[|decls| - 1];
      CollectedFields(front, f);
      assert decls == front + [last];
      assert f in NamedFields(last.names, last.ty) <==> f.name in last.names && f.ty == last.ty;
      assert f in Flatten(decls) <==> f in Flatten(front) || f in NamedFields(last.names, last.ty);
    }
  }

  lemma FlattenSnoc(a: seq<FieldDecl>, d: FieldDecl)
    ensures Flatten(a + [d]) == Flatten(a) + NamedFields(d.names, d.ty)
  {
    assert (a + [d])[..|a|] == a;
  }

  lemma Regroup(a: seq<Field>, b: seq<Field>, c: seq<Field>)
    ensures (a + b) + c == a + (b + c)
  {
  }

  /** Lines keep their order. */
  lemma {:induction false} FieldsInOrder(a: seq<FieldDecl>, b: seq<FieldDecl>)
    ensures Flatten(a + b) == Flatten(a) + Flatten(b)
    decreases |b|
  {
    if b == [] {
      assert a + b == a;
    } else {
      var front, last := b[..|b| - 1], b[|b| - 1];
      assert b == front + [last] && a + b == (a + front) + [last];
      FlattenSnoc(front, last);
      FlattenSnoc(a + front, last);
      FieldsInOrder(a, front);
      Regroup(Flatten(a), Flatten(front), NamedFields(last.names, last.ty));
    }
  }

  /** And so do the names of one line. */
  lemma OneLine(d: FieldDecl)
    ensures |Flatten([d])| == |d.names| && forall i | 0 <= i < |d.names| :: Flatten([d])[i] == Field(d.names[i], d.ty)
  {
    FlattenSnoc([], d);
    assert [] + [d] == [d] && Flatten([]) == [] && [] + NamedFields(d.names, d.ty) == NamedFields(d.names, d.ty);
  }

  function SpecStruct(declMarked: bool, spec: Spec): seq<ResetStruct> {
    if spec.StructSpec? && (declMarked || spec.marked)
    then [ResetStruct(spec.name, Flatten(spec.fields))] else []
  }

  function MarkedSpecs(declMarked: bool, specs: seq<Spec>): seq<ResetStruct> {
    if specs == [] then []
    else MarkedSpecs(declMarked, specs[..|specs| - 1]) + SpecStruct(declMarked, specs[|specs| - 1])
  }

  function MarkedStructs(file: seq<Decl>): seq<ResetStruct> {
    if file == [] then []
    else MarkedStructs(file[..|file| - 1])
         + match file[|file| - 1] case TypeDecl(marked, specs) => MarkedSpecs(marked, specs) case OtherDecl => []
  }

  method FindResetStructs(file: seq<Decl>) returns (structs: seq<ResetStruct>)
    ensures structs == MarkedStructs(file)
  {
    structs := [];
    for i := 0 to |file|
      invariant structs == MarkedStructs(file[..i])
    {
      assert file[..i + 1][..i] == file[..i];
      if file[i].TypeDecl? {
        var collected := CollectResetStructs(file[i].marked, file[i].specs);
        structs := structs + collected;
      }
    }
    assert file[..|file|] == file;
  }

  method CollectResetStructs(declMarked: bool, specs: seq<Spec>) returns (structs: seq<ResetStruct>)
    ensures structs == MarkedSpecs(declMarked, specs)
  {
    structs := [];
    for i := 0 to |specs|
      invariant structs == MarkedSpecs(declMarked, specs[..i])
    {
      assert specs[..i + 1][..i] == specs[..i];
      if specs[i].StructSpec? && (declMarked || specs[i].marked) {
        var fields := CollectFields(specs[i].fields);
        structs := structs + [ResetStruct(specs[i].name, fields)];
      }
    }
    assert specs[..|specs|] == specs;
  }

  lemma {:induction false} FoundSpecs(declMarked: bool, specs: seq<Spec>, item: ResetStruct)
    ensures item in MarkedSpecs(declMarked, specs)
       <==> exists spec :: spec in specs && item in SpecStruct(declMarked, spec)
  {
    if specs != [] {
      var front, last := specs[..|specs| - 1], specs[|specs| - 1];
      FoundSpecs(declMarked, front, item);
      assert specs == front + [last];
    }
  }

  /** A struct gets a Reset method exactly when it is declared in the file and the directive
      stands on it or on the declaration group around it. */
  lemma {:induction false} FoundStructs(file: seq<Decl>, item: ResetStruct)
    ensures item in MarkedStructs(file)
       <==> exists d, spec :: d in file && d.TypeDecl? && spec in d.specs && spec.StructSpec?
                              && (d.marked || spec.marked) && item == ResetStruct(spec.name, Flatten(spec.fields))
  {
    if file != [] {
      var front, last := file[..|file| - 1], file[|file| - 1];
      FoundStructs(front, item);
      assert file == front + [last];
      if last.TypeDecl? {
        FoundSpecs(last.marked, last.specs, item);
        assert item in MarkedStructs(file)
          <==> item in MarkedStructs(front) || item in MarkedSpecs(last.marked, last.specs);
      }
    }
  }

  // ---------------------------------------------------------------------------
  // Emitting
  // ---------------------------------------------------------------------------

  datatype Literal = EmptyText | FalseFlag | ZeroNumber

  /** What one field's lines of the method body do. The type of s.field, which the compiler
      knows from the declaration, is noted where it decides whether a Reset method is found. */
  datatype Stmt =
    | AssignLiteral(field: string, literal: Literal) // s.f = 0
    | ResetOrZero(field: string, ty: Type)           // if any(&s.f) has Reset, call it, else s.f = zero
    | StoreThrough(field: string, literal: Literal)  // if s.f != nil { *s.f = 0 }
    | CallThrough(field: string, ty: Type)           // if s.f != nil and any(s.f) has Reset, call it
    | Truncate(field: string)                        // s.f = s.f[:0]
    | Clear(field: string)                           // clear(s.f)
    | AssignZero(field: string, ty: Type)            // var zero T; s.f = zero

  const NUMERIC: set<string> := {
    "int", "int8", "int16", "int32", "int64",
    "uint", "uint8", "uint16", "uint32", "uint64", "uintptr",
    "byte", "rune", "float32", "float64", "complex64", "complex128"
  }

  function PrimitiveZeroValue(typeName: string): Option<Literal> {
    if typeName == "string" then Some(EmptyText)
    else if typeName == "bool" then Some(FalseFlag)
    else if typeName in NUMERIC then Some(ZeroNumber)
    else None
  }

  function PrimitivePointerZeroValue(ty: Type): Option<Literal> {
    if ty.Star? && ty.elem.Ident? then PrimitiveZeroValue(ty.elem.name) else None
  }

  /** writeResetField and the emitters it dispatches to. */
  function ResetField(f: Field): Stmt {
    match f.ty
    case Ident(name) =>
      (match PrimitiveZeroValue(name)
       case Some(literal) => AssignLiteral(f.name, literal)
       case None => ResetOrZero(f.name, f.ty))
    case Star(_) =>
      (match PrimitivePointerZeroValue(f.ty)
       case Some(literal) => StoreThrough(f.name, literal)
       case None => CallThrough(f.name, f.ty))
    case ArrayOf(None, _) => Truncate(f.name)
    case ArrayOf(Some(_), _) => AssignZero(f.name, f.ty)
    case MapOf(_, _) => Clear(f.name)
    case _ => AssignZero(f.name, f.ty)
  }

  function ResetBody(fields: seq<Field>): (body: seq<Stmt>)
    ensures |body| == |fields|
    ensures forall i | 0 <= i < |body| :: body[i] == ResetField(fields[i])
  {
    if fields == [] then [] else ResetBody(fields[..|fields| - 1]) + [ResetField(fields[|fields| - 1])]
  }

  method BuildResetBody(item: ResetStruct) returns (body: seq<Stmt>)
    ensures body == ResetBody(item.fields)
  {
    body := [];
    for i := 0 to |item.fields|
      invariant body == ResetBody(item.fields[..i])
    {
      assert item.fields[..i + 1][..i] == item.fields[..i];
      body := body + [ResetField(item.fields[i])];
    }
    assert item.fields[..|item.fields|] == item.fields;
  }
}
