/**
 * Lowering of numpy dtypes and ctypes types to the strings and struct
 * declarations of the generated C code.
 *
 * A ctypes type is one of: a `Structure` subclass (with its `_fields_`), a `Union`
 * subclass, a pointer (`POINTER(t)`), an array (`t * n`), or any other class, known
 * only by its `__name__` (the simple types `c_int`, `c_void_p`, ..., the custom
 * `c_restrict_void_p`, and typedef-like custom classes).
 */
module DtypesLowering {
  import opened Wrappers
  import opened Strings

  // ------------------------------------------------------------------ types

  datatype CType =
    | Structure(name: string, fields: seq<CField>)
    | Union(name: string)
    | Pointer(target: CType)
    | Array(element: CType, length: nat)
    | Named(name: string)

  /** One `(name, ctype)` entry of a structure's `_fields_`. */
  datatype CField = CField(name: string, ctype: CType)

  /** `c_restrict_void_p`, the `c_void_p` subclass marking pointers that the C code declares `restrict`. */
  const RestrictVoidP: CType := Named("c_restrict_void_p")

  // ---------------------------------------------------------- ctypes_to_cstr

  /**
   * The C spelling of a simple ctypes type, from the part of its name after `c_`:
   * `X_p` stands for a pointer to the type `X` named by the second-to-last `_`-separated
   * piece. `toarray` is the declarator written after a non-pointer type; the empty
   * string stands for None, which Python treats alike.
   */
  function Primitive(name: string, toarray: string): string {
    if EndsWith(name, "_p") then
      SplitOnConcat(name[..|name| - 2], '_', "p", {'_'});
      assert name[..|name| - 2] + "_" + "p" == name;
      var parts := SplitOn(name, {'_'});
      Suffixed(CName(parts[|parts| - 2]), "*")
    else
      Suffixed(CName(name), toarray)
  }

  /** A leading `u` becomes the `unsigned` prefix, and `byte` is spelled `char`. */
  function CName(name: string): string {
    var unsigned := StartsWith(name, "u");
    var base := if unsigned then name[1..] else name;
    var spelled := if base == "byte" then "char" else base;
    if unsigned then "unsigned " + spelled else spelled
  }

  function Suffixed(s: string, suffix: string): string {
    if suffix == "" then s else s + " " + suffix
  }

  /**
   * `ctypes_to_cstr(ctype, toarray, qualifiers)`: the C type string of `t`. The
   * qualifiers are written before the type at the outermost call only; the recursive
   * calls for pointer targets and array elements pass none.
   */
  function CtypesToCstr(t: CType, toarray: string, qualifiers: seq<string>): string {
    var retval :=
      match t
      case Structure(n, _) => "struct " + n
      case Union(n) => "union " + n
      case Pointer(target) =>
        if toarray != "" then CtypesToCstr(target, "(* " + toarray + ")", [])
        else if target.Pointer? then CtypesToCstr(target, "", []) + "*"
        else CtypesToCstr(target, "", []) + " *"
      case Array(e, n) => CtypesToCstr(e, toarray, []) + "[" + NatToString(n) + "]"
      case Named(n) => if StartsWith(n, "c_") then Primitive(n[2..], toarray) else n;
    if |qualifiers| > 0 then Join(qualifiers, " ") + " " + retval else retval
  }

  /** `k` nested pointers to `t`. */
  function Pointers(k: nat, t: CType): CType {
    if k == 0 then t else Pointer(Pointers(k - 1, t))
  }

  function Stars(k: nat): string {
    if k == 0 then "" else Stars(k - 1) + "*"
  }

  /** Arrays of arrays: `ns[0]` is the length of the innermost array, the last of `ns` the outermost. */
  function Arrays(t: CType, ns: seq<nat>): CType {
    if |ns| == 0 then t else Array(Arrays(t, ns[..|ns| - 1]), ns[|ns| - 1])
  }

  /** The array brackets `[n]`, one per length, in the order of `ns`. */
  function Brackets(ns: seq<nat>): string {
    if |ns| == 0 then "" else Brackets(ns[..|ns| - 1]) + "[" + NatToString(ns[|ns| - 1]) + "]"
  }

  /**
   * A chain of `k >= 1` pointers to a non-pointer type is the type, a space and `k`
   * stars: the look-ahead writes `*` without a space after another pointer.
   */
  lemma {:induction false} PointerChain(k: nat, t: CType)
    requires k >= 1 && !t.Pointer?
    ensures CtypesToCstr(Pointers(k, t), "", []) == CtypesToCstr(t, "", []) + " " + Stars(k)
  {
    if k > 1 {
      PointerChain(k - 1, t);
      assert Pointers(k - 1, t).Pointer?;
    }
  }

  /** The declarator passed for an array reaches its innermost element type; the brackets follow it. */
  lemma {:induction false} ArrayPassthrough(t: CType, ns: seq<nat>, toarray: string)
    ensures CtypesToCstr(Arrays(t, ns), toarray, []) == CtypesToCstr(t, toarray, []) + Brackets(ns)
  {
    if |ns| > 0 {
      ArrayPassthrough(t, ns[..|ns| - 1], toarray);
    }
  }

  /** A simple type that is not a `_p` pointer: the name after `c_` does not end in `_p`. */
  predicate Scalar(t: CType) {
    t.Named? && StartsWith(t.name, "c_") && !EndsWith(t.name[2..], "_p")
  }

  /** A declarator given to a scalar type is written after its C name, separated by a space. */
  lemma ScalarDeclarator(t: CType, toarray: string)
    requires Scalar(t) && toarray != ""
    ensures CtypesToCstr(t, toarray, []) == CtypesToCstr(t, "", []) + " " + toarray
  {
  }

  /**
   * A pointer to an array given a declarator `d` renders C's pointer-to-array form:
   * the element type, then `(* d)`, then the brackets.
   */
  lemma PointerToArray(t: CType, ns: seq<nat>, d: string)
    requires Scalar(t) && d != "" && |ns| > 0
    ensures CtypesToCstr(Pointer(Arrays(t, ns)), d, []) ==
      CtypesToCstr(t, "", []) + " (* " + d + ")" + Brackets(ns)
  {
    ArrayPassthrough(t, ns, "(* " + d + ")");
    ScalarDeclarator(t, "(* " + d + ")");
  }

  /** Structures, unions and custom types ignore the declarator. */
  lemma DeclaratorIgnored(t: CType, toarray: string, qualifiers: seq<string>)
    requires t.Structure? || t.Union? || (t.Named? && !StartsWith(t.name, "c_"))
    ensures CtypesToCstr(t, toarray, qualifiers) == CtypesToCstr(t, "", qualifiers)
    ensures !t.Named? ==> CtypesToCstr(t, toarray, []) == (if t.Structure? then "struct " else "union ") + t.name
    ensures t.Named? ==> CtypesToCstr(t, toarray, []) == t.name
  {
  }

  /** The simple pointer `c_X_p` is the C name of `X` followed by ` *`, whatever declarator is given. */
  lemma PrimitivePointer(x: string, toarray: string)
    requires Free(x, {'_'})
    ensures CtypesToCstr(Named("c_" + x + "_p"), toarray, []) == CName(x) + " *"
  {
    var n := "c_" + x + "_p";
    assert StartsWith(n, "c_") && n[2..] == x + "_p";
    assert EndsWith(x + "_p", "_p");
    assert (x + "_p")[..|x + "_p"| - 2] == x;
    SplitOnConcat(x, '_', "p", {'_'});
    SplitOnFree(x, {'_'});
    SplitOnFree("p", {'_'});
    assert x + "_" + "p" == x + "_p";
  }

  /** For `c_Q_X_p` only the piece `X` before `_p` names the pointed-to type (so the qualifier-like `Q` is dropped). */
  lemma QualifiedPrimitivePointer(q: string, x: string, toarray: string)
    requires Free(x, {'_'})
    ensures CtypesToCstr(Named("c_" + q + "_" + x + "_p"), toarray, []) == CName(x) + " *"
  {
    var n := "c_" + q + "_" + x + "_p";
    var m := q + "_" + x + "_p";
    assert StartsWith(n, "c_") && n[2..] == m;
    assert EndsWith(m, "_p");
    assert m[..|m| - 2] == q + "_" + x;
    SplitOnConcat(q + "_" + x, '_', "p", {'_'});
    SplitOnConcat(q, '_', x, {'_'});
    SplitOnFree(x, {'_'});
    SplitOnFree("p", {'_'});
    assert q + "_" + x + "_" + "p" == m;
  }

  /** The spellings of plain and unsigned simple types: `int`, `unsigned int`, `unsigned char`. */
  lemma ScalarExamples()
    ensures CtypesToCstr(Named("c_int"), "", []) == "int"
    ensures CtypesToCstr(Named("c_uint"), "", []) == "unsigned int"
    ensures CtypesToCstr(Named("c_ubyte"), "", []) == "unsigned char"
  {
    IntExample();
    UnsignedExamples();
  }

  lemma IntExample()
    ensures CtypesToCstr(Named("c_int"), "", []) == "int"
  {
    assert "int"[0] == 'i';
    assert "c_" + "int" == "c_int";
    ScalarName("int", "int");
  }

  lemma UnsignedExamples()
    ensures CtypesToCstr(Named("c_uint"), "", []) == "unsigned int"
    ensures CtypesToCstr(Named("c_ubyte"), "", []) == "unsigned char"
  {
    assert "uint"[..1] == "u" && "uint"[1..] == "int";
    assert "c_" + "uint" == "c_uint";
    ScalarName("uint", "unsigned int");
    assert "ubyte"[..1] == "u" && "ubyte"[1..] == "byte";
    assert "c_" + "ubyte" == "c_ubyte";
    ScalarName("ubyte", "unsigned char");
  }

  lemma ScalarName(x: string, c: string)
    requires !EndsWith(x, "_p") && CName(x) == c
    ensures CtypesToCstr(Named("c_" + x), "", []) == c
  {
    assert StartsWith("c_" + x, "c_") && ("c_" + x)[2..] == x;
  }

  /** Both the plain and the restrict void pointer are spelled `void *`. */
  lemma VoidPointerExamples()
    ensures CtypesToCstr(Named("c_void_p"), "", []) == "void *"
    ensures CtypesToCstr(RestrictVoidP, "", []) == "void *"
  {
    VoidPointerExample();
    RestrictPointerExample();
  }

  lemma VoidPointerExample()
    ensures CtypesToCstr(Named("c_void_p"), "", []) == "void *"
  {
    assert "void"[0] == 'v';
    PrimitivePointer("void", "");
    assert "c_" + "void" + "_p" == "c_void_p";
  }

  lemma RestrictPointerExample()
    ensures CtypesToCstr(RestrictVoidP, "", []) == "void *"
  {
    assert "void"[0] == 'v';
    QualifiedPrimitivePointer("restrict", "void", "");
    RestrictSpelling();
  }

  lemma RestrictSpelling()
    ensures "c_" + "restrict" + "_" + "void" + "_p" == "c_restrict_void_p"
  {
  }

  /** A pointer to a pointer to `int` is `int **`. */
  lemma PointerPointerExample()
    ensures CtypesToCstr(Pointers(2, Named("c_int")), "", []) == "int **"
  {
    IntExample();
    PointerChain(2, Named("c_int"));
    assert Stars(2) == "**";
    assert "int" + " " + "**" == "int **";
  }

  /** With qualifiers, the type string is the qualifiers joined by spaces, a space, and the unqualified type string. */
  lemma QualifiersOutermost(t: CType, toarray: string, qualifiers: seq<string>)
    requires |qualifiers| > 0
    ensures CtypesToCstr(t, toarray, qualifiers) == Join(qualifiers, " ") + " " + CtypesToCstr(t, toarray, [])
  {
  }

  /** Qualifiers that are single words come first among the words of the type string, in order. */
  lemma QualifiedWords(t: CType, toarray: string, qualifiers: seq<string>)
    requires forall i :: 0 <= i < |qualifiers| ==> |qualifiers[i]| > 0 && Free(qualifiers[i], Whitespace)
    ensures Words(CtypesToCstr(t, toarray, qualifiers)) == qualifiers + Words(CtypesToCstr(t, toarray, []))
  {
    if |qualifiers| > 0 {
      WordsConcat(Join(qualifiers, " "), CtypesToCstr(t, toarray, []));
      WordsJoin(qualifiers);
    }
  }

  // ---------------------------------------------------------- ctypes_to_cgen

  /** `cgen.Value(typename, name)`: one member declaration. */
  datatype Value = Value(typename: string, name: string)

  /** `cgen.Struct(tpname, fields)`: a struct declaration. */
  datatype Struct = Struct(tpname: string, fields: seq<Value>)

  /** The type a chain of pointers ends in. */
  function Unwrap(t: CType): (u: CType)
    ensures !u.Pointer?
  {
    if t.Pointer? then Unwrap(t.target) else t
  }

  /** `' '.join(j for j in cstr.split() if j not in ('const',))`. */
  function StripConst(cstr: string): string {
    Join(Without(Words(cstr), "const"), " ")
  }

  /**
   * The typename of the member for field type `ct`: the symbol's `_C_typename` with
   * `const` removed when the symbol has one (`typename` is None for a missing symbol or
   * a symbol without the attribute), else the type string of `ct`; `restrict` is
   * appended, without a space, for `c_restrict_void_p`.
   */
  function MemberTypename(typename: Option<string>, ct: CType): string {
    var cstr := if typename.Some? then StripConst(typename.value) else CtypesToCstr(ct, "", []);
    if ct == RestrictVoidP then cstr + "restrict" else cstr
  }

  /** `Value(cstr, n)` for the field `(n, ct)`. */
  function Member(typename: Option<string>, f: CField): Value {
    Value(MemberTypename(typename, f.ctype), f.name)
  }

  /** The symbols given for the fields: `fields`, or None for every field when it is absent. */
  function FieldSymbols(s: CType, fields: Option<seq<Option<string>>>): (fs: seq<Option<string>>)
    requires s.Structure?
    ensures fields.None? ==> |fs| == |s.fields| && forall i :: 0 <= i < |fs| ==> fs[i].None?
    ensures fields.Some? ==> fs == fields.value
  {
    if fields.Some? then fields.value else seq(|s.fields|, _ => None)
  }

  /**
   * `ctypes_to_cgen(ctype, fields)`: through any pointers to a structure, its declaration
   * with one member per field; None for anything else. `fields` gives, per field, the
   * `_C_typename` of its symbol, and must have one entry per field (an `assert`).
   */
  function Cgen(t: CType, fields: Option<seq<Option<string>>>): Result<Option<Struct>, PyError> {
    if t.Pointer? then Cgen(t.target, fields)
    else if !t.Structure? then Success(None)
    else if fields.Some? && |fields.value| != |t.fields| then Failure(AssertionError)
    else
      var fs := FieldSymbols(t, fields);
      Success(Some(Struct(t.name, MapPairs(Member, fs, t.fields))))
  }

  /** `[f(x, y) for x, y in zip(xs, ys)]` for sequences of one length. */
  function MapPairs<A, B, C>(f: (A, B) -> C, xs: seq<A>, ys: seq<B>): seq<C>
    requires |xs| == |ys|
  {
    if |xs| == 0 then []
    else MapPairs(f, xs[..|xs| - 1], ys[..|ys| - 1]) + [f(xs[|xs| - 1], ys[|ys| - 1])]
  }

  /** One result per pair: the k-th is `f` of the k-th elements. */
  lemma {:induction false} MapPairsAt<A, B, C>(f: (A, B) -> C, xs: seq<A>, ys: seq<B>)
    requires |xs| == |ys|
    ensures |MapPairs(f, xs, ys)| == |xs|
    ensures forall k :: 0 <= k < |xs| ==> MapPairs(f, xs, ys)[k] == f(xs[k], ys[k])
  {
    if |xs| > 0 {
      MapPairsAt(f, xs[..|xs| - 1], ys[..|ys| - 1]);
    }
  }

  /** The imperative rendering: unwrap the pointers, check the field count, then append one member per field. */
  method CtypesToCgen(t: CType, fields: Option<seq<Option<string>>>) returns (r: Result<Option<Struct>, PyError>)
    ensures r == Cgen(t, fields)
  {
    var s := Unwrap(t);
    CgenUnwrap(t, fields);
    if !s.Structure? {
      return Success(None);
    }
    var fs: seq<Option<string>>;
    if fields.None? {
      fs := seq(|s.fields|, _ => None);
    } else {
      if |fields.value| != |s.fields| {
        return Failure(AssertionError);
      }
      fs := fields.value;
    }
    assert fs == FieldSymbols(s, fields);
    var entries := BuildMembers(fs, s.fields);
    return Success(Some(Struct(s.name, entries)));
  }

  /** The `for` loop of `ctypes_to_cgen`: one member appended per field and its symbol. */
  method BuildMembers(syms: seq<Option<string>>, fs: seq<CField>) returns (entries: seq<Value>)
    requires |syms| == |fs|
    ensures entries == MapPairs(Member, syms, fs)
  {
    entries := [];
    var i := 0;
    while i < |fs|
      invariant 0 <= i <= |fs|
      invariant entries == MapPairs(Member, syms[..i], fs[..i])
    {
      assert syms[..i + 1][..i] == syms[..i] && fs[..i + 1][..i] == fs[..i];
      entries := entries + [Member(syms[i], fs[i])];
      i := i + 1;
    }
    assert syms[..i] == syms && fs[..i] == fs;
  }

  /** Pointers are looked through: the declaration is that of the type the pointers end in. */
  lemma {:induction false} CgenUnwrap(t: CType, fields: Option<seq<Option<string>>>)
    ensures Cgen(t, fields) == Cgen(Unwrap(t), fields)
  {
    if t.Pointer? {
      CgenUnwrap(t.target, fields);
    }
  }

  /** None exactly when the pointers do not end in a structure; failure exactly on a field count mismatch. */
  lemma CgenOutcome(t: CType, fields: Option<seq<Option<string>>>)
    ensures Cgen(t, fields) == Success(None) <==> !Unwrap(t).Structure?
    ensures Cgen(t, fields).Failure? <==>
      Unwrap(t).Structure? && fields.Some? && |fields.value| != |Unwrap(t).fields|
    ensures Cgen(t, fields).Failure? ==> Cgen(t, fields).error == AssertionError
  {
    CgenUnwrap(t, fields);
  }

  /**
   * A declaration is named after the structure and has one member per field, in
   * field order and named as the field.
   */
  lemma CgenMembers(t: CType, fields: Option<seq<Option<string>>>)
    requires Cgen(t, fields).Success? && Cgen(t, fields).value.Some?
    ensures Unwrap(t).Structure?
    ensures var s, d := Unwrap(t), Cgen(t, fields).value.value;
      d.tpname == s.name && |d.fields| == |s.fields| &&
      forall i :: 0 <= i < |s.fields| ==> d.fields[i].name == s.fields[i].name
  {
    CgenUnwrap(t, fields);
    MapPairsAt(Member, FieldSymbols(Unwrap(t), fields), Unwrap(t).fields);
  }

  /**
   * A member's typename: from a symbol that has one, its words without `const`;
   * otherwise the field type's string; then `restrict` appended exactly for
   * `c_restrict_void_p`.
   */
  lemma CgenTypename(t: CType, fields: Option<seq<Option<string>>>, i: nat)
    requires Cgen(t, fields).Success? && Cgen(t, fields).value.Some?
    ensures Unwrap(t).Structure?
    ensures |FieldSymbols(Unwrap(t), fields)| == |Unwrap(t).fields| == |Cgen(t, fields).value.value.fields|
    ensures var s, d := Unwrap(t), Cgen(t, fields).value.value;
      i < |s.fields| ==>
        var ct, sym := s.fields[i].ctype, FieldSymbols(s, fields)[i];
        var base := if sym.Some? then StripConst(sym.value) else CtypesToCstr(ct, "", []);
        (sym.Some? ==> Words(base) == Without(Words(sym.value), "const")) &&
        d.fields[i].typename == (if ct == RestrictVoidP then base + "restrict" else base)
  {
    CgenUnwrap(t, fields);
    var s := Unwrap(t);
    MapPairsAt(Member, FieldSymbols(s, fields), s.fields);
    if i < |s.fields| {
      var sym := FieldSymbols(s, fields)[i];
      if sym.Some? {
        StripConstWords(sym.value);
      }
    }
  }

  /** Removing `const` keeps every other word of the typename, in order, and leaves no `const`. */
  lemma StripConstWords(cstr: string)
    ensures Words(StripConst(cstr)) == Without(Words(cstr), "const")
    ensures "const" !in Words(StripConst(cstr))
  {
    var ws := Without(Words(cstr), "const");
    forall i | 0 <= i < |ws|
      ensures |ws[i]| > 0 && Free(ws[i], Whitespace)
    {
      assert ws[i] in Words(cstr);
    }
    WordsJoin(ws);
  }

  /**
   * A `const`-qualified symbol of field type `ct` gives the member the words of `ct`'s
   * own type string, with `const` removed.
   */
  lemma ConstSymbolMember(ct: CType)
    ensures Words(StripConst(CtypesToCstr(ct, "", ["const"]))) == Without(Words(CtypesToCstr(ct, "", [])), "const")
  {
    QualifiedWords(ct, "", ["const"]);
    StripConstWords(CtypesToCstr(ct, "", ["const"]));
    assert (["const"] + Words(CtypesToCstr(ct, "", [])))[1..] == Words(CtypesToCstr(ct, "", []));
  }

  /** A `c_restrict_void_p` field without a symbol is declared `void *restrict`. */
  lemma RestrictMember()
    ensures MemberTypename(None, RestrictVoidP) == "void *restrict"
  {
    RestrictPointerExample();
    SpelledRestrict();
  }

  lemma SpelledRestrict()
    ensures "void *" + "restrict" == "void *restrict"
  {
  }

  // -------------------------------------------------------- dtype_to_mpitype

  /** The numpy scalar types. */
  datatype Dtype =
    | Bool | Int8 | UByte | Int16 | UShort | Int32 | UInt32 | Int64 | UInt64
    | LongLong | ULongLong | Float16 | Float32 | Float64 | LongDouble | Complex64 | Complex128

  /** `dtype_to_mpitype`: the MPI datatype of a numpy type; a KeyError for a type outside the table. */
  function DtypeToMpitype(d: Dtype): Result<string, PyError> {
    match d
    case UByte => Success("MPI_BYTE")
    case UShort => Success("MPI_UNSIGNED_SHORT")
    case Int32 => Success("MPI_INT")
    case Float32 => Success("MPI_FLOAT")
    case Int64 => Success("MPI_LONG")
    case Float64 => Success("MPI_DOUBLE")
    case _ => Failure(KeyError)
  }

  /** The table read backwards: the numpy type an MPI datatype name stands for. */
  function MpitypeDtype(name: string): Option<Dtype> {
    if name == "MPI_BYTE" then Some(UByte)
    else if name == "MPI_UNSIGNED_SHORT" then Some(UShort)
    else if name == "MPI_INT" then Some(Int32)
    else if name == "MPI_FLOAT" then Some(Float32)
    else if name == "MPI_LONG" then Some(Int64)
    else if name == "MPI_DOUBLE" then Some(Float64)
    else None
  }

  /** Exactly six numpy types have an MPI datatype; every other one is a KeyError. */
  lemma MpitypeDomain(d: Dtype)
    ensures DtypeToMpitype(d).Success? <==> d in {UByte, UShort, Int32, Float32, Int64, Float64}
    ensures DtypeToMpitype(d).Failure? ==> DtypeToMpitype(d).error == KeyError
  {
  }

  /** Each MPI datatype name stands for exactly one numpy type, so the table is invertible. */
  lemma MpitypeRoundTrip(d: Dtype, name: string)
    ensures DtypeToMpitype(d) == Success(name) <==> MpitypeDtype(name) == Some(d)
  {
  }
}
