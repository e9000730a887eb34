/** Type annotations and `unpack_typehint` (sail/internal/typing_utils.py). */
module TypingUtils {
  import opened Wrappers
  import opened Errors

  /** The extra arguments of `Annotated[...]`: the two `SpecialType` members,
      or anything else a user put there. */
  datatype Extra = GreedyMark | JoinedStrMark | OtherExtra(detail: string)

  /** An annotation object: a plain class, a generic alias `G[A, ...]` whose
      `get_origin` is `G`, a `Union[...]` / `A | B`, or `Annotated[T, x, ...]`. */
  datatype TypeExpr =
    | Plain(cls: PyClass)
    | Generic(origin: PyClass, args: seq<TypeExpr>)
    | UnionOf(members: seq<TypeExpr>)
    | Annotated(base: TypeExpr, extras: seq<Extra>)

  /** `(innermost type, container type or None, annotated arguments)` */
  datatype Unpacked = Unpacked(inner: TypeExpr, container: Option<PyClass>, extras: seq<Extra>)

  /** `Greedy[C]`, i.e. `Annotated[C, SpecialType.GREEDY]`. */
  function Greedy(c: TypeExpr): TypeExpr {
    Annotated(c, [GreedyMark])
  }

  /** `JoinedStr`, i.e. `Annotated[str, SpecialType.JOINEDSTR]`. */
  const JoinedStr: TypeExpr := Annotated(Plain(StrClass), [JoinedStrMark])

  /** The annotation under all `Annotated` layers. */
  function Core(t: TypeExpr): (r: TypeExpr)
    ensures !r.Annotated?
  {
    if t.Annotated? then Core(t.base) else t
  }

  /** The arguments of `Annotated[...]` after the flattening `typing` does
      when it builds the annotation (PEP 593): `Annotated[Annotated[T, x], y]`
      is `Annotated[T, x, y]`, so the extras of every layer are kept,
      innermost first. */
  function AllExtras(t: TypeExpr): seq<Extra> {
    if t.Annotated? then AllExtras(t.base) + t.extras else []
  }

  /** `unpack_typehint(annotation)`. A generic alias without arguments (such
      as bare `typing.List`) makes `get_args(annotation)[0]` raise. Nested
      `Annotated` layers stand for the flattened annotation Python builds, so
      the extras of inner layers come first and the outer layer's follow;
      the inner call's extras, which the code discards, are then always
      empty. */
  function UnpackTypehint(t: TypeExpr): (r: Result<Unpacked, Error>)
    ensures r.Err? <==> Core(t).Generic? && Core(t).args == []
    ensures r.Err? ==> r.error == IndexError
    ensures r.Ok? && !t.Annotated? ==> r.value.extras == []
  {
    match t
    case Annotated(base, extras) =>
      (match UnpackTypehint(base)
       case Err(e) => Err(e)
       case Ok(u) => Ok(Unpacked(u.inner, u.container, u.extras + extras)))
    case UnionOf(_) => Ok(Unpacked(t, None, []))
    case Generic(origin, args) =>
      if args == [] then Err(IndexError) else Ok(Unpacked(args[0], Some(origin), []))
    case Plain(_) => Ok(Unpacked(t, None, []))
  }

  /** Inner type and container come from the annotation under the
      `Annotated` layers, and the extras are those of the flattened
      annotation. */
  lemma {:induction false} UnpackSeesThroughAnnotated(t: TypeExpr)
    ensures UnpackTypehint(t).Ok? ==>
      && UnpackTypehint(Core(t)).Ok?
      && UnpackTypehint(t).value.inner == UnpackTypehint(Core(t)).value.inner
      && UnpackTypehint(t).value.container == UnpackTypehint(Core(t)).value.container
      && UnpackTypehint(t).value.extras == AllExtras(t)
  {
    if t.Annotated? {
      UnpackSeesThroughAnnotated(t.base);
    }
  }

  /** The outermost layer's extras come last, after those of the layers
      inside it. */
  lemma OuterExtrasLast(t: TypeExpr)
    requires t.Annotated? && UnpackTypehint(t).Ok?
    ensures var e := UnpackTypehint(t).value.extras;
      |t.extras| <= |e| && e[|e| - |t.extras|..] == t.extras
  {
    var e := UnpackTypehint(t).value.extras;
    assert e == UnpackTypehint(t.base).value.extras + t.extras;
  }

  /** Nesting `Annotated` is the same as one layer with the extras joined,
      as `typing` builds it. */
  lemma NestedAnnotatedFlattens(b: TypeExpr, x: seq<Extra>, y: seq<Extra>)
    ensures UnpackTypehint(Annotated(Annotated(b, x), y)) == UnpackTypehint(Annotated(b, x + y))
  {
    match UnpackTypehint(b)
    case Err(_) =>
    case Ok(u) => assert u.extras + x + y == u.extras + (x + y);
  }

  /** The four shapes an annotation unpacks to. */
  lemma UnpackShapes(t: TypeExpr)
    ensures t.Plain? ==> UnpackTypehint(t) == Ok(Unpacked(t, None, []))
    ensures t.UnionOf? ==> UnpackTypehint(t) == Ok(Unpacked(t, None, []))
    ensures t.Generic? && t.args != [] ==> UnpackTypehint(t) == Ok(Unpacked(t.args[0], Some(t.origin), []))
    ensures t.Annotated? && UnpackTypehint(t.base).Ok? ==>
      var u := UnpackTypehint(t.base).value;
      UnpackTypehint(t) == Ok(u.(extras := u.extras + t.extras))
  {
  }

  /** `unpack_typehint(Greedy[List[int]]) == (int, list, [GREEDY])` */
  lemma GreedyListOfInt()
    ensures UnpackTypehint(Greedy(Generic(ListClass, [Plain(IntClass)])))
      == Ok(Unpacked(Plain(IntClass), Some(ListClass), [GreedyMark]))
  {
    var g := Generic(ListClass, [Plain(IntClass)]);
    AnnotatedAppends(g, [GreedyMark], Unpacked(Plain(IntClass), Some(ListClass), []));
    assert [] + [GreedyMark] == [GreedyMark];
  }

  /** `Annotated[Greedy[list[int]], x]` is `Annotated[list[int], GREEDY, x]`,
      so it unpacks to `(int, list, [GREEDY, x])` and stays greedy. */
  lemma AnnotatedGreedyListOfInt(g: TypeExpr, x: Extra)
    requires g == Greedy(Generic(ListClass, [Plain(IntClass)]))
    ensures UnpackTypehint(Annotated(g, [x])) == Ok(Unpacked(Plain(IntClass), Some(ListClass), [GreedyMark, x]))
  {
    GreedyListOfInt();
    AnnotatedAppends(g, [x], Unpacked(Plain(IntClass), Some(ListClass), [GreedyMark]));
    assert [GreedyMark] + [x] == [GreedyMark, x];
  }

  /** One more `Annotated` layer appends its extras. */
  lemma AnnotatedAppends(b: TypeExpr, x: seq<Extra>, u: Unpacked)
    requires UnpackTypehint(b) == Ok(u)
    ensures UnpackTypehint(Annotated(b, x)) == Ok(Unpacked(u.inner, u.container, u.extras + x))
  {
  }

  /** `unpack_typehint(JoinedStr) == (str, None, [JOINEDSTR])` */
  lemma JoinedStrUnpacks()
    ensures UnpackTypehint(JoinedStr) == Ok(Unpacked(Plain(StrClass), None, [JoinedStrMark]))
  {
    AnnotatedAppends(Plain(StrClass), [JoinedStrMark], Unpacked(Plain(StrClass), None, []));
    assert [] + [JoinedStrMark] == [JoinedStrMark];
  }
}
