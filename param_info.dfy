/** `ParamInfo` (sail/impl/param_info.py): one callback parameter's parsing
    schema, derived from its annotation and then overridden in place. Its
    container is held as a container-parser tag (see ArgumentParsers), and
    `has_container` is "the tag is not `UnpackParser`". */
module ParamInfos {
  import opened Wrappers
  import opened Errors
  import opened TypingUtils
  import opened ArgumentParsers

  /** `inspect.Parameter.kind` */
  datatype Kind = PositionalOnly | PositionalOrKeyword | VarPositional | KeywordOnly | VarKeyword

  /** The parts of an `inspect.Parameter` the core reads; `default` is `None`
      for `inspect.Parameter.empty`. */
  datatype Parameter = Parameter(name: string, kind: Kind, annotation: TypeExpr, default: Option<Value>)

  /** The fields of a `ParamInfo`. */
  datatype ParamState = ParamState(
    name: string,
    parser: ScalarParser,
    default: Option<Value>,
    container: ContainerParser,
    short: Option<string>,
    greedy: bool,
    flag: bool)

  /** `is_flag`: `flag` is set or a short name is given. */
  predicate IsFlag(s: ParamState) {
    s.flag || s.short.Some?
  }

  predicate HasContainer(s: ParamState) {
    !s.container.UnpackParser?
  }

  /** The error `__attrs_post_init__` raises, if any, checked in order. */
  function PostInitError(s: ParamState): (r: Option<Error>)
    ensures r.None? <==> Valid(s)
  {
    if s.greedy && !HasContainer(s) then Some(TypeError(GreedyWithoutContainer))
    else if IsFlag(s) && s.greedy then Some(TypeError(FlagGreedy))
    else None
  }

  /** The construction invariant: greedy parameters have a container, and
      flags are never greedy. */
  predicate Valid(s: ParamState) {
    (s.greedy ==> HasContainer(s)) && !(IsFlag(s) && s.greedy)
  }

  /** The container parser for a container class. */
  function ContainerFor(container: Option<PyClass>): (r: ContainerParser)
    ensures container.None? <==> r.UnpackParser?
    ensures container.Some? ==> ContainerType(r) == container.value || IsAbstract(container.value)
  {
    match container
    case None => UnpackParser
    case Some(c) => if c == SetClass then NewSetParser(c) else NewSequenceParser(c)
  }

  /** The parser choice in `from_parameter`, tested in order: `Any` or a
      `str` subclass, then `bool`, then `int`, then `float`. `inner is empty`
      compares with a module and never holds, so an unannotated parameter is
      unsupported. A non-class inner type makes `issubclass` raise. */
  function SelectParser(inner: TypeExpr, name: string): (r: Result<ScalarParser, Error>)
    ensures r.Err? ==> r.error.TypeError?
    ensures r.Ok? ==> inner.Plain? && (inner.cls == AnyType || IsSubclass(inner.cls, ScalarType(r.value)))
  {
    match inner
    case Plain(c) =>
      if c == AnyType || IsSubclass(c, StrClass) then Ok(StringParser)
      else if IsSubclass(c, BoolClass) then Ok(BoolParser)
      else if IsSubclass(c, IntClass) then Ok(NumberParser(true, false))
      else if IsSubclass(c, FloatClass) then Ok(NumberParser(true, true))
      else Err(TypeError(UnsupportedAnnotation(name)))
    case _ => Err(TypeError(NotAClass))
  }

  /** `ParamInfo.from_parameter(parameter)` up to construction. */
  function DeriveParam(p: Parameter): (r: Result<ParamState, Error>)
    ensures r.Ok? ==> r.value.name == p.name && r.value.default == p.default && r.value.short.None?
  {
    match UnpackTypehint(p.annotation)
    case Err(e) => Err(e)
    case Ok(u) =>
      var container := match u.container
        case None => None
        case Some(c) => Some(if IsAbstract(c) then ListClass else c);
      var greedy := GreedyMark in u.extras;
      var flag := p.kind == KeywordOnly && u.inner == Plain(BoolClass) && container.None?;
      if greedy && p.kind == KeywordOnly then Err(TypeError(KeywordOnlyGreedy))
      else if container.Some? && !IsCollectionClass(container.value) then Err(TypeError(ContainerNotCollection))
      else if greedy && container.None? then Err(TypeError(GreedyWithoutContainer))
      else
        match SelectParser(u.inner, p.name)
        case Err(e) => Err(e)
        case Ok(parser) => Ok(ParamState(p.name, parser, p.default, ContainerFor(container), None, greedy, flag))
  }

  /** A derived schema always passes the construction checks. */
  lemma DerivedIsValid(p: Parameter)
    ensures DeriveParam(p).Ok? ==> Valid(DeriveParam(p).value)
  {
  }

  /** `from_parameter`: greedy exactly when `GREEDY` is among the
      `Annotated` extras; a flag exactly when keyword-only, annotated `bool`
      and without a container; abstract containers become `list`. */
  lemma DeriveRules(p: Parameter)
    requires DeriveParam(p).Ok?
    ensures UnpackTypehint(p.annotation).Ok?
    ensures var u := UnpackTypehint(p.annotation).value;
      && (DeriveParam(p).value.greedy <==> GreedyMark in u.extras)
      && (DeriveParam(p).value.flag <==> p.kind == KeywordOnly && u.inner == Plain(BoolClass) && u.container.None?)
      && (u.container.Some? && IsAbstract(u.container.value) ==> DeriveParam(p).value.container == SequenceParser(ListClass))
      && (u.container.None? <==> !HasContainer(DeriveParam(p).value))
  {
  }

  /** A positional parameter annotated `Annotated[Greedy[list[int]], x]`
      is greedy, because `typing` flattens the two layers and `GREEDY`
      stays among the extras. */
  lemma AnnotatedGreedyParamIsGreedy(p: Parameter, g: TypeExpr, x: Extra)
    requires g == Greedy(Generic(ListClass, [Plain(IntClass)]))
    requires p.annotation == Annotated(g, [x]) && p.kind != KeywordOnly
    ensures DeriveParam(p).Ok? && DeriveParam(p).value.greedy
    ensures DeriveParam(p).value.container == SequenceParser(ListClass)
  {
    AnnotatedGreedyListOfInt(g, x);
    SelectsNumbers(p.name);
  }

  /** The errors of `from_parameter`, in the order the code checks them. */
  lemma DeriveErrors(p: Parameter)
    requires UnpackTypehint(p.annotation).Ok?
    ensures var u := UnpackTypehint(p.annotation).value;
      && (GreedyMark in u.extras && p.kind == KeywordOnly ==> DeriveParam(p) == Err(TypeError(KeywordOnlyGreedy)))
      && ((GreedyMark !in u.extras && u.container.Some? && !IsAbstract(u.container.value) && !IsCollectionClass(u.container.value))
            ==> DeriveParam(p) == Err(TypeError(ContainerNotCollection)))
      && ((GreedyMark in u.extras && u.container.None? && p.kind != KeywordOnly)
            ==> DeriveParam(p) == Err(TypeError(GreedyWithoutContainer)))
  {
  }

  /** `bool` is checked before `int`, so a `bool` annotation gets the boolean
      parser although `bool` subclasses `int`; an unannotated parameter is
      rejected. */
  lemma ParserSelection(name: string)
    ensures SelectParser(Plain(StrClass), name) == Ok(StringParser)
    ensures SelectParser(Plain(AnyType), name) == Ok(StringParser)
    ensures SelectParser(Plain(BoolClass), name) == Ok(BoolParser)
    ensures IsSubclass(BoolClass, IntClass)
    ensures SelectParser(Plain(IntClass), name) == Ok(NumberParser(true, false))
    ensures SelectParser(Plain(FloatClass), name) == Ok(NumberParser(true, true))
    ensures SelectParser(Plain(EmptyMarker), name) == Err(TypeError(UnsupportedAnnotation(name)))
  {
    SelectsBool(name);
    SelectsNumbers(name);
    SelectsNothingForEmpty(name);
  }

  lemma SelectsBool(name: string)
    ensures SelectParser(Plain(BoolClass), name) == Ok(BoolParser)
  {
  }

  lemma SelectsNumbers(name: string)
    ensures SelectParser(Plain(IntClass), name) == Ok(NumberParser(true, false))
    ensures SelectParser(Plain(FloatClass), name) == Ok(NumberParser(true, true))
  {
  }

  lemma SelectsNothingForEmpty(name: string)
    ensures SelectParser(Plain(EmptyMarker), name) == Err(TypeError(UnsupportedAnnotation(name)))
  {
  }


  // ---------------------------------------------------------------------
  // override_typesafe

  /** The keyword arguments of `override_typesafe`; `None` is `UNDEFINED`. */
  datatype Overrides = Overrides(
    parser: Option<ScalarParser>,
    default: Option<Value>,
    container: Option<ContainerParser>,
    short: Option<string>,
    greedy: Option<bool>,
    flag: Option<bool>)

  const NoOverrides := Overrides(None, None, None, None, None, None)

  /** The state after `override_typesafe(...)` and the exception it raised,
      if any. Each step assigns before the next is checked, so a failure
      leaves the earlier assignments in place. */
  function Override(s: ParamState, ov: Overrides): (r: (ParamState, Option<Error>))
    ensures r.0.name == s.name && r.0.default == s.default && r.0.flag == s.flag
  {
    if ov.parser.Some? && !IsSubclass(ScalarType(ov.parser.value), ScalarType(s.parser)) then
      (s, Some(TypeError(ParserTypeMismatch(ScalarType(ov.parser.value), ScalarType(s.parser)))))
    else
      var s1 := if ov.parser.Some? then s.(parser := ov.parser.value) else s;
      if ov.default.Some? && Truthy(ov.default.value) then (s1, Some(ValueError(DefaultAlreadyProvided)))
      else if ov.container.Some? && HasContainer(s1)
              && !IsSubclass(ContainerType(ov.container.value), ContainerType(s1.container)) then
        (s1, Some(TypeError(ContainerTypeMismatch)))
      else
        var s2 := if ov.container.Some? then s1.(container := ov.container.value) else s1;
        var s3 := if ov.short.Some? && ov.short.value != "" then s2.(short := ov.short) else s2;
        OverrideFlags(s3, ov)
  }

  /** The `greedy` and `flag` checks of `override_typesafe`, once the
      parser, container and short name are in place. */
  function OverrideFlags(s3: ParamState, ov: Overrides): (r: (ParamState, Option<Error>))
    ensures r.0.name == s3.name && r.0.default == s3.default && r.0.flag == s3.flag
  {
    if ov.greedy.Some? && IsFlag(s3) then (s3, Some(TypeError(FlagGreedy)))
    else if ov.greedy.Some? && s3.greedy && !ov.greedy.value then (s3, Some(TypeError(GreedyToNonGreedy)))
    else
      var s4 := if ov.greedy.Some? then s3.(greedy := ov.greedy.value) else s3;
      if ov.flag.Some? && IsFlag(s4) && !ov.flag.value then (s4, Some(TypeError(FlagToNonFlag)))
      else (s4, None)
  }

  /** A parser override must produce a subtype of the current parser's type;
      otherwise it raises and nothing changes. */
  lemma ParserOverrideRule(s: ParamState, p: ScalarParser)
    ensures var r := Override(s, NoOverrides.(parser := Some(p)));
      if IsSubclass(ScalarType(p), ScalarType(s.parser)) then r == (s.(parser := p), None)
      else r == (s, Some(TypeError(ParserTypeMismatch(ScalarType(p), ScalarType(s.parser)))))
  {
  }

  /** A truthy default always raises (the identity check against the module
      `empty` always succeeds), a falsy one is skipped, and so no override
      ever changes the default. */
  lemma DefaultOverrideRule(s: ParamState, ov: Overrides)
    ensures ov.default.Some? && Truthy(ov.default.value) && (ov.parser.None? || IsSubclass(ScalarType(ov.parser.value), ScalarType(s.parser)))
      ==> Override(s, ov).1 == Some(ValueError(DefaultAlreadyProvided))
    ensures Override(s, ov).0.default == s.default
  {
  }

  /** A container override must subclass any existing container type, and
      then replaces it. */
  lemma ContainerOverrideRule(s: ParamState, c: ContainerParser)
    ensures var r := Override(s, NoOverrides.(container := Some(c)));
      if HasContainer(s) && !IsSubclass(ContainerType(c), ContainerType(s.container)) then r == (s, Some(TypeError(ContainerTypeMismatch)))
      else r == (s.(container := c), None)
  {
  }

  /** A truthy short name is assigned and makes the parameter a flag; the
      `flag` field itself is never assigned, and turning a flag into a
      non-flag raises. */
  lemma ShortAndFlagRules(s: ParamState, short: string, flag: bool)
    ensures short != "" ==> Override(s, NoOverrides.(short := Some(short))) == (s.(short := Some(short)), None)
    ensures short != "" ==> IsFlag(Override(s, NoOverrides.(short := Some(short))).0)
    ensures Override(s, NoOverrides.(short := Some(""))) == (s, None)
    ensures Override(s, NoOverrides.(flag := Some(flag)))
      == (s, if IsFlag(s) && !flag then Some(TypeError(FlagToNonFlag)) else None)
  {
  }

  /** A greedy override is rejected for flags (judged after the short name
      is assigned) and for greedy to non-greedy; otherwise it is assigned. */
  lemma GreedyOverrideRule(s: ParamState, greedy: bool)
    ensures var r := Override(s, NoOverrides.(greedy := Some(greedy)));
      r == if IsFlag(s) then (s, Some(TypeError(FlagGreedy)))
           else if s.greedy && !greedy then (s, Some(TypeError(GreedyToNonGreedy)))
           else (s.(greedy := greedy), None)
  {
  }

  /** Overrides keep the construction invariant (for a collection
      container) as long as they neither ask for greediness nor give a greedy
      parameter a short name. */
  lemma OverridePreservesValid(s: ParamState, ov: Overrides)
    requires Valid(s) && (HasContainer(s) ==> IsCollectionClass(ContainerType(s.container)))
    requires ov.greedy.None? || ov.greedy == Some(false)
    requires ov.short.None? || ov.short == Some("") || !s.greedy
    ensures Valid(Override(s, ov).0)
  {
  }

  /** Two overrides the checks let through produce states construction
      would reject: a short name on a greedy parameter, and greediness on a
      parameter without a container. */
  lemma OverrideCanBreakValid()
    ensures var s := ParamState("xs", StringParser, None, SequenceParser(ListClass), None, true, false);
      Valid(s) && Override(s, NoOverrides.(short := Some("x"))).1.None? && !Valid(Override(s, NoOverrides.(short := Some("x"))).0)
    ensures var s := ParamState("n", StringParser, None, UnpackParser, None, false, false);
      Valid(s) && Override(s, NoOverrides.(greedy := Some(true))).1.None? && !Valid(Override(s, NoOverrides.(greedy := Some(true))).0)
  {
  }

  /** A `ParamInfo` object; the binder's lists hold these and
      `update_param_typesafe` overrides one in place. */
  class ParamInfo {
    var name: string
    var parser: ScalarParser
    var default: Option<Value>
    var container: ContainerParser
    var short: Option<string>
    var greedy: bool
    var flag: bool

    function State(): ParamState
      reads this
    {
      ParamState(name, parser, default, container, short, greedy, flag)
    }

    constructor Init(s: ParamState)
      ensures State() == s
    {
      name, parser, default, container := s.name, s.parser, s.default, s.container;
      short, greedy, flag := s.short, s.greedy, s.flag;
    }

    /** `ParamInfo(...)`: the attrs initialiser followed by
        `__attrs_post_init__`, which raises on an invalid schema. */
    static method Create(s: ParamState) returns (r: Result<ParamInfo, Error>)
      ensures r.Ok? <==> Valid(s)
      ensures r.Err? ==> Some(r.error) == PostInitError(s)
      ensures r.Ok? ==> fresh(r.value) && r.value.State() == s
    {
      if s.greedy && !HasContainer(s) {
        return Err(TypeError(GreedyWithoutContainer));
      }
      if IsFlag(s) && s.greedy {
        return Err(TypeError(FlagGreedy));
      }
      var p := new ParamInfo.Init(s);
      return Ok(p);
    }

    /** `ParamInfo.from_parameter(parameter)` */
    static method FromParameter(p: Parameter) returns (r: Result<ParamInfo, Error>)
      ensures r.Ok? <==> DeriveParam(p).Ok?
      ensures r.Err? ==> r == Err(DeriveParam(p).error)
      ensures r.Ok? ==> fresh(r.value) && r.value.State() == DeriveParam(p).value && Valid(r.value.State())
    {
      var d := DeriveParam(p);
      if d.Err? {
        return Err(d.error);
      }
      DerivedIsValid(p);
      r := Create(d.value);
    }

    /** `override_typesafe(...)`: each requested change is checked and
        assigned in turn; the first failing check raises. */
    method OverrideTypesafe(ov: Overrides) returns (err: Option<Error>)
      modifies this
      ensures (State(), err) == Override(old(State()), ov)
    {
      if ov.parser.Some? {
        if !IsSubclass(ScalarType(ov.parser.value), ScalarType(parser)) {
          return Some(TypeError(ParserTypeMismatch(ScalarType(ov.parser.value), ScalarType(parser))));
        }
        parser := ov.parser.value;
      }
      if ov.default.Some? && Truthy(ov.default.value) {
        return Some(ValueError(DefaultAlreadyProvided));
      }
      if ov.container.Some? {
        if !container.UnpackParser? && !IsSubclass(ContainerType(ov.container.value), ContainerType(container)) {
          return Some(TypeError(ContainerTypeMismatch));
        }
        container := ov.container.value;
      }
      if ov.short.Some? && ov.short.value != "" {
        short := ov.short;
      }
      assert Override(old(State()), ov) == OverrideFlags(State(), ov);
      err := OverrideFlagsStep(ov);
    }

    /** The `greedy` and `flag` part of `override_typesafe`. */
    method OverrideFlagsStep(ov: Overrides) returns (err: Option<Error>)
      modifies this
      ensures (State(), err) == OverrideFlags(old(State()), ov)
    {
      if ov.greedy.Some? {
        if flag || short.Some? {
          return Some(TypeError(FlagGreedy));
        }
        if greedy && !ov.greedy.value {
          return Some(TypeError(GreedyToNonGreedy));
        }
        greedy := ov.greedy.value;
      }
      if ov.flag.Some? && (flag || short.Some?) && !ov.flag.value {
        return Some(TypeError(FlagToNonFlag));
      }
      return None;
    }
  }
}
