/** Python-level values, classes and exceptions that the rest of the model
    passes around (sail/errors.py and the exceptions raised by the core). */
module Errors {

  /** The classes the core inspects: parser result types, container classes,
      and annotation markers. */
  datatype PyClass =
    | StrClass | IntClass | BoolClass | FloatClass | NoneClass
    | ListClass | SetClass
    | AbcSequence | AbcMutableSequence | AbcSet | AbcCollection | AbcIterable | AbcCallable
    | TypeClass
    | ContextClass | ContextSubclass(subName: string)
    | UserClass(userName: string)
    | AnyType          // typing.Any (checked by identity, not by subclassing)
    | EmptyMarker      // inspect.Parameter.empty, the annotation of an unannotated parameter

  /** `isinstance(c, abc.ABCMeta)`: the non-instantiable generics of collections.abc. */
  predicate IsAbstract(c: PyClass) {
    c.AbcSequence? || c.AbcMutableSequence? || c.AbcSet? || c.AbcCollection? || c.AbcIterable? || c.AbcCallable?
  }

  /** `issubclass(a, b)` for the classes above (reflexive; bool <: int;
      the collections.abc registrations of str, list and set). */
  predicate IsSubclass(a: PyClass, b: PyClass) {
    || a == b
    || (a == BoolClass && b == IntClass)
    || (a.ContextSubclass? && b == ContextClass)
    || (b == AbcIterable && (a in {StrClass, ListClass, SetClass, AbcSequence, AbcMutableSequence, AbcSet, AbcCollection}))
    || (b == AbcCollection && (a in {StrClass, ListClass, SetClass, AbcSequence, AbcMutableSequence, AbcSet}))
    || (b == AbcSequence && (a in {StrClass, ListClass, AbcMutableSequence}))
    || (b == AbcMutableSequence && a == ListClass)
    || (b == AbcSet && a == SetClass)
  }

  /** `issubclass(c, typing.Collection)` */
  predicate IsCollectionClass(c: PyClass) {
    IsSubclass(c, AbcCollection)
  }

  /** Python values produced by the parsers and supplied as defaults. */
  datatype Value =
    | NoneV
    | BoolV(b: bool)
    | IntV(i: int)
    | FloatV(r: real)
    | StrV(s: string)
    | ListV(items: seq<Value>)
    | SetV(elems: set<Value>)

  /** Python truthiness (`if value:`). */
  predicate Truthy(v: Value) {
    match v
    case NoneV => false
    case BoolV(b) => b
    case IntV(i) => i != 0
    case FloatV(r) => r != 0.0
    case StrV(s) => s != ""
    case ListV(items) => items != []
    case SetV(elems) => elems != {}
  }

  /** Lists and sets are unhashable and cannot be put in a set. */
  predicate Hashable(v: Value) {
    !v.ListV? && !v.SetV?
  }

  /** The wrapped exception a `ConversionError` carries. */
  datatype Cause =
    | InvalidLiteral                 // ValueError from int()/float()
    | NotUnsigned(result: Value)     // "'n' is not a valid unsigned number."
    | InvalidBoolean(lowered: string)
    | UnhashableElement              // TypeError from set(...)
    | NotInstantiable(cls: PyClass)  // TypeError from calling an abstract or unsupported class
    | MoreThanOneForUnpack           // "Got more than 1 argument for a parameter without a container type."
    | ZeroForUnpack                  // "Got 0 arguments for required parameter."

  /** What the binder attached to a `ConversionError` as `converted`. */
  datatype Converted =
    | NotAttached
    | PositionalSoFar(values: seq<Value>)
    | KeywordSoFar(bound: map<string, Value>)

  datatype RuntimeReason =
    | RequiredNotSupplied(param: string)
    | TooManyPositional(remaining: string)
    | UnexpectedKeywords(names: set<string>)
    | MoreThanOneValue(param: string, values: seq<string>)
    | AlreadyRegistered(command: string)
    | PluginHasCommand(plugin: string, command: string)
    | PluginLacksCommand(plugin: string, command: string)
    | SignatureNotParsed
    | InactiveClient
    | InactiveCommandManager

  datatype TypeReason =
    | KeywordOnlyGreedy
    | ContainerNotCollection
    | GreedyWithoutContainer
    | FlagGreedy
    | UnsupportedAnnotation(param: string)
    | NotAClass                          // issubclass() on a non-class annotation
    | ParserTypeMismatch(got: PyClass, expected: PyClass)
    | ContainerTypeMismatch
    | GreedyToNonGreedy
    | FlagToNonFlag
    | FirstParamNotContext
    | NonCoroutine(callback: string)
    | NoMentions
    | PrepareReturnedNone
    | UnexpectedKeywordArgument(keyword: string)
    | NotRuntimeCheckable                // isinstance() against a protocol without @runtime_checkable

  datatype ValueReason =
    | DefaultAlreadyProvided
    | ListenerNotRegistered
    | NotInList                          // list.remove(x) with x absent

  /** The exceptions the core raises. */
  datatype Error =
    | ConversionError(argument: Value, target: PyClass, cause: Cause, converted: Converted)
    | StopIteration
    | IndexError
    | KeyError(key: string)
    | NameError(name: string)
    | RuntimeError(runtime: RuntimeReason)
    | TypeError(typeReason: TypeReason)
    | ValueError(valueReason: ValueReason)
    | AssertionError
}
