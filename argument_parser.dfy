/** The argument parsers (sail/impl/argument_parser.py) as a closed set of
    parser tags, each with a total `parse`. A default of `Some(v)` stands for a
    supplied default, `None` for `EMPTY`. */
module ArgumentParsers {
  import opened Wrappers
  import opened Errors
  import opened Strings
  import MentionParser

  /** `NumberParser(signed=…, decimal=…)`, `BoolParser()`, `StringParser()`. */
  datatype ScalarParser =
    | NumberParser(signed: bool, decimal: bool)
    | BoolParser
    | StringParser

  /** `UnpackParser()`, `SequenceParser(collection_type)`,
      `SetParser(collection_type)` and the custom `MentionContainerParser()`. */
  datatype ContainerParser =
    | UnpackParser
    | SequenceParser(collectionType: PyClass)
    | SetParser(collectionType: PyClass)
    | MentionContainerParser

  /** `SequenceParser(c)` after `__attrs_post_init__`: a non-instantiable
      abstract class is replaced by `list`. */
  function NewSequenceParser(c: PyClass): (p: ContainerParser)
    ensures p.SequenceParser? && !IsAbstract(p.collectionType)
    ensures IsAbstract(c) ==> p.collectionType == ListClass
    ensures !IsAbstract(c) ==> p.collectionType == c
  {
    SequenceParser(if IsAbstract(c) then ListClass else c)
  }

  /** `SetParser(c)` after `__attrs_post_init__`: an abstract class becomes `set`. */
  function NewSetParser(c: PyClass): (p: ContainerParser)
    ensures p.SetParser? && !IsAbstract(p.collectionType)
    ensures IsAbstract(c) ==> p.collectionType == SetClass
    ensures !IsAbstract(c) ==> p.collectionType == c
  {
    SetParser(if IsAbstract(c) then SetClass else c)
  }

  /** `__type__` of a scalar parser. */
  function ScalarType(p: ScalarParser): PyClass {
    match p
    case NumberParser(_, decimal) => if decimal then FloatClass else IntClass
    case BoolParser => BoolClass
    case StringParser => StrClass
  }

  /** `__type__` of a container parser (`NoneType` for unpacking; the mention
      parser's `typing.List[str]` is taken as `list`). */
  function ContainerType(p: ContainerParser): PyClass {
    match p
    case UnpackParser => NoneClass
    case SequenceParser(c) => c
    case SetParser(c) => c
    case MentionContainerParser => ListClass
  }

  /** `v` is an instance of the scalar class `c`. */
  predicate InstanceOf(v: Value, c: PyClass) {
    || (c == IntClass && v.IntV?)
    || (c == FloatClass && v.FloatV?)
    || (c == BoolClass && v.BoolV?)
    || (c == StrClass && v.StrV?)
  }

  // ---------------------------------------------------------------------
  // int() and float() on a token

  predicate AllDigits(s: string) {
    forall i :: 0 <= i < |s| ==> IsDigit(s[i])
  }

  function DigitValue(c: char): nat
    requires IsDigit(c)
  {
    c as int - '0' as int
  }

  function DigitChar(d: nat): (c: char)
    requires d < 10
    ensures IsDigit(c) && DigitValue(c) == d
  {
    ('0' as int + d) as char
  }

  /** The number a string of decimal digits denotes (most significant first). */
  function DigitsValue(s: string): nat
    requires AllDigits(s)
  {
    if s == [] then 0 else DigitsValue(s[..|s| - 1]) * 10 + DigitValue(s[|s| - 1])
  }

  /** `str(n)` for a natural number: the decimal digits without leading zeros. */
  function NatToDigits(n: nat): (r: string)
    ensures r != [] && AllDigits(r) && DigitsValue(r) == n
    ensures |r| > 1 ==> r[0] != '0'
  {
    if n < 10 then [DigitChar(n)]
    else
      var front := NatToDigits(n / 10);
      var r := front + [DigitChar(n % 10)];
      assert r[..|r| - 1] == front;
      r
  }

  /** `str(i)` for an integer. */
  function IntToString(i: int): (r: string)
    ensures r != [] && (i < 0 <==> r[0] == '-')
  {
    if i < 0 then ['-'] + NatToDigits(-i) else NatToDigits(i)
  }

  /** `int(s)` over the accepted grammar: surrounding whitespace, an optional
      sign, and one or more ASCII digits. */
  function ParseInt(s: string): (r: Option<int>)
    ensures r.Some? ==> Strip(s) != []
  {
    var t := Strip(s);
    if t != [] && (t[0] == '+' || t[0] == '-') then
      var ds := t[1..];
      if ds != [] && AllDigits(ds) then Some(if t[0] == '-' then -(DigitsValue(ds) as int) else DigitsValue(ds))
      else None
    else if t != [] && AllDigits(t) then Some(DigitsValue(t))
    else None
  }

  /** `10` to the power `k`; never zero, so it can divide the fraction
      digits' value below. */
  function Pow10(k: nat): (r: nat)
    ensures r >= 1
  {
    if k == 0 then 1 else 10 * Pow10(k - 1)
  }

  /** The parts before and after the first '.' */
  function SplitAtDot(b: string): (r: Option<(string, string)>)
    ensures r.Some? ==> b == r.value.0 + "." + r.value.1 && '.' !in r.value.0
    ensures r.None? ==> '.' !in b
  {
    if b == [] then None
    else if b[0] == '.' then Some(([], b[1..]))
    else
      match SplitAtDot(b[1..])
      case None => None
      case Some((x, y)) => Some(([b[0]] + x, y))
  }

  function UnsignedDecimal(b: string): Option<real> {
    if b != [] && AllDigits(b) then Some(DigitsValue(b) as real)
    else
      match SplitAtDot(b)
      case None => None
      case Some((x, y)) =>
        if AllDigits(x) && AllDigits(y) && (x != [] || y != []) then
          Some(DigitsValue(x) as real + DigitsValue(y) as real / Pow10(|y|) as real)
        else None
  }

  /** `float(s)` over a decimal subset: whitespace, an optional sign, digits
      with an optional fractional part. */
  function ParseDecimal(s: string): Option<real> {
    var t := Strip(s);
    if t != [] && (t[0] == '+' || t[0] == '-') then
      match UnsignedDecimal(t[1..])
      case None => None
      case Some(x) => Some(if t[0] == '-' then -x else x)
    else UnsignedDecimal(t)
  }

  /** `type_(argument)` with `type_` being `float` or `int`. */
  function Convert(decimal: bool, argument: string): (r: Option<Value>)
    ensures r.Some? ==> InstanceOf(r.value, if decimal then FloatClass else IntClass)
  {
    if decimal then
      match ParseDecimal(argument)
      case None => None
      case Some(x) => Some(FloatV(x))
    else
      match ParseInt(argument)
      case None => None
      case Some(i) => Some(IntV(i))
  }

  predicate IsNegative(v: Value) {
    (v.IntV? && v.i < 0) || (v.FloatV? && v.r < 0.0)
  }

  // ---------------------------------------------------------------------
  // The scalar parsers

  const TrueWords: set<string> := {"yes", "y", "true", "t", "1"}
  const FalseWords: set<string> := {"no", "n", "false", "f", "0"}

  /** `parser.parse(argument, default)`. Every failure is a `ConversionError`
      naming the parser's type; every success is the default or a value of
      the parser's type; the string parser never fails. */
  function Parse(p: ScalarParser, argument: string, default: Option<Value>): (r: Result<Value, Error>)
    ensures r.Err? ==> r.error.ConversionError? && r.error.target == ScalarType(p) && r.error.converted == NotAttached
    ensures r.Ok? ==> (default.Some? && r.value == default.value) || InstanceOf(r.value, ScalarType(p))
    ensures p.StringParser? ==> r.Ok?
  {
    match p
    case NumberParser(signed, decimal) =>
      (match Convert(decimal, argument)
       case None => Err(ConversionError(StrV(argument), ScalarType(p), InvalidLiteral, NotAttached))
       case Some(result) =>
         if default.Some? then Ok(default.value)
         else if !signed && IsNegative(result) then
           Err(ConversionError(StrV(argument), ScalarType(p), NotUnsigned(result), NotAttached))
         else Ok(result))
    case BoolParser =>
      var lowered := Lower(argument);
      if lowered in TrueWords then Ok(BoolV(true))
      else if lowered in FalseWords then Ok(BoolV(false))
      else if default.Some? then Ok(default.value)
      else Err(ConversionError(StrV(lowered), BoolClass, InvalidBoolean(lowered), NotAttached))
    case StringParser =>
      if argument != "" then Ok(StrV(argument))
      else if default.Some? then Ok(default.value)
      else Ok(StrV(""))
  }

  /** A token `int()` rejects always raises, and a default does not rescue it. */
  lemma IntegerRejectIgnoresDefault(signed: bool, argument: string, default: Option<Value>)
    requires ParseInt(argument).None?
    ensures Parse(NumberParser(signed, false), argument, default)
      == Err(ConversionError(StrV(argument), IntClass, InvalidLiteral, NotAttached))
  {
  }

  /** A token that converts, parsed with a default, yields the default, before
      any sign check (the parsed number is discarded). */
  lemma DefaultMasksParsedNumber(p: ScalarParser, argument: string, d: Value)
    requires p.NumberParser? && Convert(p.decimal, argument).Some?
    ensures Parse(p, argument, Some(d)) == Ok(d)
  {
  }

  /** Without a default: an unsigned parser rejects a negative integer, and
      otherwise the parsed integer is returned. */
  lemma UnsignedRejectsNegative(signed: bool, argument: string, n: int)
    requires ParseInt(argument) == Some(n)
    ensures Parse(NumberParser(signed, false), argument, None)
      == if !signed && n < 0 then Err(ConversionError(StrV(argument), IntClass, NotUnsigned(IntV(n)), NotAttached))
         else Ok(IntV(n))
  {
  }

  lemma StripIdentity(s: string)
    requires s != [] && !IsSpace(s[0]) && !IsSpace(s[|s| - 1])
    ensures Strip(s) == s
  {
    assert LStrip(s) == s;
    assert RStrip(s) == s;
  }

  lemma NatRoundTrip(n: nat)
    ensures ParseInt(NatToDigits(n)) == Some(n)
  {
    var s := NatToDigits(n);
    assert IsDigit(s[0]) && IsDigit(s[|s| - 1]);
    StripIdentity(s);
  }

  lemma NegativeRoundTrip(i: int)
    requires i < 0
    ensures ParseInt(IntToString(i)) == Some(i)
  {
    var d := NatToDigits(-i);
    var s := IntToString(i);
    assert s == ['-'] + d;
    assert IsDigit(d[|d| - 1]);
    assert s[|s| - 1] == d[|d| - 1];
    StripIdentity(s);
    assert s[1..] == d;
  }

  /** `int(str(i)) == i`: the integer grammar reads back what `str` writes. */
  lemma IntRoundTrip(i: int)
    ensures ParseInt(IntToString(i)) == Some(i)
    ensures Parse(NumberParser(true, false), IntToString(i), None) == Ok(IntV(i))
    ensures i >= 0 ==> Parse(NumberParser(false, false), IntToString(i), None) == Ok(IntV(i))
  {
    if i < 0 {
      NegativeRoundTrip(i);
    } else {
      NatRoundTrip(i);
    }
    assert Convert(false, IntToString(i)) == Some(IntV(i));
  }

  /** Surrounding whitespace is ignored by `int()`. */
  lemma IntIgnoresPadding(i: int, pad: string)
    requires forall k :: 0 <= k < |pad| ==> IsSpace(pad[k])
    ensures ParseInt(pad + IntToString(i) + pad) == Some(i)
  {
    IntToStringEnds(i);
    StripPadded(pad, IntToString(i));
    IntRoundTrip(i);
  }

  /** `str(i)` starts with a sign or a digit and ends with a digit. */
  lemma IntToStringEnds(i: int)
    ensures !IsSpace(IntToString(i)[0]) && !IsSpace(IntToString(i)[|IntToString(i)| - 1])
  {
    var s := IntToString(i);
    var d := NatToDigits(if i < 0 then -i else i);
    assert s == if i < 0 then ['-'] + d else d;
    assert s[|s| - 1] == d[|d| - 1];
    assert IsDigit(d[|d| - 1]) && IsDigit(d[0]);
    assert s[0] == '-' || s[0] == d[0];
  }

  lemma {:induction false} StripPadded(pad: string, s: string)
    requires forall k :: 0 <= k < |pad| ==> IsSpace(pad[k])
    requires s != [] && !IsSpace(s[0]) && !IsSpace(s[|s| - 1])
    ensures Strip(pad + s + pad) == Strip(s) == s
  {
    LStripPadded(pad, s + pad);
    assert pad + s + pad == pad + (s + pad);
    RStripPadded(s, pad);
    assert LStrip(s) == s && RStrip(s) == s;
  }

  lemma {:induction false} LStripPadded(pad: string, s: string)
    requires forall k :: 0 <= k < |pad| ==> IsSpace(pad[k])
    requires s != [] && !IsSpace(s[0])
    ensures LStrip(pad + s) == s
  {
    if pad == [] {
      assert pad + s == s;
    } else {
      assert (pad + s)[1..] == pad[1..] + s;
      LStripPadded(pad[1..], s);
    }
  }

  lemma {:induction false} RStripPadded(s: string, pad: string)
    requires forall k :: 0 <= k < |pad| ==> IsSpace(pad[k])
    requires s != [] && !IsSpace(s[|s| - 1])
    ensures RStrip(s + pad) == s
  {
    if pad == [] {
      assert s + pad == s;
    } else {
      var init := pad[..|pad| - 1];
      assert (s + pad)[..|s + pad| - 1] == s + init;
      RStripPadded(s, init);
    }
  }

  /** The accepted words and the rejected tokens of the boolean parser: the
      lower-cased token decides, and a supplied default only replaces the
      error. */
  lemma BoolWords(argument: string, default: Option<Value>)
    ensures Lower(argument) in TrueWords ==> Parse(BoolParser, argument, default) == Ok(BoolV(true))
    ensures Lower(argument) in FalseWords ==> Parse(BoolParser, argument, default) == Ok(BoolV(false))
    ensures Lower(argument) !in TrueWords + FalseWords ==>
      (Parse(BoolParser, argument, default)
         == if default.Some? then Ok(default.value)
            else Err(ConversionError(StrV(Lower(argument)), BoolClass, InvalidBoolean(Lower(argument)), NotAttached)))
  {
  }

  lemma LowerIdempotent(s: string)
    ensures Lower(Lower(s)) == Lower(s)
  {
  }

  /** The boolean parser ignores ASCII case. */
  lemma BoolCaseInsensitive(argument: string, default: Option<Value>)
    ensures Parse(BoolParser, Lower(argument), default) == Parse(BoolParser, argument, default)
  {
    LowerIdempotent(argument);
  }

  /** Python's `str(b)` ("True"/"False") reads back as `b`. */
  lemma BoolRoundTrip(b: bool)
    ensures Parse(BoolParser, if b then "True" else "False", None) == Ok(BoolV(b))
  {
    if b {
      assert Lower("True") == "true";
    } else {
      assert Lower("False") == "false";
    }
  }

  /** The true and false words are disjoint, so the decision is unambiguous. */
  lemma BoolWordsDisjoint()
    ensures TrueWords * FalseWords == {}
  {
  }

  /** A non-empty token is returned unchanged; an empty one yields the default
      or `""`. */
  lemma StringIdentity(argument: string, default: Option<Value>)
    ensures argument != "" ==> Parse(StringParser, argument, default) == Ok(StrV(argument))
    ensures argument == "" ==>
      (Parse(StringParser, argument, default) == Ok(if default.Some? then default.value else StrV("")))
  {
  }

  // ---------------------------------------------------------------------
  // The container parsers

  /** `collection_type(items)` for the modelled classes: `list` keeps the
      elements, `set` needs hashable elements, anything else cannot be
      called on the items. */
  function Construct(c: PyClass, items: seq<Value>): (r: Result<Value, Cause>)
    ensures c == ListClass ==> r == Ok(ListV(items))
    ensures c == SetClass && r.Ok? ==> r.value.SetV? && forall x :: x in r.value.elems <==> x in items
    ensures c == SetClass ==> (r.Ok? <==> forall x :: x in items ==> Hashable(x))
  {
    if c == ListClass then Ok(ListV(items))
    else if c == SetClass then
      if forall x :: x in items ==> Hashable(x) then Ok(SetV(set x | x in items)) else Err(UnhashableElement)
    else Err(NotInstantiable(c))
  }

  /** `container_parser.parse(items, default)`. */
  function ParseContainer(p: ContainerParser, items: seq<Value>, default: Option<Value>): (r: Result<Value, Error>)
    ensures r.Err? && !p.MentionContainerParser? ==>
      r.error.ConversionError? && r.error.target == ContainerType(p) && r.error.argument == ListV(items)
    ensures r.Err? && p.MentionContainerParser? ==> r.error == TypeError(NoMentions) && default.None?
  {
    match p
    case UnpackParser =>
      if |items| == 1 then Ok(items[0])
      else if |items| > 1 then Err(ConversionError(ListV(items), NoneClass, MoreThanOneForUnpack, NotAttached))
      else if default.Some? then Ok(default.value)
      else Err(ConversionError(ListV(items), NoneClass, ZeroForUnpack, NotAttached))
    case SequenceParser(c) => Collect(c, items, default)
    case SetParser(c) => Collect(c, items, default)
    case MentionContainerParser => MentionParser.ParseMentions(items, default)
  }

  /** `_ContainerParser.parse`: the constructed collection, or on failure the
      default, or a `ConversionError` wrapping the failure. */
  function Collect(c: PyClass, items: seq<Value>, default: Option<Value>): (r: Result<Value, Error>)
    ensures Construct(c, items).Ok? ==> r == Ok(Construct(c, items).value)
    ensures Construct(c, items).Err? ==> r == if default.Some? then Ok(default.value)
      else Err(ConversionError(ListV(items), c, Construct(c, items).error, NotAttached))
  {
    match Construct(c, items)
    case Ok(v) => Ok(v)
    case Err(cause) =>
      if default.Some? then Ok(default.value)
      else Err(ConversionError(ListV(items), c, cause, NotAttached))
  }

  /** Unpacking by element count: one element is returned as is; more than
      one is an error even with a default; none yields the default or an
      error. */
  lemma UnpackByCount(items: seq<Value>, default: Option<Value>)
    ensures |items| == 1 ==> ParseContainer(UnpackParser, items, default) == Ok(items[0])
    ensures |items| > 1 ==>
      (ParseContainer(UnpackParser, items, default)
         == Err(ConversionError(ListV(items), NoneClass, MoreThanOneForUnpack, NotAttached)))
    ensures |items| == 0 ==>
      (ParseContainer(UnpackParser, items, default)
         == if default.Some? then Ok(default.value) else Err(ConversionError(ListV(items), NoneClass, ZeroForUnpack, NotAttached)))
  {
  }

  /** A sequence parser built from any abstract sequence type keeps the
      elements, in order, as a list, and never fails. */
  lemma SequenceKeepsElements(c: PyClass, items: seq<Value>, default: Option<Value>)
    requires IsAbstract(c) || c == ListClass
    ensures ParseContainer(NewSequenceParser(c), items, default) == Ok(ListV(items))
  {
  }

  /** A set parser built from any abstract type keeps exactly the elements
      when they are hashable; otherwise it yields the default or a
      `ConversionError`. */
  lemma SetKeepsElements(c: PyClass, items: seq<Value>, default: Option<Value>)
    requires IsAbstract(c) || c == SetClass
    ensures (forall x :: x in items ==> Hashable(x)) ==>
      && ParseContainer(NewSetParser(c), items, default).Ok?
      && var v := ParseContainer(NewSetParser(c), items, default).value;
      && v.SetV? && forall x :: x in v.elems <==> x in items
    ensures !(forall x :: x in items ==> Hashable(x)) ==>
      (ParseContainer(NewSetParser(c), items, default)
         == if default.Some? then Ok(default.value) else Err(ConversionError(ListV(items), SetClass, UnhashableElement, NotAttached)))
  {
  }

  // ---------------------------------------------------------------------
  // The number parser's default, as it is evidently meant

  /** `NumberParser.parse` with the default consulted where the other
      parsers consult it: only when the argument is not accepted, whether
      because it does not convert or because an unsigned parser meets a
      negative number. */
  function ParseNumberIntended(p: ScalarParser, argument: string, default: Option<Value>): (r: Result<Value, Error>)
    requires p.NumberParser?
    ensures Convert(p.decimal, argument).Some? && (p.signed || !IsNegative(Convert(p.decimal, argument).value))
      ==> r == Ok(Convert(p.decimal, argument).value)
    ensures default.Some? ==> r.Ok?
    ensures r.Ok? && (Convert(p.decimal, argument).None? || (!p.signed && IsNegative(Convert(p.decimal, argument).value)))
      ==> default.Some? && r.value == default.value
    ensures r.Err? ==> r.error.ConversionError? && r.error.target == ScalarType(p) && r.error.converted == NotAttached
    ensures Convert(p.decimal, argument).None? && default.None? ==> r.Err? && r.error.cause == InvalidLiteral
    ensures Convert(p.decimal, argument).Some? && !p.signed && IsNegative(Convert(p.decimal, argument).value) && default.None?
      ==> r.Err? && r.error.cause == NotUnsigned(Convert(p.decimal, argument).value)
  {
    match Convert(p.decimal, argument)
    case None =>
      if default.Some? then Ok(default.value)
      else Err(ConversionError(StrV(argument), ScalarType(p), InvalidLiteral, NotAttached))
    case Some(result) =>
      if !p.signed && IsNegative(result) then
        if default.Some? then Ok(default.value)
        else Err(ConversionError(StrV(argument), ScalarType(p), NotUnsigned(result), NotAttached))
      else Ok(result)
  }

  /** The corrected parser with a default is the parser without one, with
      the default standing in for every failure. */
  lemma NumberIntendedDefaultRescues(p: ScalarParser, argument: string, d: Value)
    requires p.NumberParser?
    ensures ParseNumberIntended(p, argument, Some(d))
      == if ParseNumberIntended(p, argument, None).Err? then Ok(d) else ParseNumberIntended(p, argument, None)
  {
  }

  /** The corrected parser differs from the one as written in two ways: a
      default no longer hides an accepted number, and a default now rescues
      a literal that does not convert. */
  lemma NumberIntendedRescuesInvalidLiteral(signed: bool, argument: string, d: Value)
    requires ParseInt(argument).None?
    ensures Parse(NumberParser(signed, false), argument, Some(d)).Err?
    ensures ParseNumberIntended(NumberParser(signed, false), argument, Some(d)) == Ok(d)
  {
    IntegerRejectIgnoresDefault(signed, argument, Some(d));
  }

  /** As written, a default replaces a successfully parsed number:
      `NumberParser(decimal=False).parse("5", 3)` returns 3, where the
      evident intent returns 5. */
  lemma NumberDefaultDiscrepancy()
    ensures ParseInt("5") == Some(5)
    ensures Parse(NumberParser(true, false), "5", Some(IntV(3))) == Ok(IntV(3))
    ensures ParseNumberIntended(NumberParser(true, false), "5", Some(IntV(3))) == Ok(IntV(5))
  {
    IntRoundTrip(5);
    assert IntToString(5) == "5";
  }

  /** The two agree whenever no default is passed, which is how the binder
      calls every scalar parser. */
  lemma NumberIntendedAgreesWithoutDefault(p: ScalarParser, argument: string)
    requires p.NumberParser?
    ensures ParseNumberIntended(p, argument, None) == Parse(p, argument, None)
  {
  }
}
