/** The binder of `SignatureParser` (sail/impl/signature_parser.py) stated as
    functions over parameter states: how a callback's parameters are found
    and overridden, and how positional tokens and keyword values are matched
    to them. The class in SignatureParsers runs the same steps with loops
    over `ParamInfo` objects and is proved equal to these functions. */
module Binding {
  import opened Wrappers
  import opened Errors
  import opened Strings
  import opened ArgumentParsers
  import opened ParamInfos

  // ---------------------------------------------------------------------
  // The parameter lists and `update_param_typesafe`
  // ---------------------------------------------------------------------

  /** The states of `_pos_params` (in order) and of `_kw_params` (in
      insertion order; each entry's key is its parameter's name). */
  datatype Params = Params(pos: seq<ParamState>, kw: seq<ParamState>)

  /** Parameter names are unique across both lists, as they are in one
      Python signature. */
  predicate UniqueNames(ps: Params) {
    DistinctNames(ps.pos + ps.kw)
  }

  predicate DistinctNames(all: seq<ParamState>) {
    forall i, j :: 0 <= i < j < |all| ==> all[i].name != all[j].name
  }

  /** The first parameter in `ps` called `name`. */
  function IndexOf(ps: seq<ParamState>, name: string): (r: Option<nat>)
    ensures r.None? <==> forall i :: 0 <= i < |ps| ==> ps[i].name != name
    ensures r.Some? ==> r.value < |ps| && ps[r.value].name == name
    ensures r.Some? ==> forall i :: 0 <= i < r.value ==> ps[i].name != name
  {
    if ps == [] then None
    else if ps[0].name == name then Some(0)
    else match IndexOf(ps[1..], name)
      case None => None
      case Some(i) => Some(i + 1)
  }

  /** Where `update_param_typesafe` finds the parameter it updates: by key
      in `_kw_params`, else the first positional with that name. */
  datatype Location = InKeywords(j: nat) | InPositionals(i: nat) | Missing

  function Locate(ps: Params, name: string): (r: Location)
    ensures r.InKeywords? ==> r.j < |ps.kw| && ps.kw[r.j].name == name
    ensures r.InPositionals? ==>
      && r.i < |ps.pos| && ps.pos[r.i].name == name
      && (forall m :: 0 <= m < r.i ==> ps.pos[m].name != name)
      && (forall m :: 0 <= m < |ps.kw| ==> ps.kw[m].name != name)
    ensures r.Missing? <==> forall p :: p in ps.pos + ps.kw ==> p.name != name
  {
    match IndexOf(ps.kw, name)
    case Some(j) => InKeywords(j)
    case None =>
      match IndexOf(ps.pos, name)
      case Some(i) => InPositionals(i)
      case None =>
        assert forall p :: p in ps.pos + ps.kw ==> p in ps.pos || p in ps.kw;
        Missing
  }

  /** `not existing.is_flag and (flag or short)`: the parameter becomes a
      flag and has to move to the keyword parameters. */
  predicate BecomesFlag(s: ParamState, ov: Overrides) {
    !IsFlag(s) && (ov.flag == Some(true) || (ov.short.Some? && ov.short.value != ""))
  }

  /** `update_param_typesafe`, forwarding the container override to
      `override_typesafe` (see `UpdateAsWritten` for the call as written).
      A keyword parameter that becomes a flag is looked up in
      `_pos_params` by `list.remove`, which fails: no positional state
      equals it, since names are unique. */
  function Update(ps: Params, name: string, ov: Overrides): (r: (Params, Option<Error>))
    requires UniqueNames(ps)
  {
    match Locate(ps, name)
    case Missing => (ps, Some(NameError(name)))
    case InKeywords(j) =>
      if BecomesFlag(ps.kw[j], ov) then (ps, Some(ValueError(NotInList)))
      else
        var (s, err) := Override(ps.kw[j], ov);
        (ps.(kw := ps.kw[j := s]), err)
    case InPositionals(i) =>
      var (s, err) := Override(ps.pos[i], ov);
      if BecomesFlag(ps.pos[i], ov) then (Params(ps.pos[..i] + ps.pos[i + 1..], ps.kw + [s]), err)
      else (ps.(pos := ps.pos[i := s]), err)
  }

  /** `update_param_typesafe` as written: the lookup and the move happen,
      then `override_typesafe` is called with a `container_parser` keyword
      it does not accept, which Python rejects before running it. */
  function UpdateAsWritten(ps: Params, name: string, ov: Overrides): (r: (Params, Option<Error>))
    requires UniqueNames(ps)
  {
    match Locate(ps, name)
    case Missing => (ps, Some(NameError(name)))
    case InKeywords(j) =>
      if BecomesFlag(ps.kw[j], ov) then (ps, Some(ValueError(NotInList)))
      else (ps, Some(TypeError(UnexpectedKeywordArgument("container_parser"))))
    case InPositionals(i) =>
      var moved := if BecomesFlag(ps.pos[i], ov) then Params(ps.pos[..i] + ps.pos[i + 1..], ps.kw + [ps.pos[i]]) else ps;
      (moved, Some(TypeError(UnexpectedKeywordArgument("container_parser"))))
  }

  // ---------------------------------------------------------------------
  // Positional binding: `_consume_*_pos`, `_try_default_pos`, `_parse_pos`
  // ---------------------------------------------------------------------

  /** What a consumer hands back: the parameter's container value, the index
      of the next unread token, and the carry for the following parameter. */
  datatype Step = Step(value: Value, next: nat, carry: seq<Value>)

  /** A binding phase's output: everything bound so far, and the error that
      stopped it, if any. */
  datatype Bound<T> = Bound(results: T, error: Option<Error>)

  /** A scalar parse of one token for a parameter. The binding functions
      and their properties below hold for any such function; the binder
      itself uses `ParamParse`. */
  type Parsing = (ParamState, string) -> Result<Value, Error>

  /** `param.parser.parse(arg)`, with no default. */
  const ParamParse: Parsing := (p: ParamState, arg: string) => Parse(p.parser, arg, None)

  /** `param.container_parser.parse(items)`, with no default. */
  function Contain(p: ParamState, items: seq<Value>): Result<Value, Error> {
    ParseContainer(p.container, items, None)
  }

  /** `_consume_greedy_pos`: tokens go to `p` until its parser rejects one,
      which the next parameter's parser then takes into the carry. */
  function Greedy(parse: Parsing, args: seq<string>, k: nat, p: ParamState, next: ParamState, carry: seq<Value>): (r: Result<Step, Error>)
    requires k <= |args|
    ensures r.Ok? ==> k <= r.value.next <= |args| && |r.value.carry| <= 1
    decreases |args| - k
  {
    if k == |args| then
      var v :- Contain(p, carry);
      Ok(Step(v, k, []))
    else
      match parse(p, args[k])
      case Ok(v) => Greedy(parse, args, k + 1, p, next, carry + [v])
      case Err(_) =>
        var res :- Contain(p, carry);
        var nv :- parse(next, args[k]);
        Ok(Step(res, k + 1, [nv]))
  }

  /** `_consume_nongreedy_pos`: the first token always goes to `p` (and
      `next(arg_iter)` raises when there is none) ... */
  function NonGreedy(parse: Parsing, args: seq<string>, k: nat, p: ParamState, next: ParamState, carry: seq<Value>): (r: Result<Step, Error>)
    requires k <= |args|
    ensures r.Ok? ==> k < r.value.next <= |args| && |r.value.carry| <= 1
  {
    if k == |args| then Err(StopIteration)
    else
      var first :- parse(p, args[k]);
      NonGreedyRest(parse, args, k + 1, p, next, carry + [first])
  }

  /** ... and later tokens go to `p` until the next parameter's parser
      accepts one, which becomes the carry. */
  function NonGreedyRest(parse: Parsing, args: seq<string>, k: nat, p: ParamState, next: ParamState, carry: seq<Value>): (r: Result<Step, Error>)
    requires k <= |args|
    ensures r.Ok? ==> k <= r.value.next <= |args| && |r.value.carry| <= 1
    decreases |args| - k
  {
    if k == |args| then
      var v :- Contain(p, carry);
      Ok(Step(v, k, []))
    else
      match parse(next, args[k])
      case Err(_) =>
        var v :- parse(p, args[k]);
        NonGreedyRest(parse, args, k + 1, p, next, carry + [v])
      case Ok(nv) =>
        var res :- Contain(p, carry);
        Ok(Step(res, k + 1, [nv]))
  }

  /** `_consume_remaining_pos`: every remaining token goes to `p`. */
  function Remaining(parse: Parsing, args: seq<string>, k: nat, p: ParamState, carry: seq<Value>): (r: Result<Step, Error>)
    requires k <= |args|
    ensures r.Ok? ==> r.value.next == |args|
    decreases |args| - k
  {
    if k == |args| then
      var v :- Contain(p, carry);
      Ok(Step(v, k, carry))
    else
      var v :- parse(p, args[k]);
      Remaining(parse, args, k + 1, p, carry + [v])
  }

  /** `_try_default_pos`: the default, passed through the container parser
      as a one-element list. */
  function TryDefault(p: ParamState): Result<Value, Error> {
    if p.default.None? then Err(RuntimeError(RequiredNotSupplied(p.name)))
    else Contain(p, [p.default.value])
  }

  /** The check at the end of `_parse_pos` on the unread tokens. */
  function Leftover(args: seq<string>, k: nat, results: seq<Value>): Bound<seq<Value>>
    requires k <= |args|
  {
    var remaining := Join("', '", args[k..]);
    if remaining != "" then Bound(results, Some(RuntimeError(TooManyPositional(remaining))))
    else Bound(results, None)
  }

  /** The second loop of `_parse_pos`: parameters `ps[i..]` take defaults. */
  function Defaults(ps: seq<ParamState>, i: nat, args: seq<string>, k: nat, results: seq<Value>): Bound<seq<Value>>
    requires i <= |ps| && k <= |args|
    decreases |ps| - i
  {
    if i == |ps| then Leftover(args, k, results)
    else
      match TryDefault(ps[i])
      case Err(e) => Bound(results, Some(e))
      case Ok(v) => Defaults(ps, i + 1, args, k, results + [v])
  }

  /** What one iteration of the first loop of `_parse_pos` does with
      parameter `i`: bind a value and go on, bind a value and `break`, or
      raise. */
  datatype Turn = Next(value: Value, next: nat, carry: seq<Value>) | Last(value: Value, next: nat) | Stop(error: Error)

  function PositionalStep(parse: Parsing, ps: seq<ParamState>, i: nat, args: seq<string>, k: nat, carry: seq<Value>): (r: Turn)
    requires i < |ps| && k <= |args|
    ensures r.Next? ==> k <= r.next <= |args|
    ensures r.Last? ==> k <= r.next <= |args|
  {
    var p := ps[i];
    if p.greedy || HasContainer(p) then
      if i + 1 >= |ps| then
        match Remaining(parse, args, k, p, carry)
        case Err(e) => Stop(e)
        case Ok(st) => Last(st.value, st.next)
      else
        match (if p.greedy then Greedy(parse, args, k, p, ps[i + 1], carry) else NonGreedy(parse, args, k, p, ps[i + 1], carry))
        case Err(e) => Stop(e)
        case Ok(st) => Next(st.value, st.next, st.carry)
    else if carry != [] then Next(carry[0], k, [])
    else if k < |args| then
      match parse(p, args[k])
      case Err(e) => Stop(e)
      case Ok(v) => Next(v, k + 1, [])
    else
      match TryDefault(p)
      case Err(e) => Stop(e)
      case Ok(v) => Last(v, k)
  }

  /** The first loop of `_parse_pos` from parameter `i`, token `k`, with
      `carry` and the values bound so far. */
  function Positional(parse: Parsing, ps: seq<ParamState>, i: nat, args: seq<string>, k: nat, carry: seq<Value>, results: seq<Value>): Bound<seq<Value>>
    requires i <= |ps| && k <= |args|
    decreases |ps| - i
  {
    if i == |ps| then Leftover(args, k, results)
    else
      match PositionalStep(parse, ps, i, args, k, carry)
      case Stop(e) => Bound(results, Some(e))
      case Last(v, next) => Defaults(ps, i + 1, args, next, results + [v])
      case Next(v, next, carry') => Positional(parse, ps, i + 1, args, next, carry', results + [v])
  }

  /** `_parse_pos(args, [])` */
  function BindPositional(parse: Parsing, ps: seq<ParamState>, args: seq<string>): Bound<seq<Value>> {
    Positional(parse, ps, 0, args, 0, [], [])
  }

  // ---------------------------------------------------------------------
  // Keyword binding: `alias_map`, `_preprocess_kw`, `_parse_kw`
  // ---------------------------------------------------------------------

  /** A short name counts when it is a non-empty string. */
  predicate HasShort(p: ParamState) {
    p.short.Some? && p.short.value != ""
  }

  /** The keys a keyword parameter answers to. */
  function Aliases(p: ParamState): set<string> {
    if HasShort(p) then {p.name, p.short.value} else {p.name}
  }

  /** The entries one keyword parameter adds to the alias map. */
  function AddAliases(m: map<string, string>, p: ParamState): (r: map<string, string>)
    ensures r.Keys == m.Keys + Aliases(p)
    ensures forall a :: a in Aliases(p) ==> r[a] == p.name
    ensures forall a :: a in m && a !in Aliases(p) ==> r[a] == m[a]
  {
    var named := m[p.name := p.name];
    if HasShort(p) then named[p.short.value := p.name] else named
  }

  /** `alias_map`: each keyword parameter in turn adds its entries, so a
      later parameter's entry overwrites an earlier one. */
  function AliasMap(kw: seq<ParamState>): (r: map<string, string>)
    ensures kw == [] ==> r == map[]
    decreases |kw|
  {
    if kw == [] then map[] else AddAliases(AliasMap(kw[..|kw| - 1]), kw[|kw| - 1])
  }

  /** The alias map holds every name and short name of a keyword parameter,
      and nothing else; each maps to the name of a parameter it belongs to. */
  lemma {:induction false} AliasMapEntries(kw: seq<ParamState>)
    ensures forall a :: a in AliasMap(kw) <==> exists i :: 0 <= i < |kw| && a in Aliases(kw[i])
    ensures forall a :: a in AliasMap(kw) ==>
      exists i :: 0 <= i < |kw| && a in Aliases(kw[i]) && AliasMap(kw)[a] == kw[i].name
    decreases |kw|
  {
    if kw != [] {
      var front := kw[..|kw| - 1];
      var last := kw[|kw| - 1];
      AliasMapEntries(front);
      var r := AliasMap(kw);
      assert r == AddAliases(AliasMap(front), last);
      forall a | a in r
        ensures exists i :: 0 <= i < |kw| && a in Aliases(kw[i]) && r[a] == kw[i].name
      {
        if a in Aliases(last) {
          assert kw[|kw| - 1] == last;
        } else {
          var i :| 0 <= i < |front| && a in Aliases(front[i]) && AliasMap(front)[a] == front[i].name;
          assert kw[i] == front[i];
        }
      }
      forall a | exists i :: 0 <= i < |kw| && a in Aliases(kw[i])
        ensures a in r
      {
        var i :| 0 <= i < |kw| && a in Aliases(kw[i]);
        if i < |kw| - 1 {
          assert front[i] == kw[i];
        }
      }
    }
  }

  /** The alias map of one more parameter adds that parameter's entries. */
  lemma AliasMapStep(kw: seq<ParamState>, i: nat)
    requires i < |kw|
    ensures AliasMap(kw[..i + 1]) == AddAliases(AliasMap(kw[..i]), kw[i])
  {
    assert kw[..i + 1][..i] == kw[..i] && kw[..i + 1][i] == kw[i];
  }

  /** `_preprocess_kw`: the given values under their parameters' names,
      walking the keys in insertion order so that a later key wins. The
      guards hold for every well-formed mapping once `_parse_kw` has checked
      the keys; they only keep the function total. */
  function Unalias(keys: seq<string>, kwargs: map<string, seq<string>>, aliases: map<string, string>): map<string, seq<string>>
    decreases |keys|
  {
    if keys == [] then map[]
    else
      var m := Unalias(keys[..|keys| - 1], kwargs, aliases);
      var key := keys[|keys| - 1];
      if key in kwargs && key in aliases then m[aliases[key] := kwargs[key]] else m
  }

  /** Every value given for a keyword, parsed in order. */
  function ParseAll(parse: Parsing, p: ParamState, args: seq<string>): (r: Result<seq<Value>, Error>)
  {
    if args == [] then Ok([])
    else
      var v :- parse(p, args[0]);
      var vs :- ParseAll(parse, p, args[1..]);
      Ok([v] + vs)
  }

  /** `ParseAll` succeeds exactly when every value parses, and then holds
      each value's result in order. */
  lemma {:induction false} ParseAllMeaning(parse: Parsing, p: ParamState, args: seq<string>)
    ensures var r := ParseAll(parse, p, args);
      r.Ok? ==> |r.value| == |args| && forall i :: 0 <= i < |args| ==> parse(p, args[i]) == Ok(r.value[i])
    ensures ParseAll(parse, p, args).Err? <==> exists i :: 0 <= i < |args| && parse(p, args[i]).Err?
    decreases |args|
  {
    if args != [] {
      ParseAllMeaning(parse, p, args[1..]);
      assert forall i :: 1 <= i < |args| ==> args[i] == args[1..][i - 1];
      if parse(p, args[0]).Ok? && ParseAll(parse, p, args[1..]).Err? {
        var i :| 0 <= i < |args[1..]| && parse(p, args[1..][i]).Err?;
        assert parse(p, args[i + 1]).Err?;
      }
    }
  }

  /** Parsing a list of values parses its first `j`, then the rest. */
  lemma {:induction false} ParseAllSplit(parse: Parsing, p: ParamState, vals: seq<string>, j: nat)
    requires j <= |vals|
    ensures ParseAll(parse, p, vals) ==
      match ParseAll(parse, p, vals[..j])
      case Err(e) => Err(e)
      case Ok(x) =>
        match ParseAll(parse, p, vals[j..])
        case Err(e) => Err(e)
        case Ok(y) => Ok(x + y)
  {
    if j == 0 {
      assert vals[..0] == [] && vals[0..] == vals;
      match ParseAll(parse, p, vals) {
        case Ok(y) => assert [] + y == y;
        case Err(_) =>
      }
    } else {
      var rest := vals[1..];
      ParseAllSplit(parse, p, rest, j - 1);
      assert rest[..j - 1] == vals[..j][1..] && rest[j - 1..] == vals[j..];
      assert vals[..j][0] == vals[0];
      match parse(p, vals[0]) {
        case Err(_) =>
        case Ok(v) =>
          match ParseAll(parse, p, rest[..j - 1]) {
            case Err(_) =>
            case Ok(x) =>
              match ParseAll(parse, p, vals[j..]) {
                case Err(_) =>
                case Ok(y) => assert [v] + (x + y) == ([v] + x) + y;
              }
          }
      }
    }
  }

  /** Once the first `j` values parse, value `j` parses onto them ... */
  lemma ParseAllExtends(parse: Parsing, p: ParamState, vals: seq<string>, j: nat, v: Value)
    requires j < |vals| && ParseAll(parse, p, vals[..j]).Ok? && parse(p, vals[j]) == Ok(v)
    ensures ParseAll(parse, p, vals[..j + 1]) == Ok(ParseAll(parse, p, vals[..j]).value + [v])
  {
    var front := vals[..j + 1];
    ParseAllSplit(parse, p, front, j);
    assert front[..j] == vals[..j];
    var last := front[j..];
    assert last[0] == vals[j] && last[1..] == [];
    assert ParseAll(parse, p, last[1..]) == Ok([]);
    assert ParseAll(parse, p, last) == Ok([v] + []);
    assert [v] + [] == [v];
  }

  /** ... or its failure is the failure of all of them. */
  lemma ParseAllFirstError(parse: Parsing, p: ParamState, vals: seq<string>, j: nat)
    requires j < |vals| && ParseAll(parse, p, vals[..j]).Ok? && parse(p, vals[j]).Err?
    ensures ParseAll(parse, p, vals) == Err(parse(p, vals[j]).error)
  {
    ParseAllSplit(parse, p, vals, j);
    assert vals[j..][0] == vals[j];
  }

  /** Parsing a run whose first token parses to `v`. */
  lemma ParseAllCons(parse: Parsing, p: ParamState, run: seq<string>, v: Value)
    requires run != [] && parse(p, run[0]) == Ok(v)
    ensures ParseAll(parse, p, run) ==
      match ParseAll(parse, p, run[1..])
      case Ok(vs) => Ok([v] + vs)
      case Err(e) => Err(e)
  {
  }

  /** One iteration of the loop of `_parse_kw`: a `bool` parameter is
      present or absent; any other needs its key, parses every value, and
      then takes the container of them or exactly one. */
  function KeywordValue(parse: Parsing, p: ParamState, unaliased: map<string, seq<string>>): Result<Value, Error> {
    if ScalarType(p.parser) == BoolClass then
      Ok(BoolV((p.short.Some? && p.short.value in unaliased) || p.name in unaliased))
    else if p.name !in unaliased then Err(KeyError(p.name))
    else
      var carry :- ParseAll(parse, p, unaliased[p.name]);
      if HasContainer(p) then Contain(p, carry)
      else if |carry| > 1 then Err(RuntimeError(MoreThanOneValue(p.name, unaliased[p.name])))
      else if carry == [] then Err(IndexError)
      else Ok(carry[0])
  }

  /** The loop of `_parse_kw` from keyword parameter `i`. */
  function Keywords(parse: Parsing, kw: seq<ParamState>, i: nat, unaliased: map<string, seq<string>>, results: map<string, Value>): Bound<map<string, Value>>
    requires i <= |kw|
    decreases |kw| - i
  {
    if i == |kw| then Bound(results, None)
    else
      match KeywordValue(parse, kw[i], unaliased)
      case Err(e) => Bound(results, Some(e))
      case Ok(v) => Keywords(parse, kw, i + 1, unaliased, results[kw[i].name := v])
  }

  /** `_parse_kw(kwargs, {})`, the mapping given as its keys in insertion
      order and its key-to-values map. */
  function BindKeywords(parse: Parsing, kw: seq<ParamState>, keys: seq<string>, kwargs: map<string, seq<string>>): Bound<map<string, Value>> {
    var aliases := AliasMap(kw);
    if !(kwargs.Keys <= aliases.Keys) then
      Bound(map[], Some(RuntimeError(UnexpectedKeywords(kwargs.Keys - aliases.Keys))))
    else Keywords(parse, kw, 0, Unalias(keys, kwargs, aliases), map[])
  }

  // ---------------------------------------------------------------------
  // `_parse`
  // ---------------------------------------------------------------------

  /** `exc.converted = ...` on a `ConversionError`; other errors pass. */
  function Attach(e: Error, c: Converted): Error {
    if e.ConversionError? then e.(converted := c) else e
  }

  /** `_parse(args, kwargs)`: positional binding, then keyword binding. */
  function Bind(parse: Parsing, ps: Params, args: seq<string>, keys: seq<string>, kwargs: map<string, seq<string>>): Result<(seq<Value>, map<string, Value>), Error> {
    var pos := BindPositional(parse, ps.pos, args);
    if pos.error.Some? then Err(Attach(pos.error.value, PositionalSoFar(pos.results)))
    else
      var kws := BindKeywords(parse, ps.kw, keys, kwargs);
      if kws.error.Some? then Err(Attach(kws.error.value, KeywordSoFar(kws.results)))
      else Ok((pos.results, kws.results))
  }

  // ---------------------------------------------------------------------
  // Properties of positional binding
  // ---------------------------------------------------------------------

  /** Unread tokens are an error unless there are none, or exactly one and
      it is empty: `"', '".join([""])` is falsy. */
  lemma LeftoverRule(args: seq<string>, k: nat, results: seq<Value>)
    requires k <= |args|
    ensures Leftover(args, k, results).results == results
    ensures Leftover(args, k, results).error.None? <==> (k == |args| || args[k..] == [""])
    ensures Leftover(args, k, results).error.Some? ==>
      Leftover(args, k, results).error.value.RuntimeError?
  {
    JoinEmpty("', '", args[k..]);
  }

  /** `_consume_remaining_pos` is "parse every remaining token, then build
      the container of the carry followed by them". */
  lemma {:induction false} RemainingTakesAll(parse: Parsing, args: seq<string>, k: nat, p: ParamState, carry: seq<Value>)
    requires k <= |args|
    ensures Remaining(parse, args, k, p, carry) ==
      match ParseAll(parse, p, args[k..])
      case Err(e) => Err(e)
      case Ok(vs) =>
        (match Contain(p, carry + vs)
         case Err(e) => Err(e)
         case Ok(v) => Ok(Step(v, |args|, carry + vs)))
    decreases |args| - k
  {
    if k == |args| {
      assert args[k..] == [];
      assert carry + [] == carry;
    } else {
      assert args[k..][0] == args[k] && args[k..][1..] == args[k + 1..];
      match parse(p, args[k])
      case Err(e) =>
      case Ok(v) =>
        RemainingTakesAll(parse, args, k + 1, p, carry + [v]);
        match ParseAll(parse, p, args[k + 1..])
        case Err(e) =>
        case Ok(vs) =>
          assert (carry + [v]) + vs == carry + ([v] + vs);
    }
  }

  /** The end of the run of tokens from `k` that `p`'s parser accepts. */
  function AcceptedRun(parse: Parsing, args: seq<string>, k: nat, p: ParamState): (r: nat)
    requires k <= |args|
    ensures k <= r <= |args|
    ensures forall m :: k <= m < r ==> parse(p, args[m]).Ok?
    ensures r < |args| ==> parse(p, args[r]).Err?
    decreases |args| - k
  {
    if k == |args| || parse(p, args[k]).Err? then k else AcceptedRun(parse, args, k + 1, p)
  }

  /** The reading of `_consume_greedy_pos` from token `k`: the longest run
      of tokens `p`'s parser accepts goes to `p`; the token after it, if
      any, must be accepted by the next parameter's parser. */
  function GreedyRead(parse: Parsing, args: seq<string>, k: nat, p: ParamState, next: ParamState, carry: seq<Value>): Result<Step, Error>
    requires k <= |args|
  {
    var j := AcceptedRun(parse, args, k, p);
    var vs :- ParseAll(parse, p, args[k..j]);
    GreedyHand(parse, args, j, p, next, carry + vs)
  }

  /** The end of a greedy reading at token `j`: the container of the items,
      and the token at `j`, if any, parsed for the next parameter. */
  function GreedyHand(parse: Parsing, args: seq<string>, j: nat, p: ParamState, next: ParamState, items: seq<Value>): Result<Step, Error>
    requires j <= |args|
  {
    var res :- Contain(p, items);
    if j == |args| then Ok(Step(res, j, []))
    else
      var nv :- parse(next, args[j]);
      Ok(Step(res, j + 1, [nv]))
  }

  /** `_consume_greedy_pos` is `GreedyRead`; in that reading every token of
      the run parses. */
  lemma {:induction false} GreedyTakesLongestRun(parse: Parsing, args: seq<string>, k: nat, p: ParamState, next: ParamState, carry: seq<Value>)
    requires k <= |args|
    ensures Greedy(parse, args, k, p, next, carry) == GreedyRead(parse, args, k, p, next, carry)
    ensures ParseAll(parse, p, args[k..AcceptedRun(parse, args, k, p)]).Ok?
    decreases |args| - k
  {
    if k == |args| || parse(p, args[k]).Err? {
      assert args[k..k] == [];
      assert carry + [] == carry;
    } else {
      var v := parse(p, args[k]).value;
      assert Greedy(parse, args, k, p, next, carry) == Greedy(parse, args, k + 1, p, next, carry + [v]);
      GreedyTakesLongestRun(parse, args, k + 1, p, next, carry + [v]);
      GreedyShifts(parse, args, k, p, next, carry, v);
    }
  }

  /** Moving one accepted token from the greedy reading into the carry. */
  lemma GreedyShifts(parse: Parsing, args: seq<string>, k: nat, p: ParamState, next: ParamState, carry: seq<Value>, v: Value)
    requires k < |args| && parse(p, args[k]) == Ok(v)
    requires ParseAll(parse, p, args[k + 1..AcceptedRun(parse, args, k + 1, p)]).Ok?
    ensures ParseAll(parse, p, args[k..AcceptedRun(parse, args, k, p)]).Ok?
    ensures GreedyRead(parse, args, k, p, next, carry) == GreedyRead(parse, args, k + 1, p, next, carry + [v])
  {
    var j := AcceptedRun(parse, args, k + 1, p);
    assert j == AcceptedRun(parse, args, k, p);
    var vs := ParseAll(parse, p, args[k + 1..j]).value;
    assert ParseAll(parse, p, args[k..j]) == Ok([v] + vs) by {
      var run := args[k..j];
      assert run[0] == args[k] && run[1..] == args[k + 1..j];
    }
    var items := carry + ([v] + vs);
    assert (carry + [v]) + vs == items;
    assert GreedyRead(parse, args, k, p, next, carry) == GreedyHand(parse, args, j, p, next, items);
    assert GreedyRead(parse, args, k + 1, p, next, carry + [v]) == GreedyHand(parse, args, j, p, next, items);
  }

  /** The end of the run of tokens from `k` that `next`'s parser rejects. */
  function RejectedRun(parse: Parsing, args: seq<string>, k: nat, next: ParamState): (r: nat)
    requires k <= |args|
    ensures k <= r <= |args|
    ensures forall m :: k <= m < r ==> parse(next, args[m]).Err?
    ensures r < |args| ==> parse(next, args[r]).Ok?
    decreases |args| - k
  {
    if k == |args| || parse(next, args[k]).Ok? then k else RejectedRun(parse, args, k + 1, next)
  }

  /** The reading of `_consume_nongreedy_pos`: tokens from `k` go to `p` up
      to the first token at or after `from` that the next parameter's parser
      accepts, which becomes the carry. */
  function NonGreedyRead(parse: Parsing, args: seq<string>, k: nat, from: nat, p: ParamState, next: ParamState, carry: seq<Value>): Result<Step, Error>
    requires k <= from <= |args|
  {
    var j := RejectedRun(parse, args, from, next);
    var vs :- ParseAll(parse, p, args[k..j]);
    Hand(parse, args, j, p, next, carry + vs)
  }

  /** The end of a non-greedy reading at token `j`: the container of the
      items, and the token at `j`, if any, for the next parameter. */
  function Hand(parse: Parsing, args: seq<string>, j: nat, p: ParamState, next: ParamState, items: seq<Value>): Result<Step, Error>
    requires j <= |args|
    requires j < |args| ==> parse(next, args[j]).Ok?
  {
    var res :- Contain(p, items);
    if j == |args| then Ok(Step(res, j, [])) else Ok(Step(res, j + 1, [parse(next, args[j]).value]))
  }

  /** `_consume_nongreedy_pos` is "take the first token whatever it is,
      then every token the next parameter's parser rejects; the first one
      it accepts is the next parameter's". */
  lemma NonGreedyStopsAtFirstAccept(parse: Parsing, args: seq<string>, k: nat, p: ParamState, next: ParamState, carry: seq<Value>)
    requires k < |args|
    ensures NonGreedy(parse, args, k, p, next, carry) == NonGreedyRead(parse, args, k, k + 1, p, next, carry)
  {
    if parse(p, args[k]).Ok? {
      var first := parse(p, args[k]).value;
      NonGreedyRestRun(parse, args, k + 1, p, next, carry + [first]);
      ReadShifts(parse, args, k, k + 1, p, next, carry, first);
    } else {
      ReadFailsAtFirst(parse, args, k, k + 1, p, next, carry);
    }
  }

  /** The rest of `_consume_nongreedy_pos`, after the first token. */
  lemma {:induction false} NonGreedyRestRun(parse: Parsing, args: seq<string>, k: nat, p: ParamState, next: ParamState, carry: seq<Value>)
    requires k <= |args|
    ensures NonGreedyRest(parse, args, k, p, next, carry) == NonGreedyRead(parse, args, k, k, p, next, carry)
    decreases |args| - k
  {
    if k == |args| || parse(next, args[k]).Ok? {
      assert args[k..k] == [];
      assert carry + [] == carry;
    } else if parse(p, args[k]).Ok? {
      var v := parse(p, args[k]).value;
      NonGreedyRestRun(parse, args, k + 1, p, next, carry + [v]);
      ReadShifts(parse, args, k, k, p, next, carry, v);
    } else {
      ReadFailsAtFirst(parse, args, k, k, p, next, carry);
    }
  }

  /** Moving one accepted token from the reading into the carry. */
  lemma ReadShifts(parse: Parsing, args: seq<string>, k: nat, from: nat, p: ParamState, next: ParamState, carry: seq<Value>, v: Value)
    requires k <= from <= |args| && k < |args| && parse(p, args[k]) == Ok(v)
    requires from == k ==> parse(next, args[k]).Err?
    ensures NonGreedyRead(parse, args, k, from, p, next, carry)
      == NonGreedyRead(parse, args, k + 1, if from == k then k + 1 else from, p, next, carry + [v])
  {
    var j := RejectedRun(parse, args, from, next);
    assert j == RejectedRun(parse, args, if from == k then k + 1 else from, next);
    var run := args[k..j];
    assert run[0] == args[k] && run[1..] == args[k + 1..j];
    ParseAllCons(parse, p, run, v);
    if ParseAll(parse, p, args[k + 1..j]).Ok? {
      var vs := ParseAll(parse, p, args[k + 1..j]).value;
      assert ParseAll(parse, p, run) == Ok([v] + vs);
      assert (carry + [v]) + vs == carry + ([v] + vs);
    } else {
      assert ParseAll(parse, p, run).Err?;
    }
  }

  /** A reading whose first token `p` rejects fails with that rejection. */
  lemma ReadFailsAtFirst(parse: Parsing, args: seq<string>, k: nat, from: nat, p: ParamState, next: ParamState, carry: seq<Value>)
    requires k <= from <= |args| && k < |args| && parse(p, args[k]).Err?
    requires from == k ==> parse(next, args[k]).Err?
    ensures NonGreedyRead(parse, args, k, from, p, next, carry) == Err(parse(p, args[k]).error)
  {
    var j := RejectedRun(parse, args, from, next);
    var run := args[k..j];
    assert run[0] == args[k];
  }

  /** Positional binding only appends: it keeps what was bound before, adds
      at most one value per parameter, and exactly one when it succeeds. */
  lemma {:induction false} PositionalAppends(parse: Parsing, ps: seq<ParamState>, i: nat, args: seq<string>, k: nat, carry: seq<Value>, results: seq<Value>)
    requires i <= |ps| && k <= |args|
    ensures var b := Positional(parse, ps, i, args, k, carry, results);
      && |results| <= |b.results| <= |results| + (|ps| - i)
      && b.results[..|results|] == results
      && (b.error.None? ==> |b.results| == |results| + (|ps| - i))
    decreases |ps| - i
  {
    if i == |ps| {
      LeftoverRule(args, k, results);
    } else {
      match PositionalStep(parse, ps, i, args, k, carry)
      case Stop(e) =>
      case Last(v, next) =>
        DefaultsAppends(ps, i + 1, args, next, results + [v]);
        assert (results + [v])[..|results|] == results;
      case Next(v, next, carry') =>
        PositionalAppends(parse, ps, i + 1, args, next, carry', results + [v]);
        assert (results + [v])[..|results|] == results;
    }
  }

  lemma {:induction false} DefaultsAppends(ps: seq<ParamState>, i: nat, args: seq<string>, k: nat, results: seq<Value>)
    requires i <= |ps| && k <= |args|
    ensures var b := Defaults(ps, i, args, k, results);
      && |results| <= |b.results| <= |results| + (|ps| - i)
      && b.results[..|results|] == results
      && (b.error.None? ==> |b.results| == |results| + (|ps| - i))
    decreases |ps| - i
  {
    if i == |ps| {
      LeftoverRule(args, k, results);
    } else {
      match TryDefault(ps[i])
      case Err(e) =>
      case Ok(v) => DefaultsAppends(ps, i + 1, args, k, results + [v]);
    }
  }

  /** A successful positional binding gives every positional parameter one
      value, in order. */
  lemma BoundPositionalsMatchParams(parse: Parsing, ps: seq<ParamState>, args: seq<string>)
    ensures BindPositional(parse, ps, args).error.None? ==> |BindPositional(parse, ps, args).results| == |ps|
  {
    PositionalAppends(parse, ps, 0, args, 0, [], []);
  }

  /** Once the tokens run out, the remaining parameters take their defaults;
      this succeeds exactly when each of them has one the container parser
      accepts, and then yields those defaults in order. */
  lemma {:induction false} DefaultsRule(ps: seq<ParamState>, i: nat, args: seq<string>, results: seq<Value>)
    requires i <= |ps|
    ensures (Defaults(ps, i, args, |args|, results).error.None?) <==>
      (forall m :: i <= m < |ps| ==> TryDefault(ps[m]).Ok?)
    ensures var b := Defaults(ps, i, args, |args|, results);
      b.error.None? ==>
        && |b.results| == |results| + (|ps| - i)
        && b.results[..|results|] == results
        && forall m :: i <= m < |ps| ==> TryDefault(ps[m]) == Ok(b.results[|results| + (m - i)])
    decreases |ps| - i
  {
    LeftoverRule(args, |args|, results);
    if i < |ps| {
      match TryDefault(ps[i])
      case Err(e) =>
      case Ok(v) =>
        DefaultsRule(ps, i + 1, args, results + [v]);
        var b := Defaults(ps, i, args, |args|, results);
        if b.error.None? {
          assert b.results[..|results| + 1] == results + [v];
          assert b.results[..|results|] == (b.results[..|results| + 1])[..|results|];
        }
    }
  }

  /** A required parameter (no default) is never filled from a default. */
  lemma RequiredHasNoDefault(p: ParamState)
    requires p.default.None?
    ensures TryDefault(p) == Err(RuntimeError(RequiredNotSupplied(p.name)))
  {
  }

  /** A parameter without a container: one value bound from a default is the
      default itself. */
  lemma ScalarDefaultIsKept(p: ParamState, d: Value)
    requires !HasContainer(p) && p.default == Some(d)
    ensures TryDefault(p) == Ok(d)
  {
  }

  /** A signature of plain parameters (no container, not greedy) reads one
      token per parameter, in order; what is left over is checked as usual. */
  predicate AllScalar(ps: seq<ParamState>) {
    forall i :: 0 <= i < |ps| ==> !ps[i].greedy && !HasContainer(ps[i])
  }

  /** The first `n` tokens, each parsed by the parameter at its own position. */
  function ParseEach(parse: Parsing, ps: seq<ParamState>, args: seq<string>, n: nat): (r: Result<seq<Value>, Error>)
    requires n <= |ps| && n <= |args|
    ensures r.Ok? ==> |r.value| == n && forall m :: 0 <= m < n ==> parse(ps[m], args[m]) == Ok(r.value[m])
  {
    if n == 0 then Ok([])
    else
      var vs :- ParseEach(parse, ps, args, n - 1);
      var v :- parse(ps[n - 1], args[n - 1]);
      assert forall m :: 0 <= m < n - 1 ==> (vs + [v])[m] == vs[m];
      Ok(vs + [v])
  }

  /** One plain parameter with no carry reads the next token. */
  lemma ScalarStep(parse: Parsing, ps: seq<ParamState>, i: nat, args: seq<string>, k: nat)
    requires i < |ps| && k <= |args| && !ps[i].greedy && !HasContainer(ps[i])
    ensures k < |args| ==>
      PositionalStep(parse, ps, i, args, k, []) ==
      (match parse(ps[i], args[k]) case Err(e) => Stop(e) case Ok(v) => Next(v, k + 1, []))
    ensures k == |args| ==>
      PositionalStep(parse, ps, i, args, k, []) ==
      (match TryDefault(ps[i]) case Err(e) => Stop(e) case Ok(v) => Last(v, k))
  {
  }

  /** `ParseEach` fails exactly when one of the tokens fails to parse. */
  lemma {:induction false} ParseEachFails(parse: Parsing, ps: seq<ParamState>, args: seq<string>, n: nat)
    requires n <= |ps| && n <= |args|
    ensures ParseEach(parse, ps, args, n).Err? <==> exists m :: 0 <= m < n && parse(ps[m], args[m]).Err?
  {
    if n > 0 {
      ParseEachFails(parse, ps, args, n - 1);
    }
  }

  /** `ParseEach` grows by one parsed token at a time. */
  lemma ParseEachGrows(parse: Parsing, ps: seq<ParamState>, args: seq<string>, i: nat, n: nat)
    requires i < n <= |ps| && n <= |args| && ParseEach(parse, ps, args, n).Ok?
    ensures parse(ps[i], args[i]).Ok? && ParseEach(parse, ps, args, i).Ok? && ParseEach(parse, ps, args, i + 1).Ok?
    ensures ParseEach(parse, ps, args, i + 1).value == ParseEach(parse, ps, args, i).value + [parse(ps[i], args[i]).value]
  {
    ParseEachFails(parse, ps, args, n);
    ParseEachFails(parse, ps, args, i);
    ParseEachFails(parse, ps, args, i + 1);
  }

  /** From parameter `i` on, with the first `i` tokens already bound, each
      plain parameter reads its own token. */
  lemma {:induction false} ScalarsReadOneTokenEach(parse: Parsing, ps: seq<ParamState>, i: nat, args: seq<string>)
    requires AllScalar(ps) && i <= |ps| <= |args|
    requires ParseEach(parse, ps, args, |ps|).Ok?
    ensures ParseEach(parse, ps, args, i).Ok?
    ensures Positional(parse, ps, i, args, i, [], ParseEach(parse, ps, args, i).value)
      == Leftover(args, |ps|, ParseEach(parse, ps, args, |ps|).value)
    decreases |ps| - i
  {
    if i < |ps| {
      ParseEachGrows(parse, ps, args, i, |ps|);
      ScalarStep(parse, ps, i, args, i);
      ScalarsReadOneTokenEach(parse, ps, i + 1, args);
    }
  }

  /** With exactly one token per plain parameter that all parse, each
      parameter receives its own token's value. */
  lemma ScalarsBindInOrder(parse: Parsing, ps: seq<ParamState>, args: seq<string>)
    requires AllScalar(ps) && |ps| == |args|
    requires forall m :: 0 <= m < |ps| ==> parse(ps[m], args[m]).Ok?
    ensures BindPositional(parse, ps, args).error.None?
    ensures |BindPositional(parse, ps, args).results| == |ps|
    ensures forall m :: 0 <= m < |ps| ==> parse(ps[m], args[m]) == Ok(BindPositional(parse, ps, args).results[m])
  {
    ParseEachFails(parse, ps, args, |ps|);
    ScalarsReadOneTokenEach(parse, ps, 0, args);
    LeftoverRule(args, |ps|, ParseEach(parse, ps, args, |ps|).value);
  }

  /** With more tokens than plain parameters that all parse, the extra
      tokens are reported, unless the only extra token is empty. */
  lemma ScalarsRejectExtraTokens(parse: Parsing, ps: seq<ParamState>, args: seq<string>)
    requires AllScalar(ps) && |ps| < |args|
    requires forall m :: 0 <= m < |ps| ==> parse(ps[m], args[m]).Ok?
    ensures BindPositional(parse, ps, args).error ==
      (if args[|ps|..] == [""] then None
       else Some(RuntimeError(TooManyPositional(Join("', '", args[|ps|..])))))
  {
    ParseEachFails(parse, ps, args, |ps|);
    ScalarsReadOneTokenEach(parse, ps, 0, args);
    LeftoverRule(args, |ps|, ParseEach(parse, ps, args, |ps|).value);
  }

  /** With fewer tokens than plain parameters, each token goes to its
      parameter and the rest of the parameters take their defaults. */
  lemma {:induction false} ScalarsThenDefaults(parse: Parsing, ps: seq<ParamState>, i: nat, args: seq<string>)
    requires AllScalar(ps) && i <= |args| < |ps|
    requires ParseEach(parse, ps, args, |args|).Ok?
    ensures ParseEach(parse, ps, args, i).Ok?
    ensures Positional(parse, ps, i, args, i, [], ParseEach(parse, ps, args, i).value)
      == Defaults(ps, |args|, args, |args|, ParseEach(parse, ps, args, |args|).value)
    decreases |args| - i
  {
    if i == |args| {
      ScalarsRunOut(parse, ps, args, ParseEach(parse, ps, args, i).value);
    } else {
      ParseEachGrows(parse, ps, args, i, |args|);
      ScalarStep(parse, ps, i, args, i);
      var v := parse(ps[i], args[i]).value;
      assert PositionalStep(parse, ps, i, args, i, []) == Next(v, i + 1, []);
      ScalarsThenDefaults(parse, ps, i + 1, args);
    }
  }

  /** A plain parameter that finds no token left takes its default, as the
      parameters after it do. */
  lemma ScalarsRunOut(parse: Parsing, ps: seq<ParamState>, args: seq<string>, results: seq<Value>)
    requires AllScalar(ps) && |args| < |ps|
    ensures Positional(parse, ps, |args|, args, |args|, [], results) == Defaults(ps, |args|, args, |args|, results)
  {
    ScalarStep(parse, ps, |args|, args, |args|);
  }

  /** A signature whose only positional parameter has a container gathers
      every token into it. */
  lemma SingleContainerTakesAll(parse: Parsing, p: ParamState, args: seq<string>)
    requires HasContainer(p)
    ensures BindPositional(parse, [p], args) ==
      match ParseAll(parse, p, args)
      case Err(e) => Bound([], Some(e))
      case Ok(vs) =>
        (match Contain(p, vs)
         case Err(e) => Bound([], Some(e))
         case Ok(v) => Bound([v], None))
  {
    RemainingTakesAll(parse, args, 0, p, []);
    assert args[0..] == args;
    LeftoverRule(args, |args|, []);
    match ParseAll(parse, p, args)
    case Err(e) =>
    case Ok(vs) =>
      assert [] + vs == vs;
      match Contain(p, vs)
      case Err(e) =>
      case Ok(v) =>
        assert PositionalStep(parse, [p], 0, args, 0, []) == Last(v, |args|);
        assert [] + [v] == [v];
        assert BindPositional(parse, [p], args) == Defaults([p], 1, args, |args|, [v]) == Leftover(args, |args|, [v]);
        LeftoverRule(args, |args|, [v]);
  }

  /** A non-greedy container that is not the last parameter needs a token:
      with none left, `next(arg_iter)` raises instead of falling back to
      defaults. */
  lemma NonGreedyNeedsAToken(parse: Parsing, ps: seq<ParamState>, i: nat, args: seq<string>, carry: seq<Value>, results: seq<Value>)
    requires i + 1 < |ps| && !ps[i].greedy && HasContainer(ps[i])
    ensures Positional(parse, ps, i, args, |args|, carry, results) == Bound(results, Some(StopIteration))
  {
  }

  // ---------------------------------------------------------------------
  // Properties of keyword binding
  // ---------------------------------------------------------------------

  /** No name or short name is shared between two keyword parameters, and
      names are non-empty (they are Python identifiers). */
  predicate UniqueAliases(kw: seq<ParamState>) {
    && (forall i :: 0 <= i < |kw| ==> kw[i].name != "")
    && (forall i, j :: 0 <= i < |kw| && 0 <= j < |kw| && i != j ==> Aliases(kw[i]) !! Aliases(kw[j]))
  }

  /** Without clashes, the alias map sends each of a parameter's keys to
      that parameter's name. */
  lemma {:induction false} AliasOf(kw: seq<ParamState>, i: nat, a: string)
    requires UniqueAliases(kw) && i < |kw| && a in Aliases(kw[i])
    ensures a in AliasMap(kw) && AliasMap(kw)[a] == kw[i].name
    decreases |kw|
  {
    var front := kw[..|kw| - 1];
    var last := kw[|kw| - 1];
    if i < |kw| - 1 {
      assert front[i] == kw[i];
      assert UniqueAliases(front) by {
        forall m | 0 <= m < |front| ensures front[m] == kw[m] { }
      }
      AliasOf(front, i, a);
      assert a !in Aliases(last) by {
        assert Aliases(kw[i]) !! Aliases(kw[|kw| - 1]);
      }
    }
  }

  /** The names `_preprocess_kw` produces: the alias of each given key. */
  lemma {:induction false} UnaliasKeys(keys: seq<string>, kwargs: map<string, seq<string>>, aliases: map<string, string>)
    ensures Unalias(keys, kwargs, aliases).Keys
      == set key | key in keys && key in kwargs && key in aliases :: aliases[key]
    decreases |keys|
  {
    if keys != [] {
      var front := keys[..|keys| - 1];
      var key := keys[|keys| - 1];
      assert keys == front + [key];
      UnaliasKeys(front, kwargs, aliases);
    }
  }

  /** A keyword that is neither a name nor a short name is reported, with
      every other such keyword, before anything is parsed; otherwise the
      values are bound parameter by parameter. */
  lemma UnknownKeywordsRejected(parse: Parsing, kw: seq<ParamState>, keys: seq<string>, kwargs: map<string, seq<string>>)
    ensures var unknown := set key | key in kwargs && forall i :: 0 <= i < |kw| ==> key !in Aliases(kw[i]);
      && (unknown != {} ==> BindKeywords(parse, kw, keys, kwargs) == Bound(map[], Some(RuntimeError(UnexpectedKeywords(unknown)))))
      && (unknown == {} ==> BindKeywords(parse, kw, keys, kwargs) == Keywords(parse, kw, 0, Unalias(keys, kwargs, AliasMap(kw)), map[]))
  {
    var unknown := set key | key in kwargs && forall i :: 0 <= i < |kw| ==> key !in Aliases(kw[i]);
    AliasMapEntries(kw);
    assert unknown == kwargs.Keys - AliasMap(kw).Keys;
  }

  /** Keyword binding only adds the keyword parameters' names to what was
      bound before. */
  lemma {:induction false} KeywordsKeys(parse: Parsing, kw: seq<ParamState>, i: nat, unaliased: map<string, seq<string>>, results: map<string, Value>)
    requires i <= |kw|
    ensures var b := Keywords(parse, kw, i, unaliased, results);
      b.error.None? ==> b.results.Keys == results.Keys + (set m | i <= m < |kw| :: kw[m].name)
    decreases |kw| - i
  {
    if i < |kw| {
      match KeywordValue(parse, kw[i], unaliased)
      case Err(e) =>
      case Ok(v) =>
        KeywordsKeys(parse, kw, i + 1, unaliased, results[kw[i].name := v]);
        assert (set m | i <= m < |kw| :: kw[m].name) == {kw[i].name} + (set m | i + 1 <= m < |kw| :: kw[m].name);
    }
  }

  /** When keyword binding succeeds, each keyword parameter from `i` on is
      bound to its `KeywordValue`. */
  lemma {:induction false} KeywordsValues(parse: Parsing, kw: seq<ParamState>, i: nat, unaliased: map<string, seq<string>>, results: map<string, Value>)
    requires i <= |kw|
    requires forall a, b :: 0 <= a < b < |kw| ==> kw[a].name != kw[b].name
    ensures var b := Keywords(parse, kw, i, unaliased, results);
      b.error.None? ==> forall m :: i <= m < |kw| ==>
        kw[m].name in b.results && KeywordValue(parse, kw[m], unaliased) == Ok(b.results[kw[m].name])
    decreases |kw| - i
  {
    if i < |kw| {
      match KeywordValue(parse, kw[i], unaliased)
      case Err(e) =>
      case Ok(v) =>
        var results' := results[kw[i].name := v];
        KeywordsValues(parse, kw, i + 1, unaliased, results');
        KeywordsKeep(parse, kw, i + 1, unaliased, results', kw[i].name);
    }
  }

  /** Keyword binding leaves alone every name it does not bind from `i` on. */
  lemma {:induction false} KeywordsKeep(parse: Parsing, kw: seq<ParamState>, i: nat, unaliased: map<string, seq<string>>, results: map<string, Value>, n: string)
    requires i <= |kw| && n in results
    requires forall m :: i <= m < |kw| ==> kw[m].name != n
    ensures var b := Keywords(parse, kw, i, unaliased, results);
      n in b.results && b.results[n] == results[n]
    decreases |kw| - i
  {
    if i < |kw| {
      match KeywordValue(parse, kw[i], unaliased)
      case Err(e) =>
      case Ok(v) =>
        KeywordsKeep(parse, kw, i + 1, unaliased, results[kw[i].name := v], n);
    }
  }

  /** Keyword binding gives values to the keyword parameters in order: it
      keeps what was bound before and, when it succeeds, binds every one of
      them to its `KeywordValue`. */
  lemma KeywordsBindEach(parse: Parsing, kw: seq<ParamState>, i: nat, unaliased: map<string, seq<string>>, results: map<string, Value>)
    requires i <= |kw|
    requires forall a, b :: 0 <= a < b < |kw| ==> kw[a].name != kw[b].name
    ensures var b := Keywords(parse, kw, i, unaliased, results);
      b.error.None? ==>
        && b.results.Keys == results.Keys + (set m | i <= m < |kw| :: kw[m].name)
        && (forall m :: i <= m < |kw| ==> KeywordValue(parse, kw[m], unaliased) == Ok(b.results[kw[m].name]))
        && (forall n :: n in results && (forall m :: i <= m < |kw| ==> kw[m].name != n) ==> b.results[n] == results[n])
  {
    KeywordsKeys(parse, kw, i, unaliased, results);
    KeywordsValues(parse, kw, i, unaliased, results);
    forall n | n in results && (forall m :: i <= m < |kw| ==> kw[m].name != n)
      ensures var b := Keywords(parse, kw, i, unaliased, results); n in b.results && b.results[n] == results[n]
    {
      KeywordsKeep(parse, kw, i, unaliased, results, n);
    }
  }

  /** A name is unaliased exactly when some listed, given, known key is an
      alias of it. */
  lemma {:induction false} InUnalias(keys: seq<string>, kwargs: map<string, seq<string>>, aliases: map<string, string>, n: string)
    ensures n in Unalias(keys, kwargs, aliases) <==>
      exists key :: key in keys && key in kwargs && key in aliases && aliases[key] == n
    decreases |keys|
  {
    if keys != [] {
      var front := keys[..|keys| - 1];
      var key := keys[|keys| - 1];
      assert keys == front + [key];
      InUnalias(front, kwargs, aliases, n);
    }
  }

  /** A parameter answers to its own name, and to its short name when it
      has one. */
  lemma OwnAliases(p: ParamState)
    ensures p.name in Aliases(p)
    ensures HasShort(p) ==> p.short.value in Aliases(p)
  {
  }

  /** Two keyword parameters that share a key are the same parameter. */
  lemma SharedKeySameParam(kw: seq<ParamState>, i: nat, j: nat, a: string)
    requires UniqueAliases(kw) && i < |kw| && j < |kw| && a in Aliases(kw[i]) && a in Aliases(kw[j])
    ensures i == j
  {
  }

  /** A given key of a parameter puts the parameter's name among the
      unaliased names. */
  lemma GivenKeyUnaliases(kw: seq<ParamState>, keys: seq<string>, kwargs: map<string, seq<string>>, j: nat, key: string)
    requires UniqueAliases(kw) && j < |kw| && key in keys && key in kwargs && key in Aliases(kw[j])
    ensures kw[j].name in Unalias(keys, kwargs, AliasMap(kw))
  {
    AliasOf(kw, j, key);
    InUnalias(keys, kwargs, AliasMap(kw), kw[j].name);
  }

  /** An unaliased name comes from a given key of its own parameter. */
  lemma UnaliasedNameWasGiven(kw: seq<ParamState>, keys: seq<string>, kwargs: map<string, seq<string>>, j: nat, n: string)
    requires UniqueAliases(kw) && j < |kw| && n in Unalias(keys, kwargs, AliasMap(kw))
    requires n in Aliases(kw[j])
    ensures n == kw[j].name
    ensures exists key :: key in keys && key in kwargs && key in Aliases(kw[j])
  {
    var aliases := AliasMap(kw);
    InUnalias(keys, kwargs, aliases, n);
    var key :| key in keys && key in kwargs && key in aliases && aliases[key] == n;
    AliasMapEntries(kw);
    var i :| 0 <= i < |kw| && key in Aliases(kw[i]);
    AliasOf(kw, i, key);
    OwnAliases(kw[i]);
    SharedKeySameParam(kw, i, j, n);
  }

  /** Without clashes, a keyword parameter's name is among the unaliased
      names exactly when one of its keys was given. */
  lemma NameUnaliased(kw: seq<ParamState>, keys: seq<string>, kwargs: map<string, seq<string>>, j: nat)
    requires UniqueAliases(kw) && j < |kw|
    requires forall key :: key in kwargs ==> key in keys
    ensures kw[j].name in Unalias(keys, kwargs, AliasMap(kw)) <==> exists key :: key in kwargs && key in Aliases(kw[j])
  {
    if exists key :: key in kwargs && key in Aliases(kw[j]) {
      var key :| key in kwargs && key in Aliases(kw[j]);
      GivenKeyUnaliases(kw, keys, kwargs, j, key);
    }
    if kw[j].name in Unalias(keys, kwargs, AliasMap(kw)) {
      UnaliasedNameWasGiven(kw, keys, kwargs, j, kw[j].name);
    }
  }

  /** Distinct aliases make distinct names. */
  lemma UniqueAliasesUniqueNames(kw: seq<ParamState>)
    requires UniqueAliases(kw)
    ensures forall a, b :: 0 <= a < b < |kw| ==> kw[a].name != kw[b].name
  {
    forall a, b | 0 <= a < b < |kw| ensures kw[a].name != kw[b].name {
      assert kw[a].name in Aliases(kw[a]) && kw[b].name in Aliases(kw[b]);
      assert Aliases(kw[a]) !! Aliases(kw[b]);
    }
  }

  /** A flag's value: its short name is among the unaliased names only
      when it is also its name, so presence of the name decides. */
  lemma FlagValue(parse: Parsing, kw: seq<ParamState>, keys: seq<string>, kwargs: map<string, seq<string>>, j: nat)
    requires UniqueAliases(kw) && j < |kw| && ScalarType(kw[j].parser) == BoolClass
    ensures KeywordValue(parse, kw[j], Unalias(keys, kwargs, AliasMap(kw)))
      == Ok(BoolV(kw[j].name in Unalias(keys, kwargs, AliasMap(kw))))
  {
    var p := kw[j];
    var u := Unalias(keys, kwargs, AliasMap(kw));
    if p.short.Some? && p.short.value in u {
      var aliases := AliasMap(kw);
      InUnalias(keys, kwargs, aliases, p.short.value);
      var key :| key in keys && key in kwargs && key in aliases && aliases[key] == p.short.value;
      AliasMapEntries(kw);
      var i :| 0 <= i < |kw| && key in Aliases(kw[i]);
      AliasOf(kw, i, key);
      assert p.short.value == kw[i].name && kw[i].name != "";
      OwnAliases(p);
      OwnAliases(kw[i]);
      SharedKeySameParam(kw, i, j, p.short.value);
    }
  }

  /** A `bool` keyword parameter is `True` exactly when its name or its
      short name was given. */
  lemma FlagIsPresence(parse: Parsing, kw: seq<ParamState>, keys: seq<string>, kwargs: map<string, seq<string>>, j: nat)
    requires UniqueAliases(kw) && j < |kw| && ScalarType(kw[j].parser) == BoolClass
    requires forall key :: key in kwargs ==> key in keys
    requires BindKeywords(parse, kw, keys, kwargs).error.None?
    ensures kw[j].name in BindKeywords(parse, kw, keys, kwargs).results
    ensures BindKeywords(parse, kw, keys, kwargs).results[kw[j].name]
      == BoolV(exists key :: key in kwargs && key in Aliases(kw[j]))
  {
    var u := Unalias(keys, kwargs, AliasMap(kw));
    assert BindKeywords(parse, kw, keys, kwargs) == Keywords(parse, kw, 0, u, map[]);
    UniqueAliasesUniqueNames(kw);
    KeywordsBindEach(parse, kw, 0, u, map[]);
    assert kw[j].name in (set m | 0 <= m < |kw| :: kw[m].name);
    FlagValue(parse, kw, keys, kwargs, j);
    NameUnaliased(kw, keys, kwargs, j);
  }

  // ---------------------------------------------------------------------
  // Properties of `_parse` and `update_param_typesafe`
  // ---------------------------------------------------------------------

  /** `_parse` succeeds exactly when both phases do, and then returns both
      phases' results. */
  lemma BindSucceedsWithBothPhases(parse: Parsing, ps: Params, args: seq<string>, keys: seq<string>, kwargs: map<string, seq<string>>)
    ensures Bind(parse, ps, args, keys, kwargs).Ok? <==>
      BindPositional(parse, ps.pos, args).error.None? && BindKeywords(parse, ps.kw, keys, kwargs).error.None?
    ensures Bind(parse, ps, args, keys, kwargs).Ok? ==>
      Bind(parse, ps, args, keys, kwargs).value == (BindPositional(parse, ps.pos, args).results, BindKeywords(parse, ps.kw, keys, kwargs).results)
  {
  }

  /** A positional failure is reported whatever keywords were given, and a
      `ConversionError` carries the positional values bound before it;
      other errors pass through unchanged. */
  lemma PositionalFailureComesFirst(parse: Parsing, ps: Params, args: seq<string>, keys: seq<string>, kwargs: map<string, seq<string>>,
                                    keys': seq<string>, kwargs': map<string, seq<string>>)
    requires BindPositional(parse, ps.pos, args).error.Some?
    ensures Bind(parse, ps, args, keys, kwargs) == Bind(parse, ps, args, keys', kwargs')
    ensures var e := BindPositional(parse, ps.pos, args).error.value;
      Bind(parse, ps, args, keys, kwargs) == Err(if e.ConversionError? then e.(converted := PositionalSoFar(BindPositional(parse, ps.pos, args).results)) else e)
  {
  }

  /** The parameters' names, in order. */
  function Names(ps: seq<ParamState>): (r: seq<string>)
    ensures |r| == |ps| && forall i :: 0 <= i < |ps| ==> r[i] == ps[i].name
  {
    seq(|ps|, i requires 0 <= i < |ps| => ps[i].name)
  }

  /** `update_param_typesafe` never adds, drops or renames a parameter, so
      names stay unique. */
  lemma UpdateKeepsNames(ps: Params, name: string, ov: Overrides)
    requires UniqueNames(ps)
    ensures var ps' := Update(ps, name, ov).0;
      multiset(Names(ps'.pos + ps'.kw)) == multiset(Names(ps.pos + ps.kw)) && UniqueNames(ps')
  {
    match Locate(ps, name)
    case Missing =>
    case InKeywords(j) => UpdateKeywordKeepsNames(ps, name, ov, j);
    case InPositionals(i) => UpdatePositionalKeepsNames(ps, name, ov, i);
  }

  lemma UpdateKeywordKeepsNames(ps: Params, name: string, ov: Overrides, j: nat)
    requires UniqueNames(ps) && Locate(ps, name) == InKeywords(j)
    ensures var ps' := Update(ps, name, ov).0;
      Names(ps'.pos + ps'.kw) == Names(ps.pos + ps.kw) && UniqueNames(ps')
  {
    if !BecomesFlag(ps.kw[j], ov) {
      var s := Override(ps.kw[j], ov).0;
      var all := ps.pos + ps.kw;
      assert Update(ps, name, ov).0 == ps.(kw := ps.kw[j := s]);
      assert ps.pos + ps.kw[j := s] == all[|ps.pos| + j := s];
      ReplaceKeepsNames(all, |ps.pos| + j, s);
    }
  }

  lemma UpdatePositionalKeepsNames(ps: Params, name: string, ov: Overrides, i: nat)
    requires UniqueNames(ps) && Locate(ps, name) == InPositionals(i)
    ensures var ps' := Update(ps, name, ov).0;
      multiset(Names(ps'.pos + ps'.kw)) == multiset(Names(ps.pos + ps.kw)) && UniqueNames(ps')
  {
    if BecomesFlag(ps.pos[i], ov) {
      UpdateMovedKeepsNames(ps, name, ov, i);
    } else {
      UpdateReplacedKeepsNames(ps, name, ov, i);
    }
  }

  /** A positional that becomes a flag moves to the end of the keyword
      parameters. */
  lemma UpdateMovedKeepsNames(ps: Params, name: string, ov: Overrides, i: nat)
    requires UniqueNames(ps) && Locate(ps, name) == InPositionals(i) && BecomesFlag(ps.pos[i], ov)
    ensures var ps' := Update(ps, name, ov).0;
      multiset(Names(ps'.pos + ps'.kw)) == multiset(Names(ps.pos + ps.kw)) && UniqueNames(ps')
  {
    var s := Override(ps.pos[i], ov).0;
    var all := ps.pos + ps.kw;
    UpdatePositionalShape(ps, name, ov, i);
    ConcatMove(ps.pos, ps.kw, i, s);
    MoveKeepsNames(all, i, s);
    MoveKeepsDistinct(all, i, s);
  }

  /** Any other positional is renewed where it stands. */
  lemma UpdateReplacedKeepsNames(ps: Params, name: string, ov: Overrides, i: nat)
    requires UniqueNames(ps) && Locate(ps, name) == InPositionals(i) && !BecomesFlag(ps.pos[i], ov)
    ensures var ps' := Update(ps, name, ov).0;
      Names(ps'.pos + ps'.kw) == Names(ps.pos + ps.kw) && UniqueNames(ps')
  {
    var s := Override(ps.pos[i], ov).0;
    UpdatePositionalShape(ps, name, ov, i);
    ConcatReplace(ps.pos, ps.kw, i, s);
    ReplaceKeepsNames(ps.pos + ps.kw, i, s);
  }

  /** What `update_param_typesafe` does to the lists once the name is found
      among the positionals. */
  lemma UpdatePositionalShape(ps: Params, name: string, ov: Overrides, i: nat)
    requires UniqueNames(ps) && Locate(ps, name) == InPositionals(i)
    ensures var s := Override(ps.pos[i], ov).0;
      Update(ps, name, ov).0 ==
        if BecomesFlag(ps.pos[i], ov) then Params(ps.pos[..i] + ps.pos[i + 1..], ps.kw + [s])
        else ps.(pos := ps.pos[i := s])
  {
  }

  lemma ConcatReplace<T>(a: seq<T>, b: seq<T>, i: nat, x: T)
    requires i < |a|
    ensures a[i := x] + b == (a + b)[i := x]
  {
  }

  lemma ConcatMove<T>(a: seq<T>, b: seq<T>, i: nat, x: T)
    requires i < |a|
    ensures a[..i] + a[i + 1..] + (b + [x]) == (a + b)[..i] + (a + b)[i + 1..] + [x]
  {
    assert (a + b)[..i] == a[..i];
    assert (a + b)[i + 1..] == a[i + 1..] + b;
  }

  lemma NamesOfConcat(a: seq<ParamState>, b: seq<ParamState>)
    ensures Names(a + b) == Names(a) + Names(b)
  {
    assert Names(a + b) == Names(a) + Names(b);
  }

  /** Replacing a parameter by one with the same name keeps the names. */
  lemma ReplaceKeepsNames(all: seq<ParamState>, i: nat, s: ParamState)
    requires i < |all| && s.name == all[i].name && DistinctNames(all)
    ensures Names(all[i := s]) == Names(all) && DistinctNames(all[i := s])
  {
  }

  /** Moving a parameter (renewed, same name) to the end keeps the
      multiset of names ... */
  lemma MoveKeepsNames(all: seq<ParamState>, i: nat, s: ParamState)
    requires i < |all| && s.name == all[i].name
    ensures multiset(Names(all[..i] + all[i + 1..] + [s])) == multiset(Names(all))
  {
    var front, back := all[..i], all[i + 1..];
    var n := all[i].name;
    var moved := Names(front) + Names(back) + [n];
    var kept := Names(front) + [n] + Names(back);
    assert Names(front + back + [s]) == moved by {
      assert Names([s]) == [n];
      NamesOfConcat(front + back, [s]);
      NamesOfConcat(front, back);
    }
    assert Names(all) == kept by {
      assert all == front + [all[i]] + back;
      assert Names([all[i]]) == [n];
      NamesOfConcat(front + [all[i]], back);
      NamesOfConcat(front, [all[i]]);
    }
    assert multiset(moved) == multiset(kept) by {
      assert multiset(moved) == multiset(Names(front)) + multiset(Names(back)) + multiset([n]);
      assert multiset(kept) == multiset(Names(front)) + multiset([n]) + multiset(Names(back));
    }
  }

  /** ... and their distinctness. */
  lemma MoveKeepsDistinct(all: seq<ParamState>, i: nat, s: ParamState)
    requires i < |all| && s.name == all[i].name && DistinctNames(all)
    ensures DistinctNames(all[..i] + all[i + 1..] + [s])
  {
    var rest := all[..i] + all[i + 1..];
    var moved := rest + [s];
    forall a, b | 0 <= a < b < |moved|
      ensures moved[a].name != moved[b].name
    {
      var a0 := if a < i then a else a + 1;
      var b0 := if b < |rest| then (if b < i then b else b + 1) else i;
      assert moved[a].name == all[a0].name;
      assert moved[b].name == all[b0].name;
    }
  }

  /** An update with nothing to override changes nothing. */
  lemma UpdateWithoutOverrides(ps: Params, name: string)
    requires UniqueNames(ps) && !Locate(ps, name).Missing?
    ensures Update(ps, name, NoOverrides) == (ps, None)
  {
    match Locate(ps, name)
    case InKeywords(j) =>
      assert ps.kw[j := ps.kw[j]] == ps.kw;
    case InPositionals(i) =>
      assert ps.pos[i := ps.pos[i]] == ps.pos;
  }

  /** `flag=True` moves a positional parameter to the keyword parameters,
      but `override_typesafe` only validates `flag` and never assigns it:
      without a short name the moved parameter is still not a flag. */
  lemma FlagOverrideDoesNotMakeAFlag(ps: Params, name: string, ov: Overrides)
    requires UniqueNames(ps) && Locate(ps, name).InPositionals?
    requires ov.flag == Some(true) && ov.short.None? && BecomesFlag(ps.pos[Locate(ps, name).i], ov)
    ensures var ps' := Update(ps, name, ov).0;
      |ps'.kw| == |ps.kw| + 1 && |ps'.pos| + 1 == |ps.pos|
      && ps'.kw[|ps.kw|].name == name && !IsFlag(ps'.kw[|ps.kw|])
  {
  }

  /** As written, every update of an existing parameter fails: the lookup
      and the move happen, no attribute changes. */
  lemma UpdateAsWrittenAlwaysFails(ps: Params, name: string, ov: Overrides)
    requires UniqueNames(ps)
    ensures UpdateAsWritten(ps, name, ov).1.Some?
    ensures !Locate(ps, name).Missing? && !(Locate(ps, name).InKeywords? && BecomesFlag(ps.kw[Locate(ps, name).j], ov)) ==>
      UpdateAsWritten(ps, name, ov).1 == Some(TypeError(UnexpectedKeywordArgument("container_parser")))
    ensures multiset(UpdateAsWritten(ps, name, ov).0.pos + UpdateAsWritten(ps, name, ov).0.kw) == multiset(ps.pos + ps.kw)
  {
    match Locate(ps, name)
    case Missing =>
    case InKeywords(j) =>
    case InPositionals(i) =>
      if BecomesFlag(ps.pos[i], ov) {
        assert ps.pos == ps.pos[..i] + [ps.pos[i]] + ps.pos[i + 1..];
      }
  }

  /** The documented way to turn a positional parameter into a flag fails
      as written and works once the container override is forwarded. */
  lemma UpdateDiscrepancy(s: ParamState)
    requires s == ParamState("verbose", BoolParser, None, UnpackParser, None, false, false)
    ensures UpdateAsWritten(Params([s], []), "verbose", NoOverrides.(short := Some("v"))).1
      == Some(TypeError(UnexpectedKeywordArgument("container_parser")))
    ensures Update(Params([s], []), "verbose", NoOverrides.(short := Some("v")))
      == (Params([], [s.(short := Some("v"))]), None)
  {
    var ov := NoOverrides.(short := Some("v"));
    assert Locate(Params([s], []), "verbose") == InPositionals(0);
    assert BecomesFlag(s, ov);
    assert Override(s, ov) == (s.(short := Some("v")), None);
    assert [s][..0] + [s][1..] == [];
    assert [] + [s.(short := Some("v"))] == [s.(short := Some("v"))];
  }
}
