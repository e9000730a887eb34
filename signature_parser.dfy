/** `SignatureParser` (sail/impl/signature_parser.py) as a class over
    `ParamInfo` objects. Every method runs the loops of the Python code and
    is proved to compute the function of the same name in Binding, where
    the binder's properties are proved. */
module SignatureParsers {
  import opened Wrappers
  import opened Errors
  import opened Strings
  import opened ArgumentParsers
  import opened ParamInfos
  import opened Tokenizer
  import opened Binding

  /** The states of a list of `ParamInfo` objects. */
  function States(ps: seq<ParamInfo>): (r: seq<ParamState>)
    reads set p | p in ps
    ensures |r| == |ps| && forall i :: 0 <= i < |ps| ==> r[i] == ps[i].State()
  {
    seq(|ps|, i requires 0 <= i < |ps| reads ps => ps[i].State())
  }

  /** With unique names no `ParamInfo` object is in the lists twice. */
  lemma ParamsDistinct(pos: seq<ParamInfo>, kw: seq<ParamInfo>)
    requires UniqueNames(Params(States(pos), States(kw)))
    ensures forall a, b :: 0 <= a < |pos| && 0 <= b < |pos| && a != b ==> pos[a] != pos[b]
    ensures forall a, b :: 0 <= a < |kw| && 0 <= b < |kw| && a != b ==> kw[a] != kw[b]
    ensures forall a, b :: 0 <= a < |pos| && 0 <= b < |kw| ==> pos[a] != kw[b]
  {
    var all := States(pos) + States(kw);
    forall a, b | 0 <= a < |pos| && 0 <= b < |pos| && a != b ensures pos[a] != pos[b] {
      assert all[a] == pos[a].State() && all[b] == pos[b].State();
      assert all[a].name != all[b].name;
    }
    forall a, b | 0 <= a < |kw| && 0 <= b < |kw| && a != b ensures kw[a] != kw[b] {
      assert all[|pos| + a] == kw[a].State() && all[|pos| + b] == kw[b].State();
      assert all[|pos| + a].name != all[|pos| + b].name;
    }
    forall a, b | 0 <= a < |pos| && 0 <= b < |kw| ensures pos[a] != kw[b] {
      assert all[a] == pos[a].State() && all[|pos| + b] == kw[b].State();
      assert all[a].name != all[|pos| + b].name;
    }
  }

  /** What a string parser hands the binder: positional tokens and a
      mapping from flag names (in insertion order) to their values. */
  type KeyedTokens = t: Tokens | WellKeyed(t.keys, t.kwargs) witness Tokens([], [], map[])

  /** `parse_content` as a string parser callback. */
  function ParseContentCallback(content: string): (r: Result<KeyedTokens, Error>)
    ensures r.Ok? <==> Tokenize(content).Ok?
    ensures r.Ok? ==> r.value == Tokenize(content).value
  {
    TokenizeIsWellKeyed(content);
    match Tokenize(content)
    case Err(e) => Err(e)
    case Ok(t) => Ok(t)
  }

  class SignatureParser {
    /** `_pos_params`, in order. */
    var posParams: seq<ParamInfo>
    /** The values of `_kw_params` in insertion order; the key of each entry
        is its parameter's name. */
    var kwParams: seq<ParamInfo>
    /** `string_parser` */
    var stringParser: string -> Result<KeyedTokens, Error>

    /** The parameter states both lists hold. */
    function Model(): Params
      reads this, set p | p in posParams, set p | p in kwParams
    {
      Params(States(posParams), States(kwParams))
    }

    /** Names are unique across both lists, as in one Python signature (and
        keyword entries are keyed by name); so no object appears twice. */
    predicate Valid()
      reads this, set p | p in posParams, set p | p in kwParams
    {
      UniqueNames(Model())
    }

    /** `SignatureParser(pos_params, kw_params, string_parser)` */
    constructor (pos: seq<ParamInfo>, kw: seq<ParamInfo>, sp: string -> Result<KeyedTokens, Error>)
      ensures posParams == pos && kwParams == kw && stringParser == sp
    {
      posParams, kwParams, stringParser := pos, kw, sp;
    }

    /** `alias_map` */
    method BuildAliasMap() returns (aliases: map<string, string>)
      ensures aliases == AliasMap(States(kwParams))
    {
      ghost var kw := States(kwParams);
      aliases := map[];
      var i := 0;
      while i < |kwParams|
        invariant 0 <= i <= |kwParams|
        invariant aliases == AliasMap(kw[..i])
      {
        var param := kwParams[i];
        ghost var before := aliases;
        aliases := aliases[param.name := param.name];
        if param.short.Some? && param.short.value != "" {
          aliases := aliases[param.short.value := param.name];
        }
        assert aliases == AddAliases(before, kw[i]) by {
          assert kw[i] == param.State();
        }
        AliasMapStep(kw, i);
        i := i + 1;
      }
      assert kw[..|kwParams|] == kw;
    }

    /** `update_param_typesafe(name, ...)`: find the parameter by key in
        `_kw_params`, else as the first positional with that name; move a
        positional that becomes a flag to the keyword parameters; then
        override it in place. */
    method UpdateParamTypesafe(name: string, ov: Overrides) returns (err: Option<Error>)
      requires Valid()
      modifies this, set p | p in posParams, set p | p in kwParams
      ensures Valid()
      ensures (Model(), err) == Update(old(Model()), name, ov)
    {
      ghost var ps := Model();
      UpdateKeepsNames(ps, name, ov);
      var j := IndexOf(States(kwParams), name);
      if j.Some? {
        assert Locate(ps, name) == InKeywords(j.value);
        err := UpdateKeyword(name, j.value, ov);
        return;
      }
      var i := FindPositional(name);
      if i == |posParams| {
        return Some(NameError(name));
      }
      err := UpdatePositional(name, i, ov);
    }

    /** The `for existing in self._pos_params` search of
        `update_param_typesafe`: the first positional called `name`, or the
        number of positionals when there is none. */
    method FindPositional(name: string) returns (i: nat)
      ensures i <= |posParams|
      ensures i == |posParams| <==> IndexOf(States(posParams), name).None?
      ensures i < |posParams| ==> IndexOf(States(posParams), name) == Some(i)
    {
      ghost var pos := States(posParams);
      i := 0;
      while i < |posParams| && posParams[i].name != name
        invariant i <= |posParams|
        invariant forall m :: 0 <= m < i ==> pos[m].name != name
      {
        assert pos[i] == posParams[i].State();
        i := i + 1;
      }
      if i < |posParams| {
        assert pos[i].name == name;
      }
    }

    /** The keyword branch of `update_param_typesafe`. */
    method UpdateKeyword(name: string, j: nat, ov: Overrides) returns (err: Option<Error>)
      requires Valid() && Locate(Model(), name) == InKeywords(j)
      modifies kwParams[j]
      ensures (Model(), err) == Update(old(Model()), name, ov)
    {
      var existing := kwParams[j];
      ghost var pos, kw := States(posParams), States(kwParams);
      ParamsDistinct(posParams, kwParams);
      if !IsFlag(existing.State()) && (ov.flag == Some(true) || (ov.short.Some? && ov.short.value != "")) {
        // `_pos_params.remove(existing)` raises: with unique names no
        // positional equals a keyword parameter.
        assert forall m :: 0 <= m < |posParams| ==> posParams[m].State() != existing.State() by {
          forall m | 0 <= m < |posParams| ensures posParams[m].State() != existing.State() {
            assert (pos + kw)[m] == pos[m] && (pos + kw)[|pos| + j] == kw[j];
          }
        }
        return Some(ValueError(NotInList));
      }
      err := existing.OverrideTypesafe(ov);
      assert States(posParams) == pos;
      assert States(kwParams) == kw[j := existing.State()];
    }

    /** The positional branch of `update_param_typesafe`. */
    method UpdatePositional(name: string, i: nat, ov: Overrides) returns (err: Option<Error>)
      requires Valid() && Locate(Model(), name) == InPositionals(i)
      modifies this, posParams[i]
      ensures (Model(), err) == Update(old(Model()), name, ov)
    {
      ghost var ps := Model();
      var existing := posParams[i];
      if !IsFlag(existing.State()) && (ov.flag == Some(true) || (ov.short.Some? && ov.short.value != "")) {
        err := MovePositional(i, ov);
      } else {
        err := OverridePositional(i, ov);
      }
    }

    /** A positional that becomes a flag: `list.remove` drops the first
        equal element, which is the parameter itself since names are
        unique; it is then added as the last keyword parameter and
        overridden. */
    method MovePositional(i: nat, ov: Overrides) returns (err: Option<Error>)
      requires Valid() && i < |posParams|
      modifies this, posParams[i]
      ensures var s := old(States(posParams));
        && Model() == Params(s[..i] + s[i + 1..], old(States(kwParams)) + [Override(s[i], ov).0])
        && err == Override(s[i], ov).1
    {
      var existing := posParams[i];
      ghost var pos, kw := States(posParams), States(kwParams);
      ParamsDistinct(posParams, kwParams);
      assert forall m :: 0 <= m < i ==> posParams[m].State() != existing.State() by {
        forall m | 0 <= m < i ensures posParams[m].State() != existing.State() {
          assert (pos + kw)[m] == pos[m] && (pos + kw)[i] == pos[i];
        }
      }
      var rest := posParams[..i] + posParams[i + 1..];
      assert forall m :: 0 <= m < |rest| ==> rest[m] != existing by {
        forall m | 0 <= m < |rest| ensures rest[m] != existing {
          if m < i { assert rest[m] == posParams[m]; } else { assert rest[m] == posParams[m + 1]; }
        }
      }
      posParams := rest;
      kwParams := kwParams + [existing];
      err := existing.OverrideTypesafe(ov);
      assert States(posParams) == pos[..i] + pos[i + 1..];
      assert States(kwParams) == kw + [existing.State()];
    }

    /** Any other positional is overridden where it stands. */
    method OverridePositional(i: nat, ov: Overrides) returns (err: Option<Error>)
      requires Valid() && i < |posParams|
      modifies posParams[i]
      ensures var s := old(States(posParams));
        && Model() == Params(s[i := Override(s[i], ov).0], old(States(kwParams)))
        && err == Override(s[i], ov).1
    {
      var existing := posParams[i];
      ghost var pos, kw := States(posParams), States(kwParams);
      ParamsDistinct(posParams, kwParams);
      err := existing.OverrideTypesafe(ov);
      assert States(posParams) == pos[i := existing.State()];
      assert States(kwParams) == kw;
    }

    /** `_consume_greedy_pos`, reading `args` from index `k`. */
    method ConsumeGreedyPos(args: seq<string>, k: nat, param: ParamInfo, nextParam: ParamInfo, carry: seq<Value>)
      returns (r: Result<Step, Error>)
      requires k <= |args|
      ensures r == Greedy(ParamParse, args, k, param.State(), nextParam.State(), carry)
    {
      ghost var p, next := param.State(), nextParam.State();
      var i, c := k, carry;
      while i < |args|
        invariant k <= i <= |args|
        invariant Greedy(ParamParse, args, i, p, next, c) == Greedy(ParamParse, args, k, p, next, carry)
        decreases |args| - i
      {
        var v := Parse(param.parser, args[i], None);
        if v.Err? {
          var result := ParseContainer(param.container, c, None);
          if result.Err? {
            return Err(result.error);
          }
          var nv := Parse(nextParam.parser, args[i], None);
          if nv.Err? {
            return Err(nv.error);
          }
          return Ok(Step(result.value, i + 1, [nv.value]));
        }
        c := c + [v.value];
        i := i + 1;
      }
      var result := ParseContainer(param.container, c, None);
      if result.Err? {
        return Err(result.error);
      }
      return Ok(Step(result.value, i, []));
    }

    /** `_consume_nongreedy_pos`, reading `args` from index `k`. */
    method ConsumeNongreedyPos(args: seq<string>, k: nat, param: ParamInfo, nextParam: ParamInfo, carry: seq<Value>)
      returns (r: Result<Step, Error>)
      requires k <= |args|
      ensures r == NonGreedy(ParamParse, args, k, param.State(), nextParam.State(), carry)
    {
      ghost var p, next := param.State(), nextParam.State();
      if k == |args| {
        return Err(StopIteration);
      }
      var first := Parse(param.parser, args[k], None);
      if first.Err? {
        return Err(first.error);
      }
      var i, c := k + 1, carry + [first.value];
      while i < |args|
        invariant k < i <= |args|
        invariant NonGreedyRest(ParamParse, args, i, p, next, c) == NonGreedy(ParamParse, args, k, p, next, carry)
        decreases |args| - i
      {
        var nextValue := Parse(nextParam.parser, args[i], None);
        if nextValue.Ok? {
          var result := ParseContainer(param.container, c, None);
          if result.Err? {
            return Err(result.error);
          }
          return Ok(Step(result.value, i + 1, [nextValue.value]));
        }
        var v := Parse(param.parser, args[i], None);
        if v.Err? {
          return Err(v.error);
        }
        c := c + [v.value];
        i := i + 1;
      }
      var result := ParseContainer(param.container, c, None);
      if result.Err? {
        return Err(result.error);
      }
      return Ok(Step(result.value, i, []));
    }

    /** `_consume_remaining_pos`, reading `args` from index `k`. */
    method ConsumeRemainingPos(args: seq<string>, k: nat, param: ParamInfo, carry: seq<Value>)
      returns (r: Result<Step, Error>)
      requires k <= |args|
      ensures r == Remaining(ParamParse, args, k, param.State(), carry)
    {
      ghost var p := param.State();
      var i, c := k, carry;
      while i < |args|
        invariant k <= i <= |args|
        invariant Remaining(ParamParse, args, i, p, c) == Remaining(ParamParse, args, k, p, carry)
        decreases |args| - i
      {
        var v := Parse(param.parser, args[i], None);
        if v.Err? {
          return Err(v.error);
        }
        c := c + [v.value];
        i := i + 1;
      }
      var result := ParseContainer(param.container, c, None);
      if result.Err? {
        return Err(result.error);
      }
      return Ok(Step(result.value, i, c));
    }

    /** `_try_default_pos` */
    method TryDefaultPos(param: ParamInfo) returns (r: Result<Value, Error>)
      ensures r == TryDefault(param.State())
    {
      if param.default.None? {
        return Err(RuntimeError(RequiredNotSupplied(param.name)));
      }
      r := ParseContainer(param.container, [param.default.value], None);
    }

    /** One iteration of the first loop of `_parse_pos`, for parameter `i`
        with the tokens from `k` on: the value bound and where reading goes
        on, whether the loop breaks, or the exception raised. */
    method PositionalTurn(args: seq<string>, i: nat, k: nat, carry: seq<Value>) returns (t: Turn)
      requires i < |posParams| && k <= |args|
      ensures t == PositionalStep(ParamParse, States(posParams), i, args, k, carry)
    {
      ghost var ps := States(posParams);
      var param := posParams[i];
      assert param.State() == ps[i];
      if param.greedy || !param.container.UnpackParser? {
        if i + 1 >= |posParams| {
          var st := ConsumeRemainingPos(args, k, param, carry);
          assert States(posParams) == ps;
          t := if st.Err? then Stop(st.error) else Last(st.value.value, st.value.next);
        } else {
          assert posParams[i + 1].State() == ps[i + 1];
          var st;
          if param.greedy {
            st := ConsumeGreedyPos(args, k, param, posParams[i + 1], carry);
          } else {
            st := ConsumeNongreedyPos(args, k, param, posParams[i + 1], carry);
          }
          assert States(posParams) == ps;
          t := if st.Err? then Stop(st.error) else Next(st.value.value, st.value.next, st.value.carry);
        }
      } else if carry != [] {
        t := Next(carry[0], k, []);
      } else if k < |args| {
        var v := Parse(param.parser, args[k], None);
        t := if v.Err? then Stop(v.error) else Next(v.value, k + 1, []);
      } else {
        var d := TryDefaultPos(param);
        assert States(posParams) == ps;
        t := if d.Err? then Stop(d.error) else Last(d.value, k);
      }
    }

    /** `_parse_pos(args, [])`: the values bound so far and the exception
        raised, if any. */
    method ParsePos(args: seq<string>) returns (b: Bound<seq<Value>>)
      ensures b == BindPositional(ParamParse, States(posParams), args)
    {
      ghost var ps := States(posParams);
      var n := |posParams|;
      var i := 0;
      var k: nat := 0;
      var carry: seq<Value> := [];
      var results: seq<Value> := [];
      var broke := false;
      while i < n && !broke
        invariant 0 <= i <= n && k <= |args|
        invariant !broke ==> Positional(ParamParse, ps, i, args, k, carry, results) == BindPositional(ParamParse, ps, args)
        invariant broke ==> Defaults(ps, i, args, k, results) == BindPositional(ParamParse, ps, args)
        decreases n - i, if broke then 0 else 1
      {
        var t := PositionalTurn(args, i, k, carry);
        assert t == PositionalStep(ParamParse, ps, i, args, k, carry);
        match t {
          case Stop(e) =>
            return Bound(results, Some(e));
          case Last(v, next) =>
            results, k, broke := results + [v], next, true;
          case Next(v, next, c) =>
            results, k, carry := results + [v], next, c;
        }
        i := i + 1;
      }
      assert Defaults(ps, i, args, k, results) == BindPositional(ParamParse, ps, args);
      b := DefaultsPos(args, i, k, results);
      assert States(posParams) == ps;
    }

    /** The end of `_parse_pos`: parameters from `i` on take their defaults,
        then the tokens from `k` on must all have been read. */
    method DefaultsPos(args: seq<string>, i: nat, k: nat, results: seq<Value>) returns (b: Bound<seq<Value>>)
      requires i <= |posParams| && k <= |args|
      ensures b == Defaults(States(posParams), i, args, k, results)
    {
      ghost var ps := States(posParams);
      var j, bound := i, results;
      while j < |posParams|
        invariant i <= j <= |posParams|
        invariant Defaults(ps, j, args, k, bound) == Defaults(ps, i, args, k, results)
      {
        var d := TryDefaultPos(posParams[j]);
        assert posParams[j].State() == ps[j];
        if d.Err? {
          return Bound(bound, Some(d.error));
        }
        bound := bound + [d.value];
        j := j + 1;
      }
      var remaining := Join("', '", args[k..]);
      if remaining != "" {
        return Bound(bound, Some(RuntimeError(TooManyPositional(remaining))));
      }
      return Bound(bound, None);
    }

    /** `_preprocess_kw`: each given value list under the name its key is an
        alias of, in insertion order. Every key is known to the alias map:
        `_parse_kw` has checked that before the call. */
    method PreprocessKw(keys: seq<string>, kwargs: map<string, seq<string>>, aliases: map<string, string>)
      returns (unaliased: map<string, seq<string>>)
      requires WellKeyed(keys, kwargs) && kwargs.Keys <= aliases.Keys
      ensures unaliased == Unalias(keys, kwargs, aliases)
    {
      unaliased := map[];
      var i := 0;
      while i < |keys|
        invariant 0 <= i <= |keys|
        invariant unaliased == Unalias(keys[..i], kwargs, aliases)
      {
        var key := keys[i];
        assert key in kwargs && key in aliases;
        assert keys[..i + 1][..i] == keys[..i] && keys[..i + 1][i] == key;
        unaliased := unaliased[aliases[key] := kwargs[key]];
        i := i + 1;
      }
      assert keys[..|keys|] == keys;
    }

    /** The inner loop of `_parse_kw`: every value given for `param`,
        parsed in order; the first that fails raises. */
    method ParseValues(param: ParamInfo, vals: seq<string>) returns (r: Result<seq<Value>, Error>)
      ensures r == ParseAll(ParamParse, param.State(), vals)
    {
      ghost var p := param.State();
      var carry: seq<Value> := [];
      var j := 0;
      assert vals[..0] == [];
      while j < |vals|
        invariant 0 <= j <= |vals|
        invariant ParseAll(ParamParse, p, vals[..j]) == Ok(carry)
      {
        var v := Parse(param.parser, vals[j], None);
        if v.Err? {
          ParseAllFirstError(ParamParse, p, vals, j);
          return Err(v.error);
        }
        ParseAllExtends(ParamParse, p, vals, j, v.value);
        carry := carry + [v.value];
        j := j + 1;
      }
      assert vals[..j] == vals;
      return Ok(carry);
    }

    /** The body of the loop of `_parse_kw` for one keyword parameter,
        against the unaliased values: the value bound under its name, or
        the exception raised. */
    method KeywordValueOf(param: ParamInfo, u: map<string, seq<string>>) returns (r: Result<Value, Error>)
      ensures r == KeywordValue(ParamParse, param.State(), u)
    {
      if ScalarType(param.parser) == BoolClass {
        return Ok(BoolV((param.short.Some? && param.short.value in u) || param.name in u));
      }
      if param.name !in u {
        return Err(KeyError(param.name));
      }
      var vals := u[param.name];
      var carry := ParseValues(param, vals);
      if carry.Err? {
        r := Err(carry.error);
      } else if !param.container.UnpackParser? {
        r := ParseContainer(param.container, carry.value, None);
      } else if |carry.value| > 1 {
        r := Err(RuntimeError(MoreThanOneValue(param.name, vals)));
      } else if carry.value == [] {
        r := Err(IndexError);
      } else {
        r := Ok(carry.value[0]);
      }
    }

    /** `_parse_kw(kwargs, {})`: the keys are checked against the alias
        map and unaliased, then each keyword parameter is bound. */
    method ParseKw(keys: seq<string>, kwargs: map<string, seq<string>>) returns (b: Bound<map<string, Value>>)
      requires WellKeyed(keys, kwargs)
      ensures b == BindKeywords(ParamParse, States(kwParams), keys, kwargs)
    {
      ghost var kw := States(kwParams);
      var aliases := BuildAliasMap();
      assert States(kwParams) == kw;
      if !(kwargs.Keys <= aliases.Keys) {
        return Bound(map[], Some(RuntimeError(UnexpectedKeywords(kwargs.Keys - aliases.Keys))));
      }
      var u := PreprocessKw(keys, kwargs, aliases);
      assert u == Unalias(keys, kwargs, AliasMap(kw));
      b := BindEachKeyword(u);
      assert States(kwParams) == kw;
    }

    /** The loop of `_parse_kw` over `_kw_params`. */
    method BindEachKeyword(u: map<string, seq<string>>) returns (b: Bound<map<string, Value>>)
      ensures b == Keywords(ParamParse, States(kwParams), 0, u, map[])
    {
      ghost var kw := States(kwParams);
      var results: map<string, Value> := map[];
      var i := 0;
      while i < |kwParams|
        invariant 0 <= i <= |kwParams|
        invariant Keywords(ParamParse, kw, i, u, results) == Keywords(ParamParse, kw, 0, u, map[])
      {
        var param := kwParams[i];
        assert param.State() == kw[i];
        var v := KeywordValueOf(param, u);
        assert v == KeywordValue(ParamParse, kw[i], u);
        if v.Err? {
          return Bound(results, Some(v.error));
        }
        results := results[param.name := v.value];
        i := i + 1;
      }
      return Bound(results, None);
    }

    /** `_parse(args, kwargs)`: the positional values, then the keyword
        values; a conversion error carries what was bound so far. */
    method ParseTokens(args: seq<string>, keys: seq<string>, kwargs: map<string, seq<string>>)
      returns (r: Result<(seq<Value>, map<string, Value>), Error>)
      requires WellKeyed(keys, kwargs)
      ensures r == Bind(ParamParse, Model(), args, keys, kwargs)
    {
      var pos := ParsePos(args);
      if pos.error.Some? {
        return Err(Attach(pos.error.value, PositionalSoFar(pos.results)));
      }
      var kws := ParseKw(keys, kwargs);
      if kws.error.Some? {
        return Err(Attach(kws.error.value, KeywordSoFar(kws.results)));
      }
      return Ok((pos.results, kws.results));
    }

    /** `parse(invocation)`: split the invocation with the string parser,
        then bind. */
    method ParseInvocation(invocation: string) returns (r: Result<(seq<Value>, map<string, Value>), Error>)
      ensures stringParser(invocation).Err? ==> r == Err(stringParser(invocation).error)
      ensures stringParser(invocation).Ok? ==>
        var t := stringParser(invocation).value;
        r == Bind(ParamParse, Model(), t.args, t.keys, t.kwargs)
    {
      var t := stringParser(invocation);
      if t.Err? {
        return Err(t.error);
      }
      r := ParseTokens(t.value.args, t.value.keys, t.value.kwargs);
    }
  }
}
