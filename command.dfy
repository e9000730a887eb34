/** `Command` (sail/impl/command.py): a callback with its name, description,
    aliases and string parser, and the signature parser `validate_params`
    builds from the callback's parameters. */
module Commands {
  import opened Wrappers
  import opened Errors
  import opened ParamInfos
  import opened Tokenizer
  import opened Binding
  import opened SignatureParsers

  const DefaultDescription: string := "No description provided."

  /** A command callback as the core sees it: its `__name__`, its `__doc__`
      and the parameters `inspect.signature` reports, in declaration order. */
  datatype Callback = Callback(name: string, doc: Option<string>, params: seq<Parameter>)

  /** Parameter names in one Python signature are distinct. */
  predicate DistinctParams(ps: seq<Parameter>) {
    forall i, j :: 0 <= i < j < |ps| ==> ps[i].name != ps[j].name
  }

  /** The `aliases=` argument: `None`, a single string, or a collection. */
  datatype AliasesArg = NoAliases | OneAlias(alias: string) | ManyAliases(aliases: seq<string>)

  /** `given or fallback` for an optional string. */
  function OrElse(given: Option<string>, fallback: string): string {
    if given.Some? && given.value != "" then given.value else fallback
  }

  /** `name or callback.__name__` */
  function CommandName(given: Option<string>, cb: Callback): (r: string)
    ensures r == cb.name || (given == Some(r) && r != "")
    ensures given.Some? && given.value != "" ==> r == given.value
  {
    OrElse(given, cb.name)
  }

  /** `description or callback.__doc__ or "No description provided."`: a
      description is never empty. */
  function CommandDescription(given: Option<string>, cb: Callback): (r: string)
    ensures r != ""
    ensures r == DefaultDescription || (given == Some(r) || cb.doc == Some(r))
    ensures (given.None? || given == Some("")) && (cb.doc.None? || cb.doc == Some("")) ==> r == DefaultDescription
  {
    OrElse(given, OrElse(cb.doc, DefaultDescription))
  }

  /** The alias normalisation of `__init__`: falsy becomes `[]`, a string
      becomes a one-element list, anything else is kept. */
  function NormaliseAliases(a: AliasesArg): seq<string> {
    match a
    case NoAliases => []
    case OneAlias(s) => if s == "" then [] else [s]
    case ManyAliases(xs) => xs
  }

  /** The aliases are exactly the names given, in the order given; a single
      string is one alias, not one per character. */
  lemma AliasesAreGiven(a: AliasesArg)
    ensures forall x :: x in NormaliseAliases(a) <==>
      ((a.OneAlias? && x == a.alias && x != "") || (a.ManyAliases? && x in a.aliases))
    ensures a.OneAlias? ==> |NormaliseAliases(a)| <= 1
    ensures a.ManyAliases? ==> NormaliseAliases(a) == a.aliases
  {
  }

  /** The check on the first parameter: its annotation must be a subclass
      of `Context`. The comparison with the module `empty` never holds, so
      an unannotated parameter (annotated `inspect.Parameter.empty`) fails
      too; a non-class annotation makes `issubclass` raise. */
  function ContextCheck(p: Parameter): (r: Option<Error>)
    ensures r.None? <==> p.annotation.Plain? && IsSubclass(p.annotation.cls, ContextClass)
    ensures r.Some? ==> r.value.TypeError?
  {
    match p.annotation
    case Plain(c) => if IsSubclass(c, ContextClass) then None else Some(TypeError(FirstParamNotContext))
    case _ => Some(TypeError(NotAClass))
  }

  /** How one parameter becomes a `ParamInfo` state (`from_parameter`,
      that is `DeriveParam`; the split below holds for any such function). */
  type Derivation = Parameter -> Result<ParamState, Error>

  /** Keyword-only parameters go to `kw_params`, all others to
      `pos_params`. */
  function Place(front: Params, p: Parameter, s: ParamState): (r: Params)
    ensures p.kind == KeywordOnly ==> r.pos == front.pos && r.kw == front.kw + [s]
    ensures p.kind != KeywordOnly ==> r.pos == front.pos + [s] && r.kw == front.kw
  {
    if p.kind == KeywordOnly then front.(kw := front.kw + [s]) else front.(pos := front.pos + [s])
  }

  /** The loop of `validate_params` over the parameters after the context:
      each is derived in order and placed; the first failure is raised. */
  function SplitParams(derive: Derivation, ps: seq<Parameter>): Result<Params, Error>
    decreases |ps|
  {
    if ps == [] then Ok(Params([], []))
    else
      var front :- SplitParams(derive, ps[..|ps| - 1]);
      var s :- derive(ps[|ps| - 1]);
      Ok(Place(front, ps[|ps| - 1], s))
  }

  /** `validate_params` on a signature: `next()` on the parameters raises
      when there are none. */
  function Validate(params: seq<Parameter>): Result<Params, Error> {
    if params == [] then Err(StopIteration)
    else match ContextCheck(params[0])
      case Some(e) => Err(e)
      case None => SplitParams(DeriveParam, params[1..])
  }

  lemma SplitStep(derive: Derivation, ps: seq<Parameter>, i: nat)
    requires i < |ps|
    ensures SplitParams(derive, ps[..i + 1]) ==
      match SplitParams(derive, ps[..i])
      case Err(e) => Err(e)
      case Ok(front) =>
        match derive(ps[i])
        case Err(e) => Err(e)
        case Ok(s) => Ok(Place(front, ps[i], s))
  {
    assert ps[..i + 1][..i] == ps[..i] && ps[..i + 1][i] == ps[i];
  }

  /** Once a prefix fails, the whole split fails with the same error. */
  lemma {:induction false} SplitErrorSticks(derive: Derivation, ps: seq<Parameter>, k: nat)
    requires k <= |ps| && SplitParams(derive, ps[..k]).Err?
    ensures SplitParams(derive, ps) == SplitParams(derive, ps[..k])
    decreases |ps| - k
  {
    if k < |ps| {
      SplitStep(derive, ps, k);
      SplitErrorSticks(derive, ps, k + 1);
    } else {
      assert ps[..k] == ps;
    }
  }

  /** The names of the parameters that are (or are not) keyword-only, in
      declaration order. */
  function KindNames(ps: seq<Parameter>, keyword: bool): seq<string>
    decreases |ps|
  {
    if ps == [] then []
    else
      var last := ps[|ps| - 1];
      KindNames(ps[..|ps| - 1], keyword) + (if (last.kind == KeywordOnly) == keyword then [last.name] else [])
  }

  /** The derivation keeps each parameter's name. */
  ghost predicate KeepsNames(derive: Derivation) {
    forall p :: derive(p).Ok? ==> derive(p).value.name == p.name
  }

  lemma DeriveParamKeepsNames()
    ensures KeepsNames(DeriveParam)
  {
  }

  /** Splitting keeps declaration order on both sides: the positional list
      holds the non-keyword-only parameters and the keyword list the
      keyword-only ones. */
  lemma {:induction false} SplitSorts(derive: Derivation, ps: seq<Parameter>)
    requires KeepsNames(derive)
    ensures SplitParams(derive, ps).Ok? ==>
      && Names(SplitParams(derive, ps).value.pos) == KindNames(ps, false)
      && Names(SplitParams(derive, ps).value.kw) == KindNames(ps, true)
    decreases |ps|
  {
    if ps != [] && SplitParams(derive, ps).Ok? {
      var front := ps[..|ps| - 1];
      SplitSorts(derive, front);
      var f := SplitParams(derive, front).value;
      var s := derive(ps[|ps| - 1]).value;
      NamesOfConcat(f.pos, [s]);
      NamesOfConcat(f.kw, [s]);
      assert Names([s]) == [s.name];
    }
  }

  /** Splitting succeeds exactly when every parameter derives. */
  lemma {:induction false} SplitSucceeds(derive: Derivation, ps: seq<Parameter>)
    ensures SplitParams(derive, ps).Ok? <==> forall m :: 0 <= m < |ps| ==> derive(ps[m]).Ok?
    decreases |ps|
  {
    if ps != [] {
      var front := ps[..|ps| - 1];
      SplitSucceeds(derive, front);
      assert forall m :: 0 <= m < |front| ==> front[m] == ps[m];
    }
  }

  /** ... and fails with the error of the first parameter that does not. */
  lemma {:induction false} SplitFailsAtFirst(derive: Derivation, ps: seq<Parameter>, i: nat)
    requires i < |ps| && derive(ps[i]).Err?
    requires forall m :: 0 <= m < i ==> derive(ps[m]).Ok?
    ensures SplitParams(derive, ps) == Err(derive(ps[i]).error)
    decreases |ps|
  {
    var front := ps[..|ps| - 1];
    if i < |ps| - 1 {
      assert front[i] == ps[i];
      SplitFailsAtFirst(derive, front, i);
    } else {
      SplitSucceeds(derive, front);
      assert forall m :: 0 <= m < |front| ==> front[m] == ps[m];
    }
  }

  /** Adding a parameter whose name is new, in the middle or at the end,
      keeps names distinct. */
  lemma DistinctInsert(a: seq<ParamState>, b: seq<ParamState>, s: ParamState)
    requires DistinctNames(a + b) && forall t :: t in a + b ==> t.name != s.name
    ensures DistinctNames(a + [s] + b) && DistinctNames(a + b + [s])
  {
    var ab := a + b;
    var c := a + [s] + b;
    forall i, j | 0 <= i < j < |c| ensures c[i].name != c[j].name {
      if j == |a| {
        assert c[i] == ab[i] && ab[i] in ab;
      } else if i == |a| {
        assert c[j] == ab[j - 1] && ab[j - 1] in ab;
      } else {
        var i' := if i < |a| then i else i - 1;
        var j' := if j < |a| then j else j - 1;
        assert c[i] == ab[i'] && c[j] == ab[j'];
      }
    }
    var d := ab + [s];
    forall i, j | 0 <= i < j < |d| ensures d[i].name != d[j].name {
      if j == |ab| {
        assert d[i] == ab[i] && ab[i] in ab;
      } else {
        assert d[i] == ab[i] && d[j] == ab[j];
      }
    }
  }

  /** Distinct parameter names give unique names in the binder, and every
      name there is a parameter's. */
  lemma {:induction false} SplitUnique(derive: Derivation, ps: seq<Parameter>)
    requires KeepsNames(derive) && DistinctParams(ps)
    ensures SplitParams(derive, ps).Ok? ==>
      && UniqueNames(SplitParams(derive, ps).value)
      && forall t :: t in SplitParams(derive, ps).value.pos + SplitParams(derive, ps).value.kw ==> exists m :: 0 <= m < |ps| && ps[m].name == t.name
    decreases |ps|
  {
    if ps != [] && SplitParams(derive, ps).Ok? {
      var n := |ps| - 1;
      var front := ps[..n];
      assert DistinctParams(front) by {
        forall i, j | 0 <= i < j < |front| ensures front[i].name != front[j].name {
          assert front[i] == ps[i] && front[j] == ps[j];
        }
      }
      SplitUnique(derive, front);
      var f := SplitParams(derive, front).value;
      var s := derive(ps[n]).value;
      assert s.name == ps[n].name;
      forall t | t in f.pos + f.kw ensures t.name != s.name {
        var m :| 0 <= m < |front| && front[m].name == t.name;
        assert front[m] == ps[m];
      }
      DistinctInsert(f.pos, f.kw, s);
      var r := SplitParams(derive, ps).value;
      assert r == Place(f, ps[n], s);
      if ps[n].kind == KeywordOnly {
        assert r.pos + r.kw == (f.pos + f.kw) + [s];
      } else {
        assert r.pos + r.kw == f.pos + [s] + f.kw;
      }
      forall t | t in r.pos + r.kw ensures exists m :: 0 <= m < |ps| && ps[m].name == t.name {
        if t == s {
          assert ps[n].name == t.name;
        } else {
          assert t in f.pos + f.kw;
          var m :| 0 <= m < |front| && front[m].name == t.name;
          assert ps[m] == front[m];
        }
      }
    }
  }

  /** A validated signature has unique names in the binder. */
  lemma ValidateUnique(params: seq<Parameter>)
    requires DistinctParams(params)
    ensures Validate(params).Ok? ==> UniqueNames(Validate(params).value)
  {
    if params != [] && ContextCheck(params[0]).None? {
      var rest := params[1..];
      assert DistinctParams(rest) by {
        forall i, j | 0 <= i < j < |rest| ensures rest[i].name != rest[j].name {
          assert rest[i] == params[i + 1] && rest[j] == params[j + 1];
        }
      }
      DeriveParamKeepsNames();
      SplitUnique(DeriveParam, rest);
    }
  }

  /** The values `Context` carries into the callback (the event is left
      out). */
  datatype Context = Context(command: Command, prefix: string, invokedWith: string, args: seq<Value>, kwargs: map<string, Value>)

  class Command {
    const callback: Callback
    const name: string
    const description: string
    const aliases: seq<string>
    const stringParser: string -> Result<KeyedTokens, Error>
    /** `_signature`, from `inspect.signature(callback)` */
    const signature: Option<seq<Parameter>>
    /** `_signature_parser`, `None` until `validate_params` has run. */
    var signatureParser: SignatureParser?

    /** The objects the signature parser's state lives in. */
    ghost function Repr(): set<object>
      reads this, signatureParser
    {
      if signatureParser == null then {}
      else
        {signatureParser as object}
        + (set p: ParamInfo | p in signatureParser.posParams :: p as object)
        + (set p: ParamInfo | p in signatureParser.kwParams :: p as object)
    }

    /** The signature has distinct names, and so does the binder built from
        it. */
    predicate Valid()
      reads this, Repr()
    {
      && (signature.Some? ==> DistinctParams(signature.value))
      && (signatureParser != null ==> signatureParser.Valid())
    }

    /** The field assignments of `__init__`, before `validate_params`. */
    constructor Init(cb: Callback, givenName: Option<string>, givenDescription: Option<string>,
                     givenAliases: AliasesArg, givenParser: Option<string -> Result<KeyedTokens, Error>>)
      requires DistinctParams(cb.params)
      ensures callback == cb && name == CommandName(givenName, cb) && description == CommandDescription(givenDescription, cb)
      ensures aliases == NormaliseAliases(givenAliases)
      ensures stringParser == (if givenParser.Some? then givenParser.value else ParseContentCallback)
      ensures signature == Some(cb.params) && signatureParser == null
      ensures Valid()
    {
      callback := cb;
      name := OrElse(givenName, cb.name);
      description := OrElse(givenDescription, OrElse(cb.doc, DefaultDescription));
      var sp: string -> Result<KeyedTokens, Error> := ParseContentCallback;
      if givenParser.Some? {
        sp := givenParser.value;
      }
      stringParser := sp;
      if givenAliases.NoAliases? || givenAliases == OneAlias("") || givenAliases == ManyAliases([]) {
        aliases := [];
      } else if givenAliases.OneAlias? {
        aliases := [givenAliases.alias];
      } else {
        aliases := givenAliases.aliases;
      }
      signature := Some(cb.params);
      signatureParser := null;
    }

    /** `Command(callback, name=..., description=..., aliases=...,
        string_parser=...)`: `__init__`, which ends with `validate_params`. */
    static method Create(cb: Callback, givenName: Option<string>, givenDescription: Option<string>,
                         givenAliases: AliasesArg, givenParser: Option<string -> Result<KeyedTokens, Error>>)
      returns (r: Result<Command, Error>)
      requires DistinctParams(cb.params)
      ensures r.Ok? <==> Validate(cb.params).Ok?
      ensures r.Err? ==> r.error == Validate(cb.params).error
      ensures r.Ok? ==>
        && fresh(r.value) && r.value.Valid()
        && r.value.name == CommandName(givenName, cb) && r.value.aliases == NormaliseAliases(givenAliases)
        && r.value.signatureParser != null && fresh(r.value.signatureParser)
        && r.value.signatureParser.Model() == Validate(cb.params).value
        && r.value.signatureParser.stringParser == r.value.stringParser
    {
      var c := new Command.Init(cb, givenName, givenDescription, givenAliases, givenParser);
      var err := c.ValidateParams();
      if err.Some? {
        return Err(err.value);
      }
      return Ok(c);
    }

    /** The `signature` property. */
    method Signature() returns (r: Result<seq<Parameter>, Error>)
      ensures signature.None? ==> r == Err(RuntimeError(SignatureNotParsed))
      ensures signature.Some? ==> r == Ok(signature.value)
    {
      if signature.None? {
        return Err(RuntimeError(SignatureNotParsed));
      }
      return Ok(signature.value);
    }

    /** The `signature_parser` property. */
    method GetSignatureParser() returns (r: Result<SignatureParser, Error>)
      ensures signatureParser == null ==> r == Err(RuntimeError(SignatureNotParsed))
      ensures signatureParser != null ==> r == Ok(signatureParser)
    {
      if signatureParser == null {
        return Err(RuntimeError(SignatureNotParsed));
      }
      return Ok(signatureParser);
    }

    /** `validate_params`: check the context parameter, derive a `ParamInfo`
        for every other parameter, and build the signature parser. */
    method ValidateParams() returns (err: Option<Error>)
      requires Valid()
      modifies this
      ensures Valid()
      ensures signature.None? ==> err == Some(RuntimeError(SignatureNotParsed)) && signatureParser == old(signatureParser)
      ensures signature.Some? ==> (err.None? <==> Validate(signature.value).Ok?)
      ensures signature.Some? && err.Some? ==> err.value == Validate(signature.value).error && signatureParser == old(signatureParser)
      ensures signature.Some? && err.None? ==>
        && signatureParser != null && fresh(signatureParser)
        && signatureParser.Model() == Validate(signature.value).value
        && signatureParser.stringParser == stringParser
    {
      var sig := Signature();
      if sig.Err? {
        return Some(sig.error);
      }
      var params := sig.value;
      if params == [] {
        return Some(StopIteration);
      }
      var check := ContextCheck(params[0]);
      if check.Some? {
        return Some(check.value);
      }
      var rest := params[1..];
      var split := SplitSignature(rest);
      if split.Err? {
        return Some(split.error);
      }
      var (pos, kw) := split.value;
      ValidateUnique(params);
      var sp := new SignatureParser(pos, kw, stringParser);
      assert sp.Model() == Params(States(pos), States(kw));
      signatureParser := sp;
      assert sp.Model() == Validate(params).value;
      return None;
    }

    /** The loop of `validate_params`. */
    static method SplitSignature(ps: seq<Parameter>) returns (r: Result<(seq<ParamInfo>, seq<ParamInfo>), Error>)
      ensures r.Err? <==> SplitParams(DeriveParam, ps).Err?
      ensures r.Err? ==> r.error == SplitParams(DeriveParam, ps).error
      ensures r.Ok? ==> SplitParams(DeriveParam, ps).value == Params(States(r.value.0), States(r.value.1))
    {
      var pos: seq<ParamInfo> := [];
      var kw: seq<ParamInfo> := [];
      var i := 0;
      while i < |ps|
        invariant i <= |ps|
        invariant SplitParams(DeriveParam, ps[..i]) == Ok(Params(States(pos), States(kw)))
      {
        SplitStep(DeriveParam, ps, i);
        ghost var before := Params(States(pos), States(kw));
        var info := ParamInfo.FromParameter(ps[i]);
        assert Params(States(pos), States(kw)) == before;
        if info.Err? {
          SplitErrorSticks(DeriveParam, ps, i + 1);
          return Err(info.error);
        }
        if ps[i].kind == KeywordOnly {
          kw := kw + [info.value];
          assert States(kw) == before.kw + [info.value.State()];
        } else {
          pos := pos + [info.value];
          assert States(pos) == before.pos + [info.value.State()];
        }
        i := i + 1;
      }
      assert ps[..|ps|] == ps;
      return Ok((pos, kw));
    }

    /** What `signature_parser.parse(invocation)` returns. */
    function Parsed(invocation: string): Result<(seq<Value>, map<string, Value>), Error>
      reads this, Repr()
    {
      if signatureParser == null then Err(RuntimeError(SignatureNotParsed))
      else
        match signatureParser.stringParser(invocation)
        case Err(e) => Err(e)
        case Ok(t) => Bind(ParamParse, signatureParser.Model(), t.args, t.keys, t.kwargs)
    }

    /** The parse step of `invoke`: bind the invocation and build the
        `Context` the callback is then awaited with. */
    method Invoke(prefix: string, invokedWith: string, invocation: string) returns (r: Result<Context, Error>)
      ensures r == match Parsed(invocation)
        case Err(e) => Err(e)
        case Ok((args, kwargs)) => Ok(Context(this, prefix, invokedWith, args, kwargs))
    {
      var sp := GetSignatureParser();
      if sp.Err? {
        return Err(sp.error);
      }
      var parsed := sp.value.ParseInvocation(invocation);
      if parsed.Err? {
        return Err(parsed.error);
      }
      var (args, kwargs) := parsed.value;
      return Ok(Context(this, prefix, invokedWith, args, kwargs));
    }

    /** `update_param_typesafe(name, ...)`, forwarded to the signature
        parser. */
    method UpdateParamTypesafe(param: string, ov: Overrides) returns (err: Option<Error>)
      requires Valid()
      modifies Repr()
      ensures Valid() && signatureParser == old(signatureParser)
      ensures signatureParser == null ==> err == Some(RuntimeError(SignatureNotParsed))
      ensures signatureParser != null ==>
        (signatureParser.Model(), err) == Update(old(signatureParser.Model()), param, ov)
    {
      var sp := GetSignatureParser();
      if sp.Err? {
        return Some(sp.error);
      }
      err := sp.value.UpdateParamTypesafe(param, ov);
    }
  }

  /** `param(name, ...)(command)`: the overrides go to
      `update_param_typesafe`, and the same command comes back. */
  method ApplyParam(command: Command, param: string, ov: Overrides) returns (r: Result<Command, Error>)
    requires command.Valid()
    modifies command.Repr()
    ensures command.Valid()
    ensures r.Ok? ==> r.value == command
    ensures command.signatureParser == null ==> r == Err(RuntimeError(SignatureNotParsed))
    ensures command.signatureParser != null ==>
      var (ps, err) := Update(old(command.signatureParser.Model()), param, ov);
      command.signatureParser.Model() == ps && (err.None? <==> r.Ok?) && (err.Some? ==> r == Err(err.value))
  {
    var err := command.UpdateParamTypesafe(param, ov);
    if err.Some? {
      return Err(err.value);
    }
    return Ok(command);
  }
}
