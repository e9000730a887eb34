/** The invocation tokenizer `parse_content` (sail/internal/parser.py): splits
    a string into positional tokens and flag values. `ParseContent` is the
    character loop; `Tokenize` / `Run` is its specification, over the input
    that is still to be read. */
module Tokenizer {
  import opened Wrappers
  import opened Errors

  /** Opening quote -> closing quote. */
  const Quotes: map<char, char> := map[
    '\U{0022}' := '\U{0022}', '\U{0027}' := '\U{0027}', '\U{2018}' := '\U{2019}',
    '\U{201A}' := '\U{201B}', '\U{201C}' := '\U{201D}', '\U{201E}' := '\U{201F}',
    '\U{00AB}' := '\U{00BB}', '\U{2039}' := '\U{203A}', '\U{300A}' := '\U{300B}',
    '\U{3008}' := '\U{3009}', '\U{300C}' := '\U{300D}', '\U{300E}' := '\U{300F}',
    '\U{FE41}' := '\U{FE42}', '\U{FE43}' := '\U{FE44}', '\U{FF02}' := '\U{FF02}',
    '\U{FF62}' := '\U{FF63}', '\U{301D}' := '\U{301E}', '\U{2E42}' := '\U{2E42}'
  ]

  /** The result: positional tokens, and flag values by name. `keys` is the
      order in which flag names were first seen (Python dict order). */
  datatype Tokens = Tokens(args: seq<string>, keys: seq<string>, kwargs: map<string, seq<string>>)

  /** The scanner's variables: the open flag name, the value being read, and
      the output so far. */
  datatype Scan = Scan(name: string, value: string, args: seq<string>, keys: seq<string>, kwargs: map<string, seq<string>>)

  const Start := Scan("", "", [], [], map[])

  predicate Distinct(s: seq<string>) {
    forall i, j :: 0 <= i < j < |s| ==> s[i] != s[j]
  }

  /** The flag names in `keys` are exactly the keys of `kwargs`, each once. */
  predicate WellKeyed(keys: seq<string>, kwargs: map<string, seq<string>>) {
    Distinct(keys) && kwargs.Keys == set k | k in keys
  }

  /** `finalise_argument`: the value goes to the open flag, or to the
      positionals when no flag is open; both buffers are reset. */
  function Finalise(st: Scan): (r: Scan)
    ensures r.name == "" && r.value == ""
    ensures st.name == "" ==> r.args == st.args + [st.value] && r.keys == st.keys && r.kwargs == st.kwargs
    ensures st.name != "" ==>
      && r.args == st.args
      && st.name in r.kwargs
      && r.kwargs[st.name] == (if st.name in st.kwargs then st.kwargs[st.name] else []) + [st.value]
      && (forall k :: k in st.kwargs && k != st.name ==> k in r.kwargs && r.kwargs[k] == st.kwargs[k])
      && r.kwargs.Keys == st.kwargs.Keys + {st.name}
      && r.keys == (if st.name in st.kwargs then st.keys else st.keys + [st.name])
  {
    if st.name != "" then
      var before := if st.name in st.kwargs then st.kwargs[st.name] else [];
      Scan("", "", st.args,
           if st.name in st.kwargs then st.keys else st.keys + [st.name],
           st.kwargs[st.name := before + [st.value]])
    else
      Scan("", "", st.args + [st.value], st.keys, st.kwargs)
  }

  /** Reading a quoted span after its opening quote: `Some((value, rest))`
      once the closing quote is read, `None` when the input ends first (the
      `next()` without a default raises `StopIteration`). */
  function Quoted(rest: string, close: char, value: string): (r: Option<(string, string)>)
    ensures r.Some? ==> |r.value.1| < |rest|
    decreases |rest|
  {
    if rest == [] then None
    else if rest[0] == close then Some((value, rest[1..]))
    else if rest[0] == '\\' then
      if |rest| == 1 then None else Quoted(rest[2..], close, value + [rest[1]])
    else Quoted(rest[1..], close, value + [rest[0]])
  }

  /** A long flag name: everything up to the next space. */
  function NameRun(rest: string): (r: string)
  {
    if rest == [] || rest[0] == ' ' then [] else [rest[0]] + NameRun(rest[1..])
  }

  /** What is left after a long flag name and the one space that ends it. */
  function AfterName(rest: string): (r: string)
    ensures |r| < |rest| || rest == []
  {
    if rest == [] then [] else if rest[0] == ' ' then rest[1..] else AfterName(rest[1..])
  }

  /** A dash: close an open flag, then read a long or a short flag name; a
      dash run without a name becomes a positional `"-"` / `"--"`. */
  function Dash(rest: string, st: Scan): Result<(string, Scan), Error>
    ensures Dash(rest, st).Ok? ==> |Dash(rest, st).value.0| < |rest| || rest == []
  {
    var st1 := if st.name != "" then Finalise(st) else st;
    if rest == [] then Err(StopIteration)
    else if rest[0] == '-' then
      var st2 := st1.(name := st1.name + NameRun(rest[1..]));
      Ok((AfterName(rest[1..]), if st2.name == "" then st2.(args := st2.args + ["--"]) else st2))
    else
      var st2 := if rest[0] != ' ' then st1.(name := st1.name + [rest[0]]) else st1;
      Ok((rest[1..], if st2.name == "" then st2.(args := st2.args + ["-"]) else st2))
  }

  /** The scanner on the input still to be read. */
  function Run(rest: string, st: Scan): Result<Tokens, Error>
    decreases |rest|
  {
    if rest == [] then
      var fin := if st.name != "" || st.value != "" then Finalise(st) else st;
      Ok(Tokens(fin.args, fin.keys, fin.kwargs))
    else
      var c := rest[0];
      if c == '\\' then
        if |rest| == 1 then Run([], st) else Run(rest[2..], st.(value := st.value + [rest[1]]))
      else if c in Quotes then
        match Quoted(rest[1..], Quotes[c], st.value)
        case None => Err(StopIteration)
        case Some((v, after)) => Run(after, Finalise(st.(value := v)))
      else if c == '-' then
        match Dash(rest[1..], st)
        case Err(e) => Err(e)
        case Ok((after, st')) => Run(after, st')
      else if c == ' ' then
        Run(rest[1..], if st.value != "" then Finalise(st) else st)
      else
        Run(rest[1..], st.(value := st.value + [c]))
  }

  function Tokenize(content: string): Result<Tokens, Error> {
    Run(content, Start)
  }

  /** `finalise_argument` on the loop's variables. */
  method FinaliseArgument(name: string, value: string, args: seq<string>, keys: seq<string>, kwargs: map<string, seq<string>>)
    returns (args': seq<string>, keys': seq<string>, kwargs': map<string, seq<string>>)
    ensures Finalise(Scan(name, value, args, keys, kwargs)) == Scan("", "", args', keys', kwargs')
  {
    if name != "" {
      var before := if name in kwargs then kwargs[name] else [];
      if name !in kwargs {
        keys' := keys + [name];
      } else {
        keys' := keys;
      }
      kwargs' := kwargs[name := before + [value]];
      args' := args;
    } else {
      args', keys', kwargs' := args + [value], keys, kwargs;
    }
  }

  /** The quoted-span loop: reads from `content[i..]` up to the closing
      quote; `None` when `next()` runs out of input. */
  method ReadQuoted(content: string, i: nat, close: char, value: string) returns (r: Option<(string, nat)>)
    requires i <= |content|
    ensures r.None? ==> Quoted(content[i..], close, value).None?
    ensures r.Some? ==> r.value.1 <= |content| && Quoted(content[i..], close, value) == Some((r.value.0, content[r.value.1..]))
  {
    var j, v := i, value;
    while true
      invariant i <= j <= |content|
      invariant Quoted(content[j..], close, v) == Quoted(content[i..], close, value)
      decreases |content| - j
    {
      if j == |content| {
        return None;
      }
      var ch := content[j];
      assert content[j..][1..] == content[j + 1..];
      j := j + 1;
      if ch == close {
        return Some((v, j));
      } else if ch == '\\' {
        // Consume the escaped character so an escaped closing quote does not end the span.
        if j == |content| {
          return None;
        }
        assert content[j - 1..][2..] == content[j + 1..];
        v := v + [content[j]];
        j := j + 1;
      } else {
        v := v + [ch];
      }
    }
  }

  lemma NameRunStep(s: string)
    requires s != [] && s[0] != ' '
    ensures NameRun(s) == [s[0]] + NameRun(s[1..]) && AfterName(s) == AfterName(s[1..])
  {
  }

  /** The long-flag loop: appends to `name` up to the next space, which is
      consumed too. */
  method ReadLongName(content: string, i: nat, name: string) returns (name': string, j: nat)
    requires i <= |content|
    ensures j <= |content|
    ensures name' == name + NameRun(content[i..]) && content[j..] == AfterName(content[i..])
  {
    j, name' := i, name;
    while j < |content| && content[j] != ' '
      invariant i <= j <= |content|
      invariant name' + NameRun(content[j..]) == name + NameRun(content[i..])
      invariant AfterName(content[i..]) == AfterName(content[j..])
      decreases |content| - j
    {
      ghost var t := content[j..];
      assert t[0] == content[j] && t[1..] == content[j + 1..];
      NameRunStep(t);
      name' := name' + [content[j]];
      j := j + 1;
    }
    ghost var t := content[j..];
    if j < |content| {
      assert t[0] == ' ' && t[1..] == content[j + 1..];
      j := j + 1;
    }
    assert NameRun(t) == [];
  }

  /** The dash branch: `i` is just past the dash. */
  method ReadDash(content: string, i: nat, name: string, value: string, args: seq<string>, keys: seq<string>, kwargs: map<string, seq<string>>)
    returns (r: Result<nat, Error>, name': string, value': string, args': seq<string>, keys': seq<string>, kwargs': map<string, seq<string>>)
    requires i <= |content|
    ensures r.Err? ==> Dash(content[i..], Scan(name, value, args, keys, kwargs)) == Err(r.error)
    ensures r.Ok? ==> (r.value <= |content|
      && Dash(content[i..], Scan(name, value, args, keys, kwargs)) == Ok((content[r.value..], Scan(name', value', args', keys', kwargs'))))
  {
    name', value', args', keys', kwargs' := name, value, args, keys, kwargs;
    if name' != "" {
      // Still have a name set from a previous dash: close it first.
      args', keys', kwargs' := FinaliseArgument(name', value', args', keys', kwargs');
      name', value' := "", "";
    }
    if i == |content| {
      r := Err(StopIteration);
      return;
    }
    var d := content[i];
    var dashes;
    var j;
    if d == '-' {
      // Double dash: the name runs up to the next space.
      dashes := "--";
      assert content[i..][1..] == content[i + 1..];
      name', j := ReadLongName(content, i + 1, name');
    } else {
      // Single dash: exactly one following character is the name.
      dashes := "-";
      assert content[i..][1..] == content[i + 1..];
      j := i + 1;
      if d != ' ' {
        name' := name' + [d];
      }
    }
    if name' == "" {
      // No name after the dashes: a positional.
      args' := args' + [dashes];
    }
    r := Ok(j);
  }

  /** `parse_content`: one pass over the characters; the quoted-span and
      long-name loops advance the same cursor. */
  method ParseContent(content: string) returns (r: Result<Tokens, Error>)
    ensures r == Tokenize(content)
  {
    var name, value := "", "";
    var args: seq<string> := [];
    var keys: seq<string> := [];
    var kwargs: map<string, seq<string>> := map[];
    var i := 0;
    while i < |content|
      invariant 0 <= i <= |content|
      invariant Run(content[i..], Scan(name, value, args, keys, kwargs)) == Tokenize(content)
      decreases |content| - i
    {
      ghost var rest := content[i..];
      assert rest[1..] == content[i + 1..];
      var c := content[i];
      i := i + 1;
      if c == '\\' {
        // Escape: the next character (if any) is taken literally.
        if i < |content| {
          assert rest[2..] == content[i + 1..];
          value := value + [content[i]];
          i := i + 1;
        }
      } else if c in Quotes {
        var q := ReadQuoted(content, i, Quotes[c], value);
        if q.None? {
          r := Err(StopIteration);
          return;
        }
        value, i := q.value.0, q.value.1;
        args, keys, kwargs := FinaliseArgument(name, value, args, keys, kwargs);
        name, value := "", "";
      } else if c == '-' {
        var d;
        d, name, value, args, keys, kwargs := ReadDash(content, i, name, value, args, keys, kwargs);
        if d.Err? {
          r := Err(d.error);
          return;
        }
        i := d.value;
      } else if c == ' ' {
        if value != "" {
          // New word and we have a value set.
          args, keys, kwargs := FinaliseArgument(name, value, args, keys, kwargs);
          name, value := "", "";
        }
      } else {
        value := value + [c];
      }
    }
    if name != "" || value != "" {
      args, keys, kwargs := FinaliseArgument(name, value, args, keys, kwargs);
    }
    r := Ok(Tokens(args, keys, kwargs));
  }

  // ---------------------------------------------------------------------
  // Properties of the scanner

  /** `s.split(" ")`: the pieces between single spaces. */
  function SplitSpace(s: string): (r: seq<string>)
    ensures |r| >= 1
  {
    if s == [] then [""]
    else
      var t := SplitSpace(s[1..]);
      if s[0] == ' ' then [""] + t else [[s[0]] + t[0]] + t[1..]
  }

  function NonEmpty(ws: seq<string>): seq<string> {
    if ws == [] then [] else (if ws[0] == "" then [] else [ws[0]]) + NonEmpty(ws[1..])
  }

  /** The space-separated words: `[w for w in s.split(" ") if w]`. */
  function Words(s: string): seq<string> {
    NonEmpty(SplitSpace(s))
  }

  /** No escape, no quote and no dash: only spaces are special. */
  predicate Plain(s: string) {
    forall i :: 0 <= i < |s| ==> s[i] != '\\' && s[i] !in Quotes && s[i] != '-'
  }

  lemma {:induction false} SplitSpaceOfWord(v: string, s: string)
    requires ' ' !in v
    ensures SplitSpace(v + s) == [v + SplitSpace(s)[0]] + SplitSpace(s)[1..]
  {
    if v != [] {
      var u := SplitSpace(s);
      assert (v + s)[0] == v[0] && v[0] in v;
      assert (v + s)[1..] == v[1..] + s;
      SplitSpaceOfWord(v[1..], s);
      assert [v[0]] + (v[1..] + u[0]) == v + u[0];
    } else {
      var u := SplitSpace(s);
      assert v + s == s && v + u[0] == u[0];
      assert [u[0]] + u[1..] == u;
    }
  }

  /** An ordinary character is added to the value being read. */
  lemma RunOrdinary(rest: string, st: Scan)
    requires rest != [] && rest[0] != '\\' && rest[0] !in Quotes && rest[0] != '-' && rest[0] != ' '
    ensures Run(rest, st) == Run(rest[1..], st.(value := st.value + [rest[0]]))
  {
  }

  /** A space ends the word being read, if any. */
  lemma RunSpace(rest: string, st: Scan)
    requires rest != [] && rest[0] == ' '
    ensures Run(rest, st) == Run(rest[1..], if st.value != "" then Finalise(st) else st)
  {
    assert ' ' !in Quotes;
  }

  /** The end of plain input closes the last word. */
  lemma PlainEnd(v: string, args: seq<string>)
    requires ' ' !in v
    ensures Run([], Scan("", v, args, [], map[])) == Ok(Tokens(args + Words(v), [], map[]))
  {
    SplitSpaceOfWord(v, []);
    assert v + [] == v;
    assert SplitSpace(v) == [v];
    assert [v][1..] == [];
    assert NonEmpty([v]) == (if v == "" then [] else [v]) + NonEmpty([]);
    assert Words(v) == if v == "" then [] else [v];
    if v != "" {
      assert Finalise(Scan("", v, args, [], map[])) == Scan("", "", args + [v], [], map[]);
    } else {
      assert args + [] == args;
    }
  }

  /** A space splits off the word before it. */
  lemma WordsAtSpace(v: string, s: string)
    requires ' ' !in v && s != [] && s[0] == ' '
    ensures Words(v + s) == (if v == "" then [] else [v]) + Words(s[1..])
  {
    var t := s[1..];
    assert s == [' '] + t;
    assert SplitSpace(s) == [""] + SplitSpace(t);
    SplitSpaceOfWord(v, s);
    assert v + "" == v;
    assert SplitSpace(v + s) == [v] + SplitSpace(t);
    assert ([v] + SplitSpace(t))[1..] == SplitSpace(t);
  }

  lemma {:induction false} PlainRun(s: string, v: string, args: seq<string>)
    requires Plain(s) && ' ' !in v
    ensures Run(s, Scan("", v, args, [], map[])) == Ok(Tokens(args + Words(v + s), [], map[]))
    decreases |s|
  {
    if s == [] {
      PlainEnd(v, args);
      assert v + s == v;
    } else {
      var t := s[1..];
      assert s[0] in s && Plain(t);
      if s[0] == ' ' {
        PlainRun(t, "", if v != "" then args + [v] else args);
        PlainSpace(s, v, args);
      } else {
        RunOrdinary(s, Scan("", v, args, [], map[]));
        PlainRun(t, v + [s[0]], args);
        assert (v + [s[0]]) + t == v + s;
      }
    }
  }

  /** The space case of `PlainRun`, given the words after the space. */
  lemma PlainSpace(s: string, v: string, args: seq<string>)
    requires s != [] && s[0] == ' ' && ' ' !in v
    requires var a := if v != "" then args + [v] else args;
      Run(s[1..], Scan("", "", a, [], map[])) == Ok(Tokens(a + Words("" + s[1..]), [], map[]))
    ensures Run(s, Scan("", v, args, [], map[])) == Ok(Tokens(args + Words(v + s), [], map[]))
  {
    var t := s[1..];
    RunSpace(s, Scan("", v, args, [], map[]));
    WordsAtSpace(v, s);
    assert "" + t == t;
    if v != "" {
      assert Finalise(Scan("", v, args, [], map[])) == Scan("", "", args + [v], [], map[]);
      assert args + [v] + Words(t) == args + ([v] + Words(t));
    } else {
      assert [] + Words(t) == Words(t);
    }
  }

  /** Only the space separates words (a tab is an ordinary character): input
      without escapes, quotes or dashes yields its non-empty space-separated
      words and no flags. */
  lemma PlainInputYieldsWords(s: string)
    requires Plain(s)
    ensures Tokenize(s) == Ok(Tokens(Words(s), [], map[]))
  {
    PlainRun(s, "", []);
    assert "" + s == s;
    assert Start == Scan("", "", [], [], map[]);
    assert [] + Words(s) == Words(s);
  }

  /** A backslash outside quotes makes the next character literal. */
  lemma EscapeIsLiteral(c: char, rest: string, st: Scan)
    ensures Run(['\\', c] + rest, st) == Run(rest, st.(value := st.value + [c]))
  {
    assert (['\\', c] + rest)[2..] == rest;
  }

  /** A trailing backslash contributes nothing. */
  lemma TrailingEscapeIsDropped(st: Scan)
    ensures Run(['\\'], st) == Run([], st)
  {
  }

  /** Inside quotes a backslash makes the next character literal, so an
      escaped closing quote does not end the span. */
  lemma EscapeInsideQuotes(close: char, c: char, rest: string, v: string)
    requires close != '\\'
    ensures Quoted(['\\', c] + rest, close, v) == Quoted(rest, close, v + [c])
  {
    assert (['\\', c] + rest)[2..] == rest;
  }

  lemma QuoteIsNotSpecial(q: char)
    requires q in Quotes
    ensures q != '\\' && q != '-' && q != ' ' && Quotes[q] != '\\'
  {
  }

  lemma {:induction false} QuotedVerbatim(w: string, close: char, rest: string, v: string)
    requires close !in w && '\\' !in w
    ensures Quoted(w + [close] + rest, close, v) == Some((v + w, rest))
  {
    if w == [] {
      assert w + [close] + rest == [close] + rest;
      assert ([close] + rest)[1..] == rest;
      assert v + w == v;
    } else {
      assert (w + [close] + rest)[1..] == w[1..] + [close] + rest;
      QuotedVerbatim(w[1..], close, rest, v + [w[0]]);
      assert v + [w[0]] + w[1..] == v + w;
    }
  }

  /** An opening quote reads verbatim up to its own closing partner and then
      finalises one token, even for an empty span. */
  lemma QuotedSpanIsOneToken(q: char, w: string, rest: string, st: Scan)
    requires q in Quotes && Quotes[q] !in w && '\\' !in w
    ensures Run([q] + w + [Quotes[q]] + rest, st) == Run(rest, Finalise(st.(value := st.value + w)))
  {
    var s := [q] + w + [Quotes[q]] + rest;
    assert s[0] == q && s[1..] == w + [Quotes[q]] + rest;
    QuoteIsNotSpecial(q);
    QuotedVerbatim(w, Quotes[q], rest, st.value);
  }

  lemma {:induction false} QuotedUnterminated(w: string, close: char, v: string)
    requires close !in w && '\\' !in w
    ensures Quoted(w, close, v) == None
  {
    if w != [] {
      QuotedUnterminated(w[1..], close, v + [w[0]]);
    }
  }

  /** A quoted span that is never closed fails (`next()` raises). */
  lemma UnterminatedQuoteFails(q: char, w: string, st: Scan)
    requires q in Quotes && Quotes[q] !in w && '\\' !in w
    ensures Run([q] + w, st) == Err(StopIteration)
  {
    assert ([q] + w)[0] == q && ([q] + w)[1..] == w;
    QuoteIsNotSpecial(q);
    QuotedUnterminated(w, Quotes[q], st.value);
  }

  /** A single dash as the very last character fails (`next()` raises). */
  lemma TrailingDashFails(st: Scan)
    ensures Run(['-'], st) == Err(StopIteration)
  {
  }

  /** The state after a dash has closed any open flag. */
  function Opened(st: Scan): (r: Scan)
    ensures r.name == ""
  {
    if st.name != "" then Finalise(st) else st
  }

  lemma {:induction false} NameRunOfWord(n: string, rest: string)
    requires ' ' !in n
    ensures NameRun(n + [' '] + rest) == n && AfterName(n + [' '] + rest) == rest
    ensures NameRun(n) == n && AfterName(n) == []
  {
    if n != [] {
      assert (n + [' '] + rest)[1..] == n[1..] + [' '] + rest;
      NameRunOfWord(n[1..], rest);
      assert [n[0]] + n[1..] == n;
    } else {
      assert n + [' '] + rest == [' '] + rest;
    }
  }

  /** A dash outside quotes is handled by `Dash`. */
  lemma RunOnDash(rest: string, st: Scan)
    ensures Run(['-'] + rest, st) ==
      match Dash(rest, st)
      case Err(e) => Err(e)
      case Ok((after, st')) => Run(after, st')
  {
    var s := ['-'] + rest;
    assert s[0] == '-' && s[1..] == rest;
    assert '-' !in Quotes;
  }

  /** A second dash reads a long name. */
  lemma {:induction false} DashLongName(n: string, after: string, st: Scan)
    requires n != "" && ' ' !in n && NameRun(after) == n
    ensures Dash(['-'] + after, st) == Ok((AfterName(after), Opened(st).(name := n)))
  {
    var s := ['-'] + after;
    assert s[0] == '-' && s[1..] == after;
    assert Opened(st).name + n == n;
  }

  /** `--name` reads the flag name up to the next space (which it consumes). */
  lemma LongFlagReadsToSpace(n: string, rest: string, st: Scan)
    requires n != "" && ' ' !in n
    ensures Run(['-', '-'] + n + [' '] + rest, st) == Run(rest, Opened(st).(name := n))
  {
    var after := n + [' '] + rest;
    assert ['-', '-'] + n + [' '] + rest == ['-'] + (['-'] + after);
    NameRunOfWord(n, rest);
    RunOnDash(['-'] + after, st);
    DashLongName(n, after, st);
  }

  /** `--name` at the end of the input reads the name up to the end. */
  lemma LongFlagReadsToEnd(n: string, st: Scan)
    requires n != "" && ' ' !in n
    ensures Run(['-', '-'] + n, st) == Run([], Opened(st).(name := n))
  {
    assert ['-', '-'] + n == ['-'] + (['-'] + n);
    NameRunOfWord(n, []);
    RunOnDash(['-'] + n, st);
    DashLongName(n, n, st);
  }

  /** A single dash takes exactly one following non-space character as the
      flag name. */
  lemma ShortFlagTakesOneChar(c: char, rest: string, st: Scan)
    requires c != ' ' && c != '-'
    ensures Run(['-', c] + rest, st) == Run(rest, Opened(st).(name := [c]))
  {
    var s := ['-', c] + rest;
    assert s[1..][1..] == rest;
    assert Opened(st).name + [c] == [c];
  }

  /** A dash followed by a space names nothing and is kept as the positional `"-"`. */
  lemma LoneDashIsPositional(rest: string, st: Scan)
    ensures Run(['-', ' '] + rest, st) == Run(rest, Opened(st).(args := Opened(st).args + ["-"]))
  {
    var s := ['-', ' '] + rest;
    assert s[1..][1..] == rest;
  }

  /** `--` followed by a space or by the end names nothing and is kept as the
      positional `"--"`. */
  lemma DoubleDashIsPositional(rest: string, st: Scan)
    ensures Run(['-', '-', ' '] + rest, st) == Run(rest, Opened(st).(args := Opened(st).args + ["--"]))
    ensures Run(['-', '-'], st) == Run([], Opened(st).(args := Opened(st).args + ["--"]))
  {
    var s := ['-', '-', ' '] + rest;
    assert s[1..][1..] == [' '] + rest;
    assert Opened(st).name + "" == "";
    assert ['-', '-'][1..][1..] == [];
  }

  /** A dash while a flag is open first finalises that flag. */
  lemma DashClosesOpenFlag(rest: string, st: Scan)
    requires st.name != ""
    ensures Run(['-'] + rest, st) == Run(['-'] + rest, Finalise(st))
  {
    assert (['-'] + rest)[1..] == rest;
  }

  /** `b` is `a` with more output appended: positionals, flag names and each
      flag's values only ever grow at the end. */
  predicate Grows(a: Scan, b: Scan) {
    && a.args <= b.args
    && a.keys <= b.keys
    && (forall k :: k in a.kwargs ==> k in b.kwargs && a.kwargs[k] <= b.kwargs[k])
  }

  lemma GrowsTransitive(a: Scan, b: Scan, c: Scan)
    requires Grows(a, b) && Grows(b, c)
    ensures Grows(a, c)
  {
  }

  lemma FinaliseGrows(st: Scan)
    requires WellKeyed(st.keys, st.kwargs)
    ensures Grows(st, Finalise(st)) && WellKeyed(Finalise(st).keys, Finalise(st).kwargs)
  {
    var r := Finalise(st);
    if st.name != "" && st.name !in st.kwargs {
      assert (set k | k in r.keys) == (set k | k in st.keys) + {st.name};
    }
  }

  /** A dash only renames the open flag of `Opened(st)` or appends a
      positional to it. */
  lemma DashFromOpened(rest: string, st: Scan)
    requires rest != []
    ensures var r := Dash(rest, st).value.1;
      r.keys == Opened(st).keys && r.kwargs == Opened(st).kwargs && Opened(st).args <= r.args
  {
  }

  lemma DashGrows(rest: string, st: Scan)
    requires WellKeyed(st.keys, st.kwargs)
    ensures Dash(rest, st).Ok? ==>
      (Grows(st, Dash(rest, st).value.1) && WellKeyed(Dash(rest, st).value.1.keys, Dash(rest, st).value.1.kwargs))
  {
    if rest != [] {
      var st1 := Opened(st);
      if st.name != "" {
        FinaliseGrows(st);
      }
      assert Grows(st, st1) && WellKeyed(st1.keys, st1.kwargs);
      DashFromOpened(rest, st);
      GrowsTransitive(st, st1, Dash(rest, st).value.1);
    }
  }

  /** Scanning only appends: the output of `Run` extends the state it starts
      from (so positional order and per-flag value order are preserved),
      and every flag name is recorded exactly once. */
  lemma {:induction false} RunGrows(rest: string, st: Scan)
    requires WellKeyed(st.keys, st.kwargs)
    ensures Run(rest, st).Ok? ==>
      && var t := Run(rest, st).value;
      && Grows(st, Scan("", "", t.args, t.keys, t.kwargs))
      && WellKeyed(t.keys, t.kwargs)
    decreases |rest|
  {
    if rest == [] {
      if st.name != "" || st.value != "" {
        FinaliseGrows(st);
      }
    } else {
      var c := rest[0];
      if c == '\\' {
        if |rest| == 1 {
          RunGrows([], st);
        } else {
          RunGrows(rest[2..], st.(value := st.value + [rest[1]]));
        }
      } else if c in Quotes {
        match Quoted(rest[1..], Quotes[c], st.value)
        case None =>
        case Some((v, after)) =>
          var st' := st.(value := v);
          FinaliseGrows(st');
          RunGrows(after, Finalise(st'));
          if Run(rest, st).Ok? {
            var t := Run(rest, st).value;
            GrowsTransitive(st, Finalise(st'), Scan("", "", t.args, t.keys, t.kwargs));
          }
      } else if c == '-' {
        DashGrows(rest[1..], st);
        match Dash(rest[1..], st)
        case Err(_) =>
        case Ok((after, st')) =>
          RunGrows(after, st');
          if Run(rest, st).Ok? {
            var t := Run(rest, st).value;
            GrowsTransitive(st, st', Scan("", "", t.args, t.keys, t.kwargs));
          }
      } else if c == ' ' {
        var st' := if st.value != "" then Finalise(st) else st;
        if st.value != "" {
          FinaliseGrows(st);
        }
        RunGrows(rest[1..], st');
        if Run(rest, st).Ok? {
          var t := Run(rest, st).value;
          GrowsTransitive(st, st', Scan("", "", t.args, t.keys, t.kwargs));
        }
      } else {
        RunGrows(rest[1..], st.(value := st.value + [c]));
      }
    }
  }

  /** Every flag name appears once in `keys`, and `keys` are exactly the flags. */
  lemma TokenizeIsWellKeyed(content: string)
    ensures Tokenize(content).Ok? ==> WellKeyed(Tokenize(content).value.keys, Tokenize(content).value.kwargs)
  {
    RunGrows(content, Start);
  }

  // ---------------------------------------------------------------------
  // Worked inputs

  lemma {:induction false} WordStep(w: string, rest: string, st: Scan)
    requires Plain(w) && ' ' !in w
    ensures Run(w + rest, st) == Run(rest, st.(value := st.value + w))
  {
    if w == [] {
      assert w + rest == rest && st.value + w == st.value;
    } else {
      assert w[0] in w && Plain(w[1..]);
      assert (w + rest)[0] == w[0] && (w + rest)[1..] == w[1..] + rest;
      WordStep(w[1..], rest, st.(value := st.value + [w[0]]));
      assert st.value + [w[0]] + w[1..] == st.value + w;
    }
  }

  lemma SpaceStep(rest: string, st: Scan)
    ensures Run([' '] + rest, st) == Run(rest, if st.value != "" then Finalise(st) else st)
  {
    assert ([' '] + rest)[1..] == rest;
  }

  /** Below U+00AB only the two straight quotes open a quoted span. */
  lemma AsciiQuotes(c: char)
    requires c < '\U{00AB}'
    ensures c in Quotes <==> c == '"' || c == '\''
    ensures c == '"' ==> Quotes[c] == '"'
  {
  }

  lemma LowercaseIsPlain(w: string)
    requires forall i :: 0 <= i < |w| ==> 'a' <= w[i] <= 'z'
    ensures Plain(w) && ' ' !in w
  {
    forall i | 0 <= i < |w| ensures w[i] !in Quotes {
      AsciiQuotes(w[i]);
    }
  }
}
