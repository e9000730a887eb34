/** `CommandManager` (sail/impl/command_manager.py): the table of
    registered commands, keyed by name and by every alias in insertion
    order, and the `prepare` step that cuts a message into prefix, command
    name and invocation. */
module CommandManagers {
  import opened Wrappers
  import opened Strings
  import opened Errors
  import opened Commands
  import opened SignatureParsers

  // ---------------------------------------------------------------------
  // The registry

  /** `_commands`: the keys in insertion order and the mapping itself. */
  datatype Registry = Registry(keys: seq<string>, table: map<string, Command>)

  const EmptyRegistry := Registry([], map[])

  /** A Python dict: each key once, and the order holds exactly the keys of
      the mapping. */
  ghost predicate WellFormed(r: Registry) {
    && (forall i, j :: 0 <= i < j < |r.keys| ==> r.keys[i] != r.keys[j])
    && (forall k :: k in r.keys <==> k in r.table)
  }

  /** The names a command is registered under: its name, then its aliases. */
  function CommandNames(c: Command): seq<string> {
    [c.name] + c.aliases
  }

  /** `_add_command(name, command)` */
  function Register(r: Registry, name: string, c: Command): Result<Registry, Error> {
    if name in r.table then Err(RuntimeError(AlreadyRegistered(name)))
    else Ok(Registry(r.keys + [name], r.table[name := c]))
  }

  /** The loop of `add_command`: register each name in turn; the first
      collision raises and the names before it stay registered. */
  function RegisterAll(r: Registry, names: seq<string>, c: Command): (Registry, Option<Error>)
    decreases |names|
  {
    if names == [] then (r, None)
    else match Register(r, names[0], c)
      case Err(e) => (r, Some(e))
      case Ok(r') => RegisterAll(r', names[1..], c)
  }

  /** `keys` with the entry `name` deleted. */
  function RemoveKey<T(==)>(keys: seq<T>, name: T): seq<T>
    decreases |keys|
  {
    if keys == [] then []
    else if keys[0] == name then keys[1..]
    else [keys[0]] + RemoveKey(keys[1..], name)
  }

  /** `_commands.pop(name)` */
  function Unregister(r: Registry, name: string): Result<Registry, Error> {
    if name !in r.table then Err(KeyError(name))
    else Ok(Registry(RemoveKey(r.keys, name), r.table - {name}))
  }

  /** The loop of `remove_command`: pop each name in turn; the first missing
      one raises and the names before it stay removed. */
  function UnregisterAll(r: Registry, names: seq<string>): (Registry, Option<Error>)
    decreases |names|
  {
    if names == [] then (r, None)
    else match Unregister(r, names[0])
      case Err(e) => (r, Some(e))
      case Ok(r') => UnregisterAll(r', names[1..])
  }

  /** Every name of `names` mapped to `c`. */
  function Assign(names: seq<string>, c: Command): map<string, Command> {
    map n | n in names :: c
  }

  /** No name twice. */
  predicate Distinct(names: seq<string>) {
    forall i, j :: 0 <= i < j < |names| ==> names[i] != names[j]
  }

  /** `names` can be registered one after another on top of the keys `ks`. */
  predicate CanRegister(ks: set<string>, names: seq<string>)
    decreases |names|
  {
    names == [] || (names[0] !in ks && CanRegister(ks + {names[0]}, names[1..]))
  }

  /** `names` can be popped one after another from the keys `ks`. */
  predicate CanUnregister(ks: set<string>, names: seq<string>)
    decreases |names|
  {
    names == [] || (names[0] in ks && CanUnregister(ks - {names[0]}, names[1..]))
  }

  lemma DistinctTail(names: seq<string>)
    requires names != [] && Distinct(names)
    ensures Distinct(names[1..]) && names[0] !in names[1..]
  {
    var tail := names[1..];
    forall i, j | 0 <= i < j < |tail| ensures tail[i] != tail[j] {
      assert tail[i] == names[i + 1] && tail[j] == names[j + 1];
    }
    forall i | 0 <= i < |tail| ensures tail[i] != names[0] {
      assert tail[i] == names[i + 1];
    }
  }

  lemma DistinctCons(names: seq<string>)
    requires names != [] && Distinct(names[1..]) && names[0] !in names[1..]
    ensures Distinct(names)
  {
    var tail := names[1..];
    forall i, j | 0 <= i < j < |names| ensures names[i] != names[j] {
      assert names[j] == tail[j - 1];
      if i > 0 {
        assert names[i] == tail[i - 1];
      }
    }
  }

  /** Registration is possible exactly when the names are distinct and none
      is taken. */
  lemma {:induction false} CanRegisterIff(ks: set<string>, names: seq<string>)
    ensures CanRegister(ks, names) <==> Distinct(names) && forall n :: n in names ==> n !in ks
    decreases |names|
  {
    if names != [] {
      var n := names[0];
      var tail := names[1..];
      CanRegisterIff(ks + {n}, tail);
      assert forall m :: m in names <==> m == n || m in tail;
      if Distinct(names) {
        DistinctTail(names);
      }
      if Distinct(tail) && n !in tail {
        DistinctCons(names);
      }
    }
  }

  /** Removal is possible exactly when the names are distinct and all
      present. */
  lemma {:induction false} CanUnregisterIff(ks: set<string>, names: seq<string>)
    ensures CanUnregister(ks, names) <==> Distinct(names) && forall n :: n in names ==> n in ks
    decreases |names|
  {
    if names != [] {
      var n := names[0];
      var tail := names[1..];
      CanUnregisterIff(ks - {n}, tail);
      assert forall m :: m in names <==> m == n || m in tail;
      if Distinct(names) {
        DistinctTail(names);
      }
      if Distinct(tail) && n !in tail {
        DistinctCons(names);
      }
    }
  }

  lemma RemoveKeyMembers(keys: seq<string>, name: string)
    requires Distinct(keys)
    ensures Distinct(RemoveKey(keys, name))
    ensures forall k :: k in RemoveKey(keys, name) <==> k in keys && k != name
    decreases |keys|
  {
    if keys != [] {
      var tail := keys[1..];
      DistinctTail(keys);
      RemoveKeyMembers(tail, name);
      if keys[0] != name {
        var r := RemoveKey(keys, name);
        assert r[1..] == RemoveKey(tail, name);
        DistinctCons(r);
      }
    }
  }

  /** Deleting a key that follows `front` keeps `front` and the keys after. */
  lemma {:induction false} RemoveKeyAfter<T>(front: seq<T>, name: T, back: seq<T>)
    requires name !in front
    ensures RemoveKey(front + [name] + back, name) == front + back
    decreases |front|
  {
    if front == [] {
      assert front + [name] + back == [name] + back;
    } else {
      assert (front + [name] + back)[1..] == front[1..] + [name] + back;
      RemoveKeyAfter(front[1..], name, back);
      assert [front[0]] + (front[1..] + back) == front + back;
    }
  }

  /** Registration keeps the registry a well-formed dict. */
  lemma RegisterKeepsWellFormed(r: Registry, name: string, c: Command)
    requires WellFormed(r)
    ensures Register(r, name, c).Ok? ==> WellFormed(Register(r, name, c).value)
  {
    if Register(r, name, c).Ok? {
      var k := r.keys + [name];
      forall i, j | 0 <= i < j < |k| ensures k[i] != k[j] {
        if j == |r.keys| {
          assert k[i] == r.keys[i] && r.keys[i] in r.keys;
        } else {
          assert k[i] == r.keys[i] && k[j] == r.keys[j];
        }
      }
    }
  }

  /** ... and so does removal. */
  lemma UnregisterKeepsWellFormed(r: Registry, name: string)
    requires WellFormed(r)
    ensures Unregister(r, name).Ok? ==> WellFormed(Unregister(r, name).value)
  {
    RemoveKeyMembers(r.keys, name);
  }

  lemma {:induction false} RegisterAllWellFormed(r: Registry, names: seq<string>, c: Command)
    requires WellFormed(r)
    ensures WellFormed(RegisterAll(r, names, c).0)
    decreases |names|
  {
    if names != [] {
      RegisterKeepsWellFormed(r, names[0], c);
      if Register(r, names[0], c).Ok? {
        RegisterAllWellFormed(Register(r, names[0], c).value, names[1..], c);
      }
    }
  }

  lemma {:induction false} UnregisterAllWellFormed(r: Registry, names: seq<string>)
    requires WellFormed(r)
    ensures WellFormed(UnregisterAll(r, names).0)
    decreases |names|
  {
    if names != [] {
      UnregisterKeepsWellFormed(r, names[0]);
      if Unregister(r, names[0]).Ok? {
        UnregisterAllWellFormed(Unregister(r, names[0]).value, names[1..]);
      }
    }
  }

  lemma AssignCons(t: map<string, Command>, names: seq<string>, c: Command)
    requires names != []
    ensures t[names[0] := c] + Assign(names[1..], c) == t + Assign(names, c)
  {
    assert forall m :: m in names <==> m == names[0] || m in names[1..];
  }

  /** `add_command` succeeds exactly when its names can be registered; the
      mapping then gains every name mapped to the command and the order
      gains the names, the command's name first. */
  lemma {:induction false} RegisterAllFresh(r: Registry, names: seq<string>, c: Command)
    ensures RegisterAll(r, names, c).1.None? <==> CanRegister(r.table.Keys, names)
    ensures RegisterAll(r, names, c).1.None? ==>
      RegisterAll(r, names, c).0 == Registry(r.keys + names, r.table + Assign(names, c))
    decreases |names|
  {
    if names != [] {
      var n := names[0];
      if n !in r.table {
        var r' := Register(r, n, c).value;
        assert r'.table.Keys == r.table.Keys + {n};
        RegisterAllFresh(r', names[1..], c);
        assert r'.keys + names[1..] == r.keys + names;
        AssignCons(r.table, names, c);
      }
    }
  }

  /** On a collision `add_command` raises for the first name that is
      already registered or repeats an earlier one, with every name before
      it still registered (there is no rollback). */
  lemma {:induction false} RegisterAllCollision(r: Registry, front: seq<string>, x: string, rest: seq<string>, c: Command)
    requires CanRegister(r.table.Keys, front)
    requires x in r.table || x in front
    ensures RegisterAll(r, front + [x] + rest, c) ==
      (Registry(r.keys + front, r.table + Assign(front, c)), Some(RuntimeError(AlreadyRegistered(x))))
    decreases |front|
  {
    var names := front + [x] + rest;
    if front == [] {
      assert names == [x] + rest;
      assert r.keys + front == r.keys;
      assert r.table + Assign(front, c) == r.table;
    } else {
      var n := front[0];
      var r' := Register(r, n, c).value;
      assert r'.table.Keys == r.table.Keys + {n};
      assert x in r'.table || x in front[1..] by {
        assert forall m :: m in front <==> m == n || m in front[1..];
      }
      assert names[0] == n && names[1..] == front[1..] + [x] + rest;
      RegisterAllCollision(r', front[1..], x, rest, c);
      assert r'.keys + front[1..] == r.keys + front;
      AssignCons(r.table, front, c);
    }
  }

  lemma {:induction false} CanRegisterShrinks(ks: set<string>, x: string, names: seq<string>)
    requires CanRegister(ks + {x}, names)
    ensures CanRegister(ks, names) && x !in names
    decreases |names|
  {
    if names != [] {
      assert ks + {x} + {names[0]} == ks + {names[0]} + {x};
      CanRegisterShrinks(ks + {names[0]}, x, names[1..]);
      assert forall m :: m in names <==> m == names[0] || m in names[1..];
    }
  }

  /** Removing a command right after adding it restores the registry:
      `remove_command` undoes a successful `add_command`. */
  lemma {:induction false} RegisterThenUnregister(r: Registry, names: seq<string>, c: Command)
    requires WellFormed(r) && CanRegister(r.table.Keys, names)
    ensures RegisterAll(r, names, c).1.None?
    ensures UnregisterAll(RegisterAll(r, names, c).0, names) == (r, None)
  {
    RegisterAllFresh(r, names, c);
    UnregisterAdded(r, names, c);
  }

  lemma {:induction false} UnregisterAdded(r: Registry, names: seq<string>, c: Command)
    requires WellFormed(r) && CanRegister(r.table.Keys, names)
    ensures UnregisterAll(Registry(r.keys + names, r.table + Assign(names, c)), names) == (r, None)
    decreases |names|
  {
    if names == [] {
      assert r.keys + names == r.keys && r.table + Assign(names, c) == r.table;
    } else {
      var tail := names[1..];
      CanRegisterShrinks(r.table.Keys, names[0], tail);
      UnregisterAdded(r, tail, c);
      UnregisterFirstAdded(r, names, c);
    }
  }

  lemma UnregisterFirstAdded(r: Registry, names: seq<string>, c: Command)
    requires WellFormed(r) && names != [] && names[0] !in r.table && names[0] !in names[1..]
    ensures Unregister(Registry(r.keys + names, r.table + Assign(names, c)), names[0]) ==
      Ok(Registry(r.keys + names[1..], r.table + Assign(names[1..], c)))
  {
    var n := names[0];
    var tail := names[1..];
    assert n !in r.keys;
    assert r.keys + names == r.keys + [n] + tail;
    RemoveKeyAfter(r.keys, n, tail);
    assert forall m :: m in names <==> m == n || m in tail;
    assert (r.table + Assign(names, c)) - {n} == r.table + Assign(tail, c);
  }

  /** `remove_command` succeeds exactly when its names can be popped; the
      names are then gone and nothing else changes. */
  lemma {:induction false} UnregisterAllPresent(r: Registry, names: seq<string>)
    ensures UnregisterAll(r, names).1.None? <==> CanUnregister(r.table.Keys, names)
    ensures UnregisterAll(r, names).1.None? ==>
      UnregisterAll(r, names).0.table == r.table - set n | n in names
    decreases |names|
  {
    if names != [] {
      var n := names[0];
      if n in r.table {
        var r' := Unregister(r, n).value;
        assert r'.table.Keys == r.table.Keys - {n};
        UnregisterAllPresent(r', names[1..]);
        assert (set m | m in names) == {n} + set m | m in names[1..];
      }
    }
  }

  /** On a missing name `remove_command` raises `KeyError` for the first one
      that is not (or no longer) registered, the names before it removed. */
  lemma {:induction false} UnregisterAllMissing(r: Registry, names: seq<string>, i: nat)
    requires i < |names| && CanUnregister(r.table.Keys, names[..i])
    requires names[i] !in r.table || names[i] in names[..i]
    ensures UnregisterAll(r, names).1 == Some(KeyError(names[i]))
    ensures UnregisterAll(r, names).0.table == r.table - set n | n in names[..i]
    decreases i
  {
    if i == 0 {
      assert names[..0] == [];
      assert (set n | n in names[..0]) == {};
    } else {
      var n := names[0];
      var tail := names[1..];
      assert names[..i][0] == n && names[..i][1..] == tail[..i - 1];
      var r' := Unregister(r, n).value;
      assert r'.table.Keys == r.table.Keys - {n};
      assert tail[i - 1] == names[i];
      assert forall m :: m in names[..i] <==> m == n || m in tail[..i - 1];
      UnregisterAllMissing(r', tail, i - 1);
      var front := tail[..i - 1];
      assert (set m | m in names[..i]) == {n} + set m | m in front;
    }
  }

  /** `tuple(_commands.values())`: the command under each key, in insertion
      order; a command with aliases appears once per name. */
  function Listed(r: Registry): (cs: seq<Command>)
    requires WellFormed(r)
    ensures |cs| == |r.keys|
    ensures forall i :: 0 <= i < |r.keys| ==> r.keys[i] in r.table && cs[i] == r.table[r.keys[i]]
  {
    seq(|r.keys|, i requires 0 <= i < |r.keys| => r.table[r.keys[i]])
  }

  /** A command is listed exactly when some name maps to it. */
  lemma ListedCommands(r: Registry, c: Command)
    requires WellFormed(r)
    ensures c in Listed(r) <==> exists k :: k in r.table && r.table[k] == c
  {
    var cs := Listed(r);
    if exists k :: k in r.table && r.table[k] == c {
      var k :| k in r.table && r.table[k] == c;
      var i :| 0 <= i < |r.keys| && r.keys[i] == k;
      assert cs[i] == c;
    }
  }

  /** After `add_command`, `get_command` finds the command under its name
      and under each alias. */
  lemma RegisteredIsFound(r: Registry, c: Command)
    requires RegisterAll(r, CommandNames(c), c).1.None?
    ensures forall n :: n in CommandNames(c) ==>
      n in RegisterAll(r, CommandNames(c), c).0.table && RegisterAll(r, CommandNames(c), c).0.table[n] == c
  {
    RegisterAllFresh(r, CommandNames(c), c);
  }

  // ---------------------------------------------------------------------
  // The prefix `prepare`

  /** `(prefix, invoked_with, invocation)`; all `None` when the message is
      not a command. */
  datatype Metadata = Metadata(prefix: Option<string>, invokedWith: Option<string>, invocation: Option<string>)

  const NotACommand := Metadata(None, None, None)

  /** The `prepare` in effect: the protocol's own, whose body is `...` and so
      returns `None`, or a callback installed by `set_prepare_callback`. */
  datatype Prepare =
    | ProtocolStub
    | Custom(callback: string -> Result<Metadata, Error>)

  /** What `prepare(content)` evaluates to, with the tuple unpacking of
      `try_invoke`: unpacking `None` raises. */
  function RunPrepare(p: Prepare, content: string): Result<Metadata, Error> {
    match p
    case ProtocolStub => Err(TypeError(PrepareReturnedNone))
    case Custom(f) => f(content)
  }

  /** The index of the first prefix, in the order given, that `content`
      starts with. */
  function FirstPrefix(prefixes: seq<string>, content: string, from: nat): (r: Option<nat>)
    requires from <= |prefixes|
    ensures r.Some? ==> from <= r.value < |prefixes| && StartsWith(content, prefixes[r.value])
    ensures r.Some? ==> forall j :: from <= j < r.value ==> !StartsWith(content, prefixes[j])
    ensures r.None? <==> forall j :: from <= j < |prefixes| ==> !StartsWith(content, prefixes[j])
    decreases |prefixes| - from
  {
    if from == |prefixes| then None
    else if StartsWith(content, prefixes[from]) then Some(from)
    else FirstPrefix(prefixes, content, from + 1)
  }

  predicate AllSpace(s: string) {
    forall i :: 0 <= i < |s| ==> IsSpace(s[i])
  }

  predicate NoSpace(s: string) {
    forall i :: 0 <= i < |s| ==> !IsSpace(s[i])
  }

  /** The first index at or after `from` that holds whitespace. */
  function SkipWord(s: string, from: nat): (r: nat)
    requires from <= |s|
    ensures from <= r <= |s| && (r < |s| ==> IsSpace(s[r]))
    ensures forall m :: from <= m < r ==> !IsSpace(s[m])
    decreases |s| - from
  {
    if from == |s| || IsSpace(s[from]) then from else SkipWord(s, from + 1)
  }

  /** `s.split(maxsplit=1)`: no parts for a blank string; otherwise the first
      word and, when anything but whitespace follows it, the rest from the
      next non-whitespace character on. (The `lstrip()` applied before the
      split in the source changes nothing, since `split()` skips leading
      whitespace itself.) */
  function SplitOnce(s: string): seq<string> {
    var j := SkipSpace(s, 0);
    if j == |s| then []
    else
      var k := SkipWord(s, j);
      var l := SkipSpace(s, k);
      if l == |s| then [s[j..k]] else [s[j..k], s[l..]]
  }

  /** The tuple `_prepare` builds from the matched prefix and the split. */
  function Shape(prefix: string, split: seq<string>): (r: Result<Metadata, Error>)
    ensures r.Ok? ==> r.value.prefix == Some(prefix) && r.value.invokedWith.Some? && r.value.invocation.Some?
    ensures r.Err? <==> split == []
  {
    if |split| >= 2 then Ok(Metadata(Some(prefix), Some(Strip(split[0])), Some(Strip(split[1]))))
    else if |split| == 1 then Ok(Metadata(Some(prefix), Some(Strip(split[0])), Some("")))
    else Err(IndexError)
  }

  /** The `_prepare` that `generate_prefix_prepare(*prefixes)` returns. */
  function PrefixPrepare(prefixes: seq<string>, content: string): Result<Metadata, Error> {
    var c := Strip(content);
    match FirstPrefix(prefixes, c, 0)
    case None => Ok(NotACommand)
    case Some(i) => Shape(prefixes[i], SplitOnce(c[|prefixes[i]|..]))
  }

  /** Stripping a string without outer whitespace changes nothing. */
  lemma StripUnchanged(s: string)
    requires s == [] || (!IsSpace(s[0]) && !IsSpace(s[|s| - 1]))
    ensures Strip(s) == s
  {
    if s != [] {
      assert |LStrip(s)| == |s|;
      assert |RStrip(s)| == |s|;
    }
  }

  /** A message that, stripped, starts with none of the prefixes is not a
      command. */
  lemma PrepareNoPrefix(prefixes: seq<string>, content: string)
    ensures PrefixPrepare(prefixes, content) == Ok(NotACommand) <==>
      forall j :: 0 <= j < |prefixes| ==> !StartsWith(Strip(content), prefixes[j])
  {
    var c := Strip(content);
    match FirstPrefix(prefixes, c, 0)
    case None =>
    case Some(i) =>
      assert prefixes[i] == prefixes[i];
  }

  /** A message that is only a prefix and whitespace raises `IndexError`;
      nothing else does. */
  lemma PrepareOnlyPrefix(prefixes: seq<string>, content: string)
    ensures PrefixPrepare(prefixes, content) == Err(IndexError) <==>
      var i := FirstPrefix(prefixes, Strip(content), 0);
      i.Some? && AllSpace(Strip(content)[|prefixes[i.value]|..])
  {
    var c := Strip(content);
    if FirstPrefix(prefixes, c, 0).Some? {
      var s := c[|prefixes[FirstPrefix(prefixes, c, 0).value]|..];
      if SkipSpace(s, 0) < |s| {
        assert !IsSpace(s[SkipSpace(s, 0)]);
      }
    }
  }

  /** How `split(maxsplit=1)` cuts a string that is not blank: a non-empty
      word after the leading whitespace and, when anything but whitespace
      follows it, the rest from the next non-whitespace character on. */
  lemma SplitOnceShape(s: string)
    requires SkipSpace(s, 0) < |s|
    ensures var j := SkipSpace(s, 0); var k := SkipWord(s, j); var l := SkipSpace(s, k);
      && j < k && (l < |s| ==> k < l)
      && SplitOnce(s) == (if l == |s| then [s[j..k]] else [s[j..k], s[l..]])
  {
  }

  /** A run of non-space characters is a word that stripping leaves alone. */
  lemma WordSlice(s: string, j: nat, k: nat)
    requires j < k <= |s|
    requires forall m :: j <= m < k ==> !IsSpace(s[m])
    ensures var w := s[j..k]; w != "" && NoSpace(w) && Strip(w) == w
  {
    var w := s[j..k];
    assert forall m :: 0 <= m < |w| ==> w[m] == s[j + m];
    StripUnchanged(w);
  }

  /** A run of white space, sliced out, is all white space. */
  lemma SpaceSlice(s: string, j: nat, k: nat)
    requires j <= k <= |s|
    requires forall m :: j <= m < k ==> IsSpace(s[m])
    ensures AllSpace(s[j..k])
  {
    assert forall m :: 0 <= m < k - j ==> s[j..k][m] == s[j + m];
  }

  /** A suffix that starts and ends with non-space is already stripped. */
  lemma TailSlice(s: string, l: nat)
    requires l < |s| && !IsSpace(s[l]) && !IsSpace(s[|s| - 1])
    ensures Strip(s[l..]) == s[l..]
  {
    var v := s[l..];
    assert v[0] == s[l] && v[|v| - 1] == s[|s| - 1];
    StripUnchanged(v);
  }

  /** Otherwise the message is the prefix, whitespace, the command name (a
      non-empty word), and, after more whitespace, the invocation, which has
      no outer whitespace. */
  lemma PrepareParts(prefixes: seq<string>, content: string)
    requires PrefixPrepare(prefixes, content).Ok? && PrefixPrepare(prefixes, content) != Ok(NotACommand)
    ensures var m := PrefixPrepare(prefixes, content).value;
      && m.prefix.Some? && m.invokedWith.Some? && m.invocation.Some?
      && m.invokedWith.value != "" && NoSpace(m.invokedWith.value)
      && Strip(m.invocation.value) == m.invocation.value
      && exists gap1, gap2 :: AllSpace(gap1) && AllSpace(gap2)
           && (m.invocation.value != "" ==> gap2 != "")
           && Strip(content) == m.prefix.value + gap1 + m.invokedWith.value + gap2 + m.invocation.value
  {
    var c := Strip(content);
    var i := FirstPrefix(prefixes, c, 0).value;
    var p := prefixes[i];
    var s := c[|p|..];
    assert PrefixPrepare(prefixes, content) == Shape(p, SplitOnce(s));
    assert SkipSpace(s, 0) < |s| by {
      assert SplitOnce(s) != [];
    }
    assert !IsSpace(c[|c| - 1]) by {
      assert |s| == |c| - |p|;
    }
    ShapeName(p, s);
    ShapeRest(p, s);
    ShapeGaps(p, c);
  }

  /** The prefix reported is the first, in the order given, that the
      stripped message starts with. */
  lemma PreparePrefix(prefixes: seq<string>, content: string)
    requires PrefixPrepare(prefixes, content).Ok? && PrefixPrepare(prefixes, content) != Ok(NotACommand)
    ensures var m := PrefixPrepare(prefixes, content).value;
      && m.prefix.Some?
      && exists i :: 0 <= i < |prefixes| && prefixes[i] == m.prefix.value
           && StartsWith(Strip(content), prefixes[i])
           && forall j :: 0 <= j < i ==> !StartsWith(Strip(content), prefixes[j])
  {
  }

  /** The command name is the first word after the prefix. */
  lemma ShapeName(p: string, s: string)
    requires SkipSpace(s, 0) < |s|
    ensures var m := Shape(p, SplitOnce(s)).value; var j := SkipSpace(s, 0);
      && m.invokedWith.value == s[j..SkipWord(s, j)]
      && m.invokedWith.value != "" && NoSpace(m.invokedWith.value)
  {
    var j := SkipSpace(s, 0);
    SplitOnceShape(s);
    WordSlice(s, j, SkipWord(s, j));
  }

  /** The invocation is what follows the name and the whitespace after it,
      and it has no outer whitespace. */
  lemma ShapeRest(p: string, s: string)
    requires SkipSpace(s, 0) < |s| && !IsSpace(s[|s| - 1])
    ensures var m := Shape(p, SplitOnce(s)).value; var l := SkipSpace(s, SkipWord(s, SkipSpace(s, 0)));
      && m.invocation.value == (if l < |s| then s[l..] else "")
      && Strip(m.invocation.value) == m.invocation.value
  {
    var l := SkipSpace(s, SkipWord(s, SkipSpace(s, 0)));
    SplitOnceShape(s);
    if l < |s| {
      TailSlice(s, l);
    }
  }

  /** Between the prefix, the name and the invocation lies only whitespace,
      and some lies before a non-empty invocation. */
  lemma ShapeGaps(p: string, c: string)
    requires |p| <= |c| && c[..|p|] == p
    requires SkipSpace(c[|p|..], 0) < |c| - |p| && !IsSpace(c[|c| - 1])
    ensures var m := Shape(p, SplitOnce(c[|p|..])).value;
      exists gap1, gap2 :: AllSpace(gap1) && AllSpace(gap2)
        && (m.invocation.value != "" ==> gap2 != "")
        && c == p + gap1 + m.invokedWith.value + gap2 + m.invocation.value
  {
    var s := c[|p|..];
    assert s[|s| - 1] == c[|c| - 1];
    var j := SkipSpace(s, 0);
    var k := SkipWord(s, j);
    var l := SkipSpace(s, k);
    var m := Shape(p, SplitOnce(s)).value;
    assert AllSpace(s[..j]) by {
      SpaceSlice(s, 0, j);
      assert s[..j] == s[0..j];
    }
    assert AllSpace(s[k..l]) by {
      SpaceSlice(s, k, l);
    }
    assert m.invocation.value != "" ==> s[k..l] != "" by {
      SplitOnceShape(s);
      ShapeRest(p, s);
    }
    assert c == p + s[..j] + m.invokedWith.value + s[k..l] + m.invocation.value by {
      ShapeName(p, s);
      ShapeRest(p, s);
      PrefixSlices(c, p, j, k, l);
      assert s[l..] == m.invocation.value;
    }
    PartsWitness(c, p, s[..j], m.invokedWith.value, s[k..l], m.invocation.value);
  }

  lemma PrefixSlices(c: string, p: string, j: nat, k: nat, l: nat)
    requires |p| <= |c| && c[..|p|] == p && j <= k <= l <= |c| - |p|
    ensures var s := c[|p|..]; c == p + s[..j] + s[j..k] + s[k..l] + s[l..]
  {
    var s := c[|p|..];
    var n := |p|;
    assert c[..n + j] == p + s[..j];
    assert c[..n + k] == c[..n + j] + s[j..k];
    assert c[..n + l] == c[..n + k] + s[k..l];
    assert c == c[..n + l] + s[l..];
  }

  /** The shape of a successful prepare, stated with the pieces named. */
  lemma PartsWitness(c: string, p: string, gap1: string, w: string, gap2: string, v: string)
    requires AllSpace(gap1) && AllSpace(gap2) && (v != "" ==> gap2 != "")
    requires c == p + gap1 + w + gap2 + v
    ensures exists g1, g2 :: AllSpace(g1) && AllSpace(g2) && (v != "" ==> g2 != "") && c == p + g1 + w + g2 + v
  {
  }

  /** `_prepare` as the source runs it: the `for`/`else` over the prefixes
      stops at the first one the stripped message starts with. */
  method RunPrefixPrepare(prefixes: seq<string>, content: string) returns (r: Result<Metadata, Error>)
    ensures r == PrefixPrepare(prefixes, content)
  {
    var c := Strip(content);
    var i := 0;
    while i < |prefixes| && !StartsWith(c, prefixes[i])
      invariant i <= |prefixes|
      invariant FirstPrefix(prefixes, c, i) == FirstPrefix(prefixes, c, 0)
    {
      i := i + 1;
    }
    if i == |prefixes| {
      return Ok(NotACommand);
    }
    var p := prefixes[i];
    return Shape(p, SplitOnce(c[|p|..]));
  }

  // ---------------------------------------------------------------------
  // Dispatch

  /** The command `try_invoke` hands a message to, with the three strings
      it passes on. */
  datatype Target = Target(command: Command, prefix: string, invokedWith: string, invocation: string)

  /** The guards of `try_invoke`: a missing part of the metadata or a name
      that is not registered means the message is ignored. */
  function Route(r: Registry, m: Metadata): Option<Target> {
    if m.invokedWith.None? || m.prefix.None? || m.invocation.None? then None
    else if m.invokedWith.value !in r.table then None
    else Some(Target(r.table[m.invokedWith.value], m.prefix.value, m.invokedWith.value, m.invocation.value))
  }

  /** A message the prefix `prepare` does not recognise is ignored whatever
      is registered. */
  lemma NoPrefixIgnored(r: Registry, prefixes: seq<string>, content: string)
    requires forall j :: 0 <= j < |prefixes| ==> !StartsWith(Strip(content), prefixes[j])
    ensures PrefixPrepare(prefixes, content) == Ok(NotACommand)
    ensures Route(r, NotACommand) == None
  {
    PrepareNoPrefix(prefixes, content);
  }

  /** Once `add_command(c)` has succeeded, a message whose command name is
      the name or an alias of `c` is routed to `c`, with the prefix, the
      name as typed and the invocation that `prepare` cut out. */
  lemma AddedIsRouted(r: Registry, c: Command, m: Metadata)
    requires RegisterAll(r, CommandNames(c), c).1.None?
    requires m.prefix.Some? && m.invocation.Some? && m.invokedWith.Some?
    requires m.invokedWith.value in CommandNames(c)
    ensures Route(RegisterAll(r, CommandNames(c), c).0, m) ==
      Some(Target(c, m.prefix.value, m.invokedWith.value, m.invocation.value))
  {
    RegisteredIsFound(r, c);
  }

  /** Once `remove_command(c)` has succeeded, no name of `c` routes
      anywhere. */
  lemma RemovedIsNotRouted(r: Registry, c: Command, m: Metadata)
    requires UnregisterAll(r, CommandNames(c)).1.None?
    requires m.invokedWith.Some? && m.invokedWith.value in CommandNames(c)
    ensures Route(UnregisterAll(r, CommandNames(c)).0, m) == None
  {
    UnregisterAllPresent(r, CommandNames(c));
  }

  /** What awaiting `command.invoke(...)` computes for a routed message. */
  function Dispatched(t: Target): Result<Option<Context>, Error>
    reads t.command, t.command.Repr()
  {
    match t.command.Parsed(t.invocation)
    case Err(e) => Err(e)
    case Ok((args, kwargs)) => Ok(Some(Context(t.command, t.prefix, t.invokedWith, args, kwargs)))
  }

  // ---------------------------------------------------------------------
  // The manager

  class CommandManager {
    /** `_commands`: the keys in insertion order and the mapping. */
    var keys: seq<string>
    var table: map<string, Command>
    /** `prepare`: the protocol's stub until `set_prepare_callback`
        replaces it. */
    var prepare: Prepare

    function State(): Registry
      reads this
    {
      Registry(keys, table)
    }

    ghost predicate Valid()
      reads this
    {
      WellFormed(State())
    }

    /** `CommandManager()`: no commands, the protocol's `prepare`. */
    constructor ()
      ensures State() == EmptyRegistry && prepare == ProtocolStub
      ensures Valid()
    {
      keys := [];
      table := map[];
      prepare := ProtocolStub;
    }

    /** `CommandManager.with_prefix(*prefixes)` */
    static method WithPrefix(prefixes: seq<string>) returns (manager: CommandManager)
      ensures fresh(manager) && manager.Valid() && manager.State() == EmptyRegistry
      ensures manager.prepare.Custom?
      ensures forall content :: manager.prepare.callback(content) == PrefixPrepare(prefixes, content)
    {
      manager := new CommandManager();
      manager.SetPrepareCallback(content => PrefixPrepare(prefixes, content));
    }

    /** `set_prepare_callback(callback)` */
    method SetPrepareCallback(callback: string -> Result<Metadata, Error>)
      modifies this
      ensures prepare == Custom(callback) && State() == old(State())
    {
      prepare := Custom(callback);
    }

    /** The `commands` property. */
    method Commands() returns (cs: seq<Command>)
      requires Valid()
      ensures cs == Listed(State())
    {
      cs := Listed(State());
    }

    /** `get_command(name)` */
    method GetCommand(name: string) returns (r: Option<Command>)
      ensures r.Some? <==> name in State().table
      ensures r.Some? ==> r.value == State().table[name]
    {
      if name in table {
        return Some(table[name]);
      }
      return None;
    }

    /** `_add_command(name, command)` */
    method AddName(name: string, c: Command) returns (err: Option<Error>)
      requires Valid()
      modifies this
      ensures Valid() && prepare == old(prepare)
      ensures match Register(old(State()), name, c)
        case Ok(r) => State() == r && err.None?
        case Err(e) => State() == old(State()) && err == Some(e)
    {
      RegisterKeepsWellFormed(State(), name, c);
      if name in table {
        return Some(RuntimeError(AlreadyRegistered(name)));
      }
      keys := keys + [name];
      table := table[name := c];
      return None;
    }

    /** `add_command(command)`: the name, then each alias; the error of
        the first collision propagates with the names before it kept. */
    method AddCommand(c: Command) returns (err: Option<Error>)
      requires Valid()
      modifies this
      ensures Valid() && prepare == old(prepare)
      ensures (State(), err) == RegisterAll(old(State()), CommandNames(c), c)
    {
      var names := CommandNames(c);
      assert names[0] == c.name && names[1..] == c.aliases;
      err := AddName(c.name, c);
      if err.Some? {
        return;
      }
      var i := 0;
      while i < |c.aliases|
        invariant i <= |c.aliases|
        invariant Valid() && prepare == old(prepare) && err.None?
        invariant RegisterAll(State(), c.aliases[i..], c) == RegisterAll(old(State()), names, c)
      {
        ghost var before := State();
        var rest := c.aliases[i..];
        assert rest[0] == c.aliases[i] && rest[1..] == c.aliases[i + 1..];
        err := AddName(c.aliases[i], c);
        if err.Some? {
          assert RegisterAll(before, rest, c) == (before, err);
          return;
        }
        assert RegisterAll(before, rest, c) == RegisterAll(State(), c.aliases[i + 1..], c);
        i := i + 1;
      }
      assert c.aliases[i..] == [];
    }

    /** `_commands.pop(name)` */
    method RemoveName(name: string) returns (err: Option<Error>)
      requires Valid()
      modifies this
      ensures Valid() && prepare == old(prepare)
      ensures match Unregister(old(State()), name)
        case Ok(r) => State() == r && err.None?
        case Err(e) => State() == old(State()) && err == Some(e)
    {
      UnregisterKeepsWellFormed(State(), name);
      if name !in table {
        return Some(KeyError(name));
      }
      keys := RemoveKey(keys, name);
      table := table - {name};
      return None;
    }

    /** `remove_command(command)`: the name, then each alias; the `KeyError`
        of the first missing one propagates with the names before it
        removed. */
    method RemoveCommand(c: Command) returns (err: Option<Error>)
      requires Valid()
      modifies this
      ensures Valid() && prepare == old(prepare)
      ensures (State(), err) == UnregisterAll(old(State()), CommandNames(c))
    {
      var names := CommandNames(c);
      assert names[0] == c.name && names[1..] == c.aliases;
      err := RemoveName(c.name);
      if err.Some? {
        return;
      }
      var i := 0;
      while i < |c.aliases|
        invariant i <= |c.aliases|
        invariant Valid() && prepare == old(prepare) && err.None?
        invariant UnregisterAll(State(), c.aliases[i..]) == UnregisterAll(old(State()), names)
      {
        ghost var before := State();
        var rest := c.aliases[i..];
        assert rest[0] == c.aliases[i] && rest[1..] == c.aliases[i + 1..];
        err := RemoveName(c.aliases[i]);
        if err.Some? {
          assert UnregisterAll(before, rest) == (before, err);
          return;
        }
        assert UnregisterAll(before, rest) == UnregisterAll(State(), c.aliases[i + 1..]);
        i := i + 1;
      }
      assert c.aliases[i..] == [];
    }

    /** The `command(name, description=..., aliases=..., string_parser=...)`
        decorator applied to a callback: build the command, then
        `add_command` it. */
    method DefineCommand(cb: Callback, givenName: Option<string>, givenDescription: Option<string>,
                         givenAliases: AliasesArg, givenParser: Option<string -> Result<KeyedTokens, Error>>)
      returns (r: Result<Command, Error>)
      requires Valid() && DistinctParams(cb.params)
      modifies this
      ensures Valid() && prepare == old(prepare)
      ensures Validate(cb.params).Err? ==> r == Err(Validate(cb.params).error) && State() == old(State())
      ensures Validate(cb.params).Ok? ==> exists c: Command ::
        && c.name == CommandName(givenName, cb) && c.aliases == NormaliseAliases(givenAliases)
        && State() == RegisterAll(old(State()), CommandNames(c), c).0
        && match RegisterAll(old(State()), CommandNames(c), c).1
           case None => r == Ok(c)
           case Some(e) => r == Err(e)
    {
      var made := Command.Create(cb, givenName, givenDescription, givenAliases, givenParser);
      if made.Err? {
        return Err(made.error);
      }
      var c := made.value;
      var err := AddCommand(c);
      if err.Some? {
        return Err(err.value);
      }
      return Ok(c);
    }

    /** `try_invoke(event)` on the event's content: run `prepare`, route
        the message and, when a command is found, invoke it. */
    method TryInvoke(content: string) returns (r: Result<Option<Context>, Error>)
      ensures match RunPrepare(prepare, content)
        case Err(e) => r == Err(e)
        case Ok(m) =>
          match Route(State(), m)
          case None => r == Ok(None)
          case Some(t) => r == Dispatched(t)
    {
      var meta := RunPrepareStep(content);
      if meta.Err? {
        return Err(meta.error);
      }
      var m := meta.value;
      if m.invokedWith.None? || m.prefix.None? || m.invocation.None? {
        return Ok(None);
      }
      var command := GetCommand(m.invokedWith.value);
      if command.None? {
        return Ok(None);
      }
      var ctx := command.value.Invoke(m.prefix.value, m.invokedWith.value, m.invocation.value);
      if ctx.Err? {
        return Err(ctx.error);
      }
      return Ok(Some(ctx.value));
    }

    /** `self.prepare(content)` */
    method RunPrepareStep(content: string) returns (r: Result<Metadata, Error>)
      ensures r == RunPrepare(prepare, content)
    {
      match prepare
      case ProtocolStub =>
        r := Err(TypeError(PrepareReturnedNone));
      case Custom(f) =>
        r := f(content);
    }
  }
}
