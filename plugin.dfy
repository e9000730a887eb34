/** `Plugin` (sail/impl/plugin.py): a bundle of commands and event
    listeners that is loaded into, and unloaded from, a client and a
    command manager. */
module Plugins {
  import opened Wrappers
  import opened Errors
  import opened SignatureParsers
  import opened Commands
  import opened CommandManagers

  /** The gateway client, known here only by identity. */
  class GatewayClient {
  }

  /** An event class, by its qualified name. */
  datatype EventType = EventType(qualname: string)

  /** An event callback: `id` stands for the function object's identity,
      `name` for its `__name__`, and `isCoroutine` for
      `asyncio.iscoroutinefunction`. */
  datatype Listener = Listener(id: nat, name: string, isCoroutine: bool)

  type Listeners = map<EventType, seq<Listener>>

  /** The argument of `remove_command`: a command or a name. */
  datatype CommandRef = ByCommand(command: Command) | ByName(name: string)

  function RefName(x: CommandRef): string {
    match x
    case ByCommand(c) => c.name
    case ByName(n) => n
  }

  // ---------------------------------------------------------------------
  // Commands

  /** `add_command(command)`: a name the plugin holds already is
      refused. */
  function PluginAdd(r: Registry, plugin: string, c: Command): Result<Registry, Error> {
    match Register(r, c.name, c)
    case Err(_) => Err(RuntimeError(PluginHasCommand(plugin, c.name)))
    case Ok(r') => Ok(r')
  }

  /** `remove_command(command)` as evidently intended: the name is the
      command's name or the string given, and a name the plugin does not
      hold is refused. */
  function PluginRemove(r: Registry, plugin: string, name: string): Result<Registry, Error> {
    match Unregister(r, name)
    case Err(_) => Err(RuntimeError(PluginLacksCommand(plugin, name)))
    case Ok(r') => Ok(r')
  }

  /** `remove_command(command)` as written: its first step is
      `isinstance(command, command_trait.Command)`, and `Command` is a
      `typing.Protocol` without `@runtime_checkable`, so `isinstance`
      raises `TypeError` whatever the argument is. */
  function PluginRemoveAsWritten(r: Registry, plugin: string, x: CommandRef): Result<Registry, Error> {
    Err(TypeError(NotRuntimeCheckable))
  }

  /** Adding succeeds exactly for a new name; the command is then stored
      under its name, after the names already held, and nothing else
      changes. */
  lemma PluginAddEffect(r: Registry, plugin: string, c: Command)
    requires WellFormed(r)
    ensures PluginAdd(r, plugin, c).Ok? <==> c.name !in r.table
    ensures PluginAdd(r, plugin, c).Err? ==> PluginAdd(r, plugin, c) == Err(RuntimeError(PluginHasCommand(plugin, c.name)))
    ensures PluginAdd(r, plugin, c).Ok? ==>
      var r' := PluginAdd(r, plugin, c).value;
      && WellFormed(r')
      && r'.keys == r.keys + [c.name]
      && r'.table.Keys == r.table.Keys + {c.name} && r'.table[c.name] == c
      && forall k :: k in r.table ==> r'.table[k] == r.table[k]
  {
    RegisterKeepsWellFormed(r, c.name, c);
  }

  /** Removing succeeds exactly for a name the plugin holds; exactly that
      entry goes. */
  lemma PluginRemoveEffect(r: Registry, plugin: string, name: string)
    requires WellFormed(r)
    ensures PluginRemove(r, plugin, name).Ok? <==> name in r.table
    ensures PluginRemove(r, plugin, name).Err? ==> PluginRemove(r, plugin, name) == Err(RuntimeError(PluginLacksCommand(plugin, name)))
    ensures PluginRemove(r, plugin, name).Ok? ==>
      var r' := PluginRemove(r, plugin, name).value;
      && WellFormed(r')
      && r'.table == r.table - {name}
      && forall k :: k in r'.keys <==> k in r.keys && k != name
  {
    UnregisterKeepsWellFormed(r, name);
    RemoveKeyMembers(r.keys, name);
  }

  /** Removing a command just added restores the plugin's commands, order
      included. */
  lemma PluginAddThenRemove(r: Registry, plugin: string, c: Command)
    requires WellFormed(r) && PluginAdd(r, plugin, c).Ok?
    ensures PluginRemove(PluginAdd(r, plugin, c).value, plugin, c.name) == Ok(r)
  {
    var n := c.name;
    assert n !in r.keys;
    RemoveKeyAfter(r.keys, n, []);
    assert r.keys + [n] + [] == r.keys + [n];
    assert r.keys + [] == r.keys;
    assert r.table[n := c] - {n} == r.table;
  }

  /** As written, even a command the plugin holds cannot be removed, by
      command or by name; the corrected `PluginRemove` removes exactly its
      entry. */
  lemma RemoveDiscrepancy(r: Registry, plugin: string, x: CommandRef)
    requires WellFormed(r) && RefName(x) in r.table
    ensures PluginRemoveAsWritten(r, plugin, x) == Err(TypeError(NotRuntimeCheckable))
    ensures PluginRemove(r, plugin, RefName(x)).Ok?
    ensures PluginRemove(r, plugin, RefName(x)).value.table == r.table - {RefName(x)}
  {
    PluginRemoveEffect(r, plugin, RefName(x));
  }

  /** As written, a command just added stays: removing it raises, so the
      plugin keeps it, where the corrected removal restores the commands. */
  lemma AddThenRemoveAsWritten(r: Registry, plugin: string, c: Command, x: CommandRef)
    requires WellFormed(r) && PluginAdd(r, plugin, c).Ok? && RefName(x) == c.name
    ensures PluginRemoveAsWritten(PluginAdd(r, plugin, c).value, plugin, x).Err?
    ensures c.name in PluginAdd(r, plugin, c).value.table && c.name !in r.table
    ensures PluginRemove(PluginAdd(r, plugin, c).value, plugin, RefName(x)) == Ok(r)
  {
    PluginAddEffect(r, plugin, c);
    PluginAddThenRemove(r, plugin, c);
  }

  // ---------------------------------------------------------------------
  // Listeners

  /** `listeners.get(event_type)`, with a missing entry read as empty. */
  function ListenersOf(ls: Listeners, e: EventType): seq<Listener> {
    if e in ls then ls[e] else []
  }

  /** `subscribe(event_type, callback)` */
  function SubscribeTo(ls: Listeners, e: EventType, cb: Listener): Result<Listeners, Error> {
    if !cb.isCoroutine then Err(TypeError(NonCoroutine(cb.name)))
    else Ok(ls[e := ListenersOf(ls, e) + [cb]])
  }

  /** `unsubscribe(event_type, callback)`; `list.remove` drops the first
      equal entry. */
  function UnsubscribeFrom(ls: Listeners, e: EventType, cb: Listener): Result<Listeners, Error> {
    if ListenersOf(ls, e) == [] then Ok(ls)
    else if cb !in ls[e] then Err(ValueError(NotInList))
    else Ok(ls[e := RemoveKey(ls[e], cb)])
  }

  /** Subscribing refuses exactly the non-coroutines; otherwise the
      callback is appended to its event type's list and every other list
      is left alone. */
  lemma SubscribeEffect(ls: Listeners, e: EventType, cb: Listener)
    ensures SubscribeTo(ls, e, cb).Err? <==> !cb.isCoroutine
    ensures SubscribeTo(ls, e, cb).Err? ==> SubscribeTo(ls, e, cb) == Err(TypeError(NonCoroutine(cb.name)))
    ensures SubscribeTo(ls, e, cb).Ok? ==>
      var ls' := SubscribeTo(ls, e, cb).value;
      && ListenersOf(ls', e) == ListenersOf(ls, e) + [cb]
      && forall e' :: e' != e ==> ListenersOf(ls', e') == ListenersOf(ls, e')
  {
  }

  /** Unsubscribing does nothing for an event type without listeners,
      refuses a callback that is not subscribed, and otherwise applies
      `list.remove` to that event type's list alone. */
  lemma UnsubscribeEffect(ls: Listeners, e: EventType, cb: Listener)
    ensures ListenersOf(ls, e) == [] ==> UnsubscribeFrom(ls, e, cb) == Ok(ls)
    ensures UnsubscribeFrom(ls, e, cb).Err? <==> ListenersOf(ls, e) != [] && cb !in ListenersOf(ls, e)
    ensures UnsubscribeFrom(ls, e, cb).Err? ==> UnsubscribeFrom(ls, e, cb) == Err(ValueError(NotInList))
    ensures UnsubscribeFrom(ls, e, cb).Ok? && cb in ListenersOf(ls, e) ==>
      var ls' := UnsubscribeFrom(ls, e, cb).value;
      && ListenersOf(ls', e) == RemoveKey(ListenersOf(ls, e), cb)
      && forall e' :: e' != e ==> ListenersOf(ls', e') == ListenersOf(ls, e')
  {
  }

  /** `list.remove(x)` removes one copy of `x`: the first, with the entries
      before and after it kept in order. */
  lemma RemoveFirstEffect<T>(xs: seq<T>, x: T)
    requires x in xs
    ensures multiset(RemoveKey(xs, x)) == multiset(xs) - multiset{x}
    ensures exists front, back :: xs == front + [x] + back && x !in front && RemoveKey(xs, x) == front + back
  {
    var i := FirstIndex(xs, x);
    RemoveFirstSplit(xs, x);
    RemoveOne(xs[..i], x, xs[i + 1..]);
    SplitWitness(xs, xs[..i], x, xs[i + 1..]);
  }

  /** Where the first `x` in `xs` sits. */
  function FirstIndex<T(==)>(xs: seq<T>, x: T): (i: nat)
    requires x in xs
    ensures i < |xs| && xs[i] == x
    ensures forall j :: 0 <= j < i ==> xs[j] != x
    decreases |xs|
  {
    if xs[0] == x then 0 else 1 + FirstIndex(xs[1..], x)
  }

  /** `RemoveKey` drops the first occurrence and keeps the rest in order. */
  lemma RemoveFirstSplit<T>(xs: seq<T>, x: T)
    requires x in xs
    ensures var i := FirstIndex(xs, x);
      && xs == xs[..i] + [x] + xs[i + 1..] && x !in xs[..i]
      && RemoveKey(xs, x) == xs[..i] + xs[i + 1..]
  {
    var i := FirstIndex(xs, x);
    assert xs == xs[..i] + [x] + xs[i + 1..];
    RemoveKeyAfter(xs[..i], x, xs[i + 1..]);
  }

  lemma SplitWitness<T>(xs: seq<T>, front: seq<T>, x: T, back: seq<T>)
    requires xs == front + [x] + back && x !in front
    ensures exists f, b :: xs == f + [x] + b && x !in f && RemoveKey(xs, x) == f + b
  {
    RemoveKeyAfter(front, x, back);
  }

  /** Dropping one occurrence removes one copy from the multiset. */
  lemma RemoveOne<T>(front: seq<T>, x: T, back: seq<T>)
    ensures multiset(front + back) == multiset(front + [x] + back) - multiset{x}
  {
  }

  /** Unsubscribing a callback right after subscribing it leaves its event
      type's list as it was. */
  lemma SubscribeThenUnsubscribe(ls: Listeners, e: EventType, cb: Listener)
    requires cb.isCoroutine && cb !in ListenersOf(ls, e)
    ensures UnsubscribeFrom(SubscribeTo(ls, e, cb).value, e, cb).Ok?
    ensures var ls' := UnsubscribeFrom(SubscribeTo(ls, e, cb).value, e, cb).value;
      forall e' :: ListenersOf(ls', e') == ListenersOf(ls, e')
  {
    RemoveKeyAfter(ListenersOf(ls, e), cb, []);
    assert ListenersOf(ls, e) + [cb] + [] == ListenersOf(ls, e) + [cb];
  }

  // ---------------------------------------------------------------------
  // Loading into a command manager

  /** The command loop of `load`: `add_command` for each of the plugin's
      commands in order; the first error propagates. */
  function LoadAll(r: Registry, cs: seq<Command>): (Registry, Option<Error>)
    decreases |cs|
  {
    if cs == [] then (r, None)
    else
      var (r', e) := RegisterAll(r, CommandNames(cs[0]), cs[0]);
      if e.Some? then (r', e) else LoadAll(r', cs[1..])
  }

  /** The command loop of `unload`: `remove_command` for each. */
  function UnloadAll(r: Registry, cs: seq<Command>): (Registry, Option<Error>)
    decreases |cs|
  {
    if cs == [] then (r, None)
    else
      var (r', e) := UnregisterAll(r, CommandNames(cs[0]));
      if e.Some? then (r', e) else UnloadAll(r', cs[1..])
  }

  lemma RegisterAllKeeps(r: Registry, names: seq<string>, c: Command)
    requires RegisterAll(r, names, c).1.None?
    ensures var t := RegisterAll(r, names, c).0.table;
      && (forall k :: k in r.table ==> k in t && t[k] == r.table[k])
      && (forall n :: n in names ==> n in t && t[n] == c)
  {
    RegisterAllFresh(r, names, c);
    CanRegisterIff(r.table.Keys, names);
  }

  /** A successful `load` leaves every command registered before
      untouched... */
  lemma {:induction false} LoadKeeps(r: Registry, cs: seq<Command>)
    requires LoadAll(r, cs).1.None?
    ensures forall k :: k in r.table ==> k in LoadAll(r, cs).0.table && LoadAll(r, cs).0.table[k] == r.table[k]
    decreases |cs|
  {
    if cs != [] {
      var r' := RegisterAll(r, CommandNames(cs[0]), cs[0]).0;
      RegisterAllKeeps(r, CommandNames(cs[0]), cs[0]);
      LoadKeeps(r', cs[1..]);
    }
  }

  /** ... and every name of every plugin command mapped to that
      command. */
  lemma LoadedAreFound(r: Registry, cs: seq<Command>)
    requires LoadAll(r, cs).1.None?
    ensures forall i, n :: 0 <= i < |cs| && n in CommandNames(cs[i]) ==>
      n in LoadAll(r, cs).0.table && LoadAll(r, cs).0.table[n] == cs[i]
  {
    forall i, n | 0 <= i < |cs| && n in CommandNames(cs[i])
      ensures n in LoadAll(r, cs).0.table && LoadAll(r, cs).0.table[n] == cs[i]
    {
      LoadedIsFoundAt(r, cs, i, n);
    }
  }

  lemma {:induction false} LoadedIsFoundAt(r: Registry, cs: seq<Command>, i: nat, n: string)
    requires LoadAll(r, cs).1.None? && i < |cs| && n in CommandNames(cs[i])
    ensures n in LoadAll(r, cs).0.table && LoadAll(r, cs).0.table[n] == cs[i]
    decreases |cs|
  {
    var r' := RegisterAll(r, CommandNames(cs[0]), cs[0]).0;
    assert LoadAll(r, cs) == LoadAll(r', cs[1..]);
    if i == 0 {
      RegisterAllKeeps(r, CommandNames(cs[0]), cs[0]);
      LoadKeeps(r', cs[1..]);
    } else {
      assert cs[i] == cs[1..][i - 1];
      LoadedIsFoundAt(r', cs[1..], i - 1, n);
    }
  }

  /** A successful `unload` leaves no name of any plugin command
      registered, and adds nothing. */
  lemma {:induction false} UnloadedAreGone(r: Registry, cs: seq<Command>)
    requires UnloadAll(r, cs).1.None?
    ensures var t := UnloadAll(r, cs).0.table;
      && t.Keys <= r.table.Keys
      && (forall i, n :: 0 <= i < |cs| && n in CommandNames(cs[i]) ==> n !in t)
    decreases |cs|
  {
    if cs != [] {
      var r' := UnregisterAll(r, CommandNames(cs[0])).0;
      UnregisterAllPresent(r, CommandNames(cs[0]));
      UnloadedAreGone(r', cs[1..]);
      forall i, n | 0 <= i < |cs| && n in CommandNames(cs[i])
        ensures n !in UnloadAll(r, cs).0.table
      {
        if i > 0 {
          assert cs[i] == cs[1..][i - 1];
        }
      }
    }
  }

  // ---------------------------------------------------------------------
  // The plugin

  class Plugin {
    const name: string
    /** `_client` and `_command_manager`: set by `load`, cleared by
        `unload`. */
    var client: GatewayClient?
    var commandManager: CommandManager?
    /** `_commands`, by command name in insertion order. */
    var keys: seq<string>
    var table: map<string, Command>
    /** `_listeners` */
    var listeners: Listeners

    function State(): Registry
      reads this
    {
      Registry(keys, table)
    }

    ghost predicate Valid()
      reads this
    {
      WellFormed(State())
    }

    /** `Plugin(name)`: the name defaults to the defining module's name,
        which is passed in. */
    constructor (givenName: Option<string>, moduleName: string)
      ensures name == OrElse(givenName, moduleName)
      ensures client == null && commandManager == null
      ensures State() == EmptyRegistry && listeners == map[]
      ensures Valid()
    {
      name := OrElse(givenName, moduleName);
      client := null;
      commandManager := null;
      keys := [];
      table := map[];
      listeners := map[];
    }

    /** The `client` property. */
    method Client() returns (r: Result<GatewayClient, Error>)
      ensures client == null ==> r == Err(RuntimeError(InactiveClient))
      ensures client != null ==> r == Ok(client)
    {
      if client == null {
        return Err(RuntimeError(InactiveClient));
      }
      return Ok(client);
    }

    /** The `command_manager` property. */
    method GetCommandManager() returns (r: Result<CommandManager, Error>)
      ensures commandManager == null ==> r == Err(RuntimeError(InactiveCommandManager))
      ensures commandManager != null ==> r == Ok(commandManager)
    {
      if commandManager == null {
        return Err(RuntimeError(InactiveCommandManager));
      }
      return Ok(commandManager);
    }

    /** `add_command(command)` */
    method AddCommand(c: Command) returns (err: Option<Error>)
      requires Valid()
      modifies this
      ensures Valid()
      ensures client == old(client) && commandManager == old(commandManager) && listeners == old(listeners)
      ensures match PluginAdd(old(State()), name, c)
        case Ok(r) => State() == r && err.None?
        case Err(e) => State() == old(State()) && err == Some(e)
    {
      PluginAddEffect(State(), name, c);
      if c.name in table {
        return Some(RuntimeError(PluginHasCommand(name, c.name)));
      }
      keys := keys + [c.name];
      table := table[c.name := c];
      return None;
    }

    /** `remove_command(command)`, by command or by name, as evidently
        intended (`PluginRemove`). */
    method RemoveCommand(x: CommandRef) returns (err: Option<Error>)
      requires Valid()
      modifies this
      ensures Valid()
      ensures client == old(client) && commandManager == old(commandManager) && listeners == old(listeners)
      ensures match PluginRemove(old(State()), name, RefName(x))
        case Ok(r) => State() == r && err.None?
        case Err(e) => State() == old(State()) && err == Some(e)
    {
      var n := if x.ByCommand? then x.command.name else x.name;
      PluginRemoveEffect(State(), name, n);
      if n !in table {
        return Some(RuntimeError(PluginLacksCommand(name, n)));
      }
      keys := RemoveKey(keys, n);
      table := table - {n};
      return None;
    }

    /** The `command(...)` decorator of a plugin: build the command, then
        `add_command` it to the plugin. */
    method DefineCommand(cb: Callback, givenName: Option<string>, givenDescription: Option<string>,
                         givenAliases: AliasesArg, givenParser: Option<string -> Result<KeyedTokens, Error>>)
      returns (r: Result<Command, Error>)
      requires Valid() && DistinctParams(cb.params)
      modifies this
      ensures Valid()
      ensures client == old(client) && commandManager == old(commandManager) && listeners == old(listeners)
      ensures Validate(cb.params).Err? ==> r == Err(Validate(cb.params).error) && State() == old(State())
      ensures Validate(cb.params).Ok? ==> exists c: Command ::
        && c.name == CommandName(givenName, cb) && c.aliases == NormaliseAliases(givenAliases)
        && match PluginAdd(old(State()), name, c)
           case Ok(s) => State() == s && r == Ok(c)
           case Err(e) => State() == old(State()) && r == Err(e)
    {
      var made := Command.Create(cb, givenName, givenDescription, givenAliases, givenParser);
      if made.Err? {
        return Err(made.error);
      }
      var c := made.value;
      var err := AddCommand(c);
      if err.Some? {
        return Err(err.value);
      }
      return Ok(c);
    }

    /** `subscribe(event_type, callback)` */
    method Subscribe(e: EventType, cb: Listener) returns (err: Option<Error>)
      modifies this
      ensures client == old(client) && commandManager == old(commandManager) && State() == old(State())
      ensures match SubscribeTo(old(listeners), e, cb)
        case Ok(ls) => listeners == ls && err.None?
        case Err(x) => listeners == old(listeners) && err == Some(x)
    {
      if !cb.isCoroutine {
        return Some(TypeError(NonCoroutine(cb.name)));
      }
      var current := if e in listeners then listeners[e] else [];
      listeners := listeners[e := current + [cb]];
      return None;
    }

    /** `unsubscribe(event_type, callback)` */
    method Unsubscribe(e: EventType, cb: Listener) returns (err: Option<Error>)
      modifies this
      ensures client == old(client) && commandManager == old(commandManager) && State() == old(State())
      ensures match UnsubscribeFrom(old(listeners), e, cb)
        case Ok(ls) => listeners == ls && err.None?
        case Err(x) => listeners == old(listeners) && err == Some(x)
    {
      if e !in listeners || listeners[e] == [] {
        return None;
      }
      if cb !in listeners[e] {
        return Some(ValueError(NotInList));
      }
      listeners := listeners[e := RemoveKey(listeners[e], cb)];
      return None;
    }

    /** The command half of `load(client, command_manager)`: remember both,
        then `add_command` every plugin command to the manager. */
    method Load(c: GatewayClient, m: CommandManager) returns (err: Option<Error>)
      requires Valid() && m.Valid()
      modifies this, m
      ensures client == c && commandManager == m
      ensures State() == old(State()) && listeners == old(listeners)
      ensures m.Valid() && m.prepare == old(m.prepare)
      ensures (m.State(), err) == LoadAll(old(m.State()), Listed(State()))
    {
      client := c;
      commandManager := m;
      var cs := Listed(State());
      var i := 0;
      err := None;
      while i < |cs|
        invariant i <= |cs|
        invariant client == c && commandManager == m
        invariant State() == old(State()) && listeners == old(listeners)
        invariant m.Valid() && m.prepare == old(m.prepare) && err.None?
        invariant LoadAll(m.State(), cs[i..]) == LoadAll(old(m.State()), cs)
      {
        ghost var before := m.State();
        var rest := cs[i..];
        assert rest[0] == cs[i] && rest[1..] == cs[i + 1..];
        err := m.AddCommand(cs[i]);
        if err.Some? {
          assert LoadAll(before, rest) == (m.State(), err);
          return;
        }
        assert LoadAll(before, rest) == LoadAll(m.State(), cs[i + 1..]);
        i := i + 1;
      }
      assert cs[i..] == [];
    }

    /** The command half of `unload(client, command_manager)`: the pair
        must be the one `load` recorded; every plugin command is then
        removed from the manager and the pair is cleared. */
    method Unload(c: GatewayClient, m: CommandManager) returns (err: Option<Error>)
      requires Valid() && m.Valid()
      modifies this, m
      ensures State() == old(State()) && listeners == old(listeners)
      ensures m.Valid() && m.prepare == old(m.prepare)
      ensures old(client) != c || old(commandManager) != m ==>
        err == Some(AssertionError) && client == old(client) && commandManager == old(commandManager)
        && m.State() == old(m.State())
      ensures old(client) == c && old(commandManager) == m ==>
        && (m.State(), err) == UnloadAll(old(m.State()), Listed(State()))
        && (err.None? ==> client == null && commandManager == null)
        && (err.Some? ==> client == old(client) && commandManager == old(commandManager))
    {
      if client != c || commandManager != m {
        return Some(AssertionError);
      }
      var cs := Listed(State());
      var i := 0;
      err := None;
      while i < |cs|
        invariant i <= |cs|
        invariant client == c && commandManager == m
        invariant State() == old(State()) && listeners == old(listeners)
        invariant m.Valid() && m.prepare == old(m.prepare) && err.None?
        invariant UnloadAll(m.State(), cs[i..]) == UnloadAll(old(m.State()), cs)
      {
        ghost var before := m.State();
        var rest := cs[i..];
        assert rest[0] == cs[i] && rest[1..] == cs[i + 1..];
        err := m.RemoveCommand(cs[i]);
        if err.Some? {
          assert UnloadAll(before, rest) == (m.State(), err);
          return;
        }
        assert UnloadAll(before, rest) == UnloadAll(m.State(), cs[i + 1..]);
        i := i + 1;
      }
      assert cs[i..] == [];
      client := null;
      commandManager := null;
    }
  }
}
