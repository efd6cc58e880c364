/** The plugin registry of page/plugin.ts: plugins loaded as scripts register
    themselves with a `load` and an `unload` function; unloading runs every
    registered `unload`, newest first, and forgets them all. */
module Plugin {

  /** A property of the object a plugin registers: a function, known by an
      identity, or any other JavaScript value. */
  datatype Value = FunctionValue(id: nat) | OtherValue

  datatype FcitxPlugin = FcitxPlugin(load: Value, unload: Value)

  /** What the page does that outlives the call: a line in the host's log, or a
      call of a plugin function. */
  datatype Event = Log(message: string) | Call(fn: nat)

  const NO_LOAD: string := "Plugin must have a load function"
  const NO_UNLOAD: string := "Plugin must have an unload function"

  /** `fcitx:///file/plugin/${name}/dist/index.js` */
  function ScriptSrc(name: string): string
  {
    "fcitx:///file/plugin/" + name + "/dist/index.js"
  }

  /** The log line `loadPlugins` makes for each name. */
  function LoadEvents(names: seq<string>): (r: seq<Event>)
    ensures |r| == |names| && forall i :: 0 <= i < |names| ==> r[i] == Log("Loading plugin " + names[i])
  {
    seq(|names|, i requires 0 <= i < |names| => Log("Loading plugin " + names[i]))
  }

  /** The script `loadPlugins` appends for each name. */
  function ScriptSrcs(names: seq<string>): (r: seq<string>)
    ensures |r| == |names| && forall i :: 0 <= i < |names| ==> r[i] == ScriptSrc(names[i])
  {
    seq(|names|, i requires 0 <= i < |names| => ScriptSrc(names[i]))
  }

  /** `a.reverse()` */
  function Reverse(s: seq<nat>): (r: seq<nat>)
    ensures |r| == |s|
    ensures forall i :: 0 <= i < |s| ==> r[i] == s[|s| - 1 - i]
  {
    if |s| == 0 then [] else [s[|s| - 1]] + Reverse(s[..|s| - 1])
  }

  /** One turn of the unload loop: the call, then the log line if the call
      throws; `errors` gives the text of what each throwing function throws. */
  function UnloadOne(id: nat, errors: map<nat, string>): seq<Event>
  {
    [Call(id)] + (if id in errors then [Log("Error unloading plugin: " + errors[id])] else [])
  }

  /** The unload loop over `ids`, in order. */
  function UnloadEvents(ids: seq<nat>, errors: map<nat, string>): seq<Event>
  {
    if |ids| == 0 then [] else UnloadEvents(ids[..|ids| - 1], errors) + UnloadOne(ids[|ids| - 1], errors)
  }

  /** The functions called in a stretch of events, in order. */
  function Calls(es: seq<Event>): seq<nat>
  {
    if |es| == 0 then []
    else Calls(es[..|es| - 1]) + (if es[|es| - 1].Call? then [es[|es| - 1].fn] else [])
  }

  lemma {:induction false} CallsAppend(a: seq<Event>, b: seq<Event>)
    ensures Calls(a + b) == Calls(a) + Calls(b)
    decreases |b|
  {
    if |b| == 0 {
      assert a + b == a;
    } else {
      CallsAppend(a, b[..|b| - 1]);
      assert (a + b)[..|a + b| - 1] == a + b[..|b| - 1];
    }
  }

  /** A throwing unloader does not stop the loop: every function in `ids` is
      called once, in order, whichever of them throw. */
  lemma {:induction false} UnloadCallsAll(ids: seq<nat>, errors: map<nat, string>)
    ensures Calls(UnloadEvents(ids, errors)) == ids
    decreases |ids|
  {
    if |ids| > 0 {
      var init := ids[..|ids| - 1];
      var last := ids[|ids| - 1];
      UnloadCallsAll(init, errors);
      CallsAppend(UnloadEvents(init, errors), UnloadOne(last, errors));
      if last in errors {
        var one := UnloadOne(last, errors);
        assert one[..1] == [Call(last)];
        assert Calls(one[..1]) == [last];
      }
      assert init + [last] == ids;
    }
  }

  /** One more turn of the unload loop over `ids`. */
  lemma UnloadStep(before: seq<Event>, ids: seq<nat>, i: nat, errors: map<nat, string>)
    requires i < |ids|
    ensures before + UnloadEvents(ids[..i + 1], errors) == before + UnloadEvents(ids[..i], errors) + UnloadOne(ids[i], errors)
  {
    assert ids[..i + 1][..i] == ids[..i];
  }

  lemma DropPrefix(a: seq<Event>, b: seq<Event>)
    ensures (a + b)[|a|..] == b
  {
  }

  /** The module state: the registered unload functions in registration order,
      the plugin scripts in the document head, and what the page did. */
  class PluginManager {
    var unloaders: seq<nat>
    var scripts: seq<string>
    var events: seq<Event>

    constructor ()
      ensures unloaders == [] && scripts == [] && events == []
    {
      unloaders := [];
      scripts := [];
      events := [];
    }

    /** `pluginManager.register(plugin)`: a plugin without a `load` or an
        `unload` function is refused with a log line; otherwise its `unload` is
        recorded before its `load` is called. */
    method Register(plugin: FcitxPlugin)
      modifies this`unloaders, this`events
      ensures !plugin.load.FunctionValue? ==>
        unloaders == old(unloaders) && events == old(events) + [Log(NO_LOAD)]
      ensures plugin.load.FunctionValue? && !plugin.unload.FunctionValue? ==>
        unloaders == old(unloaders) && events == old(events) + [Log(NO_UNLOAD)]
      ensures plugin.load.FunctionValue? && plugin.unload.FunctionValue? ==>
        unloaders == old(unloaders) + [plugin.unload.id] && events == old(events) + [Call(plugin.load.id)]
    {
      if !plugin.load.FunctionValue? {
        events := events + [Log(NO_LOAD)];
        return;
      }
      if !plugin.unload.FunctionValue? {
        events := events + [Log(NO_UNLOAD)];
        return;
      }
      unloaders := unloaders + [plugin.unload.id];
      events := events + [Call(plugin.load.id)];
    }

    /** `loadPlugins(names)`: one log line and one plugin script per name, in order. */
    method LoadPlugins(names: seq<string>)
      modifies this`scripts, this`events
      ensures scripts == old(scripts) + ScriptSrcs(names)
      ensures events == old(events) + LoadEvents(names)
    {
      for i := 0 to |names|
        invariant scripts == old(scripts) + ScriptSrcs(names[..i])
        invariant events == old(events) + LoadEvents(names[..i])
      {
        events := events + [Log("Loading plugin " + names[i])];
        scripts := scripts + [ScriptSrc(names[i])];
        assert names[..i + 1] == names[..i] + [names[i]];
        assert ScriptSrcs(names[..i + 1]) == ScriptSrcs(names[..i]) + [ScriptSrc(names[i])];
        assert LoadEvents(names[..i + 1]) == LoadEvents(names[..i]) + [Log("Loading plugin " + names[i])];
      }
      assert names[..|names|] == names;
    }

    /** `unloadPlugins()`: reverses the registry in place, calls every unloader
        newest first, logging the ones that throw, then empties the registry
        and removes the plugin scripts. */
    method UnloadPlugins(errors: map<nat, string>)
      modifies this`unloaders, this`scripts, this`events
      ensures unloaders == [] && scripts == []
      ensures events == old(events) + UnloadEvents(Reverse(old(unloaders)), errors)
      ensures |old(events)| <= |events| && Calls(events[|old(events)|..]) == Reverse(old(unloaders))
    {
      unloaders := Reverse(unloaders);
      ghost var before := events;
      for i := 0 to |unloaders|
        invariant unloaders == Reverse(old(unloaders))
        invariant events == before + UnloadEvents(unloaders[..i], errors)
      {
        UnloadStep(before, unloaders, i, errors);
        events := events + UnloadOne(unloaders[i], errors);
      }
      assert unloaders[..|unloaders|] == unloaders;
      UnloadCallsAll(unloaders, errors);
      DropPrefix(before, UnloadEvents(unloaders, errors));
      unloaders := [];
      scripts := [];
    }
  }
}
