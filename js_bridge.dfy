/** The native side's channel to the page, from include/webview_candidate_window.hpp:
    `invoke_js` writes a call of a `fcitx.*` function as JavaScript text, with
    every argument in its JSON form, and `bind` wraps a native function as a
    handler the page calls with a JSON array of arguments. The JSON library's
    `dump` and the conversion of one JSON value to a native argument are
    parameters. */
module JsBridge {
  import opened Wrappers
  import Text

  /** A JSON value as `nlohmann::json` holds it. */
  datatype JsonValue =
    | JNull
    | JBool(b: bool)
    | JInt(i: int)
    | JString(s: string)
    | JArray(items: seq<JsonValue>)
    | JObject(members: seq<(string, JsonValue)>)

  const SEPARATOR: string := ", "

  /** `build_js_args(ss, args...)`: the first argument's dump, then, when more
      follow, `", "` and the rest, recursing over the argument pack; nothing for
      an empty pack. */
  function BuildJsArgs(dump: JsonValue -> string, args: seq<JsonValue>): string
    decreases |args|
  {
    if |args| == 0 then ""
    else if |args| == 1 then dump(args[0])
    else dump(args[0]) + SEPARATOR + BuildJsArgs(dump, args[1..])
  }

  /** The text written by `invoke_js(name, args...)`; the script is then
      evaluated in the page, which the model does not follow. */
  function InvokeJs(dump: JsonValue -> string, name: string, args: seq<JsonValue>): string
  {
    "fcitx." + name + "(" + BuildJsArgs(dump, args) + ");"
  }

  /** Each argument's dump, in order. */
  function Dumps(dump: JsonValue -> string, args: seq<JsonValue>): (r: seq<string>)
    ensures |r| == |args| && forall i :: 0 <= i < |args| ==> r[i] == dump(args[i])
  {
    seq(|args|, i requires 0 <= i < |args| => dump(args[i]))
  }

  /** The argument list is the dumps joined by `", "`: n arguments give n - 1
      separators and an empty pack gives nothing. */
  lemma {:induction false} ArgsAreJoinedDumps(dump: JsonValue -> string, args: seq<JsonValue>)
    ensures BuildJsArgs(dump, args) == Text.Join(Dumps(dump, args), SEPARATOR)
    decreases |args|
  {
    if |args| >= 2 {
      ArgsAreJoinedDumps(dump, args[1..]);
      Text.JoinCons(Dumps(dump, args), SEPARATOR);
      assert Dumps(dump, args)[1..] == Dumps(dump, args[1..]);
    }
  }

  /** Splitting the pack splits the text at one separator. */
  lemma {:induction false} ArgsAppend(dump: JsonValue -> string, a: seq<JsonValue>, b: seq<JsonValue>)
    requires |a| >= 1 && |b| >= 1
    ensures BuildJsArgs(dump, a + b) == BuildJsArgs(dump, a) + SEPARATOR + BuildJsArgs(dump, b)
    decreases |a|
  {
    if |a| > 1 {
      ArgsAppend(dump, a[1..], b);
      assert (a + b)[1..] == a[1..] + b;
    } else {
      assert (a + b)[1..] == b;
    }
  }

  /** The script is the call of `fcitx.<name>` on the joined dumps, and a call
      without arguments is `fcitx.<name>();`. */
  lemma InvokeJsShape(dump: JsonValue -> string, name: string, args: seq<JsonValue>)
    ensures InvokeJs(dump, name, args) == "fcitx." + name + "(" + Text.Join(Dumps(dump, args), SEPARATOR) + ");"
    ensures |args| == 0 ==> InvokeJs(dump, name, args) == "fcitx." + name + "();"
  {
    ArgsAreJoinedDumps(dump, args);
  }

  /** The outcome of converting one JSON value to a native argument: the value,
      or the message of the exception `get` throws. */
  datatype Conversion<A> = Converted(value: A) | Threw(what: string)

  /** `json_to_tuple`: the elements at 0 .. arity - 1 converted in order; the
      first conversion that throws is the outcome. */
  function JsonToTuple<A>(convert: (nat, JsonValue) -> Conversion<A>, j: seq<JsonValue>, arity: nat): (r: Conversion<seq<A>>)
    requires arity <= |j|
    decreases arity
  {
    if arity == 0 then Converted([])
    else
      match JsonToTuple(convert, j, arity - 1)
      case Threw(e) => Threw(e)
      case Converted(init) =>
        match convert(arity - 1, j[arity - 1])
        case Threw(e) => Threw(e)
        case Converted(a) => Converted(init + [a])
  }

  /** The tuple holds every converted element in place when no conversion
      throws, and otherwise the message of the first one that does. */
  lemma {:induction false} JsonToTupleSpec<A>(convert: (nat, JsonValue) -> Conversion<A>, j: seq<JsonValue>, arity: nat)
    requires arity <= |j|
    ensures JsonToTuple(convert, j, arity).Converted? <==> forall i :: 0 <= i < arity ==> convert(i, j[i]).Converted?
    ensures JsonToTuple(convert, j, arity).Converted? ==>
      var args := JsonToTuple(convert, j, arity).value;
      |args| == arity && forall i :: 0 <= i < arity ==> args[i] == convert(i, j[i]).value
    ensures JsonToTuple(convert, j, arity).Threw? ==>
      exists k :: 0 <= k < arity && convert(k, j[k]) == Threw(JsonToTuple(convert, j, arity).what)
        && forall i :: 0 <= i < k ==> convert(i, j[i]).Converted?
    decreases arity
  {
    if arity > 0 {
      JsonToTupleSpec(convert, j, arity - 1);
      var r := JsonToTuple(convert, j, arity - 1);
      if r.Threw? {
        var k :| 0 <= k < arity - 1 && convert(k, j[k]) == Threw(r.what)
          && forall i :: 0 <= i < k ==> convert(i, j[i]).Converted?;
        assert 0 <= k < arity;
      }
    }
  }

  /** Only the elements the handler needs are read: what follows them never
      changes the conversion. */
  lemma {:induction false} JsonToTuplePrefix<A>(convert: (nat, JsonValue) -> Conversion<A>, j: seq<JsonValue>, extra: seq<JsonValue>, arity: nat)
    requires arity <= |j|
    ensures JsonToTuple(convert, j + extra, arity) == JsonToTuple(convert, j, arity)
    decreases arity
  {
    if arity > 0 {
      JsonToTuplePrefix(convert, j, extra, arity - 1);
      assert (j + extra)[arity - 1] == j[arity - 1];
    }
  }

  /** Whether the bound function returns nothing or a value. */
  datatype ReturnKind = ReturnsVoid | ReturnsValue

  /** What one call of a bound handler does: the reply string, the arguments
      the native function was applied to (`None` when it was not called) and
      what went to the error stream. */
  datatype Reply<A> = Reply(text: string, call: Option<seq<A>>, log: string)

  /** The handler `bind(name, f)` installs, applied to the parsed argument
      array `j`. `f` has `arity` parameters; `result` is what it returns when
      its kind is `ReturnsValue`. */
  function Handle<A>(name: string, arity: nat, convert: (nat, JsonValue) -> Conversion<A>, kind: ReturnKind,
                     result: seq<A> -> JsonValue, dump: JsonValue -> string, j: seq<JsonValue>): Reply<A>
  {
    if arity > |j| then
      Reply("", None, "[JS] Insufficient number of arguments of '" + name + "', needed "
        + Text.NatString(arity) + ", got " + Text.NatString(|j|) + "\n")
    else
      match JsonToTuple(convert, j, arity)
      case Threw(e) => Reply("", None, "[JS] Error running '" + name + "': " + e + "\n")
      case Converted(args) =>
        if kind == ReturnsVoid then Reply("", Some(args), "")
        else Reply(dump(result(args)), Some(args), "")
  }

  /** The handler calls `f` exactly when the array has enough elements and
      each of the first `arity` converts; it answers "" unless `f` returns a
      value, whose dump is then the answer. */
  lemma HandleSpec<A>(name: string, arity: nat, convert: (nat, JsonValue) -> Conversion<A>, kind: ReturnKind,
                      result: seq<A> -> JsonValue, dump: JsonValue -> string, j: seq<JsonValue>)
    ensures var r := Handle(name, arity, convert, kind, result, dump, j);
      (r.call.Some? <==> arity <= |j| && forall i :: 0 <= i < arity ==> convert(i, j[i]).Converted?)
      && (r.call.Some? ==>
            |r.call.value| == arity
            && (forall i :: 0 <= i < arity ==> r.call.value[i] == convert(i, j[i]).value)
            && r.text == (if kind == ReturnsVoid then "" else dump(result(r.call.value)))
            && r.log == "")
      && (r.call.None? ==> r.text == "" && r.log != "")
  {
    if arity <= |j| {
      JsonToTupleSpec(convert, j, arity);
    }
  }

  /** Elements beyond the handler's arity are ignored. */
  lemma HandleIgnoresExtra<A>(name: string, arity: nat, convert: (nat, JsonValue) -> Conversion<A>, kind: ReturnKind,
                              result: seq<A> -> JsonValue, dump: JsonValue -> string, j: seq<JsonValue>, extra: seq<JsonValue>)
    requires arity <= |j|
    ensures Handle(name, arity, convert, kind, result, dump, j + extra).text == Handle(name, arity, convert, kind, result, dump, j).text
    ensures Handle(name, arity, convert, kind, result, dump, j + extra).call == Handle(name, arity, convert, kind, result, dump, j).call
  {
    JsonToTuplePrefix(convert, j, extra, arity);
  }
}
