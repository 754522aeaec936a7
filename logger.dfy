/** The server's levelled logger (`server/utils/logger.js`): the level
    table, the active level read from `LOG_LEVEL`, the gate that drops
    messages below it and the shape of an emitted line. The clock and
    `JSON.stringify` are parameters; writing to the console is left out. */
module Logger {
  import opened Wrappers
  import opened Js
  import opened Strings

  datatype Level = Debug | Info | Warn | Error

  /** `LEVELS`, in increasing severity. */
  const Levels: seq<string> := ["debug", "info", "warn", "error"]

  function Name(level: Level): string {
    match level
    case Debug => "debug"
    case Info => "info"
    case Warn => "warn"
    case Error => "error"
  }

  /** `level.toUpperCase()` on the four level names. */
  function Label(level: Level): string {
    match level
    case Debug => "DEBUG"
    case Info => "INFO"
    case Warn => "WARN"
    case Error => "ERROR"
  }

  /** The label is the name in capitals. */
  lemma LabelOfName(level: Level)
    ensures ToLower(Label(level)) == Name(level)
    ensures |Label(level)| == |Name(level)|
  {
  }

  /** The reduce that builds `LEVEL_PRIORITIES` after its first `n` names:
      each name is mapped to its index, a later copy overwriting an earlier. */
  function PrioritiesUpTo(levels: seq<string>, n: nat): (m: map<string, nat>)
    requires n <= |levels|
    ensures m.Keys == set i | 0 <= i < n :: levels[i]
  {
    if n == 0 then map[]
    else
      var m := PrioritiesUpTo(levels, n - 1)[levels[n - 1] := n - 1];
      assert m.Keys == (set i | 0 <= i < n - 1 :: levels[i]) + {levels[n - 1]};
      m
  }

  /** With distinct names every name's priority is its index. */
  lemma {:induction false} PrioritiesAreIndices(levels: seq<string>, n: nat, i: nat)
    requires n <= |levels| && Distinct(levels) && i < n
    ensures levels[i] in PrioritiesUpTo(levels, n) && PrioritiesUpTo(levels, n)[levels[i]] == i
  {
    var before := PrioritiesUpTo(levels, n - 1);
    assert PrioritiesUpTo(levels, n) == before[levels[n - 1] := n - 1];
    if i < n - 1 {
      PrioritiesAreIndices(levels, n - 1, i);
      assert levels[i] != levels[n - 1];
      assert before[levels[n - 1] := n - 1][levels[i]] == before[levels[i]];
    }
  }

  const LevelPriorities: map<string, nat> := PrioritiesUpTo(Levels, |Levels|)

  /** A level's priority is its position in `LEVELS`: debug 0, info 1,
      warn 2, error 3. */
  function Priority(level: Level): (p: nat)
    ensures p < |Levels| && Levels[p] == Name(level)
    ensures Name(level) in LevelPriorities && LevelPriorities[Name(level)] == p
  {
    var p := match level
      case Debug => 0
      case Info => 1
      case Warn => 2
      case Error => 3;
    assert Distinct(Levels);
    PrioritiesAreIndices(Levels, |Levels|, p);
    p
  }

  lemma PrioritiesIncrease()
    ensures Priority(Debug) < Priority(Info) < Priority(Warn) < Priority(Error)
    ensures LevelPriorities.Keys == set l: Level :: Name(l)
  {
    var names := set l: Level :: Name(l);
    assert Name(Debug) in names && Name(Info) in names && Name(Warn) in names && Name(Error) in names;
    assert names == {"debug", "info", "warn", "error"};
  }

  /** `ACTIVE_LEVEL`: the lower-cased `LOG_LEVEL` when it names a level, and
      `debug` when it is unset, empty or anything else. */
  function ActiveLevel(logLevel: Option<string>): (level: Level)
    ensures logLevel.Some? && ToLower(logLevel.value) in Levels ==> Name(level) == ToLower(logLevel.value)
    ensures !(logLevel.Some? && ToLower(logLevel.value) in Levels) ==> level == Debug
  {
    var env := if logLevel.Some? && logLevel.value != "" then ToLower(logLevel.value) else "debug";
    if env == "info" then Info
    else if env == "warn" then Warn
    else if env == "error" then Error
    else Debug
  }

  /** `LOG_LEVEL` is matched case-insensitively. */
  lemma ActiveLevelIgnoresCase(a: string, b: string)
    requires EqualsIgnoreCase(a, b)
    ensures ActiveLevel(Some(a)) == ActiveLevel(Some(b))
  {
  }

  /** The gate of `log`: the message goes out unless its `LEVEL_PRIORITIES`
      entry is below the active level's. */
  predicate Emits(level: Level, active: Level) {
    !(Priority(level) < Priority(active))
  }

  /** At `debug` everything is logged, at `error` only errors, and raising
      the active level never lets more messages through. */
  lemma GateMonotone(level: Level, lower: Level, higher: Level)
    requires Priority(lower) <= Priority(higher)
    ensures Emits(level, Debug)
    ensures Emits(level, Error) <==> level == Error
    ensures Emits(level, higher) ==> Emits(level, lower)
  {
  }

  /** `log(level, message, meta)`: the line written, or `None` when the gate
      drops it. `{ ...meta }` stands in for the payload, and `stringify` for
      `JSON.stringify`. */
  function LogLine(level: Level, active: Level, message: string, meta: JsValue,
                   timestamp: string, stringify: JsValue -> string): (line: Option<string>)
    ensures line.None? <==> Priority(level) < Priority(active)
    ensures line.Some? ==> StartsWith(line.value, "[" + timestamp + "] [" + Label(level) + "] ")
    ensures line.Some? && !Truthy(meta) ==>
      line.value[|"[" + timestamp + "] [" + Label(level) + "] "|..] == message
    ensures line.Some? && Truthy(meta) ==>
      line.value[|"[" + timestamp + "] [" + Label(level) + "] "|..]
        == message + " " + stringify(Obj(Spread(meta)))
  {
    if !Emits(level, active) then None
    else
      var payload := if Truthy(meta) then Obj(Spread(meta)) else Undefined;
      var formatted := if Truthy(payload) then message + " " + stringify(payload) else message;
      var head := "[" + timestamp + "] [" + Label(level) + "] ";
      assert (head + formatted)[..|head|] == head;
      assert (head + formatted)[|head|..] == formatted;
      Some(head + formatted)
  }
}
