/** The `.env` loader that `web.js` runs before the server starts: the file
    is split into lines, each trimmed, blanks and `#` comments dropped, and
    every `KEY=value` line fills `process.env` where the key is not yet
    there. Reading the file is a parameter, `None` when it is missing or
    unreadable. */
module EnvFile {
  import opened Wrappers
  import opened Js
  import opened Strings

  /** The trimmed lines the `split`/`map`/`filter` chain keeps: not blank
      and not starting with `#`, in file order. */
  function KeptLines(lines: seq<string>): (kept: seq<string>)
    ensures |kept| <= |lines|
    ensures forall k :: 0 <= k < |kept| ==> kept[k] != "" && kept[k][0] != '#' && Trimmed(kept[k])
  {
    if lines == [] then []
    else
      var rest := KeptLines(lines[1..]);
      var line := Trim(lines[0]);
      if line != "" && line[0] != '#' then [line] + rest else rest
  }

  /** Every line that is neither blank nor a comment once trimmed is kept,
      trimmed. */
  lemma {:induction false} LinesKept(lines: seq<string>, j: nat)
    requires j < |lines| && Trim(lines[j]) != "" && Trim(lines[j])[0] != '#'
    ensures Trim(lines[j]) in KeptLines(lines)
  {
    var kept := KeptLines(lines);
    var rest := KeptLines(lines[1..]);
    if j > 0 {
      assert lines[1..][j - 1] == lines[j];
      LinesKept(lines[1..], j - 1);
      assert kept == rest || kept == [Trim(lines[0])] + rest;
      InRestOrCons(kept, rest, Trim(lines[0]), Trim(lines[j]));
    } else {
      assert kept == [Trim(lines[0])] + rest;
    }
  }

  lemma InRestOrCons<T>(kept: seq<T>, rest: seq<T>, y: T, x: T)
    requires kept == rest || kept == [y] + rest
    requires x in rest
    ensures x in kept
  {
  }

  /** One kept line as `(key, value)`: both trimmed, split at the first
      `=`; `None` without one. */
  function EntryOf(line: string): (e: Option<(string, string)>)
    ensures e.None? <==> '=' !in line
    ensures e.Some? ==> Trimmed(e.value.0) && Trimmed(e.value.1) && '=' !in e.value.0
  {
    var eq := IndexOf(line, '=');
    if eq == -1 then None
    else
      TrimWithout(line[..eq], '=');
      Some((Trim(line[..eq]), Trim(line[eq + 1..])))
  }

  /** Later `=` characters stay in the value. */
  lemma EntryOfPair(key: string, value: string)
    requires '=' !in key && Trimmed(key) && Trimmed(value)
    ensures EntryOf(key + "=" + value) == Some((key, value))
  {
    var line := key + "=" + value;
    assert line[..|key|] == key && line[|key|] == '=';
    IndexOfAt(line, '=', |key|);
    assert line[|key| + 1..] == value;
    TrimOfTrimmed(key);
    TrimOfTrimmed(value);
  }

  /** The entries of the kept lines. */
  function Entries(lines: seq<string>): (entries: seq<Option<(string, string)>>)
    ensures |entries| == |lines|
    ensures forall k :: 0 <= k < |lines| ==> entries[k] == EntryOf(lines[k])
  {
    seq(|lines|, k requires 0 <= k < |lines| => EntryOf(lines[k]))
  }

  /** One step of the `forEach`: `key && !(key in process.env)`. `key in
      process.env` also holds for the names `process.env` inherits, which
      are `inherited`. */
  function Apply(vars: map<string, string>, e: Option<(string, string)>, inherited: set<string>): map<string, string> {
    if e.Some? && e.value.0 != "" && e.value.0 !in vars && e.value.0 !in inherited
    then vars[e.value.0 := e.value.1] else vars
  }

  /** The environment after the `forEach` over `entries`. */
  function Merged(vars: map<string, string>, entries: seq<Option<(string, string)>>, inherited: set<string>)
    : map<string, string>
    decreases |entries|
  {
    if entries == [] then vars
    else Apply(Merged(vars, entries[..|entries| - 1], inherited), entries[|entries| - 1], inherited)
  }

  /** An existing variable is never overwritten, and a new one comes from an
      entry with a non-empty key that is not inherited. */
  lemma {:induction false} MergedKeepsExisting(vars: map<string, string>, entries: seq<Option<(string, string)>>,
                                               inherited: set<string>)
    ensures forall k :: k in vars ==> k in Merged(vars, entries, inherited) && Merged(vars, entries, inherited)[k] == vars[k]
    ensures forall k :: k in Merged(vars, entries, inherited) && k !in vars ==>
      k != "" && k !in inherited && exists j :: 0 <= j < |entries| && entries[j].Some? && entries[j].value.0 == k
    decreases |entries|
  {
    if entries != [] {
      var front := entries[..|entries| - 1];
      MergedKeepsExisting(vars, front, inherited);
      forall k | k in Merged(vars, entries, inherited) && k !in vars
        ensures exists j :: 0 <= j < |entries| && entries[j].Some? && entries[j].value.0 == k
      {
        if k in Merged(vars, front, inherited) {
          var j :| 0 <= j < |front| && front[j].Some? && front[j].value.0 == k;
          assert entries[j] == front[j];
        } else {
          assert entries[|entries| - 1].Some? && entries[|entries| - 1].value.0 == k;
        }
      }
    }
  }

  /** Among entries with the same key the first one wins. */
  lemma {:induction false} FirstDuplicateWins(vars: map<string, string>, entries: seq<Option<(string, string)>>,
                                              inherited: set<string>, j: nat, key: string, value: string)
    requires j < |entries| && entries[j] == Some((key, value))
    requires key != "" && key !in vars && key !in inherited
    requires forall i :: 0 <= i < j ==> entries[i].None? || entries[i].value.0 != key
    ensures key in Merged(vars, entries, inherited) && Merged(vars, entries, inherited)[key] == value
    decreases |entries|
  {
    var front := entries[..|entries| - 1];
    if j == |entries| - 1 {
      assert forall i :: 0 <= i < |front| ==> front[i] == entries[i];
      NotYetSet(vars, front, inherited, key);
    } else {
      assert forall i :: 0 <= i < j ==> front[i] == entries[i];
      assert front[j] == entries[j];
      FirstDuplicateWins(vars, front, inherited, j, key, value);
      MergedKeepsExisting(Merged(vars, front, inherited), [entries[|entries| - 1]], inherited);
    }
  }

  /** A key no entry names and the environment lacks stays unset. */
  lemma {:induction false} NotYetSet(vars: map<string, string>, entries: seq<Option<(string, string)>>,
                                     inherited: set<string>, key: string)
    requires key !in vars
    requires forall i :: 0 <= i < |entries| ==> entries[i].None? || entries[i].value.0 != key
    ensures key !in Merged(vars, entries, inherited)
    decreases |entries|
  {
    if entries != [] {
      var front := entries[..|entries| - 1];
      assert forall i :: 0 <= i < |front| ==> front[i] == entries[i];
      NotYetSet(vars, front, inherited, key);
    }
  }

  /** `process.env`. */
  class Environment {
    var vars: map<string, string>

    constructor(initial: map<string, string>)
      ensures vars == initial
    {
      vars := initial;
    }

    /** `loadEnv()`: `file` is the content of `.env`, `None` when it does
        not exist or cannot be read (the error is only logged). */
    method LoadEnv(file: Option<string>)
      modifies this
      ensures file.None? ==> vars == old(vars)
      ensures file.Some? ==> vars == Merged(old(vars), Entries(KeptLines(SplitLines(file.value))), ObjectPrototypeNames)
    {
      if file.None? {
        return;
      }
      var lines := KeptLines(SplitLines(file.value));
      SetAll(Entries(lines), ObjectPrototypeNames);
    }

    /** The `forEach` over the entries of the kept lines. */
    method SetAll(entries: seq<Option<(string, string)>>, inherited: set<string>)
      modifies this
      ensures vars == Merged(old(vars), entries, inherited)
    {
      var i := 0;
      while i < |entries|
        invariant 0 <= i <= |entries|
        invariant vars == Merged(old(vars), entries[..i], inherited)
      {
        if entries[i].Some? {
          var (key, value) := entries[i].value;
          if key != "" && key !in vars && key !in inherited {
            vars := vars[key := value];
          }
        }
        assert entries[..i + 1][..i] == entries[..i];
        i := i + 1;
      }
      assert entries[..|entries|] == entries;
    }
  }
}
