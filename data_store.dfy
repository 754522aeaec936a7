/** The JSON data store of the server (`server/services/dataStore.js`) on
    its file-system backend: BOM stripping and parsing of a file's text,
    the object names of the cloud backend, the password-free user view,
    the update events it emits, and the read and write operations over a
    directory of files. `JSON.parse` and `JSON.stringify` are parameters,
    and so are the faults the file system may raise. */
module DataStore {
  import opened Wrappers
  import opened Js
  import opened Strings

  const Bom: char := '\U{FEFF}'

  /** `stripBom(value)` */
  function StripBom(value: JsValue): (r: string)
    ensures !value.Str? ==> r == ""
    ensures value.Str? && value.s != [] && value.s[0] == Bom ==> r == value.s[1..]
    ensures value.Str? && (value.s == [] || value.s[0] != Bom) ==> r == value.s
  {
    if !value.Str? then ""
    else if value.s != [] && value.s[0] == Bom then value.s[1..]
    else value.s
  }

  /** Only one mark goes: a second one stays in the text. */
  lemma StripBomOnce(text: string)
    ensures StripBom(Str([Bom] + text)) == text
    ensures StripBom(Str([Bom, Bom] + text)) == [Bom] + text
  {
    assert ([Bom] + text)[1..] == text;
    assert ([Bom, Bom] + text)[1..] == [Bom] + text;
  }

  /** `trim` removes U+FEFF too, so stripping the mark first never changes
      the trimmed text `parseJsonContent` parses. */
  lemma TrimAfterStripBom(text: string)
    ensures Trim(StripBom(Str(text))) == Trim(text)
  {
    if text != [] && text[0] == Bom {
      assert TrimStart(text) == TrimStart(text[1..]);
    }
  }

  /** `parseJsonContent(raw, fallback)`: the fallback for blank text and for
      JSON that is not an array or an object; a `Throws` from `parse` is the
      `SyntaxError` of `JSON.parse`. */
  function ParseJsonContent(raw: JsValue, fallback: JsValue, parse: string -> Result<JsValue>): (r: Result<JsValue>)
    ensures Trim(StripBom(raw)) == "" ==> r == Ok(fallback)
    ensures r.Throws? <==> Trim(StripBom(raw)) != "" && parse(Trim(StripBom(raw))).Throws?
    ensures r.Ok? ==> r.value == fallback || (IsObjectLike(r.value) && r.value == parse(Trim(StripBom(raw))).value)
  {
    var normalized := Trim(StripBom(raw));
    if normalized == "" then Ok(fallback)
    else
      match parse(normalized)
      case Throws(e) => Throws(e)
      case Ok(parsed) => if IsObjectLike(parsed) then Ok(parsed) else Ok(fallback)
  }

  /** A parsed scalar (`null`, a number, a string, a boolean) is replaced by
      the fallback as well. */
  lemma ScalarGivesFallback(raw: JsValue, fallback: JsValue, parse: string -> Result<JsValue>)
    requires Trim(StripBom(raw)) != ""
    requires parse(Trim(StripBom(raw))).Ok? && !IsObjectLike(parse(Trim(StripBom(raw))).value)
    ensures ParseJsonContent(raw, fallback, parse) == Ok(fallback)
  {
  }

  /** `objectPrefix`: `DATA_PREFIX` without leading or trailing slashes. */
  function ObjectPrefix(dataPrefix: Option<string>): (p: string)
    ensures p == [] || (p[0] != '/' && p[|p| - 1] != '/')
    ensures exists i, j :: 0 <= i <= j <= |dataPrefix.GetOr("")| && p == dataPrefix.GetOr("")[i..j]
  {
    StripChar(dataPrefix.GetOr(""), '/')
  }

  /** The `path` functions `resolveObjectName` calls, with `DATA_DIR` fixed. */
  datatype PathOps = PathOps(
    isAbsolute: string -> bool,
    relativeToDataDir: string -> string,
    basename: string -> string)

  /** The file part of an object name: backslashes become `/` and leading
      slashes go. */
  function Segment(safe: string): (n: string)
    ensures '\\' !in n
    ensures n == [] || n[0] != '/'
  {
    DropLeading(ReplaceChar(safe, '\\', '/'), '/')
  }

  /** `resolveObjectName(filePath)` with the `objectPrefix` given: a path
      inside `DATA_DIR`, taken relative to it, else the base name. */
  function ResolveObjectName(filePath: string, prefix: string, ops: PathOps): (name: string)
    ensures var relative := if ops.isAbsolute(filePath) then ops.relativeToDataDir(filePath) else filePath;
      var safe := if relative != "" && !StartsWith(relative, "..") && !ops.isAbsolute(relative)
                  then relative else ops.basename(filePath);
      var n := Segment(safe);
      (n == "" ==> name == prefix)
      && (n != "" && prefix == "" ==> name == n)
      && (n != "" && prefix != "" ==> StartsWith(name, prefix + "/") && name[|prefix| + 1..] == n)
  {
    var relative := if ops.isAbsolute(filePath) then ops.relativeToDataDir(filePath) else filePath;
    var safe := if relative != "" && !StartsWith(relative, "..") && !ops.isAbsolute(relative)
                then relative else ops.basename(filePath);
    var normalized := Segment(safe);
    if normalized == "" then prefix
    else if prefix != "" then
      assert (prefix + "/" + normalized)[..|prefix| + 1] == prefix + "/";
      assert (prefix + "/" + normalized)[|prefix| + 1..] == normalized;
      prefix + "/" + normalized
    else normalized
  }

  /** Object names carry no backslash and no leading slash, whatever the
      path, once the prefix comes from `objectPrefix`. */
  lemma ObjectNameClean(filePath: string, dataPrefix: Option<string>, ops: PathOps)
    ensures var name := ResolveObjectName(filePath, ObjectPrefix(dataPrefix), ops);
      name == [] || name[0] != '/'
  {
    var p := ObjectPrefix(dataPrefix);
    var name := ResolveObjectName(filePath, p, ops);
    if p != "" && name != p {
      assert name[..|p| + 1] == p + "/";
      assert name[0] == p[0];
    }
  }

  /** `publicUser(user)`: every own field but `password`; `{}` for a falsy
      user. */
  function PublicUser(user: JsValue): (rest: map<string, JsValue>)
    ensures "password" !in rest
    ensures forall k :: k in rest <==> k in Spread(user) && k != "password" && Truthy(user)
    ensures forall k :: k in rest ==> rest[k] == Spread(user)[k]
  {
    var fields := if Truthy(user) then Spread(user) else map[];
    map k | k in fields && k != "password" :: fields[k]
  }

  lemma PublicUserKeys(fields: map<string, JsValue>)
    ensures PublicUser(Obj(fields)).Keys == fields.Keys - {"password"}
  {
  }

  /** An update event emitted on `dataEvents`. */
  datatype Event = Event(kind: string, data: seq<JsValue>, timestamp: int)

  function Items(data: JsValue): seq<JsValue> {
    if data.Arr? then data.items else []
  }

  /** `notifyDataSubscribers(filePath, data)`: the event it emits, if any. */
  function Notify(filePath: string, data: JsValue, usersFile: string, tournamentsFile: string, now: int)
    : (e: Option<Event>)
    ensures filePath == usersFile ==> e.Some? && e.value.kind == "users" && |e.value.data| == |Items(data)|
    ensures filePath == usersFile ==> forall i :: 0 <= i < |Items(data)| ==> e.value.data[i] == Obj(PublicUser(Items(data)[i]))
    ensures filePath != usersFile && filePath == tournamentsFile ==> e == Some(Event("tournaments", Items(data), now))
    ensures filePath != usersFile && filePath != tournamentsFile ==> e.None?
  {
    if filePath == usersFile then
      var items := Items(data);
      Some(Event("users", seq(|items|, i requires 0 <= i < |items| => Obj(PublicUser(items[i]))), now))
    else if filePath == tournamentsFile then Some(Event("tournaments", Items(data), now))
    else None
  }

  /** A `users` event never carries a password. */
  lemma UsersEventHasNoPasswords(filePath: string, data: JsValue, usersFile: string, tournamentsFile: string, now: int)
    requires filePath == usersFile
    ensures var e := Notify(filePath, data, usersFile, tournamentsFile, now).value;
      forall i :: 0 <= i < |e.data| ==> e.data[i].Obj? && "password" !in e.data[i].fields
  {
  }

  /** The file-system backend: the files by path and the events emitted so
      far. */
  class DiskStore {
    var files: map<string, string>
    var events: seq<Event>
    const usersFile: string
    const tournamentsFile: string

    constructor(initial: map<string, string>, usersFile: string, tournamentsFile: string)
      ensures files == initial && events == []
      ensures this.usersFile == usersFile && this.tournamentsFile == tournamentsFile
    {
      files := initial;
      events := [];
      this.usersFile := usersFile;
      this.tournamentsFile := tournamentsFile;
    }

    /** `writeJsonFile(filePath, data)`: the file is written, then
        subscribers are told. A failed write (`fault`) throws before any
        event. */
    method WriteJsonFile(filePath: string, data: JsValue, stringify: JsValue -> string,
                         fault: Option<string>, now: int) returns (r: Result<()>)
      modifies this
      ensures fault.Some? ==> r == Throws(fault.value) && files == old(files) && events == old(events)
      ensures fault.None? ==> r == Ok(())
      ensures fault.None? ==> files == old(files)[filePath := stringify(data)]
      ensures fault.None? ==> events == old(events) + OptionToSeq(Notify(filePath, data, usersFile, tournamentsFile, now))
    {
      if fault.Some? {
        return Throws(fault.value);
      }
      files := files[filePath := stringify(data)];
      var e := Notify(filePath, data, usersFile, tournamentsFile, now);
      events := events + OptionToSeq(e);
      return Ok(());
    }

    /** `readJsonFromDisk(filePath, fallback)`. `readFault` is a read error
        other than a missing file, which is rethrown; a missing file is
        created with the fallback (which `writeFault` may make fail) and
        the fallback returned. */
    method ReadJsonFile(filePath: string, fallback: JsValue, parse: string -> Result<JsValue>,
                        stringify: JsValue -> string, readFault: Option<string>,
                        writeFault: Option<string>, now: int) returns (r: Result<JsValue>)
      modifies this
      ensures readFault.Some? ==> r == Throws(readFault.value) && files == old(files) && events == old(events)
      ensures readFault.None? && filePath in old(files) ==>
        r == ParseJsonContent(Str(old(files)[filePath]), fallback, parse)
        && files == old(files) && events == old(events)
      ensures readFault.None? && filePath !in old(files) && writeFault.Some? ==>
        r == Throws(writeFault.value) && files == old(files) && events == old(events)
      ensures readFault.None? && filePath !in old(files) && writeFault.None? ==>
        r == Ok(fallback) && files == old(files)[filePath := stringify(fallback)]
        && events == old(events) + OptionToSeq(Notify(filePath, fallback, usersFile, tournamentsFile, now))
    {
      if readFault.Some? {
        return Throws(readFault.value);
      }
      if filePath in files {
        return ParseJsonContent(Str(files[filePath]), fallback, parse);
      }
      var written := WriteJsonFile(filePath, fallback, stringify, writeFault, now);
      if written.Throws? {
        return Throws(written.error);
      }
      return Ok(fallback);
    }
  }

  function OptionToSeq<T>(o: Option<T>): (s: seq<T>)
    ensures o.Some? ==> s == [o.value]
    ensures o.None? ==> s == []
  {
    if o.Some? then [o.value] else []
  }
}
