/**
 * The command-line client (client/src/main.rs): reading the command line, the per-file
 * statuses of `upload` and `remove`, the statuses of `list`, and how a status is printed.
 * The file system, the network and JSON parsing are functions handed in as `Io`.
 */
module Client {
  import opened Prelude

  datatype Command = Upload | Remove | List | Unknown

  datatype Config = Config(command: Command, fileNames: seq<string>)

  datatype Status = Success | Unprocessable | FileNotFound | NetworkError

  datatype FileStatus = FileStatus(fileName: string, status: Status)

  // ---------------------------------------------------------------- Display

  /** The name each status is declared with. */
  function VariantName(s: Status): string {
    match s
    case Success => "Success"
    case Unprocessable => "Unprocessable"
    case FileNotFound => "FileNotFound"
    case NetworkError => "NetworkError"
  }

  /**
   * `impl fmt::Display for Status`: each status prints as its declared name, except
   * `Unprocessable`, whose printed form transposes two letters.
   */
  function Display(s: Status): (d: string)
    ensures d == VariantName(s) <==> s != Unprocessable
    ensures s == Unprocessable ==> d == "Unporcessable"
    ensures |d| == |VariantName(s)|
  {
    match s
    case Success => "Success"
    case Unprocessable =>
      assert "Unporcessable"[3] != VariantName(Unprocessable)[3];
      "Unporcessable"
    case FileNotFound => "FileNotFound"
    case NetworkError => "NetworkError"
  }

  /** The printed form tells the statuses apart. */
  lemma DisplayIsInjective(a: Status, b: Status)
    ensures Display(a) == Display(b) <==> a == b
  {
    if a != b {
      assert Display(a)[0] != Display(b)[0];
    }
  }

  // ---------------------------------------------------------------- parse_args

  /** The command word of `parse_args`. */
  function CommandOf(word: string): (c: Command)
    ensures c == Upload <==> word == "upload" || word == "u"
    ensures c == Remove <==> word == "remove" || word == "r"
    ensures c == List <==> word == "list" || word == "l"
    ensures c == Unknown <==> word !in ["upload", "u", "remove", "r", "list", "l"]
  {
    if word == "upload" || word == "u" then Upload
    else if word == "remove" || word == "r" then Remove
    else if word == "list" || word == "l" then List
    else Unknown
  }

  /**
   * `parse_args` over the program's arguments, program name first. `None` stands for the
   * out-of-bounds panic of `args[1]` when even the program name is missing.
   */
  method ParseArgs(args: seq<string>) returns (config: Option<Config>)
    ensures config.None? <==> |args| == 0
    ensures |args| == 1 ==> config == Some(Config(Unknown, []))
    ensures |args| >= 2 ==> config.Some? && config.value.command == CommandOf(args[1])
    ensures |args| >= 2 ==> config.value.fileNames == args[2..]
  {
    if |args| == 1 {
      return Some(Config(Unknown, []));
    }
    if |args| == 0 {
      return None;
    }
    var command := CommandOf(args[1]);
    var fileNames := [];
    var i := 2;
    while i < |args|
      invariant 2 <= i <= |args|
      invariant fileNames == args[2..i]
    {
      fileNames := fileNames + [args[i]];
      i := i + 1;
    }
    return Some(Config(command, fileNames));
  }

  // ---------------------------------------------------------------- requests

  datatype Request =
    | Post(url: string, apiKey: string, body: Bytes)
    | Get(url: string, apiKey: string)

  /** A response that arrived: its status and, if it could be read, its text. */
  datatype Response = Response(status: nat, text: Option<string>)

  /**
   * The client's surroundings: the configured address and key, `File::open` (the bytes
   * of the file, if it opens), `Path::file_stem` with `to_str`, `send` on a request, and
   * `serde_json::from_str` into a `HashMap<usize, String>`.
   */
  datatype Io = Io(
    ip: string,
    apiKey: string,
    open: string -> Option<Bytes>,
    fileStem: string -> Option<string>,
    send: Request -> Option<Response>,
    parseJson: string -> Option<map<nat, string>>)

  /** What `url` holds after the configured address and `route`, if it starts with both. */
  function PathAfter(io: Io, route: string, url: string): Option<string> {
    var prefix := io.ip + route;
    if |prefix| <= |url| && url[..|prefix|] == prefix then Some(url[|prefix|..]) else None
  }

  /** The POST of `command_upload`: the file's bytes, sent under its stem with the key. */
  function UploadRequest(io: Io, stem: string, contents: Bytes): (r: Request)
    ensures r.Post? && r.apiKey == io.apiKey && r.body == contents
    ensures PathAfter(io, "/upload/", r.url) == Some(stem)
  {
    var url := io.ip + "/upload/" + stem;
    assert url[..|io.ip + "/upload/"|] == io.ip + "/upload/";
    Post(url, io.apiKey, contents)
  }

  /** The GET of `command_remove` for one name, with the key. */
  function DeleteRequest(io: Io, name: string): (r: Request)
    ensures r.Get? && r.apiKey == io.apiKey
    ensures PathAfter(io, "/delete/", r.url) == Some(name)
  {
    var url := io.ip + "/delete/" + name;
    assert url[..|io.ip + "/delete/"|] == io.ip + "/delete/";
    Get(url, io.apiKey)
  }

  /** The GET of `command_list`, with the key and nothing after the route. */
  function ListRequest(io: Io): (r: Request)
    ensures r.Get? && r.apiKey == io.apiKey
    ensures PathAfter(io, "/upload_list", r.url) == Some("")
  {
    var url := io.ip + "/upload_list";
    assert url[..|url|] == url && url[|url|..] == "";
    Get(url, io.apiKey)
  }

  /** The match on `response.status()` shared by `command_upload` and `command_remove`. */
  function StatusOf(response: Option<Response>): (s: Status)
    ensures s == Success <==> response.Some? && response.value.status == 200
    ensures s == Unprocessable <==> response.Some? && response.value.status == 422
    ensures s == NetworkError <==> response.None? || (response.value.status != 200 && response.value.status != 422)
    ensures s != FileNotFound
  {
    match response
    case None => NetworkError
    case Some(r) => if r.status == 200 then Success else if r.status == 422 then Unprocessable else NetworkError
  }

  // ---------------------------------------------------------------- upload

  /** The request `command_upload` sends for `path`, if the file opens and has a stem. */
  function UploadAttempt(io: Io, path: string): (r: Option<Request>)
    ensures r.Some? <==> io.open(path).Some? && io.fileStem(path).Some?
  {
    match io.open(path)
    case None => None
    case Some(contents) =>
      match io.fileStem(path)
      case None => None
      case Some(stem) => Some(UploadRequest(io, stem, contents))
  }

  /** The requests `command_upload` sends for `paths`, in order. */
  function UploadAttempts(io: Io, paths: seq<string>): seq<Request> {
    if |paths| == 0 then []
    else
      var last := paths[|paths| - 1];
      UploadAttempts(io, paths[..|paths| - 1])
        + (if UploadAttempt(io, last).Some? then [UploadAttempt(io, last).value] else [])
  }

  /**
   * `command_upload`: one status per path, in order. A path that does not open, or has no
   * stem, is reported `FileNotFound` under the path as given and causes no request; any
   * other is sent under its stem and reported by the response's status. `sent` is the
   * sequence of requests made.
   */
  method CommandUpload(io: Io, paths: seq<string>) returns (statuses: seq<FileStatus>, sent: seq<Request>)
    ensures |statuses| == |paths|
    ensures forall i :: 0 <= i < |paths| && UploadAttempt(io, paths[i]).None? ==>
              statuses[i] == FileStatus(paths[i], FileNotFound)
    ensures forall i :: 0 <= i < |paths| && UploadAttempt(io, paths[i]).Some? ==>
              statuses[i] == FileStatus(io.fileStem(paths[i]).value, StatusOf(io.send(UploadAttempt(io, paths[i]).value)))
    ensures sent == UploadAttempts(io, paths)
  {
    statuses, sent := [], [];
    for i := 0 to |paths|
      invariant |statuses| == i
      invariant forall j :: 0 <= j < i && UploadAttempt(io, paths[j]).None? ==>
                  statuses[j] == FileStatus(paths[j], FileNotFound)
      invariant forall j :: 0 <= j < i && UploadAttempt(io, paths[j]).Some? ==>
                  statuses[j] == FileStatus(io.fileStem(paths[j]).value, StatusOf(io.send(UploadAttempt(io, paths[j]).value)))
      invariant sent == UploadAttempts(io, paths[..i])
    {
      var path := paths[i];
      assert paths[..i + 1][..i] == paths[..i];
      var file := io.open(path);
      if file.None? {
        statuses := statuses + [FileStatus(path, FileNotFound)];
        continue;
      }
      var stem := io.fileStem(path);
      if stem.None? {
        statuses := statuses + [FileStatus(path, FileNotFound)];
        continue;
      }
      var request := UploadRequest(io, stem.value, file.value);
      sent := sent + [request];
      var response := io.send(request);
      if response.None? {
        statuses := statuses + [FileStatus(stem.value, NetworkError)];
        continue;
      }
      if response.value.status == 200 {
        statuses := statuses + [FileStatus(stem.value, Success)];
      } else if response.value.status == 422 {
        statuses := statuses + [FileStatus(stem.value, Unprocessable)];
      } else {
        statuses := statuses + [FileStatus(stem.value, NetworkError)];
      }
    }
    assert paths[..|paths|] == paths;
  }

  // ---------------------------------------------------------------- remove

  /** `command_remove`: one status per name, in order, each from its own delete request. */
  method CommandRemove(io: Io, names: seq<string>) returns (statuses: seq<FileStatus>)
    ensures |statuses| == |names|
    ensures forall i :: 0 <= i < |names| ==>
              statuses[i] == FileStatus(names[i], StatusOf(io.send(DeleteRequest(io, names[i]))))
  {
    statuses := [];
    for i := 0 to |names|
      invariant |statuses| == i
      invariant forall j :: 0 <= j < i ==>
                  statuses[j] == FileStatus(names[j], StatusOf(io.send(DeleteRequest(io, names[j]))))
    {
      var name := names[i];
      var response := io.send(DeleteRequest(io, name));
      if response.None? {
        statuses := statuses + [FileStatus(name, NetworkError)];
        continue;
      }
      if response.value.status == 200 {
        statuses := statuses + [FileStatus(name, Success)];
      } else if response.value.status == 422 {
        statuses := statuses + [FileStatus(name, Unprocessable)];
      } else {
        statuses := statuses + [FileStatus(name, NetworkError)];
      }
    }
  }

  // ---------------------------------------------------------------- list

  /**
   * `command_list`: a single `NetworkError` entry when the request fails, the status is not
   * 200, the text cannot be read or does not parse; otherwise one `Success` entry per value
   * of the parsed map, in the map's (arbitrary) iteration order, given by `order`.
   */
  method CommandList(io: Io) returns (statuses: seq<FileStatus>, ghost order: seq<nat>)
    ensures var response := io.send(ListRequest(io));
            response.None? || response.value.status != 200 ==>
              statuses == [FileStatus("NetworkError", NetworkError)]
    ensures var response := io.send(ListRequest(io));
            response.Some? && response.value.status == 200 && response.value.text.None? ==>
              statuses == [FileStatus("NetworkResponseError", NetworkError)]
    ensures var response := io.send(ListRequest(io));
            response.Some? && response.value.status == 200 && response.value.text.Some?
            && io.parseJson(response.value.text.value).None? ==>
              statuses == [FileStatus("NetworkParseError", NetworkError)]
    ensures var response := io.send(ListRequest(io));
            response.Some? && response.value.status == 200 && response.value.text.Some?
            && io.parseJson(response.value.text.value).Some? ==>
              var fileList := io.parseJson(response.value.text.value).value;
              && |statuses| == |order|
              && (forall i :: 0 <= i < |order| ==>
                    order[i] in fileList && statuses[i] == FileStatus(fileList[order[i]], Success))
              && (forall k :: k in fileList <==> k in order)
              && (forall i, j :: 0 <= i < j < |order| ==> order[i] != order[j])
  {
    order := [];
    var response := io.send(ListRequest(io));
    if response.None? {
      return [FileStatus("NetworkError", NetworkError)], order;
    }
    if response.value.status != 200 {
      return [FileStatus("NetworkError", NetworkError)], order;
    }
    var text := response.value.text;
    if text.None? {
      return [FileStatus("NetworkResponseError", NetworkError)], order;
    }
    var parsed := io.parseJson(text.value);
    if parsed.None? {
      return [FileStatus("NetworkParseError", NetworkError)], order;
    }
    var fileList := parsed.value;
    statuses := [];
    var unvisited := fileList.Keys;
    while unvisited != {}
      invariant unvisited <= fileList.Keys
      invariant |statuses| == |order|
      invariant forall i :: 0 <= i < |order| ==>
                  order[i] in fileList && statuses[i] == FileStatus(fileList[order[i]], Success)
      invariant forall k :: k in order <==> k in fileList && k !in unvisited
      invariant forall i, j :: 0 <= i < j < |order| ==> order[i] != order[j]
      decreases unvisited
    {
      var key :| key in unvisited;
      statuses := statuses + [FileStatus(fileList[key], Success)];
      order := order + [key];
      unvisited := unvisited - {key};
    }
  }
}
