/**
 * The publish server (server/src/main.rs): the file-name check, the `x-api-key` request
 * guard, the paths each handler builds, and each handler's effect on the two document
 * directories, stated as functions over a map from full path to file contents.
 *
 * The handlers as the server runs them, step by step, are the methods of
 * `ServerDisk.Disk`; each is proved equal to the function here that it is named after.
 */
module Server {
  import opened Prelude
  import opened Strings

  type Path = string

  /** The regular files of the two document directories, keyed by full path. */
  type Files = map<Path, Bytes>

  const Ok: nat := 200
  const BadRequest: nat := 400
  const Unprocessable: nat := 422

  // ---------------------------------------------------------------- file names

  /** `char::is_ascii_alphanumeric(&c) || c == '_' || c == ' '` */
  predicate IsNameChar(c: char) {
    ('a' <= c <= 'z') || ('A' <= c <= 'Z') || ('0' <= c <= '9') || c == '_' || c == ' '
  }

  /** `check_file_name`: `Iterator::all` over the characters, from the front. */
  function CheckFileName(name: string): (ok: bool)
    ensures ok <==> forall i :: 0 <= i < |name| ==> IsNameChar(name[i])
  {
    |name| == 0 || (IsNameChar(name[0]) && CheckFileName(name[1..]))
  }

  // ---------------------------------------------------------------- API key guard

  datatype Header = Header(name: string, value: string)

  function AsciiLower(c: char): char {
    if 'A' <= c <= 'Z' then (c as int + 32) as char else c
  }

  /** Header names compare without regard to ASCII case. */
  predicate SameHeaderName(a: string, b: string) {
    |a| == |b| && forall i :: 0 <= i < |a| ==> AsciiLower(a[i]) == AsciiLower(b[i])
  }

  /** `headers().get_one(name)`: the value of the first header with that name. */
  function GetOne(headers: seq<Header>, name: string): (r: Option<string>)
    ensures r.None? <==> forall i :: 0 <= i < |headers| ==> !SameHeaderName(headers[i].name, name)
    ensures r.Some? ==> exists i :: 0 <= i < |headers| && FirstWithName(headers, name, i) && headers[i].value == r.value
  {
    if |headers| == 0 then None
    else if SameHeaderName(headers[0].name, name) then
      assert FirstWithName(headers, name, 0);
      Some(headers[0].value)
    else
      var r := GetOne(headers[1..], name);
      assert forall i :: 0 < i < |headers| ==> headers[i] == headers[1..][i - 1];
      if r.Some? then
        var k :| 0 <= k < |headers[1..]| && FirstWithName(headers[1..], name, k) && headers[1..][k].value == r.value;
        assert FirstWithName(headers, name, k + 1);
        r
      else r
  }

  /** Header `i` is the first one called `name`. */
  predicate FirstWithName(headers: seq<Header>, name: string, i: nat) {
    i < |headers| && SameHeaderName(headers[i].name, name)
    && forall j :: 0 <= j < i ==> !SameHeaderName(headers[j].name, name)
  }

  const ApiKeyHeader: string := "x-api-key"

  datatype ApiKeyError = Missing | Invalid

  /** The outcome of the `ApiKey` request guard. */
  datatype Guard = Authorized(key: string) | Rejected(status: nat, error: ApiKeyError)

  /** `ApiKey::from_request`, with the configured key `apiKey` as a parameter. */
  function FromRequest(headers: seq<Header>, apiKey: string): (g: Guard)
    ensures g.Authorized? <==> GetOne(headers, ApiKeyHeader) == Some(apiKey)
    ensures g.Authorized? ==> g.key == apiKey
    ensures g == Rejected(BadRequest, Missing) <==> GetOne(headers, ApiKeyHeader).None?
    ensures g == Rejected(BadRequest, Invalid) <==>
              GetOne(headers, ApiKeyHeader).Some? && GetOne(headers, ApiKeyHeader).value != apiKey
  {
    match GetOne(headers, ApiKeyHeader)
    case None => Rejected(BadRequest, Missing)
    case Some(key) => if key == apiKey then Authorized(key) else Rejected(BadRequest, Invalid)
  }

  // ---------------------------------------------------------------- paths

  const MarkdownDir: string := "./markdown/"
  const HtmlDir: string := "./html/"

  /** Where `upload` stores the body: `./markdown/{name}.md`. */
  function MdFilePath(name: string): Path { MarkdownDir + name + ".md" }

  /** What `parse_md_to_html` reads and `delete` removes first: `./markdown/{name}`. */
  function MdBarePath(name: string): Path { MarkdownDir + name }

  /** What `save_html_to_file` writes and `publish` reads: `./html/{name}.html`. */
  function HtmlFilePath(name: string): Path { HtmlDir + name + ".html" }

  /** What `delete` removes second: `./html/{name}`. */
  function HtmlBarePath(name: string): Path { HtmlDir + name }

  /** A name the directory listing can report: one path component. */
  predicate IsEntryName(e: string) {
    e != "" && e != "." && e != ".." && '/' !in e
  }

  /** Every key is a regular file directly inside one of the two directories. */
  ghost predicate WellFormed(files: Files) {
    forall p :: p in files ==>
      (IsPrefix(MarkdownDir, p) && IsEntryName(p[|MarkdownDir|..]))
      || (IsPrefix(HtmlDir, p) && IsEntryName(p[|HtmlDir|..]))
  }

  // ---------------------------------------------------------------- collaborators

  /**
   * What the model does not compute: the markdown renderer (pulldown_cmark), UTF-8
   * decoding as done by `fs::read_to_string`, and the UTF-8 encoding `fs::write` stores.
   */
  datatype Externals = Externals(render: string -> string, decode: Bytes -> Option<string>, encode: string -> Bytes)

  /** Decoding gives back every encoded string. */
  ghost predicate Utf8RoundTrip(ext: Externals) {
    forall s :: ext.decode(ext.encode(s)) == Some(s)
  }

  /** Which file-system writes fail (disk full, permissions): an input of the model. */
  datatype Faults = Faults(sourceWrite: bool, htmlCreate: bool, htmlWrite: bool)

  /** What a handler answers: a bare status, an HTML page (status 200), or a panic. */
  datatype Reply = Status(code: nat) | Page(html: string) | Panic(message: string)

  /** A handler's reply together with the directories afterwards. */
  datatype Outcome = Outcome(reply: Reply, files: Files)

  // ---------------------------------------------------------------- upload

  /** `10.megabytes()`: Rocket's decimal megabytes. */
  const UploadLimit: nat := 10 * 1000 * 1000

  /** What `data.open(10.megabytes()).into_file(..)` stores of `body`. */
  function Capped(body: Bytes): (stored: Bytes)
    ensures |stored| <= UploadLimit
    ensures stored <= body
    ensures |body| <= UploadLimit ==> stored == body
  {
    if |body| <= UploadLimit then body else body[..UploadLimit]
  }

  /** `parse_md_to_html`; `None` stands for the panic of `expect("no file found")`. */
  function ParseMdToHtml(files: Files, name: string, ext: Externals): (html: Option<string>)
    ensures html.Some? <==> MdBarePath(name) in files && ext.decode(files[MdBarePath(name)]).Some?
    ensures html.Some? ==> html.value == ext.render(ext.decode(files[MdBarePath(name)]).value)
  {
    var path := MdBarePath(name);
    if path !in files then None
    else match ext.decode(files[path])
      case None => None
      case Some(md) => Some(ext.render(md))
  }

  datatype Written = Written(ok: bool, files: Files)

  /**
   * `save_html_to_file`: `File::create` empties (or creates) the file, then `fs::write`
   * stores the encoded page; a failed write leaves the emptied file behind.
   */
  function SaveHtml(files: Files, name: string, html: string, ext: Externals, faults: Faults): (w: Written)
    ensures w.files - {HtmlFilePath(name)} == files - {HtmlFilePath(name)}
    ensures w.ok <==> !faults.htmlCreate && !faults.htmlWrite
    ensures w.ok ==> HtmlFilePath(name) in w.files && w.files[HtmlFilePath(name)] == ext.encode(html)
    ensures faults.htmlCreate ==> w.files == files
    ensures !faults.htmlCreate && faults.htmlWrite ==> w.files == files[HtmlFilePath(name) := []]
  {
    var path := HtmlFilePath(name);
    if faults.htmlCreate then Written(false, files)
    else if faults.htmlWrite then Written(false, files[path := []])
    else Written(true, files[path := ext.encode(html)])
  }

  /** `upload` once the guard has let the request through. */
  function UploadSpec(files: Files, name: string, body: Bytes, ext: Externals, faults: Faults): (o: Outcome)
    ensures !CheckFileName(name) || faults.sourceWrite ==> o == Outcome(Status(Unprocessable), files)
    ensures o.reply == Status(Ok) || o.reply == Status(Unprocessable) || o.reply.Panic?
    // the page is rendered from ./markdown/{name} as it was BEFORE the upload
    ensures o.reply == Status(Ok) <==>
              CheckFileName(name) && !faults.sourceWrite && ParseMdToHtml(files, name, ext).Some?
              && !faults.htmlCreate && !faults.htmlWrite
    ensures o.reply == Status(Ok) ==>
              o.files == files[MdFilePath(name) := Capped(body)]
                              [HtmlFilePath(name) := ext.encode(ParseMdToHtml(files, name, ext).value)]
    ensures o.reply.Panic? <==>
              CheckFileName(name) && !faults.sourceWrite && ParseMdToHtml(files, name, ext).None?
    ensures o.reply.Panic? ==> o.files == files[MdFilePath(name) := Capped(body)]
    // a failed save answers 422 but keeps the stored source: there is no rollback
    ensures CheckFileName(name) && !faults.sourceWrite && ParseMdToHtml(files, name, ext).Some?
            && faults.htmlCreate ==>
              o == Outcome(Status(Unprocessable), files[MdFilePath(name) := Capped(body)])
    ensures CheckFileName(name) && !faults.sourceWrite && ParseMdToHtml(files, name, ext).Some?
            && !faults.htmlCreate && faults.htmlWrite ==>
              o == Outcome(Status(Unprocessable), files[MdFilePath(name) := Capped(body)][HtmlFilePath(name) := []])
    ensures CheckFileName(name) && !faults.sourceWrite ==>
              MdFilePath(name) in o.files && o.files[MdFilePath(name)] == Capped(body)
  {
    if !CheckFileName(name) || faults.sourceWrite then Outcome(Status(Unprocessable), files)
    else
      var stored := files[MdFilePath(name) := Capped(body)];
      assert MdBarePath(name) != MdFilePath(name) by { assert |MdBarePath(name)| < |MdFilePath(name)|; }
      assert ParseMdToHtml(stored, name, ext) == ParseMdToHtml(files, name, ext);
      match ParseMdToHtml(stored, name, ext)
      case None => Outcome(Panic("no file found"), stored)
      case Some(html) =>
        var w := SaveHtml(stored, name, html, ext, faults);
        assert HtmlFilePath(name) != MdFilePath(name) by { assert HtmlFilePath(name)[2] != MdFilePath(name)[2]; }
        Outcome(Status(if w.ok then Ok else Unprocessable), w.files)
  }

  // ---------------------------------------------------------------- delete

  /** `delete` once the guard has let the request through. */
  function DeleteSpec(files: Files, name: string): (o: Outcome)
    ensures o.reply == Status(Ok) || o.reply == Status(Unprocessable)
    ensures !CheckFileName(name) || MdBarePath(name) !in files ==> o == Outcome(Status(Unprocessable), files)
    ensures o.reply == Status(Ok) <==>
              CheckFileName(name) && MdBarePath(name) in files && HtmlBarePath(name) in files
    ensures o.reply == Status(Ok) ==> o.files == files - {MdBarePath(name), HtmlBarePath(name)}
    // the source is gone even though the reply is 422: there is no rollback
    ensures CheckFileName(name) && MdBarePath(name) in files && HtmlBarePath(name) !in files ==>
              o == Outcome(Status(Unprocessable), files - {MdBarePath(name)})
  {
    if !CheckFileName(name) || MdBarePath(name) !in files then Outcome(Status(Unprocessable), files)
    else
      var removed := files - {MdBarePath(name)};
      assert HtmlBarePath(name) != MdBarePath(name) by { assert HtmlBarePath(name)[2] != MdBarePath(name)[2]; }
      if HtmlBarePath(name) !in removed then Outcome(Status(Unprocessable), removed)
      else Outcome(Status(Ok), removed - {HtmlBarePath(name)})
  }

  // ---------------------------------------------------------------- list

  const ListOpen: string := "<!DOCTYPE html><html><body><ul>"
  const ListClose: string := "</ul></body></html>"

  /**
   * The names `fs::read_dir("./markdown")` reports. On a well-formed store each is a single
   * path component: a file further down, such as `./markdown/a/b`, is never one of them.
   */
  function MarkdownEntries(files: Files): (entries: set<string>)
    ensures WellFormed(files) ==> forall e :: e in entries ==> IsEntryName(e)
  {
    var entries := set p | p in files && IsPrefix(MarkdownDir, p) :: p[|MarkdownDir|..];
    assert WellFormed(files) ==> forall e :: e in entries ==> IsEntryName(e) by {
      if WellFormed(files) {
        forall e | e in entries ensures IsEntryName(e) {
          var p :| p in files && IsPrefix(MarkdownDir, p) && p[|MarkdownDir|..] == e;
          // `./markdown/` and `./html/` part at their third character
          assert p[2] == MarkdownDir[2] != HtmlDir[2];
          assert !IsPrefix(HtmlDir, p);
        }
      }
    }
    entries
  }

  function Item(entry: string): string { "<li>" + entry + "</li>" }

  function Items(entries: seq<string>): seq<string> {
    seq(|entries|, i requires 0 <= i < |entries| => Item(entries[i]))
  }

  /**
   * The page `setting` builds from the directory entries, in the order it read them. An
   * empty directory gives exactly the empty list; any entry adds at least one item.
   */
  function ListPage(entries: seq<string>): (page: string)
    ensures IsPrefix(ListOpen, page) && IsSuffix(ListClose, page)
    ensures page == ListOpen + ListClose <==> |entries| == 0
  {
    var inner := JoinLines(Items(entries));
    assert |entries| > 0 ==> |inner| > 0 by {
      if |entries| > 0 {
        assert |Items(entries)[0]| >= 9;
        JoinLinesLength(Items(entries));
      }
    }
    ListOpen + inner + ListClose
  }

  /** Reads the entries back from a list page; the partner of `ListPage`. */
  function ReadListPage(page: string): Option<seq<string>> {
    if |page| < |ListOpen| + |ListClose| || !IsPrefix(ListOpen, page) || !IsSuffix(ListClose, page) then None
    else
      var inner := page[|ListOpen|..|page| - |ListClose|];
      if inner == "" then Some([]) else ReadItems(SplitLines(inner))
  }

  function ReadItems(lines: seq<string>): Option<seq<string>> {
    if |lines| == 0 then Some([])
    else
      var line := lines[0];
      if |line| < 9 || line[..4] != "<li>" || line[|line| - 5..] != "</li>" then None
      else match ReadItems(lines[1..])
        case None => None
        case Some(rest) => Some([line[4..|line| - 5]] + rest)
  }

  // ---------------------------------------------------------------- publish

  const PageOpen: string := "<!DOCTYPE html><html><body>"
  const PageClose: string := "</body></html>"
  const PublishError: string := "error"

  /** `publish`: no guard and no name check; reads `./html/{name}.html`. */
  function Publish(files: Files, name: string, ext: Externals): (page: string)
    ensures page != PublishError <==>
              HtmlFilePath(name) in files && ext.decode(files[HtmlFilePath(name)]).Some?
    ensures page != PublishError ==>
              page == PageOpen + ext.decode(files[HtmlFilePath(name)]).value + PageClose
  {
    var path := HtmlFilePath(name);
    if path !in files then PublishError
    else match ext.decode(files[path])
      case None => PublishError
      case Some(data) =>
        assert (PageOpen + data + PageClose)[0] == '<';
        PageOpen + data + PageClose
  }
}
