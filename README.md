# markdown-publish in Dafny

A model of markdown-publish, a small system for publishing markdown documents. A command-line
client uploads markdown files to a web server and can remove or list them. The server stores
each upload under `./markdown/`, renders it to HTML under `./html/`, and serves the rendered
page at `/publish/{name}` without a key. The model covers two parts:

- **The server** (`server/src/main.rs`): the file-name check, the `x-api-key` request guard,
  and the handlers `upload`, `delete`, `setting` (route `/upload_list`) and `publish`, with
  their helpers `save_html_to_file` and `parse_md_to_html`. The two directories are a map from
  full path to file contents (`Server.Files`). Module `Server` states each handler's effect
  as a function of that map. Class `ServerDisk.Disk` holds the map as a field. Its methods
  run the handlers one file-system call at a time, and each method is proved to end in the
  state its `Server` function gives. Module `ServerProperties` proves what the handlers do
  to each other's files.
- **The client** (`client/src/main.rs`): `parse_args`, the `Status` display strings, and the
  per-file result loops of `command_upload`, `command_remove` and `command_list`. The file
  system, the network and JSON parsing are function-valued inputs (`Client.Io`). Module
  `Interop` relates the client's statuses to the server's replies.

The model keeps every path exactly as the code builds it. The paths do not agree with each
other:

| handler | path it uses |
|---|---|
| `upload` writes the body to | `./markdown/{name}.md` |
| `parse_md_to_html` (called by `upload`) reads | `./markdown/{name}` |
| `save_html_to_file` writes | `./html/{name}.html` |
| `delete` removes | `./markdown/{name}`, then `./html/{name}` |
| `publish` reads | `./html/{name}.html` |

The lemmas in `ServerProperties` state the consequences:

- `upload` renders whatever was at `./markdown/{name}` before the upload, never the body it
  just stored (`RenderInputIsNeverAnUploadTarget`, `PublishAfterUpload`).
- Suppose every file in `./markdown/` was written by `upload`. Then an upload of an accepted
  name never answers 200. If its source write succeeds it stores the body and panics; if that
  write fails it answers 422 with nothing stored (`UploadNeverSucceedsOnServerWrittenStore`).
  A delete answers 422 and changes nothing (`DeleteNeverSucceedsOnServerWrittenStore`).
- The listing shows `{name}.md` once the body is stored, even when the upload then panics or
  answers 422 (`UploadIsListedWithExtension`).
- A delete of any name never removes any file that `upload` or `save_html_to_file` wrote,
  whatever name that file was written under (`DeleteKeepsUploadedSource`,
  `PublishSurvivesDelete`).
- `NotesSession` walks through one session on empty directories with no write failures:
  upload `notes_1`, list, delete, fetch.
- The client parses the HTML list page as a JSON map. A parser that accepts only JSON
  objects rejects that page (`Interop.ListPageIsNotJson`).

The model does not repair any of these mismatches. It also keeps these behaviours of the code:

- The empty name is accepted by `check_file_name` (server/src/main.rs:139-143).
- `delete` answers 422 when `./html/{name}` is missing, after `./markdown/{name}` is already
  removed (server/src/main.rs:82-88).
- `publish` still finds `./html/{name}.html` after a successful delete, because delete removes
  other paths (server/src/main.rs:85, 114).
- A successful upload answers 200 (server/src/main.rs:70).
- An upload larger than 10,000,000 bytes does not fail. The body is cut to its first
  10,000,000 bytes and the upload carries on, because the handler does not look at whether
  the capped read was complete (server/src/main.rs:60-66, `Server.Capped`).

Inputs of the model:

- **The configured key and server address.** The source loads them at startup; here they
  are parameters.
- **The markdown renderer and UTF-8 conversion.** `Server.Externals` holds the renderer, the
  UTF-8 decoding that `fs::read_to_string` does, and the encoding that `fs::write` stores.
- **Write failures.** `Server.Faults` says which writes fail, for example when the disk is
  full.
- **The client's surroundings.** `Client.Io` gives the outcome of each file open, each file
  stem, each request and each JSON parse.

## Model

| member | source | states |
|---|---|---|
| `Server.CheckFileName` | server/src/main.rs:139-143 | a name is accepted iff every character is an ASCII letter, an ASCII digit, `_` or space |
| `ServerProperties.CheckFileNameExamples` | server/src/main.rs:139-143 | the empty name and `notes_1` are accepted; `a.md`, `../etc`, `a/b`, `my-notes` are rejected |
| `ServerProperties.CheckedNameHasNoSeparator` | server/src/main.rs:139-143 | an accepted name contains no `/` and no `.` |
| `Server.GetOne` | server/src/main.rs:46 | `get_one` gives the value of the first header whose name matches, ignoring ASCII case, and `None` iff no header matches |
| `Server.FromRequest` | server/src/main.rs:41-51 | the guard has three outcomes: no `x-api-key` header gives 400 with Missing; a value equal to the configured key gives Success with that key; any other value gives 400 with Invalid |
| `Server.Capped` | server/src/main.rs:60-62 | the stored body is a prefix of the request body, at most 10,000,000 bytes long, and the whole body when it fits |
| `Server.ParseMdToHtml` | server/src/main.rs:152-159 | rendering panics iff `./markdown/{name}` (no extension) is absent or not UTF-8; otherwise the result is the renderer applied to its text |
| `Server.SaveHtml` | server/src/main.rs:145-150 | no path other than `./html/{name}.html` changes; on success that path holds exactly the encoded page; a failed create changes nothing; a failed write leaves the file empty |
| `Server.UploadSpec` | server/src/main.rs:54-74 | a rejected name or a failed source write gives 422 with nothing changed. Otherwise the capped body is stored at `./markdown/{name}.md`, whatever follows. The reply is 200 iff the pre-existing `./markdown/{name}` renders and the page is saved, and then exactly those two paths changed. It is a panic iff that file is absent or not UTF-8, and then only the source was stored. A failed save answers 422 and keeps the stored source with no rollback: a failed create changes nothing else, and a failed write also leaves `./html/{name}.html` empty |
| `Server.DeleteSpec` | server/src/main.rs:76-91 | the reply is 200 iff the name is accepted and both `./markdown/{name}` and `./html/{name}` existed, and then exactly those two were removed. A rejected name or an absent source gives 422 with nothing changed. An absent `./html/{name}` gives 422 after the source is already gone, with no rollback |
| `Server.MarkdownEntries` | server/src/main.rs:96-98 | on a well-formed store every name `read_dir` reports is a single path component |
| `Server.ListPage` | server/src/main.rs:100-109 | the page opens with `<!DOCTYPE html><html><body><ul>` and closes with `</ul></body></html>`, and is exactly those two iff the directory is empty |
| `Server.Publish` | server/src/main.rs:112-121 | no key and no name check. The page is `error` unless `./html/{name}.html` exists and is UTF-8; otherwise it is `<!DOCTYPE html><html><body>` + contents + `</body></html>` |
| `ServerDisk.Disk.constructor` | server/src/main.rs:132-137 | after `setup` both directories exist with the files they held; the store is well formed |
| `ServerDisk.Disk.SaveHtmlToFile` | server/src/main.rs:145-150 | for a name that passed the check, creating then writing the page, step by step, ends in the state and result `SaveHtml` gives, and every file stays directly inside one of the two directories |
| `ServerDisk.Disk.Upload` | server/src/main.rs:54-74 | a rejected key gives 400 with nothing changed; otherwise the step-by-step handler ends as `UploadSpec` says and keeps every file directly inside one of the two directories |
| `ServerDisk.Disk.Delete` | server/src/main.rs:76-91 | a rejected key gives 400 with nothing changed; otherwise the two removals end as `DeleteSpec` says |
| `ServerDisk.Disk.UploadList` | server/src/main.rs:93-110 | a rejected key gives 400. Otherwise the loop collects every `./markdown/` entry exactly once, in an arbitrary order, each a single path component, and the page is the list page of those entries |
| `ServerProperties.ExtendedIsNeverBare` | server/src/main.rs:82-85 | in one directory, a path ending in an extension is never the extensionless path of an accepted name |
| `ServerProperties.RenderInputIsNeverAnUploadTarget` | server/src/main.rs:60-67 | `./markdown/{a}.md` (written) is never `./markdown/{b}` (rendered) for an accepted `b` |
| `ServerProperties.BarePathIsNeverServerWritten` | server/src/main.rs:152-153 | for an accepted name, `./markdown/{name}` does not end in `.md` |
| `ServerProperties.UploadKeepsServerWritten` | server/src/main.rs:54-74 | if every file of `./markdown/` ends in `.md`, that still holds after any upload |
| `ServerProperties.DeleteKeepsServerWritten` | server/src/main.rs:76-91 | if every file of `./markdown/` ends in `.md`, that still holds after any delete |
| `ServerProperties.UploadNeverSucceedsOnServerWrittenStore` | server/src/main.rs:54-74 | on such a store, uploading an accepted name never answers 200: when its source write succeeds it stores the capped body and then panics; a failed source write answers 422 with nothing stored |
| `ServerProperties.DeleteNeverSucceedsOnServerWrittenStore` | server/src/main.rs:76-91 | on such a store every delete answers 422 and changes nothing |
| `ServerProperties.PublishAfterUpload` | server/src/main.rs:112-121 | after an upload answers 200, `publish` shows the rendering of the file that was at `./markdown/{name}` before the upload |
| `ServerProperties.PublishSurvivesDelete` | server/src/main.rs:82-88 | for any two names, a delete of the one leaves `./html/{other}.html` present or absent as before, with the same bytes, so `publish` of the other answers the same |
| `ServerProperties.DeleteKeepsUploadedSource` | server/src/main.rs:82-88 | a delete of any name leaves every `./markdown/{name}.md` and its contents in place |
| `ServerProperties.MarkdownEntriesMembership` | server/src/main.rs:96-98 | `e` is listed iff `./markdown/{e}` exists |
| `ServerProperties.UploadIsListedWithExtension` | server/src/main.rs:60-69 | once an upload of an accepted name has stored its body, `{name}.md` is listed, whether the upload then answers 200, panics or answers 422 after a failed save |
| `ServerProperties.ListPageRoundTrip` | server/src/main.rs:100-109 | the list page is `<!DOCTYPE html><html><body><ul>` + the items joined by newlines + `</ul></body></html>`; reading the items back gives the entries, one item per entry, in order |
| `ServerProperties.NotesSession` | server/src/main.rs:54-121 | on empty directories with no write failures: uploading `notes_1` panics, the listing is exactly `notes_1.md`, delete answers 422 and changes nothing, and `publish` answers `error` |
| `Client.Display` | client/src/main.rs:33-41 | each status prints as its declared name, except `Unprocessable`, which prints as exactly `Unporcessable`, a different string of the same length |
| `Client.DisplayIsInjective` | client/src/main.rs:33-41 | the four display strings (`Success`, `Unporcessable`, `FileNotFound`, `NetworkError`) are pairwise distinct |
| `Client.CommandOf` | client/src/main.rs:129-134 | `upload`/`u` is Upload, `remove`/`r` is Remove, `list`/`l` is List, anything else is Unknown |
| `Client.ParseArgs` | client/src/main.rs:117-141 | only the program name gives Unknown and no files. Two or more arguments give the command of the second and exactly `args[2..]` as file names, in order. No arguments at all panic |
| `Client.UploadRequest` | client/src/main.rs:201-205 | a POST carrying the file's bytes and the configured key, whose URL is the configured address, `/upload/`, then exactly the stem |
| `Client.DeleteRequest` | client/src/main.rs:248-250 | a GET carrying the configured key, whose URL is the configured address, `/delete/`, then exactly the name |
| `Client.ListRequest` | client/src/main.rs:292-294 | a GET carrying the configured key, whose URL is the configured address followed by exactly `/upload_list` |
| `Client.StatusOf` | client/src/main.rs:218-237 | 200 is Success, 422 is Unprocessable, any other status or a send error is NetworkError, never FileNotFound |
| `Client.UploadAttempt` | client/src/main.rs:169-198 | a request is made for a path iff it opens and has a stem |
| `Client.CommandUpload` | client/src/main.rs:165-241 | one status per path, in order. A path that does not open or has no stem is FileNotFound under the path as given, and no request is made for it. Any other path is reported under its stem with the status of its response. The requests sent are exactly the attempts, in order |
| `Client.CommandRemove` | client/src/main.rs:243-286 | one status per name, in order, each the status of that name's delete request |
| `Client.CommandList` | client/src/main.rs:288-345 | a single NetworkError entry (`NetworkError`, `NetworkResponseError` or `NetworkParseError`) on a send, status, text or parse failure. Otherwise one Success entry per value of the parsed map, each key visited once |
| `Interop.ListPageIsNotJson` | client/src/main.rs:326-335 | a parser that accepts only JSON objects rejects every list page the server builds, so with the configured key and a delivered request listing ends in `NetworkParseError` |
| `Interop.RejectedKeyReadsAsNetworkError` | client/src/main.rs:218-237 | the server's 400 for a missing or wrong key is reported by the client as NetworkError |
| `Interop.RemoveOfUploadedDocumentReadsAsUnprocessable` | client/src/main.rs:263-282 | with the configured key and a delivered request, removing from a store the server wrote is reported as Unprocessable, printed `Unporcessable` |

## Left out

- Rocket's routing, the `format = "bytes"` content-type match, async execution, the port and
  `launch` (server/src/main.rs:123-130): framework plumbing.
- What Rocket answers when a handler panics: the model stops at `Reply.Panic`.
- Startup configuration through `lazy_static`, TOML files and the home directory (server
  lines 16-26, client lines 49-88): the key and address are parameters.
- pulldown_cmark rendering and UTF-8 conversion: these are the functions in
  `Server.Externals`.
- `Data` streaming internals: only the 10 MB cap on the stored length is modelled.
- `into_file` failing after a partial write: a failed source write leaves the map unchanged.
- Server.SaveHtml: a failed `fs::write` (server/src/main.rs:148) is modelled as leaving the
  emptied file. A write that fails after storing part of the page, leaving a prefix behind,
  is not modelled.
- The `content-type: application/octet-stream` header the client sets on uploads: the
  `Client.Request` datatype carries only the URL, the key and the body.
- `remove_file` failing for any reason other than a missing file (permissions, I/O errors).
- A failing `read_dir` or a non-UTF-8 directory entry (the `unwrap` panics in `setting`):
  paths are strings and the directories always exist.
- Path normalisation: paths are compared as strings. `publish` does not check its name, and
  the model does not resolve `..` in the path it reads.
- Concurrent requests to the same name: not a sequential property.
- The client's `main`: table printing, `command_help` and `process::exit`. These are console
  output.
- reqwest sending, `serde_json` parsing and `Path::file_stem`: these are the functions in
  `Client.Io`.
- Client.Io: `send` answers each request by a fixed function of it. A name or path given
  twice in one run gets the same reply twice, though the server's state changes between the
  two requests (`remove a a` answers 200 then 422 on a store holding `./markdown/a` and
  `./html/a`). `CommandUpload` and `CommandRemove` therefore do not capture replies that
  depend on earlier requests of the same run.
- src/test.rs: a network test against a live server that does not compile as written. It
  has no logic to model.
- ServerProperties.ListPageRoundTrip: stated only for entries without a newline. A file
  name holding a newline would split into two items.
