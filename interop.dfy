/**
 * The client against this server: what the client reports for the server's replies.
 */
module Interop {
  import opened Prelude
  import opened Server
  import opened ServerProperties
  import C = Client

  predicate IsJsonSpace(c: char) {
    c == ' ' || c == '\t' || c == '\n' || c == '\r'
  }

  /** After leading JSON whitespace the text opens an object. */
  predicate StartsJsonObject(text: string) {
    if |text| == 0 then false
    else if IsJsonSpace(text[0]) then StartsJsonObject(text[1..])
    else text[0] == '{'
  }

  /** A parser into `HashMap<usize, String>` accepts JSON objects only. */
  ghost predicate ParsesObjectsOnly(parse: string -> Option<map<nat, string>>) {
    forall text :: parse(text).Some? ==> StartsJsonObject(text)
  }

  /**
   * The `/upload_list` page is HTML, so `command_list` can never read it as the JSON map
   * it expects: with the configured key and a delivered request, it reports
   * `NetworkParseError` whatever the directory holds.
   */
  lemma ListPageIsNotJson(entries: seq<string>, parse: string -> Option<map<nat, string>>)
    requires ParsesObjectsOnly(parse)
    ensures parse(ListPage(entries)).None?
  {
    var page := ListPage(entries);
    assert page[0] == '<';
    assert !StartsJsonObject(page);
  }

  /** A rejected key is answered 400, which `command_upload` and `command_remove` report as `NetworkError`. */
  lemma RejectedKeyReadsAsNetworkError(headers: seq<Header>, apiKey: string, text: Option<string>)
    requires FromRequest(headers, apiKey).Rejected?
    ensures C.StatusOf(Some(C.Response(FromRequest(headers, apiKey).status, text))) == C.NetworkError
  {
  }

  /**
   * `remove` of a document the server itself uploaded, with the configured key and a
   * delivered request, prints `Unporcessable`.
   */
  lemma RemoveOfUploadedDocumentReadsAsUnprocessable(files: Files, name: string, text: Option<string>)
    requires ServerWritten(files)
    ensures C.StatusOf(Some(C.Response(DeleteSpec(files, name).reply.code, text))) == C.Unprocessable
    ensures C.Display(C.Unprocessable) == "Unporcessable"
  {
    DeleteNeverSucceedsOnServerWrittenStore(files, name);
  }
}
