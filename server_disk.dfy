/**
 * The server's handlers as they run: each changes the two document directories one
 * file-system call at a time, and is proved to end where the matching function of
 * module `Server` says.
 */
module ServerDisk {
  import opened Prelude
  import opened Strings
  import opened Server

  /** The file system the handlers share: `./markdown/` and `./html/` and their files. */
  class Disk {
    var files: Files

    ghost predicate Valid()
      reads this
    {
      WellFormed(files)
    }

    /** `setup`: both directories exist, holding whatever files they already held. */
    constructor (existing: Files)
      requires WellFormed(existing)
      ensures Valid() && files == existing
    {
      files := existing;
    }

    /** `save_html_to_file`; `upload` calls it only for a name that passed the check. */
    method SaveHtmlToFile(name: string, html: string, ext: Externals, faults: Faults) returns (ok: bool)
      requires Valid() && CheckFileName(name)
      modifies this
      ensures Valid()
      ensures Written(ok, files) == SaveHtml(old(files), name, html, ext, faults)
    {
      EntryOfCheckedName(name, ".html");
      var path := HtmlFilePath(name);
      if faults.htmlCreate {
        return false;
      }
      files := files[path := []];
      if faults.htmlWrite {
        return false;
      }
      files := files[path := ext.encode(html)];
      return true;
    }

    /** The `ApiKey` guard followed by `upload`. */
    method Upload(headers: seq<Header>, apiKey: string, name: string, body: Bytes, ext: Externals, faults: Faults)
      returns (reply: Reply)
      requires Valid()
      modifies this
      ensures Valid()
      ensures FromRequest(headers, apiKey).Rejected? ==>
                reply == Status(BadRequest) && files == old(files)
      ensures FromRequest(headers, apiKey).Authorized? ==>
                Outcome(reply, files) == UploadSpec(old(files), name, body, ext, faults)
    {
      if FromRequest(headers, apiKey).Rejected? {
        return Status(BadRequest);
      }
      if !CheckFileName(name) {
        return Status(Unprocessable);
      }
      if faults.sourceWrite {
        return Status(Unprocessable);
      }
      files := files[MdFilePath(name) := Capped(body)];
      EntryOfCheckedName(name, ".md");
      var html := ParseMdToHtml(files, name, ext);
      if html.None? {
        return Panic("no file found");
      }
      var saved := SaveHtmlToFile(name, html.value, ext, faults);
      reply := if saved then Status(Ok) else Status(Unprocessable);
    }

    /** The `ApiKey` guard followed by `delete`. */
    method Delete(headers: seq<Header>, apiKey: string, name: string) returns (reply: Reply)
      requires Valid()
      modifies this
      ensures Valid()
      ensures FromRequest(headers, apiKey).Rejected? ==>
                reply == Status(BadRequest) && files == old(files)
      ensures FromRequest(headers, apiKey).Authorized? ==>
                Outcome(reply, files) == DeleteSpec(old(files), name)
    {
      if FromRequest(headers, apiKey).Rejected? {
        return Status(BadRequest);
      }
      if !CheckFileName(name) {
        return Status(Unprocessable);
      }
      if MdBarePath(name) !in files {
        return Status(Unprocessable);
      }
      files := files - {MdBarePath(name)};
      if HtmlBarePath(name) !in files {
        return Status(Unprocessable);
      }
      files := files - {HtmlBarePath(name)};
      return Status(Ok);
    }

    /**
     * The `ApiKey` guard followed by `setting` (route `/upload_list`). `read_dir` yields the
     * entries in no particular order; the loop takes them in an arbitrary one.
     */
    method UploadList(headers: seq<Header>, apiKey: string) returns (reply: Reply, ghost listDir: seq<string>)
      requires Valid()
      ensures FromRequest(headers, apiKey).Rejected? ==> reply == Status(BadRequest)
      ensures FromRequest(headers, apiKey).Authorized? ==>
                && reply == Page(ListPage(listDir))
                && (forall e :: e in listDir <==> e in MarkdownEntries(files))
                && (forall i :: 0 <= i < |listDir| ==> IsEntryName(listDir[i]))
                && (forall i, j :: 0 <= i < j < |listDir| ==> listDir[i] != listDir[j])
    {
      if FromRequest(headers, apiKey).Rejected? {
        return Status(BadRequest), [];
      }
      var entries := [];
      var unread := MarkdownEntries(files);
      while unread != {}
        invariant unread <= MarkdownEntries(files)
        invariant forall e :: e in entries <==> e in MarkdownEntries(files) && e !in unread
        invariant forall i, j :: 0 <= i < j < |entries| ==> entries[i] != entries[j]
        decreases unread
      {
        var e :| e in unread;
        entries := entries + [e];
        unread := unread - {e};
      }
      reply, listDir := Page(ListPage(entries)), entries;
    }
  }

  /** A checked name followed by a suffix that starts with a dot is a directory entry. */
  lemma EntryOfCheckedName(name: string, suffix: string)
    requires CheckFileName(name)
    requires |suffix| > 0 && suffix[0] == '.' && '/' !in suffix && suffix != "." && suffix != ".."
    ensures IsEntryName(name + suffix)
    ensures IsPrefix(MarkdownDir, MarkdownDir + name + suffix)
    ensures (MarkdownDir + name + suffix)[|MarkdownDir|..] == name + suffix
    ensures IsPrefix(HtmlDir, HtmlDir + name + suffix)
    ensures (HtmlDir + name + suffix)[|HtmlDir|..] == name + suffix
  {
  }
}
