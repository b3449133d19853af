/**
 * What the server's handlers do to each other's files. The paths they build disagree
 * (`upload` writes `./markdown/{name}.md` but renders `./markdown/{name}`; `delete` removes
 * `./markdown/{name}` and `./html/{name}`; `publish` reads `./html/{name}.html`), and the
 * lemmas below state the consequences as the code has them.
 */
module ServerProperties {
  import opened Prelude
  import opened Strings
  import opened Server

  // ---------------------------------------------------------------- file names

  lemma CheckFileNameExamples()
    ensures CheckFileName("")
    ensures CheckFileName("notes_1")
    ensures !CheckFileName("a.md") && !CheckFileName("../etc") && !CheckFileName("a/b")
    ensures !CheckFileName("my-notes")
  {
    assert "a.md"[1] == '.';
    assert "../etc"[0] == '.';
    assert "a/b"[1] == '/';
    assert "my-notes"[2] == '-';
  }

  /** An accepted name cannot leave its directory or carry an extension. */
  lemma CheckedNameHasNoSeparator(name: string)
    requires CheckFileName(name)
    ensures '/' !in name && '.' !in name
  {
  }

  /**
   * A path with an extension is never the extensionless path of an accepted name in the
   * same directory: where the extension's dot sits, the other path has a name character
   * or has already ended.
   */
  lemma {:induction false} ExtendedIsNeverBare(dir: string, written: string, suffix: string, bare: string)
    requires CheckFileName(bare)
    requires |suffix| > 0 && suffix[0] == '.'
    ensures dir + written + suffix != dir + bare
  {
    var k := |dir| + |written|;
    if |bare| > |written| {
      assert (dir + bare)[k] == bare[|written|];
      assert IsNameChar(bare[|written|]);
      assert (dir + written + suffix)[k] == '.';
    } else {
      assert |dir + bare| < |dir + written + suffix|;
    }
  }

  /** The file `upload` renders is never a file `upload` writes, for any accepted name. */
  lemma RenderInputIsNeverAnUploadTarget(written: string, rendered: string)
    requires CheckFileName(rendered)
    ensures MdFilePath(written) != MdBarePath(rendered)
  {
    ExtendedIsNeverBare(MarkdownDir, written, ".md", rendered);
  }

  // ---------------------------------------------------------------- stores the server wrote

  /** Every file of `./markdown/` ends in `.md`, as every file `upload` writes does. */
  ghost predicate ServerWritten(files: Files) {
    forall p :: p in files && IsPrefix(MarkdownDir, p) ==> IsSuffix(".md", p)
  }

  lemma {:induction false} BarePathIsNeverServerWritten(name: string)
    requires CheckFileName(name)
    ensures IsPrefix(MarkdownDir, MdBarePath(name))
    ensures !IsSuffix(".md", MdBarePath(name))
  {
    var p := MdBarePath(name);
    var k := |p| - 3;
    // the character three from the end is a name character or a letter of "markdown/"
    if k >= |MarkdownDir| {
      assert p[k] == name[k - |MarkdownDir|];
      assert IsNameChar(name[k - |MarkdownDir|]);
    } else {
      assert p[k] == MarkdownDir[k];
    }
    assert p[k] != '.';
    assert p[k..][0] == p[k];
  }

  lemma UploadKeepsServerWritten(files: Files, name: string, body: Bytes, ext: Externals, faults: Faults)
    requires ServerWritten(files)
    ensures ServerWritten(UploadSpec(files, name, body, ext, faults).files)
  {
    var o := UploadSpec(files, name, body, ext, faults);
    forall p | p in o.files && IsPrefix(MarkdownDir, p) ensures IsSuffix(".md", p) {
      if p == HtmlFilePath(name) {
        assert p[2] != MarkdownDir[2];
      } else if p == MdFilePath(name) {
        assert p[|p| - 3..] == ".md";
      } else {
        assert p in files;
      }
    }
  }

  lemma DeleteKeepsServerWritten(files: Files, name: string)
    requires ServerWritten(files)
    ensures ServerWritten(DeleteSpec(files, name).files)
  {
  }

  /**
   * On a store that only `upload` has written, an authorized upload of an accepted name
   * never answers 200. When the source write succeeds it stores the body and then panics,
   * because the file it renders does not exist; when it fails the reply is 422 and nothing
   * is stored.
   */
  lemma UploadNeverSucceedsOnServerWrittenStore(files: Files, name: string, body: Bytes, ext: Externals, faults: Faults)
    requires ServerWritten(files)
    requires CheckFileName(name)
    ensures UploadSpec(files, name, body, ext, faults).reply != Status(Ok)
    ensures !faults.sourceWrite ==> UploadSpec(files, name, body, ext, faults).reply.Panic?
    ensures !faults.sourceWrite ==>
              UploadSpec(files, name, body, ext, faults).files == files[MdFilePath(name) := Capped(body)]
    ensures faults.sourceWrite ==> UploadSpec(files, name, body, ext, faults) == Outcome(Status(Unprocessable), files)
  {
    BarePathIsNeverServerWritten(name);
  }

  /** On a store that only `upload` has written, `delete` answers 422 and changes nothing. */
  lemma DeleteNeverSucceedsOnServerWrittenStore(files: Files, name: string)
    requires ServerWritten(files)
    ensures DeleteSpec(files, name) == Outcome(Status(Unprocessable), files)
  {
    if CheckFileName(name) {
      BarePathIsNeverServerWritten(name);
    }
  }

  // ---------------------------------------------------------------- across handlers

  /**
   * After an upload answers 200, `publish` shows the rendering of the file that was at
   * `./markdown/{name}` BEFORE the upload; the uploaded body plays no part.
   */
  lemma PublishAfterUpload(files: Files, name: string, body: Bytes, ext: Externals, faults: Faults)
    requires Utf8RoundTrip(ext)
    requires UploadSpec(files, name, body, ext, faults).reply == Status(Ok)
    ensures MdBarePath(name) in files && ext.decode(files[MdBarePath(name)]).Some?
    ensures Publish(UploadSpec(files, name, body, ext, faults).files, name, ext)
            == PageOpen + ext.render(ext.decode(files[MdBarePath(name)]).value) + PageClose
  {
    var html := ParseMdToHtml(files, name, ext).value;
    assert ext.decode(ext.encode(html)) == Some(html);
  }

  /**
   * `delete` of any name never touches any `./html/{name}.html`: what `publish` shows
   * survives it.
   */
  lemma PublishSurvivesDelete(files: Files, published: string, deleted: string, ext: Externals)
    ensures HtmlFilePath(published) in DeleteSpec(files, deleted).files <==> HtmlFilePath(published) in files
    ensures HtmlFilePath(published) in files ==>
              DeleteSpec(files, deleted).files[HtmlFilePath(published)] == files[HtmlFilePath(published)]
    ensures Publish(DeleteSpec(files, deleted).files, published, ext) == Publish(files, published, ext)
  {
    var target := HtmlFilePath(published);
    if CheckFileName(deleted) {
      assert MdBarePath(deleted) != target by { assert MdBarePath(deleted)[2] != target[2]; }
      ExtendedIsNeverBare(HtmlDir, published, ".html", deleted);
    }
    var after := DeleteSpec(files, deleted).files;
    assert (target in after <==> target in files) && (target in after ==> after[target] == files[target]);
  }

  /** `delete` of any name never touches any `./markdown/{name}.md`: uploaded sources survive it. */
  lemma DeleteKeepsUploadedSource(files: Files, written: string, deleted: string)
    requires MdFilePath(written) in files
    ensures MdFilePath(written) in DeleteSpec(files, deleted).files
    ensures DeleteSpec(files, deleted).files[MdFilePath(written)] == files[MdFilePath(written)]
  {
    var target := MdFilePath(written);
    if CheckFileName(deleted) {
      ExtendedIsNeverBare(MarkdownDir, written, ".md", deleted);
      assert HtmlBarePath(deleted) != target by { assert HtmlBarePath(deleted)[2] != target[2]; }
    }
  }

  // ---------------------------------------------------------------- listing

  lemma MarkdownEntriesMembership(files: Files, e: string)
    ensures e in MarkdownEntries(files) <==> MarkdownDir + e in files
  {
    if MarkdownDir + e in files {
      assert IsPrefix(MarkdownDir, MarkdownDir + e);
      assert (MarkdownDir + e)[|MarkdownDir|..] == e;
    }
    if e in MarkdownEntries(files) {
      var p :| p in files && IsPrefix(MarkdownDir, p) && p[|MarkdownDir|..] == e;
      assert p == p[..|MarkdownDir|] + p[|MarkdownDir|..];
    }
  }

  /**
   * Once `upload` has stored the body, whatever it answers afterwards (200, a panic, or 422
   * from a failed save), the listing shows `{name}.md`, not `{name}`.
   */
  lemma UploadIsListedWithExtension(files: Files, name: string, body: Bytes, ext: Externals, faults: Faults)
    requires CheckFileName(name) && !faults.sourceWrite
    ensures name + ".md" in MarkdownEntries(UploadSpec(files, name, body, ext, faults).files)
  {
    assert MarkdownDir + (name + ".md") == MdFilePath(name);
    MarkdownEntriesMembership(UploadSpec(files, name, body, ext, faults).files, name + ".md");
  }

  /** The list page holds one item per entry, in order: reading it back gives the entries. */
  lemma ListPageRoundTrip(entries: seq<string>)
    requires forall i :: 0 <= i < |entries| ==> '\n' !in entries[i]
    ensures ReadListPage(ListPage(entries)) == Some(entries)
  {
    var page := ListPage(entries);
    var inner := JoinLines(Items(entries));
    assert page[..|ListOpen|] == ListOpen;
    assert page[|page| - |ListClose|..] == ListClose;
    assert page[|ListOpen|..|page| - |ListClose|] == inner;
    if |entries| == 0 {
      assert inner == "";
    } else {
      var items := Items(entries);
      forall i | 0 <= i < |items| ensures '\n' !in items[i] {
        assert items[i] == "<li>" + entries[i] + "</li>";
      }
      SplitJoinLines(items);
      assert inner != "" by { assert |inner| >= |items[0]|; JoinLinesLength(items); }
      ReadItemsOfItems(entries);
    }
  }

  lemma {:induction false} ReadItemsOfItems(entries: seq<string>)
    ensures ReadItems(Items(entries)) == Some(entries)
  {
    if |entries| > 0 {
      var items := Items(entries);
      var line := items[0];
      assert line == "<li>" + entries[0] + "</li>";
      assert line[..4] == "<li>" && line[|line| - 5..] == "</li>" && line[4..|line| - 5] == entries[0];
      assert items[1..] == Items(entries[1..]);
      ReadItemsOfItems(entries[1..]);
      assert [entries[0]] + entries[1..] == entries;
    }
  }

  // ---------------------------------------------------------------- a session

  /**
   * Upload `notes_1` into empty directories with the right key, then list, delete and
   * fetch it: the upload panics after storing `./markdown/notes_1.md`, the listing shows
   * `notes_1.md`, the delete answers 422, and `publish` answers "error".
   */
  lemma NotesSession(body: Bytes, ext: Externals)
    ensures var up := UploadSpec(map[], "notes_1", body, ext, Faults(false, false, false));
            && up.reply.Panic?
            && MarkdownEntries(up.files) == {"notes_1.md"}
            && DeleteSpec(up.files, "notes_1") == Outcome(Status(Unprocessable), up.files)
            && Publish(DeleteSpec(up.files, "notes_1").files, "notes_1", ext) == PublishError
  {
    var files: Files := map[];
    var faults := Faults(false, false, false);
    UploadNeverSucceedsOnServerWrittenStore(files, "notes_1", body, ext, faults);
    var up := UploadSpec(files, "notes_1", body, ext, faults);
    assert up.files == map[MdFilePath("notes_1") := Capped(body)];
    UploadKeepsServerWritten(files, "notes_1", body, ext, faults);
    DeleteNeverSucceedsOnServerWrittenStore(up.files, "notes_1");
    forall e ensures e in MarkdownEntries(up.files) <==> e == "notes_1.md" {
      MarkdownEntriesMembership(up.files, e);
      assert MarkdownDir + "notes_1.md" == MdFilePath("notes_1");
    }
    assert HtmlFilePath("notes_1") != MdFilePath("notes_1") by {
      assert HtmlFilePath("notes_1")[2] != MdFilePath("notes_1")[2];
    }
  }
}
