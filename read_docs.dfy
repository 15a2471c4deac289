/** The document route: given a directory name in the query, it answers
    with the text of every file of that directory under `docs`, each file
    as one block headed by its name. */
module ReadDocsApi {
  import opened Protocol
  import opened FileSystem

  /** The `dir` query parameter: absent, given once, or given several times. */
  datatype QueryValue = Absent | Single(value: string) | Multiple(values: seq<string>)

  /** The block for one file: a header line with the name, then the text
      between code fences. */
  function DocsBlock(name: string, content: string): string {
    "文件名: " + name + "\n```" + content + "\n\n```"
  }

  predicate ValidDir(dir: QueryValue) {
    dir.Single? && dir.value != ""
  }

  /** The outcome of the route, for a query `dir` and a file system in which
      `lookup(d)` is what lies at `docs/d`. */
  function DocsOutcome(dir: QueryValue, lookup: string -> PathStatus): (r: Outcome)
    ensures r.Sent? ==> r.response.status in {200, 400, 404}
    ensures r.Sent? && r.response.status == 200 <==> r.Sent? && r.response.body.ContentBody?
    ensures r.Sent? && r.response.status != 200 ==> r.response.body.ErrorBody?
    ensures r.Raised? <==> ValidDir(dir) && lookup(dir.value).DirectoryOf? && !AllReadable(lookup(dir.value).entries)
    ensures r.Sent? && r.response.status == 404 <==> ValidDir(dir) && !lookup(dir.value).DirectoryOf?
  {
    if !ValidDir(dir) then Sent(Response(400, ErrorBody("Invalid directory name")))
    else match lookup(dir.value)
      case DirectoryOf(entries) =>
        if AllReadable(entries) then Sent(Response(200, ContentBody(Render(entries, DocsBlock))))
        else Raised
      case _ => Sent(Response(404, ErrorBody("Directory not found")))
  }

  method ReadDocs(dir: QueryValue, lookup: string -> PathStatus) returns (outcome: Outcome)
    ensures outcome == DocsOutcome(dir, lookup)
  {
    if !dir.Single? || dir.value == "" {
      return Sent(Response(400, ErrorBody("Invalid directory name")));
    }
    var status := lookup(dir.value);
    if !status.DirectoryOf? {
      return Sent(Response(404, ErrorBody("Directory not found")));
    }
    var files := status.entries;
    var content := "";
    var i := 0;
    while i < |files|
      invariant 0 <= i <= |files|
      invariant AllReadable(files[..i])
      invariant content == Render(files[..i], DocsBlock)
    {
      var file := files[i];
      if file.kind.Unreadable? {
        return Raised;
      }
      assert files[..i + 1] == files[..i] + [file];
      RenderSnoc(files[..i], file, DocsBlock);
      content := content + DocsBlock(file.name, file.kind.content);
      i := i + 1;
    }
    assert files[..i] == files;
    return Sent(Response(200, ContentBody(content)));
  }

  /** An invalid `dir` is rejected before the file system is looked at:
      the answer does not depend on it. */
  lemma InvalidDirIgnoresFileSystem(dir: QueryValue, lookup1: string -> PathStatus, lookup2: string -> PathStatus)
    requires !ValidDir(dir)
    ensures DocsOutcome(dir, lookup1) == DocsOutcome(dir, lookup2) == Sent(Response(400, ErrorBody("Invalid directory name")))
  {
  }

  /** Every 200 answer carries the blocks of all the directory's files, in
      listing order, and is as long as those blocks together; an empty
      directory gives empty content. */
  lemma {:induction false} DocsContentShape(dir: QueryValue, lookup: string -> PathStatus)
    requires DocsOutcome(dir, lookup).Sent? && DocsOutcome(dir, lookup).response.status == 200
    ensures ValidDir(dir) && lookup(dir.value).DirectoryOf?
    ensures var entries := lookup(dir.value).entries;
      AllReadable(entries) &&
      DocsOutcome(dir, lookup).response.body == ContentBody(Render(entries, DocsBlock)) &&
      |Render(entries, DocsBlock)| == BlocksLength(entries, DocsBlock) &&
      (entries == [] ==> Render(entries, DocsBlock) == "")
  {
    RenderLength(lookup(dir.value).entries, DocsBlock);
  }
}
