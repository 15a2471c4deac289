/** The stub-file route: it answers with a fixed preamble followed by the
    text of every file under `docs/pyi`, each as one block headed by its
    name. It reads neither the method nor the query of the request. */
module ReadPyiFilesApi {
  import opened Protocol
  import opened FileSystem

  const Preamble := "这些pyi文件是python扩展包pycluster2x的注解文件，描述了其中定义的各种类和类方法的定义。\n\n"

  function PyiBlock(name: string, content: string): string {
    "文件名: " + name + "\n" + content + "\n\n"
  }

  /** The outcome of the route when `pyiDir` is what lies at `docs/pyi`.
      Listing a path that is not a directory throws. */
  function PyiOutcome(pyiDir: PathStatus): (r: Outcome)
    ensures r.Sent? <==> pyiDir.DirectoryOf? && AllReadable(pyiDir.entries)
    ensures r.Sent? ==> r.response.status == 200 && r.response.body.ContentBody? && Preamble <= r.response.body.content
  {
    match pyiDir
    case DirectoryOf(entries) =>
      if AllReadable(entries) then Sent(Response(200, ContentBody(Preamble + Render(entries, PyiBlock))))
      else Raised
    case _ => Raised
  }

  method ReadPyiFiles(pyiDir: PathStatus) returns (outcome: Outcome)
    ensures outcome == PyiOutcome(pyiDir)
  {
    if !pyiDir.DirectoryOf? {
      return Raised;
    }
    var files := pyiDir.entries;
    var content := Preamble;
    var i := 0;
    while i < |files|
      invariant 0 <= i <= |files|
      invariant AllReadable(files[..i])
      invariant content == Preamble + Render(files[..i], PyiBlock)
    {
      var file := files[i];
      if file.kind.Unreadable? {
        return Raised;
      }
      assert files[..i + 1] == files[..i] + [file];
      RenderSnoc(files[..i], file, PyiBlock);
      content := content + PyiBlock(file.name, file.kind.content);
      i := i + 1;
    }
    assert files[..i] == files;
    return Sent(Response(200, ContentBody(content)));
  }

  /** Every answer the route sends is 200, its content starts with the
      preamble, and an empty listing gives exactly the preamble. */
  lemma PyiContentShape(pyiDir: PathStatus)
    requires PyiOutcome(pyiDir).Sent?
    ensures PyiOutcome(pyiDir).response.status == 200
    ensures PyiOutcome(pyiDir).response.body.ContentBody?
    ensures Preamble <= PyiOutcome(pyiDir).response.body.content
    ensures pyiDir == DirectoryOf([]) ==> PyiOutcome(pyiDir).response.body.content == Preamble
  {
  }

  /** The content after k files is a prefix of the content after k + 1. */
  lemma PyiContentGrows(entries: seq<Entry>, k: nat)
    requires k < |entries| && AllReadable(entries)
    ensures AllReadable(entries[..k]) && AllReadable(entries[..k + 1])
    ensures Preamble + Render(entries[..k], PyiBlock) <= Preamble + Render(entries[..k + 1], PyiBlock)
  {
    RenderPrefix(entries, k, PyiBlock);
  }
}
