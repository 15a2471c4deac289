/** The part of the file system that the document routes read: one
    directory listing, in the order the listing call returns it, and the
    text of each listed file. Both routes build their answer as one
    formatted block per listed file, concatenated in listing order. */
module FileSystem {

  /** What reading a listed name as a UTF-8 file gives: its text, or an
      exception (the name is a subdirectory, or the file cannot be read). */
  datatype EntryKind = Readable(content: string) | Unreadable

  datatype Entry = Entry(name: string, kind: EntryKind)

  /** What is found at a path. */
  datatype PathStatus = Missing | NotADirectory | DirectoryOf(entries: seq<Entry>)

  predicate AllReadable(entries: seq<Entry>) {
    forall i :: 0 <= i < |entries| ==> entries[i].kind.Readable?
  }

  /** One block per entry, in listing order, formatted by `block` from the
      entry's name and text. */
  function Render(entries: seq<Entry>, block: (string, string) -> string): string
    requires AllReadable(entries)
    decreases |entries|
  {
    if entries == [] then ""
    else block(entries[0].name, entries[0].kind.content) + Render(entries[1..], block)
  }

  /** The sum of the lengths of the blocks. */
  function BlocksLength(entries: seq<Entry>, block: (string, string) -> string): nat
    requires AllReadable(entries)
    decreases |entries|
  {
    if entries == [] then 0
    else |block(entries[0].name, entries[0].kind.content)| + BlocksLength(entries[1..], block)
  }

  /** Rendering is a left fold: appending an entry to the listing appends
      its block to the text. This is the step of the routes' loops. */
  lemma {:induction false} RenderSnoc(entries: seq<Entry>, e: Entry, block: (string, string) -> string)
    requires AllReadable(entries + [e])
    ensures AllReadable(entries) && e.kind.Readable?
    ensures Render(entries + [e], block) == Render(entries, block) + block(e.name, e.kind.content)
    decreases |entries|
  {
    var all := entries + [e];
    assert all[|entries|] == e;
    assert AllReadable(entries) by {
      forall i | 0 <= i < |entries| ensures entries[i].kind.Readable? {
        assert entries[i] == all[i];
      }
    }
    if entries == [] {
      assert all[1..] == [];
    } else {
      assert all[0] == entries[0];
      assert all[1..] == entries[1..] + [e];
      RenderSnoc(entries[1..], e, block);
    }
  }

  /** The text is exactly as long as all blocks together. */
  lemma {:induction false} RenderLength(entries: seq<Entry>, block: (string, string) -> string)
    requires AllReadable(entries)
    ensures |Render(entries, block)| == BlocksLength(entries, block)
    decreases |entries|
  {
    if entries != [] {
      RenderLength(entries[1..], block);
    }
  }

  /** The text after k entries is a prefix of the text after k + 1 entries. */
  lemma RenderPrefix(entries: seq<Entry>, k: nat, block: (string, string) -> string)
    requires k < |entries|
    requires AllReadable(entries)
    ensures AllReadable(entries[..k]) && AllReadable(entries[..k + 1])
    ensures Render(entries[..k], block) <= Render(entries[..k + 1], block)
  {
    assert entries[..k + 1] == entries[..k] + [entries[k]];
    RenderSnoc(entries[..k], entries[k], block);
  }
}
