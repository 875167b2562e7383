/** The two snapshot resources: `SnapshotWriter` (a `BufWriter` over the
    snapshot file) and `SnapshotReader` (the `Lines` iterator over it). */
module Streams {
  import opened Wrappers
  import opened LineIo
  import opened FileSystem

  /** `SnapshotWriter { writer: BufWriter<File>, label }`. `flushed` is what
      has reached the file, `buffered` what the `BufWriter` still holds. */
  class SnapshotWriter {
    const path: Path
    const name: string
    var flushed: string
    var buffered: string

    /** Everything written so far, in order, whether flushed or not. */
    function Contents(): string
      reads this
    {
      flushed + buffered
    }

    /** `SnapshotWriter::create` over a freshly created (empty) file. */
    constructor (path: Path, name: string)
      ensures this.path == path && this.name == name
      ensures flushed == [] && buffered == []
    {
      this.path := path;
      this.name := name;
      flushed, buffered := [], [];
    }

    /** `write_all`: the bytes join the buffer; nothing reaches the file. */
    method WriteAll(bytes: string)
      modifies this
      ensures flushed == old(flushed)
      ensures buffered == old(buffered) + bytes
      ensures Contents() == old(Contents()) + bytes
    {
      buffered := buffered + bytes;
    }

    /** `flush`: the buffer reaches the file; the contents do not change. */
    method Flush()
      modifies this
      ensures flushed == old(flushed) + old(buffered)
      ensures buffered == []
      ensures Contents() == old(Contents())
    {
      flushed := flushed + buffered;
      buffered := [];
    }
  }

  /** What the `Lines` iterator yields for a file it reads without error. */
  function LinesRead(content: string): (items: seq<Result<string>>)
    ensures |items| == |Lines(content)|
    ensures forall i :: 0 <= i < |items| ==> items[i] == Ok(Lines(content)[i])
  {
    seq(|Lines(content)|, i requires 0 <= i < |Lines(content)| => Ok(Lines(content)[i]))
  }

  /** `SnapshotReader { reader: Lines<BufReader<File>>, label }`: the items the
      iterator will yield (`Err` for a failed read) and how many it has yielded. */
  class SnapshotReader {
    const name: string
    const items: seq<Result<string>>
    var cursor: nat

    ghost predicate Valid()
      reads this
    {
      cursor <= |items|
    }

    /** The items not yet read. */
    function Remaining(): seq<Result<string>>
      reads this
      requires Valid()
    {
      items[cursor..]
    }

    constructor (name: string, items: seq<Result<string>>)
      ensures Valid() && this.name == name && this.items == items && cursor == 0
    {
      this.name := name;
      this.items := items;
      cursor := 0;
    }

    /** `Iterator::next`: the next item, or `None` at the end of the file, and
      `None` again on every later call. */
    method Next() returns (item: Option<Result<string>>)
      requires Valid()
      modifies this
      ensures Valid()
      ensures old(cursor) < |items| ==> item == Some(items[old(cursor)]) && cursor == old(cursor) + 1
      ensures old(cursor) == |items| ==> item == None && cursor == old(cursor)
      ensures Remaining() == if item.Some? then old(Remaining())[1..] else old(Remaining())
    {
      if cursor < |items| {
        item := Some(items[cursor]);
        cursor := cursor + 1;
      } else {
        item := None;
      }
    }
  }
}
