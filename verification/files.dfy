/** An immutable snapshot of the file system, standing in for
    `fs.existsSync`, `fs.promises.readdir` and `fs.promises.readFile`. */
module Files {
  import opened Wrappers
  import Base64

  datatype FileSystem = FileSystem(
    existing: set<string>,
    listings: map<string, seq<string>>,
    contents: map<string, seq<Base64.byte>>)
  {
    /** `fs.existsSync`. */
    predicate Exists(path: string) {
      path in existing
    }

    /** `fs.promises.readdir`, with a failed listing caught and replaced by
        the empty list the scanner starts from. */
    function ReadDirOrEmpty(dir: string): (names: seq<string>)
      ensures dir in listings ==> names == listings[dir]
      ensures dir !in listings ==> names == []
    {
      if dir in listings then listings[dir] else []
    }

    /** `fs.promises.readFile`: `None` when the read rejects. */
    function ReadFile(path: string): Option<seq<Base64.byte>> {
      if path in contents then Some(contents[path]) else None
    }
  }
}
