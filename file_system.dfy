/**
 * The part of the local filesystem the server touches: the readable files
 * with their contents, and the paths where opening a FileWriter fails.
 */
module FileSystem {
  import opened Wrappers

  /** The contents of `path`, or the empty text when there is no such file
      (what a FileWriter in append mode starts from). */
  function ContentsOf(files: map<string, string>, path: string): string {
    if path in files then files[path] else []
  }

  class Disk {
    /** Every file that can be opened for reading, with its contents. */
    var files: map<string, string>
    /** Paths where opening a FileWriter fails (directories, no permission). */
    const unwritable: set<string>

    constructor (files: map<string, string>, unwritable: set<string>)
      ensures this.files == files && this.unwritable == unwritable
    {
      this.files := files;
      this.unwritable := unwritable;
    }

    /** new FileReader(path) and reading it to the end: the contents, or None
        when the open fails. */
    method Open(path: string) returns (contents: Option<string>)
      ensures path in files <==> contents.Some?
      ensures path in files ==> contents.value == files[path]
    {
      if path in files {
        contents := Some(files[path]);
      } else {
        contents := None;
      }
    }

    /** new FileWriter(path, append): creates the file, truncated unless
        appending; false when the open throws. */
    method OpenWriter(path: string, append: bool) returns (ok: bool)
      modifies this`files
      ensures ok <==> path !in unwritable
      ensures !ok ==> files == old(files)
      ensures ok ==> files == old(files)[path := if append then ContentsOf(old(files), path) else []]
    {
      ok := path !in unwritable;
      if ok {
        files := files[path := if append then ContentsOf(files, path) else []];
      }
    }

    /** FileWriter.write on a writer opened on `path`. */
    method Write(path: string, s: string)
      requires path in files
      modifies this`files
      ensures files == old(files)[path := old(files)[path] + s]
    {
      files := files[path := files[path] + s];
    }
  }
}
