/** A small file system: atomic renames, writes that can be seen half done, and contents that
    survive a crash only once synced. `history` records every state another process, or a
    crash, could observe. */
module Disk {
  import opened Wrappers
  import opened Bytes
  import opened IdentityList

  datatype Metadata = Metadata(
    salt: Bytes,
    canary: Bytes,
    recoverySalt: Bytes,
    wrappedMasterKey: Bytes,
    createdAt: int)

  datatype VaultFile = VaultFile(metadata: Option<Metadata>, identities: seq<Identity>)

  /** The JSON of a complete vault file, or bytes that do not parse as one. */
  datatype Content = Image(file: VaultFile) | Torn

  datatype Entry = Entry(content: Content, synced: bool)

  type Path = Bytes
  type Files = map<Path, Entry>

  /** What a crash may leave: synced files keep their contents, missing files stay missing, and
      nothing is promised of the rest. */
  ghost predicate CrashesTo(before: Files, after: Files) {
    && (forall p :: p in before && before[p].synced ==> p in after && after[p].content == before[p].content)
    && (forall p :: p !in before ==> p !in after)
  }

  function ContentAt(files: Files, path: Path): (r: Option<Content>) {
    if path in files then Some(files[path].content) else None
  }

  class FileSystem {
    var files: Files
    ghost var history: seq<Files>

    constructor ()
      ensures files == map[] && history == []
    {
      files, history := map[], [];
    }

    /** os.WriteFile: truncates or creates the file, then fills it. When it fails the file may
        have been created; a reader in between sees an incomplete file. */
    method WriteFile(path: Path, content: Content, created: bool, complete: bool) returns (ok: bool)
      modifies this
      ensures ok == (created && complete)
      ensures files == if !created then old(files)
                       else old(files)[path := Entry(if complete then content else Torn, false)]
      ensures old(history) <= history
      ensures forall k :: |old(history)| <= k < |history| ==>
                            exists torn: Content :: history[k] == old(files)[path := Entry(torn, false)]
    {
      if created {
        files := files[path := Entry(Torn, false)];
        history := history + [files];
        if complete {
          files := files[path := Entry(content, false)];
          history := history + [files];
          assert files == old(files)[path := Entry(content, false)];
        }
      }
      ok := created && complete;
    }

    method Sync(path: Path)
      requires path in files
      modifies this
      ensures files == old(files)[path := old(files)[path].(synced := true)]
      ensures history == old(history) + [files]
    {
      files := files[path := files[path].(synced := true)];
      history := history + [files];
    }

    /** os.Rename, taken to be durable at once; the directory is not synced. */
    method Rename(from: Path, to: Path)
      requires from in files && from != to
      modifies this
      ensures files == (old(files) - {from})[to := old(files)[from]]
      ensures history == old(history) + [files]
    {
      files := (files - {from})[to := files[from]];
      history := history + [files];
    }

    method RemoveFile(path: Path)
      modifies this
      ensures files == old(files) - {path}
      ensures history == old(history) + [files]
    {
      files := files - {path};
      history := history + [files];
    }
  }
}
