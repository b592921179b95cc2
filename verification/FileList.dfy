/** The doubly linked list of all files that have a name. */
module FileList {
  import opened FileBlocks

  class FileList {
    var first: File?
    ghost var files: seq<File>

    /** next and prev link the files in order, each once. */
    ghost predicate Ok()
      reads this, files`next, files`prev
    {
      && first == (if files == [] then null else files[0])
      && (forall i {:trigger files[i].next} | 0 <= i < |files| ::
          files[i].next == if i + 1 < |files| then files[i + 1] else null)
      && (forall i {:trigger files[i].prev} | 0 <= i < |files| :: files[i].prev == if i > 0 then files[i - 1] else null)
      && (forall i, j | 0 <= i < j < |files| :: files[i] != files[j])
    }

    lemma Distinct()
      requires Ok()
      ensures forall i, j | 0 <= i < j < |files| :: files[i] != files[j]
    {
    }

    constructor ()
      ensures Ok() && files == []
    {
      first, files := null, [];
    }

    method InsertFile(file: File)
      requires Ok() && file !in files && file.next == null && file.prev == null
      modifies this, files`prev, file`next
      ensures Ok() && files == [file] + old(files)
    {
      if first == null {
        first := file;
      } else {
        first.prev := file;
        file.next := first;
        first := file;
      }
      files := [file] + files;
    }

    method UnlinkFile(file: File, ghost k: nat)
      requires Ok() && k < |files| && files[k] == file
      modifies this, files`next, files`prev
      ensures Ok() && files == old(files)[..k] + old(files)[k + 1..] && file !in files
    {
      if file.prev != null {
        file.prev.next := file.next;
      }
      if file.next != null {
        file.next.prev := file.prev;
      }
      if first == file {
        first := file.next;
      }
      files := files[..k] + files[k + 1..];
    }

    /** The first file of that name. */
    method Search(name: string) returns (file: File?, ghost k: nat)
      requires Ok()
      ensures file == null ==> forall i | 0 <= i < |files| :: files[i].name != name
      ensures file != null ==> k < |files| && files[k] == file && file.name == name
    {
      file, k := first, 0;
      while file != null
        invariant k <= |files| && file == if k < |files| then files[k] else null
        invariant forall i | 0 <= i < k :: files[i].name != name
        decreases |files| - k
      {
        if file.name == name {
          return;
        }
        file, k := file.next, k + 1;
      }
    }
  }
}
