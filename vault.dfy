/**
 * The vault: the folders whose files are the work items, and the two file
 * operations every component uses, writing a file and moving one. A move is
 * one atomic step, as `shutil.move` (a rename within one file system) is.
 */
module Vault {

  /** The folders of the vault that an item passes through. */
  datatype Folder = Inbox | NeedsAction | ApprovalRequired | Done

  /** Path of each folder below the vault root. */
  function FolderPath(f: Folder): seq<string> {
    match f
    case Inbox => ["Inbox"]
    case NeedsAction => ["Needs_Action"]
    case ApprovalRequired => ["Needs_Action", "APPROVAL_REQUIRED"]
    case Done => ["Done"]
  }

  /** Different folders have different paths, and the approval folder sits inside `Needs_Action`. */
  lemma FolderLayout(f: Folder, g: Folder)
    ensures FolderPath(f) == FolderPath(g) ==> f == g
    ensures FolderPath(ApprovalRequired) == FolderPath(NeedsAction) + ["APPROVAL_REQUIRED"]
    ensures |FolderPath(NeedsAction)| == 1 && |FolderPath(Done)| == 1 && |FolderPath(Inbox)| == 1
  {
    assert "Needs_Action"[0] != "APPROVAL_REQUIRED"[0];
  }

  /** A directory entry with its modification time (`st_mtime`). */
  datatype Entry = File(content: string, mtime: int) | Dir(mtime: int)

  /** The contents of every folder: file name to entry. */
  type Tree = map<Folder, map<string, Entry>>

  /** The entries of folder `f`; a folder never written to is empty. */
  function Files(t: Tree, f: Folder): map<string, Entry> {
    if f in t then t[f] else map[]
  }

  /** `f` holds a regular file called `name` (`Path.is_file()`). */
  predicate IsFile(t: Tree, f: Folder, name: string) {
    name in Files(t, f) && Files(t, f)[name].File?
  }

  /** Writing `content` to `f/name` at time `now`, creating or overwriting the file. */
  function Write(t: Tree, f: Folder, name: string, content: string, now: int): (t': Tree)
    ensures IsFile(t', f, name) && Files(t', f)[name] == File(content, now)
    ensures forall n :: n != name ==> (n in Files(t', f) <==> n in Files(t, f))
    ensures forall n :: n != name && n in Files(t, f) ==> Files(t', f)[n] == Files(t, f)[n]
    ensures forall g :: g != f ==> Files(t', g) == Files(t, g)
  {
    t[f := Files(t, f)[name := File(content, now)]]
  }

  /**
   * Moving `src/name` to `dst/newName` in one step. An entry already under the
   * destination name is replaced, as a rename replaces it.
   */
  function Move(t: Tree, src: Folder, name: string, dst: Folder, newName: string): (t': Tree)
    requires name in Files(t, src)
    ensures newName in Files(t', dst) && Files(t', dst)[newName] == Files(t, src)[name]
    ensures src != dst ==> Files(t', src) == Files(t, src) - {name}
    ensures forall n :: n != newName && n in Files(t, dst) && !(dst == src && n == name) ==>
              n in Files(t', dst) && Files(t', dst)[n] == Files(t, dst)[n]
    ensures forall n :: n in Files(t', dst) ==> n == newName || n in Files(t, dst)
    ensures forall g :: g != src && g != dst ==> Files(t', g) == Files(t, g)
  {
    var e := Files(t, src)[name];
    var t1 := t[src := Files(t, src) - {name}];
    t1[dst := Files(t1, dst)[newName := e]]
  }

  /** Moving a file out of a folder and into another keeps the number of files: one leaves, one arrives. */
  lemma MoveKeepsOthers(t: Tree, src: Folder, name: string, dst: Folder, newName: string)
    requires name in Files(t, src) && src != dst && newName !in Files(t, dst)
    ensures |Files(Move(t, src, name, dst, newName), src)| == |Files(t, src)| - 1
    ensures |Files(Move(t, src, name, dst, newName), dst)| == |Files(t, dst)| + 1
  {
    var t' := Move(t, src, name, dst, newName);
    assert Files(t', dst).Keys == Files(t, dst).Keys + {newName};
  }

  /** The vault as the processes see it: one mutable tree of folders. */
  class Store {
    var tree: Tree

    constructor(t: Tree)
      ensures tree == t
    {
      tree := t;
    }

    /** `open(f/name, "w").write(content)` */
    method WriteFile(f: Folder, name: string, content: string, now: int)
      modifies this
      ensures tree == Write(old(tree), f, name, content, now)
    {
      tree := Write(tree, f, name, content, now);
    }

    /** `shutil.move(src/name, dst/newName)` */
    method MoveFile(src: Folder, name: string, dst: Folder, newName: string)
      requires name in Files(tree, src)
      modifies this
      ensures tree == Move(old(tree), src, name, dst, newName)
    {
      tree := Move(tree, src, name, dst, newName);
    }
  }
}
