/** An abstract, read-only directory tree: each readable directory path maps to
    its listing, in the order the listing returns it. */
module FileTree {

  /** One listing entry (`fs.DirEntry`): its base name and whether it is a directory. */
  datatype DirEntry = DirEntry(name: string, isDir: bool)

  type Tree = map<string, seq<DirEntry>>

  /** `filepath.Join` of a directory and one base name. */
  function PathJoin(dir: string, name: string): string
  {
    dir + "/" + name
  }

  /** Every sub-directory a listing mentions can itself be listed, so descending
      into a listed directory never meets a read error. */
  predicate Closed(fs: Tree) {
    forall p, i :: p in fs && 0 <= i < |fs[p]| && fs[p][i].isDir ==> PathJoin(p, fs[p][i].name) in fs
  }
}
