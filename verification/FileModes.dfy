/** How a recorded access touched its file. */
module FileModes {
  datatype Mode =
    | Read | Write | ReadWrite | Stat | Access | Exec | Unlink | RenameSrc | RenameDst | ReadLink
    | MkDir | LinkSrc | LinkDst | SymlinkTarget | SymlinkLink | ChMod | ChOwn | Truncate | MkNod
    | UtimeNs | ChDir

  predicate IsInput(m: Mode) {
    m.Read? || m.ReadWrite? || m.Exec? || m.Stat? || m.Access? || m.ReadLink?
  }

  predicate IsOutput(m: Mode) {
    m.Write? || m.ReadWrite? || m.RenameDst? || m.LinkDst? || m.SymlinkLink? || m.Truncate? || m.MkNod? || m.MkDir?
  }
}
