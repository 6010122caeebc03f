/** The fixture declaration (the Dummy class of the original library): an immutable
    record of the root directory, the file name, its expected content and the folder
    name, built by a constructor that rejects anything but four non-empty strings. */
module Fixture {
  import opened Wrappers
  import opened Filesystem

  /** A constructor argument as JavaScript sees it: a string or anything else. */
  datatype JsValue = JsString(s: string) | JsOther

  datatype Dummy = Dummy(root: string, file: Name, content: string, folder: Name, nChildren: nat)

  const ConstructorMessage := "Dummy constructor needs four not empty strings."

  /** The expected number of direct children of the root. */
  const RootChildCount: nat := 2

  /** A truthy string: present, of type string, and not empty. */
  predicate NonEmptyString(v: JsValue) {
    v.JsString? && v.s != ""
  }

  predicate Valid(d: Dummy) {
    d.root != "" && d.file != "" && d.content != "" && d.folder != "" && d.nChildren == RootChildCount
  }

  function NewDummy(root: JsValue, file: JsValue, content: JsValue, folder: JsValue): (r: Result<Dummy, string>)
    ensures r.Success? <==>
      NonEmptyString(root) && NonEmptyString(file) && NonEmptyString(content) && NonEmptyString(folder)
    ensures r.Success? ==> Valid(r.value)
    ensures r.Success? ==>
      r.value.root == root.s && r.value.file == file.s &&
      r.value.content == content.s && r.value.folder == folder.s
    ensures r.Failure? ==> r.error == ConstructorMessage
  {
    if !NonEmptyString(root) || !NonEmptyString(file) || !NonEmptyString(content) || !NonEmptyString(folder) then
      Failure(ConstructorMessage)
    else
      Success(Dummy(root.s, file.s, content.s, folder.s, RootChildCount))
  }

  /** Where the fixture lives.  The root string is one opaque segment under the top of
      the filesystem, and joining a name onto it appends a segment. */
  function RootPath(d: Dummy): Path {
    [d.root]
  }

  function FilePath(d: Dummy): Path {
    RootPath(d) + [d.file]
  }

  function FolderPath(d: Dummy): Path {
    RootPath(d) + [d.folder]
  }

  /** The declared layout: the root directory holding the file with its content and the
      empty folder. */
  function Layout(d: Dummy): map<Path, Node> {
    map[RootPath(d) := Dir, FilePath(d) := File(d.content), FolderPath(d) := Dir]
  }
}
