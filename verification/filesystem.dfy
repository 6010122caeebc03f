/** An abstract, immutable filesystem standing in for the adapter the fixture talks to
    (fs-extra in the original library).  A state maps paths to nodes; a path may also be
    marked faulty, standing for an adapter error other than "not found" (a permission or
    I/O error).  Every operation is a pure function of the state. */
module Filesystem {
  import opened Wrappers

  type Name = string

  /** A path is the sequence of its segments; `[]` is the top of the filesystem. */
  type Path = seq<Name>

  /** What a non-following stat finds at a path.  A symbolic link is a node of its own;
      the model never resolves it. */
  datatype Node = File(content: string) | Dir | Symlink

  /** The type information a non-following stat reports. */
  datatype Stats = Stats(node: Node) {
    predicate IsDirectory() { node.Dir? }
    predicate IsFile() { node.File? }
  }

  /** An adapter error code standing for a fault; "not found" is modelled by absence. */
  type FaultCode = c: string | c != "ENOENT" witness "EIO"

  datatype Fs = Fs(nodes: map<Path, Node>, faults: map<Path, FaultCode>)

  /** A raw adapter error: its code and the path it concerns. */
  datatype RawError = RawError(code: string, path: Path)

  const NotFound := "ENOENT"
  const AlreadyExists := "EEXIST"
  const NotADirectory := "ENOTDIR"
  const IsADirectory := "EISDIR"
  /** Reported by the operations that would have to follow a symbolic link. */
  const LinkNotFollowed := "ELINKNOTFOLLOWED"

  predicate Faulty(fs: Fs, p: Path) {
    p in fs.faults
  }

  predicate IsDirAt(fs: Fs, p: Path) {
    p in fs.nodes && fs.nodes[p].Dir?
  }

  function Parent(p: Path): Path
    requires |p| > 0
  {
    p[..|p| - 1]
  }

  /** The parent of `p` exists but is not a directory, so nothing can live at `p`. */
  predicate Blocked(fs: Fs, p: Path) {
    |p| > 0 && Parent(p) in fs.nodes && !IsDirAt(fs, Parent(p))
  }

  /** Nothing at `p`, no fault and no blocking parent: the adapter reports "not found". */
  predicate Absent(fs: Fs, p: Path) {
    p !in fs.faults && p !in fs.nodes && !Blocked(fs, p)
  }

  /** The directory an entry at `p` would live in exists (the top has no parent). */
  predicate ParentIsDir(fs: Fs, p: Path) {
    |p| == 0 || IsDirAt(fs, Parent(p))
  }

  /** The entry at `q`, if any, lives inside an existing directory. */
  ghost predicate InsideDir(fs: Fs, q: Path) {
    q in fs.nodes && |q| > 0 ==> IsDirAt(fs, Parent(q))
  }

  /** Every entry lives inside an existing directory.  The trigger keeps the solver from
      walking up the ancestors of every entry it meets. */
  ghost predicate WellFormed(fs: Fs) {
    forall q {:trigger InsideDir(fs, q)} :: InsideDir(fs, q)
  }

  /** The error an operation on `p` fails with when `p` is faulty. */
  function FaultAt(fs: Fs, p: Path): RawError
    requires Faulty(fs, p)
  {
    RawError(fs.faults[p], p)
  }

  /** The error for an operation on a path that holds nothing, or whose parent is not a
      directory: ENOTDIR when the parent is something else, "not found" otherwise. */
  function Unreachable(fs: Fs, p: Path): RawError {
    if Blocked(fs, p) then RawError(NotADirectory, p) else RawError(NotFound, p)
  }

  /** The names of the immediate children of `p`. */
  function Children(fs: Fs, p: Path): (names: set<Name>)
    ensures forall n :: n in names <==> p + [n] in fs.nodes
  {
    var names := set q | q in fs.nodes && |q| == |p| + 1 && q[..|p|] == p :: q[|p|];
    assert forall n :: p + [n] in fs.nodes ==> n in names by {
      forall n | p + [n] in fs.nodes
        ensures n in names
      {
        var q := p + [n];
        assert q[..|p|] == p && q[|p|] == n;
      }
    }
    assert forall n :: n in names ==> p + [n] in fs.nodes by {
      forall n | n in names
        ensures p + [n] in fs.nodes
      {
        var q :| q in fs.nodes && |q| == |p| + 1 && q[..|p|] == p && q[|p|] == n;
        assert q == p + [n];
      }
    }
    names
  }

  /** Non-following stat: reports the node at `p` itself, a link included. */
  function Lstat(fs: Fs, p: Path): (r: Result<Stats, RawError>)
    ensures r.Success? <==> !Faulty(fs, p) && p in fs.nodes
    ensures r.Failure? ==> r.error.path == p
    ensures r.Failure? ==> (r.error.code == NotFound <==> Absent(fs, p))
    ensures r.Failure? && Faulty(fs, p) ==> r.error.code == fs.faults[p]
    ensures r.Failure? && !Faulty(fs, p) && p !in fs.nodes && Blocked(fs, p) ==> r.error.code == NotADirectory
    ensures r.Success? ==> (r.value.IsDirectory() <==> fs.nodes[p].Dir?)
    ensures r.Success? ==> (r.value.IsFile() <==> fs.nodes[p].File?)
  {
    if Faulty(fs, p) then Failure(FaultAt(fs, p))
    else if p !in fs.nodes then Failure(Unreachable(fs, p))
    else Success(Stats(fs.nodes[p]))
  }

  /** The immediate child names of a directory. */
  function Readdir(fs: Fs, p: Path): (r: Result<set<Name>, RawError>)
    ensures r.Success? <==> !Faulty(fs, p) && IsDirAt(fs, p)
    ensures r.Success? ==> forall n :: n in r.value <==> p + [n] in fs.nodes
    ensures r.Failure? ==> r.error.path == p
    ensures r.Failure? ==> (r.error.code == NotFound <==> Absent(fs, p))
    ensures r.Failure? && Faulty(fs, p) ==> r.error.code == fs.faults[p]
    ensures r.Failure? && !Faulty(fs, p) && p !in fs.nodes && Blocked(fs, p) ==> r.error.code == NotADirectory
  {
    if Faulty(fs, p) then Failure(FaultAt(fs, p))
    else if p !in fs.nodes then Failure(Unreachable(fs, p))
    else match fs.nodes[p]
      case Dir => Success(Children(fs, p))
      case File(_) => Failure(RawError(NotADirectory, p))
      case Symlink => Failure(RawError(LinkNotFollowed, p))
  }

  /** The whole text of a regular file. */
  function ReadFile(fs: Fs, p: Path): (r: Result<string, RawError>)
    ensures r.Success? <==> !Faulty(fs, p) && p in fs.nodes && fs.nodes[p].File?
    ensures r.Success? ==> fs.nodes[p] == File(r.value)
    ensures r.Failure? ==> r.error.path == p
    ensures r.Failure? ==> (r.error.code == NotFound <==> Absent(fs, p))
    ensures r.Failure? && Faulty(fs, p) ==> r.error.code == fs.faults[p]
    ensures r.Failure? && !Faulty(fs, p) && p !in fs.nodes && Blocked(fs, p) ==> r.error.code == NotADirectory
  {
    if Faulty(fs, p) then Failure(FaultAt(fs, p))
    else if p !in fs.nodes then Failure(Unreachable(fs, p))
    else match fs.nodes[p]
      case File(c) => Success(c)
      case Dir => Failure(RawError(IsADirectory, p))
      case Symlink => Failure(RawError(LinkNotFollowed, p))
  }

  /** Recursive removal of `p` and everything under it; removing nothing is no error. */
  function Remove(fs: Fs, p: Path): (r: Result<Fs, RawError>)
    ensures r.Success? <==> !Faulty(fs, p)
    ensures r.Failure? ==> r.error == RawError(fs.faults[p], p)
    ensures r.Success? ==> r.value.faults == fs.faults
    ensures r.Success? ==> forall q :: q in r.value.nodes <==> q in fs.nodes && !(p <= q)
    ensures r.Success? ==> forall q :: q in r.value.nodes ==> r.value.nodes[q] == fs.nodes[q]
  {
    if Faulty(fs, p) then Failure(FaultAt(fs, p))
    else Success(Fs(map q | q in fs.nodes && !(p <= q) :: fs.nodes[q], fs.faults))
  }

  /** Creation of exactly one directory inside an existing one. */
  function Mkdir(fs: Fs, p: Path): (r: Result<Fs, RawError>)
    ensures r.Success? <==> !Faulty(fs, p) && ParentIsDir(fs, p) && p !in fs.nodes
    ensures r.Failure? ==> r.error.path == p
    ensures r.Failure? && !Faulty(fs, p) && ParentIsDir(fs, p) ==> r.error.code == AlreadyExists
    ensures r.Success? ==> r.value.faults == fs.faults
    ensures r.Success? ==> r.value.nodes.Keys == fs.nodes.Keys + {p} && r.value.nodes[p] == Dir
    ensures r.Success? ==> forall q :: q in fs.nodes ==> r.value.nodes[q] == fs.nodes[q]
  {
    if Faulty(fs, p) then Failure(FaultAt(fs, p))
    else if !ParentIsDir(fs, p) then Failure(Unreachable(fs, p))
    else if p in fs.nodes then Failure(RawError(AlreadyExists, p))
    else Success(Fs(fs.nodes[p := Dir], fs.faults))
  }

  /** Creation or truncation of a regular file holding exactly `text`. */
  function WriteFile(fs: Fs, p: Path, text: string): (r: Result<Fs, RawError>)
    ensures r.Success? <==> !Faulty(fs, p) && ParentIsDir(fs, p) && (p in fs.nodes ==> fs.nodes[p].File?)
    ensures r.Failure? ==> r.error.path == p
    ensures r.Success? ==> r.value.faults == fs.faults
    ensures r.Success? ==> r.value.nodes.Keys == fs.nodes.Keys + {p} && r.value.nodes[p] == File(text)
    ensures r.Success? ==> forall q :: q in fs.nodes && q != p ==> r.value.nodes[q] == fs.nodes[q]
  {
    if Faulty(fs, p) then Failure(FaultAt(fs, p))
    else if !ParentIsDir(fs, p) then Failure(Unreachable(fs, p))
    else if p in fs.nodes && fs.nodes[p].Dir? then Failure(RawError(IsADirectory, p))
    else if p in fs.nodes && fs.nodes[p].Symlink? then Failure(RawError(LinkNotFollowed, p))
    else Success(Fs(fs.nodes[p := File(text)], fs.faults))
  }

  /** Everything at or under `p`. */
  function Subtree(fs: Fs, p: Path): (t: map<Path, Node>)
    ensures forall q :: q in t <==> q in fs.nodes && p <= q
    ensures forall q :: q in t ==> t[q] == fs.nodes[q]
  {
    map q | q in fs.nodes && p <= q :: fs.nodes[q]
  }

  /** No entry outside `p` was added, dropped or changed. */
  ghost predicate OutsideUnchanged(fs: Fs, fs': Fs, p: Path) {
    forall q :: !(p <= q) ==>
      (q in fs'.nodes <==> q in fs.nodes) && (q in fs.nodes ==> fs'.nodes[q] == fs.nodes[q])
  }

  lemma RemovePreservesWellFormed(fs: Fs, p: Path)
    requires WellFormed(fs) && Remove(fs, p).Success?
    ensures WellFormed(Remove(fs, p).value)
  {
    var fs' := Remove(fs, p).value;
    forall q
      ensures InsideDir(fs', q)
    {
      if q in fs'.nodes && |q| > 0 {
        assert InsideDir(fs, q);
        assert !(p <= Parent(q));
      }
    }
  }

  lemma MkdirPreservesWellFormed(fs: Fs, p: Path)
    requires WellFormed(fs) && Mkdir(fs, p).Success?
    ensures WellFormed(Mkdir(fs, p).value)
  {
    var fs' := Mkdir(fs, p).value;
    forall q
      ensures InsideDir(fs', q)
    {
      assert InsideDir(fs, q);
    }
  }

  lemma WriteFilePreservesWellFormed(fs: Fs, p: Path, text: string)
    requires WellFormed(fs) && WriteFile(fs, p, text).Success?
    ensures WellFormed(WriteFile(fs, p, text).value)
  {
    var fs' := WriteFile(fs, p, text).value;
    forall q
      ensures InsideDir(fs', q)
    {
      assert InsideDir(fs, q);
    }
  }

  /** In a well-formed state nothing lives under an absent path. */
  lemma {:induction false} AbsentHasNoDescendants(fs: Fs, p: Path, q: Path)
    requires WellFormed(fs) && p !in fs.nodes && p <= q
    ensures q !in fs.nodes
    decreases |q|
  {
    if q != p && q in fs.nodes {
      assert InsideDir(fs, q);
      assert |q| > |p|;
      assert p <= Parent(q);
      AbsentHasNoDescendants(fs, p, Parent(q));
    }
  }

  /** In a well-formed state every proper ancestor of an entry is a directory. */
  lemma {:induction false} AncestorIsDir(fs: Fs, q: Path, k: nat)
    requires WellFormed(fs) && q in fs.nodes && k < |q|
    ensures IsDirAt(fs, q[..k])
    decreases |q|
  {
    var pq := Parent(q);
    assert InsideDir(fs, q);
    if k < |pq| {
      AncestorIsDir(fs, pq, k);
      assert pq[..k] == q[..k];
    }
  }

  /** In a well-formed state a path with something strictly below it has a child. */
  lemma DescendantMeansChild(fs: Fs, p: Path, q: Path)
    requires WellFormed(fs) && q in fs.nodes && p <= q && |q| > |p|
    ensures Children(fs, p) != {}
  {
    var c := q[..|p| + 1];
    if |q| > |p| + 1 {
      AncestorIsDir(fs, q, |p| + 1);
    }
    assert c == p + [q[|p|]];
    assert q[|p|] in Children(fs, p);
  }
}
