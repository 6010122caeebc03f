/** What a passing verification means for the filesystem: the fixture's subtree is
    exactly the declared layout. */
module Conformance {
  import opened Wrappers
  import opened Filesystem
  import opened DummyErrors
  import opened Fixture
  import opened Verifier

  /** None of the three fixture paths is faulty. */
  predicate Reachable(d: Dummy, fs: Fs) {
    !Faulty(fs, RootPath(d)) && !Faulty(fs, FilePath(d)) && !Faulty(fs, FolderPath(d))
  }

  /** A set of at most two elements that holds two distinct values holds nothing else. */
  lemma PairIsEverything<T>(s: set<T>, a: T, b: T, x: T)
    requires a != b && a in s && b in s && |s| <= 2 && x in s
    ensures x == a || x == b
  {
    var rest := s - {a, b};
    assert s == rest + {a, b};
    assert |rest| == 0;
    assert x in rest || x == a || x == b;
  }

  /** The entries and listings a state holding the declared layout presents. */
  lemma LayoutShape(d: Dummy, fs: Fs)
    requires d.file != d.folder
    requires Subtree(fs, RootPath(d)) == Layout(d)
    ensures IsDirAt(fs, RootPath(d)) && IsDirAt(fs, FolderPath(d))
    ensures FilePath(d) in fs.nodes && fs.nodes[FilePath(d)] == File(d.content)
    ensures Children(fs, RootPath(d)) == {d.file, d.folder}
    ensures Children(fs, FolderPath(d)) == {}
  {
    var r := RootPath(d);
    assert r in Layout(d) && r <= r;
    assert FilePath(d)[1] != FolderPath(d)[1];
    assert FilePath(d) in Layout(d) && r <= FilePath(d);
    assert Layout(d)[FilePath(d)] == File(d.content);
    assert FolderPath(d) in Layout(d) && r <= FolderPath(d);
    forall n | n in Children(fs, r)
      ensures n == d.file || n == d.folder
    {
      assert r <= r + [n];
      assert r + [n] in Layout(d);
    }
  }

  /** The declared layout passes every check. */
  lemma LayoutPasses(d: Dummy, fs: Fs)
    requires d.nChildren == RootChildCount && d.file != d.folder
    requires Reachable(d, fs) && Subtree(fs, RootPath(d)) == Layout(d)
    ensures Verify(d, fs) == None
  {
    LayoutShape(d, fs);
    assert |{d.file, d.folder}| == 2;
    VerifyPassesIffAllPass(d, fs);
  }

  /** What each passing check establishes about the state. */
  lemma PassingFacts(d: Dummy, fs: Fs)
    requires Verify(d, fs) == None
    ensures Reachable(d, fs) && IsDirAt(fs, RootPath(d)) && IsDirAt(fs, FolderPath(d))
    ensures FilePath(d) in fs.nodes && fs.nodes[FilePath(d)] == File(d.content)
    ensures d.file in Children(fs, RootPath(d)) && d.folder in Children(fs, RootPath(d))
    ensures |Children(fs, RootPath(d))| <= d.nChildren
    ensures Children(fs, FolderPath(d)) == {}
  {
    VerifyPassesIffAllPass(d, fs);
  }

  /** Every entry under the root of a well-formed state whose root lists exactly the
      file and the folder, whose file is the expected file and whose folder is empty,
      belongs to the declared layout. */
  lemma EntryUnderRootIsDeclared(d: Dummy, fs: Fs, q: Path)
    requires WellFormed(fs) && d.file != d.folder
    requires IsDirAt(fs, RootPath(d)) && IsDirAt(fs, FolderPath(d))
    requires FilePath(d) in fs.nodes && fs.nodes[FilePath(d)] == File(d.content)
    requires d.file in Children(fs, RootPath(d)) && d.folder in Children(fs, RootPath(d))
    requires |Children(fs, RootPath(d))| <= 2
    requires Children(fs, FolderPath(d)) == {}
    requires q in fs.nodes && RootPath(d) <= q
    ensures q in Layout(d) && Layout(d)[q] == fs.nodes[q]
  {
    var r := RootPath(d);
    var kids := Children(fs, r);
    assert FilePath(d)[1] != FolderPath(d)[1];
    if |q| == 2 {
      assert q == r + [q[1]];
      PairIsEverything(kids, d.file, d.folder, q[1]);
    } else if |q| > 2 {
      AncestorIsDir(fs, q, 2);
      var q2 := q[..2];
      assert q2 == r + [q2[1]];
      PairIsEverything(kids, d.file, d.folder, q2[1]);
      assert q2 == FolderPath(d);
      DescendantMeansChild(fs, FolderPath(d), q);
    } else {
      assert q == r;
      assert Layout(d)[r] == Dir;
    }
  }

  /** The facts the passing checks establish pin down the whole subtree under the root
      of a well-formed state. */
  lemma FactsGiveLayout(d: Dummy, fs: Fs)
    requires WellFormed(fs) && d.file != d.folder
    requires IsDirAt(fs, RootPath(d)) && IsDirAt(fs, FolderPath(d))
    requires FilePath(d) in fs.nodes && fs.nodes[FilePath(d)] == File(d.content)
    requires d.file in Children(fs, RootPath(d)) && d.folder in Children(fs, RootPath(d))
    requires |Children(fs, RootPath(d))| <= 2
    requires Children(fs, FolderPath(d)) == {}
    ensures Subtree(fs, RootPath(d)) == Layout(d)
  {
    var r := RootPath(d);
    var t := Subtree(fs, r);
    var l := Layout(d);
    forall q | q in t
      ensures q in l && l[q] == t[q]
    {
      EntryUnderRootIsDeclared(d, fs, q);
    }
    assert r <= r && r <= FilePath(d) && r <= FolderPath(d);
    assert l.Keys == {r, FilePath(d), FolderPath(d)};
    assert l.Keys <= t.Keys;
    assert t == l;
  }

  /** A state in which every check passes holds exactly the declared layout under the
      root, provided it is well formed (nothing lives outside a directory). */
  lemma PassingIsLayout(d: Dummy, fs: Fs)
    requires WellFormed(fs) && d.nChildren == RootChildCount && d.file != d.folder
    requires Verify(d, fs) == None
    ensures Reachable(d, fs) && Subtree(fs, RootPath(d)) == Layout(d)
  {
    PassingFacts(d, fs);
    FactsGiveLayout(d, fs);
  }

  /** Verification passes exactly on the declared layout. */
  lemma VerifyPassesIffLayout(d: Dummy, fs: Fs)
    requires WellFormed(fs) && d.nChildren == RootChildCount && d.file != d.folder
    ensures Verify(d, fs) == None <==> Reachable(d, fs) && Subtree(fs, RootPath(d)) == Layout(d)
  {
    if Verify(d, fs) == None {
      PassingIsLayout(d, fs);
    }
    if Reachable(d, fs) && Subtree(fs, RootPath(d)) == Layout(d) {
      LayoutPasses(d, fs);
    }
  }

  /** Missing the folder is reported before anything else about the root's listing,
      whatever extra entries the root holds. */
  lemma MissingFolderWins(d: Dummy, fs: Fs)
    requires Listable(fs, RootPath(d)) && FolderPath(d) !in fs.nodes
    ensures Verify(d, fs) ==
      Some(Diagnosed(NewError(Some(MandatoryMissing), NotFoundIn(DummyFolder, d.folder, RootPath(d)), None)))
  {
    VerifyStopsAtRoot(d, fs);
  }

  /** With the folder present, a missing file is the next thing reported. */
  lemma MissingFileNext(d: Dummy, fs: Fs)
    requires Listable(fs, RootPath(d)) && FolderPath(d) in fs.nodes && FilePath(d) !in fs.nodes
    ensures Verify(d, fs) ==
      Some(Diagnosed(NewError(Some(MandatoryMissing), NotFoundIn(DummyFile, d.file, RootPath(d)), None)))
  {
    VerifyStopsAtRoot(d, fs);
  }

  /** Both mandatory entries present plus anything else is an unknown entry. */
  lemma ExtraEntryDetected(d: Dummy, fs: Fs, extra: Name)
    requires d.nChildren == RootChildCount
    requires extra != d.file && extra != d.folder && d.file != d.folder
    requires Listable(fs, RootPath(d)) && FolderPath(d) in fs.nodes && FilePath(d) in fs.nodes
    requires RootPath(d) + [extra] in fs.nodes
    ensures Reports(Verify(d, fs), UnknownDetected)
  {
    var kids := Children(fs, RootPath(d));
    if |kids| <= 2 {
      PairIsEverything(kids, d.file, d.folder, extra);
    }
    VerifyStopsAtRoot(d, fs);
  }

  /** Checking only the file or only the folder skips the root: with the root gone, the
      file or folder check itself reports that its entity does not exist. */
  lemma MissingRootSurfacesPerEntity(d: Dummy, fs: Fs)
    requires WellFormed(fs) && RootPath(d) !in fs.nodes
    requires !Faulty(fs, FilePath(d)) && !Faulty(fs, FolderPath(d))
    ensures VerifyFile(d, fs).Some? && VerifyFile(d, fs).value.Diagnosed?
    ensures VerifyFile(d, fs).value.error.code == Enoent && VerifyFile(d, fs).value.error.detail == DoesNotExist(DummyFile)
    ensures VerifyFolder(d, fs).Some? && VerifyFolder(d, fs).value.Diagnosed?
    ensures VerifyFolder(d, fs).value.error.code == Enoent && VerifyFolder(d, fs).value.error.detail == DoesNotExist(DummyFolder)
  {
    AbsentHasNoDescendants(fs, RootPath(d), FilePath(d));
    AbsentHasNoDescendants(fs, RootPath(d), FolderPath(d));
  }

  /** A root that holds something other than a directory blocks the paths below it: the
      file and folder checks pass the adapter's ENOTDIR through unchanged, while the whole
      verification stops at the root with STAT_ENOTDIR. */
  lemma RootNotADirectoryBlocksEntries(d: Dummy, fs: Fs)
    requires WellFormed(fs) && RootPath(d) in fs.nodes && !fs.nodes[RootPath(d)].Dir?
    requires !Faulty(fs, RootPath(d)) && !Faulty(fs, FilePath(d)) && !Faulty(fs, FolderPath(d))
    ensures VerifyFile(d, fs) == Some(Raw(RawError(Filesystem.NotADirectory, FilePath(d))))
    ensures VerifyFolder(d, fs) == Some(Raw(RawError(Filesystem.NotADirectory, FolderPath(d))))
    ensures Verify(d, fs) ==
      Some(Diagnosed(NewError(Some(StatEnotdir), NotADirectory(RootDirectory, RootPath(d)), None)))
  {
    assert InsideDir(fs, FilePath(d)) && InsideDir(fs, FolderPath(d));
    assert Parent(FilePath(d)) == RootPath(d) && Parent(FolderPath(d)) == RootPath(d);
    VerifyStopsAtRoot(d, fs);
  }
}
