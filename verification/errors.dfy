/** The closed error taxonomy of the fixture (DummyError in the original library):
    a code with a stable errno, structured details in place of the formatted message,
    and the raw adapter error it may wrap. */
module DummyErrors {
  import opened Wrappers
  import opened Filesystem

  datatype Code =
    | Default
    | Enoent
    | UnknownDetected
    | MandatoryMissing
    | NomatchContent
    | StatEnotdir
    | StatEnotfile
  {
    /** The code as the library spells it. */
    function Name(): string {
      match this
      case Default => "DEFAULT"
      case Enoent => "ENOENT"
      case UnknownDetected => "UNKNOWN_DETECTED"
      case MandatoryMissing => "MANDATORY_MISSING"
      case NomatchContent => "NOMATCH_CONTENT"
      case StatEnotdir => "STAT_ENOTDIR"
      case StatEnotfile => "STAT_ENOTFILE"
    }
  }

  /** The errno table, keyed by code name. */
  const Errnos: map<string, nat> := map[
    "DEFAULT" := 1,
    "ENOENT" := 2,
    "UNKNOWN_DETECTED" := 3,
    "MANDATORY_MISSING" := 4,
    "NOMATCH_CONTENT" := 5,
    "STAT_ENOTDIR" := 6,
    "STAT_ENOTFILE" := 7
  ]

  /** The code a name stands for, if it names one. */
  function ParseCode(s: string): (c: Option<Code>)
    ensures c.Some? ==> c.value.Name() == s
  {
    if s == "DEFAULT" then Some(Default)
    else if s == "ENOENT" then Some(Enoent)
    else if s == "UNKNOWN_DETECTED" then Some(UnknownDetected)
    else if s == "MANDATORY_MISSING" then Some(MandatoryMissing)
    else if s == "NOMATCH_CONTENT" then Some(NomatchContent)
    else if s == "STAT_ENOTDIR" then Some(StatEnotdir)
    else if s == "STAT_ENOTFILE" then Some(StatEnotfile)
    else None
  }

  /** The entities a verification step reports on. */
  datatype Entity = RootDirectory | DummyFile | DummyFolder

  /** The structured fields each message is composed from. */
  datatype Detail =
    | DoesNotExist(entity: Entity)
    | NotADirectory(entity: Entity, path: Path)
    | NotAFile(entity: Entity, path: Path)
    | NotFoundIn(entity: Entity, name: Name, root: Path)
    | UnknownAmong(root: Path, children: set<Name>)
    | NotEmpty(entity: Entity, path: Path)
    | ContentMismatch(actual: string, entity: Entity, expected: string)

  datatype DummyError = DummyError(code: Code, errno: nat, detail: Detail, cause: Option<RawError>)

  /** What a failed fixture operation hands its caller: a classified error, or the
      adapter's error passed through untouched. */
  datatype Failure = Diagnosed(error: DummyError) | Raw(raw: RawError)

  /** Builds an error; a missing code falls back to DEFAULT. */
  function NewError(code: Option<Code>, detail: Detail, cause: Option<RawError>): (e: DummyError)
    ensures code.None? ==> e.code == Default && e.errno == 1
    ensures code.Some? ==> e.code == code.value
    ensures e.errno == Errnos[e.code.Name()] && 1 <= e.errno <= 7
    ensures e.detail == detail && e.cause == cause
  {
    var c := code.GetOr(Default);
    DummyError(c, Errnos[c.Name()], detail, cause)
  }

  /** The errno table covers exactly the closed code set, with fixed numbers. */
  lemma ErrnoTable()
    ensures forall c: Code :: c.Name() in Errnos
    ensures forall s :: s in Errnos <==> ParseCode(s).Some?
    ensures Errnos[Default.Name()] == 1 && Errnos[Enoent.Name()] == 2
    ensures Errnos[UnknownDetected.Name()] == 3 && Errnos[MandatoryMissing.Name()] == 4
    ensures Errnos[NomatchContent.Name()] == 5 && Errnos[StatEnotdir.Name()] == 6
    ensures Errnos[StatEnotfile.Name()] == 7
  {
  }

  /** Distinct codes carry distinct errnos, so the errno identifies the code. */
  lemma ErrnoIdentifiesCode(c1: Code, c2: Code)
    ensures Errnos[c1.Name()] == Errnos[c2.Name()] ==> c1 == c2
  {
  }
}
