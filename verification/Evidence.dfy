/**
 * Write-once evidence: raw files written by rename, a manifest of their checksums written last,
 * and a verifier that recomputes every checksum. The second half is a crash model: every
 * intermediate state of every write is a state somebody may find on disk.
 */
module Evidence {
  import opened Common

  type Path = seq<string>

  const MANIFEST_NAME := "manifest.json"

  /** A raw file's name is its '/'-separated components. */
  type Name = n: seq<string> | n != [] witness ["raw.json"]

  datatype Manifest = Manifest(exitStatus: int, rawFiles: map<Name, string>, checksums: map<Name, string>)

  datatype Content = Body(text: string) | Sealed(manifest: Manifest)

  type Files = map<Path, Content>

  datatype Fault =
    | Finalized
    | ManifestReserved
    | SecretLeak
    | MissingSource(path: Path)
    | NoManifest

  datatype Problem = NotInRawFiles | MissingFile(base: string) | Checksum(observed: string, recorded: string)

  function Base(path: Path): string {
    if path == [] then "" else path[|path| - 1]
  }

  function ManifestPath(dir: Path): Path {
    dir + [MANIFEST_NAME]
  }

  /** The manifest `finalize` seals: base names and checksums of the raw files as they stand. */
  function Seal(hash: Content -> string, raw: map<Name, Path>, files: Files, exitStatus: int): Manifest
    requires forall n :: n in raw ==> raw[n] in files
  {
    Manifest(exitStatus,
             map n | n in raw :: Base(raw[n]),
             map n | n in raw :: hash(files[raw[n]]))
  }

  /** What the verifier says about one name. */
  function ProblemOf(hash: Content -> string, dir: Path, files: Files, m: Manifest, n: Name): Option<Problem>
    requires n in m.checksums
  {
    if n !in m.rawFiles then Some(NotInRawFiles)
    else
      var path := dir + [m.rawFiles[n]];
      if path !in files then Some(MissingFile(m.rawFiles[n]))
      else if hash(files[path]) != m.checksums[n] then Some(Checksum(hash(files[path]), m.checksums[n]))
      else None
  }

  function Mismatches(hash: Content -> string, dir: Path, files: Files, m: Manifest): map<Name, Problem> {
    map n | n in m.checksums && ProblemOf(hash, dir, files, m, n).Some? :: ProblemOf(hash, dir, files, m, n).value
  }

  class FileSystem {
    var files: Files

    constructor (files: Files)
      ensures this.files == files
    {
      this.files := files;
    }

    /** Write to a temporary name that nothing has yet, then rename: no trace of the temporary file is left. */
    method AtomicWrite(path: Path, content: Content, temp: Path)
      requires temp !in files
      modifies this
      ensures files == old(files)[path := content]
    {
      files := files[temp := Body("")];
      files := files[temp := content];
      files := (files - {temp})[path := content];
    }
  }

  /** What a completed raw write leaves: the files and the writer's record of raw files. */
  function AfterWrite(dir: Path, files: Files, raw: map<Name, Path>, name: Name, text: string)
    : (Files, map<Name, Path>)
  {
    (files[dir + name := Body(text)], raw[name := dir + name])
  }

  /** What a completed sealing leaves. */
  function AfterSeal(hash: Content -> string, dir: Path, files: Files, raw: map<Name, Path>, exitStatus: int): Files
    requires forall n :: n in raw ==> raw[n] in files
  {
    files[ManifestPath(dir) := Sealed(Seal(hash, raw, files, exitStatus))]
  }

  class EvidenceWriter {
    const dir: Path
    const fs: FileSystem
    var raw: map<Name, Path>
    var finalized: bool

    constructor (dir: Path, fs: FileSystem)
      ensures this.dir == dir && this.fs == fs && raw == map[] && !finalized
    {
      this.dir, this.fs, raw, finalized := dir, fs, map[], false;
    }

    /** `write_json` and `write_jsonl`; `leaks` is the verdict of the secret scan on the payload. */
    method WriteRaw(name: Name, text: string, leaks: bool, temp: Path) returns (r: Result<Path, Fault>)
      requires temp !in fs.files
      modifies this`raw, fs
      ensures r == if leaks then Err(SecretLeak) else if finalized then Err(Finalized)
                   else if name == [MANIFEST_NAME] then Err(ManifestReserved) else Ok(dir + name)
      ensures (fs.files, raw) == if r.Ok? then AfterWrite(dir, old(fs.files), old(raw), name, text) else (old(fs.files), old(raw))
    {
      if leaks {
        return Err(SecretLeak);
      }
      if finalized {
        return Err(Finalized);
      }
      if name == [MANIFEST_NAME] {
        return Err(ManifestReserved);
      }
      var target := dir + name;
      fs.AtomicWrite(target, Body(text), temp);
      raw := raw[name := target];
      return Ok(target);
    }

    method Adopt(name: Name, source: Path) returns (r: Result<Path, Fault>)
      modifies this`raw
      ensures r == if source !in fs.files then Err(MissingSource(source)) else Ok(source)
      ensures raw == if r.Ok? then old(raw)[name := source] else old(raw)
    {
      if source !in fs.files {
        return Err(MissingSource(source));
      }
      raw := raw[name := source];
      return Ok(source);
    }

    /** Seals the run. A raw file that has since vanished is an error, and nothing is sealed. */
    method Finalize(hash: Content -> string, exitStatus: int, leaks: bool, temp: Path)
      returns (r: Result<Manifest, Fault>)
      requires temp !in fs.files
      modifies this`finalized, fs
      ensures r.Err? ==> fs.files == old(fs.files) && finalized == old(finalized)
      ensures r.Err? <==> old(finalized) || leaks || exists n :: n in raw && raw[n] !in old(fs.files)
      ensures r.Ok? ==> finalized && r.value == Seal(hash, raw, old(fs.files), exitStatus)
                        && fs.files == AfterSeal(hash, dir, old(fs.files), raw, exitStatus)
    {
      if finalized {
        return Err(Finalized);
      }
      if leaks {
        return Err(SecretLeak);
      }
      if exists n :: n in raw && raw[n] !in fs.files {
        var n :| n in raw && raw[n] !in fs.files;
        return Err(MissingSource(raw[n]));
      }
      var manifest := Seal(hash, raw, fs.files, exitStatus);
      fs.AtomicWrite(ManifestPath(dir), Sealed(manifest), temp);
      finalized := true;
      return Ok(manifest);
    }
  }

  method VerifyManifest(hash: Content -> string, dir: Path, files: Files) returns (r: Result<map<Name, Problem>, Fault>)
    ensures ManifestPath(dir) in files && files[ManifestPath(dir)].Sealed? ==>
              r == Ok(Mismatches(hash, dir, files, files[ManifestPath(dir)].manifest))
    ensures !(ManifestPath(dir) in files && files[ManifestPath(dir)].Sealed?) ==> r == Err(NoManifest)
  {
    if ManifestPath(dir) !in files || !files[ManifestPath(dir)].Sealed? {
      return Err(NoManifest);
    }
    var m := files[ManifestPath(dir)].manifest;
    var mismatches: map<Name, Problem> := map[];
    var left := m.checksums.Keys;
    while left != {}
      invariant left <= m.checksums.Keys
      invariant mismatches == map n | n in m.checksums.Keys - left && ProblemOf(hash, dir, files, m, n).Some?
                                :: ProblemOf(hash, dir, files, m, n).value
    {
      var n :| n in left;
      left := left - {n};
      var problem := ProblemOf(hash, dir, files, m, n);
      if problem.Some? {
        mismatches := mismatches[n := problem.value];
      }
    }
    assert mismatches == Mismatches(hash, dir, files, m);
    return Ok(mismatches);
  }

  // --- sealing and verifying ---

  ghost predicate Injective(hash: Content -> string) {
    forall a, b :: hash(a) == hash(b) ==> a == b
  }

  /**
   * The round trip, exactly: verification against a sealed manifest is clean exactly when, for
   * every raw file, the run directory holds under its base name what the raw file held when sealed.
   */
  lemma CleanIffUnchanged(hash: Content -> string, dir: Path, raw: map<Name, Path>, sealed: Files, now: Files,
                          exitStatus: int)
    requires Injective(hash) && forall n :: n in raw ==> raw[n] in sealed
    ensures Mismatches(hash, dir, now, Seal(hash, raw, sealed, exitStatus)) == map[] <==>
              forall n :: n in raw ==>
                dir + [Base(raw[n])] in now && now[dir + [Base(raw[n])]] == sealed[raw[n]]
  {
    var m := Seal(hash, raw, sealed, exitStatus);
    var found := Mismatches(hash, dir, now, m);
    if found == map[] {
      forall n | n in raw ensures dir + [Base(raw[n])] in now && now[dir + [Base(raw[n])]] == sealed[raw[n]] {
        assert n !in found;
        assert ProblemOf(hash, dir, now, m, n).None?;
      }
    } else {
      var n :| n in found;
      assert n in raw && ProblemOf(hash, dir, now, m, n).Some?;
    }
  }

  /** Every raw file sits directly in the run directory, and none of them is the manifest. */
  predicate Direct(dir: Path, raw: map<Name, Path>) {
    forall n :: n in raw ==> raw[n] == dir + [Base(raw[n])] && raw[n] != ManifestPath(dir)
  }

  /** What `Finalize` leaves verifies clean, and goes on doing so exactly until a named file changes. */
  lemma CleanFromFinalizeOn(hash: Content -> string, dir: Path, raw: map<Name, Path>, sealed: Files, now: Files,
                            exitStatus: int)
    requires Injective(hash) && Direct(dir, raw) && forall n :: n in raw ==> raw[n] in sealed
    ensures var m, after := Seal(hash, raw, sealed, exitStatus), AfterSeal(hash, dir, sealed, raw, exitStatus);
            && Mismatches(hash, dir, after, m) == map[]
            && (Mismatches(hash, dir, now, m) == map[] <==>
                  forall n :: n in raw ==> raw[n] in now && now[raw[n]] == after[raw[n]])
  {
    CleanIffUnchanged(hash, dir, raw, sealed, AfterSeal(hash, dir, sealed, raw, exitStatus), exitStatus);
    CleanIffUnchanged(hash, dir, raw, sealed, now, exitStatus);
  }

  /** The run directory holds, under the base name of the raw file, what the raw file itself holds. */
  predicate HasTwin(dir: Path, files: Files, path: Path) {
    && path in files
    && dir + [Base(path)] in files && files[dir + [Base(path)]] == files[path]
  }

  /**
   * Wherever the raw files are: what `Finalize` leaves verifies clean exactly when every raw file had a
   * twin, itself or another file, directly in the run directory. Where the base name is the manifest's,
   * the twin is the manifest itself.
   */
  lemma CleanAtFinalizeExactly(hash: Content -> string, dir: Path, raw: map<Name, Path>, sealed: Files, exitStatus: int)
    requires Injective(hash) && forall n :: n in raw ==> raw[n] in sealed
    ensures var m := Seal(hash, raw, sealed, exitStatus);
            Mismatches(hash, dir, AfterSeal(hash, dir, sealed, raw, exitStatus), m) == map[]
            <==> forall n :: n in raw ==>
                   if Base(raw[n]) == MANIFEST_NAME then sealed[raw[n]] == Sealed(m) else HasTwin(dir, sealed, raw[n])
  {
    var after := AfterSeal(hash, dir, sealed, raw, exitStatus);
    CleanIffUnchanged(hash, dir, raw, sealed, after, exitStatus);
    forall n | n in raw ensures dir + [Base(raw[n])] == ManifestPath(dir) <==> Base(raw[n]) == MANIFEST_NAME {
      assert (dir + [Base(raw[n])])[|dir|] == Base(raw[n]) && ManifestPath(dir)[|dir|] == MANIFEST_NAME;
    }
  }

  /** In particular no raw file with a text of its own may share the manifest's base name. */
  lemma CleanTextsExactly(hash: Content -> string, dir: Path, raw: map<Name, Path>, sealed: Files, exitStatus: int)
    requires Injective(hash) && forall n :: n in raw ==> raw[n] in sealed && sealed[raw[n]].Body?
    ensures Mismatches(hash, dir, AfterSeal(hash, dir, sealed, raw, exitStatus), Seal(hash, raw, sealed, exitStatus)) == map[]
       <==> forall n :: n in raw ==> Base(raw[n]) != MANIFEST_NAME && HasTwin(dir, sealed, raw[n])
  {
    CleanAtFinalizeExactly(hash, dir, raw, sealed, exitStatus);
  }

  /** A raw file whose base name is not in the run directory is reported missing as soon as it is sealed. */
  lemma MissingTwinIsReported(hash: Content -> string, dir: Path, raw: map<Name, Path>, sealed: Files,
                              exitStatus: int, n: Name)
    requires (forall k :: k in raw ==> raw[k] in sealed) && n in raw
    requires dir + [Base(raw[n])] !in sealed && Base(raw[n]) != MANIFEST_NAME
    ensures var found := Mismatches(hash, dir, AfterSeal(hash, dir, sealed, raw, exitStatus), Seal(hash, raw, sealed, exitStatus));
            n in found && found[n] == MissingFile(Base(raw[n]))
  {
    assert (dir + [Base(raw[n])])[|dir|] == Base(raw[n]) && ManifestPath(dir)[|dir|] == MANIFEST_NAME;
  }

  // --- crash points ---

  /** A write between creating its temporary file and renaming it: `name` is what it will record. */
  datatype Pending = Pending(temp: Path, target: Path, content: Content, name: Option<Name>)

  /** What `finalize` has decided to seal, and from which raw files. */
  datatype Sealing = Sealing(manifest: Manifest, raw: map<Name, Path>)

  datatype State = State(files: Files, raw: map<Name, Path>, pending: Option<Pending>, sealing: Option<Sealing>)

  datatype Step =
    | BeginWrite(name: Name, text: string, temp: Path)
    | BeginSeal(exitStatus: int, temp: Path)
    | Grow(partial: string)
    | Fill
    | Rename
    | Abort
    | AdoptFile(adopted: Name, source: Path)
    | Elsewhere(path: Path, content: Option<Content>)

  /** A temporary file is created exclusively and its name starts with a dot. */
  predicate FreshTemp(s: State, temp: Path) {
    temp !in s.files && Base(temp) != "" && Base(temp)[0] == '.'
  }

  /** The files a sealed or about-to-be-sealed manifest names. */
  function Named(dir: Path, sealing: Option<Sealing>): set<Path> {
    if sealing.None? then {} else set n | n in sealing.value.manifest.rawFiles :: dir + [sealing.value.manifest.rawFiles[n]]
  }

  /**
   * One step of the writer, or of some other program. A write that fails before its rename removes its
   * temporary file; a sealing that fails so has not happened, and the run may go on. Other programs may
   * write anything except the writer's own temporary file, the manifest, and what the manifest names
   * once sealing has begun.
   */
  function Next(hash: Content -> string, dir: Path, s: State, step: Step): State {
    match step
    case BeginWrite(name, text, temp) =>
      if s.pending.Some? || s.sealing.Some? || name == [MANIFEST_NAME] || !FreshTemp(s, temp) then s
      else s.(files := s.files[temp := Body("")], pending := Some(Pending(temp, dir + name, Body(text), Some(name))))
    case BeginSeal(exitStatus, temp) =>
      if s.pending.Some? || s.sealing.Some? || !FreshTemp(s, temp) || exists n :: n in s.raw && s.raw[n] !in s.files then s
      else
        var m := Seal(hash, s.raw, s.files, exitStatus);
        s.(files := s.files[temp := Body("")], sealing := Some(Sealing(m, s.raw)),
           pending := Some(Pending(temp, ManifestPath(dir), Sealed(m), None)))
    case Grow(partial) =>
      if s.pending.None? then s else s.(files := s.files[s.pending.value.temp := Body(partial)])
    case Fill =>
      if s.pending.None? then s else s.(files := s.files[s.pending.value.temp := s.pending.value.content])
    case Rename =>
      if s.pending.None? then s
      else
        var p := s.pending.value;
        if p.temp !in s.files || s.files[p.temp] != p.content then s
        else
          s.(files := (s.files - {p.temp})[p.target := p.content], pending := None,
             raw := if p.name.Some? then s.raw[p.name.value := p.target] else s.raw)
    case Abort =>
      if s.pending.None? then s
      else
        s.(files := s.files - {s.pending.value.temp}, pending := None,
           sealing := if s.pending.value.name.None? then None else s.sealing)
    case AdoptFile(name, source) =>
      if source in s.files then s.(raw := s.raw[name := source]) else s
    case Elsewhere(path, content) =>
      if path == ManifestPath(dir) || path in Named(dir, s.sealing) || (s.pending.Some? && path == s.pending.value.temp) then s
      else s.(files := if content.Some? then s.files[path := content.value] else s.files - {path})
  }

  function Run(hash: Content -> string, dir: Path, s: State, steps: seq<Step>): State {
    if steps == [] then s else Next(hash, dir, Run(hash, dir, s, steps[..|steps| - 1]), steps[|steps| - 1])
  }

  /** The run directory was just created: no manifest, nothing recorded, nothing under way. */
  predicate Initial(dir: Path, s: State) {
    ManifestPath(dir) !in s.files && s.raw == map[] && s.pending.None? && s.sealing.None?
  }

  /** Every file the manifest names is there and matches, and nothing the writer still does touches one. */
  ghost predicate Intact(hash: Content -> string, dir: Path, s: State) {
    s.sealing.Some? && Direct(dir, s.sealing.value.raw) ==>
      && Mismatches(hash, dir, s.files, s.sealing.value.manifest) == map[]
      && ManifestPath(dir) !in Named(dir, s.sealing)
      && (s.pending.Some? ==> s.pending.value.temp !in Named(dir, s.sealing))
  }

  /** The manifest on disk, if any, is the one that was sealed, and it arrives by the last rename. */
  ghost predicate ManifestLast(dir: Path, s: State) {
    && (s.pending.Some? ==>
          var p := s.pending.value;
          && p.temp in s.files && p.temp != ManifestPath(dir)
          && (p.name.Some? ==> s.sealing.None? && p.target != ManifestPath(dir))
          && (p.name.None? ==>
                p.target == ManifestPath(dir) && s.sealing.Some? && p.content == Sealed(s.sealing.value.manifest)))
    && (ManifestPath(dir) in s.files ==>
          s.sealing.Some? && s.pending.None? && s.files[ManifestPath(dir)] == Sealed(s.sealing.value.manifest))
  }

  lemma MismatchesFrame(hash: Content -> string, dir: Path, a: Files, b: Files, sealing: Sealing)
    requires forall p :: p in Named(dir, Some(sealing)) ==> (p in a <==> p in b) && (p in a ==> a[p] == b[p])
    ensures Mismatches(hash, dir, a, sealing.manifest) == Mismatches(hash, dir, b, sealing.manifest)
  {
    forall n | n in sealing.manifest.checksums
      ensures ProblemOf(hash, dir, a, sealing.manifest, n) == ProblemOf(hash, dir, b, sealing.manifest, n)
    {
      if n in sealing.manifest.rawFiles {
        assert dir + [sealing.manifest.rawFiles[n]] in Named(dir, Some(sealing));
      }
    }
  }

  lemma ManifestPathFromName(dir: Path, name: Name)
    requires name != [MANIFEST_NAME]
    ensures dir + name != ManifestPath(dir)
  {
    assert (dir + name)[|dir|..] == name;
    assert ManifestPath(dir)[|dir|..] == [MANIFEST_NAME];
  }

  lemma TempIsNotManifest(dir: Path, s: State, temp: Path)
    requires FreshTemp(s, temp)
    ensures temp != ManifestPath(dir)
  {
    assert Base(ManifestPath(dir)) == MANIFEST_NAME;
  }

  lemma NextKeepsManifestLast(hash: Content -> string, dir: Path, s: State, step: Step)
    requires ManifestLast(dir, s)
    ensures ManifestLast(dir, Next(hash, dir, s, step))
  {
    match step
    case BeginWrite(name, text, temp) =>
      if name != [MANIFEST_NAME] && FreshTemp(s, temp) {
        ManifestPathFromName(dir, name);
        TempIsNotManifest(dir, s, temp);
      }
    case BeginSeal(exitStatus, temp) =>
      if FreshTemp(s, temp) {
        TempIsNotManifest(dir, s, temp);
      }
    case _ =>
  }

  /** A manifest is true of the files it was sealed from, and of those files with the temporary one. */
  lemma SealIsTrue(hash: Content -> string, dir: Path, raw: map<Name, Path>, files: Files, now: Files, exitStatus: int)
    requires Direct(dir, raw) && forall n :: n in raw ==> raw[n] in files && raw[n] in now && now[raw[n]] == files[raw[n]]
    ensures Mismatches(hash, dir, now, Seal(hash, raw, files, exitStatus)) == map[]
  {
    var m := Seal(hash, raw, files, exitStatus);
    forall n | n in m.checksums ensures ProblemOf(hash, dir, now, m, n).None? {
      assert dir + [m.rawFiles[n]] == raw[n];
    }
  }

  lemma NamedAreRaw(hash: Content -> string, dir: Path, raw: map<Name, Path>, files: Files, exitStatus: int, path: Path)
    requires Direct(dir, raw) && forall n :: n in raw ==> raw[n] in files
    ensures path in Named(dir, Some(Sealing(Seal(hash, raw, files, exitStatus), raw))) ==> exists n :: n in raw && raw[n] == path
  {
  }

  /** The moment of sealing: what is about to be recorded is true of the files, and stays out of the way. */
  lemma SealingIsIntact(hash: Content -> string, dir: Path, s: State, exitStatus: int, temp: Path)
    requires s.pending.None? && s.sealing.None? && FreshTemp(s, temp)
    requires forall n :: n in s.raw ==> s.raw[n] in s.files
    ensures Intact(hash, dir, Next(hash, dir, s, BeginSeal(exitStatus, temp)))
  {
    if Direct(dir, s.raw) {
      SealIsTrue(hash, dir, s.raw, s.files, s.files[temp := Body("")], exitStatus);
      NamedAreRaw(hash, dir, s.raw, s.files, exitStatus, temp);
      NamedAreRaw(hash, dir, s.raw, s.files, exitStatus, ManifestPath(dir));
    }
  }

  lemma NextKeepsIntact(hash: Content -> string, dir: Path, s: State, step: Step)
    requires ManifestLast(dir, s) && Intact(hash, dir, s)
    ensures Intact(hash, dir, Next(hash, dir, s, step))
  {
    var t := Next(hash, dir, s, step);
    if s.sealing.Some? && Direct(dir, s.sealing.value.raw) {
      MismatchesFrame(hash, dir, s.files, t.files, s.sealing.value);
    } else if step.BeginSeal? && t.sealing != s.sealing {
      SealingIsIntact(hash, dir, s, step.exitStatus, step.temp);
    }
  }

  /**
   * Crash safety: whatever point a run is stopped at, a manifest on disk is the one `finalize`
   * sealed, and (raw files sitting directly in the run directory) every file it names verifies.
   */
  lemma {:induction false} ManifestNeverLies(hash: Content -> string, dir: Path, s: State, steps: seq<Step>)
    requires Initial(dir, s)
    ensures var t := Run(hash, dir, s, steps);
            && ManifestLast(dir, t) && Intact(hash, dir, t)
            && (ManifestPath(dir) in t.files && Direct(dir, t.sealing.value.raw) ==>
                  Mismatches(hash, dir, t.files, t.files[ManifestPath(dir)].manifest) == map[])
  {
    if steps != [] {
      var before := steps[..|steps| - 1];
      ManifestNeverLies(hash, dir, s, before);
      NextKeepsManifestLast(hash, dir, Run(hash, dir, s, before), steps[|steps| - 1]);
      NextKeepsIntact(hash, dir, Run(hash, dir, s, before), steps[|steps| - 1]);
    }
  }

  /** Some write in the run was to put exactly this content at this path. */
  ghost predicate WrittenBy(dir: Path, steps: seq<Step>, path: Path, content: Content) {
    exists i :: 0 <= i < |steps| && steps[i].BeginWrite? && path == dir + steps[i].name && content == Body(steps[i].text)
  }

  /**
   * What stands at `path`, if it is not the temporary file, was there before the run, is a complete
   * payload, or is the sealed manifest.
   */
  ghost predicate Complete(dir: Path, s: State, steps: seq<Step>, t: State, path: Path) {
    path in t.files && !(t.pending.Some? && path == t.pending.value.temp) ==>
      || (path in s.files && t.files[path] == s.files[path])
      || WrittenBy(dir, steps, path, t.files[path])
      || (t.sealing.Some? && path == ManifestPath(dir) && t.files[path] == Sealed(t.sealing.value.manifest))
  }

  lemma WrittenByMore(dir: Path, steps: seq<Step>, step: Step, path: Path, content: Content)
    requires WrittenBy(dir, steps, path, content)
    ensures WrittenBy(dir, steps + [step], path, content)
  {
    var i :| 0 <= i < |steps| && steps[i].BeginWrite? && path == dir + steps[i].name && content == Body(steps[i].text);
    assert (steps + [step])[i] == steps[i];
  }

  lemma NextKeepsComplete(hash: Content -> string, dir: Path, s: State, steps: seq<Step>, t: State, step: Step,
                          path: Path)
    requires !step.Elsewhere? && ManifestLast(dir, t)
    requires Complete(dir, s, steps, t, path)
    requires t.pending.Some? && t.pending.value.name.Some? ==> WrittenBy(dir, steps, t.pending.value.target, t.pending.value.content)
    ensures var u := Next(hash, dir, t, step);
            Complete(dir, s, steps + [step], u, path)
  {
    if path in t.files && WrittenBy(dir, steps, path, t.files[path]) {
      WrittenByMore(dir, steps, step, path, t.files[path]);
    }
    if t.pending.Some? && t.pending.value.name.Some? {
      WrittenByMore(dir, steps, step, t.pending.value.target, t.pending.value.content);
    }
  }

  lemma NextKeepsPromise(hash: Content -> string, dir: Path, steps: seq<Step>, t: State, step: Step)
    requires t.pending.Some? && t.pending.value.name.Some? ==> WrittenBy(dir, steps, t.pending.value.target, t.pending.value.content)
    ensures var u := Next(hash, dir, t, step);
            u.pending.Some? && u.pending.value.name.Some? ==>
              WrittenBy(dir, steps + [step], u.pending.value.target, u.pending.value.content)
  {
    if t.pending.Some? && t.pending.value.name.Some? {
      WrittenByMore(dir, steps, step, t.pending.value.target, t.pending.value.content);
    }
    assert (steps + [step])[|steps|] == step;
  }

  /**
   * No reader ever sees a partial artifact: in a run nobody else interferes with, at every crash
   * point every file but the one temporary file is complete.
   */
  lemma {:induction false} NoPartialArtifact(hash: Content -> string, dir: Path, s: State, steps: seq<Step>, path: Path)
    requires Initial(dir, s) && forall i :: 0 <= i < |steps| ==> !steps[i].Elsewhere?
    ensures var t := Run(hash, dir, s, steps);
            && Complete(dir, s, steps, t, path)
            && (t.pending.Some? && t.pending.value.name.Some? ==>
                  WrittenBy(dir, steps, t.pending.value.target, t.pending.value.content))
  {
    if steps != [] {
      var before, step := steps[..|steps| - 1], steps[|steps| - 1];
      NoPartialArtifact(hash, dir, s, before, path);
      ManifestNeverLies(hash, dir, s, before);
      assert before + [step] == steps;
      NextKeepsComplete(hash, dir, s, before, Run(hash, dir, s, before), step, path);
      NextKeepsPromise(hash, dir, before, Run(hash, dir, s, before), step);
    }
  }

  // --- the steps are the calls ---

  /** A write under way: its temporary file holds something or other, and nothing else has changed. */
  ghost predicate Writing(s: State, p: Pending, t: State) {
    p.temp in t.files && t == s.(files := s.files[p.temp := t.files[p.temp]], pending := Some(p))
  }

  function Growing(partials: seq<string>): (steps: seq<Step>)
    ensures |steps| == |partials|
  {
    seq(|partials|, i requires 0 <= i < |partials| => Grow(partials[i]))
  }

  lemma {:induction false} GrowsKeepWriting(hash: Content -> string, dir: Path, s: State, p: Pending, t: State,
                                            partials: seq<string>)
    requires Writing(s, p, t)
    ensures Writing(s, p, Run(hash, dir, t, Growing(partials)))
  {
    if partials != [] {
      var n := |partials| - 1;
      GrowsKeepWriting(hash, dir, s, p, t, partials[..n]);
      assert Growing(partials)[..n] == Growing(partials[..n]);
      var u := Run(hash, dir, t, Growing(partials[..n]));
      var v := Next(hash, dir, u, Grow(partials[n]));
      assert v.files == s.files[p.temp := Body(partials[n])];
    }
  }

  lemma {:induction false} RunConcat(hash: Content -> string, dir: Path, s: State, a: seq<Step>, b: seq<Step>)
    ensures Run(hash, dir, s, a + b) == Run(hash, dir, Run(hash, dir, s, a), b)
  {
    if b == [] {
      assert a + b == a;
    } else {
      RunConcat(hash, dir, s, a, b[..|b| - 1]);
      assert (a + b)[..|a + b| - 1] == a + b[..|b| - 1];
    }
  }

  /** Finishing a write: the payload is whole at its target and the temporary file is gone. */
  lemma FinishWriting(hash: Content -> string, dir: Path, s: State, p: Pending, t: State)
    requires Writing(s, p, t) && s.pending.None? && p.temp !in s.files
    ensures Run(hash, dir, t, [Fill, Rename])
         == s.(files := s.files[p.target := p.content],
               raw := if p.name.Some? then s.raw[p.name.value := p.target] else s.raw)
  {
    var filled := Next(hash, dir, t, Fill);
    assert filled.files == s.files[p.temp := p.content];
    assert filled.files - {p.temp} == s.files;
    assert [Fill, Rename][..1] == [Fill] && [Fill][..0] == [];
    assert Run(hash, dir, t, [Fill]) == filled;
  }

  /** An undisturbed raw write, whatever it passes through, ends where the writer's own call ends. */
  lemma StepsAreWriteRaw(hash: Content -> string, dir: Path, s: State, name: Name, text: string, temp: Path,
                         partials: seq<string>)
    requires s.pending.None? && s.sealing.None? && name != [MANIFEST_NAME] && FreshTemp(s, temp)
    ensures var t := Run(hash, dir, s, [BeginWrite(name, text, temp)] + Growing(partials) + [Fill, Rename]);
            && (t.files, t.raw) == AfterWrite(dir, s.files, s.raw, name, text)
            && t.pending.None? && t.sealing.None?
  {
    var begin := BeginWrite(name, text, temp);
    var p := Pending(temp, dir + name, Body(text), Some(name));
    var t := Next(hash, dir, s, begin);
    assert [begin][..0] == [] && Run(hash, dir, s, [begin]) == t;
    assert Writing(s, p, t);
    GrowsKeepWriting(hash, dir, s, p, t, partials);
    RunConcat(hash, dir, s, [begin], Growing(partials));
    RunConcat(hash, dir, s, [begin] + Growing(partials), [Fill, Rename]);
    FinishWriting(hash, dir, s, p, Run(hash, dir, t, Growing(partials)));
  }

  /** An undisturbed sealing ends where `Finalize` ends. */
  lemma StepsAreFinalize(hash: Content -> string, dir: Path, s: State, exitStatus: int, temp: Path,
                         partials: seq<string>)
    requires s.pending.None? && s.sealing.None? && FreshTemp(s, temp)
    requires forall n :: n in s.raw ==> s.raw[n] in s.files
    ensures var t := Run(hash, dir, s, [BeginSeal(exitStatus, temp)] + Growing(partials) + [Fill, Rename]);
            && t.files == AfterSeal(hash, dir, s.files, s.raw, exitStatus) && t.raw == s.raw && t.pending.None?
            && t.sealing == Some(Sealing(Seal(hash, s.raw, s.files, exitStatus), s.raw))
  {
    var begin := BeginSeal(exitStatus, temp);
    var m := Seal(hash, s.raw, s.files, exitStatus);
    var p := Pending(temp, ManifestPath(dir), Sealed(m), None);
    var sealing := s.(sealing := Some(Sealing(m, s.raw)));
    var t := Next(hash, dir, s, begin);
    assert [begin][..0] == [] && Run(hash, dir, s, [begin]) == t;
    assert Writing(sealing, p, t);
    GrowsKeepWriting(hash, dir, sealing, p, t, partials);
    RunConcat(hash, dir, s, [begin], Growing(partials));
    RunConcat(hash, dir, s, [begin] + Growing(partials), [Fill, Rename]);
    FinishWriting(hash, dir, sealing, p, Run(hash, dir, t, Growing(partials)));
  }

  /** A write or a sealing that fails before its rename leaves everything as it was. */
  lemma AbortUndoes(hash: Content -> string, dir: Path, s: State, begin: Step, partials: seq<string>)
    requires (begin.BeginWrite? || begin.BeginSeal?) && s.pending.None? && s.sealing.None?
    ensures Run(hash, dir, s, [begin] + Growing(partials) + [Abort]) == s
  {
    var t := Next(hash, dir, s, begin);
    RunConcat(hash, dir, s, [begin], Growing(partials));
    RunConcat(hash, dir, s, [begin] + Growing(partials), [Abort]);
    assert [begin][..0] == [] && [Abort][..0] == [] && Run(hash, dir, s, [begin]) == t;
    var u := Run(hash, dir, t, Growing(partials));
    if t.pending.Some? {
      var p := t.pending.value;
      GrowsKeepWriting(hash, dir, s.(sealing := t.sealing), p, t, partials);
      assert u.files - {p.temp} == s.files;
    } else {
      IdleGrows(hash, dir, s, partials);
    }
  }

  lemma {:induction false} IdleGrows(hash: Content -> string, dir: Path, s: State, partials: seq<string>)
    requires s.pending.None?
    ensures Run(hash, dir, s, Growing(partials)) == s
  {
    if partials != [] {
      var n := |partials| - 1;
      IdleGrows(hash, dir, s, partials[..n]);
      assert Growing(partials)[..n] == Growing(partials[..n]);
    }
  }
}
