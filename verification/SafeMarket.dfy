/**
 `publishSafeMarketPackage` (packages/gateway/src/safe-market.ts) over a file system in which every operation may fail,
 and in which the ones that are not atomic may fail halfway.
 */
module SafeMarket {
  import opened Common

  datatype FileBase = Schedule | Execute | Manifest

  /** A file of the package, or the temporary file that becomes it. */
  datatype FileName = FileName(base: FileBase, temporary: bool)

  datatype Node = File(content: Text) | Directory(files: map<FileName, Text>)

  /** The output directory, the staging directory and the backup of the publication, and everything else. */
  datatype Path = Output | Stage | Backup | Elsewhere(name: Text)

  type Tree = map<Path, Node>

  /** `Enoent` is the only code the program looks at. */
  datatype ErrorCode = Enoent | OtherError

  /** How an operation goes wrong: the code it reports, what a write leaves behind, what a removal leaves behind. */
  datatype Fault = Fault(code: ErrorCode, written: Text, kept: set<FileName>)

  datatype ProofStatus = NotRun | Passed

  class FileSystem {
    var tree: Tree

    constructor (tree: Tree)
      ensures this.tree == tree
    {
      this.tree := tree;
    }

    /** `mkdtemp`: a new empty directory. */
    method MakeStage(fault: Option<Fault>) returns (ok: bool)
      modifies this
      ensures ok <==> fault.None?
      ensures ok ==> tree == old(tree)[Stage := Directory(map[])]
      ensures !ok ==> tree == old(tree)
    {
      if fault.Some? { return false; }
      tree := tree[Stage := Directory(map[])];
      return true;
    }

    /** `writeFile`: a failure may leave any content in the file, or none. */
    method WriteFile(path: Path, name: FileName, value: Text, fault: Option<Fault>) returns (ok: bool)
      modifies this
      ensures ok <==> fault.None? && IsDirectory(old(tree), path)
      ensures ok ==> tree == WithFile(old(tree), path, name, value)
      ensures !ok ==> tree == old(tree)
                      || (IsDirectory(old(tree), path) && exists v: Text :: tree == WithFile(old(tree), path, name, v))
    {
      if !IsDirectory(tree, path) { return false; }
      if fault.Some? {
        if fault.value.code == OtherError { tree := WithFile(tree, path, name, fault.value.written); }
        return false;
      }
      tree := WithFile(tree, path, name, value);
      return true;
    }

    /** `rename` of a file within a directory is atomic. */
    method RenameFile(path: Path, from: FileName, to: FileName, fault: Option<Fault>) returns (ok: bool)
      modifies this
      ensures ok <==> fault.None? && IsDirectory(old(tree), path) && from in old(tree)[path].files
      ensures ok ==> tree == WithMoved(old(tree), path, from, to)
      ensures !ok ==> tree == old(tree)
    {
      if fault.Some? || !IsDirectory(tree, path) || from !in tree[path].files { return false; }
      tree := WithMoved(tree, path, from, to);
      return true;
    }

    /**
     `rename` of a whole path is atomic. It fails with `ENOENT` when there is nothing to rename, and it never replaces
     a directory that holds files, nor a file by a directory.
     */
    method Rename(from: Path, to: Path, fault: Option<Fault>) returns (error: Option<ErrorCode>)
      modifies this
      ensures error == if fault.Some? then Some(fault.value.code)
                       else if from !in old(tree) then Some(Enoent)
                       else if to in old(tree) && (old(tree)[to].File? || old(tree)[to].files != map[]) then Some(OtherError)
                       else None
      ensures error.None? ==> tree == (old(tree) - {from})[to := old(tree)[from]]
      ensures error.Some? ==> tree == old(tree)
    {
      if fault.Some? { return Some(fault.value.code); }
      if from !in tree { return Some(Enoent); }
      if IsPackage(tree, to) { return Some(OtherError); }
      tree := (tree - {from})[to := tree[from]];
      return None;
    }

    /** `rm` of a directory: a failure may leave some of its files. */
    method RemoveTree(path: Path, fault: Option<Fault>) returns (ok: bool)
      modifies this
      ensures ok <==> fault.None?
      ensures ok ==> tree == old(tree) - {path}
      ensures forall p | p != path :: (p in tree <==> p in old(tree)) && (p in tree ==> tree[p] == old(tree)[p])
    {
      if fault.None? {
        tree := tree - {path};
        return true;
      }
      if IsDirectory(tree, path) {
        tree := tree[path := Directory(map f | f in tree[path].files && f in fault.value.kept :: tree[path].files[f])];
      }
      return false;
    }
  }

  predicate IsDirectory(tree: Tree, path: Path) {
    path in tree && tree[path].Directory?
  }

  /** Something that a rename does not replace: a file, or a directory with files. */
  predicate IsPackage(tree: Tree, path: Path) {
    path in tree && (tree[path].Directory? ==> tree[path].files != map[])
  }

  function WithFile(tree: Tree, path: Path, name: FileName, value: Text): Tree
    requires IsDirectory(tree, path)
  {
    tree[path := Directory(tree[path].files[name := value])]
  }

  function WithMoved(tree: Tree, path: Path, from: FileName, to: FileName): Tree
    requires IsDirectory(tree, path) && from in tree[path].files
  {
    tree[path := Directory((tree[path].files - {from})[to := tree[path].files[from]])]
  }

  /** Nothing but the staging directory differs. */
  ghost predicate OnlyStage(before: Tree, after: Tree) {
    forall p | p != Stage :: (p in after <==> p in before) && (p in after ==> after[p] == before[p])
  }

  /** `atomicWrite`: write a temporary file, then rename it. */
  method AtomicWrite(fs: FileSystem, base: FileBase, value: Text, f0: Option<Fault>, f1: Option<Fault>) returns (ok: bool)
    requires IsDirectory(fs.tree, Stage) && FileName(base, true) !in fs.tree[Stage].files
    modifies fs
    ensures OnlyStage(old(fs.tree), fs.tree)
    ensures ok <==> f0.None? && f1.None?
    ensures ok ==> fs.tree == WithFile(old(fs.tree), Stage, FileName(base, false), value)
  {
    var temporary, final := FileName(base, true), FileName(base, false);
    ghost var files := fs.tree[Stage].files;
    ok := fs.WriteFile(Stage, temporary, value, f0);
    if !ok { return; }
    ok := fs.RenameFile(Stage, temporary, final, f1);
    assert (files[temporary := value] - {temporary})[final := value] == files[final := value];
  }

  // ---------------------------------------------------------------- the package

  function StagedFiles(schedule: Text, execute: Text): map<FileName, Text> {
    map[FileName(Schedule, false) := schedule, FileName(Execute, false) := execute]
  }

  /** The complete new package. */
  function Package(schedule: Text, execute: Text, manifest: Text): Node {
    Directory(StagedFiles(schedule, execute)[FileName(Manifest, false) := manifest])
  }

  /**
   What the caller passes: the texts, the proof if there is one, as its answer to the staged directory, and the text of
   the manifest for each status (`None` where creating it throws).
   */
  datatype Publication = Publication(
    scheduleText: Text, executeText: Text, prove: Option<Node -> bool>, createManifestText: ProofStatus -> Option<Text>)

  datatype Result = Thrown | Published(manifestText: Text, proofStatus: ProofStatus)

  /** The old package is where it was, or whole at the backup path. */
  predicate OldIsIntact(before: Tree, after: Tree) {
    || (Output in before && Output in after && after[Output] == before[Output])
    || (Output in before && Backup in after && after[Backup] == before[Output])
    || (Output !in before && Output !in after)
  }

  /** The output holds a complete new package, marked `passed` only if there was a proof and it accepted the files. */
  predicate NewIsComplete(p: Publication, after: Tree, manifest: Text, status: ProofStatus) {
    && Output in after && after[Output] == Package(p.scheduleText, p.executeText, manifest)
    && p.createManifestText(status) == Some(manifest)
    && (status == Passed <==> p.prove.Some?)
    && (p.prove.Some? ==> p.prove.value(Directory(StagedFiles(p.scheduleText, p.executeText))))
  }

  predicate SomeNewIsComplete(p: Publication, after: Tree) {
    exists s: ProofStatus | s == NotRun || s == Passed ::
      p.createManifestText(s).Some? && NewIsComplete(p, after, p.createManifestText(s).value, s)
  }

  predicate SameAt(path: Path, before: Tree, after: Tree) {
    (path in before <==> path in after) && (path in before ==> after[path] == before[path])
  }

  ghost predicate ElsewhereIsKept(before: Tree, after: Tree) {
    forall n: Text :: (Elsewhere(n) in after <==> Elsewhere(n) in before)
                      && (Elsewhere(n) in after ==> after[Elsewhere(n)] == before[Elsewhere(n)])
  }

  /** The operations from number `lo` up to `hi` do not fail. */
  predicate NoFault(faults: nat -> Option<Fault>, lo: nat, hi: nat) {
    forall n: nat | lo <= n < hi :: faults(n).None?
  }

  /** There is no proof or it accepts the two files, and the manifest can be made. */
  predicate IsPublishable(p: Publication) {
    && (p.prove.Some? ==> p.prove.value(Directory(StagedFiles(p.scheduleText, p.executeText))))
    && p.createManifestText(if p.prove.Some? then Passed else NotRun).Some?
  }

  /** What an atomic write has put into the directory after `steps` of its two operations. */
  function FilesAfter(base: FileBase, value: Text, steps: nat): map<FileName, Text> {
    if steps == 0 then map[] else if steps == 1 then map[FileName(base, true) := value] else map[FileName(base, false) := value]
  }

  /** Both first files are this far. */
  ghost predicate BothAt(fs: FileSystem, p: Publication, schedule: nat, execute: nat)
    reads fs
  {
    && Stage in fs.tree
    && fs.tree[Stage] == Directory(FilesAfter(Schedule, p.scheduleText, schedule) + FilesAfter(Execute, p.executeText, execute))
  }

  /** The next operation of the atomic write of one of the two files, with the other file in `others`. */
  method WriteStep(fs: FileSystem, base: FileBase, value: Text, steps: nat, ghost others: map<FileName, Text>,
                   fault: Option<Fault>) returns (ok: bool)
    requires steps < 2 && Stage in fs.tree && fs.tree[Stage] == Directory(FilesAfter(base, value, steps) + others)
    requires forall f | f in others :: f.base != base
    modifies fs
    ensures OnlyStage(old(fs.tree), fs.tree)
    ensures ok <==> fault.None?
    ensures ok ==> Stage in fs.tree && fs.tree[Stage] == Directory(FilesAfter(base, value, steps + 1) + others)
  {
    var temporary, final := FileName(base, true), FileName(base, false);
    ghost var files := FilesAfter(base, value, steps) + others;
    if steps == 0 {
      ok := fs.WriteFile(Stage, temporary, value, fault);
      assert files[temporary := value] == FilesAfter(base, value, 1) + others;
    } else {
      ok := fs.RenameFile(Stage, temporary, final, fault);
      assert (files - {temporary})[final := value] == FilesAfter(base, value, 2) + others;
    }
  }

  method ScheduleStep(fs: FileSystem, p: Publication, schedule: nat, ghost execute: nat, fault: Option<Fault>) returns (ok: bool)
    requires schedule < 2 && BothAt(fs, p, schedule, execute)
    modifies fs
    ensures OnlyStage(old(fs.tree), fs.tree) && (ok <==> fault.None?) && (ok ==> BothAt(fs, p, schedule + 1, execute))
  {
    ok := WriteStep(fs, Schedule, p.scheduleText, schedule, FilesAfter(Execute, p.executeText, execute), fault);
  }

  method ExecuteStep(fs: FileSystem, p: Publication, ghost schedule: nat, execute: nat, fault: Option<Fault>) returns (ok: bool)
    requires execute < 2 && BothAt(fs, p, schedule, execute)
    modifies fs
    ensures OnlyStage(old(fs.tree), fs.tree) && (ok <==> fault.None?) && (ok ==> BothAt(fs, p, schedule, execute + 1))
  {
    ghost var s := FilesAfter(Schedule, p.scheduleText, schedule);
    assert s + FilesAfter(Execute, p.executeText, execute) == FilesAfter(Execute, p.executeText, execute) + s;
    ok := WriteStep(fs, Execute, p.executeText, execute, s, fault);
    assert FilesAfter(Execute, p.executeText, execute + 1) + s == s + FilesAfter(Execute, p.executeText, execute + 1);
  }

  /** `Promise.all` over the first two atomic writes: `turns` says which of them makes each next step. */
  method WriteBoth(fs: FileSystem, p: Publication, turns: nat -> bool, faults: nat -> Option<Fault>) returns (ok: bool)
    requires Stage in fs.tree && fs.tree[Stage] == Directory(map[])
    modifies fs
    ensures OnlyStage(old(fs.tree), fs.tree)
    ensures ok <==> NoFault(faults, 0, 4)
    ensures ok ==> BothAt(fs, p, 2, 2)
  {
    var schedule, execute: nat := 0, 0;
    while schedule < 2 || execute < 2
      invariant schedule <= 2 && execute <= 2 && BothAt(fs, p, schedule, execute) && OnlyStage(old(fs.tree), fs.tree)
      invariant NoFault(faults, 0, schedule) && NoFault(faults, 2, 2 + execute)
      decreases 4 - schedule - execute
    {
      if execute == 2 || (schedule < 2 && turns(schedule + execute)) {
        ok := ScheduleStep(fs, p, schedule, execute, faults(schedule));
        schedule := schedule + 1;
      } else {
        ok := ExecuteStep(fs, p, schedule, execute, faults(2 + execute));
        execute := execute + 1;
      }
      if !ok { return; }
    }
    ok := true;
  }

  /** Staging: both texts, the proof on the staged files, the manifest. Only the staging directory changes. */
  method StagePackage(fs: FileSystem, p: Publication, turns: nat -> bool, faults: nat -> Option<Fault>) returns (r: Result)
    requires Stage in fs.tree && fs.tree[Stage] == Directory(map[])
    modifies fs
    ensures OnlyStage(old(fs.tree), fs.tree)
    ensures r.Published? <==> NoFault(faults, 0, 6) && IsPublishable(p)
    ensures r.Published? ==> Stage in fs.tree && fs.tree[Stage] == Package(p.scheduleText, p.executeText, r.manifestText)
    ensures r.Published? ==> p.createManifestText(r.proofStatus) == Some(r.manifestText)
    ensures r.Published? ==> (r.proofStatus == Passed <==> p.prove.Some?)
    ensures r.Published? && p.prove.Some? ==> p.prove.value(Directory(StagedFiles(p.scheduleText, p.executeText)))
  {
    var ok := WriteBoth(fs, p, turns, faults);
    if !ok { return Thrown; }
    assert fs.tree[Stage].files == StagedFiles(p.scheduleText, p.executeText);
    var proofStatus := if p.prove.None? then NotRun else Passed;
    if p.prove.Some? && !p.prove.value(fs.tree[Stage]) { return Thrown; }
    var manifest := p.createManifestText(proofStatus);
    if manifest.None? { return Thrown; }
    ok := AtomicWrite(fs, Manifest, manifest.value, faults(4), faults(5));
    if !ok { return Thrown; }
    return Published(manifest.value, proofStatus);
  }

  /** Swapping the staged package in: the old one moves to the backup path and comes back if the swap fails. */
  method Swap(fs: FileSystem, faults: nat -> Option<Fault>) returns (published: bool, backupPresent: bool)
    requires Stage in fs.tree && Backup !in fs.tree
    modifies fs
    ensures ElsewhereIsKept(old(fs.tree), fs.tree)
    ensures published ==> Output in fs.tree && fs.tree[Output] == old(fs.tree)[Stage] && Stage !in fs.tree
    ensures published ==> (backupPresent <==> Backup in fs.tree)
    ensures !published ==> OldIsIntact(old(fs.tree), fs.tree)
    ensures NoFault(faults, 0, 2) ==> published
    ensures faults(1).Some? ==> !published
    ensures !published && faults(2).None? ==> SameAt(Output, old(fs.tree), fs.tree) && Backup !in fs.tree
  {
    backupPresent := false;
    var error := fs.Rename(Output, Backup, faults(0));
    if error.None? {
      backupPresent := true;
    } else if error != Some(Enoent) {
      return false, false;
    }
    error := fs.Rename(Stage, Output, faults(1));
    if error.None? { return true, backupPresent; }
    if backupPresent {
      error := fs.Rename(Backup, Output, faults(2));
      if error.None? { backupPresent := false; }
    }
    return false, backupPresent;
  }

  /**
   `publishSafeMarketPackage`, whatever fails. When it returns, the output holds the complete new package and no backup
   is left. When it throws, the old package is whole at the output or at the backup path, or the complete new package is
   at the output. Nothing else is touched.
   */
  method PublishSafeMarketPackage(fs: FileSystem, p: Publication, turns: nat -> bool, faults: nat -> Option<Fault>)
    returns (r: Result)
    requires Stage !in fs.tree && Backup !in fs.tree
    modifies fs
    ensures ElsewhereIsKept(old(fs.tree), fs.tree)
    ensures r.Published? ==> NewIsComplete(p, fs.tree, r.manifestText, r.proofStatus)
    ensures r.Published? ==> Backup !in fs.tree && Stage !in fs.tree
    ensures r.Thrown? ==> OldIsIntact(old(fs.tree), fs.tree) || SomeNewIsComplete(p, fs.tree)
    ensures NoFault(faults, 0, 13) && IsPublishable(p) ==> r.Published?
    ensures !IsPublishable(p) ==> r.Thrown? && SameAt(Output, old(fs.tree), fs.tree)
    ensures faults(9).Some? && NoFault(faults, 10, 11) ==> r.Thrown? && SameAt(Output, old(fs.tree), fs.tree) && Backup !in fs.tree
    ensures r.Thrown? && NoFault(faults, 7, 8) && NoFault(faults, 11, 12) ==> Stage !in fs.tree
  {
    var ok := fs.MakeStage(faults(0));
    if !ok { return Thrown; }
    var staged := StagePackage(fs, p, turns, (n: nat) => faults(n + 1));
    if staged.Thrown? {
      ok := fs.RemoveTree(Stage, faults(7));
      return Thrown;
    }
    ghost var before := fs.tree;
    var published, backupPresent := Swap(fs, (n: nat) => faults(n + 8));
    if !published {
      ok := fs.RemoveTree(Stage, faults(11));
      return Thrown;
    }
    assert NewIsComplete(p, fs.tree, staged.manifestText, staged.proofStatus);
    if backupPresent {
      ok := fs.RemoveTree(Backup, faults(12));
      if !ok {
        assert NewIsComplete(p, fs.tree, staged.manifestText, staged.proofStatus);
        return Thrown;
      }
    }
    return staged;
  }
}
