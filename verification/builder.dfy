/** The build pipeline (`ConfigBuilder` in src/core/builder.py) as a sequence of
    stages over an abstract world: the set of files found or created (a removal is
    logged but not recorded, so the set never shrinks), the texts written to files,
    and a log of the external effects (directory creation, fetch, decompression,
    tool runs, copies) in the order they happen. The tools themselves
    are not modelled; only which ones run, with which arguments, and in what order. */
module Builder {
  import opened Results
  import opened Strings
  import opened Paths
  import C = Configuration
  import U = FreeBSDUtils

  const StandTestRoot: string := "/home/smk/stand-test-root"
  const SrcTop: string := "/home/smk/freebsd-src"

  const BiosDir: string := StandTestRoot + "/bios"
  const CacheDir: string := StandTestRoot + "/cache"
  const ImageDir: string := StandTestRoot + "/image"
  const ScriptDir: string := StandTestRoot + "/script"
  const TreeDir: string := StandTestRoot + "/tree"

  /** The directories `setup_dirs` creates, in order. */
  const WorkDirs: seq<string> := [BiosDir, CacheDir, ImageDir, ScriptDir, TreeDir]

  /** The skeleton of the minimal boot tree. */
  const TreeSkeleton: seq<string> :=
    ["boot/kernel", "boot/defaults", "boot/lua", "boot/loader.conf.d", "sbin", "bin", "lib",
     "libexec", "etc", "dev"]

  /** The programs and libraries the minimal tree takes from the release image. */
  const SystemBinaries: seq<string> :=
    ["sbin/reboot", "sbin/halt", "sbin/init", "bin/sh", "sbin/sysctl",
     "lib/libncursesw.so.9", "lib/libc.so.7", "lib/libgcc_s.so.1", "lib/libedit.so.8", "libexec/ld-elf.so.1"]

  /** The kernel files taken from the release image when the kernel is not overridden. */
  const KernelFiles: seq<string> :=
    ["boot/kernel/kernel", "boot/kernel/acl_nfs4.ko", "boot/kernel/cryptodev.ko", "boot/kernel/zfs.ko",
     "boot/kernel/geom_eli.ko", "boot/device.hints"]

  const QemuCodeFirmware: string := "/usr/local/share/qemu/edk2-x86_64-code.fd"
  const QemuVarsFirmware: string := "/usr/local/share/qemu/edk2-i386-vars.fd"

  /** The pipeline stages of `build_resource`, in the order it runs them. */
  datatype Stage = SetupDirs | UpdateCache | MinimalTree | TestTree | Esps | Images | Scripts

  const StageOrder: seq<Stage> := [SetupDirs, UpdateCache, MinimalTree, TestTree, Esps, Images, Scripts]

  /** One external effect. `Run` is a tool started with an argument list, `Shell` a
      command line handed to the shell; `creates` lists the files the model takes
      the tool to produce. */
  datatype Step =
    | MakeDirs(path: string)
    | RemoveTree(path: string)
    | Fetch(url: string, dest: string)
    | Decompress(src: string, dest: string)
    | Run(argv: seq<string>)
    | Shell(command: string, creates: seq<string>)
    | WriteText(path: string, text: string)
    | Copy(src: string, dst: string)

  datatype World = World(files: set<string>, texts: map<string, string>, log: seq<Step>, done: seq<Stage>)

  /** The builder object's fields: the configuration, the image path (first the
      release image's name, after the image stage the composed disk image) and the
      artefact paths the later stages set. */
  datatype State = State(config: C.Config, imgFile: string, artifacts: Option<Artifacts>, script: Option<string>)

  datatype Artifacts = Artifacts(espFile: string, fsFile: string, imgFile: string)

  datatype BuildError =
    /** `get_boot_ufi` had no entry, so joining `None` into the ESP path raises. */
    | MissingBootFile(machineArch: string)

  /** The files a step leaves behind. */
  function Creates(step: Step): set<string>
  {
    match step
    case Fetch(_, dest) => {dest}
    case Decompress(_, dest) => {dest}
    case Shell(_, creates) => set f | f in creates
    case WriteText(path, _) => {path}
    case Copy(_, dst) => {dst}
    case _ => {}
  }

  /** Performs one step: it is logged, the files it creates are recorded, a written
      text is recorded. A removal records nothing. */
  function Perform(w: World, step: Step): (r: World)
    ensures r.log == w.log + [step] && r.done == w.done
    ensures r.files == w.files + Creates(step)
    ensures step.WriteText? ==> r.texts == w.texts[step.path := step.text]
    ensures !step.WriteText? ==> r.texts == w.texts
  {
    var texts := if step.WriteText? then w.texts[step.path := step.text] else w.texts;
    World(w.files + Creates(step), texts, w.log + [step], w.done)
  }

  function PerformAll(w: World, steps: seq<Step>): (r: World)
    ensures r.log == w.log + steps && r.done == w.done
    ensures w.files <= r.files
    decreases |steps|
  {
    if |steps| == 0 then w else PerformAll(Perform(w, steps[0]), steps[1..])
  }

  /** Marks a stage complete without touching files, texts or the log. */
  function Finish(w: World, stage: Stage): (r: World)
    ensures r.files == w.files && r.texts == w.texts && r.log == w.log
    ensures r.done == w.done + [stage]
  {
    w.(done := w.done + [stage])
  }

  // ---------------------------------------------------------------------------
  // The image cache

  /** `update_freebsd_img_cache`: nothing when the image is already cached;
      decompression alone when only the compressed image is; otherwise download of
      the compressed image and then decompression. The compressed file is kept. */
  function CachePlan(files: set<string>, imgFile: string, imgUrl: string): seq<Step>
  {
    var path := PathJoin(CacheDir, imgFile);
    if path in files then []
    else if path + ".xz" in files then [Decompress(path + ".xz", path)]
    else [Fetch(imgUrl, path + ".xz"), Decompress(path + ".xz", path)]
  }

  /** The cache plan by case: it fetches exactly when neither form is cached and
      decompresses exactly when the image itself is not cached; afterwards the image
      is cached, nothing cached before has gone, and a second run does nothing. */
  lemma CachePlanSpec(w: World, imgFile: string, imgUrl: string)
    ensures var path := PathJoin(CacheDir, imgFile);
            var plan := CachePlan(w.files, imgFile, imgUrl);
            var after := PerformAll(w, plan);
            && ((exists k :: 0 <= k < |plan| && plan[k].Fetch?) <==> path !in w.files && path + ".xz" !in w.files)
            && (forall k :: 0 <= k < |plan| && plan[k].Fetch? ==> plan[k] == Fetch(imgUrl, path + ".xz"))
            && ((exists k :: 0 <= k < |plan| && plan[k].Decompress?) <==> path !in w.files)
            && (forall k :: 0 <= k < |plan| && plan[k].Decompress? ==> plan[k] == Decompress(path + ".xz", path))
            && path in after.files
            && (path !in w.files ==> path + ".xz" in after.files)
            && after.files == w.files + (if path in w.files then {} else {path, path + ".xz"})
            && CachePlan(after.files, imgFile, imgUrl) == []
  {
    var path := PathJoin(CacheDir, imgFile);
    var plan := CachePlan(w.files, imgFile, imgUrl);
    if path in w.files {
    } else if path + ".xz" in w.files {
      var w1 := Perform(w, plan[0]);
      assert plan[1..] == [];
      assert PerformAll(w, plan) == PerformAll(w1, []);
    } else {
      var w1 := Perform(w, plan[0]);
      var w2 := Perform(w1, plan[1]);
      assert plan[1..][1..] == [];
      assert PerformAll(w, plan) == PerformAll(w2, []);
      assert plan[0].Fetch? && !plan[1].Fetch?;
    }
  }

  // ---------------------------------------------------------------------------
  // Commands

  /** `build_esp`: a 100 MB FAT32 filesystem labelled `EFISYS` holding `src`. */
  function EspArgv(esp: string, src: string): seq<string>
  {
    ["makefs", "-t", "msdos", "-o", "fat_type=32", "-o", "sectors_per_cluster=1", "-o", "volume_label=EFISYS",
     "-s", "100m", esp, src]
  }

  /** `build_fs`: a 200 MB ZFS pool `tank` booting from itself for `zfs`, a
      little-endian UFS filesystem labelled `root` for anything else. */
  function FsArgv(fs: string, fsFile: string, dir1: string, dir2: string): seq<string>
  {
    if fs == "zfs" then
      ["makefs", "-t", "zfs", "-s", "200m", "-o", "poolname=" + C.ZfsPool, "-o", "bootfs=" + C.ZfsPool,
       "-o", "rootpath=/", fsFile, dir1, dir2]
    else
      ["makefs", "-t", "ffs", "-B", "little", "-s", "200m", "-o", "label=root", fsFile, dir1, dir2]
  }

  /** The partition type of the data partition: plain `freebsd` in an MBR slice
      table, `freebsd-<filesystem>` otherwise. */
  function DataPartitionType(iface: string, fs: string): string
  {
    if iface == "mbr" then "freebsd" else "freebsd-" + fs
  }

  /** `build_image`: a disk image with the given partition scheme, the ESP first
      and the filesystem second. */
  function ImageArgv(iface: string, fs: string, espFile: string, fsFile: string, imgFile: string): seq<string>
  {
    ["mkimg", "-s", iface, "-p", "efi:=" + espFile, "-p", DataPartitionType(iface, fs) + ":=" + fsFile,
     "-o", imgFile]
  }

  /** A shell command line: the words separated by single spaces. */
  function CommandLine(argv: seq<string>): string
  {
    Join(argv, ' ')
  }

  /** The command lines split back into their words when no word has a space, as the
      shell splits them. */
  lemma CommandWords(argv: seq<string>)
    requires |argv| >= 1 && forall k :: 0 <= k < |argv| ==> ' ' !in argv[k]
    ensures Split(CommandLine(argv), ' ') == argv
  {
    SplitJoin(argv, ' ');
  }

  /** The formatter agrees with the fstab line the configuration writes: the ZFS
      pool it creates is the device fstab mounts, and otherwise the label it gives
      the UFS filesystem is the one fstab mounts through `/dev/ufs/`. */
  lemma FormatterMatchesFstab(fs: string, fsFile: string, dir1: string, dir2: string)
    ensures var argv := FsArgv(fs, fsFile, dir1, dir2);
            var device := Split(C.Fstab(fs), ' ')[0];
            && (fs == "zfs" ==> argv[2] == "zfs" && argv[6] == "poolname=" + device && argv[8] == "bootfs=" + device)
            && (fs != "zfs" ==> argv[2] == "ffs" && argv[8] == "label=root" && device == "/dev/ufs/" + "root")
  {
    C.FstabFields(fs);
    var fields := Split(C.Fstab(fs), ' ');
    if fs == "zfs" {
      assert fields[0] == C.ZfsPool;
    } else {
      assert fields[0] == C.UfsRootDevice;
      assert C.UfsRootDevice == "/dev/ufs/" + "root";
    }
  }

  /** The image's partition list by scheme: the ESP is always `efi`; the data
      partition is `freebsd` under MBR and names the filesystem under any other
      scheme. */
  lemma ImageArgvSpec(iface: string, fs: string, espFile: string, fsFile: string, imgFile: string)
    ensures var argv := ImageArgv(iface, fs, espFile, fsFile, imgFile);
            && argv[2] == iface && argv[4] == "efi:=" + espFile && argv[8] == imgFile
            && (iface == "mbr" ==> argv[6] == "freebsd:=" + fsFile)
            && (iface != "mbr" ==> argv[6] == "freebsd-" + fs + ":=" + fsFile)
  {
  }

  // ---------------------------------------------------------------------------
  // Paths

  function TreeRoot(combo: string): string
  {
    TreeDir + "/" + combo + "/freebsd"
  }

  function TestStand(combo: string): string
  {
    PathJoinAll(TreeDir, [combo, "test-stand"])
  }

  function EspDir(combo: string): string
  {
    PathJoinAll(TreeDir, [combo, "freebsd-esp"])
  }

  /** The ESP, filesystem and disk image of a configuration. */
  function ArtifactsOf(combo: string, identifier: string, fs: string): Artifacts
  {
    Artifacts(PathJoinAll(ImageDir, [combo, "freebsd-" + identifier + ".esp"]),
              PathJoinAll(ImageDir, [combo, "freebsd-" + identifier + "." + fs]),
              PathJoinAll(ImageDir, [combo, "freebsd-" + identifier + ".img"]))
  }

  function ScriptPath(combo: string, identifier: string): string
  {
    PathJoinAll(ScriptDir, [combo, identifier]) + ".sh"
  }

  function BiosCode(combo: string): string
  {
    PathJoin(BiosDir, "edk2-" + combo + "-code.fd")
  }

  function BiosVars(combo: string): string
  {
    PathJoin(BiosDir, "edk2-" + combo + "-var.fd")
  }

  // ---------------------------------------------------------------------------
  // Stages

  function RunSetupDirs(w: World): World
  {
    Finish(PerformAll(w, seq(|WorkDirs|, k requires 0 <= k < |WorkDirs| => MakeDirs(WorkDirs[k]))), SetupDirs)
  }

  function RunUpdateCache(b: State, w: World): World
  {
    Finish(PerformAll(w, CachePlan(w.files, b.imgFile, b.config.imgUrl)), UpdateCache)
  }

  /** The archive the minimal tree is extracted from, named as the program names it. */
  function CachedArchive(b: State): string
  {
    CacheDir + "/" + b.imgFile
  }

  function MinimalTreeSteps(b: State): seq<Step>
  {
    var tree := TreeRoot(b.config.machineCombo);
    var archive := CachedArchive(b);
    [RemoveTree(tree), MakeDirs(tree)]
    + seq(|TreeSkeleton|, k requires 0 <= k < |TreeSkeleton| => MakeDirs(PathJoin(tree, TreeSkeleton[k])))
    + (if b.config.flavor == "bootonly.iso" then [Run(["tar", "-C", tree, "-xf", archive] + SystemBinaries)] else [])
    + [WriteText(PathJoin(tree, "etc/rc"), b.config.rcConf),
       WriteText(PathJoin(tree, "boot/loader.conf"), b.config.loaderConf),
       Run(["tar", "-C", tree, "-xf", archive] + KernelFiles)]
  }

  function RunMinimalTree(b: State, w: World): World
  {
    Finish(PerformAll(w, MinimalTreeSteps(b)), MinimalTree)
  }

  function TestTreeSteps(b: State): seq<Step>
  {
    var testDir := TestStand(b.config.machineCombo);
    var target := ["TARGET=" + b.config.machine, "TARGET_ARCH=" + b.config.machineArch];
    var buildenv := ["cd", SrcTop + "/stand", "&&", "SHELL='make -j 100 all'", "make", "buildenv"] + target;
    var install := ["cd", SrcTop + "/stand", "&&",
                    "SHELL=\"make install " + ("DESTDIR='" + testDir + "'") + " MK_MAN=no MK_INSTALL_AS_USER=yes WITHOUT_DEBUG_FILES=yes\"",
                    "make", "buildenv"] + target;
    [MakeDirs(testDir),
     Run(["mtree", "-deUW", "-f", SrcTop + "/etc/mtree/BSD.root.dist", "-p", testDir]),
     Shell(JoinWith(buildenv, " "), []),
     Shell(JoinWith(install, " "), []),
     Run(["rm", "-rf", testDir + "/bin"]),
     Run(["rm", "-rf", testDir + "/[ac-z]*"])]
  }

  function RunTestTree(b: State, w: World): World
  {
    Finish(PerformAll(w, TestTreeSteps(b)), TestTree)
  }

  /** `build_freebsd_esps`: fails when the machine architecture has no boot file. */
  function RunEsps(b: State, w: World): (r: Result<World, BuildError>)
    ensures r.Failure? <==> U.BootUfi(b.config.machineArch).None?
    ensures r.Failure? ==> r.error == MissingBootFile(b.config.machineArch)
    ensures r.Success? ==> w.files <= r.value.files && r.value.done == w.done + [Esps]
    ensures r.Success? ==> w.log <= r.value.log
  {
    var combo := b.config.machineCombo;
    var espDir := EspDir(combo);
    var prepared := PerformAll(w, [RemoveTree(espDir), MakeDirs(espDir), MakeDirs(PathJoinAll(espDir, ["efi", "boot"]))]);
    match U.BootUfi(b.config.machineArch)
    case None => Failure(MissingBootFile(b.config.machineArch))
    case Some(bootEfi) =>
      var copy := Copy(PathJoinAll(TestStand(combo), ["boot", "loader.efi"]),
                       PathJoinAll(espDir, ["efi", "boot", bootEfi]));
      Success(Finish(Perform(prepared, copy), Esps))
  }

  function ImageSteps(b: State, a: Artifacts): seq<Step>
  {
    var c := b.config;
    var combo := c.machineCombo;
    var src := EspDir(combo);
    var dir := PathJoinAll(TreeDir, [combo, "freebsd"]);
    var fstabDir := TestStand(combo);
    [MakeDirs(PathJoin(ImageDir, combo)),
     MakeDirs(PathJoin(fstabDir, "etc")),
     WriteText(PathJoin(fstabDir, "etc/fstab"), c.fstabConf),
     Shell(CommandLine(EspArgv(a.espFile, src)), [a.espFile]),
     Shell(CommandLine(FsArgv(c.filesystem, a.fsFile, dir, fstabDir)), [a.fsFile]),
     Shell(CommandLine(ImageArgv(c.interface, c.filesystem, a.espFile, a.fsFile, a.imgFile)), [a.imgFile])]
  }

  /** `build_freebsd_images`: records the artefact paths and replaces the builder's
      image path by the composed disk image. */
  function RunImages(b: State, w: World): (State, World)
  {
    var a := ArtifactsOf(b.config.machineCombo, b.config.identifier, b.config.filesystem);
    (b.(imgFile := a.imgFile, artifacts := Some(a)), Finish(PerformAll(w, ImageSteps(b, a)), Images))
  }

  function ScriptSteps(b: State): seq<Step>
  {
    var c := b.config;
    var combo := c.machineCombo;
    var firmware := if c.machine == "amd64" then
                      [Copy(QemuCodeFirmware, BiosCode(combo)), Copy(QemuVarsFirmware, BiosVars(combo))]
                    else [];
    var recipe := U.QemuRecipe(c.machine, c.machineArch, c.filesystem, b.imgFile, BiosCode(combo), BiosVars(combo), c.port);
    firmware + [MakeDirs(PathJoin(ScriptDir, combo)), WriteText(ScriptPath(combo, c.identifier), recipe)]
  }

  /** `build_freebsd_scripts`: writes the launch script for the builder's current
      image path. */
  function RunScripts(b: State, w: World): (State, World)
  {
    (b.(script := Some(ScriptPath(b.config.machineCombo, b.config.identifier))),
     Finish(PerformAll(w, ScriptSteps(b)), Scripts))
  }

  /** A fresh builder: the image path starts as the configuration's release image. */
  function NewBuilder(c: C.Config): (b: State)
    ensures b.config == c && b.imgFile == c.imgFile && b.artifacts.None? && b.script.None?
  {
    State(c, c.imgFile, None, None)
  }

  /** `build_resource`: the seven stages in order; a missing boot file stops the
      pipeline at the ESP stage. */
  function Build(c: C.Config, w: World): Result<(State, World), BuildError>
  {
    var b := NewBuilder(c);
    var w1 := RunSetupDirs(w);
    var w2 := RunUpdateCache(b, w1);
    var w3 := RunMinimalTree(b, w2);
    var w4 := RunTestTree(b, w3);
    var w5 :- RunEsps(b, w4);
    var (b6, w6) := RunImages(b, w5);
    var (b7, w7) := RunScripts(b6, w6);
    Success((b7, w7))
  }

  // ---------------------------------------------------------------------------
  // Effects

  lemma {:induction false} PerformAllConcat(w: World, a: seq<Step>, b: seq<Step>)
    ensures PerformAll(w, a + b) == PerformAll(PerformAll(w, a), b)
    decreases |a|
  {
    if |a| == 0 {
      assert a + b == b;
    } else {
      assert (a + b)[0] == a[0];
      assert (a + b)[1..] == a[1..] + b;
      PerformAllConcat(Perform(w, a[0]), a[1..], b);
    }
  }

  /** A text written by a step stays the file's text unless a later step writes the
      same file again. */
  lemma {:induction false} TextSurvives(w: World, steps: seq<Step>, k: nat, path: string, text: string)
    requires k < |steps| && steps[k] == WriteText(path, text)
    requires forall j :: k < j < |steps| ==> !(steps[j].WriteText? && steps[j].path == path)
    ensures path in PerformAll(w, steps).texts && PerformAll(w, steps).texts[path] == text
    decreases |steps|
  {
    var w1 := Perform(w, steps[0]);
    if k == 0 {
      TextKept(w1, steps[1..], path);
    } else {
      assert forall j :: k - 1 < j < |steps[1..]| ==> steps[1..][j] == steps[j + 1];
      TextSurvives(w1, steps[1..], k - 1, path, text);
    }
  }

  /** Steps that do not write a file leave its text alone. */
  lemma {:induction false} TextKept(w: World, steps: seq<Step>, path: string)
    requires path in w.texts
    requires forall j :: 0 <= j < |steps| ==> !(steps[j].WriteText? && steps[j].path == path)
    ensures path in PerformAll(w, steps).texts && PerformAll(w, steps).texts[path] == w.texts[path]
    decreases |steps|
  {
    if |steps| > 0 {
      var w1 := Perform(w, steps[0]);
      assert w1.texts[path] == w.texts[path];
      assert forall j :: 0 <= j < |steps[1..]| ==> steps[1..][j] == steps[j + 1];
      TextKept(w1, steps[1..], path);
    }
  }

  /** A file some step creates is present afterwards. */
  lemma {:induction false} CreatedPresent(w: World, steps: seq<Step>, k: nat, f: string)
    requires k < |steps| && f in Creates(steps[k])
    ensures f in PerformAll(w, steps).files
    decreases |steps|
  {
    var w1 := Perform(w, steps[0]);
    if k > 0 {
      CreatedPresent(w1, steps[1..], k - 1, f);
    }
  }

  // ---------------------------------------------------------------------------
  // Layout

  /** The working directories are plain directory names: none is empty or ends
      in `/`, so joining onto them always inserts exactly one separator. */
  lemma WorkDirsPlain()
    ensures forall k :: 0 <= k < |WorkDirs| ==> WorkDirs[k] != "" && WorkDirs[k][|WorkDirs[k]| - 1] != '/'
  {
  }

  /** The minimal tree is named with an f-string and the image stage names it with
      `os.path.join`; for a plain combination both name the same directory, so the
      filesystem image is made from the tree the minimal-tree stage filled. */
  lemma TreeRootAgrees(combo: string)
    requires Component(combo)
    ensures PathJoinAll(TreeDir, [combo, "freebsd"]) == TreeRoot(combo)
  {
    WorkDirsPlain();
    assert WorkDirs[4] == TreeDir;
    var d := PathJoin(TreeDir, combo);
    assert d == TreeDir + "/" + combo;
    assert d[|d| - 1] == combo[|combo| - 1];
    assert combo[|combo| - 1] in combo;
    assert [combo, "freebsd"][1..] == ["freebsd"];
    assert PathJoinAll(TreeDir, [combo, "freebsd"]) == PathJoinAll(d, ["freebsd"]);
    assert PathJoinAll(d, ["freebsd"]) == PathJoin(d, "freebsd");
    assert !Absolute("freebsd");
    assert PathJoin(d, "freebsd") == TreeDir + "/" + combo + "/freebsd";
  }

  /** A file name built as `freebsd-<identifier><suffix>` is one path component
      when the identifier and the suffix have no `/`. */
  lemma ArtifactNamePlain(id: string, suffix: string)
    requires '/' !in id && '/' !in suffix
    ensures Component("freebsd-" + id + suffix)
  {
    var name := "freebsd-" + id + suffix;
    forall k | 0 <= k < |name|
      ensures name[k] != '/'
    {
      if k < 8 {
        assert name[k] == "freebsd-"[k];
      } else if k < 8 + |id| {
        assert name[k] == id[k - 8];
      } else {
        assert name[k] == suffix[k - 8 - |id|];
      }
    }
  }

  /** A file joined under the combination's image directory. */
  lemma ImagePlace(combo: string, name: string)
    requires Component(combo) && Component(name)
    ensures Split(PathJoinAll(ImageDir, [combo, name]), '/') == Split(ImageDir, '/') + [combo, name]
    ensures LastPiece(PathJoinAll(ImageDir, [combo, name]), '/') == name
  {
    WorkDirsPlain();
    assert WorkDirs[2] == ImageDir;
    JoinComponents(ImageDir, [combo, name]);
    var parts := Split(ImageDir, '/') + [combo, name];
    assert parts[|parts| - 1] == name;
  }

  /** The ESP, the filesystem and the disk image sit side by side in the
      combination's image directory, and are three different files. */
  lemma ArtifactLayout(combo: string, id: string, fs: string)
    requires Component(combo) && '/' !in id && fs in C.ValidFilesystems
    ensures var a := ArtifactsOf(combo, id, fs);
            && Split(a.espFile, '/') == Split(ImageDir, '/') + [combo, "freebsd-" + id + ".esp"]
            && Split(a.fsFile, '/') == Split(ImageDir, '/') + [combo, "freebsd-" + id + "." + fs]
            && Split(a.imgFile, '/') == Split(ImageDir, '/') + [combo, "freebsd-" + id + ".img"]
            && a.espFile != a.fsFile && a.espFile != a.imgFile && a.fsFile != a.imgFile
  {
    ArtifactNames(id, fs);
    ImagePlace(combo, "freebsd-" + id + ".esp");
    ImagePlace(combo, "freebsd-" + id + "." + fs);
    ImagePlace(combo, "freebsd-" + id + ".img");
  }

  /** The three artefact names are path components and differ from each other. */
  lemma ArtifactNames(id: string, fs: string)
    requires '/' !in id && fs in C.ValidFilesystems
    ensures Component("freebsd-" + id + ".esp") && Component("freebsd-" + id + "." + fs)
            && Component("freebsd-" + id + ".img")
    ensures "freebsd-" + id + ".esp" != "freebsd-" + id + "." + fs
    ensures "freebsd-" + id + ".esp" != "freebsd-" + id + ".img"
    ensures "freebsd-" + id + "." + fs != "freebsd-" + id + ".img"
  {
    var stem := "freebsd-" + id;
    assert '/' !in "." + fs;
    assert stem + "." + fs == stem + ("." + fs);
    ArtifactNamePlain(id, ".esp");
    ArtifactNamePlain(id, "." + fs);
    ArtifactNamePlain(id, ".img");
    if stem + ".esp" == stem + ("." + fs) {
      CancelPrefix(stem, ".esp", "." + fs);
    }
    if stem + ".esp" == stem + ".img" {
      CancelPrefix(stem, ".esp", ".img");
    }
    if stem + ("." + fs) == stem + ".img" {
      CancelPrefix(stem, "." + fs, ".img");
    }
  }

  /** The launch script lives in the combination's script directory and is named
      after the configuration's identifier. */
  lemma ScriptLayout(combo: string, id: string)
    requires Component(combo) && '/' !in id
    ensures Split(ScriptPath(combo, id), '/') == Split(ScriptDir, '/') + [combo, id + ".sh"]
    ensures LastPiece(ScriptPath(combo, id), '/') == id + ".sh"
  {
    WorkDirsPlain();
    assert WorkDirs[3] == ScriptDir;
    var dir := PathJoin(ScriptDir, combo);
    JoinComponents(ScriptDir, [combo]);
    assert PathJoinAll(ScriptDir, [combo]) == dir;
    assert [combo, id][1..] == [id];
    assert PathJoinAll(ScriptDir, [combo, id]) == PathJoinAll(dir, [id]);
    assert PathJoinAll(dir, [id]) == PathJoin(dir, id);
    assert !Absolute(id) by {
      if |id| > 0 {
        assert id[0] in id;
      }
    }
    assert PathJoin(dir, id) == dir + "/" + id;
    assert ScriptPath(combo, id) == dir + ['/'] + (id + ".sh");
    assert '/' !in id + ".sh";
    SplitConcat(dir, id + ".sh", '/');
    SplitFree(id + ".sh", '/');
    LastPieceAfter(dir, id + ".sh", '/');
  }

  // ---------------------------------------------------------------------------
  // Stages

  /** The minimal tree receives the configuration's `/etc/rc` and
      `/boot/loader.conf`; the system binaries are extracted from the release image
      only for the boot-only ISO, the kernel files always. */
  lemma MinimalTreeSpec(b: State, w: World)
    ensures var tree := TreeRoot(b.config.machineCombo);
            var steps := MinimalTreeSteps(b);
            var r := RunMinimalTree(b, w);
            && PathJoin(tree, "etc/rc") in r.texts && r.texts[PathJoin(tree, "etc/rc")] == b.config.rcConf
            && PathJoin(tree, "boot/loader.conf") in r.texts
            && r.texts[PathJoin(tree, "boot/loader.conf")] == b.config.loaderConf
            && (Run(["tar", "-C", tree, "-xf", CachedArchive(b)] + SystemBinaries) in steps
                <==> b.config.flavor == "bootonly.iso")
            && Run(["tar", "-C", tree, "-xf", CachedArchive(b)] + KernelFiles) in steps
  {
    var tree := TreeRoot(b.config.machineCombo);
    var steps := MinimalTreeSteps(b);
    var rc := PathJoin(tree, "etc/rc");
    var loader := PathJoin(tree, "boot/loader.conf");
    assert tree[|tree| - 1] == 'd';
    assert rc == tree + "/" + "etc/rc" && loader == tree + "/" + "boot/loader.conf";
    assert rc[|tree| + 1] == 'e' && loader[|tree| + 1] == 'b';
    var n := |steps|;
    assert steps[n - 3] == WriteText(rc, b.config.rcConf);
    assert steps[n - 2] == WriteText(loader, b.config.loaderConf);
    TextSurvives(w, steps, n - 3, rc, b.config.rcConf);
    TextSurvives(w, steps, n - 2, loader, b.config.loaderConf);
    var bins := Run(["tar", "-C", tree, "-xf", CachedArchive(b)] + SystemBinaries);
    var kernel := Run(["tar", "-C", tree, "-xf", CachedArchive(b)] + KernelFiles);
    assert steps[n - 1] == kernel;
    if b.config.flavor != "bootonly.iso" {
      assert |bins.argv| != |kernel.argv|;
      assert forall k :: 0 <= k < n ==> steps[k] != bins;
    }
  }

  /** Both shell commands of the test-tree stage build for the configuration's
      machine and machine architecture, and the install puts the loader into the
      test stand. */
  lemma TestTreeSpec(b: State)
    ensures var steps := TestTreeSteps(b);
            var target := "TARGET=" + b.config.machine;
            var targetArch := "TARGET_ARCH=" + b.config.machineArch;
            && steps[2].Shell? && steps[3].Shell?
            && Contains(steps[2].command, target) && Contains(steps[2].command, targetArch)
            && Contains(steps[3].command, target) && Contains(steps[3].command, targetArch)
            && Contains(steps[3].command, "DESTDIR='" + TestStand(b.config.machineCombo) + "'")
  {
    var testDir := TestStand(b.config.machineCombo);
    var target := ["TARGET=" + b.config.machine, "TARGET_ARCH=" + b.config.machineArch];
    var buildenv := ["cd", SrcTop + "/stand", "&&", "SHELL='make -j 100 all'", "make", "buildenv"] + target;
    var setting := "SHELL=\"make install " + ("DESTDIR='" + testDir + "'") + " MK_MAN=no MK_INSTALL_AS_USER=yes WITHOUT_DEBUG_FILES=yes\"";
    var install := ["cd", SrcTop + "/stand", "&&", setting, "make", "buildenv"] + target;
    JoinWithContains(buildenv, " ", 6);
    JoinWithContains(buildenv, " ", 7);
    JoinWithContains(install, " ", 6);
    JoinWithContains(install, " ", 7);
    JoinWithContains(install, " ", 3);
    ContainsMiddle("SHELL=\"make install ", "DESTDIR='" + testDir + "'", " MK_MAN=no MK_INSTALL_AS_USER=yes WITHOUT_DEBUG_FILES=yes\"");
    ContainsWithin(JoinWith(install, " "), setting, "DESTDIR='" + testDir + "'");
  }

  /** On success the loader built into the test stand is copied to the firmware's
      fallback location on the ESP, `efi/boot/<boot file>`, under the name the
      machine architecture's firmware looks for. */
  lemma EspsSpec(b: State, w: World)
    requires Component(b.config.machineCombo)
    ensures var r := RunEsps(b, w);
            var ma := b.config.machineArch;
            r.Success? ==>
              && ma in U.BootEfiTable
              && exists dst ::
                   && Copy(PathJoinAll(TestStand(b.config.machineCombo), ["boot", "loader.efi"]), dst) in r.value.log
                   && Split(dst, '/') == Split(TreeDir, '/') + [b.config.machineCombo, "freebsd-esp", "efi", "boot", U.BootEfiTable[ma]]
                   && dst in r.value.files
  {
    var ma := b.config.machineArch;
    if ma in U.BootEfiTable {
      var combo := b.config.machineCombo;
      var name := U.BootEfiTable[ma];
      var dst := PathJoinAll(EspDir(combo), ["efi", "boot", name]);
      var espDir := EspDir(combo);
      var prepared := PerformAll(w, [RemoveTree(espDir), MakeDirs(espDir), MakeDirs(PathJoinAll(espDir, ["efi", "boot"]))]);
      var copy := Copy(PathJoinAll(TestStand(combo), ["boot", "loader.efi"]), dst);
      assert U.BootUfi(ma) == Some(name);
      assert RunEsps(b, w) == Success(Finish(Perform(prepared, copy), Esps));
      BootFilesPlain(ma);
      EspDestination(combo, name);
      CopyLogged(prepared, copy, Esps);
    }
  }

  /** A copy performed last is in the log and its destination is present. */
  lemma CopyLogged(w: World, step: Step, stage: Stage)
    requires step.Copy?
    ensures step in Finish(Perform(w, step), stage).log
    ensures step.dst in Finish(Perform(w, step), stage).files
  {
    var r := Finish(Perform(w, step), stage);
    assert r.log[|r.log| - 1] == step;
  }

  /** Where a boot file lands on the ESP. */
  lemma EspDestination(combo: string, name: string)
    requires Component(combo) && Component(name)
    ensures Split(PathJoinAll(EspDir(combo), ["efi", "boot", name]), '/')
         == Split(TreeDir, '/') + [combo, "freebsd-esp", "efi", "boot", name]
  {
    WorkDirsPlain();
    assert WorkDirs[4] == TreeDir;
    JoinNested(TreeDir, [combo, "freebsd-esp"], ["efi", "boot", name]);
    TwoThenThree(Split(TreeDir, '/'), combo, "freebsd-esp", "efi", "boot", name);
  }

  lemma TwoThenThree(s: seq<string>, a: string, b: string, c: string, d: string, e: string)
    ensures s + [a, b] + [c, d, e] == s + [a, b, c, d, e]
  {
  }

  /** Every boot file name is a single path component. */
  lemma BootFilesPlain(ma: string)
    requires ma in U.BootEfiTable
    ensures Component(U.BootEfiTable[ma])
  {
  }

  /** The image stage writes the configuration's fstab into the test stand, makes
      the ESP from the ESP tree, formats the filesystem from the minimal tree and
      the test stand, assembles the disk image from the two, and from then on the
      builder's image path is the assembled disk image. */
  lemma ImagesSpec(b: State, w: World)
    requires Component(b.config.machineCombo)
    ensures var c := b.config;
            var combo := c.machineCombo;
            var a := ArtifactsOf(combo, c.identifier, c.filesystem);
            var (b2, r) := RunImages(b, w);
            var steps := ImageSteps(b, a);
            && b2 == b.(imgFile := a.imgFile, artifacts := Some(a))
            && PathJoin(TestStand(combo), "etc/fstab") in r.texts
            && r.texts[PathJoin(TestStand(combo), "etc/fstab")] == c.fstabConf
            && Shell(CommandLine(EspArgv(a.espFile, EspDir(combo))), [a.espFile]) in steps
            && Shell(CommandLine(FsArgv(c.filesystem, a.fsFile, TreeRoot(combo), TestStand(combo))), [a.fsFile]) in steps
            && Shell(CommandLine(ImageArgv(c.interface, c.filesystem, a.espFile, a.fsFile, a.imgFile)), [a.imgFile]) in steps
            && a.espFile in r.files && a.fsFile in r.files && a.imgFile in r.files
  {
    var c := b.config;
    var combo := c.machineCombo;
    var a := ArtifactsOf(combo, c.identifier, c.filesystem);
    var steps := ImageSteps(b, a);
    TreeRootAgrees(combo);
    WrittenThenMade(w, steps, PathJoin(TestStand(combo), "etc/fstab"), c.fstabConf,
                    steps[3].command, steps[4].command, steps[5].command, a.espFile, a.fsFile, a.imgFile);
  }

  /** Six steps whose third writes a text and whose last three each make one file
      leave that text and those files behind. */
  lemma WrittenThenMade(w: World, steps: seq<Step>, path: string, text: string,
                        c1: string, c2: string, c3: string, f1: string, f2: string, f3: string)
    requires |steps| == 6 && steps[2] == WriteText(path, text)
    requires steps[3] == Shell(c1, [f1]) && steps[4] == Shell(c2, [f2]) && steps[5] == Shell(c3, [f3])
    ensures path in PerformAll(w, steps).texts && PerformAll(w, steps).texts[path] == text
    ensures f1 in PerformAll(w, steps).files && f2 in PerformAll(w, steps).files && f3 in PerformAll(w, steps).files
  {
    TextSurvives(w, steps, 2, path, text);
    assert f1 in Creates(steps[3]) && f2 in Creates(steps[4]) && f3 in Creates(steps[5]);
    CreatedPresent(w, steps, 3, f1);
    CreatedPresent(w, steps, 4, f2);
    CreatedPresent(w, steps, 5, f3);
  }

  /** The script stage installs the x86 firmware images only for `amd64` and writes
      the emulator recipe for the builder's current image path into the script. */
  lemma ScriptsSpec(b: State, w: World)
    ensures var c := b.config;
            var combo := c.machineCombo;
            var (b2, r) := RunScripts(b, w);
            var steps := ScriptSteps(b);
            var path := ScriptPath(combo, c.identifier);
            && b2 == b.(script := Some(path))
            && path in r.texts
            && r.texts[path] == U.QemuRecipe(c.machine, c.machineArch, c.filesystem, b.imgFile,
                                             BiosCode(combo), BiosVars(combo), c.port)
            && (Copy(QemuCodeFirmware, BiosCode(combo)) in steps <==> c.machine == "amd64")
            && (Copy(QemuVarsFirmware, BiosVars(combo)) in steps <==> c.machine == "amd64")
            && (c.machine == "amd64" ==> BiosCode(combo) in r.files && BiosVars(combo) in r.files)
  {
    var c := b.config;
    var combo := c.machineCombo;
    var steps := ScriptSteps(b);
    var path := ScriptPath(combo, c.identifier);
    var recipe := U.QemuRecipe(c.machine, c.machineArch, c.filesystem, b.imgFile, BiosCode(combo), BiosVars(combo), c.port);
    TextSurvives(w, steps, |steps| - 1, path, recipe);
    if c.machine == "amd64" {
      CreatedPresent(w, steps, 0, BiosCode(combo));
      CreatedPresent(w, steps, 1, BiosVars(combo));
    }
  }

  // ---------------------------------------------------------------------------
  // The whole pipeline

  /** The build succeeds exactly when the machine architecture has a boot file,
      and otherwise fails with that architecture. A successful build has run the
      seven stages in order, has the release image in the cache, has the three
      artefacts, and has written the launch script for the assembled disk image
      (not the release image the builder started from). */
  lemma BuildSpec(c: C.Config, w: World)
    requires Component(c.machineCombo)
    ensures var r := Build(c, w);
            && (r.Success? <==> c.machineArch in U.BootEfiTable)
            && (r.Failure? ==> r.error == MissingBootFile(c.machineArch))
            && (r.Success? ==>
                  var (b, w2) := r.value;
                  var a := ArtifactsOf(c.machineCombo, c.identifier, c.filesystem);
                  var path := ScriptPath(c.machineCombo, c.identifier);
                  && w2.done == w.done + StageOrder
                  && b.config == c && b.imgFile == a.imgFile && b.artifacts == Some(a) && b.script == Some(path)
                  && PathJoin(CacheDir, c.imgFile) in w2.files
                  && (PathJoin(CacheDir, c.imgFile) !in w.files && PathJoin(CacheDir, c.imgFile) + ".xz" !in w.files ==>
                        Fetch(c.imgUrl, PathJoin(CacheDir, c.imgFile) + ".xz") in w2.log)
                  && a.espFile in w2.files && a.fsFile in w2.files && a.imgFile in w2.files
                  && path in w2.texts
                  && w2.texts[path] == U.QemuRecipe(c.machine, c.machineArch, c.filesystem, a.imgFile,
                                                    BiosCode(c.machineCombo), BiosVars(c.machineCombo), c.port))
  {
    var b := NewBuilder(c);
    var w1 := RunSetupDirs(w);
    var w2 := RunUpdateCache(b, w1);
    CachePlanSpec(w1, b.imgFile, c.imgUrl);
    var w3 := RunMinimalTree(b, w2);
    var w4 := RunTestTree(b, w3);
    var e := RunEsps(b, w4);
    if e.Success? {
      var w5 := e.value;
      var (b6, w6) := RunImages(b, w5);
      ImagesSpec(b, w5);
      var (b7, w7) := RunScripts(b6, w6);
      ScriptsSpec(b6, w6);
      assert w1.done == w.done + [SetupDirs];
      assert w2.done == w1.done + [UpdateCache];
      assert w3.done == w2.done + [MinimalTree];
      assert w4.done == w3.done + [TestTree];
      assert w6.done == w5.done + [Images];
      assert w7.done == w6.done + [Scripts];
      StagesInOrder(w.done);
      BuildFetches(c, w);
    }
  }

  /** The download of a build: when neither the image nor its compressed form is
      cached beforehand, the build fetches the configuration's URL into the cache as
      `<image>.xz`. */
  lemma BuildFetches(c: C.Config, w: World)
    requires Build(c, w).Success?
    ensures var path := PathJoin(CacheDir, c.imgFile);
            path !in w.files && path + ".xz" !in w.files ==>
              Fetch(c.imgUrl, path + ".xz") in Build(c, w).value.1.log
  {
    var path := PathJoin(CacheDir, c.imgFile);
    var w2 := RunUpdateCache(NewBuilder(c), RunSetupDirs(w));
    UpdateFetches(c, w);
    BuildKeepsCacheLog(c, w);
    if path !in w.files && path + ".xz" !in w.files {
      InPrefix(Fetch(c.imgUrl, path + ".xz"), w2.log, Build(c, w).value.1.log);
    }
  }

  lemma InPrefix<T>(x: T, a: seq<T>, b: seq<T>)
    requires x in a && a <= b
    ensures x in b
  {
    var i :| 0 <= i < |a| && a[i] == x;
    assert b[i] == x;
  }

  /** The cache stage downloads the release image when nothing of it is cached. */
  lemma UpdateFetches(c: C.Config, w: World)
    ensures var path := PathJoin(CacheDir, c.imgFile);
            path !in w.files && path + ".xz" !in w.files ==>
              Fetch(c.imgUrl, path + ".xz") in RunUpdateCache(NewBuilder(c), RunSetupDirs(w)).log
  {
    var path := PathJoin(CacheDir, c.imgFile);
    var b := NewBuilder(c);
    NothingCreated(w, seq(|WorkDirs|, k requires 0 <= k < |WorkDirs| => MakeDirs(WorkDirs[k])));
    var w1 := RunSetupDirs(w);
    CachePlanSpec(w1, b.imgFile, c.imgUrl);
    if path !in w.files && path + ".xz" !in w.files {
      var plan := CachePlan(w1.files, b.imgFile, c.imgUrl);
      var k :| 0 <= k < |plan| && plan[k].Fetch?;
      assert RunUpdateCache(b, w1).log[|w1.log| + k] == plan[k];
    }
  }

  /** The stages after the cache stage only append to the log. */
  lemma BuildKeepsCacheLog(c: C.Config, w: World)
    requires Build(c, w).Success?
    ensures RunUpdateCache(NewBuilder(c), RunSetupDirs(w)).log <= Build(c, w).value.1.log
  {
    var b := NewBuilder(c);
    var w2 := RunUpdateCache(b, RunSetupDirs(w));
    var w3 := RunMinimalTree(b, w2);
    var w4 := RunTestTree(b, w3);
    var w5 := RunEsps(b, w4).value;
    var (b6, w6) := RunImages(b, w5);
    var (b7, w7) := RunScripts(b6, w6);
    assert Build(c, w).value.1 == w7;
    PrefixChain(w2.log, w3.log, w4.log, w5.log, w6.log, w7.log);
  }

  lemma PrefixChain<T>(a: seq<T>, b: seq<T>, c: seq<T>, d: seq<T>, e: seq<T>, f: seq<T>)
    requires a <= b && b <= c && c <= d && d <= e && e <= f
    ensures a <= f
  {
  }

  /** Steps that create no file leave the set of files as it was. */
  lemma {:induction false} NothingCreated(w: World, steps: seq<Step>)
    requires forall k :: 0 <= k < |steps| ==> Creates(steps[k]) == {}
    ensures PerformAll(w, steps).files == w.files
    decreases |steps|
  {
    if |steps| > 0 {
      NothingCreated(Perform(w, steps[0]), steps[1..]);
    }
  }

  /** Appending the stages one at a time gives the pipeline order. */
  lemma StagesInOrder(d: seq<Stage>)
    ensures d + [SetupDirs] + [UpdateCache] + [MinimalTree] + [TestTree] + [Esps] + [Images] + [Scripts]
         == d + StageOrder
  {
  }

  /** The configured architectures whose machine has no UEFI boot file:
      `powerpc:powerc64`, `arm:arm` and `arm:armv6`. */
  predicate LacksBootFile(arch: string)
  {
    arch in ["powerpc:powerc64", "arm:arm", "arm:armv6"]
  }

  /** Which of the configuration's architectures have a boot file. */
  lemma BootFileByArch(i: nat)
    requires i < |C.ArchTable|
    ensures C.ArchTable[i].1 in U.BootEfiTable <==> !LacksBootFile(C.ValidArches[i])
  {
  }

  /** Which of the configuration's architectures with a boot file have a launch
      recipe. */
  lemma RecipeByArch(i: nat)
    requires i < |C.ArchTable| && C.ArchTable[i].1 in U.BootEfiTable
    ensures C.ArchTable[i].1 in U.ScriptedArches <==> C.ValidArches[i] != "powerpc:powerpc"
  {
  }

  /** The configuration's architectures, stage by stage: `powerpc:powerc64`,
      `arm:arm` and `arm:armv6` have no boot file and stop at the ESP stage; of the
      rest, `powerpc:powerpc` builds but gets an empty launch script, and the other
      four get a real one. */
  lemma ArchOutcomes(i: nat, c: C.Config, w: World)
    requires i < |C.ArchTable| && (c.machine, c.machineArch) == C.ArchTable[i]
    requires Component(c.machineCombo)
    ensures Build(c, w).Success? <==> !LacksBootFile(C.ValidArches[i])
    ensures Build(c, w).Success? ==>
              var path := ScriptPath(c.machineCombo, c.identifier);
              && path in Build(c, w).value.1.texts
              && (Build(c, w).value.1.texts[path] == "" <==> C.ValidArches[i] == "powerpc:powerpc")
  {
    BuildSpec(c, w);
    BootFileByArch(i);
    if Build(c, w).Success? {
      RecipeByArch(i);
      U.RecipeSupported(c.machine, c.machineArch, c.filesystem,
                        ArtifactsOf(c.machineCombo, c.identifier, c.filesystem).imgFile,
                        BiosCode(c.machineCombo), BiosVars(c.machineCombo), c.port);
    }
  }

  /** The machine combination of every configured architecture is one path
      component. */
  lemma CombosPlain(i: nat)
    requires i < |C.ArchTable|
    ensures Component(C.MachineCombo(C.ArchTable[i].0, C.ArchTable[i].1))
  {
  }

  /** From valid axis values the constructor makes a configuration, and building it
      fails at the ESP stage exactly for `powerpc:powerc64`, `arm:arm` and
      `arm:armv6`. */
  lemma ConfiguredOutcome(arch: string, filesystem: string, interface: string, flavor: Option<string>,
                          imgFile: Option<string>, imgUrl: Option<string>, port: int,
                          encryption: string, version: string, w: World)
    requires arch in C.ValidArches && filesystem in C.ValidFilesystems
    requires interface in C.ValidInterfaces && encryption in C.ValidEncryptions
    ensures C.NewConfig(arch, filesystem, interface, flavor, imgFile, imgUrl, port, encryption, version).Success?
    ensures var c := C.NewConfig(arch, filesystem, interface, flavor, imgFile, imgUrl, port, encryption, version).value;
            Build(c, w).Success? <==> !LacksBootFile(arch)
  {
    C.ValidConstructs(arch, filesystem, interface, flavor, imgFile, imgUrl, port, encryption, version);
    var c := C.NewConfig(arch, filesystem, interface, flavor, imgFile, imgUrl, port, encryption, version).value;
    OutcomeOfArch(arch, c, w);
  }

  /** `ConfiguredOutcome` for any configuration whose machine fields are the halves
      of a valid architecture. */
  lemma OutcomeOfArch(arch: string, c: C.Config, w: World)
    requires arch in C.ValidArches && c.machine + ":" + c.machineArch == arch
    requires ':' !in c.machine && ':' !in c.machineArch
    requires c.machineCombo == C.MachineCombo(c.machine, c.machineArch)
    ensures Build(c, w).Success? <==> !LacksBootFile(arch)
  {
    var i := ArchIndex(arch, c.machine, c.machineArch, c.machineCombo);
    ArchOutcomes(i, c, w);
  }

  /** The table row of a valid architecture given by its colon halves. */
  lemma ArchIndex(arch: string, m: string, ma: string, combo: string) returns (i: nat)
    requires arch in C.ValidArches && m + ":" + ma == arch
    requires ':' !in m && ':' !in ma
    requires combo == C.MachineCombo(m, ma)
    ensures i < |C.ArchTable| && (m, ma) == C.ArchTable[i] && C.ValidArches[i] == arch
    ensures Component(combo)
  {
    i :| 0 <= i < |C.ValidArches| && C.ValidArches[i] == arch;
    ArchRow(m, ma, i);
    CombosPlain(i);
  }

  /** The halves of a valid architecture are the entries of its table row. */
  lemma ArchRow(m: string, ma: string, i: nat)
    requires i < |C.ValidArches| && m + ":" + ma == C.ValidArches[i]
    requires ':' !in m && ':' !in ma
    ensures (m, ma) == C.ArchTable[i]
  {
    C.ArchSplits(i);
    assert m + ":" + ma == m + [':'] + ma;
    SplitPair(m, ma, ':');
  }

  /** The tree stage extracts from the file the cache stage provides when the image
      name is relative; an absolute image name is taken as is by the cache stage but
      prefixed with the cache directory by the tree stage. */
  lemma CachedArchiveAgrees(b: State)
    ensures !Absolute(b.imgFile) ==> CachedArchive(b) == PathJoin(CacheDir, b.imgFile)
    ensures Absolute(b.imgFile) ==> PathJoin(CacheDir, b.imgFile) == b.imgFile != CachedArchive(b)
  {
    WorkDirsPlain();
    assert WorkDirs[1] == CacheDir;
    if Absolute(b.imgFile) {
      assert |CachedArchive(b)| > |b.imgFile|;
    }
  }
}
