/** Per-architecture tables and the QEMU launch script (`FreeBSDUtils` in
    src/utils/freebsd_utils.py). */
module FreeBSDUtils {
  import opened Results
  import opened Strings

  /** `get_qemu_bin`'s table: machine architecture to emulator binary. */
  const QemuBinTable: map<string, string> := map[
    "amd64" := "/usr/local/bin/qemu-system-x86_64",
    "i386" := "/usr/local/bin/qemu-system-i386",
    "armv7" := "/usr/local/bin/qemu-system-arm",
    "aarch64" := "/usr/local/bin/qemu-system-aarch64",
    "powerpc" := "/usr/local/bin/qemu-system-ppc",
    "powerpc64" := "/usr/local/bin/qemu-system-ppc64",
    "riscv64" := "/usr/local/bin/qemu-system-riscv64",
    "powerpc64le" := "/usr/local/bin/qemu-system-ppc64le"]

  /** `get_boot_ufi`'s table: machine architecture to the file name the firmware
      loads from `efi/boot` on the EFI system partition. */
  const BootEfiTable: map<string, string> := map[
    "amd64" := "bootx64.efi",
    "i386" := "bootia32.efi",
    "armv7" := "bootarm.efi",
    "aarch64" := "bootaa64.efi",
    "powerpc" := "bootppc64.efi",
    "powerpc64" := "bootppc64.efi",
    "riscv64" := "bootriscv64.efi",
    "powerpc64le" := "bootppc64le.efi"]

  /** The machine architectures that have a launch script. */
  const ScriptedArches: seq<string> := ["amd64", "aarch64", "riscv64", "armv7", "powerpc64"]

  const QemuBinPrefix: string := "/usr/local/bin/qemu-system-"

  /** `get_qemu_bin`: `None` for an architecture outside the table. */
  function QemuBin(ma: string): (r: Option<string>)
    ensures r.Some? <==> ma in QemuBinTable
    ensures r.Some? ==> r.value == QemuBinTable[ma]
  {
    if ma in QemuBinTable then Some(QemuBinTable[ma]) else None
  }

  /** `get_boot_ufi`: `None` for an architecture outside the table. */
  function BootUfi(ma: string): (r: Option<string>)
    ensures r.Some? <==> ma in BootEfiTable
    ensures r.Some? ==> r.value == BootEfiTable[ma]
  {
    if ma in BootEfiTable then Some(BootEfiTable[ma]) else None
  }

  /** A UEFI firmware image attached as a raw flash drive. */
  function Flash(path: string): string
  {
    "file=" + path + ",format=raw,if=pflash"
  }

  /** The options of one architecture's branch of `get_qemu_recipe` that come before
      the boot image, with the template's line continuations joined. */
  function Lead(ma: string): string
    requires ma in ScriptedArches
  {
    if ma == "amd64" then " -nographic -m 512M -drive "
    else if ma == "aarch64" then " -m 512M -cpu cortex-a57 -M virt,gic-version=3 -nographic  -drive "
    else if ma == "riscv64" then
      " -m 512M -smp 2 -nographic -machine virt -bios /usr/local/share/opensbi/lp64/generic/firmware/fw_jump.elf"
      + " -kernel /usr/local/share/u-boot/u-boot-qemu-riscv64/u-boot.bin -drive "
    else if ma == "armv7" then
      " -machine virt -m 512M -smp 2 -nographic -bios /usr/local/share/u-boot/u-boot-qemu-arm/u-boot.bin"
      + " -drive if=none,"
    else
      " -machine pseries,accel=kvm,cap-cfpc=broken,cap-sbbc=broken,cap-ibs=broken"
      + " -m 512M -smp 2 -nographic -enable-kvm -drive if=none,"
  }

  /** The options of the same branch after the boot image: its drive settings, the
      firmware drives and the block device. */
  function Trail(ma: string, biosCode: string, biosVars: string): string
    requires ma in ScriptedArches
  {
    if ma == "amd64" then
      ",if=none,id=drive0,cache=writeback,format=raw -device virtio-blk,drive=drive0,bootindex=0 -drive "
      + Flash(biosCode)
    else if ma == "aarch64" then
      ",if=none,id=drive0 -drive " + Flash(biosCode) + ",readonly=on -drive " + Flash(biosVars)
      + " -device virtio-blk-device,drive=drive0"
    else if ma == "riscv64" then ",format=raw,id=hd0 -device virtio-blk-device,drive=hd0,bootindex=0"
    else ",id=hd0 -device virtio-blk-device,drive=hd0"
  }

  /** The emulator options between the binary and the monitor: every branch names
      the boot image once, as `file=<img>`. */
  function Invocation(ma: string, img: string, biosCode: string, biosVars: string): string
    requires ma in ScriptedArches
  {
    Lead(ma) + ("file=" + img) + Trail(ma, biosCode, biosVars)
  }

  /** The end every script shares: the telnet monitor on `port`, the serial console
      on standard input/output, and the script's own arguments. */
  function MonitorTail(port: int): string
  {
    " -monitor telnet::" + ShowInt(port) + ",server,nowait -serial stdio $*\n"
  }

  /** `get_qemu_recipe`: the whole script, a newline, one command line, a newline;
      the empty string for an architecture without a branch. `m` and `fs` are
      accepted and unused, as in the program. A missing binary would be formatted
      as the word `None`. */
  function QemuRecipe(m: string, ma: string, fs: string, img: string, biosCode: string,
                      biosVars: string, port: int): string
  {
    if ma in ScriptedArches then
      var bin := match QemuBin(ma) case Some(b) => b case None => "None";
      "\n" + bin + Invocation(ma, img, biosCode, biosVars) + MonitorTail(port)
    else ""
  }

  // ---------------------------------------------------------------------------

  /** Every emulator binary is a distinct `qemu-system-*` under /usr/local/bin. */
  lemma QemuBinSpec(ma: string, mb: string)
    requires ma in QemuBinTable && mb in QemuBinTable
    ensures QemuBinPrefix <= QemuBinTable[ma]
    ensures QemuBinTable[ma] == QemuBinTable[mb] ==> ma == mb
  {
  }

  /** Every boot file is `boot*.efi`. Two architectures share one: 32-bit and
      64-bit big-endian PowerPC both boot `bootppc64.efi`. */
  lemma BootUfiSpec(ma: string)
    requires ma in BootEfiTable
    ensures "boot" <= BootEfiTable[ma]
    ensures BootEfiTable[ma][|BootEfiTable[ma]| - 4..] == ".efi"
    ensures BootUfi("powerpc") == BootUfi("powerpc64")
  {
  }

  /** A script is produced exactly for the five scripted architectures, and each of
      those has its emulator binary, so the word `None` never appears. */
  lemma RecipeSupported(m: string, ma: string, fs: string, img: string, biosCode: string,
                        biosVars: string, port: int)
    ensures QemuRecipe(m, ma, fs, img, biosCode, biosVars, port) != "" <==> ma in ScriptedArches
    ensures ma in ScriptedArches ==>
              QemuRecipe(m, ma, fs, img, biosCode, biosVars, port)
                == "\n" + QemuBinTable[ma] + Invocation(ma, img, biosCode, biosVars) + MonitorTail(port)
  {
  }

  /** The script boots the given image: it names `file=<img>` on the command line. */
  lemma RecipeUsesImage(m: string, ma: string, fs: string, img: string, biosCode: string,
                        biosVars: string, port: int)
    requires ma in ScriptedArches
    ensures Contains(QemuRecipe(m, ma, fs, img, biosCode, biosVars, port), "file=" + img)
  {
    RecipeSupported(m, ma, fs, img, biosCode, biosVars, port);
    ContainsInside("\n" + QemuBinTable[ma], Invocation(ma, img, biosCode, biosVars), MonitorTail(port),
                   Lead(ma), "file=" + img, Trail(ma, biosCode, biosVars));
  }

  /** The port can be read back from the monitor clause that ends a command. */
  lemma MonitorTailInjective(command: string, p1: int, p2: int)
    requires command + MonitorTail(p1) == command + MonitorTail(p2)
    ensures p1 == p2
  {
    CancelNested(command, " -monitor telnet::", ShowInt(p1), ShowInt(p2), ",server,nowait -serial stdio $*\n");
    ShowIntRoundTrip(p1);
    ShowIntRoundTrip(p2);
  }

  /** The monitor port can be read back from the script: scripts that differ only in
      the port differ as text. */
  lemma RecipePortInjective(m: string, ma: string, fs: string, img: string, biosCode: string,
                            biosVars: string, p1: int, p2: int)
    requires ma in ScriptedArches
    requires QemuRecipe(m, ma, fs, img, biosCode, biosVars, p1) == QemuRecipe(m, ma, fs, img, biosCode, biosVars, p2)
    ensures p1 == p2
  {
    RecipeSupported(m, ma, fs, img, biosCode, biosVars, p1);
    RecipeSupported(m, ma, fs, img, biosCode, biosVars, p2);
    MonitorTailInjective("\n" + QemuBinTable[ma] + Invocation(ma, img, biosCode, biosVars), p1, p2);
  }

  /** The machine and the filesystem never shape a script. */
  lemma RecipeIgnoresMachineAndFilesystem(ma: string, img: string, biosCode: string, biosVars: string, port: int,
                                          m1: string, fs1: string, m2: string, fs2: string)
    ensures QemuRecipe(m1, ma, fs1, img, biosCode, biosVars, port)
              == QemuRecipe(m2, ma, fs2, img, biosCode, biosVars, port)
  {
  }

  /** The firmware images appear only where the branch attaches them: the code image
      on amd64 and aarch64, the variable store on aarch64 alone. */
  lemma TrailFirmware(ma: string, code1: string, vars1: string, code2: string, vars2: string)
    requires ma in ScriptedArches
    ensures ma != "amd64" && ma != "aarch64" ==> Trail(ma, code1, vars1) == Trail(ma, code2, vars2)
    ensures ma == "amd64" ==> Trail(ma, code1, vars1) == Trail(ma, code1, vars2)
  {
  }

  /** Which firmware a script depends on: the code image only on amd64 and aarch64,
      where it is attached as a flash drive; the variable store only on aarch64. */
  lemma RecipeFirmware(m: string, ma: string, fs: string, img: string, port: int,
                       code1: string, vars1: string, code2: string, vars2: string)
    ensures ma != "amd64" && ma != "aarch64" ==>
              QemuRecipe(m, ma, fs, img, code1, vars1, port) == QemuRecipe(m, ma, fs, img, code2, vars2, port)
    ensures ma != "aarch64" ==>
              QemuRecipe(m, ma, fs, img, code1, vars1, port) == QemuRecipe(m, ma, fs, img, code1, vars2, port)
  {
    if ma in ScriptedArches {
      TrailFirmware(ma, code1, vars1, code2, vars2);
      RecipeSupported(m, ma, fs, img, code1, vars1, port);
      RecipeSupported(m, ma, fs, img, code2, vars2, port);
      RecipeSupported(m, ma, fs, img, code1, vars2, port);
    }
  }

  /** A script carries its architecture's trailing options. */
  lemma RecipeHoldsTrail(m: string, ma: string, fs: string, img: string, port: int, code: string, vars: string)
    requires ma in ScriptedArches
    ensures Contains(QemuRecipe(m, ma, fs, img, code, vars, port), Trail(ma, code, vars))
  {
    var front := "\n" + QemuBinTable[ma] + Invocation(ma, img, code, vars);
    RecipeSupported(m, ma, fs, img, code, vars, port);
    ContainsHalves(front, MonitorTail(port));
    ContainsHalves("\n" + QemuBinTable[ma], Invocation(ma, img, code, vars));
    ContainsHalves(Lead(ma) + ("file=" + img), Trail(ma, code, vars));
    ContainsWithin(QemuRecipe(m, ma, fs, img, code, vars, port), front, Invocation(ma, img, code, vars));
    ContainsWithin(QemuRecipe(m, ma, fs, img, code, vars, port), Invocation(ma, img, code, vars),
                   Trail(ma, code, vars));
  }

  /** The amd64 options attach the code firmware. */
  lemma Amd64TrailFirmware(code: string, vars: string)
    ensures Contains(Trail("amd64", code, vars), Flash(code))
  {
    ContainsHalves(",if=none,id=drive0,cache=writeback,format=raw -device virtio-blk,drive=drive0,bootindex=0 -drive ",
                   Flash(code));
  }

  /** The aarch64 options attach both the code firmware and the variable store. */
  lemma Aarch64TrailFirmware(code: string, vars: string)
    ensures Contains(Trail("aarch64", code, vars), Flash(code))
    ensures Contains(Trail("aarch64", code, vars), Flash(vars))
  {
    var trail := Trail("aarch64", code, vars);
    var withCode := ",if=none,id=drive0 -drive " + Flash(code);
    var beforeVars := withCode + ",readonly=on -drive ";
    var withVars := beforeVars + Flash(vars);
    ContainsHalves(withVars, " -device virtio-blk-device,drive=drive0");
    ContainsHalves(beforeVars, Flash(vars));
    ContainsWithin(trail, withVars, Flash(vars));
    ContainsHalves(withCode, ",readonly=on -drive ");
    ContainsWithin(trail, withVars, beforeVars);
    ContainsWithin(trail, beforeVars, withCode);
    ContainsHalves(",if=none,id=drive0 -drive ", Flash(code));
    ContainsWithin(trail, withCode, Flash(code));
  }

  /** Where a script attaches firmware, it names the file as a raw flash drive. */
  lemma RecipeAttachesFirmware(m: string, ma: string, fs: string, img: string, port: int,
                               code: string, vars: string)
    ensures ma == "amd64" || ma == "aarch64" ==>
              Contains(QemuRecipe(m, ma, fs, img, code, vars, port), "file=" + code + ",format=raw,if=pflash")
    ensures ma == "aarch64" ==>
              Contains(QemuRecipe(m, ma, fs, img, code, vars, port), "file=" + vars + ",format=raw,if=pflash")
  {
    if ma == "amd64" {
      RecipeHoldsTrail(m, ma, fs, img, port, code, vars);
      Amd64TrailFirmware(code, vars);
      ContainsWithin(QemuRecipe(m, ma, fs, img, code, vars, port), Trail(ma, code, vars), Flash(code));
    } else if ma == "aarch64" {
      RecipeHoldsTrail(m, ma, fs, img, port, code, vars);
      Aarch64TrailFirmware(code, vars);
      ContainsWithin(QemuRecipe(m, ma, fs, img, code, vars, port), Trail(ma, code, vars), Flash(code));
      ContainsWithin(QemuRecipe(m, ma, fs, img, code, vars, port), Trail(ma, code, vars), Flash(vars));
    }
  }
}
