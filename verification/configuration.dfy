/** One build-and-boot configuration (`Config` in src/core/configuration.py): the
    validated architecture, filesystem, partition scheme and encryption, and every
    name, URL and file text derived from them. */
module Configuration {
  import opened Results
  import opened Strings

  const UrlBase: string := "https://download.freebsd.org/ftp/releases"

  /** The configuration's own catalogues. They differ from the recipe expander's:
      `powerpc:powerc64` is spelled as the program spells it, and there are
      `arm:arm`, `arm:armv6`, `powerpc:powerpc`, `ffs` and `geom` besides. */
  const ValidArches: seq<string> :=
    ["amd64:amd64", "arm64:aarch64", "arm:armv7", "riscv:riscv64",
     "powerpc:powerc64", "arm:arm", "arm:armv6", "powerpc:powerpc"]
  const ValidFilesystems: seq<string> := ["ufs", "zfs", "ffs"]
  const ValidInterfaces: seq<string> := ["gpt", "mbr"]
  const ValidEncryptions: seq<string> := ["geom", "geli", "none"]

  /** Each valid architecture as its `machine:machine_arch` halves. */
  const ArchTable: seq<(string, string)> :=
    [("amd64", "amd64"), ("arm64", "aarch64"), ("arm", "armv7"), ("riscv", "riscv64"),
     ("powerpc", "powerc64"), ("arm", "arm"), ("arm", "armv6"), ("powerpc", "powerpc")]

  /** The architectures whose default image is the SD-card image rather than the ISO. */
  const GenericImageArches: seq<string> := ["arm:armv7", "arm:armv6", "arm:arm"]

  const DefaultEncryption: string := "none"
  const DefaultVersion: string := "13.2"
  const ZfsPool: string := "tank"
  const UfsRootDevice: string := "/dev/ufs/root"

  /** The line the boot-test `/etc/rc` prints once the loaded system runs it. */
  const SuccessMarker: string := "RC COMMAND RUNNING -- SUCCESS!!!"

  /** `get_rc_conf`: report the boot method, print the marker, power off. */
  const RcConf: string :=
    "\n#!/bin/sh\nsysctl machdep.bootmethod\necho \"" + SuccessMarker + "\"\n" + PowerOff + "\n        "

  const PowerOff: string := "halt -p"

  /** `get_loader_conf`. */
  const LoaderConf: string :=
    "\ncomconsole_speed=115200\nautoboot_delay=2\nzfs_load=\"YES\"\nboot_verbose=yes\nkern.cfg.order=\"acpi,fdt\"\n"

  datatype ConfigError =
    | InvalidArch(arch: string)
    | InvalidFilesystem(filesystem: string)
    | InvalidInterface(interface: string)
    | InvalidEncryption(encryption: string)
  {
    /** The rejected value. */
    function Value(): string
    {
      match this
      case InvalidArch(v) => v
      case InvalidFilesystem(v) => v
      case InvalidInterface(v) => v
      case InvalidEncryption(v) => v
    }

    /** The catalogue the value was checked against. */
    function Catalogue(): seq<string>
    {
      match this
      case InvalidArch(_) => ValidArches
      case InvalidFilesystem(_) => ValidFilesystems
      case InvalidInterface(_) => ValidInterfaces
      case InvalidEncryption(_) => ValidEncryptions
    }

    /** The field's name in the message, singular and plural. */
    function Noun(): (string, string)
    {
      match this
      case InvalidArch(_) => ("arch", "arches")
      case InvalidFilesystem(_) => ("filesystem", "filesystems")
      case InvalidInterface(_) => ("interface", "interfaces")
      case InvalidEncryption(_) => ("encryption", "encryptions")
    }

    /** The text of the `ValueError` the validators raise. */
    function Message(): string
    {
      "Invalid " + Noun().0 + ": " + Value() + (". Valid " + Noun().1 + " are: ")
        + JoinWith(Catalogue(), ", ")
    }
  }

  datatype Config = Config(
    arch: string,
    machine: string,
    machineArch: string,
    machineCombo: string,
    filesystem: string,
    interface: string,
    encryption: string,
    version: string,
    flavor: string,
    imgFile: string,
    imgUrl: string,
    port: int,
    identifier: string,
    rcConf: string,
    loaderConf: string,
    fstabConf: string)

  /** Python's `value or default` for an optional string: `None` and `""` are both
      false, so both fall back to the default. */
  function OrElse(value: Option<string>, default: string): (r: string)
    ensures value.Some? && value.value != "" ==> r == value.value
    ensures value.None? || value.value == "" ==> r == default
  {
    if value.Some? && value.value != "" then value.value else default
  }

  /** `get_machine_combo`: `machine-machine_arch`, or the machine architecture alone
      when both halves are the same word. */
  function MachineCombo(m: string, ma: string): string
  {
    if m != ma then m + "-" + ma else ma
  }

  /** `get_flavor`. */
  function DefaultFlavor(arch: string): string
  {
    if arch in GenericImageArches then "GENERIC.img" else "bootonly.iso"
  }

  /** `get_image_file`: the release image's file name. */
  function ImageFile(mc: string, flavor: string, version: string): string
  {
    "FreeBSD-" + version + "-RELEASE-" + mc + "-" + flavor
  }

  /** `get_img_url`: where the compressed release image is downloaded from. */
  function ImgUrl(m: string, ma: string, version: string, imgFile: string): string
  {
    UrlBase + "/" + m + "/" + ma + "/ISO-IMAGES/" + version + "/" + imgFile + ".xz"
  }

  /** `get_identifier_name`: names the configuration's artefacts. */
  function Identifier(version: string, mc: string, fs: string, iface: string, enc: string): string
  {
    "FreeBSD-" + version + "-" + mc + "-" + fs + "-" + iface + "-" + enc
  }

  /** `get_fstab_conf`: mount the ZFS pool, or the UFS partition labelled `root`. */
  function Fstab(fs: string): string
  {
    if fs == "zfs" then ZfsPool + " / zfs rw 1 1" else UfsRootDevice + " / ufs rw 1 1"
  }

  /** The four validators in the order the constructor calls them; the first that
      rejects its value raises. */
  function Validate(arch: string, fs: string, iface: string, enc: string): (r: Result<(), ConfigError>)
    ensures r.Success? <==>
              arch in ValidArches && fs in ValidFilesystems && iface in ValidInterfaces && enc in ValidEncryptions
    ensures r.Failure? ==> r.error.Value() !in r.error.Catalogue()
    ensures arch !in ValidArches ==> r == Failure(InvalidArch(arch))
    ensures arch in ValidArches && fs !in ValidFilesystems ==> r == Failure(InvalidFilesystem(fs))
    ensures arch in ValidArches && fs in ValidFilesystems && iface !in ValidInterfaces
            ==> r == Failure(InvalidInterface(iface))
    ensures arch in ValidArches && fs in ValidFilesystems && iface in ValidInterfaces && enc !in ValidEncryptions
            ==> r == Failure(InvalidEncryption(enc))
  {
    if arch !in ValidArches then Failure(InvalidArch(arch))
    else if fs !in ValidFilesystems then Failure(InvalidFilesystem(fs))
    else if iface !in ValidInterfaces then Failure(InvalidInterface(iface))
    else if enc !in ValidEncryptions then Failure(InvalidEncryption(enc))
    else Success(())
  }

  /** Every valid architecture is the two halves of its table row around one colon. */
  lemma ArchSplits(i: nat)
    requires i < |ValidArches|
    ensures Split(ValidArches[i], ':') == [ArchTable[i].0, ArchTable[i].1]
    ensures ValidArches[i] == ArchTable[i].0 + ":" + ArchTable[i].1
  {
    var (m, ma) := ArchTable[i];
    assert ':' !in m && ':' !in ma;
    ArchJoins(i);
    assert ValidArches[i] == m + [':'] + ma;
    SplitPair(m, ma, ':');
  }

  /** Each row of the table, rejoined around a colon, is the valid architecture. */
  lemma ArchJoins(i: nat)
    requires i < |ValidArches|
    ensures ValidArches[i] == ArchTable[i].0 + ":" + ArchTable[i].1
  {
    if i == 0 {
    } else if i == 1 {
    } else if i == 2 {
    } else if i == 3 {
    } else if i == 4 {
    } else if i == 5 {
    } else if i == 6 {
    } else {
    }
  }

  /** A valid architecture splits on its one colon into machine and machine
      architecture. */
  lemma ValidArchSplits(arch: string)
    requires arch in ValidArches
    ensures |Split(arch, ':')| == 2
    ensures Split(arch, ':')[0] + ":" + Split(arch, ':')[1] == arch
  {
    var i :| 0 <= i < |ValidArches| && ValidArches[i] == arch;
    ArchSplits(i);
  }

  /** `Config(...)`: validation first, then the derived fields, each optional input
      falling back to its default when absent or empty. */
  function NewConfig(arch: string, filesystem: string, interface: string, flavor: Option<string>,
                     imgFile: Option<string>, imgUrl: Option<string>, port: int,
                     encryption: string := DefaultEncryption,
                     version: string := DefaultVersion): (r: Result<Config, ConfigError>)
    ensures r.Failure? <==> Validate(arch, filesystem, interface, encryption).Failure?
    ensures r.Failure? ==> r.error == Validate(arch, filesystem, interface, encryption).error
    ensures r.Success? ==>
              var c := r.value;
              && c.arch == arch && c.filesystem == filesystem && c.interface == interface
              && c.encryption == encryption && c.version == version && c.port == port
              && c.machine + ":" + c.machineArch == arch
              && c.machineCombo == MachineCombo(c.machine, c.machineArch)
              && c.identifier == Identifier(version, c.machineCombo, filesystem, interface, encryption)
              && ':' !in c.machine && ':' !in c.machineArch
              && (flavor.Some? && flavor.value != "" ==> c.flavor == flavor.value)
              && (flavor.None? || flavor.value == "" ==> c.flavor == DefaultFlavor(arch))
              && (imgFile.Some? && imgFile.value != "" ==> c.imgFile == imgFile.value)
              && (imgFile.None? || imgFile.value == "" ==> c.imgFile == ImageFile(c.machineCombo, c.flavor, version))
              && (imgUrl.Some? && imgUrl.value != "" ==> c.imgUrl == imgUrl.value)
              && (imgUrl.None? || imgUrl.value == "" ==> c.imgUrl == ImgUrl(c.machine, c.machineArch, version, c.imgFile))
              && c.rcConf == RcConf && c.loaderConf == LoaderConf && c.fstabConf == Fstab(filesystem)
  {
    var _ :- Validate(arch, filesystem, interface, encryption);
    ValidArchSplits(arch);
    var parts := Split(arch, ':');
    var machine := parts[0];
    var machineArch := parts[1];
    var combo := MachineCombo(machine, machineArch);
    var fl := OrElse(flavor, DefaultFlavor(arch));
    var img := OrElse(imgFile, ImageFile(combo, fl, version));
    var url := OrElse(imgUrl, ImgUrl(machine, machineArch, version, img));
    Success(Config(arch, machine, machineArch, combo, filesystem, interface, encryption, version,
                   fl, img, url, port, Identifier(version, combo, filesystem, interface, encryption),
                   RcConf, LoaderConf, Fstab(filesystem)))
  }

  // ---------------------------------------------------------------------------
  // Error messages

  /** A message built as head, value, middle, listing names the value and every
      listed entry. */
  lemma {:induction false} MessageParts(head: string, value: string, middle: string, entries: seq<string>)
    ensures Contains(head + value + middle + JoinWith(entries, ", "), value)
    ensures forall k :: 0 <= k < |entries| ==>
              Contains(head + value + middle + JoinWith(entries, ", "), entries[k])
  {
    var listing := JoinWith(entries, ", ");
    assert head + value + middle + listing == head + value + (middle + listing);
    ContainsMiddle(head, value, middle + listing);
    forall k | 0 <= k < |entries|
      ensures Contains(head + value + middle + listing, entries[k])
    {
      JoinWithContains(entries, ", ", k);
      ContainsAfter(head + value + middle, listing, entries[k]);
    }
  }

  /** The message names the rejected value and lists every valid one. */
  lemma MessageSpec(e: ConfigError)
    ensures Contains(e.Message(), e.Value())
    ensures forall k :: 0 <= k < |e.Catalogue()| ==> Contains(e.Message(), e.Catalogue()[k])
  {
    MessageParts("Invalid " + e.Noun().0 + ": ", e.Value(), ". Valid " + e.Noun().1 + " are: ", e.Catalogue());
  }

  // ---------------------------------------------------------------------------
  // Derived names

  /** The halves of every valid architecture contain neither `:` nor `-`. */
  lemma ArchHalvesPlain(i: nat)
    requires i < |ArchTable|
    ensures ':' !in ArchTable[i].0 && ':' !in ArchTable[i].1
    ensures '-' !in ArchTable[i].0 && '-' !in ArchTable[i].1
  {
  }

  /** The machine combination splits back into its halves: both when they differ,
      the shared word when they agree. */
  lemma MachineComboSplit(m: string, ma: string)
    requires '-' !in m && '-' !in ma
    ensures Split(MachineCombo(m, ma), '-') == if m == ma then [ma] else [m, ma]
  {
    if m != ma {
      SplitPair(m, ma, '-');
    } else {
      SplitFree(ma, '-');
    }
  }

  /** Different dash-free halves never give the same machine combination. */
  lemma MachineComboInjective(m1: string, ma1: string, m2: string, ma2: string)
    requires '-' !in m1 && '-' !in ma1 && '-' !in m2 && '-' !in ma2
    requires MachineCombo(m1, ma1) == MachineCombo(m2, ma2)
    ensures m1 == m2 && ma1 == ma2
  {
    MachineComboSplit(m1, ma1);
    MachineComboSplit(m2, ma2);
  }

  /** The machine combination of a valid architecture, as the constructor derives it. */
  function ComboOf(arch: string): string
    requires arch in ValidArches
  {
    ValidArchSplits(arch);
    MachineCombo(Split(arch, ':')[0], Split(arch, ':')[1])
  }

  /** Distinct valid architectures have distinct machine combinations, so the
      per-combination directories of two architectures never coincide. */
  lemma ComboInjective(a1: string, a2: string)
    requires a1 in ValidArches && a2 in ValidArches
    requires ComboOf(a1) == ComboOf(a2)
    ensures a1 == a2
  {
    var i :| 0 <= i < |ValidArches| && ValidArches[i] == a1;
    var j :| 0 <= j < |ValidArches| && ValidArches[j] == a2;
    ArchSplits(i);
    ArchSplits(j);
    ArchHalvesPlain(i);
    ArchHalvesPlain(j);
    MachineComboInjective(ArchTable[i].0, ArchTable[i].1, ArchTable[j].0, ArchTable[j].1);
  }

  lemma DefaultFlavorAt(i: nat)
    requires i < |ValidArches|
    ensures DefaultFlavor(ValidArches[i]) == "GENERIC.img" <==> ArchTable[i].0 == "arm"
  {
  }

  /** The default image is the SD-card image exactly for the `arm` machine. */
  lemma DefaultFlavorByMachine(arch: string)
    requires arch in ValidArches
    ensures DefaultFlavor(arch) == "GENERIC.img" <==> Split(arch, ':')[0] == "arm"
    ensures DefaultFlavor(arch) != "GENERIC.img" ==> DefaultFlavor(arch) == "bootonly.iso"
  {
    var i :| 0 <= i < |ValidArches| && ValidArches[i] == arch;
    ArchSplits(i);
    DefaultFlavorAt(i);
  }

  /** The identifier ends with the filesystem, partition scheme and encryption as its
      last three `-`-separated fields. */
  lemma IdentifierFields(version: string, mc: string, fs: string, iface: string, enc: string)
    requires '-' !in fs && '-' !in iface && '-' !in enc
    ensures Split(Identifier(version, mc, fs, iface, enc), '-')
              == Split("FreeBSD-" + version + "-" + mc, '-') + [fs, iface, enc]
  {
    var head := "FreeBSD-" + version + "-" + mc;
    var tail := fs + "-" + iface + "-" + enc;
    assert Identifier(version, mc, fs, iface, enc) == head + ['-'] + tail;
    assert tail == fs + ['-'] + (iface + ['-'] + enc);
    SplitConcat(head, tail, '-');
    SplitConcat(fs, iface + ['-'] + enc, '-');
    SplitPair(iface, enc, '-');
    SplitFree(fs, '-');
  }

  /** Two sequences that end in three entries each are equal only if their fronts
      and their ends are. */
  lemma ThreeTailsEqual(s1: seq<string>, x1: string, y1: string, z1: string,
                        s2: seq<string>, x2: string, y2: string, z2: string)
    requires s1 + [x1, y1, z1] == s2 + [x2, y2, z2]
    ensures s1 == s2 && x1 == x2 && y1 == y2 && z1 == z2
  {
    var whole := s1 + [x1, y1, z1];
    assert |s1| == |s2|;
    assert whole[..|s1|] == s1;
    assert (s2 + [x2, y2, z2])[..|s2|] == s2;
    assert whole[|s1|] == x1 && whole[|s1| + 1] == y1 && whole[|s1| + 2] == z1;
  }

  /** Identifiers that agree agree field by field, whatever the machine combination,
      provided the last three fields contain no `-`. */
  lemma IdentifierFieldsEqual(version: string, c1: string, fs1: string, i1: string, e1: string,
                              c2: string, fs2: string, i2: string, e2: string)
    requires '-' !in fs1 && '-' !in i1 && '-' !in e1
    requires '-' !in fs2 && '-' !in i2 && '-' !in e2
    requires Identifier(version, c1, fs1, i1, e1) == Identifier(version, c2, fs2, i2, e2)
    ensures c1 == c2 && fs1 == fs2 && i1 == i2 && e1 == e2
  {
    IdentifierFields(version, c1, fs1, i1, e1);
    IdentifierFields(version, c2, fs2, i2, e2);
    var prefix := "FreeBSD-" + version + "-";
    assert "FreeBSD-" + version + "-" + c1 == prefix + c1;
    assert "FreeBSD-" + version + "-" + c2 == prefix + c2;
    ThreeTailsEqual(Split(prefix + c1, '-'), fs1, i1, e1, Split(prefix + c2, '-'), fs2, i2, e2);
    SplitInjective(prefix + c1, prefix + c2, '-');
    CancelPrefix(prefix, c1, c2);
  }

  /** No catalogue value contains `-`. */
  lemma CataloguesDashFree()
    ensures forall k :: 0 <= k < |ValidFilesystems| ==> '-' !in ValidFilesystems[k]
    ensures forall k :: 0 <= k < |ValidInterfaces| ==> '-' !in ValidInterfaces[k]
    ensures forall k :: 0 <= k < |ValidEncryptions| ==> '-' !in ValidEncryptions[k]
  {
  }

  /** Valid axis values always construct a configuration. */
  lemma ValidConstructs(arch: string, filesystem: string, interface: string, flavor: Option<string>,
                        imgFile: Option<string>, imgUrl: Option<string>, port: int,
                        encryption: string, version: string)
    requires arch in ValidArches && filesystem in ValidFilesystems
    requires interface in ValidInterfaces && encryption in ValidEncryptions
    ensures NewConfig(arch, filesystem, interface, flavor, imgFile, imgUrl, port, encryption, version).Success?
  {
    assert Validate(arch, filesystem, interface, encryption).Success?;
  }

  /** For one release version, the identifier tells configurations apart: equal
      identifiers mean equal architecture, filesystem, scheme and encryption. */
  lemma IdentifierInjective(version: string, a1: string, fs1: string, i1: string, e1: string,
                            a2: string, fs2: string, i2: string, e2: string)
    requires a1 in ValidArches && fs1 in ValidFilesystems && i1 in ValidInterfaces && e1 in ValidEncryptions
    requires a2 in ValidArches && fs2 in ValidFilesystems && i2 in ValidInterfaces && e2 in ValidEncryptions
    requires Identifier(version, ComboOf(a1), fs1, i1, e1) == Identifier(version, ComboOf(a2), fs2, i2, e2)
    ensures a1 == a2 && fs1 == fs2 && i1 == i2 && e1 == e2
  {
    CataloguesDashFree();
    IdentifierFieldsEqual(version, ComboOf(a1), fs1, i1, e1, ComboOf(a2), fs2, i2, e2);
    ComboInjective(a1, a2);
  }

  /** The download URL is the base URL's segments followed by machine, machine
      architecture, `ISO-IMAGES`, version and the compressed image name. */
  lemma ImgUrlSegments(m: string, ma: string, version: string, imgFile: string)
    requires '/' !in m && '/' !in ma && '/' !in version && '/' !in imgFile
    ensures Split(ImgUrl(m, ma, version, imgFile), '/')
              == Split(UrlBase, '/') + [m, ma, "ISO-IMAGES", version, imgFile + ".xz"]
    ensures LastPiece(ImgUrl(m, ma, version, imgFile), '/') == imgFile + ".xz"
  {
    UrlSegmentsUnder(UrlBase, m, ma, version, imgFile);
  }

  /** `ImgUrlSegments` for any base. */
  lemma UrlSegmentsUnder(base: string, m: string, ma: string, version: string, imgFile: string)
    requires '/' !in m && '/' !in ma && '/' !in version && '/' !in imgFile
    ensures Split(base + "/" + m + "/" + ma + "/ISO-IMAGES/" + version + "/" + imgFile + ".xz", '/')
              == Split(base, '/') + [m, ma, "ISO-IMAGES", version, imgFile + ".xz"]
    ensures LastPiece(base + "/" + m + "/" + ma + "/ISO-IMAGES/" + version + "/" + imgFile + ".xz", '/')
              == imgFile + ".xz"
  {
    var p1 := base + "/" + m;
    var p2 := p1 + "/" + ma;
    var p3 := p2 + "/ISO-IMAGES/" + version;
    SplitSnoc(base, m, '/');
    SplitSnoc(p1, ma, '/');
    IsoImagesSegment(p2, version);
    SplitSnocSuffix(p3, imgFile, ".xz", '/');
    FiveMore(Split(base, '/'), m, ma, "ISO-IMAGES", version, imgFile + ".xz");
  }

  /** The `/ISO-IMAGES/` directory adds its own piece before the next one. */
  lemma IsoImagesSegment(a: string, b: string)
    requires '/' !in b
    ensures Split(a + "/ISO-IMAGES/" + b, '/') == Split(a, '/') + ["ISO-IMAGES", b]
  {
    assert a + "/ISO-IMAGES/" + b == a + "/" + "ISO-IMAGES" + "/" + b;
    SplitSnoc(a, "ISO-IMAGES", '/');
    SplitSnoc(a + "/" + "ISO-IMAGES", b, '/');
  }

  lemma FiveMore(s: seq<string>, a: string, b: string, c: string, d: string, e: string)
    ensures s + [a] + [b] + [c, d] + [e] == s + [a, b, c, d, e]
  {
  }

  /** The image file name ends with the flavor as its last `-`-separated field. */
  lemma ImageFileFlavor(mc: string, flavor: string, version: string)
    requires '-' !in flavor
    ensures LastPiece(ImageFile(mc, flavor, version), '-') == flavor
  {
    assert ImageFile(mc, flavor, version) == "FreeBSD-" + version + "-RELEASE-" + mc + ['-'] + flavor;
    LastPieceAfter("FreeBSD-" + version + "-RELEASE-" + mc, flavor, '-');
  }

  /** With no overrides the constructor derives the download from the architecture
      alone: the flavour is the architecture's default, the image name ends with it,
      and the URL fetches that image, compressed, from the release's `ISO-IMAGES`
      directory for the machine and machine architecture. */
  lemma DefaultDownload(arch: string, filesystem: string, interface: string, port: int,
                        encryption: string, version: string)
    requires arch in ValidArches && filesystem in ValidFilesystems
    requires interface in ValidInterfaces && encryption in ValidEncryptions
    requires '/' !in version
    ensures NewConfig(arch, filesystem, interface, None, None, None, port, encryption, version).Success?
    ensures var c := NewConfig(arch, filesystem, interface, None, None, None, port, encryption, version).value;
            && c.flavor == DefaultFlavor(arch)
            && LastPiece(c.imgFile, '-') == c.flavor
            && Split(c.imgUrl, '/')
               == Split(UrlBase, '/') + [c.machine, c.machineArch, "ISO-IMAGES", version, c.imgFile + ".xz"]
  {
    ValidConstructs(arch, filesystem, interface, None, None, None, port, encryption, version);
    var c := NewConfig(arch, filesystem, interface, None, None, None, port, encryption, version).value;
    ValidArchSlashFree(arch);
    assert arch == c.machine + ":" + c.machineArch;
    DefaultImage(c.machine, c.machineArch, DefaultFlavor(arch), version);
  }

  /** No valid architecture contains `/`. */
  lemma ValidArchSlashFree(arch: string)
    requires arch in ValidArches
    ensures '/' !in arch
  {
  }

  /** The default image name and URL for slash-free machine halves, flavour and
      version. */
  lemma DefaultImage(m: string, ma: string, flavor: string, version: string)
    requires '/' !in m && '/' !in ma && '/' !in version
    requires flavor in ["GENERIC.img", "bootonly.iso"]
    ensures var img := ImageFile(MachineCombo(m, ma), flavor, version);
            && LastPiece(img, '-') == flavor
            && Split(ImgUrl(m, ma, version, img), '/')
               == Split(UrlBase, '/') + [m, ma, "ISO-IMAGES", version, img + ".xz"]
  {
    var img := ImageFile(MachineCombo(m, ma), flavor, version);
    ImageFileFlavor(MachineCombo(m, ma), flavor, version);
    assert '/' !in MachineCombo(m, ma);
    assert '/' !in img;
    ImgUrlSegments(m, ma, version, img);
  }

  /** An fstab line splits on spaces into its six fields. */
  lemma FstabLine(dev: string, kind: string)
    requires ' ' !in dev && ' ' !in kind
    ensures Split(dev + " / " + kind + " rw 1 1", ' ') == [dev, "/", kind, "rw", "1", "1"]
  {
    var a1 := dev + [' '] + "/";
    var a2 := a1 + [' '] + kind;
    var a3 := a2 + [' '] + "rw";
    var a4 := a3 + [' '] + "1";
    FstabText(dev, kind);
    SplitFree(dev, ' ');
    SplitSnoc(dev, "/", ' ');
    SplitSnoc(a1, kind, ' ');
    SplitSnoc(a2, "rw", ' ');
    SplitSnoc(a3, "1", ' ');
    SplitSnoc(a4, "1", ' ');
    SixPieces(dev, "/", kind, "rw", "1", "1");
  }

  lemma FstabText(dev: string, kind: string)
    ensures dev + " / " + kind + " rw 1 1"
         == dev + [' '] + "/" + [' '] + kind + [' '] + "rw" + [' '] + "1" + [' '] + "1"
  {
  }

  lemma SixPieces(a: string, b: string, c: string, d: string, e: string, f: string)
    ensures [a] + [b] + [c] + [d] + [e] + [f] == [a, b, c, d, e, f]
  {
  }

  /** The fstab line: device, mount point `/`, filesystem type, options and the
      dump and pass numbers. The device is the ZFS pool exactly when the filesystem
      is `zfs`; every other filesystem, `ffs` included, mounts the UFS root label. */
  lemma FstabFields(fs: string)
    ensures Split(Fstab(fs), ' ')
              == if fs == "zfs" then [ZfsPool, "/", "zfs", "rw", "1", "1"]
                 else [UfsRootDevice, "/", "ufs", "rw", "1", "1"]
  {
    if fs == "zfs" {
      assert Fstab(fs) == ZfsPool + " / " + "zfs" + " rw 1 1";
      FstabLine(ZfsPool, "zfs");
    } else {
      assert Fstab(fs) == UfsRootDevice + " / " + "ufs" + " rw 1 1";
      FstabLine(UfsRootDevice, "ufs");
    }
  }

  /** The boot-test `/etc/rc` prints the success marker before powering off. */
  lemma RcConfSignalsSuccess()
    ensures Contains(RcConf, SuccessMarker)
    ensures Contains(RcConf, PowerOff)
  {
    var head := "\n#!/bin/sh\nsysctl machdep.bootmethod\necho \"";
    var echo := head + SuccessMarker;
    var beforeHalt := echo + "\"\n";
    var withHalt := beforeHalt + PowerOff;
    ContainsHalves(withHalt, "\n        ");
    ContainsHalves(beforeHalt, PowerOff);
    ContainsWithin(RcConf, withHalt, PowerOff);
    ContainsHalves(echo, "\"\n");
    ContainsWithin(RcConf, withHalt, beforeHalt);
    ContainsWithin(RcConf, beforeHalt, echo);
    ContainsHalves(head, SuccessMarker);
    ContainsWithin(RcConf, echo, SuccessMarker);
  }
}
