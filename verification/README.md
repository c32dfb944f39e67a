# bootbaker in Dafny

bootbaker builds FreeBSD boot-test images and the QEMU launch scripts that boot
them. Here its configuration logic is modelled and proved in Dafny. The model
covers five parts:

- **Recipe expansion** (`Parser`). A pattern `arch-fs-interface-encryption`,
  where any field may be `*`, expands to the Cartesian product over the parser's
  catalogues. The result is then filtered against the universe of all
  combinations minus the blacklist.
- **The target description** (`Configuration`). The four axis values are
  validated against the configuration's own catalogues. Every other field is
  derived from them: machine combination, default flavour, image name, download
  URL, identifier, and the `/etc/rc`, `loader.conf` and `fstab` texts.
- **The tables and the launch-script template** (`FreeBSDUtils`). These are the
  emulator binaries, the EFI boot file names and the per-architecture QEMU
  command line.
- **The build pipeline** (`Builder`). It has seven stages over an abstract
  world: the set of files the pipeline has found or created (removals are not
  recorded), the texts written to files, and a log of the external effects. The stages are the image cache state machine, the tree
  stages, the ESP, the `makefs`/`mkimg` command lines, the artefact names, and
  the launch script. The builder's image path is overwritten with the assembled
  disk image, and the launch script is written for that path.
- **The scheduler's bookkeeping** (`ResourceManager`). This covers the worker
  count, the counters each outcome moves, the log file name and the summary.

Supporting modules:

- `Strings`: Python's `split`, `join` and `replace`, and integer formatting.
- `Paths`: POSIX `os.path.join`.
- `Product`: `itertools.product` and its ordering.
- `Results`: `Option` and `Result`.

The parser's catalogues are deliberately kept apart from the configuration's,
because they disagree. The parser expands to `i386:i386`, `powerpc:powerpc64`
and `powerpc:powerpc64le`, and the configuration rejects all three
(`Parser.ExpandedAgainstConfiguration`). The configuration accepts
`powerpc:powerc64`, spelled that way, which has no boot file.

Behaviour the model takes from the program as written:

- A test passes on exit status 0 alone. No success marker is looked for in the
  log.
- The timeout is 90 seconds.
- Logs go to `../runs/<script name with .sh replaced by .txt>`.
- As written, a timeout is never counted, because the handler raises (see Findings).
  The scheduler rows marked "corrected" model the handler as evidently intended.

Python semantics made explicit:

- In the launch-script templates, a backslash at the end of a line inside the
  non-raw f-string is a line continuation. Each script is therefore one command
  line between a leading and a trailing newline.
- `x or default` falls back on both `None` and `""`.
- `os.path.join` lets an absolute component replace what came before it.
- The 0.75 memory factor is the integer quotient `3·available / (4·512 MiB)`.
- The cache stage looks for `os.path.join(CACHE_DIR, img_file)`, while the tar
  extraction reads `CACHE_DIR + "/" + img_file`. For an absolute image name these
  are different files (`Builder.CachedArchiveAgrees`). No caller in the
  repository passes an image name, so every build uses the relative default, and
  this is recorded as an observation rather than a finding.

## Model

| member | source | states |
|---|---|---|
| Parser.ParseRegex | src/core/parser.py:33 | a pattern is accepted only as four fields free of `-`; anything else is a field-count error whose count is not 4 |
| Parser.ParseRegexSpec | src/core/parser.py:33 | parsing succeeds exactly when the pattern has three `-`, and the parsed fields joined with `-` give the pattern back |
| Parser.RegexRoundTrip | src/core/parser.py:28-33 | splitting the string of a dash-free combination returns the combination |
| Parser.RegexInjective | src/core/parser.py:28-30 | two dash-free combinations with the same string are the same combination |
| Parser.CataloguesDashFree | src/core/parser.py:9-12 | no catalogue value contains `-` or is `*` |
| Parser.CataloguesNoDuplicates | src/core/parser.py:9-12 | each catalogue lists every value once |
| Parser.Expand | src/core/parser.py:34-41 | the expansion has as many combinations as the product of the option-list lengths |
| Parser.ExpandMembership | src/core/parser.py:34-41 | a combination is in the expansion iff each field is in its option list: the whole catalogue for `*`, the literal alone otherwise |
| Parser.ExpandOrdered | src/core/parser.py:41 | the expansion is in `itertools.product` order: strictly increasing by catalogue position, arch first, so without repeats |
| Product.ProductMembership | src/core/parser.py:41 | a tuple is in the product iff it has one entry per list, each taken from its list |
| Product.ProductSorted | src/core/parser.py:41 | the product of duplicate-free lists is strictly increasing in lexicographic position order |
| Product.CartesianProduct | src/core/parser.py:41 | the product has the product of the lengths many tuples, each as long as the list of lists |
| Parser.CombinationsFromRegexSpec | src/core/parser.py:32-45 | expansion succeeds iff the pattern has four fields; its strings are distinct, one per expanded combination, and each parses back to one |
| Parser.AllWildcardsYield56 | src/core/parser.py:51 | `*-*-*-*` expands to the 56-string universe |
| Parser.BlacklistFacts | src/core/parser.py:13 | the blacklist expands to 4 distinct strings |
| Parser.BlacklistInUniverse | src/core/parser.py:51-55 | every blacklisted string is in the universe |
| Parser.ValidSetSize | src/core/parser.py:61-63 | universe minus blacklist has 52 elements |
| Parser.Filter | src/core/parser.py:65 | an element survives iff it was requested and is allowed, and the result is no longer than the request |
| Parser.FilterSpec | src/core/parser.py:61-65 | the valid list holds exactly the requested strings in the universe and not blacklisted, as an order-preserving subsequence, duplicate-free when the request is |
| Parser.ValidSpec | src/core/parser.py:48-67 | the valid combinations of a four-field pattern are the requested ones in universe minus blacklist, in request order, distinct, at most 52; other patterns are errors |
| Parser.UnknownLiteralDropped | src/core/parser.py:58-65 | a literal field outside its catalogue makes the result empty, not an error |
| Parser.BlacklistedPatternYieldsNothing | src/core/parser.py:53-65 | a pattern whose whole expansion is blacklisted yields the empty list |
| Parser.RiscvMbrYieldsNothing | src/core/parser.py:13 | `riscv:riscv64-*-mbr-none` yields the empty list |
| Parser.ExpandedAgainstConfiguration | src/core/parser.py:9 | a fully expanded combination passes configuration validation iff its arch is not `i386:i386`, `powerpc:powerpc64` or `powerpc:powerpc64le`, and otherwise fails with an invalid-arch error |
| Configuration.Validate | src/core/configuration.py:73-87 | validation succeeds iff all four values are in their catalogues; otherwise the first rejected value, in the order arch, filesystem, interface, encryption, is reported with its kind and is not in its catalogue |
| Configuration.MessageSpec | src/core/configuration.py:73-87 | the error message names the rejected value and every catalogue entry |
| Configuration.NewConfig | src/core/configuration.py:10-35 | construction fails iff validation does, with the same error; otherwise machine and machine arch are the colon halves of the arch, non-empty overrides are kept, a `None` or `""` flavour, image name or URL falls back to its default (flavour by arch, image name from combination, flavour and version, URL from the machine halves, version and image name), and the rc, loader and fstab texts are the fixed ones |
| Configuration.DefaultDownload | src/core/configuration.py:24-26 | with no overrides, a valid configuration gets its arch's default flavour, an image name ending in that flavour, and a URL whose segments are the base, machine, machine arch, `ISO-IMAGES`, version and image name plus `.xz` |
| Configuration.OrElse | src/core/configuration.py:25-27 | a non-empty override is kept; `None` and `""` both fall back to the default |
| Configuration.ArchSplits | src/core/configuration.py:18-19 | every valid arch splits at its one colon into its table halves |
| Configuration.MachineComboSplit | src/core/configuration.py:37-38 | the combination splits on `-` into both halves, or into one when they are equal |
| Configuration.MachineComboInjective | src/core/configuration.py:37-38 | dash-free halves are recovered from their combination |
| Configuration.ComboInjective | src/core/configuration.py:18-20 | distinct valid arches have distinct machine combinations |
| Configuration.DefaultFlavorByMachine | src/core/configuration.py:40-41 | the default flavour is `GENERIC.img` exactly for the `arm` arches and `bootonly.iso` for the rest |
| Configuration.ImageFileFlavor | src/core/configuration.py:43-44 | the image name ends with the flavour after its last `-` |
| Configuration.ImgUrlSegments | src/core/configuration.py:46-47 | the URL is the base followed by the segments machine, machine arch, `ISO-IMAGES`, version and image name plus `.xz` |
| Configuration.IdentifierFields | src/core/configuration.py:49-50 | the identifier's last three `-` fields are filesystem, interface and encryption |
| Configuration.IdentifierInjective | src/core/configuration.py:49-50 | for one version, distinct validated (arch, fs, interface, encryption) give distinct identifiers |
| Configuration.FstabFields | src/core/configuration.py:69-71 | fstab mounts pool `tank` as zfs for `zfs` and `/dev/ufs/root` as ufs for every other filesystem, `ffs` included |
| Configuration.RcConfSignalsSuccess | src/core/configuration.py:52-58 | the rc text contains the success marker and the `halt -p` power-off command |
| FreeBSDUtils.QemuBin | src/utils/freebsd_utils.py:6-19 | the tabled binary for a listed arch, `None` for any other |
| FreeBSDUtils.QemuBinSpec | src/utils/freebsd_utils.py:7-16 | every binary is a distinct `/usr/local/bin/qemu-system-*` |
| FreeBSDUtils.BootUfi | src/utils/freebsd_utils.py:21-35 | the tabled boot file for a listed arch, `None` for any other |
| FreeBSDUtils.BootUfiSpec | src/utils/freebsd_utils.py:23-32 | every boot file is `boot*.efi`, and `powerpc` and `powerpc64` share one |
| FreeBSDUtils.RecipeSupported | src/utils/freebsd_utils.py:37-91 | the script is non-empty iff the arch is amd64, aarch64, riscv64, armv7 or powerpc64, and then it is a newline, that arch's binary, that arch's options and the monitor and serial tail |
| FreeBSDUtils.RecipeUsesImage | src/utils/freebsd_utils.py:40-87 | every non-empty script attaches `file=<image>` |
| FreeBSDUtils.RecipePortInjective | src/utils/freebsd_utils.py:46 | a script determines its monitor port |
| FreeBSDUtils.RecipeIgnoresMachineAndFilesystem | src/utils/freebsd_utils.py:38 | the script does not depend on the machine or filesystem arguments |
| FreeBSDUtils.RecipeFirmware | src/utils/freebsd_utils.py:38-58 | the code firmware matters only for amd64 and aarch64, the vars firmware only for aarch64 |
| FreeBSDUtils.RecipeAttachesFirmware | src/utils/freebsd_utils.py:45-54 | amd64 and aarch64 scripts attach the code firmware as pflash, aarch64 also the vars firmware |
| Paths.LastComponent | src/core/builder.py:199-201 | joining a component onto any path leaves that component after the last `/` |
| Paths.JoinComponents | src/core/builder.py:124 | joining components onto a directory adds exactly one path piece per component |
| Builder.CachePlanSpec | src/core/builder.py:44-69 | fetch iff neither the image nor its `.xz` is cached, decompress iff the image is not; afterwards the image and its `.xz` are cached and a second run does nothing |
| Builder.FormatterMatchesFstab | src/core/builder.py:179-183 | a zfs image is a pool named as the fstab device; any other is ffs labelled `root`, which fstab mounts as `/dev/ufs/root` |
| Builder.ImageArgvSpec | src/core/builder.py:187-193 | the image uses the interface as scheme, the ESP as `efi`, and the data partition `freebsd` under mbr and `freebsd-<fs>` otherwise |
| Builder.TreeRootAgrees | src/core/builder.py:197 | the filesystem is made from the same tree the minimal-tree stage filled |
| Builder.ArtifactLayout | src/core/builder.py:199-201 | ESP, filesystem and image are `freebsd-<id>.esp`, `.<fs>` and `.img` in the combination's image directory, three different files |
| Builder.ScriptLayout | src/core/builder.py:227 | the script is `<id>.sh` in the combination's script directory |
| Builder.MinimalTreeSpec | src/core/builder.py:72-121 | the tree gets the rc and loader texts; system binaries are extracted only for `bootonly.iso`, kernel files always |
| Builder.TestTreeSpec | src/core/builder.py:123-149 | both make commands target the configuration's machine and arch, and the install goes into the test stand |
| Builder.RunEsps | src/core/builder.py:151-163 | the ESP stage fails, with the machine arch, exactly when it has no boot file |
| Builder.EspsSpec | src/core/builder.py:159-163 | the loader is copied to `efi/boot/<boot file>` in the combination's ESP tree |
| Builder.ImagesSpec | src/core/builder.py:195-213 | fstab is written to the test stand, ESP, filesystem and image are made from the right inputs, and the image path is replaced by the disk image |
| Builder.ScriptsSpec | src/core/builder.py:215-231 | firmware is copied exactly when the machine is amd64 (and is then present), and the script holds the recipe for the builder's current image path |
| Builder.BuildSpec | src/core/builder.py:30-37 | the build succeeds iff the machine arch has a boot file; then seven stages ran in order, the configuration's URL was fetched into `<cache>/<image>.xz` when nothing of the image was cached, and the script boots the assembled disk image |
| Builder.UpdateFetches | src/core/builder.py:44-64 | when neither the image nor its `.xz` is cached, the cache stage fetches the configuration's URL into `<cache>/<image>.xz` |
| Builder.BuildFetches | src/core/builder.py:30-37 | a successful build with nothing of the image cached logged the fetch of the configuration's URL into `<cache>/<image>.xz` |
| Builder.ArchOutcomes | src/core/builder.py:159-162 | `powerpc:powerc64`, `arm:arm` and `arm:armv6` stop at the ESP; `powerpc:powerpc` gets an empty script; every other valid arch gets a non-empty one |
| Builder.ConfiguredOutcome | src/core/builder.py:30-37 | valid axis values always construct a configuration, and its build fails exactly for `powerpc:powerc64`, `arm:arm` and `arm:armv6` |
| Builder.CachedArchiveAgrees | src/core/builder.py:99 | tar reads the cached image for a relative image name, but not for an absolute one |
| ResourceManager.MaxWorkers | src/core/resource_manager.py:15-19 | the largest count not above the cores whose memory budget fits three quarters of the available memory |
| ResourceManager.MaxWorkersExamples | src/core/resource_manager.py:19 | 4 cores and 4 GiB give 4 workers; under 2/3 GiB gives 0 |
| ResourceManager.Consume | src/core/resource_manager.py:54-68 | exactly one counter rises: passed on status 0, failed on any other status, timed out on a timeout; the script's log becomes the notice on a timeout and the output otherwise, and every other log is unchanged (corrected, see Findings) |
| ResourceManager.ConsumeAllCounts | src/core/resource_manager.py:43-71 | each counter rises by the number of tasks with that outcome (corrected, see Findings) |
| ResourceManager.RunQueue | src/core/resource_manager.py:43-71 | from zero, the counters count the outcomes and sum to the number of tasks (corrected, see Findings) |
| ResourceManager.OrderIrrelevant | src/core/resource_manager.py:43-71 | the counters do not depend on dequeue order (corrected, see Findings) |
| ResourceManager.SummaryAccounts | src/core/resource_manager.py:103 | passed plus failed in the summary is the number of tasks, and passed is the number that exited 0 (corrected, see Findings) |
| ResourceManager.LogFileOfScript | src/core/resource_manager.py:47 | the log of `<dir>/<id>.sh` is `../runs/<id>.txt` |
| ResourceManager.BuiltScriptLog | src/core/resource_manager.py:47 | the builder's script for an identifier is logged to `../runs/<id>.txt` |
| ResourceManager.AsWrittenLosesTimeouts | src/core/resource_manager.py:61-66 | as written, the timeout counter never moves, and a queue with a timeout is not fully counted |
| ResourceManager.TimeoutCounterexample | src/core/resource_manager.py:61-62 | as written, one timed-out script leaves the counters at zero and its log without the notice |
| ResourceManager.TimeoutCountedWhenCorrected | src/core/resource_manager.py:61-68 | corrected, the same script counts one timeout and its log is the notice |

## Left out

- src/cli.py, src/config.py, setup.py: argument plumbing, constants and packaging. The two directory constants are copied into `Builder`.
- src/core/tester.py: process spawning only.
- YAML loading, the file check in `Parser.__init__` and the import-time `Parser(...)`: file I/O.
- `Parser.generate_configs` and the unused `linuxboot_edk2_list`: an empty stub and an unused constant.
- The `recipe` argument of the configuration constructor: it is stored and never read.
- The tools and effects of the build: tar, mtree, make, makefs, mkimg, copies, download and xz. They are logged effects; their exit statuses and failures are not modelled. The `pass` branches for mount logic and kernel override do nothing and are not modelled.
- Threads, the queue's blocking wait, the progress line and wall-clock timing in `work`. The scheduler is one worker draining the queue in order. `work` is not runnable as written (it reads `self.configs` and `produce_task`, which do not exist), so only its summary is modelled.
- `psutil` introspection: cores and available memory are inputs. `cpu_count` returning `None` is not modelled.
- `logger = logging.basicConfig()` binds `None`, so the constructor's `logger.info` raises. The model starts from the constructor's field values as if logging worked.
- The process tree kill itself: it cannot be reached as written (see Findings).
- Removals: `shutil.rmtree` of the tree and ESP directories is logged as a step but removes nothing from the world's set of files, which therefore records files found or created and never forgets one.
- Unicode: strings are sequences of characters without encoding.
- FreeBSDUtils.RecipeSupported: does not state that a script is a single line. The template's line continuations are modelled, but the newline-freeness of the long literals is not proved.
- ResourceManager.MaxWorkers: uses exact integer arithmetic. It agrees with the program's floating-point `0.75 * available / 2**29` only while 3 * available stays below 2^53, where every float step is exact. Above that bound the float product can round up: for available = 6004799503160661 the program's quotient is 8388608 and the model's 8388607.

## Findings

| source | as written | input that shows it | evidently intended | confidence | as-written member | corrected member |
|---|---|---|---|---|---|---|
| src/core/resource_manager.py:31-35 | `recursive_kill` is declared without `self`, but the timeout handler (line 62) calls `self.recursive_kill(process)`. That raises a `TypeError` inside the handler, so the worker ends without counting the timeout or writing the notice, and takes no further task | a queue with one launch script that runs longer than 90 seconds | kill the process tree, count one timeout, replace the log by the notice, and go on with the queue | high; not executed | ResourceManager.TimeoutCounterexample | ResourceManager.TimeoutCountedWhenCorrected |
