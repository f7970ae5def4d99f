/** What WriteBootloader puts into an update package: the zip entries, and the lines of the
    installation script.
 */
module UpdatePackage {
  import opened Common
  import opened Bootloader

  datatype File = File(name: string, content: Bytes)

  datatype Line = Say(text: string) | Extract(file: string, device: string)

  /** What a call adds to the package, and the error that ends it, if any. */
  datatype Outcome = Outcome(files: seq<File>, script: seq<Line>, error: Option<Error>)

  const FLASH_PARTITIONS: seq<string> := ["aboot", "rpm", "tz", "sbl1", "sdi", "imgdata"]
  const BACKUP_PARTITIONS: seq<string> := ["aboot", "rpm", "sbl1", "tz"]
  const FLAG_FILE := "bootloader-flag.txt"
  const CLEAR_FILE := "bootloader-flag-clear.txt"

  type Fstab = map<string, string> // mount points and their devices

  function ImageFile(name: string): string { "bootloader." + name + ".img" }
  function Mount(name: string): string { "/" + name }
  function BackupMount(name: string): string { "/" + name + "b" }

  // ---------- what is written ----------

  /** The images that go in: those of the listed partitions that are in the fstab. */
  function FilesOf(names: seq<string>, fstab: Fstab, b: Bytes, imgs: map<string, Place>): seq<File> {
    if names == [] then []
    else
      var i := names[|names| - 1];
      var before := FilesOf(names[..|names| - 1], fstab, b, imgs);
      if Mount(i) in fstab && i in imgs then before + [File(ImageFile(i), ImageAt(b, imgs[i]))] else before
  }

  function FlashLines(names: seq<string>, fstab: Fstab): seq<Line> {
    if names == [] then []
    else
      var i := names[|names| - 1];
      var before := FlashLines(names[..|names| - 1], fstab);
      if Mount(i) in fstab then before + [Extract(ImageFile(i), fstab[Mount(i)])] else before
  }

  /** How many of the listed partitions are dealt with before one is in the fstab but not in the image. */
  function Dealt(names: seq<string>, fstab: Fstab, imgs: map<string, Place>): (k: nat)
    ensures k <= |names|
  {
    if names == [] then 0
    else
      var k := Dealt(names[..|names| - 1], fstab, imgs);
      var i := names[|names| - 1];
      if k == |names| - 1 && (Mount(i) in fstab ==> i in imgs) then |names| else k
  }

  /** The first backup partition without a device ends the loop. */
  function BackedUp(names: seq<string>, fstab: Fstab): (k: nat)
    ensures k <= |names|
    ensures forall j | 0 <= j < k :: BackupMount(names[j]) in fstab
  {
    if names == [] then 0
    else
      var k := BackedUp(names[..|names| - 1], fstab);
      if k == |names| - 1 && BackupMount(names[k]) in fstab then |names| else k
  }

  function BackupLines(names: seq<string>, fstab: Fstab): seq<Line>
    requires forall j | 0 <= j < |names| :: BackupMount(names[j]) in fstab
  {
    if names == [] then []
    else
      var i := names[|names| - 1];
      BackupLines(names[..|names| - 1], fstab) + [Extract(ImageFile(i), fstab[BackupMount(i)])]
  }

  const FLAG: Bytes := "updating-bootloader"

  function FlagFiles(): seq<File> {
    [File(FLAG_FILE, FLAG + Zeros(13)), File(CLEAR_FILE, Zeros(32))]
  }

  /** Both flag files are 32 bytes long: the words that say an update is under way, with zeros behind
      them, and nothing but zeros.
   */
  lemma FlagFilesAre()
    ensures var files := FlagFiles();
            && |files| == 2 && files[0].name == "bootloader-flag.txt" && files[1].name == "bootloader-flag-clear.txt"
            && |files[0].content| == 32 == |files[1].content|
            && files[0].content[..19] == "updating-bootloader"
            && (forall k | 19 <= k < 32 :: files[0].content[k] == '\0')
            && (forall k | 0 <= k < 32 :: files[1].content[k] == '\0')
  {
    assert |FLAG| == 19;
    ZerosAreZero(13);
    ZerosAreZero(32);
    hide Zeros;
  }

  /** What the file of an image is called, and where it and its backup are mounted. */
  lemma NamesAre()
    ensures ImageFile("aboot") == "bootloader.aboot.img"
    ensures Mount("aboot") == "/aboot" && BackupMount("aboot") == "/abootb"
  {
  }

  lemma {:induction false} ZerosAreZero(n: nat)
    ensures forall k | 0 <= k < n :: Zeros(n)[k] == '\0'
  {
    if n > 0 {
      ZerosAreZero(n - 1);
    }
  }

  const SAY := Say("Writing bootloader...")

  /** The script of a call that succeeds: the flag goes up in /misc before the first partition is
      written and comes down after the last; the backups follow.
   */
  function Script(names: seq<string>, backups: seq<string>, fstab: Fstab): seq<Line>
    requires Mount("misc") in fstab
  {
    [SAY, Extract(FLAG_FILE, fstab[Mount("misc")])]
    + FlashLines(names, fstab)
    + [Extract(CLEAR_FILE, fstab[Mount("misc")])]
    + BackupLines(backups[..BackedUp(backups, fstab)], fstab)
  }

  function Written(b: Bytes, names: seq<string>, backups: seq<string>, fstab: Fstab): Outcome {
    if Parse(b).Err? then Outcome([], [SAY], Some(Parse(b).error))
    else if Mount("misc") !in fstab then Outcome(FlagFiles(), [SAY], Some(NoMiscPartition))
    else
      var imgs := Parse(b).value;
      var k := Dealt(names, fstab, imgs);
      var files := FlagFiles() + FilesOf(names[..k], fstab, b, imgs);
      if k < |names| then
        Outcome(files, [SAY, Extract(FLAG_FILE, fstab[Mount("misc")])] + FlashLines(names[..k], fstab),
                Some(NoSuchImage(names[k])))
      else Outcome(files, Script(names, backups, fstab), None)
  }

  // ---------- what the script does ----------

  /** The file a device holds after these lines, if one was written to it. */
  function Held(script: seq<Line>, device: string): Option<string> {
    if script == [] then None
    else
      var line := script[|script| - 1];
      if line.Extract? && line.device == device then Some(line.file) else Held(script[..|script| - 1], device)
  }

  lemma {:induction false} HeldAppend(a: seq<Line>, b: seq<Line>, device: string)
    ensures Held(a + b, device) == (if Held(b, device).Some? then Held(b, device) else Held(a, device))
  {
    if b == [] {
      assert a + b == a;
    } else {
      assert (a + b)[..|a + b| - 1] == a + b[..|b| - 1];
      HeldAppend(a, b[..|b| - 1], device);
    }
  }

  lemma HeldLine(line: Line, device: string)
    ensures Held([line], device) ==
            (if line.Extract? && line.device == device then Some(line.file) else None)
  {
  }

  /** Mount points have devices of their own, and the lists do not mix them up. */
  predicate Apart(names: seq<string>, backups: seq<string>, fstab: Fstab) {
    && OwnDevices(fstab)
    && Mount("misc") in fstab
    && "misc" !in names
    && (forall n | n in backups :: BackupMount(n) != Mount("misc"))
    && (forall n, m | n in backups && m in names :: BackupMount(n) != Mount(m))
  }

  predicate OwnDevices(fstab: Fstab) {
    forall a, b | a in fstab && b in fstab && a != b :: fstab[a] != fstab[b]
  }

  lemma OwnDevice(fstab: Fstab, a: string, b: string)
    requires OwnDevices(fstab) && a in fstab && b in fstab && a != b
    ensures fstab[a] != fstab[b]
  {
  }

  lemma MountsDiffer(a: string, b: string)
    requires a != b
    ensures Mount(a) != Mount(b) && BackupMount(a) != BackupMount(b) && ImageFile(a) != ImageFile(b)
  {
    assert Mount(a)[1..] == a && Mount(b)[1..] == b;
    assert BackupMount(a)[1..|a| + 1] == a && BackupMount(b)[1..|b| + 1] == b;
    assert ImageFile(a)[11..|a| + 11] == a && ImageFile(b)[11..|b| + 11] == b;
  }

  lemma NotABackup(n: string, m: string)
    requires m != [] && m[|m| - 1] != 'b'
    ensures BackupMount(n) != Mount(m)
  {
    assert Mount(m)[|Mount(m)| - 1] == m[|m| - 1];
    assert BackupMount(n)[|BackupMount(n)| - 1] == 'b';
  }

  /** The lists of this device never mix up mount points. */
  lemma ListsApart(fstab: Fstab)
    requires OwnDevices(fstab) && Mount("misc") in fstab
    ensures Apart(FLASH_PARTITIONS, BACKUP_PARTITIONS, fstab)
  {
    hide OwnDevices, BackupMount, Mount;
    forall n, m | m in FLASH_PARTITIONS + ["misc"] ensures BackupMount(n) != Mount(m) {
      NotABackup(n, m);
    }
    assert "misc" in FLASH_PARTITIONS + ["misc"];
  }

  predicate HoldsImageOf(script: seq<Line>, device: string, n: string) {
    Held(script, device) == Some(ImageFile(n))
  }

  /** What the flashing lines leave on a device: the image of the partition it belongs to. */
  lemma {:induction false} HeldAfterFlashing(names: seq<string>, fstab: Fstab, device: string)
    ensures Held(FlashLines(names, fstab), device).Some? ==>
              exists n | n in names ::
                Mount(n) in fstab && fstab[Mount(n)] == device && HoldsImageOf(FlashLines(names, fstab), device, n)
    ensures forall n | n in names && Mount(n) in fstab && fstab[Mount(n)] == device ::
              Held(FlashLines(names, fstab), device).Some?
  {
    if names != [] {
      var k := |names| - 1;
      HeldAfterFlashing(names[..k], fstab, device);
      assert names == names[..k] + [names[k]];
    }
  }

  lemma {:induction false} HeldAfterBackups(names: seq<string>, fstab: Fstab, device: string)
    requires forall j | 0 <= j < |names| :: BackupMount(names[j]) in fstab
    ensures Held(BackupLines(names, fstab), device).Some? ==>
              exists n | n in names ::
                BackupMount(n) in fstab && fstab[BackupMount(n)] == device
                && HoldsImageOf(BackupLines(names, fstab), device, n)
    ensures forall n | n in names && BackupMount(n) in fstab && fstab[BackupMount(n)] == device ::
              Held(BackupLines(names, fstab), device).Some?
  {
    if names != [] {
      var k := |names| - 1;
      HeldAfterBackups(names[..k], fstab, device);
      assert names == names[..k] + [names[k]];
    }
  }

  lemma FlashedDevice(names: seq<string>, backups: seq<string>, fstab: Fstab, n: string)
    requires Apart(names, backups, fstab) && n in names && Mount(n) in fstab
    ensures Held(FlashLines(names, fstab), fstab[Mount(n)]) == Some(ImageFile(n))
  {
    var device := fstab[Mount(n)];
    hide ImageFile, Mount, FlashLines, Held;
    HeldAfterFlashing(names, fstab, device);
    var m :| m in names && Mount(m) in fstab && fstab[Mount(m)] == device
             && HoldsImageOf(FlashLines(names, fstab), device, m);
    if m != n {
      MountsDiffer(m, n);
    }
  }

  lemma BackedUpDevice(names: seq<string>, fstab: Fstab, n: string)
    requires OwnDevices(fstab) && n in names
    requires forall j | 0 <= j < |names| :: BackupMount(names[j]) in fstab
    ensures Held(BackupLines(names, fstab), fstab[BackupMount(n)]) == Some(ImageFile(n))
  {
    var device := fstab[BackupMount(n)];
    hide ImageFile, BackupMount, BackupLines, Held;
    HeldAfterBackups(names, fstab, device);
    var m :| m in names && BackupMount(m) in fstab && fstab[BackupMount(m)] == device
             && HoldsImageOf(BackupLines(names, fstab), device, m);
    if m != n {
      MountsDiffer(m, n);
    }
  }

  lemma MiscNotFlashed(names: seq<string>, backups: seq<string>, fstab: Fstab)
    requires Apart(names, backups, fstab)
    ensures Held(FlashLines(names, fstab), fstab[Mount("misc")]) == None
  {
    var misc := fstab[Mount("misc")];
    hide ImageFile, Mount, FlashLines, Held;
    HeldAfterFlashing(names, fstab, misc);
    if Held(FlashLines(names, fstab), misc).Some? {
      var m :| m in names && Mount(m) in fstab && fstab[Mount(m)] == misc;
      MountsDiffer(m, "misc");
    }
  }

  lemma NoBackupWrites(backups: seq<string>, fstab: Fstab, mount: string)
    requires OwnDevices(fstab) && mount in fstab
    requires forall n | n in backups :: BackupMount(n) != mount
    requires forall j | 0 <= j < |backups| :: BackupMount(backups[j]) in fstab
    ensures Held(BackupLines(backups, fstab), fstab[mount]) == None
  {
  }

  lemma {:induction false} HeldInPrefix(script: seq<Line>, n: nat, device: string)
    requires n <= |script| && Held(script, device) == None
    ensures Held(script[..n], device) == None
  {
    if n < |script| {
      HeldInPrefix(script[..|script| - 1], n, device);
      assert script[..|script| - 1][..n] == script[..n];
    } else {
      assert script[..n] == script;
    }
  }

  /** From before the first partition is written until after the last, /misc holds the flag: an
      update that is cut short can be told from one that was finished.
   */
  lemma FlagUpWhileFlashing(names: seq<string>, backups: seq<string>, fstab: Fstab, n: nat, device: string)
    requires Apart(names, backups, fstab) && n <= 2 + |FlashLines(names, fstab)|
    ensures var script := Script(names, backups, fstab)[..n];
            n >= 2 && device == fstab[Mount("misc")] ==> Held(script, device) == Some(FLAG_FILE)
    ensures n < 2 || (n == 2 && device != fstab[Mount("misc")]) ==>
              Held(Script(names, backups, fstab)[..n], device) == None
  {
    var flag := [SAY, Extract(FLAG_FILE, fstab[Mount("misc")])];
    var flash := FlashLines(names, fstab);
    if n >= 2 {
      assert Script(names, backups, fstab)[..n] == flag + flash[..n - 2];
      MiscNotFlashed(names, backups, fstab);
      HeldInPrefix(flash, n - 2, fstab[Mount("misc")]);
      hide Held, Script, FlashLines;
      HeldAppend(flag, flash[..n - 2], device);
      HeldFlag(fstab[Mount("misc")], device);
    } else {
      HeldInPrefix([SAY], n, device);
      assert Script(names, backups, fstab)[..n] == [SAY][..n];
    }
  }

  lemma HeldFlag(misc: string, device: string)
    ensures Held([SAY, Extract(FLAG_FILE, misc)], device) == if device == misc then Some(FLAG_FILE) else None
  {
    HeldLine(SAY, device);
    HeldLine(Extract(FLAG_FILE, misc), device);
    HeldAppend([SAY], [Extract(FLAG_FILE, misc)], device);
  }

  /** The finished script has cleared the flag, left its image on every partition that is in the
      fstab, and left the same image on each backup up to the first that is missing.
   */
  lemma FinishedScript(names: seq<string>, backups: seq<string>, fstab: Fstab)
    requires Apart(names, backups, fstab)
    ensures var script := Script(names, backups, fstab);
            && Held(script, fstab[Mount("misc")]) == Some(CLEAR_FILE)
            && (forall n | n in names && Mount(n) in fstab :: HoldsImageOf(script, fstab[Mount(n)], n))
            && (forall n | n in backups[..BackedUp(backups, fstab)] ::
                  BackupMount(n) in fstab && HoldsImageOf(script, fstab[BackupMount(n)], n))
  {
    var bs := backups[..BackedUp(backups, fstab)];
    HeldAtEnd(names, backups, fstab, fstab[Mount("misc")]);
    NoBackupWrites(bs, fstab, Mount("misc"));
    hide Script, Held, FlashLines, BackupLines, BackedUp, Mount, BackupMount, ImageFile, OwnDevices;
    forall n | n in names && Mount(n) in fstab
      ensures HoldsImageOf(Script(names, backups, fstab), fstab[Mount(n)], n)
    {
      FinishedPartition(names, backups, fstab, n);
    }
    forall n | n in bs
      ensures BackupMount(n) in fstab && HoldsImageOf(Script(names, backups, fstab), fstab[BackupMount(n)], n)
    {
      HeldAtEnd(names, backups, fstab, fstab[BackupMount(n)]);
      BackedUpDevice(bs, fstab, n);
    }
  }

  lemma FinishedPartition(names: seq<string>, backups: seq<string>, fstab: Fstab, n: string)
    requires Apart(names, backups, fstab) && n in names && Mount(n) in fstab
    ensures HoldsImageOf(Script(names, backups, fstab), fstab[Mount(n)], n)
  {
    var bs := backups[..BackedUp(backups, fstab)];
    hide Script, Held, FlashLines, BackupLines, BackedUp, Mount, BackupMount, ImageFile, OwnDevices;
    HeldAtEnd(names, backups, fstab, fstab[Mount(n)]);
    NoBackupWrites(bs, fstab, Mount(n));
    FlashedDevice(names, backups, fstab, n);
    MountsDiffer("misc", n);
    OwnDevice(fstab, Mount("misc"), Mount(n));
  }

  lemma HeldAtEnd(names: seq<string>, backups: seq<string>, fstab: Fstab, device: string)
    requires Mount("misc") in fstab
    ensures var bs, misc := backups[..BackedUp(backups, fstab)], fstab[Mount("misc")];
            Held(Script(names, backups, fstab), device) ==
            (if Held(BackupLines(bs, fstab), device).Some? then Held(BackupLines(bs, fstab), device)
             else if device == misc then Some(CLEAR_FILE)
             else Held(FlashLines(names, fstab), device))
  {
    var bs, misc := backups[..BackedUp(backups, fstab)], fstab[Mount("misc")];
    var flag, clear := [SAY, Extract(FLAG_FILE, misc)], [Extract(CLEAR_FILE, misc)];
    HeldFlag(misc, device);
    HeldLine(clear[0], device);
    hide Held, FlashLines, BackupLines;
    HeldAppend(flag, FlashLines(names, fstab), device);
    HeldAppend(flag + FlashLines(names, fstab), clear, device);
    HeldAppend(flag + FlashLines(names, fstab) + clear, BackupLines(bs, fstab), device);
  }

  // ---------- the zip entries ----------

  /** Exactly the listed partitions that are in the fstab get their image into the zip. */
  lemma {:induction false} FilesOfHas(names: seq<string>, fstab: Fstab, b: Bytes, imgs: map<string, Place>, f: File)
    ensures f in FilesOf(names, fstab, b, imgs) <==>
            exists n | n in names ::
              Mount(n) in fstab && n in imgs && f == File(ImageFile(n), ImageAt(b, imgs[n]))
  {
    hide ImageAt, Mount, ImageFile;
    if names != [] {
      FilesOfHas(names[..|names| - 1], fstab, b, imgs, f);
      assert names == names[..|names| - 1] + [names[|names| - 1]];
    }
  }

  lemma {:induction false} DealtIs(names: seq<string>, fstab: Fstab, imgs: map<string, Place>)
    ensures forall j | 0 <= j < Dealt(names, fstab, imgs) :: Mount(names[j]) in fstab ==> names[j] in imgs
    ensures var k := Dealt(names, fstab, imgs); k < |names| ==> Mount(names[k]) in fstab && names[k] !in imgs
  {
    hide Mount;
    if names != [] {
      DealtIs(names[..|names| - 1], fstab, imgs);
    }
  }

  lemma {:induction false} BackedUpIs(names: seq<string>, fstab: Fstab)
    ensures var k := BackedUp(names, fstab); k < |names| ==> BackupMount(names[k]) !in fstab
  {
    hide BackupMount;
    if names != [] {
      BackedUpIs(names[..|names| - 1], fstab);
    }
  }

  /** The call succeeds exactly when the file parses, /misc is known, and no partition to be
      flashed lacks an image.
   */
  lemma SucceedsIff(b: Bytes, names: seq<string>, backups: seq<string>, fstab: Fstab)
    ensures Written(b, names, backups, fstab).error == None <==>
            && Parse(b).Ok? && Mount("misc") in fstab
            && forall n | n in names && Mount(n) in fstab :: n in Parse(b).value
  {
    hide Parse, Mount, Script, FilesOf, FlashLines, Dealt;
    if Parse(b).Ok? {
      DealtIs(names, fstab, Parse(b).value);
    }
  }

  /** What ends the call otherwise: the error of the file, the want of /misc, or the first partition to
      be flashed that has no image; what was written until then is in the package.
   */
  lemma ErrorIs(b: Bytes, names: seq<string>, backups: seq<string>, fstab: Fstab)
    ensures var w := Written(b, names, backups, fstab);
            && (Parse(b).Err? ==> w.error == Some(Parse(b).error) && w.files == [] && w.script == [SAY])
            && (Parse(b).Ok? && Mount("misc") !in fstab ==>
                 w.error == Some(NoMiscPartition) && w.files == FlagFiles() && w.script == [SAY])
            && (forall k | 0 <= k < |names| && Parse(b).Ok? && Mount("misc") in fstab
                  && Mount(names[k]) in fstab && names[k] !in Parse(b).value
                  && (forall j | 0 <= j < k :: Mount(names[j]) in fstab ==> names[j] in Parse(b).value) ::
                  && w.error == Some(NoSuchImage(names[k]))
                  && w.files == FlagFiles() + FilesOf(names[..k], fstab, b, Parse(b).value)
                  && w.script == [SAY, Extract(FLAG_FILE, fstab[Mount("misc")])] + FlashLines(names[..k], fstab))
  {
    hide Parse, Mount, Script, FilesOf, FlashLines, Dealt, FlagFiles;
    if Parse(b).Ok? {
      DealtIs(names, fstab, Parse(b).value);
    }
  }

  predicate InZip(files: seq<File>, file: string) {
    exists f | f in files :: f.name == file
  }

  lemma ImageInZipIff(names: seq<string>, fstab: Fstab, b: Bytes, imgs: map<string, Place>, n: string)
    requires forall m | m in names && Mount(m) in fstab :: m in imgs
    ensures InZip(FlagFiles() + FilesOf(names, fstab, b, imgs), ImageFile(n)) <==>
            n in names && Mount(n) in fstab
  {
    hide ImageAt, Mount, FilesOf;
    if n in names && Mount(n) in fstab {
      FilesOfHas(names, fstab, b, imgs, File(ImageFile(n), ImageAt(b, imgs[n])));
    }
    assert FLAG_FILE[10] == '-' && CLEAR_FILE[10] == '-' && ImageFile(n)[10] == '.';
    if InZip(FlagFiles() + FilesOf(names, fstab, b, imgs), ImageFile(n)) {
      var f :| f in FlagFiles() + FilesOf(names, fstab, b, imgs) && f.name == ImageFile(n);
      FilesOfHas(names, fstab, b, imgs, f);
      var m :| m in names && Mount(m) in fstab && f == File(ImageFile(m), ImageAt(b, imgs[m]));
      if m != n {
        MountsDiffer(m, n);
      }
    }
  }

  lemma {:induction false} FlashLineFiles(names: seq<string>, fstab: Fstab)
    ensures forall line | line in FlashLines(names, fstab) ::
              exists n | n in names :: Mount(n) in fstab && line == Extract(ImageFile(n), fstab[Mount(n)])
  {
    hide Mount, ImageFile;
    if names != [] {
      FlashLineFiles(names[..|names| - 1], fstab);
      assert names == names[..|names| - 1] + [names[|names| - 1]];
    }
  }

  lemma {:induction false} BackupLineFiles(names: seq<string>, fstab: Fstab, line: Line)
    requires forall j | 0 <= j < |names| :: BackupMount(names[j]) in fstab
    ensures line in BackupLines(names, fstab) <==>
            exists n | n in names :: BackupMount(n) in fstab && line == Extract(ImageFile(n), fstab[BackupMount(n)])
  {
    hide BackupMount, ImageFile;
    if names != [] {
      BackupLineFiles(names[..|names| - 1], fstab, line);
      assert names == names[..|names| - 1] + [names[|names| - 1]];
    }
  }

  predicate HasFile(files: seq<File>, line: Line) { line.Extract? ==> InZip(files, line.file) }

  /** Every file the script asks for is in the zip exactly when no backup is made of a partition
      that was not flashed.
   */
  lemma ScriptFilesPresentIff(b: Bytes, names: seq<string>, backups: seq<string>, fstab: Fstab)
    requires Written(b, names, backups, fstab).error == None
    ensures var w := Written(b, names, backups, fstab);
            (forall line | line in w.script :: HasFile(w.files, line)) <==>
            (forall n | n in backups[..BackedUp(backups, fstab)] :: n in names && Mount(n) in fstab)
  {
    var imgs, bs := Parse(b).value, backups[..BackedUp(backups, fstab)];
    var w := Written(b, names, backups, fstab);
    WrittenWhole(b, names, backups, fstab);
    hide *;
    if forall n | n in bs :: n in names && Mount(n) in fstab {
      forall line | line in w.script ensures HasFile(w.files, line) {
        LineHasFile(b, names, backups, fstab, imgs, line);
      }
    }
    if forall line | line in w.script :: HasFile(w.files, line) {
      forall n | n in bs ensures n in names && Mount(n) in fstab {
        BackupLineIn(names, backups, fstab, n);
        ImageInZipIff(names, fstab, b, imgs, n);
        HasFileIs(w.files, Extract(ImageFile(n), fstab[BackupMount(n)]));
      }
    }
  }

  lemma HasFileIs(files: seq<File>, line: Line)
    requires line.Extract?
    ensures HasFile(files, line) == InZip(files, line.file)
  {
  }

  lemma WrittenWhole(b: Bytes, names: seq<string>, backups: seq<string>, fstab: Fstab)
    requires Written(b, names, backups, fstab).error == None
    ensures Parse(b).Ok? && Mount("misc") in fstab
    ensures forall n | n in names && Mount(n) in fstab :: n in Parse(b).value
    ensures Written(b, names, backups, fstab).files == FlagFiles() + FilesOf(names, fstab, b, Parse(b).value)
    ensures Written(b, names, backups, fstab).script == Script(names, backups, fstab)
  {
    hide Parse, FilesOf, FlashLines, Script, Mount, Dealt;
    SucceedsIff(b, names, backups, fstab);
    assert names[..|names|] == names;
  }

  lemma LineHasFile(b: Bytes, names: seq<string>, backups: seq<string>, fstab: Fstab, imgs: map<string, Place>,
                    line: Line)
    requires Mount("misc") in fstab && line in Script(names, backups, fstab)
    requires forall n | n in names && Mount(n) in fstab :: n in imgs
    requires forall n | n in backups[..BackedUp(backups, fstab)] :: n in names && Mount(n) in fstab
    ensures HasFile(FlagFiles() + FilesOf(names, fstab, b, imgs), line)
  {
    var bs, misc := backups[..BackedUp(backups, fstab)], fstab[Mount("misc")];
    var files := FlagFiles() + FilesOf(names, fstab, b, imgs);
    hide FilesOf, FlashLines, BackupLines, Mount, BackupMount, ImageFile, BackedUp;
    hide FlagFiles;
    if line in FlashLines(names, fstab) {
      FlashLineFiles(names, fstab);
      var n :| n in names && Mount(n) in fstab && line == Extract(ImageFile(n), fstab[Mount(n)]);
      ImageInZipIff(names, fstab, b, imgs, n);
    } else if line in BackupLines(bs, fstab) {
      BackupLineFiles(bs, fstab, line);
      var n :| n in bs && BackupMount(n) in fstab && line == Extract(ImageFile(n), fstab[BackupMount(n)]);
      ImageInZipIff(names, fstab, b, imgs, n);
    } else {
      FlagsInZip(files);
    }
  }

  lemma FlagsInZip(files: seq<File>)
    requires FlagFiles() <= files
    ensures InZip(files, FLAG_FILE) && InZip(files, CLEAR_FILE)
  {
    hide Zeros;
    assert files[0] == FlagFiles()[0] && files[1] == FlagFiles()[1];
  }

  lemma BackupLineIn(names: seq<string>, backups: seq<string>, fstab: Fstab, n: string)
    requires Mount("misc") in fstab && n in backups[..BackedUp(backups, fstab)]
    ensures BackupMount(n) in fstab && Extract(ImageFile(n), fstab[BackupMount(n)]) in Script(names, backups, fstab)
  {
    hide FlashLines, BackupLines, Mount, BackupMount, ImageFile;
    BackupLineFiles(backups[..BackedUp(backups, fstab)], fstab, Extract(ImageFile(n), fstab[BackupMount(n)]));
  }

  /** A fstab with a backup partition but not its original asks for a file that is not there. */
  lemma BackupWithoutOriginal(b: Bytes)
    requires Parse(b).Ok?
    ensures var fstab := map[Mount("misc") := "m", BackupMount("aboot") := "a"];
            var w := Written(b, FLASH_PARTITIONS, BACKUP_PARTITIONS, fstab);
            w.error == None && exists line | line in w.script :: !HasFile(w.files, line)
  {
    var fstab := map[Mount("misc") := "m", BackupMount("aboot") := "a"];
    hide Parse, ImageFile;
    NoOriginal(fstab);
    SucceedsIff(b, FLASH_PARTITIONS, BACKUP_PARTITIONS, fstab);
    ScriptFilesPresentIff(b, FLASH_PARTITIONS, BACKUP_PARTITIONS, fstab);
  }

  lemma NoOriginal(fstab: Fstab)
    requires fstab == map[Mount("misc") := "m", BackupMount("aboot") := "a"]
    ensures Mount("misc") in fstab && (forall n | n in FLASH_PARTITIONS :: Mount(n) !in fstab)
    ensures "aboot" in BACKUP_PARTITIONS[..BackedUp(BACKUP_PARTITIONS, fstab)]
  {
    ListsApart(map[Mount("misc") := "m"]);
    forall n | n in FLASH_PARTITIONS ensures Mount(n) !in fstab {
      MountsDiffer(n, "misc");
    }
    BackedUpIs(BACKUP_PARTITIONS, fstab);
    assert BACKUP_PARTITIONS[0] == "aboot";
    assert BACKUP_PARTITIONS[..BackedUp(BACKUP_PARTITIONS, fstab)][0] == "aboot";
  }

  /** Writing a packed image: it fails only for want of /misc or of an image to flash, and
      otherwise each flashed partition's entry holds the bytes that were packed under its name.
   */
  lemma PackedUpdate(images: seq<Image>, gap: Bytes, names: seq<string>, backups: seq<string>, fstab: Fstab)
    requires Packable(images, gap)
    ensures var w := Written(Pack(images, gap), names, backups, fstab);
            (w.error == None <==>
              Mount("misc") in fstab &&
              forall n | n in names && Mount(n) in fstab :: exists k | 0 <= k < |images| :: images[k].name == n) &&
            (w.error == None ==>
              forall k | 0 <= k < |images| && images[k].name in names && Mount(images[k].name) in fstab ::
                File(ImageFile(images[k].name), images[k].content) in w.files)
  {
    var b := Pack(images, gap);
    UnpackPacked(images, gap);
    SucceedsIff(b, names, backups, fstab);
    hide Pack, Parse, Mount, ImageFile, ImageAt, Written, FilesOf, Packable;
    if Written(b, names, backups, fstab).error == None {
      WrittenWhole(b, names, backups, fstab);
      forall k | 0 <= k < |images| && images[k].name in names && Mount(images[k].name) in fstab
        ensures File(ImageFile(images[k].name), images[k].content) in Written(b, names, backups, fstab).files
      {
        FilesOfHas(names, fstab, b, Parse(b).value, File(ImageFile(images[k].name), images[k].content));
      }
    }
  }

  // ---------- the package ----------

  class Package {
    var files: seq<File>  // info.output_zip
    var script: seq<Line> // info.script

    method WriteBootloader(bootloader: Bytes, fstab: Fstab) returns (r: Option<Error>)
      modifies this
      ensures var w := Written(bootloader, FLASH_PARTITIONS, BACKUP_PARTITIONS, fstab);
              r == w.error && files == old(files) + w.files && script == old(script) + w.script
    {
      hide Parse, ImageFile, ImageAt, FlagFiles, FilesOf, FlashLines, BackupLines, Dealt, BackedUp;
      script := script + [SAY];
      var parsed := ReadBootloader(bootloader);
      if parsed.Err? { return Some(parsed.error); }
      files := files + FlagFiles();
      if Mount("misc") !in fstab { return Some(NoMiscPartition); }
      script := script + [Extract(FLAG_FILE, fstab[Mount("misc")])];
      r := Flash(FLASH_PARTITIONS, bootloader, parsed.value, fstab);
      if r.None? {
        script := script + [Extract(CLEAR_FILE, fstab[Mount("misc")])];
        BackUp(BACKUP_PARTITIONS, fstab);
        assert FLASH_PARTITIONS[..|FLASH_PARTITIONS|] == FLASH_PARTITIONS;
      }
    }

    /** Writes the images to separate files in the package. */
    method Flash(names: seq<string>, b: Bytes, imgs: map<string, Place>, fstab: Fstab) returns (r: Option<Error>)
      modifies this
      ensures var k := Dealt(names, fstab, imgs);
              r == (if k < |names| then Some(NoSuchImage(names[k])) else None)
              && files == old(files) + FilesOf(names[..k], fstab, b, imgs)
              && script == old(script) + FlashLines(names[..k], fstab)
    {
      hide ImageFile, ImageAt, Mount;
      var j := 0;
      while j < |names|
        invariant 0 <= j <= |names| && Dealt(names[..j], fstab, imgs) == j
        invariant files == old(files) + FilesOf(names[..j], fstab, b, imgs)
        invariant script == old(script) + FlashLines(names[..j], fstab)
      {
        var i := names[j];
        assert names[..j + 1][..j] == names[..j];
        if Mount(i) in fstab {
          if i !in imgs {
            DealtStops(names, j + 1, fstab, imgs);
            return Some(NoSuchImage(i));
          }
          files := files + [File(ImageFile(i), ImageAt(b, imgs[i]))];
          script := script + [Extract(ImageFile(i), fstab[Mount(i)])];
        }
        j := j + 1;
      }
      assert names[..j] == names;
      return None;
    }

    /** Ends quietly at the first backup partition that is not in the fstab. */
    method BackUp(names: seq<string>, fstab: Fstab)
      modifies this`script
      ensures script == old(script) + BackupLines(names[..BackedUp(names, fstab)], fstab)
    {
      hide ImageFile, BackupMount;
      var j := 0;
      while j < |names|
        invariant 0 <= j <= |names| && BackedUp(names[..j], fstab) == j
        invariant forall n | n in names[..j] :: BackupMount(n) in fstab
        invariant script == old(script) + BackupLines(names[..j], fstab)
      {
        var i := names[j];
        assert names[..j + 1][..j] == names[..j];
        if BackupMount(i) !in fstab {
          BackedUpStops(names, j + 1, fstab);
          return;
        }
        script := script + [Extract(ImageFile(i), fstab[BackupMount(i)])];
        j := j + 1;
      }
      assert names[..j] == names;
    }
  }

  lemma {:induction false} DealtStops(names: seq<string>, n: nat, fstab: Fstab, imgs: map<string, Place>)
    requires n <= |names| && Dealt(names[..n], fstab, imgs) < n
    ensures Dealt(names, fstab, imgs) == Dealt(names[..n], fstab, imgs)
  {
    hide Mount;
    if n < |names| {
      assert names[..|names| - 1][..n] == names[..n];
      DealtStops(names[..|names| - 1], n, fstab, imgs);
    } else {
      assert names[..n] == names;
    }
  }

  lemma {:induction false} BackedUpStops(names: seq<string>, n: nat, fstab: Fstab)
    requires n <= |names| && BackedUp(names[..n], fstab) < n
    ensures BackedUp(names, fstab) == BackedUp(names[..n], fstab)
  {
    hide BackupMount;
    if n < |names| {
      assert names[..|names| - 1][..n] == names[..n];
      BackedUpStops(names[..|names| - 1], n, fstab);
    } else {
      assert names[..n] == names;
    }
  }
}
