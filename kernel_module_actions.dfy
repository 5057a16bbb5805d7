/**
 * What each action of the kernel_module resource does, stated over values:
 * the file step (the file resources it declares, converged), the runtime
 * step (the load or unload action it dispatches to, which runs modprobe
 * only when the probe disagrees with the requested direction) and the
 * delayed initramfs rebuild. The lemmas here are the properties of the
 * resource as a whole: exact targets, what each action leaves untouched,
 * at most one rebuild, and idempotence.
 */
module KernelModuleActions {
  import opened KernelModuleHelpers
  import opened KernelModuleFiles

  /** The two runtime actions, `load` and `unload`. */
  datatype Direction = Load | Unload

  /** install runs load; uninstall and blacklist run unload. */
  function RuntimeAction(a: Action): (d: Direction)
    ensures d == Load <==> a == Install
  {
    match a
    case Install => Load
    case Uninstall => Unload
    case Blacklist => Unload
  }

  /**
   * The commands a runtime action issues, given whether the probe reports
   * the module loaded: one modprobe exactly when the module's state
   * disagrees with the direction, none otherwise.
   */
  function ModprobeCommands(d: Direction, loaded: bool, modname: string): (r: seq<string>)
    ensures |r| <= 1
    ensures r != [] <==> (d == Load <==> !loaded)
    ensures d == Load && r != [] ==> r == ["modprobe " + modname]
    ensures d == Unload && r != [] ==> r == ["modprobe -r " + modname]
  {
    match d
    case Load => if loaded then [] else ["modprobe " + modname]
    case Unload => if loaded then ["modprobe -r " + modname] else []
  }

  /**
   * The command the delayed rebuild runs: the execute resource is declared
   * with `action :nothing`, so it runs once when notified and not at all
   * otherwise, however many file resources notified it.
   */
  function RebuildCommands(armed: bool, debianFamily: bool): (r: seq<string>)
    ensures |r| <= 1
    ensures r != [] <==> armed
    ensures forall c | c in r :: c == InitramfsCommand(debianFamily)
  {
    if armed then [InitramfsCommand(debianFamily)] else []
  }

  /** The file step of an action: its declared file resources, converged in order. */
  function FileStep(a: Action, t: Target, files: map<string, string>): FileOutcome {
    ConvergeAll(files, DesiredFiles(a, t))
  }

  /** The runtime step of an action, against the module table it probes. */
  function RuntimeStep(a: Action, table: seq<string>, modname: string): seq<string> {
    ModprobeCommands(RuntimeAction(a), ModuleLoaded(table, modname), modname)
  }

  /** The host is already where the action would take it. */
  predicate Converged(a: Action, t: Target, files: map<string, string>, table: seq<string>) {
    && (forall f | f in DesiredFiles(a, t) :: Holds(files, f))
    && (ModuleLoaded(table, t.modname) <==> a == Install)
  }

  /** Every path other than the declared ones keeps its content through the file step. */
  lemma FileStepFrame(a: Action, t: Target, files: map<string, string>, p: string)
    requires p != LoadConfPath(t) && p != BlacklistConfPath(t)
    ensures Lookup(FileStep(a, t, files).files, p) == Lookup(files, p)
  {
    ConvergeAllFrame(files, DesiredFiles(a, t), p);
  }

  /**
   * install writes the load file with the module name and a newline, and
   * changes nothing else: in particular not the blacklist file.
   */
  lemma InstallFiles(t: Target, files: map<string, string>)
    ensures var r := FileStep(Install, t, files).files;
            && Lookup(r, LoadConfPath(t)) == Some(LoadConfContent(t))
            && Lookup(r, BlacklistConfPath(t)) == Lookup(files, BlacklistConfPath(t))
            && forall p | p != LoadConfPath(t) :: Lookup(r, p) == Lookup(files, p)
  {
  }

  /**
   * blacklist writes the blacklist file (no trailing newline) and changes
   * nothing else: in particular not the load file.
   */
  lemma BlacklistFiles(t: Target, files: map<string, string>)
    ensures var r := FileStep(Blacklist, t, files).files;
            && Lookup(r, BlacklistConfPath(t)) == Some(BlacklistConfContent(t))
            && Lookup(r, LoadConfPath(t)) == Lookup(files, LoadConfPath(t))
            && forall p | p != BlacklistConfPath(t) :: Lookup(r, p) == Lookup(files, p)
  {
  }

  /**
   * uninstall leaves neither configuration file in place, writes no
   * content anywhere (the files afterwards are a part of the files before)
   * and changes no other path.
   */
  lemma UninstallFiles(t: Target, files: map<string, string>)
    ensures var r := FileStep(Uninstall, t, files).files;
            && Lookup(r, LoadConfPath(t)) == None
            && Lookup(r, BlacklistConfPath(t)) == None
            && (forall p | p != LoadConfPath(t) && p != BlacklistConfPath(t) :: Lookup(r, p) == Lookup(files, p))
            && (forall p | p in r :: p in files && r[p] == files[p])
  {
    var specs := DesiredFiles(Uninstall, t);
    var r := FileStep(Uninstall, t, files).files;
    ConvergeAllReaches(files, specs);
    assert Holds(r, specs[0]) && Holds(r, specs[1]);
    forall p | p != LoadConfPath(t) && p != BlacklistConfPath(t)
      ensures Lookup(r, p) == Lookup(files, p)
    {
      ConvergeAllFrame(files, specs, p);
    }
    forall p | p in r
      ensures p in files && r[p] == files[p]
    {
      assert Lookup(r, p) == Some(r[p]);
    }
  }

  /**
   * One action asks for at most one rebuild, and asks for it exactly when
   * its file step changed the files.
   */
  lemma RebuildOnlyOnChange(a: Action, t: Target, files: map<string, string>, debianFamily: bool)
    ensures var o := FileStep(a, t, files);
            && |RebuildCommands(o.updated, debianFamily)| <= 1
            && (RebuildCommands(o.updated, debianFamily) != [] <==> o.files != files)
  {
    UpdatedIffChanged(files, DesiredFiles(a, t));
  }

  /** Re-running the file step of an action writes nothing and notifies nothing. */
  lemma FileStepIdempotent(a: Action, t: Target, files: map<string, string>)
    ensures var once := FileStep(a, t, files).files;
            FileStep(a, t, once) == FileOutcome(once, false)
  {
    ConvergeAllIdempotent(files, DesiredFiles(a, t));
  }

  /**
   * An action has nothing to do (no file updated, so no rebuild, and no
   * modprobe) exactly when the host is already converged for it.
   */
  lemma NothingToDoIffConverged(a: Action, t: Target, files: map<string, string>, table: seq<string>)
    ensures (!FileStep(a, t, files).updated && RuntimeStep(a, table, t.modname) == [])
            <==> Converged(a, t, files, table)
  {
  }

  // The kernel's side of modprobe. The resource does not model it; it is
  // what makes a second run see the effect of the first.

  /** The module named by a table line: its first space-delimited field. */
  function LineName(line: string): string {
    if line == [] || line[0] == ' ' then [] else [line[0]] + LineName(line[1..])
  }

  /**
   * A line that begins with m names the module m exactly when the line
   * ends there or a space follows.
   */
  lemma {:induction false} LineNameOfPrefix(line: string, m: string)
    requires m <= line && ' ' !in m
    ensures LineName(line) == m <==> |line| == |m| || line[|m|] == ' '
  {
    if m != [] {
      LineNameOfPrefix(line[1..], m[1..]);
      assert line[1..][|m| - 1..] == line[|m|..];
    } else if line != [] && line[0] != ' ' {
      assert LineName(line)[0] == line[0];
    }
  }

  /** The table after `modprobe m` succeeded: the kernel lists the module. */
  function KernelAfterLoad(table: seq<string>, m: string): seq<string> {
    table + [m]
  }

  /** The table after `modprobe -r m` succeeded: the lines naming m are gone. */
  function KernelAfterUnload(table: seq<string>, m: string): (r: seq<string>)
    ensures forall l :: l in r <==> l in table && LineName(l) != m
    decreases |table|
  {
    if table == [] then []
    else
      var rest := KernelAfterUnload(table[1..], m);
      assert forall l | l in table :: l == table[0] || l in table[1..];
      if LineName(table[0]) == m then rest else [table[0]] + rest
  }

  /** The table the kernel reports after the commands a runtime step issued. */
  function KernelAfter(d: Direction, table: seq<string>, m: string, issued: seq<string>): seq<string> {
    if issued == [] then table
    else match d
      case Load => KernelAfterLoad(table, m)
      case Unload => KernelAfterUnload(table, m)
  }

  /**
   * Applying install twice: the second run writes no file, requests no
   * rebuild and issues no modprobe.
   */
  lemma InstallIdempotent(t: Target, files: map<string, string>, table: seq<string>)
    requires WellFormedTable(table) && '\n' !in t.modname
    ensures var once := FileStep(Install, t, files).files;
            var table' := KernelAfter(Load, table, t.modname, RuntimeStep(Install, table, t.modname));
            && FileStep(Install, t, once) == FileOutcome(once, false)
            && RuntimeStep(Install, table', t.modname) == []
  {
    FileStepIdempotent(Install, t, files);
    var m := t.modname;
    if RuntimeStep(Install, table, m) != [] {
      var table' := KernelAfterLoad(table, m);
      assert m in table' && m <= m;
      ModuleLoadedIffLineBegins(table', m);
    }
  }

  /**
   * Applying uninstall or blacklist twice: the second run writes no file
   * and requests no rebuild, and it issues no modprobe exactly when no
   * line of the table begins with the module name while naming another
   * module (a longer name such as "nf_conntrack_ipv4" for "nf_conntrack"),
   * which the prefix probe would still report as this module.
   */
  lemma UnloadIdempotentIffNoCollision(a: Action, t: Target, files: map<string, string>, table: seq<string>)
    requires a != Install
    requires WellFormedTable(table) && '\n' !in t.modname && t.modname != []
    ensures var once := FileStep(a, t, files).files;
            var table' := KernelAfter(Unload, table, t.modname, RuntimeStep(a, table, t.modname));
            && FileStep(a, t, once) == FileOutcome(once, false)
            && (RuntimeStep(a, table', t.modname) == []
                <==> !exists l | l in table :: t.modname <= l && LineName(l) != t.modname)
  {
    FileStepIdempotent(a, t, files);
    var m := t.modname;
    ModuleLoadedIffLineBegins(table, m);
    if ModuleLoaded(table, m) {
      var table' := KernelAfterUnload(table, m);
      assert WellFormedTable(table');
      ModuleLoadedIffLineBegins(table', m);
    }
  }

  /**
   * The prefix probe at work: with only "nf_conntrack_ipv4" listed, install
   * of "nf_conntrack" issues no modprobe, and unload issues
   * `modprobe -r nf_conntrack` on every run, since the kernel's table does
   * not change.
   */
  lemma PrefixCollisionRuntime()
    ensures var line := "nf_conntrack_ipv4 16384";
            var m := "nf_conntrack";
            && RuntimeStep(Install, [line], m) == []
            && RuntimeStep(Uninstall, [line], m) == ["modprobe -r " + m]
            && KernelAfter(Unload, [line], m, RuntimeStep(Uninstall, [line], m)) == [line]
  {
    var line, m := "nf_conntrack_ipv4 16384", "nf_conntrack";
    LineGivesMatch([line], m, 0);
    CollidingLineSurvives(line, m);
  }

  /** A line whose name extends m past its end is not removed by unloading m. */
  lemma CollidingLineSurvives(line: string, m: string)
    requires m <= line && ' ' !in m && |line| > |m| && line[|m|] != ' '
    ensures LineName(line) != m
    ensures KernelAfterUnload([line], m) == [line]
  {
  }

  /**
   * Whether a line that begins with m names another module depends only on
   * what follows m there: the other module's name goes on past m with a
   * character that is not a space.
   */
  lemma CollisionIsLongerName(table: seq<string>, m: string)
    requires ' ' !in m
    ensures (exists l | l in table :: m <= l && LineName(l) != m)
            <==> (exists l | l in table :: m <= l && |l| > |m| && l[|m|] != ' ')
  {
    forall l | l in table && m <= l {
      LineNameOfPrefix(l, m);
    }
  }

  /**
   * A module the kernel lists under another spelling: modprobe accepts
   * "snd-hda-intel" while the table lists "snd_hda_intel", and
   * `^snd-hda-intel` never matches that line. install then issues modprobe
   * on every run, and uninstall never issues modprobe -r.
   */
  lemma OtherSpellingRuntime()
    ensures var line := "snd_hda_intel 172032 0";
            var m := "snd-hda-intel";
            && RuntimeStep(Install, [line], m) == ["modprobe " + m]
            && RuntimeStep(Uninstall, [line], m) == []
  {
    var line, m := "snd_hda_intel 172032 0", "snd-hda-intel";
    assert line[3] != m[3];
    assert !(m <= line);
    ModuleLoadedIffLineBegins([line], m);
  }
}
