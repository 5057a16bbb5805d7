/**
 * The configuration files of the kernel_module resource: where they live,
 * what they hold, which of them each action declares, and how a declared
 * file resource converges the host's files toward its desired state.
 * The host's files are a map from path to content; a path missing from
 * the map is a file that does not exist.
 */
module KernelModuleFiles {

  datatype Option<T> = None | Some(value: T)

  /** The three persistent actions of the resource. */
  datatype Action = Install | Uninstall | Blacklist

  /** The resource's properties: the module name and the two directories. */
  datatype Target = Target(modname: string, loadDir: string, unloadDir: string)

  const DefaultLoadDir: string := "/etc/modules-load.d"
  const DefaultUnloadDir: string := "/etc/modprobe.d"

  /** A resource that sets only its name takes the default directories. */
  function DefaultTarget(modname: string): (t: Target)
    ensures t.modname == modname
    ensures LoadConfPath(t) == "/etc/modules-load.d/" + modname + ".conf"
    ensures BlacklistConfPath(t) == "/etc/modprobe.d/blacklist_" + modname + ".conf"
  {
    Target(modname, DefaultLoadDir, DefaultUnloadDir)
  }

  /** The file that makes the module load on boot. */
  function LoadConfPath(t: Target): string {
    t.loadDir + "/" + t.modname + ".conf"
  }

  /** Its content: the module name on a line of its own. */
  function LoadConfContent(t: Target): string {
    t.modname + "\n"
  }

  /** The file that keeps the module from loading. */
  function BlacklistConfPath(t: Target): string {
    t.unloadDir + "/blacklist_" + t.modname + ".conf"
  }

  /** Its content, deliberately without a trailing newline. */
  function BlacklistConfContent(t: Target): string {
    "blacklist " + t.modname
  }

  /**
   * The two configuration paths of one resource never coincide, whatever
   * the directories: both end in modname + ".conf", and the character
   * just before that is '/' in one and '_' in the other.
   */
  lemma ConfigPathsDistinct(t: Target)
    ensures LoadConfPath(t) != BlacklistConfPath(t)
  {
    var a, b := LoadConfPath(t), BlacklistConfPath(t);
    var n := |t.modname + ".conf"|;
    assert a[|a| - n - 1] == '/';
    assert b[|b| - n - 1] == '_';
  }

  /** One declared file resource: content None is `action :delete`. */
  datatype FileSpec = FileSpec(path: string, content: Option<string>)

  /** The file resources each action declares, in declaration order. */
  function DesiredFiles(a: Action, t: Target): (r: seq<FileSpec>)
    ensures forall i | 0 <= i < |r| :: r[i].path == LoadConfPath(t) || r[i].path == BlacklistConfPath(t)
    ensures forall i | 0 <= i < |r| :: r[i].content == None <==> a == Uninstall
    ensures forall i | 0 <= i < |r| :: r[i].path == LoadConfPath(t) && a == Install ==> r[i].content == Some(LoadConfContent(t))
    ensures forall i | 0 <= i < |r| :: r[i].path == BlacklistConfPath(t) && a == Blacklist ==> r[i].content == Some(BlacklistConfContent(t))
    ensures (exists i | 0 <= i < |r| :: r[i].path == LoadConfPath(t)) <==> a != Blacklist
    ensures (exists i | 0 <= i < |r| :: r[i].path == BlacklistConfPath(t)) <==> a != Install
    ensures DistinctPaths(r)
  {
    ConfigPathsDistinct(t);
    match a
    case Install =>
      var r := [FileSpec(LoadConfPath(t), Some(LoadConfContent(t)))];
      assert r[0].path == LoadConfPath(t);
      r
    case Uninstall =>
      var r := [FileSpec(LoadConfPath(t), None), FileSpec(BlacklistConfPath(t), None)];
      assert r[0].path == LoadConfPath(t) && r[1].path == BlacklistConfPath(t);
      r
    case Blacklist =>
      var r := [FileSpec(BlacklistConfPath(t), Some(BlacklistConfContent(t)))];
      assert r[0].path == BlacklistConfPath(t);
      r
  }

  /** No two declared files share a path. */
  predicate DistinctPaths(specs: seq<FileSpec>) {
    forall i, j | 0 <= i < j < |specs| :: specs[i].path != specs[j].path
  }

  /** The content at a path, None when no file exists there. */
  function Lookup(files: map<string, string>, path: string): Option<string> {
    if path in files then Some(files[path]) else None
  }

  /** The file is already in the state the resource declares. */
  predicate Holds(files: map<string, string>, f: FileSpec) {
    Lookup(files, f.path) == f.content
  }

  /** The files after converging, and whether the resource was updated. */
  datatype FileOutcome = FileOutcome(files: map<string, string>, updated: bool)

  /**
   * Converging one file resource: write the content (or delete the file)
   * unless the file already matches; only an actual change counts as an
   * update, and only an update sends the resource's notification.
   */
  function Converge(files: map<string, string>, f: FileSpec): (r: FileOutcome)
    ensures Holds(r.files, f)
    ensures r.updated <==> !Holds(files, f)
    ensures r.updated <==> r.files != files
    ensures forall p | p != f.path :: Lookup(r.files, p) == Lookup(files, p)
  {
    if Holds(files, f) then
      FileOutcome(files, false)
    else
      match f.content
      case Some(c) =>
        assert Lookup(files[f.path := c], f.path) != Lookup(files, f.path);
        FileOutcome(files[f.path := c], true)
      case None =>
        assert f.path in files && f.path !in files - {f.path};
        FileOutcome(files - {f.path}, true)
  }

  /**
   * Converging the declared file resources in order; the outcome is updated
   * when any one of them was.
   */
  function ConvergeAll(files: map<string, string>, specs: seq<FileSpec>): (r: FileOutcome)
    ensures !r.updated <==> forall i | 0 <= i < |specs| :: Holds(files, specs[i])
    ensures !r.updated ==> r.files == files
    decreases |specs|
  {
    if specs == [] then
      FileOutcome(files, false)
    else
      var first := Converge(files, specs[0]);
      var rest := ConvergeAll(first.files, specs[1..]);
      FileOutcome(rest.files, first.updated || rest.updated)
  }

  /** Paths that no declared resource names keep their content. */
  lemma {:induction false} ConvergeAllFrame(files: map<string, string>, specs: seq<FileSpec>, p: string)
    requires forall i | 0 <= i < |specs| :: specs[i].path != p
    ensures Lookup(ConvergeAll(files, specs).files, p) == Lookup(files, p)
    decreases |specs|
  {
    if specs != [] {
      var first := Converge(files, specs[0]);
      ConvergeAllFrame(first.files, specs[1..], p);
    }
  }

  /** With distinct paths, every declared resource holds afterwards. */
  lemma {:induction false} ConvergeAllReaches(files: map<string, string>, specs: seq<FileSpec>)
    requires DistinctPaths(specs)
    ensures forall i | 0 <= i < |specs| :: Holds(ConvergeAll(files, specs).files, specs[i])
    decreases |specs|
  {
    if specs != [] {
      var first := Converge(files, specs[0]);
      var tail := specs[1..];
      ConvergeAllReaches(first.files, tail);
      ConvergeAllFrame(first.files, tail, specs[0].path);
      forall i | 0 <= i < |specs|
        ensures Holds(ConvergeAll(files, specs).files, specs[i])
      {
        if i > 0 {
          assert specs[i] == tail[i - 1];
        }
      }
    }
  }

  /**
   * With distinct paths, the resources report an update exactly when the
   * files changed: no notification without a change, no change without one.
   */
  lemma UpdatedIffChanged(files: map<string, string>, specs: seq<FileSpec>)
    requires DistinctPaths(specs)
    ensures ConvergeAll(files, specs).updated <==> ConvergeAll(files, specs).files != files
  {
    var r := ConvergeAll(files, specs);
    if r.updated {
      var i :| 0 <= i < |specs| && !Holds(files, specs[i]);
      ConvergeAllReaches(files, specs);
      assert Lookup(r.files, specs[i].path) != Lookup(files, specs[i].path);
    }
  }

  /** Converging twice: the second pass finds nothing to do. */
  lemma ConvergeAllIdempotent(files: map<string, string>, specs: seq<FileSpec>)
    requires DistinctPaths(specs)
    ensures var once := ConvergeAll(files, specs).files;
            ConvergeAll(once, specs) == FileOutcome(once, false)
  {
    ConvergeAllReaches(files, specs);
  }
}
