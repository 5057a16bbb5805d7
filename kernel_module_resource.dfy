/**
 * The kernel_module resource acting on a host. The host holds its files
 * (path to content), the kernel's module table (one line per loaded
 * module), whether the shared "update initramfs" execute resource has
 * been notified, and the log of the commands the resource has run.
 */
module KernelModuleResource {
  import opened KernelModuleHelpers
  import Files = KernelModuleFiles
  import Actions = KernelModuleActions

  class Host {
    var files: map<string, string>
    var modules: seq<string>
    var rebuildArmed: bool
    var commands: seq<string>

    constructor (files: map<string, string>, modules: seq<string>)
      ensures this.files == files && this.modules == modules
      ensures !rebuildArmed && commands == []
    {
      this.files := files;
      this.modules := modules;
      rebuildArmed := false;
      commands := [];
    }

    /**
     * Converges one declared file resource: writes its content, or deletes
     * the file, unless the file is already in that state. An update
     * notifies the delayed rebuild.
     */
    method ConvergeFile(f: Files.FileSpec) returns (updated: bool)
      modifies this`files, this`rebuildArmed
      ensures Files.FileOutcome(files, updated) == Files.Converge(old(files), f)
      ensures rebuildArmed == (old(rebuildArmed) || updated)
    {
      if Files.Lookup(files, f.path) == f.content {
        updated := false;
      } else {
        match f.content {
          case Some(c) =>
            files := files[f.path := c];
          case None =>
            files := files - {f.path};
        }
        updated := true;
        rebuildArmed := true;
      }
    }

    /** The load action: modprobe the module unless the table lists it. */
    method Load(modname: string)
      modifies this`commands
      ensures commands == old(commands) + Actions.ModprobeCommands(Actions.Load, ModuleLoaded(modules, modname), modname)
    {
      if !ModuleLoaded(modules, modname) {
        commands := commands + ["modprobe " + modname];
      }
    }

    /** The unload action: modprobe -r the module when the table lists it. */
    method Unload(modname: string)
      modifies this`commands
      ensures commands == old(commands) + Actions.ModprobeCommands(Actions.Unload, ModuleLoaded(modules, modname), modname)
    {
      if ModuleLoaded(modules, modname) {
        commands := commands + ["modprobe -r " + modname];
      }
    }

    /** The install action: the load file and the load action. */
    method Install(t: Files.Target)
      requires !rebuildArmed
      modifies this`files, this`rebuildArmed, this`commands
      ensures Files.FileOutcome(files, rebuildArmed) == Actions.FileStep(Files.Install, t, old(files))
      ensures commands == old(commands) + Actions.RuntimeStep(Files.Install, modules, t.modname)
    {
      var _ := ConvergeFile(Files.FileSpec(Files.LoadConfPath(t), Files.Some(Files.LoadConfContent(t))));
      Load(t.modname);
    }

    /** The uninstall action: deleting both files and the unload action. */
    method Uninstall(t: Files.Target)
      requires !rebuildArmed
      modifies this`files, this`rebuildArmed, this`commands
      ensures Files.FileOutcome(files, rebuildArmed) == Actions.FileStep(Files.Uninstall, t, old(files))
      ensures commands == old(commands) + Actions.RuntimeStep(Files.Uninstall, modules, t.modname)
    {
      ghost var before := files;
      var loadConf := Files.FileSpec(Files.LoadConfPath(t), Files.None);
      var blacklistConf := Files.FileSpec(Files.BlacklistConfPath(t), Files.None);
      var _ := ConvergeFile(loadConf);
      ghost var between := files;
      var _ := ConvergeFile(blacklistConf);
      assert Files.ConvergeAll(between, [blacklistConf]).files == files;
      assert [loadConf, blacklistConf][1..] == [blacklistConf];
      Unload(t.modname);
    }

    /** The blacklist action: the blacklist file and the unload action. */
    method Blacklist(t: Files.Target)
      requires !rebuildArmed
      modifies this`files, this`rebuildArmed, this`commands
      ensures Files.FileOutcome(files, rebuildArmed) == Actions.FileStep(Files.Blacklist, t, old(files))
      ensures commands == old(commands) + Actions.RuntimeStep(Files.Blacklist, modules, t.modname)
    {
      var _ := ConvergeFile(Files.FileSpec(Files.BlacklistConfPath(t), Files.Some(Files.BlacklistConfContent(t))));
      Unload(t.modname);
    }

    /**
     * The delayed notifications at the end of an action: the execute
     * resource "update initramfs" runs the platform's rebuild command once
     * if any file resource notified it.
     */
    method RunDelayedRebuild(debianFamily: bool)
      modifies this`rebuildArmed, this`commands
      ensures !rebuildArmed
      ensures commands == old(commands) + Actions.RebuildCommands(old(rebuildArmed), debianFamily)
    {
      if rebuildArmed {
        commands := commands + [InitramfsCommand(debianFamily)];
        rebuildArmed := false;
      }
    }
  }

  /**
   * install of br_netfilter on a host with no configuration and the module
   * not loaded: the load file appears, and one rebuild and one modprobe run.
   */
  method InstallBrNetfilter(debianFamily: bool)
  {
    var t := Files.DefaultTarget("br_netfilter");
    var host := new Host(map[], []);
    ModuleLoadedIffLineBegins([], "br_netfilter");
    host.Install(t);
    Actions.InstallFiles(t, map[]);
    assert Files.Lookup(host.files, Files.LoadConfPath(t)) == Files.Some(Files.LoadConfContent(t));
    assert Files.LoadConfPath(t) == "/etc/modules-load.d/br_netfilter.conf";
    assert Files.LoadConfContent(t) == "br_netfilter\n";
    assert host.rebuildArmed;
    host.RunDelayedRebuild(debianFamily);
    assert |host.commands| == 2;
    assert "modprobe " + t.modname in host.commands && InitramfsCommand(debianFamily) in host.commands;
  }
}
