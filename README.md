# kernel_module: a verified model of Chef's kernel module resource

Chef's `kernel_module` resource keeps one Linux kernel module in a desired
state. Its three persistent actions decide which module configuration files
exist and what they hold, notify one shared, deferred initramfs rebuild
whenever a file changes, and dispatch to a runtime action that runs
`modprobe` only when the kernel's module table disagrees:

- `install` writes `<load_dir>/<modname>.conf` with `modname` and a newline,
  and runs `load`;
- `uninstall` deletes that file and `<unload_dir>/blacklist_<modname>.conf`,
  and runs `unload`;
- `blacklist` writes `<unload_dir>/blacklist_<modname>.conf` with
  `blacklist modname` (no trailing newline), and runs `unload`;
- `load` runs `modprobe modname` unless the module is reported loaded;
  `unload` runs `modprobe -r modname` only when it is.

The model has four modules, one per part of the resource:

- `KernelModuleHelpers` (`kernel_module_helpers.dfy`): the action class's
  helpers. `InitramfsCommand` picks `update-initramfs -u` on the Debian
  family and `dracut -f` elsewhere. `ModuleLoaded` is `module_loaded?`: the
  regular expression `^modname` searched in the text of `/proc/modules`,
  which the model builds from the table's lines. `^` matches at the start of
  the text and after any newline that is not the last character.
- `KernelModuleFiles` (`kernel_module_files.dfy`): the resource's properties
  and their defaults, the two configuration paths and contents, the file
  resources each action declares, and what converging a file resource does
  to a map from path to content. The file is written or deleted only when it
  differs, and only then is the resource updated.
- `KernelModuleActions` (`kernel_module_actions.dfy`): each action as values.
  The file step is the declared files, converged. The runtime step is the
  modprobe commands. The delayed rebuild runs at most one command. Beside
  these are the lemmas that hold of the resource as a whole.
- `KernelModuleResource` (`kernel_module_resource.dfy`): class `Host`, holding
  the files, the module table, the "update initramfs" notification flag and
  the log of commands run. Its methods are the five actions and the end of
  an action's run, when the delayed notification fires. Each method's
  postcondition ties the new state to the functions of `KernelModuleActions`.

The probe matches a prefix, as the code does: `^nf_conntrack` matches a
table line for `nf_conntrack_ipv4`. A whole-token match would be the safer
reading, but the model follows the code and proves the consequences.
`install` of such a module then runs no `modprobe`. A repeated `unload` is
silent exactly when no line begins with the name while naming a longer one,
that is, when no line goes on past the name with a character other than a
space.
The code also makes the configuration states overlap. `install` leaves an
existing blacklist file in place, and `blacklist` leaves an existing load
file in place. So `install` after `blacklist` leaves both files on disk.

To state what a second run sees, `KernelModuleActions` assumes the kernel
reacts to a successful `modprobe`. After loading, the table lists the module
under the name exactly as given. After unloading, the lines whose first
field is the name are gone. These assumptions are used only in the
idempotence lemmas. They fail for a name the kernel lists under another
spelling, such as `snd-hda-intel`, which the table lists as
`snd_hda_intel`, or an alias. For such a name `^modname` never matches, so
every `install` runs `modprobe` again and `uninstall` or `blacklist` never
runs `modprobe -r`.

`KernelModuleResource.InstallBrNetfilter` is the install example: a host
with no files and no modules loaded, where `install` of `br_netfilter` with
the default directories creates `/etc/modules-load.d/br_netfilter.conf`
holding `br_netfilter` and a newline, and one rebuild and one `modprobe
br_netfilter` run.

## Model

| member | source | states |
|---|---|---|
| KernelModuleHelpers.InitramfsCommand | lib/chef/resource/kernel_module.rb:96-102 | The rebuild command is `update-initramfs -u` on the Debian family and `dracut -f` on every other platform. |
| KernelModuleHelpers.ModuleLoadedIffLineBegins | lib/chef/resource/kernel_module.rb:106-108 | `^modname` matches the module table's text exactly when some line begins with modname (or modname is empty). It is a prefix match anchored at a line start, not a whole-token match. |
| KernelModuleHelpers.PrefixCollision | lib/chef/resource/kernel_module.rb:106-108 | A table whose only line is for `nf_conntrack_ipv4` reports `nf_conntrack` as loaded. |
| KernelModuleFiles.DefaultTarget | lib/chef/resource/kernel_module.rb:17-19 | With the default directories the files are `/etc/modules-load.d/<modname>.conf` and `/etc/modprobe.d/blacklist_<modname>.conf`. |
| KernelModuleFiles.ConfigPathsDistinct | lib/chef/resource/kernel_module.rb:27-63 | The load file and the blacklist file of one resource are never the same path, whatever the two directories are. |
| KernelModuleFiles.DesiredFiles | lib/chef/resource/kernel_module.rb:22-73 | Each action declares only the two configuration paths. A file is deleted exactly under uninstall. The load file is declared by install and uninstall, with `modname\n` under install. The blacklist file is declared by uninstall and blacklist, with `blacklist modname` under blacklist. No path is declared twice. |
| KernelModuleFiles.Converge | lib/chef/resource/kernel_module.rb:27-30 | After converging, the file is in its declared state. The resource is updated exactly when the file was not already in that state, which is exactly when the files changed. No other path changes. |
| KernelModuleFiles.ConvergeAll | lib/chef/resource/kernel_module.rb:42-50 | A sequence of file resources reports no update exactly when every file was already in its declared state, and then nothing changed. |
| KernelModuleFiles.ConvergeAllFrame | lib/chef/resource/kernel_module.rb:42-50 | Paths that no declared file resource names keep their content. |
| KernelModuleFiles.ConvergeAllReaches | lib/chef/resource/kernel_module.rb:42-50 | With distinct paths, every declared file is in its declared state afterwards. |
| KernelModuleFiles.UpdatedIffChanged | lib/chef/resource/kernel_module.rb:42-50 | With distinct paths, the file resources report an update (and notify) exactly when the files changed. |
| KernelModuleFiles.ConvergeAllIdempotent | lib/chef/resource/kernel_module.rb:42-50 | Converging the same file resources a second time changes nothing and reports no update. |
| KernelModuleActions.RuntimeAction | lib/chef/resource/kernel_module.rb:37-72 | install dispatches to load; uninstall and blacklist dispatch to unload. |
| KernelModuleActions.ModprobeCommands | lib/chef/resource/kernel_module.rb:76-91 | At most one command. load issues `modprobe modname` exactly when the module is not reported loaded. unload issues `modprobe -r modname` exactly when it is. Otherwise nothing is issued. |
| KernelModuleActions.RebuildCommands | lib/chef/resource/kernel_module.rb:32-35 | The `action :nothing` execute runs at most once, exactly when notified, and only the platform's rebuild command. |
| KernelModuleActions.FileStepFrame | lib/chef/resource/kernel_module.rb:22-73 | No action changes any path other than its two configuration paths. |
| KernelModuleActions.InstallFiles | lib/chef/resource/kernel_module.rb:27-28 | install leaves `load_dir/modname.conf` holding `modname\n`. It leaves the blacklist file and every other path as they were. |
| KernelModuleActions.BlacklistFiles | lib/chef/resource/kernel_module.rb:62-63 | blacklist leaves `unload_dir/blacklist_modname.conf` holding `blacklist modname`. It leaves the load file and every other path as they were. |
| KernelModuleActions.UninstallFiles | lib/chef/resource/kernel_module.rb:42-50 | uninstall leaves both configuration files absent and every other path as it was. It writes no content: the files afterwards are a sub-map of the files before. |
| KernelModuleActions.RebuildOnlyOnChange | lib/chef/resource/kernel_module.rb:29-35 | Each action asks for at most one rebuild, and asks for it exactly when its file step changed the files. |
| KernelModuleActions.FileStepIdempotent | lib/chef/resource/kernel_module.rb:22-73 | Re-running an action's file step writes nothing and notifies nothing. |
| KernelModuleActions.NothingToDoIffConverged | lib/chef/resource/kernel_module.rb:22-91 | An action updates no file and issues no modprobe exactly when every declared file is already in place and the module's probed state matches the action's direction. |
| KernelModuleActions.InstallIdempotent | lib/chef/resource/kernel_module.rb:22-82 | A second install, after the kernel lists the module under the given name, writes nothing, requests no rebuild and issues no modprobe. |
| KernelModuleActions.UnloadIdempotentIffNoCollision | lib/chef/resource/kernel_module.rb:85-108 | A second uninstall or blacklist writes nothing and requests no rebuild. It issues no modprobe exactly when no line begins with the module name while naming a different module. |
| KernelModuleActions.PrefixCollisionRuntime | lib/chef/resource/kernel_module.rb:76-108 | With only `nf_conntrack_ipv4` listed, install of `nf_conntrack` issues no modprobe. Uninstall issues `modprobe -r nf_conntrack`, and the table it leaves makes the next run issue it again. |
| KernelModuleActions.CollisionIsLongerName | lib/chef/resource/kernel_module.rb:106-108 | A line that begins with the module name names another module exactly when it goes on past the name with a character other than a space. |
| KernelModuleActions.OtherSpellingRuntime | lib/chef/resource/kernel_module.rb:76-108 | With only `snd_hda_intel` listed, install of `snd-hda-intel` issues `modprobe snd-hda-intel` and uninstall issues no `modprobe -r`, because the probe compares the spelling given. |
| KernelModuleResource.Host.ConvergeFile | lib/chef/resource/kernel_module.rb:27-30 | The host's files become those of converging the file resource. The rebuild is armed when the resource was updated, and stays armed if it already was. |
| KernelModuleResource.Host.Load | lib/chef/resource/kernel_module.rb:76-82 | Appends `modprobe modname` to the command log exactly when the host's table does not report the module loaded. |
| KernelModuleResource.Host.Unload | lib/chef/resource/kernel_module.rb:85-91 | Appends `modprobe -r modname` to the command log exactly when the host's table reports the module loaded. |
| KernelModuleResource.Host.Install | lib/chef/resource/kernel_module.rb:22-38 | The files and the rebuild flag become install's file step. The command log grows by the load action's commands. |
| KernelModuleResource.Host.Uninstall | lib/chef/resource/kernel_module.rb:41-58 | The files and the rebuild flag become uninstall's file step, both deletions. The command log grows by the unload action's commands. |
| KernelModuleResource.Host.Blacklist | lib/chef/resource/kernel_module.rb:61-73 | The files and the rebuild flag become blacklist's file step. The command log grows by the unload action's commands. |
| KernelModuleResource.Host.RunDelayedRebuild | lib/chef/resource/kernel_module.rb:32-35 | The platform's rebuild command is appended once if the rebuild was armed, and not otherwise. Afterwards the rebuild is disarmed. |

## Left out

- Creation of `load_dir` with `recursive true` (lines 23-25): a directory primitive of the framework. The file map has no directories.
- Reading `/proc/modules` (line 107): the table is a field of the host, given as lines without newlines. The module name is read literally. The code puts it into the regular expression unescaped, so a name with metacharacters would behave differently.
- The kernel's own response to `modprobe` is not part of the resource. It appears only as stated assumptions in the idempotence lemmas.
- `shell_out!` failures (lines 79, 88) and a failing rebuild: commands are appended to a log and always succeed.
- File writes and deletes always succeed. In the code, writing into a missing directory raises, for example `blacklist` with an `unload_dir` that does not exist (lines 61-65 declare no directory for it), as does an unwritable path.
- KernelModuleActions.InstallIdempotent: assumes the kernel lists the module under the name exactly as given. This needs the kernel's canonical name, with no dashes and no alias; otherwise the second install issues `modprobe` again (`OtherSpellingRuntime`).
- `platform_family?` (line 97): the platform is a boolean parameter.
- The resource framework: `resource_name`, `provides`, property declaration and validation (lines 14-19), `converge_by` and why-run reporting, and file attributes other than content.
- The relative order of `run_action(:load)` or `run_action(:unload)` and the convergence of the declared files and the execute resource. This depends on the framework's compile and converge phases. The delayed rebuild is its own method (`Host.RunDelayedRebuild`), and no order between it and modprobe is stated.
- KernelModuleResource.Host.Install: requires the rebuild flag to be clear on entry, as are Uninstall and Blacklist. Each action declares its own execute resource and its own delayed notifications, so no earlier notification is pending.
