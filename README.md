# Oreon System Manager: a verified model of its data logic

This project models the non-graphical core of Oreon System Manager, a Qt
desktop tool for Fedora-based systems, and proves properties of that model
in Dafny.

The centre is the privileged task executor (module `Executor`, class
`PrivilegedExecutor`). It queues privileged commands and runs them one at
a time through `pkexec` or `sudo -n`. It reports each task's start,
progress, end, error and cancellation as signals. It also attempts to
invoke the caller's slot strings (`SlotInvoked` events); whether such a
call reaches a method is not modelled. The model covers:

- the FIFO queue, the current-task slot, the running flag and the id
  counter;
- the process lifecycle, fed in as events;
- cancellation of one task or of all of them;
- introspection of what runs and what is queued;
- the memoised choice of the escalation helper;
- the request builders for dnf, repositories, systemd and files.

The class keeps an invariant (`ExecutorInv`):

- ids are fresh and ascending;
- tasks start in submission order;
- a process is live exactly while a task runs;
- a non-empty idle queue always has a scheduled wake-up left.

Around the executor sit the data parsers and list operations of the tabs:

- `Packages`: the `dnf list` and `dnf info` parsers, the merge of the
  installed and available lists, the view filter, and the selection
  filters.
- `Repositories`: the `dnf repolist --verbose` state machine, the parsers
  of `flatpak remotes` and of `dnf repoinfo` blocks, the checkbox handling,
  and the Flathub check.
- `Drivers`: `lsmod`, the two lsmod scan loops, `formatSize`, the
  driver-package choice, and the table search.
- `Devices`: `lsusb` and `lspci`, with the regular-expression prefixes they
  strip, and the two device scans.
- `Containers`: the upsert by ID, the search filter, durations, status
  colours and icons, and the runtime argument lists.
- `Audio`: the PipeWire, PulseAudio and ALSA info parsers, the sink rows,
  the audio-system choice, and the scanning guard.

Two more modules support the rest:

- `Text` states the Qt string operations these parsers use over
  `seq<char>`: `split`, `trimmed`, `startsWith`, `contains`,
  `lastIndexOf`, `toLower`, number rendering and `toInt`.
- `Json` models `QJsonObject` as a map from keys to string or integer
  values.

Processes, probes and other I/O become parameters:

- an exit code and output text for each external command;
- a boolean for each availability probe;
- a `parse` function for JSON decoding.

Code that loops or updates fields in place is modelled as methods of
classes:

- the executor;
- the package view;
- the repository tab;
- the driver lists;
- the container lists;
- the audio device table.

Each such method is proved against a specification function. Pure parsing
is modelled as functions and lemmas.

## Model

| member | source | states |
|---|---|---|
| Executor.PrivilegedExecutor.constructor | src/privilegedexecutor.cpp:10-20 | a new executor is idle with an empty queue and no events, the next id is 1, and the invariant holds |
| Executor.PrivilegedExecutor.Submit | src/privilegedexecutor.cpp:41-57 | the new task takes the next id, which was never used before and is not queued; the counter goes up by one and the task goes to the tail of the queue; when idle, one wake-up is scheduled; nothing else changes and the invariant is kept |
| Executor.SubmitKeeps | src/privilegedexecutor.cpp:330-338 | appending a task with the counter's id and incrementing the counter preserves the executor invariant (fresh ascending ids, pending wake-up when idle) |
| Executor.PrivilegedExecutor.ProcessNextTask | src/privilegedexecutor.cpp:318-328 | while a task runs or the queue is empty, a wake-up changes nothing but consume itself; otherwise the head is dequeued and becomes current, so tasks start in submission order |
| Executor.PrivilegedExecutor.StartTask | src/privilegedexecutor.cpp:349-378 | the task becomes current and its id is recorded as started; with no escalation helper it fails at once with the no-method error and schedules the next task, otherwise the helper process is launched and the task runs |
| Executor.PrivilegedExecutor.LaunchProcess | src/privilegedexecutor.cpp:360-375 | the process is started with the helper program and argv built for the current task, and is live afterwards |
| Executor.StartKeeps | src/privilegedexecutor.cpp:349-352 | dequeuing the head into the current slot keeps the invariant: the started ids stay ascending and below every queued id |
| Executor.WakeupKeeps | src/privilegedexecutor.cpp:320-324 | a wake-up that finds the executor busy or the queue empty keeps the invariant |
| Executor.PrivilegeResolver.constructor | src/privilegedexecutor.cpp:8 | the cached helper starts empty |
| Executor.PrivilegeResolver.GetPrivilegeMethod | src/privilegedexecutor.cpp:269-282 | a cached helper is returned unchanged; otherwise pkexec is preferred over sudo; the result is cached, and an empty result leaves the cache empty so the next call probes again |
| Executor.HelperArgvRoundTrip | src/privilegedexecutor.cpp:354-372 | the helper argv is `[command] + args` for pkexec and `["-n", command] + args` for sudo: the command and arguments can be read back from it exactly |
| Executor.PrivilegedExecutor.ExecuteCommand | src/privilegedexecutor.cpp:22-39 | with no helper the exit code is -1 and nothing runs; otherwise the command is run through the resolved helper with the escalated argv and its exit code is returned |
| Executor.PrivilegedExecutor.FinishCurrentTask | src/privilegedexecutor.cpp:380-403 | emits the finish events of the current task, clears the running flag and the process, and schedules the next task |
| Executor.FinishEventsSpec | src/privilegedexecutor.cpp:380-403 | `taskFinished` is always emitted last; a slot call precedes it exactly when a receiver and the success slot (exit code 0) or error slot (non-zero) exist, and that slot gets the output |
| Executor.PrivilegedExecutor.ErrorCurrentTask | src/privilegedexecutor.cpp:405-423 | emits the error events of the current task, clears the running flag and the process, and schedules the next task |
| Executor.PrivilegedExecutor.OnStarted | src/privilegedexecutor.cpp:284-287 | emits `taskStarted` with the current id and description and changes nothing else |
| Executor.PrivilegedExecutor.OnReadyRead | src/privilegedexecutor.cpp:301-316 | with a live process, a non-empty chunk is reported as progress of the current task; otherwise nothing is emitted |
| Executor.PrivilegedExecutor.OnFinished | src/privilegedexecutor.cpp:289-293 | a process exit finishes the current task: finish events, idle, one more wake-up; queue, current task and counter unchanged; invariant kept |
| Executor.PrivilegedExecutor.OnError | src/privilegedexecutor.cpp:295-299 | a process error ends the current task with the error events, idle, one more wake-up; queue, current task and counter unchanged; invariant kept |
| Executor.IdleKeeps | src/privilegedexecutor.cpp:380-423 | ending the current task (idle, one more wake-up) keeps the invariant |
| Executor.PrivilegedExecutor.CancelTask | src/privilegedexecutor.cpp:197-217 | on the running id the process is killed and `taskCancelled` emitted with queue, flag and current task unchanged; on a queued id exactly the first matching entry is removed and one cancellation emitted; on an unknown id nothing changes; afterwards the id is not queued |
| Executor.FindTask | src/privilegedexecutor.cpp:208-215 | the index found is that of the first queued task with the id, and none means no queued task has it |
| Executor.RemoveKeeps | src/privilegedexecutor.cpp:211-213 | removing one queued entry keeps the invariant, and its id is then no longer queued |
| Executor.RemoveAtKeepsOrder | src/privilegedexecutor.cpp:211-213 | removing the entry at k shifts the later entries down by one and keeps ascending ids |
| Executor.PrivilegedExecutor.CancelAllTasks | src/privilegedexecutor.cpp:219-233 | when running with a live process, kills it and cancels the current task first; then one `taskCancelled` per queued task in queue order; the queue ends empty and nothing else changes |
| Executor.PrivilegedExecutor.EmitCancelled | src/privilegedexecutor.cpp:225-230 | the loop emits exactly the cancellations of the queued tasks, in queue order |
| Executor.CancelledEventsAt | src/privilegedexecutor.cpp:225-230 | the k-th cancellation event names the k-th queued task |
| Executor.ClearKeeps | src/privilegedexecutor.cpp:231 | emptying the queue keeps the invariant |
| Executor.PrivilegedExecutor.IsTaskRunning | src/privilegedexecutor.cpp:235-239 | true exactly when a task runs and its id is the one asked for; a true answer means the id is not queued |
| Executor.PrivilegedExecutor.GetRunningTasks | src/privilegedexecutor.cpp:241-255 | the current description when running, followed by the queued descriptions in FIFO order; the state is not changed |
| Executor.DescriptionsAt | src/privilegedexecutor.cpp:248-252 | the k-th queued description is that of the k-th queued task |
| Executor.PrivilegedExecutor.WriteSystemFile | src/privilegedexecutor.cpp:164-185 | without a temporary file, only the error slot is invoked and no task is queued; otherwise a `cp temp path` task is submitted with the next id, the caller's receiver, success and error slots, and no progress slot; the counter goes up by one, one wake-up is added only when idle, and the process and current task are unchanged |
| Executor.BuildCommand | src/privilegedexecutor.cpp:340-347 | the loop yields the command and its arguments joined by single spaces |
| Executor.CommandLineRoundTrip | src/privilegedexecutor.cpp:340-347 | when no word holds a space, splitting the built line at spaces gives back the command and its arguments |
| Executor.PackageRequestsAgree | src/privilegedexecutor.cpp:59-102 | the install, remove and update requests run `dnf <verb> -y` on the packages, and their descriptions list the same packages |
| Executor.UpdateAllPackages | src/privilegedexecutor.cpp:85-93 | an empty update list gives `dnf update -y` described as "Updating all packages" |
| Executor.RepositoryRequestLines | src/privilegedexecutor.cpp:103-131 | the repository wrappers run `dnf config-manager --enable <repo>`, `dnf config-manager --disable <repo>` and `dnf config-manager --add-repo <url>` |
| Executor.ServiceRequestLines | src/privilegedexecutor.cpp:133-161 | the service wrappers run `systemctl enable <service>`, `systemctl disable <service>` and `systemctl restart <service>` |
| Executor.DeleteRequestLine | src/privilegedexecutor.cpp:187-195 | deleting a system file runs `rm <path>` |
| Packages.LastDot | src/packagemanager.cpp:879-880 | the index found is a '.' with no '.' after it, and none means the field holds no '.' |
| Packages.NameArchRejoin | src/packagemanager.cpp:879-887 | the field is split at its last '.' into a non-empty name and an arch that rejoin to the field, or kept whole with arch "noarch" |
| Packages.NameArchRoundTrip | src/packagemanager.cpp:879-887 | splitting `name.arch` gives back the name and the arch |
| Packages.ParsePackageLineRoundTrip | src/packagemanager.cpp:870-895 | a line of four words `name.arch version repo` parses to exactly that package, installed as the flag says and with no update |
| Packages.ParsedLineShape | src/packagemanager.cpp:876-892 | every parsed record has a non-empty name, version and repository taken from single fields, `isInstalled` equal to the flag and no update flagged |
| Packages.ParsePackageLinesAppend | src/packagemanager.cpp:868-897 | the parse of two runs of lines is the concatenation of their parses, so input order is kept |
| Packages.ParsePackageLinesMembers | src/packagemanager.cpp:864-899 | a package is in the list exactly when some line parses to it |
| Packages.MergeKeyedByName | src/packagemanager.cpp:797-839 | in the merge as written, every map entry is stored under its own package name |
| Packages.MergeKeys | src/packagemanager.cpp:797-839 | in the merge as written, the merged names are exactly the installed names and the available names |
| Packages.MergeInstalledEntry | src/packagemanager.cpp:827-834 | in the merge as written, an entry already in the map keeps all its fields except the update fields; it is flagged exactly when it was already or some available entry of its name has a different version, its update version is then that of the last such entry, and with no such entry it is unchanged |
| Packages.MergeAvailableOnlyEntry | src/packagemanager.cpp:826-837 | a name absent from the installed map holds the first available entry of that name, apart from the update fields; the later entries of the name flag it, with the version of the last one that differs, and with none it is that first entry unchanged |
| Packages.MergeFlagsOnlyInstalled | src/packagemanager.cpp:826-839 | with the corrected merge step, only installed packages are ever flagged as updatable |
| Packages.MergeStepsAgreeOnInstalled | src/packagemanager.cpp:828-834 | the corrected step and the step as written agree whenever the name is absent or installed |
| Packages.MergeAsWrittenFlagsUninstalled | src/packagemanager.cpp:828-834 | as written, two available builds of a package that is not installed leave it flagged as updatable |
| Packages.MergedValuesAscending | src/packagemanager.cpp:844 | the map's values come in strictly ascending name order, each the entry for its name, with every name present |
| Packages.MergePackageLists | src/packagemanager.cpp:781-852 | the worker's result is the values of the installed map merged, as written, with the available list (any name already present is flagged on a differing version); a failed listing contributes nothing |
| Packages.FilterMembers | src/packagemanager.cpp:380-404 | a package is shown exactly when it is in the list and passes the selected filter |
| Packages.FilterAppend | src/packagemanager.cpp:386-401 | filtering keeps the input order |
| Packages.FilterAllAndUnknown | src/packagemanager.cpp:384-401 | "All Packages" shows everything and an unknown filter shows nothing |
| Packages.PackageManager.ApplyPackageFilter | src/packagemanager.cpp:380-404 | the filtered list becomes the filter of all packages and nothing else changes |
| Packages.EligibleNamesMembers | src/packagemanager.cpp:585-667 | the names passed on are exactly those of selected packages that are not installed, installed, or updatable (per action), and the list is empty only when none is |
| Packages.SelectedRequestSpec | src/packagemanager.cpp:585-667 | a dnf request is submitted exactly when the user confirms and some selected package is eligible; it runs `dnf install -y`, `dnf remove -y` or `dnf update -y` as the action says, and its package arguments are the eligible names |
| Packages.UpdateAll | src/packagemanager.cpp:669-679 | a request is submitted exactly when the user confirms; it is `dnf update -y` described as "Updating all packages", the same request as an update of no named packages |
| Packages.InfoKey | src/packagemanager.cpp:922-934 | the field picked is the first prefix in the chain the line starts with, and none means no prefix matches |
| Packages.SetInfoFieldSpec | src/packagemanager.cpp:922-934 | storing a field changes that field and no other |
| Packages.InfoKeepsFlags | src/packagemanager.cpp:916-940 | the info lines never touch the installed, update and install-date fields |
| Packages.InfoLastWins | src/packagemanager.cpp:916-940 | each field takes the text after the last ':' of the last line that names it |
| Packages.InfoUnnamedKeeps | src/packagemanager.cpp:916-940 | a field no line names keeps its initial value |
| Packages.KeepNamedMembers | src/packagemanager.cpp:901-914 | a record is returned exactly when some block parses to it and its name is non-empty |
| Repositories.FieldValueAfterLastColon | src/repositorymanager.cpp:828-845 | a field is the trimmed text after the last ':' of its line, so "https://x" gives "//x" |
| Repositories.ClassifyAll | src/repositorymanager.cpp:817-847 | each output line is classified once, and line count is kept |
| Repositories.ParseRepositoryList | src/repositorymanager.cpp:811-855 | the state machine returns the records of the Repo-id sections with a non-empty id, in input order |
| Repositories.FillRecord | src/repositorymanager.cpp:830-846 | one line inside a record updates the field its key names |
| Repositories.TracksIdLine | src/repositorymanager.cpp:822-828 | a Repo-id line emits the open record when its id is non-empty and opens a new record |
| Repositories.TracksOtherLine | src/repositorymanager.cpp:829-847 | any other line fills the open record, and is ignored before the first Repo-id line |
| Repositories.TracksStep | src/repositorymanager.cpp:817-848 | one loop iteration keeps the parser state in step with the sections of the lines read |
| Repositories.TracksAll | src/repositorymanager.cpp:850-852 | the final flush of the open record yields the records of all sections |
| Repositories.SectionsPartition | src/repositorymanager.cpp:817-848 | the sections are the lines from the first Repo-id line on, cut before each Repo-id line, and no Repo-id line is inside a section |
| Repositories.SectionsFlatten | src/repositorymanager.cpp:817-848 | concatenating the sections gives the lines from the first Repo-id line on |
| Repositories.SectionsInner | src/repositorymanager.cpp:822-828 | only the first line of a section is a Repo-id line |
| Repositories.RecordsHaveIds | src/repositorymanager.cpp:822-852 | every emitted record has a non-empty id, and there is at most one per section |
| Repositories.RecordEnabledFollowsStatus | src/repositorymanager.cpp:832-835 | in every record, `enabled` holds exactly when the stored status contains "enabled" in any case |
| Repositories.BaseUrlWins | src/repositorymanager.cpp:836-838 | the last non-empty Repo-baseurl line sets the base URL |
| Repositories.MetalinkOnlyFills | src/repositorymanager.cpp:839-841 | without a Repo-baseurl line, a metalink never overwrites a base URL already set |
| Repositories.ParseRemoteLinesMembers | src/repositorymanager.cpp:857-882 | a remote is listed exactly when some line parses to it |
| Repositories.RemoteLineRoundTrip | src/repositorymanager.cpp:862-880 | a line of four or five tab-separated fields parses to the remote they describe: enabled unless field 2 holds "disabled", system when a fifth field holds "system" |
| Repositories.ParseRepositoryInfoEnabled | src/repositorymanager.cpp:884-907 | `enabled` holds exactly when the status is "enabled" |
| Repositories.InfoLastLineWins | src/repositorymanager.cpp:890-905 | each field takes the value of the last line that names it |
| Repositories.ToggleRequestsSpec | src/repositorymanager.cpp:445-481 | a checkbox change submits a request only for the checkbox column, a row in range and a state that differs from the record; the request enables or disables exactly that repository or remote |
| Repositories.RepositoryManager.RefreshRepositories | src/repositorymanager.cpp:344-357 | a successful listing replaces the repositories with the parsed list; a failure leaves them |
| Repositories.RepositoryManager.RefreshFlatpakRemotes | src/repositorymanager.cpp:359-376 | with flatpak available and a successful listing the remotes are replaced by the parsed list; otherwise they are left |
| Repositories.RepositoryManager.QuickAddFlathub | src/repositorymanager.cpp:909-942 | without flatpak nothing is added; with a remote named exactly "flathub" nothing is added; otherwise the remote is added |
| Drivers.FormatSizeSpec | src/drivermanager.cpp:1970-1981 | the size is the integer quotient by the unit's power of 1024, in decimal, then the unit; the quotient is below 1024 except in GB and at least 1 above bytes |
| Drivers.SizeUnit | src/drivermanager.cpp:1972-1980 | B below 1024, KB below 1024², MB below 1024³, GB from there on |
| Drivers.FormatSizeNegative | src/drivermanager.cpp:1972-1973 | a negative size is printed as is, in bytes |
| Drivers.LsmodOfWords | src/drivermanager.cpp:558-575 | for a line of space-separated words: fewer than 3 words give no record; otherwise name, size and used_count are the first three words, used_by is present exactly when there is a fourth word and is that word, status is "loaded" and type "kernel_module" |
| Drivers.DriverInfoOfWords | src/drivermanager.cpp:585-599 | for a line of space-separated words: fewer than 3 words give no record; otherwise name, size and used_by are the first three words and type is "kernel_driver" |
| Drivers.FoundMembers | src/drivermanager.cpp:222-235 | an object is emitted exactly when some kept line parses to it and it is non-empty |
| Drivers.ScanLoadedModules | src/drivermanager.cpp:202-241 | a failed lsmod reports "Failed to run lsmod"; otherwise the module records of the non-empty lines after the header, in order |
| Drivers.ScanDrivers | src/drivermanager.cpp:344-376 | a failed lsmod yields nothing; otherwise the driver records of the non-empty lines after the header, in order |
| Drivers.HeaderIgnored | src/drivermanager.cpp:222-235 | line 0 never contributes: a scan of header and body equals the scan of the body |
| Drivers.ScannedModulesLoaded | src/drivermanager.cpp:563-573 | every module the scan emits has a name, status "loaded" and type "kernel_module" |
| Drivers.DriverManager.OnHardwareFound | src/drivermanager.cpp:1222-1229 | the record is appended to the hardware list |
| Drivers.DriverManager.OnDriverFound | src/drivermanager.cpp:1231-1238 | the record is appended to the driver list |
| Drivers.DriverManager.OnModuleFound | src/drivermanager.cpp:1240-1247 | the record is appended to the module list |
| Drivers.DriverManager.ReceiveModules | src/drivermanager.cpp:1240-1247 | a run of module signals appends the scanned records in order |
| Drivers.PackageForSpec | src/drivermanager.cpp:1545-1559 | the first match in the chain wins: akmod-nvidia exactly for NVIDIA; mesa-dri-drivers exactly for AMD/ATI/Intel without NVIDIA; then NetworkManager-wifi, bluez, and @hardware-support otherwise |
| Drivers.AtiInsideWord | src/drivermanager.cpp:1548-1549 | as written, a name with "ati" inside a word (e.g. "Communications") is given mesa-dri-drivers unless it mentions NVIDIA |
| Drivers.CorrectedAgrees | src/drivermanager.cpp:1545-1559 | the corrected choice equals the choice as written whenever "ATI" appears only as a whole word |
| Drivers.CorrectedBluetooth | src/drivermanager.cpp:1548-1555 | with the correction, a Bluetooth device with no other vendor or wireless word is given bluez |
| Drivers.DriverPackageIgnoresCase | src/drivermanager.cpp:1545-1559 | the choice as written does not depend on letter case |
| Drivers.CorrectedIgnoresCase | src/drivermanager.cpp:1545-1559 | the corrected choice does not depend on letter case either |
| Drivers.InstallDriverCommandSpec | src/drivermanager.cpp:1534-1566 | a command is run exactly when a row is selected, it has a name and an executor exists; it is `sh -c` of the dnf install line for the package chosen as written |
| Drivers.DnfInstallLine | src/drivermanager.cpp:1563-1564 | the shell line splits into dnf, install, -y and the package |
| Drivers.RowVisible | src/drivermanager.cpp:1425-1436 | a row is visible exactly when the term is empty or some cell's lowercased text contains it |
| Drivers.SearchTable | src/drivermanager.cpp:1424-1437 | each row is hidden exactly when the term is non-empty and no cell matches |
| Drivers.SearchHardware | src/drivermanager.cpp:1417-1486 | each table is searched exactly when the filter is "All" or names that table |
| Drivers.RowShownPrefix | src/drivermanager.cpp:1425-1436 | a row shown for a term is shown for every prefix of that term |
| Devices.PciPrefixOf | src/drivermanager.cpp:491-492 | the address pattern strips the address and the spaces after it |
| Devices.UsbPrefixOf | src/drivermanager.cpp:528-529 | the lsusb pattern strips `Bus n Device m: ID vid:pid` and the spaces after it |
| Devices.FirstTag | src/drivermanager.cpp:495-497 | the position found is the first `[hhhh:hhhh]` tag, and none means there is no tag |
| Devices.RemoveFirstTag | src/drivermanager.cpp:495-500 | the first tag is found where it sits and is removed from the description |
| Devices.ParseLspciOutput | src/drivermanager.cpp:481-507 | the record is empty exactly when the line has fewer than 2 fields |
| Devices.PciFieldsTagged | src/drivermanager.cpp:495-503 | vendor_id and device_id are the two halves of the first tag, and the description is the trimmed text with the tag removed |
| Devices.PciFieldsUntagged | src/drivermanager.cpp:491-503 | without a tag there are no ids and the description is the trimmed text |
| Devices.LspciOfLine | src/drivermanager.cpp:481-507 | a line `address description` parses to the fields of that address and description |
| Devices.ParseLsusbOutput | src/drivermanager.cpp:509-534 | the record is empty exactly when the line has fewer than 6 fields; otherwise it is a detected usb device with bus, device and description |
| Devices.LsusbOfLine | src/drivermanager.cpp:509-534 | a standard lsusb line parses to its bus, device (colon dropped), vendor and product ids and description |
| Devices.LsusbOfFields | src/drivermanager.cpp:512-526 | field 2 is the bus, field 4 less its last character the device, and field 6 split at ':' the ids |
| Devices.UsbDescription | src/drivermanager.cpp:528-530 | the description is the text after the matched prefix, trimmed |
| Devices.ScanUsbDevices | src/drivermanager.cpp:119-156 | a failed lsusb reports "Failed to run lsusb"; otherwise the non-empty records of the lines starting "Bus ", in order |
| Devices.ScannedUsbDevices | src/drivermanager.cpp:144-148 | every emitted device is a detected usb device with bus, device and description |
| Devices.UsbLineScanned | src/drivermanager.cpp:138-150 | every standard lsusb line of the output yields its device |
| Devices.ScanPciDevices | src/drivermanager.cpp:65-117 | a failed lspci reports "Failed to run lspci"; otherwise the device records with their driver and module lines, flushed at each new device and at the end |
| Devices.PciScanPlain | src/drivermanager.cpp:85-111 | without indented lines, the scan emits the record of each non-empty line |
| Devices.PciDeviceWithDriver | src/drivermanager.cpp:91-101 | a device line followed by its driver line yields the device with that driver and status "loaded" |
| Devices.PciDriverWithoutDevice | src/drivermanager.cpp:96-110 | a driver line before any device emits a record holding only the driver and the status |
| Containers.FirstWithId | src/containermanager.cpp:998-1004 | the index found is that of the first record with the ID, and none means no record has it |
| Containers.UpsertShape | src/containermanager.cpp:995-1015 | the list grows by one only for a new ID, the new record sits at the first entry with its ID (or at the end), and every other entry is untouched |
| Containers.UpsertFinds | src/containermanager.cpp:995-1015 | after an upsert, the first entry with the ID is the one written |
| Containers.UpsertIdempotent | src/containermanager.cpp:995-1015 | reporting the same record twice is the same as reporting it once |
| Containers.UpsertKeepsDistinct | src/containermanager.cpp:995-1015 | a list with distinct IDs keeps them distinct |
| Containers.ContainerManager.OnContainerFound | src/containermanager.cpp:995-1015 | the container list becomes its upsert with the record; the images are untouched and IDs stay distinct |
| Containers.ContainerManager.OnImageFound | src/containermanager.cpp:1017-1037 | the image list becomes its upsert with the record; the containers are untouched and IDs stay distinct |
| Containers.KeptMembers | src/containermanager.cpp:57-70 | a record is reported exactly when some line decodes to it and the term is empty or one of the two fields contains it ignoring case |
| Containers.KeptAllForEmptyTerm | src/containermanager.cpp:64 | an empty term keeps every decoded record, in order |
| Containers.FilterOutput | src/containermanager.cpp:53-71 | a successful listing yields the kept records of its non-empty lines; a failure yields nothing |
| Containers.Search | src/containermanager.cpp:41-120 | for docker, containers filtered on Names/Image and then images filtered on Repository/Tag, each from a successful listing; any other runtime reports nothing |
| Containers.FormatDurationSpec | src/containermanager.cpp:461-468 | the duration is the integer quotient by the unit's seconds, then s, m, h or d; the quotient is below the next unit's size except in days and at least 1 above seconds |
| Containers.FormatDurationNegative | src/containermanager.cpp:463 | a negative duration is printed in seconds |
| Containers.StatusColorByKind | src/containermanager.cpp:470-477 | two statuses get the same colour exactly when they are of the same kind (running, stopped/exited, paused, created, other) |
| Containers.ContainerIconByKind | src/containermanager.cpp:479-486 | two statuses get the same icon exactly when they are of the same kind |
| Containers.ColorAndIconAgree | src/containermanager.cpp:470-486 | colour and icon distinguish exactly the same statuses |
| Containers.StatusColorDefault | src/containermanager.cpp:472-476 | green exactly for running; the grey default exactly for statuses outside the five named ones |
| Containers.CreateArgsRoundTrip | src/containermanager.cpp:1712-1722 | the arguments start with "run" and end with the image, and the words between read back as the dialog settings; the options, including the command text, come before the image, so the line is `run <options> <command> <image>` in the source's own order |
| Containers.CreateOptionsRoundTrip | src/containermanager.cpp:1610-1633 | the options list -i, -t, -d, --rm, --name n, -p m, -v m and the command text last, in that order, skipping unchecked or empty ones, so the settings can be read back from it; the command therefore precedes the image on the `run` line |
| Containers.PullArgsNameTag | src/containermanager.cpp:1845-1855 | the arguments start with "pull", and splitting the reference at ':' gives back the image name, and the tag when there is one |
| Containers.PullReferenceSplits | src/containermanager.cpp:1850 | the reference is the image name alone for an empty tag, else `image:tag` |
| Containers.TagImageArgs | src/containermanager.cpp:1884-1912 | a cancelled dialog or an empty tag text does nothing; otherwise the arguments are "tag", the image id and `repository:tag` |
| Containers.TagReferenceKeeps | src/containermanager.cpp:1896-1898 | a `repository:tag` text is kept as is |
| Containers.TagReferenceLatest | src/containermanager.cpp:1898 | a text without ':' is tagged "latest" |
| Containers.TagReferenceDropsRest | src/containermanager.cpp:1896-1898 | only the first two ':'-separated pieces are used |
| Containers.PullThenTag | src/containermanager.cpp:1845-1899 | tagging with the reference a pull used names the same image, with "latest" for an empty tag |
| Audio.LastFoundSpec | src/audiomanager.cpp:170-183 | the value found is that of the last line that yields one, and none means no line does |
| Audio.ParsePipeWireInfo | src/audiomanager.cpp:166-185 | the device of the last line holding "Node", "name" and a quoted name; an empty object when there is none |
| Audio.PipeWireLine | src/audiomanager.cpp:170-181 | a line with `name: "x"` after "Node" yields the name x |
| Audio.ParsePulseAudioInfo | src/audiomanager.cpp:187-209 | the device of the last "Name:" line, Output when tabbed in a sink listing, else Input; an empty object when there is none |
| Audio.PulseNameSecondPiece | src/audiomanager.cpp:197-199 | the name is the trimmed second ':'-piece of the line, not the last one |
| Audio.ParseAlsaInfo | src/audiomanager.cpp:211-232 | the device of the last line matching the card pattern: the name `card - device`, card and device as integers; an empty object when there is none |
| Audio.AlsaLine | src/audiomanager.cpp:215-229 | a line `card c: name, device d: devname...` yields exactly those four parts |
| Audio.SinkRowsBlock | src/audiomanager.cpp:1139-1158 | each "Sink #" block with a non-empty id adds one row, with the id after the 6-character prefix and the last description and state of the block |
| Audio.SinkRowsNoHeader | src/audiomanager.cpp:1139-1158 | without a "Sink #" line there are no rows |
| Audio.SinkBlock | src/audiomanager.cpp:1148-1152 | inside a block, description and state are last-wins |
| Audio.AudioManager.constructor | src/audiomanager.cpp:235-246 | the table is empty, no scan runs, auto refresh is on |
| Audio.AudioManager.RefreshDevices | src/audiomanager.cpp:1073-1104 | a scan starts exactly when none runs; it raises the flag and clears the table; otherwise nothing changes |
| Audio.AudioManager.OnRefreshTimer | src/audiomanager.cpp:1530 | the timer starts a scan exactly when auto refresh is on and no scan runs |
| Audio.AudioManager.FinishDeviceScan | src/audiomanager.cpp:1125-1130 | the scan flag is lowered and the rows are kept |
| Audio.AudioManager.ParsePulseAudioDevices | src/audiomanager.cpp:1132-1159 | the loop appends the sink rows of the listing |
| Audio.AudioManager.ParsePipeWireDevices | src/audiomanager.cpp:1161-1177 | the loop appends one row per line holding both "Node" and "Audio" |
| Audio.PipeWireRowsMembers | src/audiomanager.cpp:1165-1175 | a row is added exactly for each line holding both "Node" and "Audio", named "PipeWire Device" in state "Unknown" and described by the trimmed line |
| Audio.AudioManager.ScanDevices | src/audiomanager.cpp:1073-1130 | during a scan nothing happens; otherwise the table ends with the sink rows (when listed) then the node rows (when listed) and the flag lowered |
| Audio.AudioSystemIsFirstAvailable | src/audiomanager.cpp:432-449 | the audio system is the first available one, else "none" |
| Audio.AvailableAudioSystemsMembers | src/audiomanager.cpp:441-449 | each system is listed exactly when it is available, in the order pipewire, pulseaudio, alsa, jack |

## Left out

- Qt widgets, dialogs, tables and style sheets are left out. So are
  mainwindow.cpp and main.cpp. They are presentation only.
- QProcess, QTimer and signal delivery are left out. Process starts, output
  chunks, exits and errors are executor methods. A queued
  `processNextTask` call is counted in `wakeups`. The executor's 60-second
  timer only re-invokes `processNextTask` and is not modelled.
- Executor.PrivilegedExecutor.OnFinished: requires a live process. The
  handler dereferences the process pointer, which `errorCurrentTask` has
  already nulled when Qt reports a killed process through `errorOccurred`
  and then `finished`. "Exactly one terminal event per task" is therefore
  not claimed.
- Executor.PrivilegedExecutor.OnError: requires a live process, for the same
  reason.
- QMutex, QThread and `std::atomic` are left out. Everything is sequential.
  The `m_stopRequested` and `m_cancelled` checks in the worker loops are
  left out, because a stop request comes from another thread while the loop
  runs.
- The pkexec and sudo probes are boolean parameters. So are the other
  availability probes (flatpak, PulseAudio, PipeWire, ALSA, JACK) and the
  confirmation dialogs. Command results are an exit code and an output
  string. src/systemutils.cpp is not part of this model.
- `writeSystemFile` does not model the temporary file's I/O. It is an
  optional file name: None when creation fails.
- Executor.PrivilegedExecutor.WriteSystemFile: the `QTemporaryFile` is a
  local that removes its file when `writeSystemFile` returns, which is
  before the queued `cp <temp> <path>` task can run. The real copy then
  reads a file that no longer exists. The model records only the submitted
  request, so it does not capture this.
- Executor.PrivilegedExecutor.Submit: task ids are unbounded integers.
  `m_nextTaskId` is a C++ `int`; the model assumes it never reaches
  `INT_MAX`, so signed overflow after 2^31 - 1 submissions is not modelled.
- JSON decoding of `docker ps`/`docker images` lines is a `parse` parameter.
  `QJsonObject` is a map from keys to string or integer values.
- Containers.FormatDurationSpec: the current time is left out. The elapsed
  seconds are the input.
- Floating-point sizes are left out:
  - `ContainerManager::formatSize`;
  - `PackageSearchWorker::formatPackageSize`.
- Case-insensitive comparison and `toLower` use ASCII case folding only.
  `QChar::isSpace` covers ASCII white space, NEL, NBSP and the Unicode
  space, line and paragraph separators.
- String order for `QMap` keys is by character value. This differs from
  UTF-16 code-unit order only for supplementary-plane characters.
- Devices.ParseLspciOutput: regular expressions are modelled by an explicit
  matcher of literal pieces and character runs. It covers the anchored
  prefixes the parsers use, not general patterns.
- Devices.ParseLsusbOutput: the same regular-expression modelling applies.
- Audio.ParseAlsaInfo: the card/device pattern is modelled by a hand-written
  matcher.
- Audio.ParsePulseAudioInfo: the unused local variable of the parser is not
  modelled.
- Audio.AudioManager.ParsePulseAudioDevices: the placeholder table cells
  (volume, channels, sample rate) are not modelled. Neither is the check for
  a missing table: the table always exists here.
- Audio.AudioManager.ParsePipeWireDevices: the same two simplifications
  apply.
- The audio worker thread's orchestration (`AudioDeviceWorker::run`) is left
  out. Only the parsers it calls are modelled.
- The null checks of `m_privilegedExecutor` in the container tab are left
  out. The driver tab's check is a parameter of
  Drivers.InstallDriverCommandSpec.
- Two uninitialised booleans are taken as false:
  - `PackageInfo` in `parsePackageInfoBlock`;
  - `RepositoryInfo` in `parseRepositoryInfo`.
- A `SlotInvoked` event of the executor records an attempted
  `QMetaObject::invokeMethod(receiver, slot, ...)` call, not a delivered
  one. `invokeMethod` expects a bare method name. The repository tab passes
  `SLOT(...)`-encoded strings (src/repositorymanager.cpp:550-552 and its
  other executor calls), which name no method, so Qt would reject those
  calls and the handlers would not run. The package tab passes no slots.
  Qt's method lookup is not part of this model.
- Containers.ContainerManager.OnContainerFound: the upsert scan reads
  `m_containers[i]["ID"]` with the non-const `QJsonObject::operator[]`,
  which inserts a null "ID" into each stored record that has none.
  `Json.Value` has no null, so these inserted keys are not modelled.
  `toString()` reads a null value as "", exactly as it reads an absent key,
  so every comparison gives the same result.
- Containers.ContainerManager.OnImageFound: the same holds for
  `m_images[i]["ID"]`.
- Containers.FilterOutput: the same holds for the search lookups of "Names"
  and "Image" in container lines, and of "Repository" and "Tag" in image
  lines. The emitted records lack those null keys; which records are
  emitted does not change.
- Containers: the icon characters are modelled as the source text's literals
  decode, including its double-encoded UTF-8.
- Firmware, kernel, DKMS, EasyEffects and profile operations, and the other
  tab actions not named above, are not part of this model.

## Findings

| source | as written | input that shows it | evidently intended | confidence | as-written member | corrected member |
|---|---|---|---|---|---|---|
| src/packagemanager.cpp:828-834 | any name already in the map is flagged as updatable when an available entry's version differs, even when the entry in the map is itself an available package | available list with foo 1.0 (x86_64) and foo 1.1 (i686), foo not installed | only installed packages are flagged as having an update | not executed | Packages.MergeAsWrittenFlagsUninstalled | Packages.MergeFlagsOnlyInstalled |
| src/drivermanager.cpp:1548 | "ATI" is matched as a substring, ignoring case, so it also fires inside words | device "Atheros Communications Bluetooth" ("Communications" holds "ati") is given mesa-dri-drivers | ATI matched as a vendor word, so that device gets bluez | not executed | Drivers.AtiInsideWord | Drivers.CorrectedBluetooth |

In both rows the tab operations (Packages.MergePackageLists and
Drivers.InstallDriverCommandSpec) run the code as written. The corrected
definitions sit beside them with their intended properties proved.
