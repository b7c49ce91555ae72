# The sandboxed tool layer of basic-coding-agent, in Dafny

basic-coding-agent is a small coding agent. A language model drives it by calling tools, and the tools live in
`functions/`. Each tool works relative to a working directory. This project models three of the tools and proves
what they do:

- `run_python_file(working_directory, file_path)` (module `ScriptRunner`). It applies three guards in a fixed
  order: the target must be inside the working directory, it must be an existing regular file, and the argument
  must end in `.py`. It then starts `python3` on the script from the script's own directory with a 30 second
  timeout. Finally it builds a report from the captured stdout, stderr and exit code, or returns a timeout or
  failure text.
- `write_file(working_directory, file_path, content)` (module `FileWriter`, class `Disk`). After the containment
  test it creates the missing parent directories, writes the file, and returns a success or failure message.
- `get_files_info(working_directory, directory)` (module `DirectoryLister`). It applies four guards, then walks
  the working directory recursively. The walk prints one line per file or directory, in pre-order.

Supporting modules:

- `PosixPath` gives the pure path functions the tools call. These are `os.path.join`, `normpath`, `abspath`,
  `basename` and `dirname`, with the process directory `cwd` passed in explicitly.
- `PathGuard` holds the containment test the runner and the writer share. That test is a raw string prefix
  check: does `abspath(join(working_directory, path))` start with `abspath(working_directory)`?
- `FileSystem` is the disk, a tree of directories and regular files. Each directory keeps its entries in the
  order `os.listdir` returns them. It also models how `isdir`, `isfile` and `listdir` resolve a path string:
  the kernel's walk, one name at a time.
- `Text` covers `str.rstrip`, `"sep".join`, and the decimal rendering of integers.
- `Wrappers` holds `Option` and `Result`.

Modelling choices:

- The child process is a parameter, `run: Invocation -> Outcome`. It maps the requested argument vector,
  directory and timeout to `Completed(stdout, stderr, returncode)`, `TimedOut` or `Failed(reason)`.
- What the lister prints is the sequence of printed lines.
- The writer's `OSError`s render as Python does: `[Errno N] reason: 'filename'`. The errno values are
  Linux's: `ENOENT` (2), `EEXIST` (17), `ENOTDIR` (20) and `EISDIR` (21).
- A file's size (`os.path.getsize`) is the UTF-8 length of its text. The writer's message counts characters
  (`len(content)`), which is a different number for non-ASCII text. The model keeps the two apart.

What the code does, which the model follows, and where it falls short of what a reader might expect:

- Containment is a raw character prefix test, not "equal, or followed by a separator". So from `/w` the path
  `../w2/f` passes (`PathGuard.SiblingWithSharedPrefixAdmitted`, `FileWriter.SiblingWritten`). The test is
  complete only for relative arguments (`PathGuard.SubtreeIsContained`): from `//w` the absolute argument `/w/x`
  is inside by components yet refused (`PathGuard.DoubleSlashRootRefusesInside`).
- The lister prints one flat line per entry, in `os.listdir` order, with the size in bytes. It does no
  indentation, sorting or unit conversion. An empty directory prints nothing, and there are no per-file error
  lines.
- The tool's declaration in `main.py` (main.py:29) says that without a `directory` argument the working
  directory itself is listed. The code prints `No guard provided` instead.
- The lister's containment check runs the wrong way round (`DirectoryLister.ReversedCheck`). An ancestor of the
  working directory passes and a directory inside it is refused, whenever both paths keep the same leading
  slashes. From `/w` the argument `//w` names the working directory itself and is still refused
  (`DirectoryLister.DoubleSlashArgumentRefused`). Being a raw prefix test too, it also admits arguments that are
  no ancestor at all: from `/w2` the argument `/w` passes and `/w2` is listed
  (`DirectoryLister.SiblingArgumentAdmitted`).
- The lister always lists the working directory, whichever `directory` argument let it through.

The three weaknesses of the code are modelled as written and shown by the lemmas named above: the raw prefix
test, the reversed lister check, and the lister always listing the working directory
(`DirectoryLister.ParentArgumentListsWorkingDirectory`).

## Model

| member | source | states |
|---|---|---|
| PosixPath.Join | functions/write_file.py:6 | joining onto an absolute second argument gives that argument and discards the first; joining onto an absolute first argument stays absolute |
| PosixPath.AbspathShape | functions/write_file.py:5-6 | `abspath` yields a root of one or two slashes followed by plain names joined with `/` (no empty, `.` or `..` names) |
| PosixPath.AbspathIsNormal | functions/write_file.py:5-6 | the result of `abspath` is absolute and already normal (`normpath` leaves it unchanged), and its components are the lexical resolution of the joined path |
| PosixPath.AbspathOfNormal | functions/get_files_info.py:16-17 | a root followed by plain names is left unchanged by `abspath` |
| PosixPath.DirnameOfNormal | functions/run_python_file.py:24-28 | on a normalised path, `dirname` drops exactly the last name and `basename` is that name; joining the two gives the path back |
| PathGuard.SubtreeIsContained | functions/write_file.py:5-10 | for a relative argument, every target whose components extend the working directory's passes the raw prefix test: nothing truly inside is refused |
| PathGuard.AbsoluteOfRelativeJoin | functions/write_file.py:5-6 | making `join(wd, p)` absolute equals joining `p` onto the absolute working directory |
| PathGuard.ParentEscapeRefused | functions/write_file.py:5-10 | `../x` from `/w` resolves to `/x`, which fails the containment test |
| PathGuard.DoubleSlashRootRefusesInside | functions/write_file.py:5-9 | from the working directory `//w` the absolute argument `/w/x` is inside by components yet fails the raw prefix test, since `abspath` keeps the two leading slashes of `//w` |
| PathGuard.SiblingWithSharedPrefixAdmitted | functions/write_file.py:9 | `../w2/f` from `/w` resolves to `/w2/f`, which is outside `/w` by components yet passes the raw prefix test |
| PathGuard.AbsoluteArgumentCheckedAlone | functions/write_file.py:6-9 | an absolute argument is normalised on its own, and the test compares it alone with the working directory |
| PathGuard.TargetShape | functions/write_file.py:5-13 | the target is its root plus its plain names, and its `dirname` is the root plus all names but the last |
| FileSystem.ResolveAbspath | functions/get_files_info.py:16-23 | a path string that resolves on the disk resolves, after `abspath`, to the same location, namely its lexical components |
| FileSystem.IsFileOfAbspath | functions/run_python_file.py:14 | `isfile(abspath(p))` holds exactly when a regular file sits at the location named by the components of `abspath(p)` |
| FileSystem.ChildAt | functions/get_files_info.py:26-27 | in a well-formed tree the `i`-th entry that `listdir` returns is found at the directory's location extended by its name |
| FileSystem.JoinedEntryResolves | functions/get_files_info.py:26-28 | the string `os.path.join(path, entry)`, with `path` the directory's normalised path, is again a normalised path one name longer, resolves to the directory's location extended by the entry's name, and `isdir` of it holds exactly when the entry is a directory |
| PosixPath.JoinRootedName | functions/get_files_info.py:27 | joining a plain name onto a normalised path spells the path one name longer |
| FileSystem.Size | functions/get_files_info.py:34 | the byte size of a text lies between its character count and four times that, and equals the character count for ASCII text |
| FileSystem.SetAtFrame | functions/write_file.py:15-16 | replacing one location changes nothing that `stat` reports outside it |
| FileSystem.SetAtInside | functions/write_file.py:15-16 | after the replacement, when the location's parent is a directory, the new node and everything below it are found at that location |
| Text.RStrip | functions/run_python_file.py:36 | the result is a prefix of the text; it is empty or ends in a non-space; everything removed is whitespace |
| Text.IntToStringRoundTrip | functions/run_python_file.py:44 | the decimal rendering of an integer is well-formed and reads back as the same integer |
| ScriptRunner.PlanGuards | functions/run_python_file.py:6-19 | the run is planned exactly when the target is contained, a regular file is there and the raw argument ends in `.py`; each failing guard gives its own refusal, in the order outside, not found, not Python |
| ScriptRunner.OutsideRefusedFirst | functions/run_python_file.py:10-11 | an outside target is refused with the outside message whatever the disk holds and whatever the child would do |
| ScriptRunner.RefusalStartsNothing | functions/run_python_file.py:10-19 | when a guard refuses, the result is that refusal and does not depend on the child process |
| ScriptRunner.MissingTextFileNotFound | functions/run_python_file.py:14-19 | a missing `x.txt` in `/w` is reported as not found and not as "not a Python file", since existence is checked first |
| ScriptRunner.SuffixCheckedOnArgument | functions/run_python_file.py:18-19 | `a.py/.` names the existing script `/w/a.py` and is still refused, because the suffix test reads the raw argument |
| ScriptRunner.InvocationRunsScript | functions/run_python_file.py:6-29 | when all three guards pass, the child is started as `python3 <basename>` from the target's `dirname` with timeout 30, and the tool returns what that run finishes with; the basename is the target's last name, and the directory joined with it is the target |
| ScriptRunner.Execute | functions/run_python_file.py:21-55 | starting the child and turning its outcome into text gives `Finish` of that outcome |
| ScriptRunner.RunPythonFile | functions/run_python_file.py:5-55 | the method's result is `run_python_file`'s: a refusal, or the finished outcome of the planned run |
| ScriptRunner.AssembleReport | functions/run_python_file.py:32-50 | appending the parts one by one and joining them gives the report |
| ScriptRunner.PartKinds | functions/run_python_file.py:32-44 | the part count is one per non-empty stream plus one for a non-zero code; the stdout part comes first, then the stderr part, then the exit note, each holding its text |
| ScriptRunner.PartsPresent | functions/run_python_file.py:35-44 | there is a `STDOUT:` part if and only if stdout is not empty, and it holds the right-stripped text; likewise `STDERR:`; there is an exit note if and only if the code is not zero; they appear in that order |
| ScriptRunner.NoOutputIff | functions/run_python_file.py:47-50 | the report is `No output produced.` if and only if both streams are empty and the code is zero |
| ScriptRunner.ReportIsNotAnError | functions/run_python_file.py:47-55 | a report never starts with `E`, so it differs from the timeout text and from every failure text |
| ScriptRunner.TimeoutIgnoresOutput | functions/run_python_file.py:52-53 | a timed-out run returns the fixed timeout text, with no output |
| ScriptRunner.BlankStdoutKept | functions/run_python_file.py:35-36 | whitespace-only stdout still gives a `STDOUT:` part, now empty: the emptiness test happens before stripping |
| ScriptRunner.ExitNoteNamesCode | functions/run_python_file.py:43-44 | the number in the exit note reads back as the return code, negative codes included |
| FileWriter.MakeDirsOkIff | functions/write_file.py:13 | `makedirs(..., exist_ok=True)` succeeds exactly when no name on the way, the directory itself included, is a file |
| FileWriter.MakeDirsMade | functions/write_file.py:13 | after a successful `makedirs` the directory exists, and nothing outside it and its ancestors changed |
| FileWriter.MakeDirsFails | functions/write_file.py:13 | `makedirs` fails with `EEXIST` when the directory itself is a file, and with `ENOTDIR` naming the directory below the first file on the way |
| FileWriter.OpenOnDirectory | functions/write_file.py:13-16 | a target that is a directory passes `makedirs` untouched and `open` refuses it with `EISDIR` |
| FileWriter.SaveSucceeds | functions/write_file.py:12-16 | when no proper ancestor is a file and the target is not a directory, the `try` block raises nothing; the file holds the content, its ancestors are directories, and nothing else changed |
| FileWriter.SaveFails | functions/write_file.py:12-20 | otherwise the `try` block leaves the disk unchanged and raises the `OSError` that stopped it (`EEXIST`, `ENOTDIR` or `EISDIR`) |
| FileWriter.WriteSucceeds | functions/write_file.py:12-18 | a contained, writable target gives the success message with `len(content)` characters; the disk holds the content there and changed nowhere else but on the target's parent chain |
| FileWriter.WriteFails | functions/write_file.py:8-20 | every other call leaves the disk unchanged and returns the outside refusal or the failure text of the `OSError` that stopped it |
| FileWriter.WriteSuccessIff | functions/write_file.py:8-20 | the success message is returned if and only if the target is contained and writable |
| FileWriter.SiblingWritten | functions/write_file.py:4-18 | `../w2/f` from `/w` is written into the sibling directory `/w2` |
| FileWriter.ParentEscapeNotWritten | functions/write_file.py:4-10 | `../x` from `/w` is refused and the disk is unchanged |
| FileWriter.Disk.MakeDirs | functions/write_file.py:13 | the method creates what `makedirs` creates and returns its error, and the disk stays a well-formed tree |
| FileWriter.Disk.Open | functions/write_file.py:15-16 | the method stores the file as `open(..., "w").write` does, or returns its error with the disk unchanged |
| FileWriter.Disk.CreateAndWrite | functions/write_file.py:12-16 | the method's new disk and error are those of the `try` block |
| FileWriter.Disk.WriteFile | functions/write_file.py:4-20 | the method's new disk and message are `write_file`'s, and the disk stays a well-formed tree |
| DirectoryLister.ListFilesRecursive | functions/get_files_info.py:25-35 | the loop and its recursion print exactly the pre-order lines of the directory's entries |
| DirectoryLister.GetFilesInfo | functions/get_files_info.py:3-23 | the method prints what `get_files_info` prints |
| DirectoryLister.ListedDirectory | functions/get_files_info.py:4-23 | `listdir(abspath(working_directory))` finds the directory that `isdir(working_directory)` accepted |
| DirectoryLister.FilesInfoGuards | functions/get_files_info.py:3-23 | each failing guard prints its single line, the first one first; when all pass, the working directory's entries are listed, whatever the directory argument |
| DirectoryLister.ReversedCheck | functions/get_files_info.py:16-21 | when both paths keep the same leading slashes, a directory argument that is the working directory or one of its ancestors passes the containment check, and one strictly inside it is refused |
| DirectoryLister.DirectoryFromProcessCwd | functions/get_files_info.py:12-14 | the directory argument resolves from the process directory: from `/` the argument `sub` is refused as not a directory though `/w/sub` is one |
| DirectoryLister.ParentArgumentListsWorkingDirectory | functions/get_files_info.py:16-23 | with working directory `/w/sub` and argument `/w`, the listing goes ahead and lists `/w/sub` |
| DirectoryLister.ChildArgumentRefused | functions/get_files_info.py:16-21 | with working directory `/w` and argument `/w/sub`, the outside error is printed |
| DirectoryLister.SiblingArgumentAdmitted | functions/get_files_info.py:16-23 | with working directory `/w2`, the argument `/w` is no ancestor by components, yet it passes the check and the entries of `/w2` are listed |
| DirectoryLister.DoubleSlashArgumentRefused | functions/get_files_info.py:16-21 | with working directory `/w`, the argument `//w` names the same directory by components, yet the outside error is printed, because `abspath` keeps its two leading slashes |
| DirectoryLister.LinesAppend | functions/get_files_info.py:26 | listing two runs of entries prints their lines one after the other |
| DirectoryLister.LineCount | functions/get_files_info.py:25-35 | the walk prints one line per file or directory in the subtree |
| DirectoryLister.ListingSize | functions/get_files_info.py:23-35 | a listing prints as many lines as there are files and directories below the working directory |
| DirectoryLister.PreOrder | functions/get_files_info.py:26-35 | an entry's lines follow those of earlier entries; a directory's line is followed at once by its subtree's lines; a file's line carries its size |
| DirectoryLister.FileLineSize | functions/get_files_info.py:34-35 | the number in a file line reads back as the file's size |

## Left out

- `main.py`, the agent loop around the tools, is not modelled. It talks to the model's API, reads environment
  variables and `argv`, and prints. It only forwards `os.getcwd()` and the model's arguments to the tools.
- `functions/get_file_content.py` is not part of this model.
- The child process is not modelled: the Python interpreter, killing the child on timeout, and capturing its
  output. Its outcome is the `run` parameter.
- `ScriptRunner.Execute`: only the exceptions `subprocess.run` itself raises are modelled, as `Failed(reason)`.
  `reason` stands for `str(e)`, whose text comes from the operating system.
- The operating system's permissions, symbolic links, character encodings and newline translation are not
  modelled. So `PermissionError` and other failures not caused by the shape of the tree are absent.
- Names containing the NUL character are treated as ordinary names, and the tree may hold such names. For a path
  with an embedded NUL, CPython's `os.makedirs` and `open` raise `ValueError` ("embedded null byte"), so
  `write_file` returns its failure text; `os.path.isfile` and `os.path.isdir` return `False`, so
  `run_python_file` reports the file as not found and `get_files_info` reports "not a directory". The model
  writes and finds such a name like any other.
- `os.listdir` order is taken as given: it is the order of the directory's entries in the tree.
- `FileWriter.Describe`: renders the filename in `OSError` text between plain single quotes. Python writes its
  `repr`, which escapes quotes and special characters.
- `DirectoryLister.ListFilesRecursive`: works on locations (sequences of names) rather than the path strings
  `os.path.join(path, entry)` would build. `FileSystem.JoinedEntryResolves` shows that each such string resolves to
  the entry's location, and that `isdir` of it tells directories from files.
- `DirectoryLister.GetFilesInfo`: returns the printed lines. The tool itself returns `None`, and `main.py`
  passes that on.
- The 30 second timeout is a recorded number (`Invocation.timeout`). Clocks are not modelled.
