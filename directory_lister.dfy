/**
 * `get_files_info`: four guards with early returns, then a recursive walk
 * of the working directory that prints one line per entry, each directory's
 * line followed at once by the lines of its own entries. What is printed is
 * modelled as the sequence of printed lines.
 */
module DirectoryLister {
  import opened Wrappers
  import opened Text
  import opened PosixPath
  import opened PathGuard
  import opened FileSystem

  function NotDirectoryMessage(path: string): string {
    "Error: \"" + path + "\" is not a directory"
  }

  const NoGuardMessage := "No guard provided"

  function OutsideMessage(directory: string): string {
    "Error: Cannot list \"" + directory + "\" as it is outside the permitted working directory"
  }

  function DirLine(name: string): string {
    "- " + name + ": is_dir=True"
  }

  function FileLine(name: string, size: nat): string {
    "- " + name + ": file_size=" + NatToString(size) + " bytes, is_dir=False"
  }

  // ---------------------------------------------------------------------
  // The walk

  /** The lines printed for the entries `es`, in the order they are listed. */
  function Lines(es: seq<Entry>): seq<string>
    decreases es
  {
    if es == [] then [] else Lines(es[..|es| - 1]) + EntryLines(es[|es| - 1])
  }

  /** The lines printed for one entry: its own line, then for a directory everything below it. */
  function EntryLines(e: Entry): seq<string>
    decreases e
  {
    match e.node
    case File(content) => [FileLine(e.name, Size(content))]
    case Dir(sub) => [DirLine(e.name)] + Lines(sub)
  }

  /** The number of files and directories below a directory with entries `es`. */
  function Count(es: seq<Entry>): nat
    decreases es
  {
    if es == [] then 0 else NodeCount(es[0]) + Count(es[1..])
  }

  /** One for the entry itself, and for a directory the entries below it. */
  function NodeCount(e: Entry): nat
    decreases e
  {
    match e.node
    case File(_) => 1
    case Dir(sub) => 1 + Count(sub)
  }

  /**
   * `list_files_recursive(path)`: for each entry `os.listdir` gives, `isdir`
   * on the joined path decides between printing the directory line and
   * recursing, or printing the file line with `getsize`.
   */
  method ListFilesRecursive(disk: Node, loc: seq<string>) returns (printed: seq<string>)
    requires WellFormed(disk) && IsDirAt(disk, loc)
    ensures printed == Lines(NodeAt(disk, loc).value.entries)
    decreases NodeAt(disk, loc).value
  {
    var entries := NodeAt(disk, loc).value.entries;
    printed := [];
    for i := 0 to |entries|
      invariant printed == Lines(entries[..i])
    {
      var entry := entries[i].name;
      var fullPath := loc + [entry];
      ChildAt(disk, loc, i);
      LinesStep(entries, i);
      if IsDirAt(disk, fullPath) {
        printed := printed + [DirLine(entry)];
        var below := ListFilesRecursive(disk, fullPath);
        printed := printed + below;
      } else {
        var size := Size(NodeAt(disk, fullPath).value.content);
        printed := printed + [FileLine(entry, size)];
      }
    }
    assert entries[..|entries|] == entries;
  }

  lemma LinesStep(es: seq<Entry>, i: nat)
    requires i < |es|
    ensures Lines(es[..i + 1]) == Lines(es[..i]) + EntryLines(es[i])
  {
    assert es[..i + 1][..i] == es[..i];
  }

  // ---------------------------------------------------------------------
  // The guards

  /** What `get_files_info(working_directory, directory)` prints, `cwd` being the process directory. */
  function FilesInfo(disk: Node, cwd: AbsPath, wd: string, directory: Option<string>): seq<string>
    requires disk.Dir?
  {
    if !IsDir(disk, cwd, wd) then [NotDirectoryMessage(wd)]
    else if directory.None? then [NoGuardMessage]
    else if !IsDir(disk, cwd, directory.value) then [NotDirectoryMessage(directory.value)]
    else if !StartsWith(Abspath(cwd, wd), Abspath(cwd, directory.value)) then [OutsideMessage(directory.value)]
    else
      ListedDirectory(disk, cwd, wd);
      Lines(NodeAt(disk, Resolve(disk, cwd, Abspath(cwd, wd)).value).value.entries)
  }

  method GetFilesInfo(disk: Node, cwd: AbsPath, wd: string, directory: Option<string>)
    returns (printed: seq<string>)
    requires disk.Dir? && WellFormed(disk)
    ensures printed == FilesInfo(disk, cwd, wd, directory)
  {
    if !IsDir(disk, cwd, wd) {
      return [NotDirectoryMessage(wd)];
    }
    if directory.None? {
      return [NoGuardMessage];
    }
    var dir := directory.value;
    if !IsDir(disk, cwd, dir) {
      return [NotDirectoryMessage(dir)];
    }
    var workingDirectoryAbsPath := Abspath(cwd, wd);
    var directoryAbsPath := Abspath(cwd, dir);
    if !StartsWith(workingDirectoryAbsPath, directoryAbsPath) {
      return [OutsideMessage(dir)];
    }
    ListedDirectory(disk, cwd, wd);
    printed := ListFilesRecursive(disk, Resolve(disk, cwd, workingDirectoryAbsPath).value);
  }

  /**
   * `os.listdir(abspath(working_directory))` finds the directory that
   * `isdir(working_directory)` accepted: the walk never starts on a missing path.
   */
  lemma ListedDirectory(disk: Node, cwd: AbsPath, wd: string)
    requires disk.Dir? && IsDir(disk, cwd, wd)
    ensures Resolve(disk, cwd, Abspath(cwd, wd)) == Resolve(disk, cwd, wd)
    ensures Resolve(disk, cwd, wd).value == Components(Abspath(cwd, wd))
    ensures IsDirAt(disk, Components(Abspath(cwd, wd)))
  {
    ResolveAbspath(disk, cwd, wd);
  }

  // ---------------------------------------------------------------------
  // Properties of the walk

  /** Listing two runs of entries one after the other prints their lines one after the other. */
  lemma {:induction false} LinesAppend(a: seq<Entry>, b: seq<Entry>)
    ensures Lines(a + b) == Lines(a) + Lines(b)
    decreases |b|
  {
    if b == [] {
      assert a + b == a;
    } else {
      var ab := a + b;
      var init, last := b[..|b| - 1], b[|b| - 1];
      assert ab[..|ab| - 1] == a + init;
      assert ab[|ab| - 1] == last;
      assert Lines(ab) == Lines(a + init) + EntryLines(last);
      assert Lines(b) == Lines(init) + EntryLines(last);
      LinesAppend(a, init);
    }
  }

  /** One line is printed per file or directory below the listed directory. */
  lemma {:induction false} LineCount(es: seq<Entry>)
    ensures |Lines(es)| == Count(es)
    decreases es
  {
    if es != [] {
      assert es == [es[0]] + es[1..];
      LinesAppend([es[0]], es[1..]);
      assert [es[0]][..0] == [];
      EntryLineCount(es[0]);
      LineCount(es[1..]);
    }
  }

  lemma {:induction false} EntryLineCount(e: Entry)
    ensures |EntryLines(e)| == NodeCount(e)
    decreases e
  {
    if e.node.Dir? {
      LineCount(e.node.entries);
    }
  }

  /**
   * Pre-order: the lines of entry `i` come after those of the entries before
   * it and before those after it; a directory's line is followed at once by
   * the lines of its own entries, and a file's line carries its size.
   */
  lemma PreOrder(es: seq<Entry>, i: nat)
    requires i < |es|
    ensures var before := Lines(es[..i]);
      var e := es[i];
      var k := |before|;
      Lines(es) == before + EntryLines(e) + Lines(es[i + 1..])
      && k < |Lines(es)|
      && (e.node.Dir? ==>
            Lines(es)[k] == DirLine(e.name)
            && k + 1 + |Lines(e.node.entries)| <= |Lines(es)|
            && Lines(es)[k + 1..k + 1 + |Lines(e.node.entries)|] == Lines(e.node.entries))
      && (e.node.File? ==> Lines(es)[k] == FileLine(e.name, Size(e.node.content)))
  {
    PreOrderBlocks(es, i);
    EntryBlock(Lines(es[..i]), es[i], Lines(es[i + 1..]));
  }

  lemma PreOrderBlocks(es: seq<Entry>, i: nat)
    requires i < |es|
    ensures Lines(es) == Lines(es[..i]) + EntryLines(es[i]) + Lines(es[i + 1..])
  {
    Around(es, i);
    LinesAround(es[..i], es[i], es[i + 1..]);
  }

  lemma Around(es: seq<Entry>, i: nat)
    requires i < |es|
    ensures es[..i] + [es[i]] + es[i + 1..] == es
  {
  }

  lemma LinesAround(a: seq<Entry>, e: Entry, b: seq<Entry>)
    ensures Lines(a + [e] + b) == Lines(a) + EntryLines(e) + Lines(b)
  {
    LinesAppend(a + [e], b);
    LinesSnoc(a, e);
  }

  lemma LinesSnoc(es: seq<Entry>, e: Entry)
    ensures Lines(es + [e]) == Lines(es) + EntryLines(e)
  {
    assert (es + [e])[..|es|] == es;
  }

  /** Where an entry's own line and the lines below it sit inside the surrounding output. */
  lemma EntryBlock(before: seq<string>, e: Entry, after: seq<string>)
    ensures var out := before + EntryLines(e) + after;
      var k := |before|;
      k < |out|
      && (e.node.Dir? ==>
            out[k] == DirLine(e.name)
            && k + 1 + |Lines(e.node.entries)| <= |out|
            && out[k + 1..k + 1 + |Lines(e.node.entries)|] == Lines(e.node.entries))
      && (e.node.File? ==> out[k] == FileLine(e.name, Size(e.node.content)))
  {
    var out := before + EntryLines(e) + after;
    var k := |before|;
    if e.node.Dir? {
      var sub := Lines(e.node.entries);
      assert out == before + [DirLine(e.name)] + sub + after;
      assert out[k + 1..k + 1 + |sub|] == sub;
    }
  }

  /** The size in a file line reads back as the number that was printed. */
  lemma FileLineSize(name: string, size: nat)
    ensures var line := FileLine(name, size);
      |name| + 14 <= |line| - 20
      && line[|name| + 14..|line| - 20] == NatToString(size)
      && DecimalValue(line[|name| + 14..|line| - 20]) == size
  {
    var digits := NatToString(size);
    var head := "- " + name + ": file_size=";
    var tail := " bytes, is_dir=False";
    assert |head| == |name| + 14;
    assert |tail| == 20;
    assert FileLine(name, size) == head + digits + tail;
    assert (head + digits + tail)[|head|..|head| + |digits|] == digits;
    NatToStringRoundTrip(size);
  }

  // ---------------------------------------------------------------------
  // Properties of the guards

  /**
   * The walk runs exactly when the working directory is a directory, a
   * directory argument is given, it is a directory too, and the absolute
   * working directory starts with the absolute directory argument. Each
   * failing guard prints its own single line, the first one first; the walk
   * lists the working directory, whichever directory argument let it through.
   */
  lemma FilesInfoGuards(disk: Node, cwd: AbsPath, wd: string, directory: Option<string>)
    requires disk.Dir?
    ensures var out := FilesInfo(disk, cwd, wd, directory);
      (!IsDir(disk, cwd, wd) ==> out == [NotDirectoryMessage(wd)])
      && (IsDir(disk, cwd, wd) && directory.None? ==> out == [NoGuardMessage])
      && (IsDir(disk, cwd, wd) && directory.Some? && !IsDir(disk, cwd, directory.value) ==>
            out == [NotDirectoryMessage(directory.value)])
      && (IsDir(disk, cwd, wd) && directory.Some? && IsDir(disk, cwd, directory.value)
          && !StartsWith(Abspath(cwd, wd), Abspath(cwd, directory.value)) ==>
            out == [OutsideMessage(directory.value)])
      && (IsDir(disk, cwd, wd) && directory.Some? && IsDir(disk, cwd, directory.value)
          && StartsWith(Abspath(cwd, wd), Abspath(cwd, directory.value)) ==>
            IsDirAt(disk, Components(Abspath(cwd, wd)))
            && out == Lines(NodeAt(disk, Components(Abspath(cwd, wd))).value.entries))
  {
    if IsDir(disk, cwd, wd) {
      ListedDirectory(disk, cwd, wd);
    }
  }

  /** A listing prints one line per file or directory below the working directory. */
  lemma ListingSize(disk: Node, cwd: AbsPath, wd: string, directory: string)
    requires disk.Dir? && IsDir(disk, cwd, wd) && IsDir(disk, cwd, directory)
    requires StartsWith(Abspath(cwd, wd), Abspath(cwd, directory))
    ensures IsDirAt(disk, Components(Abspath(cwd, wd)))
    ensures |FilesInfo(disk, cwd, wd, Some(directory))| == Count(NodeAt(disk, Components(Abspath(cwd, wd))).value.entries)
  {
    FilesInfoGuards(disk, cwd, wd, Some(directory));
    LineCount(NodeAt(disk, Components(Abspath(cwd, wd))).value.entries);
  }

  /**
   * The containment test is the wrong way round: a directory argument that
   * is the working directory or one of its ancestors passes, and one
   * strictly inside the working directory is refused.
   */
  lemma ReversedCheck(cwd: AbsPath, wd: string, directory: string)
    requires InitialSlashes(Absolute(cwd, directory)) == InitialSlashes(Absolute(cwd, wd))
    ensures Components(Abspath(cwd, directory)) <= Components(Abspath(cwd, wd)) ==>
      StartsWith(Abspath(cwd, wd), Abspath(cwd, directory))
    ensures Components(Abspath(cwd, wd)) < Components(Abspath(cwd, directory)) ==>
      !StartsWith(Abspath(cwd, wd), Abspath(cwd, directory))
  {
    AbspathShape(cwd, wd);
    AbspathShape(cwd, directory);
    AbspathIsNormal(cwd, wd);
    AbspathIsNormal(cwd, directory);
    var pre := InitialSlashes(Absolute(cwd, wd));
    var w := Lexical(Absolute(cwd, wd));
    var d := Lexical(Absolute(cwd, directory));
    if d <= w {
      JoinWithPrefix("/", d, w);
      assert pre + JoinWith("/", d) <= pre + JoinWith("/", w);
    }
    if w < d {
      JoinWithLonger("/", w, d);
    }
  }

  /** A join of names, none of them empty, grows when more names follow. */
  lemma {:induction false} JoinWithLonger(sep: string, a: seq<string>, b: seq<string>)
    requires a < b && AllPlain(b)
    ensures |JoinWith(sep, a)| < |JoinWith(sep, b)|
  {
    if a == [] {
      JoinWithStartsWithFirst(sep, b);
      assert Plain(b[0]);
    } else if |a| == 1 {
      assert b[0] == a[0] && |b| >= 2;
      JoinWithStartsWithFirst(sep, b[1..]);
      assert Plain(b[1..][0]);
    } else {
      assert a[1..] < b[1..];
      assert AllPlain(b[1..]) by {
        forall k | 0 <= k < |b[1..]| ensures Plain(b[1..][k]) {
          assert b[1..][k] == b[k + 1];
        }
      }
      JoinWithLonger(sep, a[1..], b[1..]);
    }
  }

  // ---------------------------------------------------------------------
  // Worked cases

  /**
   * The directory argument is checked from the process directory, not from
   * the working directory: with the process in `/` and the working
   * directory `/w`, the argument `sub` names `/sub`, which is missing, and is
   * refused even though `/w/sub` is a directory.
   */
  lemma DirectoryFromProcessCwd(disk: Node)
    requires disk.Dir? && IsDirAt(disk, ["w", "sub"]) && NodeAt(disk, ["sub"]).None?
    ensures FilesInfo(disk, "/", "/w", Some("sub")) == [NotDirectoryMessage("sub")]
  {
    IsDirW(disk, "/");
    MissingSub(disk);
  }

  lemma IsDirW(disk: Node, cwd: AbsPath)
    requires disk.Dir? && IsDirAt(disk, ["w", "sub"])
    ensures IsDir(disk, cwd, "/w")
  {
    AbspathOfW(cwd);
    ResolveOfAbspath(disk, cwd, "/w");
    AncestorsAreDirs(disk, ["w", "sub"], ["w"]);
  }

  lemma MissingSub(disk: Node)
    requires disk.Dir? && NodeAt(disk, ["sub"]).None?
    ensures !IsDir(disk, "/", "sub")
  {
    assert Absolute("/", "sub") == "/sub";
    assert JoinWith("/", ["", "sub"]) == "/sub";
    SplitJoinWith(["", "sub"]);
    assert Walk(disk, [], ["sub"]) == None;
  }

  /**
   * With the working directory `/w/sub`, the argument `/w` (its parent) lets
   * the listing through, and it is `/w/sub` that is listed.
   */
  lemma ParentArgumentListsWorkingDirectory(disk: Node, cwd: AbsPath)
    requires disk.Dir? && IsDirAt(disk, ["w", "sub"])
    ensures FilesInfo(disk, cwd, "/w/sub", Some("/w")) == Lines(NodeAt(disk, ["w", "sub"]).value.entries)
  {
    IsDirW(disk, cwd);
    IsDirWSub(disk, cwd);
    PrefixOfWSub();
    AbspathOfW(cwd);
    ListedWhenPassed(disk, cwd, "/w/sub", "/w", ["w", "sub"]);
  }

  /** With the working directory `/w`, the argument `/w/sub` (inside it) is refused. */
  lemma ChildArgumentRefused(disk: Node, cwd: AbsPath)
    requires disk.Dir? && IsDirAt(disk, ["w", "sub"])
    ensures FilesInfo(disk, cwd, "/w", Some("/w/sub")) == [OutsideMessage("/w/sub")]
  {
    IsDirW(disk, cwd);
    IsDirWSub(disk, cwd);
    PrefixOfWSub();
    AbspathOfW(cwd);
    RefusedOutside(disk, cwd, "/w", "/w/sub");
  }

  /**
   * The reversed check is a raw prefix test too, so it also admits an
   * argument that is no ancestor at all: with the working directory `/w2`,
   * the argument `/w` passes and `/w2` is listed.
   */
  lemma SiblingArgumentAdmitted(disk: Node, cwd: AbsPath)
    requires disk.Dir? && IsDirAt(disk, ["w"]) && IsDirAt(disk, ["w2"])
    ensures !(Components(Abspath(cwd, "/w")) <= Components(Abspath(cwd, "/w2")))
    ensures FilesInfo(disk, cwd, "/w2", Some("/w")) == Lines(NodeAt(disk, ["w2"]).value.entries)
  {
    DirNamed(disk, cwd, "/w", "w");
    DirNamed(disk, cwd, "/w2", "w2");
    PrefixOfW2();
    ListedWhenPassed(disk, cwd, "/w2", "/w", ["w2"]);
  }

  /** `/name` for one plain name is normalised, and is a directory when the disk has one there. */
  lemma DirNamed(disk: Node, cwd: AbsPath, p: string, name: string)
    requires disk.Dir? && Plain(name) && IsDirAt(disk, [name]) && p == "/" + name
    ensures Abspath(cwd, p) == p && Components(p) == [name] && IsDir(disk, cwd, p)
  {
    assert AllPlain([name]) && JoinWith("/", [name]) == name;
    IsDirOfNormal(disk, cwd, p, "/", [name]);
  }

  lemma PrefixOfW2()
    ensures StartsWith("/w2", "/w") && !(["w"] <= ["w2"])
  {
    assert "/w2"[..2] == "/w";
    assert ["w"][0] != ["w2"][0];
  }

  /** A normalised path to an existing directory passes `isdir`. */
  lemma IsDirOfNormal(disk: Node, cwd: AbsPath, p: string, pre: string, q: seq<string>)
    requires disk.Dir? && Rooted(pre) && AllPlain(q) && p == pre + JoinWith("/", q)
    requires IsDirAt(disk, q)
    ensures Abspath(cwd, p) == p && Components(p) == q
    ensures IsDir(disk, cwd, p)
  {
    NormalPathParts(cwd, p, pre, q);
    ResolveOfAbspath(disk, cwd, p);
  }

  /**
   * The ancestor direction of the reversed check needs both paths to keep the
   * same leading slashes: with the working directory `/w`, the argument `//w`
   * names the same directory, yet `abspath` keeps its two slashes and
   * `/w` does not start with `//w`, so it is refused.
   */
  lemma DoubleSlashArgumentRefused(disk: Node, cwd: AbsPath)
    requires disk.Dir? && IsDirAt(disk, ["w"])
    ensures Components(Abspath(cwd, "//w")) == Components(Abspath(cwd, "/w"))
    ensures FilesInfo(disk, cwd, "/w", Some("//w")) == [OutsideMessage("//w")]
  {
    AbspathOfW(cwd);
    AbspathOfDoubleSlashW(cwd);
    ResolveOfAbspath(disk, cwd, "/w");
    ResolveOfAbspath(disk, cwd, "//w");
    assert "//w"[1] != "/w"[1];
    RefusedOutside(disk, cwd, "/w", "//w");
  }

  lemma ListedWhenPassed(disk: Node, cwd: AbsPath, wd: string, directory: string, loc: seq<string>)
    requires disk.Dir? && IsDir(disk, cwd, wd) && IsDir(disk, cwd, directory)
    requires StartsWith(Abspath(cwd, wd), Abspath(cwd, directory))
    requires Components(Abspath(cwd, wd)) == loc
    ensures IsDirAt(disk, loc)
    ensures FilesInfo(disk, cwd, wd, Some(directory)) == Lines(NodeAt(disk, loc).value.entries)
  {
    FilesInfoGuards(disk, cwd, wd, Some(directory));
  }

  lemma RefusedOutside(disk: Node, cwd: AbsPath, wd: string, directory: string)
    requires disk.Dir? && IsDir(disk, cwd, wd) && IsDir(disk, cwd, directory)
    requires !StartsWith(Abspath(cwd, wd), Abspath(cwd, directory))
    ensures FilesInfo(disk, cwd, wd, Some(directory)) == [OutsideMessage(directory)]
  {
  }

  lemma PrefixOfWSub()
    ensures StartsWith("/w/sub", "/w") && !StartsWith("/w", "/w/sub")
  {
    assert "/w/sub"[..2] == "/w";
  }

  lemma IsDirWSub(disk: Node, cwd: AbsPath)
    requires disk.Dir? && IsDirAt(disk, ["w", "sub"])
    ensures Abspath(cwd, "/w/sub") == "/w/sub" && Components("/w/sub") == ["w", "sub"]
    ensures IsDir(disk, cwd, "/w/sub")
  {
    AbspathOfWSub(cwd);
    ResolveOfAbspath(disk, cwd, "/w/sub");
  }

  lemma AbspathOfWSub(cwd: AbsPath)
    ensures Abspath(cwd, "/w/sub") == "/w/sub" && Components("/w/sub") == ["w", "sub"]
  {
    assert JoinWith("/", ["w", "sub"]) == "w/sub";
    assert AllPlain(["w", "sub"]);
    NormalPathParts(cwd, "/w/sub", "/", ["w", "sub"]);
  }

}
