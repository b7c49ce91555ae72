/**
 * `write_file`: after the containment test, create the parent directories
 * (`os.makedirs(..., exist_ok=True)`), then open the file for writing and
 * write the content. Every failure is caught and returned as text.
 */
module FileWriter {
  import opened Wrappers
  import opened Text
  import opened PosixPath
  import opened PathGuard
  import opened FileSystem

  /** An `OSError`; `str()` of it reads `[Errno N] reason: 'filename'`. */
  datatype OsError = OsError(errno: nat, reason: string, filename: string)

  function NoSuchFile(f: string): OsError { OsError(2, "No such file or directory", f) }
  function FileExists(f: string): OsError { OsError(17, "File exists", f) }
  function NotADirectory(f: string): OsError { OsError(20, "Not a directory", f) }
  function IsADirectory(f: string): OsError { OsError(21, "Is a directory", f) }

  function Describe(e: OsError): string {
    "[Errno " + NatToString(e.errno) + "] " + e.reason + ": '" + e.filename + "'"
  }

  /** The path string for the first names `cs` of a normalised path whose root is `pre`. */
  function Render(pre: string, cs: seq<string>): string {
    pre + JoinWith("/", cs)
  }

  /** Fresh directories, each holding only the next: what `makedirs` adds below an existing one. */
  function Chain(names: seq<string>): Node
    decreases names
  {
    if names == [] then Dir([]) else Dir([Entry(names[0], Chain(names[1..]))])
  }

  /**
   * `os.makedirs(pre + "/".join(d), exist_ok=True)`: every missing directory
   * of `d` is created, top down. It fails, creating nothing, when a name on
   * the way is a file: on `d` itself with `EEXIST`, deeper with `ENOTDIR`
   * naming the directory it could not make.
   */
  function MakeDirsResult(n: Node, pre: string, d: seq<string>): Result<Node, OsError> {
    var k := Existing(n, d);
    if NodeAt(n, d[..k]).value.File? then
      Err(if k == |d| then FileExists(Render(pre, d)) else NotADirectory(Render(pre, d[..k + 1])))
    else if k == |d| then Ok(n)
    else Ok(SetAt(n, d[..k + 1], Chain(d[k + 1..])))
  }

  /** `open(path, "w").write(content)` for the location `f`. */
  function OpenResult(n: Node, pre: string, f: seq<string>, content: string): Result<Node, OsError> {
    var parent := DropLast(f);
    var k := Existing(n, parent);
    if NodeAt(n, parent[..k]).value.File? then Err(NotADirectory(Render(pre, f)))
    else if k < |parent| then Err(NoSuchFile(Render(pre, f)))
    else if IsDirAt(n, f) then Err(IsADirectory(Render(pre, f)))
    else Ok(SetAt(n, f, File(content)))
  }

  function OutsideMessage(fp: string): string {
    "Error: Cannot write to \"" + fp + "\" as it is outside the permitted working directory"
  }

  function SuccessMessage(fp: string, content: string): string {
    "Successfully wrote to \"" + fp + "\" (" + NatToString(|content|) + " characters written)"
  }

  function FailureMessage(fp: string, e: OsError): string {
    "Error: Failed to write to \"" + fp + "\": " + Describe(e)
  }

  /** The `try` block: `makedirs` of the parent, then `open(...).write`; the disk afterwards and the error raised, if any. */
  function Save(disk: Node, pre: string, f: seq<string>, content: string): (Node, Option<OsError>) {
    match MakeDirsResult(disk, pre, DropLast(f))
    case Err(e) => (disk, Some(e))
    case Ok(made) =>
      match OpenResult(made, pre, f, content)
      case Err(e) => (made, Some(e))
      case Ok(written) => (written, None)
  }

  /** The disk after `write_file(wd, fp, content)` and the text it returns. */
  function Write(disk: Node, cwd: AbsPath, wd: string, fp: string, content: string): (Node, string) {
    if !Contained(cwd, wd, fp) then (disk, OutsideMessage(fp))
    else
      var abs := Target(cwd, wd, fp);
      var saved := Save(disk, InitialSlashes(abs), Components(abs), content);
      (saved.0, match saved.1 case None => SuccessMessage(fp, content) case Some(e) => FailureMessage(fp, e))
  }

  // ---------------------------------------------------------------------
  // When a write can succeed, and what it leaves behind

  /** No proper ancestor of `f` is a file and `f` is not a directory. */
  ghost predicate CanWrite(disk: Node, f: seq<string>) {
    (forall r :: r < f ==> !IsFileAt(disk, r)) && !IsDirAt(disk, f)
  }

  /**
   * `after` holds `content` at `f`, every proper ancestor of `f` is a
   * directory, and outside `f`'s ancestors and `f` itself nothing changed.
   */
  ghost predicate Written(before: Node, after: Node, f: seq<string>, content: string) {
    NodeAt(after, f) == Some(File(content))
    && (forall r :: r < f ==> IsDirAt(after, r))
    && (forall r :: !(r <= f) ==> Stat(after, r) == Stat(before, r))
  }

  lemma {:induction false} ChainAt(names: seq<string>, s: seq<string>)
    ensures s <= names ==> NodeAt(Chain(names), s) == Some(Chain(names[|s|..]))
    ensures !(s <= names) ==> NodeAt(Chain(names), s).None?
    decreases s
  {
    if s != [] && names != [] {
      ChainAt(names[1..], s[1..]);
      if s[0] == names[0] {
        assert (s <= names) == (s[1..] <= names[1..]);
        if s <= names {
          assert names[|s|..] == names[1..][|s[1..]|..];
        }
      }
    }
  }

  lemma {:induction false} ChainWellFormed(names: seq<string>)
    requires AllPlain(names)
    ensures WellFormed(Chain(names))
    decreases names
  {
    if names != [] {
      assert AllPlain(names[1..]) by {
        forall k | 0 <= k < |names[1..]| ensures Plain(names[1..][k]) {
          assert names[1..][k] == names[k + 1];
        }
      }
      ChainWellFormed(names[1..]);
      assert Plain(names[0]);
    }
  }

  /** `makedirs` succeeds exactly when no name on the way, `d` included, is a file. */
  lemma MakeDirsOkIff(n: Node, pre: string, d: seq<string>)
    ensures MakeDirsResult(n, pre, d).Ok? <==> forall r :: r <= d ==> !IsFileAt(n, r)
  {
    var k := Existing(n, d);
    var top := d[..k];
    if NodeAt(n, top).value.Dir? {
      forall r | r <= d ensures !IsFileAt(n, r) {
        if |r| > k {
          ExistingIsDeepest(n, d, r);
        } else if |r| < k {
          assert r < top;
          AncestorsAreDirs(n, top, r);
        } else {
          assert r == top;
        }
      }
    } else {
      assert top <= d && IsFileAt(n, top);
    }
  }

  /** A successful `makedirs` leaves `d` a directory and changes nothing outside `d` and its ancestors. */
  lemma MakeDirsMade(n: Node, pre: string, d: seq<string>)
    requires MakeDirsResult(n, pre, d).Ok?
    ensures IsDirAt(MakeDirsResult(n, pre, d).value, d)
    ensures forall r :: !(r <= d) ==> Stat(MakeDirsResult(n, pre, d).value, r) == Stat(n, r)
  {
    var k := Existing(n, d);
    if k < |d| {
      var c := d[..k + 1];
      var rest := d[k + 1..];
      var made := SetAt(n, c, Chain(rest));
      assert c[..|c| - 1] == d[..k];
      assert d == c + rest;
      SetAtInside(n, c, Chain(rest), rest);
      ChainAt(rest, rest);
      assert rest[|rest|..] == [];
      forall r | !(r <= d) ensures Stat(made, r) == Stat(n, r) {
        if c <= r {
          var s := r[|c|..];
          assert r == c + s;
          assert !(s <= rest);
          SetAtInside(n, c, Chain(rest), s);
          ChainAt(rest, s);
          if s != [] {
            NothingBelow(n, c, s);
          }
        } else {
          SetAtFrame(n, c, Chain(rest), r);
        }
      }
    } else {
      assert d[..k] == d;
    }
  }

  /** `makedirs` keeps the disk a well-formed tree rooted at a directory. */
  lemma MakeDirsWellFormed(n: Node, pre: string, d: seq<string>)
    requires n.Dir? && WellFormed(n) && AllPlain(d)
    requires MakeDirsResult(n, pre, d).Ok?
    ensures MakeDirsResult(n, pre, d).value.Dir? && WellFormed(MakeDirsResult(n, pre, d).value)
  {
    var k := Existing(n, d);
    if k < |d| {
      var c := d[..k + 1];
      var rest := d[k + 1..];
      assert AllPlain(c) && AllPlain(rest) by {
        assert forall i :: 0 <= i < |c| ==> c[i] == d[i];
        assert forall i :: 0 <= i < |rest| ==> rest[i] == d[k + 1 + i];
      }
      ChainWellFormed(rest);
      SetAtWellFormed(n, c, Chain(rest));
    }
  }

  /** Once the parent is a directory, `open` fails only on a directory, with `EISDIR`. */
  lemma OpenIntoDir(n: Node, pre: string, f: seq<string>, content: string)
    requires IsDirAt(n, DropLast(f))
    ensures OpenResult(n, pre, f, content)
      == if IsDirAt(n, f) then Err(IsADirectory(Render(pre, f))) else Ok(SetAt(n, f, File(content)))
  {
    var parent := DropLast(f);
    var k := Existing(n, parent);
    if k < |parent| {
      ExistingIsDeepest(n, parent, parent);
    }
    assert parent[..|parent|] == parent;
  }

  /** Writing the file into an existing directory stores the content there and changes nothing else. */
  lemma StoreWritten(n: Node, f: seq<string>, content: string)
    requires f != [] && IsDirAt(n, DropLast(f)) && !IsDirAt(n, f)
    ensures var after := SetAt(n, f, File(content));
      NodeAt(after, f) == Some(File(content))
      && (forall r :: r < f ==> IsDirAt(after, r))
      && (forall r :: !(r <= f) ==> Stat(after, r) == Stat(n, r))
  {
    var after := SetAt(n, f, File(content));
    assert f[..|f| - 1] == DropLast(f);
    SetAtInside(n, f, File(content), []);
    assert f + [] == f;
    forall r | r < f ensures IsDirAt(after, r) {
      AncestorsAreDirs(after, f, r);
    }
    forall r | !(r <= f) ensures Stat(after, r) == Stat(n, r) {
      if f <= r {
        var s := r[|f|..];
        assert r == f + s && s != [];
        NothingBelow(after, f, s);
        NothingBelow(n, f, s);
      } else {
        SetAtFrame(n, f, File(content), r);
      }
    }
  }

  /** A proper prefix of a path is a prefix of its parent. */
  lemma ProperPrefixOfParent(r: seq<string>, f: seq<string>)
    requires r < f
    ensures r <= DropLast(f)
  {
    assert DropLast(f) == f[..|f| - 1];
    assert r == f[..|r|];
  }

  /**
   * Saving succeeds when no proper ancestor of `f` is a file and `f` is not
   * a directory; it leaves the content at `f`, the ancestors as directories
   * and everything else as it was.
   */
  lemma SaveSucceeds(disk: Node, pre: string, f: seq<string>, content: string)
    requires disk.Dir? && CanWrite(disk, f)
    ensures Save(disk, pre, f, content).1 == None
    ensures Written(disk, Save(disk, pre, f, content).0, f, content)
  {
    var d := DropLast(f);
    assert f != [];
    forall r | r <= d ensures !IsFileAt(disk, r) {
      assert r < f;
    }
    MakeDirsOkIff(disk, pre, d);
    MakeDirsMade(disk, pre, d);
    var made := MakeDirsResult(disk, pre, d).value;
    assert !(f <= d);
    OpenIntoDir(made, pre, f, content);
    StoreWritten(made, f, content);
    var after := SetAt(made, f, File(content));
    forall r | !(r <= f) ensures Stat(after, r) == Stat(disk, r) {
      assert !(r <= d);
    }
  }

  /** `makedirs` stops at the first file on the way, with `EEXIST` when it is `d` itself and `ENOTDIR` otherwise. */
  lemma MakeDirsFails(n: Node, pre: string, d: seq<string>)
    ensures IsFileAt(n, d) ==> MakeDirsResult(n, pre, d) == Err(FileExists(Render(pre, d)))
    ensures forall j :: 0 <= j < |d| && IsFileAt(n, d[..j]) ==>
      MakeDirsResult(n, pre, d) == Err(NotADirectory(Render(pre, d[..j + 1])))
  {
    ExistingLayout(n, d);
    assert d[..|d|] == d;
  }

  /** A target that is a directory passes `makedirs` untouched and is refused by `open` with `EISDIR`. */
  lemma OpenOnDirectory(n: Node, pre: string, f: seq<string>, content: string)
    requires n.Dir? && IsDirAt(n, f)
    ensures MakeDirsResult(n, pre, DropLast(f)) == Ok(n)
    ensures OpenResult(n, pre, f, content) == Err(IsADirectory(Render(pre, f)))
  {
    var d := DropLast(f);
    ExistingLayout(n, d);
    assert d[..|d|] == d;
    assert IsDirAt(n, d) by {
      if f != [] {
        AncestorsAreDirs(n, f, d);
      }
    }
    OpenIntoDir(n, pre, f, content);
  }

  /** When the target cannot be written, either `makedirs` fails or the target is a directory. */
  lemma UnwritableStops(n: Node, pre: string, f: seq<string>)
    requires !CanWrite(n, f)
    ensures MakeDirsResult(n, pre, DropLast(f)).Err? || IsDirAt(n, f)
  {
    MakeDirsOkIff(n, pre, DropLast(f));
    forall r | r < f ensures MakeDirsResult(n, pre, DropLast(f)).Err? || !IsFileAt(n, r) {
      ProperPrefixOfParent(r, f);
    }
  }

  /**
   * Saving anything else changes nothing (both failures happen before
   * anything is created) and raises the `OSError` that stopped it: `EEXIST`
   * on the parent, `ENOTDIR` on the directory below the first file on the
   * way, `EISDIR` on the target.
   */
  lemma SaveFails(disk: Node, pre: string, f: seq<string>, content: string)
    requires disk.Dir? && !CanWrite(disk, f)
    ensures Save(disk, pre, f, content).0 == disk
    ensures var d := DropLast(f);
      var err := Save(disk, pre, f, content).1;
      err.Some?
      && (IsFileAt(disk, d) ==> err == Some(FileExists(Render(pre, d))))
      && (forall j :: 0 <= j < |d| && IsFileAt(disk, d[..j]) ==> err == Some(NotADirectory(Render(pre, d[..j + 1]))))
      && (IsDirAt(disk, f) ==> err == Some(IsADirectory(Render(pre, f))))
  {
    MakeDirsFails(disk, pre, DropLast(f));
    UnwritableStops(disk, pre, f);
    if IsDirAt(disk, f) {
      OpenOnDirectory(disk, pre, f, content);
    }
  }

  /**
   * Inside the working directory, `write_file` reports success exactly when
   * no proper ancestor of the target is a file and the target is not a
   * directory, and the disk then holds the content at the target.
   */
  lemma WriteSucceeds(disk: Node, cwd: AbsPath, wd: string, fp: string, content: string)
    requires disk.Dir? && Contained(cwd, wd, fp)
    requires CanWrite(disk, Components(Target(cwd, wd, fp)))
    ensures Write(disk, cwd, wd, fp, content).1 == SuccessMessage(fp, content)
    ensures Written(disk, Write(disk, cwd, wd, fp, content).0, Components(Target(cwd, wd, fp)), content)
  {
    var abs := Target(cwd, wd, fp);
    SaveSucceeds(disk, InitialSlashes(abs), Components(abs), content);
  }

  /**
   * Every other call leaves the disk unchanged and returns the refusal or
   * the `OSError` text, naming the parent directory, the directory that
   * could not be made or the target itself.
   */
  lemma WriteFails(disk: Node, cwd: AbsPath, wd: string, fp: string, content: string)
    requires disk.Dir?
    requires !(Contained(cwd, wd, fp) && CanWrite(disk, Components(Target(cwd, wd, fp))))
    ensures Write(disk, cwd, wd, fp, content).0 == disk
    ensures !Contained(cwd, wd, fp) ==> Write(disk, cwd, wd, fp, content).1 == OutsideMessage(fp)
    ensures var abs := Target(cwd, wd, fp);
      var f := Components(abs);
      var d := DropLast(f);
      var msg := Write(disk, cwd, wd, fp, content).1;
      Contained(cwd, wd, fp) ==>
        (IsFileAt(disk, d) ==> msg == FailureMessage(fp, FileExists(Dirname(abs))))
        && (forall j :: 0 <= j < |d| && IsFileAt(disk, d[..j]) ==>
              msg == FailureMessage(fp, NotADirectory(Render(InitialSlashes(abs), d[..j + 1]))))
        && (IsDirAt(disk, f) ==> msg == FailureMessage(fp, IsADirectory(abs)))
  {
    if Contained(cwd, wd, fp) {
      var abs := Target(cwd, wd, fp);
      TargetShape(cwd, wd, fp);
      SaveFails(disk, InitialSlashes(abs), Components(abs), content);
    }
  }

  /** `write_file` reports success exactly when the target is inside the working directory and can be written. */
  lemma WriteSuccessIff(disk: Node, cwd: AbsPath, wd: string, fp: string, content: string)
    requires disk.Dir?
    ensures Write(disk, cwd, wd, fp, content).1 == SuccessMessage(fp, content)
      <==> Contained(cwd, wd, fp) && CanWrite(disk, Components(Target(cwd, wd, fp)))
  {
    if Contained(cwd, wd, fp) && CanWrite(disk, Components(Target(cwd, wd, fp))) {
      WriteSucceeds(disk, cwd, wd, fp, content);
    } else if Contained(cwd, wd, fp) {
      var abs := Target(cwd, wd, fp);
      SaveFails(disk, InitialSlashes(abs), Components(abs), content);
      var e := Save(disk, InitialSlashes(abs), Components(abs), content).1.value;
      assert FailureMessage(fp, e)[0] != SuccessMessage(fp, content)[0];
    } else {
      assert OutsideMessage(fp)[0] != SuccessMessage(fp, content)[0];
    }
  }

  /** `../w2/f` from `/w` escapes into the sibling `/w2`, and the file is written there. */
  lemma SiblingWritten(disk: Node, cwd: AbsPath, content: string)
    requires disk.Dir? && CanWrite(disk, ["w2", "f"])
    ensures Write(disk, cwd, "/w", "../w2/f", content).1 == SuccessMessage("../w2/f", content)
    ensures Written(disk, Write(disk, cwd, "/w", "../w2/f", content).0, ["w2", "f"], content)
  {
    SiblingWithSharedPrefixAdmitted(cwd);
    ComponentsOfSibling();
    WriteSucceeds(disk, cwd, "/w", "../w2/f", content);
  }

  /** `../x` from `/w` is refused and nothing is created. */
  lemma ParentEscapeNotWritten(disk: Node, cwd: AbsPath, content: string)
    ensures Write(disk, cwd, "/w", "../x", content) == (disk, OutsideMessage("../x"))
  {
    ParentEscapeRefused(cwd);
  }

  /** The disk `write_file` acts on. */
  class Disk {
    var root: Node

    ghost predicate Valid()
      reads this
    {
      root.Dir? && WellFormed(root)
    }

    constructor (root0: Node)
      requires root0.Dir? && WellFormed(root0)
      ensures Valid() && root == root0
    {
      root := root0;
    }

    /** `os.makedirs(pre + "/".join(d), exist_ok=True)` */
    method MakeDirs(pre: string, d: seq<string>) returns (err: Option<OsError>)
      requires Valid() && AllPlain(d)
      modifies this
      ensures Valid()
      ensures match MakeDirsResult(old(root), pre, d)
        case Ok(made) => err == None && root == made
        case Err(e) => err == Some(e) && root == old(root)
    {
      match MakeDirsResult(root, pre, d)
      case Ok(made) =>
        MakeDirsWellFormed(root, pre, d);
        root := made;
        err := None;
      case Err(e) =>
        err := Some(e);
    }

    /** `open(pre + "/".join(f), "w").write(content)` */
    method Open(pre: string, f: seq<string>, content: string) returns (err: Option<OsError>)
      requires Valid() && AllPlain(f)
      modifies this
      ensures Valid()
      ensures match OpenResult(old(root), pre, f, content)
        case Ok(written) => err == None && root == written
        case Err(e) => err == Some(e) && root == old(root)
    {
      match OpenResult(root, pre, f, content)
      case Ok(written) =>
        assert f != [] by {
          assert f == [] ==> IsDirAt(root, f);
        }
        SetAtWellFormed(root, f, File(content));
        root := written;
        err := None;
      case Err(e) =>
        err := Some(e);
    }

    /** The `try` block of `write_file`: create the parent directories, then write the file. */
    method CreateAndWrite(pre: string, f: seq<string>, content: string) returns (err: Option<OsError>)
      requires Valid() && AllPlain(f)
      modifies this
      ensures Valid()
      ensures (root, err) == Save(old(root), pre, f, content)
    {
      assert AllPlain(DropLast(f)) by {
        assert forall i :: 0 <= i < |DropLast(f)| ==> DropLast(f)[i] == f[i];
      }
      err := MakeDirs(pre, DropLast(f));
      if err.None? {
        err := Open(pre, f, content);
      }
    }

    /** `write_file(working_directory, file_path, content)`, returning its message. */
    method WriteFile(cwd: AbsPath, wd: string, fp: string, content: string) returns (msg: string)
      requires Valid()
      modifies this
      ensures Valid()
      ensures (root, msg) == Write(old(root), cwd, wd, fp, content)
    {
      if !Contained(cwd, wd, fp) {
        return OutsideMessage(fp);
      }
      var abs := Target(cwd, wd, fp);
      TargetPlain(cwd, wd, fp);
      var err := CreateAndWrite(InitialSlashes(abs), Components(abs), content);
      if err.Some? {
        msg := FailureMessage(fp, err.value);
      } else {
        msg := SuccessMessage(fp, content);
      }
    }
  }
}
