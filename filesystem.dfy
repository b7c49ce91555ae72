/**
 * The disk the tools act on: a tree of directories and regular files. A
 * directory holds its entries in the order `os.listdir` returns them. A
 * location is the sequence of names leading to it from the root.
 */
module FileSystem {
  import opened Wrappers
  import opened Text
  import opened PosixPath

  datatype Node = File(content: string) | Dir(entries: seq<Entry>)
  datatype Entry = Entry(name: string, node: Node)

  /** What `stat` tells about a location: a regular file with its content, or a directory. */
  datatype Kind = FileKind(content: string) | DirKind

  /** Entry names are plain and distinct at every level, as in a real directory. */
  predicate WellFormed(n: Node) {
    match n
    case File(_) => true
    case Dir(es) =>
      (forall i :: 0 <= i < |es| ==> Plain(es[i].name) && WellFormed(es[i].node))
      && (forall i, j :: 0 <= i < j < |es| ==> es[i].name != es[j].name)
  }

  /** Index of the first entry called `name`, or `|es|` when there is none. */
  function Find(es: seq<Entry>, name: string): (i: nat)
    ensures i <= |es|
    ensures i < |es| ==> es[i].name == name
    ensures forall j :: 0 <= j < i ==> es[j].name != name
  {
    if es == [] then 0
    else if es[0].name == name then 0
    else 1 + Find(es[1..], name)
  }

  /** The index `Find` returns is the only one meeting its contract. */
  lemma FindUnique(es: seq<Entry>, name: string, j: nat)
    requires j <= |es|
    requires j < |es| ==> es[j].name == name
    requires forall k :: 0 <= k < j ==> es[k].name != name
    ensures Find(es, name) == j
  {
  }

  /** The node at a location, if every name on the way exists. */
  function NodeAt(n: Node, path: seq<string>): Option<Node>
    decreases path
  {
    if path == [] then Some(n)
    else match n
      case File(_) => None
      case Dir(es) =>
        var i := Find(es, path[0]);
        if i == |es| then None else NodeAt(es[i].node, path[1..])
  }

  function KindOf(n: Node): Kind {
    match n
    case File(c) => FileKind(c)
    case Dir(_) => DirKind
  }

  function Stat(n: Node, path: seq<string>): Option<Kind> {
    match NodeAt(n, path)
    case None => None
    case Some(m) => Some(KindOf(m))
  }

  predicate IsDirAt(n: Node, path: seq<string>) {
    Stat(n, path) == Some(DirKind)
  }

  predicate IsFileAt(n: Node, path: seq<string>) {
    Stat(n, path).Some? && Stat(n, path).value.FileKind?
  }

  /** A location found through `prefix` is found by looking up the rest below `prefix`. */
  lemma {:induction false} NodeAtAppend(n: Node, prefix: seq<string>, rest: seq<string>)
    requires NodeAt(n, prefix).Some?
    ensures NodeAt(n, prefix + rest) == NodeAt(NodeAt(n, prefix).value, rest)
    decreases prefix
  {
    if prefix != [] {
      assert (prefix + rest)[0] == prefix[0];
      assert (prefix + rest)[1..] == prefix[1..] + rest;
      var i := Find(n.entries, prefix[0]);
      NodeAtAppend(n.entries[i].node, prefix[1..], rest);
    } else {
      assert prefix + rest == rest;
    }
  }

  /** Every node found below a well-formed tree is itself well formed. */
  lemma {:induction false} NodeAtWellFormed(n: Node, p: seq<string>)
    requires WellFormed(n) && NodeAt(n, p).Some?
    ensures WellFormed(NodeAt(n, p).value)
    decreases p
  {
    if p != [] {
      var i := Find(n.entries, p[0]);
      NodeAtWellFormed(n.entries[i].node, p[1..]);
    }
  }

  /** In a well-formed tree the `i`-th entry of a directory is found under its own name. */
  lemma ChildAt(n: Node, loc: seq<string>, i: nat)
    requires WellFormed(n) && NodeAt(n, loc).Some? && NodeAt(n, loc).value.Dir?
    requires i < |NodeAt(n, loc).value.entries|
    ensures var e := NodeAt(n, loc).value.entries[i];
      NodeAt(n, loc + [e.name]) == Some(e.node)
  {
    var d := NodeAt(n, loc).value;
    var e := d.entries[i];
    NodeAtAppend(n, loc, [e.name]);
    NodeAtWellFormed(n, loc);
    FindUnique(d.entries, e.name, i);
    assert [e.name][1..] == [];
  }

  /** Every proper ancestor of an existing location is a directory. */
  lemma {:induction false} AncestorsAreDirs(n: Node, p: seq<string>, r: seq<string>)
    requires NodeAt(n, p).Some?
    requires r < p
    ensures IsDirAt(n, r)
    decreases r
  {
    if r == [] {
      assert p[0] == p[0];
      assert n.Dir?;
    } else {
      assert p[0] == r[0];
      var i := Find(n.entries, r[0]);
      assert r[1..] < p[1..];
      AncestorsAreDirs(n.entries[i].node, p[1..], r[1..]);
    }
  }

  /** Nothing exists below a location that is missing or is a file. */
  lemma {:induction false} NothingBelow(n: Node, p: seq<string>, s: seq<string>)
    requires s != []
    requires NodeAt(n, p).None? || NodeAt(n, p).value.File?
    ensures NodeAt(n, p + s).None?
    decreases p
  {
    if p == [] {
      assert p + s == s;
    } else if n.Dir? {
      assert (p + s)[0] == p[0];
      assert (p + s)[1..] == p[1..] + s;
      var i := Find(n.entries, p[0]);
      if i < |n.entries| {
        NothingBelow(n.entries[i].node, p[1..], s);
      }
    }
  }

  /** How many leading names of `d` exist: the depth of its deepest existing prefix. */
  function Existing(n: Node, d: seq<string>): (k: nat)
    ensures k <= |d|
    ensures NodeAt(n, d[..k]).Some?
    ensures k < |d| ==> NodeAt(n, d[..k + 1]).None?
    decreases d
  {
    if d == [] then 0
    else match n
      case File(_) => 0
      case Dir(es) =>
        var i := Find(es, d[0]);
        if i == |es| then 0
        else
          var k := Existing(es[i].node, d[1..]);
          assert d[..k + 1][0] == d[0] && d[..k + 1][1..] == d[1..][..k];
          assert k + 1 < |d| ==> d[..k + 2][0] == d[0] && d[..k + 2][1..] == d[1..][..k + 1];
          k + 1
  }

  /** Above the deepest existing prefix of `d` lie directories, below it nothing. */
  lemma ExistingLayout(n: Node, d: seq<string>)
    ensures forall j :: 0 <= j < Existing(n, d) ==> IsDirAt(n, d[..j])
    ensures forall j :: Existing(n, d) < j <= |d| ==> NodeAt(n, d[..j]).None?
  {
    var k := Existing(n, d);
    forall j | 0 <= j < k ensures IsDirAt(n, d[..j]) {
      AncestorsAreDirs(n, d[..k], d[..j]);
    }
    forall j | k < j <= |d| ensures NodeAt(n, d[..j]).None? {
      ExistingIsDeepest(n, d, d[..j]);
    }
  }

  /** No prefix of `d` deeper than `Existing` exists. */
  lemma ExistingIsDeepest(n: Node, d: seq<string>, r: seq<string>)
    requires r <= d && |r| > Existing(n, d)
    ensures NodeAt(n, r).None?
  {
    var k := Existing(n, d);
    assert r == d[..k + 1] + r[k + 1..];
    if |r| > k + 1 {
      NothingBelow(n, d[..k + 1], r[k + 1..]);
    }
  }

  // ---------------------------------------------------------------------
  // Changing one location

  /**
   * The tree with the node at `p` replaced by `m`, or with `m` added as the
   * new last entry of `p`'s parent when `p` does not exist yet. When the
   * parent is missing or is a file, nothing changes.
   */
  function SetAt(n: Node, p: seq<string>, m: Node): Node
    decreases p
  {
    if p == [] then m
    else match n
      case File(_) => n
      case Dir(es) =>
        var i := Find(es, p[0]);
        if i < |es| then Dir(es[i := Entry(p[0], SetAt(es[i].node, p[1..], m))])
        else if |p| == 1 then Dir(es + [Entry(p[0], m)])
        else n
  }

  /** After `SetAt`, the subtree at `p` is `m`. */
  lemma {:induction false} SetAtInside(n: Node, p: seq<string>, m: Node, s: seq<string>)
    requires p == [] || IsDirAt(n, p[..|p| - 1])
    ensures NodeAt(SetAt(n, p, m), p + s) == NodeAt(m, s)
    decreases p
  {
    if p == [] {
      assert p + s == s;
    } else {
      assert IsDirAt(n, []) by {
        if |p| > 1 {
          AncestorsAreDirs(n, p[..|p| - 1], []);
        }
      }
      var es := n.entries;
      var i := Find(es, p[0]);
      var after := SetAt(n, p, m);
      assert (p + s)[0] == p[0] && (p + s)[1..] == p[1..] + s;
      if |p| > 1 {
        assert p[..|p| - 1][0] == p[0];
        assert i < |es|;
      }
      if i < |es| {
        var es' := es[i := Entry(p[0], SetAt(es[i].node, p[1..], m))];
        FindUnique(es', p[0], i);
        assert p[1..] == [] || IsDirAt(es[i].node, p[1..][..|p[1..]| - 1]) by {
          if |p| > 1 {
            assert p[..|p| - 1][1..] == p[1..][..|p[1..]| - 1];
          }
        }
        SetAtInside(es[i].node, p[1..], m, s);
      } else {
        var es' := es + [Entry(p[0], m)];
        FindUnique(es', p[0], |es|);
        assert p[1..] + s == s;
      }
    }
  }

  /** `SetAt` changes nothing that `stat` reports outside the subtree at `p`. */
  lemma {:induction false} SetAtFrame(n: Node, p: seq<string>, m: Node, r: seq<string>)
    requires !(p <= r)
    ensures Stat(SetAt(n, p, m), r) == Stat(n, r)
    decreases r
  {
    if r != [] && n.Dir? {
      var es := n.entries;
      var i := Find(es, p[0]);
      var j := Find(es, r[0]);
      StatStep(n, r);
      if i < |es| {
        var es' := es[i := Entry(p[0], SetAt(es[i].node, p[1..], m))];
        assert SetAt(n, p, m) == Dir(es');
        FindUnique(es', r[0], j);
        StatStep(Dir(es'), r);
        if r[0] == p[0] {
          assert !(p[1..] <= r[1..]);
          SetAtFrame(es[i].node, p[1..], m, r[1..]);
        } else if j < |es| {
          assert es'[j] == es[j];
        }
      } else if |p| == 1 {
        var es' := es + [Entry(p[0], m)];
        assert SetAt(n, p, m) == Dir(es');
        assert r[0] != p[0];
        StatStep(Dir(es'), r);
        if j < |es| {
          FindUnique(es', r[0], j);
          assert es'[j] == es[j];
        } else {
          FindUnique(es', r[0], |es'|);
        }
      }
    }
  }

  /** `stat` of a location below a directory is `stat` below the entry its first name finds. */
  lemma StatStep(n: Node, r: seq<string>)
    requires n.Dir? && r != []
    ensures var j := Find(n.entries, r[0]);
      Stat(n, r) == if j == |n.entries| then None else Stat(n.entries[j].node, r[1..])
  {
  }

  /** `SetAt` keeps the tree well formed when the name it may add is plain and `m` is well formed. */
  lemma {:induction false} SetAtWellFormed(n: Node, p: seq<string>, m: Node)
    requires WellFormed(n) && WellFormed(m)
    requires AllPlain(p)
    ensures WellFormed(SetAt(n, p, m))
    decreases p
  {
    if p != [] && n.Dir? {
      var es := n.entries;
      var i := Find(es, p[0]);
      if i < |es| {
        assert AllPlain(p[1..]) by {
          forall k | 0 <= k < |p[1..]| ensures Plain(p[1..][k]) {
            assert p[1..][k] == p[k + 1];
          }
        }
        SetAtWellFormed(es[i].node, p[1..], m);
        var es' := es[i := Entry(p[0], SetAt(es[i].node, p[1..], m))];
        assert forall k :: 0 <= k < |es'| ==> es'[k].name == es[k].name;
      } else if |p| == 1 {
        var es' := es + [Entry(p[0], m)];
        assert Plain(p[0]);
        assert forall k :: 0 <= k < |es| ==> es'[k] == es[k];
      }
    }
  }

  // ---------------------------------------------------------------------
  // Resolving a path string as the kernel does

  /**
   * Looks up `comps` one at a time starting from the directory at `cur`:
   * each step starts from a directory, "" and "." stay, ".." goes to the
   * parent (the root is its own parent), and a name must exist.
   */
  function Walk(n: Node, cur: seq<string>, comps: seq<string>): Option<seq<string>>
    decreases |comps|
  {
    if comps == [] then Some(cur)
    else if !IsDirAt(n, cur) then None
    else
      var c := comps[0];
      var next := if c == "" || c == "." then cur else if c == ".." then DropLast(cur) else cur + [c];
      if NodeAt(n, next).None? then None else Walk(n, next, comps[1..])
  }

  /** The location a path string names, relative ones taken from the process directory `cwd`. */
  function Resolve(n: Node, cwd: AbsPath, raw: string): Option<seq<string>> {
    if raw == "" then None else Walk(n, [], Split(Absolute(cwd, raw)))
  }

  /** `os.path.isdir` */
  predicate IsDir(n: Node, cwd: AbsPath, raw: string) {
    var r := Resolve(n, cwd, raw);
    r.Some? && IsDirAt(n, r.value)
  }

  /** `os.path.isfile` */
  predicate IsFile(n: Node, cwd: AbsPath, raw: string) {
    var r := Resolve(n, cwd, raw);
    r.Some? && IsFileAt(n, r.value)
  }

  lemma {:induction false} WalkAppend(n: Node, cur: seq<string>, a: seq<string>, b: seq<string>)
    ensures Walk(n, cur, a + b) == match Walk(n, cur, a) case None => None case Some(c) => Walk(n, c, b)
    decreases |a|
  {
    if a == [] {
      assert a + b == b;
    } else {
      assert (a + b)[0] == a[0];
      assert (a + b)[1..] == a[1..] + b;
      var c := a[0];
      var next := if c == "" || c == "." then cur else if c == ".." then DropLast(cur) else cur + [c];
      WalkAppend(n, next, a[1..], b);
    }
  }

  /** A successful walk ends at an existing location. */
  lemma {:induction false} WalkReaches(n: Node, cur: seq<string>, comps: seq<string>)
    requires NodeAt(n, cur).Some?
    ensures Walk(n, cur, comps).Some? ==> NodeAt(n, Walk(n, cur, comps).value).Some?
    decreases |comps|
  {
    if comps != [] {
      var c := comps[0];
      var next := if c == "" || c == "." then cur else if c == ".." then DropLast(cur) else cur + [c];
      if NodeAt(n, next).Some? {
        WalkReaches(n, next, comps[1..]);
      }
    }
  }

  /**
   * Without links, the kernel's walk ends where `normpath`'s lexical
   * resolution does, whenever the walk succeeds.
   */
  lemma {:induction false} WalkLexical(n: Node, cur: seq<string>, comps: seq<string>)
    requires AllPlain(cur)
    requires forall i :: 0 <= i < |comps| ==> '/' !in comps[i]
    ensures Walk(n, cur, comps).Some? ==> Walk(n, cur, comps).value == NormFold(cur, comps, true)
    decreases |comps|
  {
    if comps != [] {
      var c := comps[0];
      var next := if c == "" || c == "." then cur else if c == ".." then DropLast(cur) else cur + [c];
      assert NormStep(cur, c, true) == next by {
        if c == ".." && cur != [] {
          assert Plain(cur[|cur| - 1]);
        }
      }
      assert AllPlain(next) by {
        forall k | 0 <= k < |next| ensures Plain(next[k]) {
          if k < |cur| {
            assert next[k] == cur[k];
          } else {
            assert '/' !in comps[0];
          }
        }
      }
      WalkLexical(n, next, comps[1..]);
    }
  }

  /** Walking down plain names that all exist reaches the location they spell. */
  lemma {:induction false} WalkPlain(n: Node, cur: seq<string>, q: seq<string>)
    requires AllPlain(q)
    requires NodeAt(n, cur + q).Some?
    ensures Walk(n, cur, q) == Some(cur + q)
    decreases q
  {
    if q == [] {
      assert cur + q == cur;
    } else {
      AncestorsAreDirs(n, cur + q, cur);
      var next := cur + [q[0]];
      assert next + q[1..] == cur + q;
      if q[1..] != [] {
        AncestorsAreDirs(n, cur + q, next);
      }
      assert AllPlain(q[1..]) by {
        forall k | 0 <= k < |q[1..]| ensures Plain(q[1..][k]) {
          assert q[1..][k] == q[k + 1];
        }
      }
      WalkPlain(n, next, q[1..]);
    }
  }

  /** A walk down plain names succeeds exactly when the location they spell exists. */
  lemma WalkPlainIff(n: Node, cur: seq<string>, q: seq<string>)
    requires AllPlain(cur) && AllPlain(q) && NodeAt(n, cur).Some?
    ensures Walk(n, cur, q) == if NodeAt(n, cur + q).Some? then Some(cur + q) else None
  {
    if NodeAt(n, cur + q).Some? {
      WalkPlain(n, cur, q);
    } else {
      WalkLexical(n, cur, q);
      WalkReaches(n, cur, q);
      NormFoldPlain(cur, q);
    }
  }

  /** A normalised absolute path resolves to its own names exactly when they exist. */
  lemma ResolveOfAbspath(n: Node, cwd: AbsPath, raw: string)
    requires n.Dir?
    ensures var abs := Abspath(cwd, raw);
      Resolve(n, cwd, abs) == if NodeAt(n, Components(abs)).Some? then Some(Components(abs)) else None
  {
    AbspathShape(cwd, raw);
    AbspathIsNormal(cwd, raw);
    var pre := InitialSlashes(Absolute(cwd, raw));
    var q := Lexical(Absolute(cwd, raw));
    var abs := Abspath(cwd, raw);
    assert Absolute(cwd, abs) == abs;
    SplitRooted(pre, q);
    var tail := if q == [] then [""] else q;
    WalkAppend(n, [], Slashes(pre), tail);
    assert Walk(n, [], Slashes(pre)) == Some([]) by {
      assert Walk(n, [], [""]) == Some([]);
      assert Walk(n, [], ["", ""]) == Walk(n, [], [""]);
    }
    if q == [] {
      assert IsDirAt(n, []);
    } else {
      assert [] + q == q;
      WalkPlainIff(n, [], q);
    }
  }

  /**
   * A path that resolves names the same location as its `abspath`, so a
   * directory found by `isdir(p)` is the one `listdir(abspath(p))` opens.
   */
  lemma ResolveAbspath(n: Node, cwd: AbsPath, raw: string)
    requires n.Dir?
    requires Resolve(n, cwd, raw).Some?
    ensures Resolve(n, cwd, Abspath(cwd, raw)) == Resolve(n, cwd, raw)
    ensures Resolve(n, cwd, raw).value == Components(Abspath(cwd, raw))
  {
    var a := Absolute(cwd, raw);
    WalkLexical(n, [], Split(a));
    WalkReaches(n, [], Split(a));
    AbspathIsNormal(cwd, raw);
    ResolveOfAbspath(n, cwd, raw);
  }

  /** `isfile` of a normalised absolute path: its names lead to a file. */
  lemma IsFileOfAbspath(n: Node, cwd: AbsPath, raw: string)
    requires n.Dir?
    ensures IsFile(n, cwd, Abspath(cwd, raw)) <==> IsFileAt(n, Components(Abspath(cwd, raw)))
  {
    ResolveOfAbspath(n, cwd, raw);
  }

  /**
   * The path string the lister builds for an entry, `os.path.join(path,
   * entry)` with `path` the directory's normalised path, resolves to the
   * directory's location extended by the entry's name; so `isdir` of it holds
   * exactly when the entry is a directory, and the joined path has the same
   * normalised form one level down.
   */
  lemma JoinedEntryResolves(n: Node, cwd: AbsPath, pre: string, loc: seq<string>, i: nat)
    requires WellFormed(n) && Rooted(pre) && AllPlain(loc)
    requires NodeAt(n, loc).Some? && NodeAt(n, loc).value.Dir?
    requires i < |NodeAt(n, loc).value.entries|
    ensures var e := NodeAt(n, loc).value.entries[i];
      var full := Join(pre + JoinWith("/", loc), e.name);
      full == pre + JoinWith("/", loc + [e.name])
      && AllPlain(loc + [e.name])
      && Resolve(n, cwd, full) == Some(loc + [e.name])
      && (IsDir(n, cwd, full) <==> e.node.Dir?)
  {
    var e := NodeAt(n, loc).value.entries[i];
    NodeAtWellFormed(n, loc);
    assert Plain(e.name);
    JoinRootedName(pre, loc, e.name);
    var q := loc + [e.name];
    assert AllPlain(q) by {
      forall k | 0 <= k < |q| ensures Plain(q[k]) {
        if k < |loc| {
          assert q[k] == loc[k];
        }
      }
    }
    ChildAt(n, loc, i);
    PlainNamesResolve(n, cwd, pre, q);
  }

  /** A normalised path whose names all exist resolves to them. */
  lemma PlainNamesResolve(n: Node, cwd: AbsPath, pre: string, q: seq<string>)
    requires Rooted(pre) && AllPlain(q) && q != []
    requires NodeAt(n, q).Some?
    ensures Resolve(n, cwd, pre + JoinWith("/", q)) == Some(q)
  {
    var full := pre + JoinWith("/", q);
    assert IsAbs(full);
    assert Absolute(cwd, full) == full;
    SplitRooted(pre, q);
    WalkAppend(n, [], Slashes(pre), q);
    AncestorsAreDirs(n, q, []);
    assert Walk(n, [], Slashes(pre)) == Some([]) by {
      assert Walk(n, [], [""]) == Some([]);
      assert Walk(n, [], ["", ""]) == Walk(n, [], [""]);
    }
    assert [] + q == q;
    WalkPlain(n, [], q);
  }

  // ---------------------------------------------------------------------
  // File size

  /** Bytes UTF-8 uses for one character. */
  function Utf8Length(c: char): nat {
    if c as int < 0x80 then 1
    else if c as int < 0x800 then 2
    else if c as int < 0x10000 then 3
    else 4
  }

  /** `os.path.getsize` of a file written with this text: its UTF-8 encoded length. */
  function Size(content: string): (r: nat)
    ensures |content| <= r <= 4 * |content|
    ensures (forall i :: 0 <= i < |content| ==> content[i] as int < 0x80) ==> r == |content|
  {
    if content == [] then 0 else Utf8Length(content[0]) + Size(content[1..])
  }
}
