/**
 * The containment test shared by `run_python_file` and `write_file`: the
 * requested path, joined onto the working directory and made absolute, must
 * START WITH the absolute working directory as a string. It is a raw
 * character prefix, not a comparison of path components, so a sibling whose
 * name extends the working directory's last name is let through.
 */
module PathGuard {
  import opened Text
  import opened PosixPath

  /** The absolute path a tool acts on: `abspath(join(working_directory, path))`. */
  function Target(cwd: AbsPath, wd: string, p: string): string {
    Abspath(cwd, Join(wd, p))
  }

  /** `Target(...).startswith(abspath(working_directory))` */
  predicate Contained(cwd: AbsPath, wd: string, p: string) {
    StartsWith(Target(cwd, wd, p), Abspath(cwd, wd))
  }

  /** The reference notion: the target's components extend the working directory's. */
  predicate InSubtree(cwd: AbsPath, wd: string, p: string) {
    Components(Abspath(cwd, wd)) <= Components(Target(cwd, wd, p))
  }

  lemma {:induction false} JoinWithPrefix(sep: string, a: seq<string>, b: seq<string>)
    requires a <= b
    ensures StartsWith(JoinWith(sep, b), JoinWith(sep, a))
  {
    if |a| == 1 {
      assert b[0] == a[0];
    } else if |a| > 1 {
      assert a[1..] <= b[1..];
      JoinWithPrefix(sep, a[1..], b[1..]);
    }
  }

  /** Joining a relative path onto the working directory and then making it absolute is joining it onto the absolute working directory. */
  lemma AbsoluteOfRelativeJoin(cwd: AbsPath, wd: string, p: string)
    requires !IsAbs(p)
    ensures Absolute(cwd, Join(wd, p)) == Join(Absolute(cwd, wd), p)
  {
    if IsAbs(wd) {
    } else if wd == "" {
      JoinOntoEmpty(cwd, p);
    } else {
      JoinOntoRelative(cwd, wd, p);
    }
  }

  lemma JoinOntoEmpty(cwd: AbsPath, p: string)
    requires !IsAbs(p)
    ensures Absolute(cwd, Join("", p)) == Join(Absolute(cwd, ""), p)
  {
    assert Join("", p) == p;
    var x := Absolute(cwd, "");
    if cwd[|cwd| - 1] != '/' {
      assert x == cwd + "/";
      assert x[|x| - 1] == '/';
      assert cwd + "/" + p == x + p;
    }
  }

  lemma JoinOntoRelative(cwd: AbsPath, wd: string, p: string)
    requires !IsAbs(p) && !IsAbs(wd) && wd != ""
    ensures Absolute(cwd, Join(wd, p)) == Join(Absolute(cwd, wd), p)
  {
    var c := if cwd[|cwd| - 1] == '/' then cwd else cwd + "/";
    var x := Absolute(cwd, wd);
    assert x == c + wd;
    var j := Join(wd, p);
    assert j[0] == wd[0];
    assert Absolute(cwd, j) == c + j;
    JoinAfterPrefix(c, wd, p);
  }

  /** Putting a directory prefix in front commutes with joining a relative path. */
  lemma JoinAfterPrefix(c: string, wd: string, p: string)
    requires !IsAbs(p) && wd != "" && |c| > 0
    ensures c + Join(wd, p) == Join(c + wd, p)
  {
    var x := c + wd;
    assert x[|x| - 1] == wd[|wd| - 1];
    if wd[|wd| - 1] == '/' {
      assert c + (wd + p) == (c + wd) + p;
    } else {
      assert c + (wd + "/" + p) == (c + wd) + "/" + p;
    }
  }

  /** Appending a relative path never changes how many leading slashes are kept. */
  lemma InitialSlashesOfExtension(x: AbsPath, p: string)
    requires !IsAbs(p)
    ensures InitialSlashes(Join(x, p)) == InitialSlashes(x)
  {
    var y := Join(x, p);
    assert y == if x[|x| - 1] == '/' then x + p else x + "/" + p;
    if |x| >= 3 {
      assert y[..3] == x[..3];
      assert StartsWith(y, "//") == StartsWith(x, "//");
      assert StartsWith(y, "///") == StartsWith(x, "///");
    } else if |x| == 2 && x[1] != '/' {
      assert y[..2] == x;
    } else if |x| == 2 {
      assert y == x + p;
      assert p != [] ==> y[2] == p[0];
    } else {
      assert y == x + p;
      assert p != [] ==> y[1] == p[0];
    }
  }

  /**
   * For a relative path the raw prefix test admits every target inside the
   * working directory's subtree: it rejects nothing that is truly contained.
   */
  lemma SubtreeIsContained(cwd: AbsPath, wd: string, p: string)
    requires !IsAbs(p)
    requires InSubtree(cwd, wd, p)
    ensures Contained(cwd, wd, p)
  {
    var x := Absolute(cwd, wd);
    var y := Absolute(cwd, Join(wd, p));
    AbsoluteOfRelativeJoin(cwd, wd, p);
    InitialSlashesOfExtension(x, p);
    AbspathShape(cwd, wd);
    AbspathShape(cwd, Join(wd, p));
    AbspathIsNormal(cwd, wd);
    AbspathIsNormal(cwd, Join(wd, p));
    var pre := InitialSlashes(x);
    assert InitialSlashes(y) == pre;
    var q1, q2 := Lexical(x), Lexical(y);
    assert q1 <= q2;
    JoinWithPrefix("/", q1, q2);
    var j1, j2 := JoinWith("/", q1), JoinWith("/", q2);
    assert Abspath(cwd, wd) == pre + j1;
    assert Target(cwd, wd, p) == pre + j2;
    assert j1 <= j2;
    assert pre + j1 <= pre + j2;
  }

  /** `abspath` of an absolute path with a single leading slash, from its pieces and their resolution. */
  lemma AbspathFromPieces(cwd: AbsPath, p: string, pieces: seq<string>, q: seq<string>)
    requires IsAbs(p) && InitialSlashes(p) == "/"
    requires pieces != [] && forall i :: 0 <= i < |pieces| ==> '/' !in pieces[i]
    requires JoinWith("/", pieces) == p
    requires NormFold([], pieces, true) == q
    ensures Abspath(cwd, p) == "/" + JoinWith("/", q)
  {
    SplitJoinWith(pieces);
  }

  /** A path spelled as a root and plain names is its own `abspath`, and its components are those names. */
  lemma NormalPathParts(cwd: AbsPath, p: string, pre: string, q: seq<string>)
    requires Rooted(pre) && AllPlain(q) && p == pre + JoinWith("/", q)
    ensures Abspath(cwd, p) == p
    ensures Components(p) == q
  {
    AbspathOfNormal(cwd, pre, q);
    ComponentsRooted(pre, q);
  }

  /** `abspath("/w")` is `/w`. */
  lemma AbspathOfW(cwd: AbsPath)
    ensures Abspath(cwd, "/w") == "/w"
    ensures Components("/w") == ["w"]
  {
    assert AllPlain(["w"]);
    NormalPathParts(cwd, "/w", "/", ["w"]);
  }

  lemma AbspathOfParentEscape(cwd: AbsPath)
    ensures Target(cwd, "/w", "../x") == "/x"
  {
    assert Join("/w", "../x") == "/w/../x";
    NormalisesTo(cwd, "/w/../x", ["", "w", "..", "x"], ["x"], "/x");
  }

  lemma SiblingPieces()
    ensures JoinWith("/", ["", "w", "..", "w2", "f"]) == "/w/../w2/f"
    ensures NormFold([], ["", "w", "..", "w2", "f"], true) == ["w2", "f"]
  {
    var pieces := ["", "w", "..", "w2", "f"];
    assert JoinWith("/", pieces[3..]) == "w2/f";
    assert JoinWith("/", pieces[1..]) == "w/../w2/f";
    assert NormFold([], pieces, true) == NormFold([], pieces[3..], true);
  }

  lemma AbspathOfSibling(cwd: AbsPath)
    ensures Abspath(cwd, "/w/../w2/f") == "/w2/f"
  {
    SiblingPieces();
    NormalisesTo(cwd, "/w/../w2/f", ["", "w", "..", "w2", "f"], ["w2", "f"], "/w2/f");
  }

  /** `abspath` of an absolute path with one leading slash, from its pieces and their resolution. */
  lemma NormalisesTo(cwd: AbsPath, p: string, pieces: seq<string>, q: seq<string>, r: string)
    requires |p| >= 2 && p[0] == '/' && p[1] != '/'
    requires pieces != [] && forall i :: 0 <= i < |pieces| ==> '/' !in pieces[i]
    requires JoinWith("/", pieces) == p
    requires NormFold([], pieces, true) == q
    requires "/" + JoinWith("/", q) == r
    ensures Abspath(cwd, p) == r
  {
    assert InitialSlashes(p) == "/";
    AbspathFromPieces(cwd, p, pieces, q);
  }

  lemma ComponentsOfSibling()
    ensures Components("/w2/f") == ["w2", "f"]
  {
    assert JoinWith("/", ["w2", "f"]) == "w2/f";
    assert AllPlain(["w2", "f"]);
    NormalPathParts("/", "/w2/f", "/", ["w2", "f"]);
  }

  /** `../x` from `/w` resolves to `/x` and is refused. */
  lemma ParentEscapeRefused(cwd: AbsPath)
    ensures Target(cwd, "/w", "../x") == "/x"
    ensures !Contained(cwd, "/w", "../x")
  {
    AbspathOfParentEscape(cwd);
    AbspathOfW(cwd);
    assert "/x"[1] != "/w"[1];
  }

  /** `../w2/f` from `/w` resolves to `/w2/f`, outside `/w`, yet passes the raw prefix test. */
  lemma SiblingWithSharedPrefixAdmitted(cwd: AbsPath)
    ensures Target(cwd, "/w", "../w2/f") == "/w2/f"
    ensures Contained(cwd, "/w", "../w2/f")
    ensures !InSubtree(cwd, "/w", "../w2/f")
  {
    TargetOfSibling(cwd);
    AbspathOfW(cwd);
    ComponentsOfSibling();
    assert "/w2/f"[..2] == "/w";
    assert ["w2", "f"][0] != ["w"][0];
  }

  lemma TargetOfSibling(cwd: AbsPath)
    ensures Target(cwd, "/w", "../w2/f") == "/w2/f"
  {
    JoinOfSibling();
    AbspathOfSibling(cwd);
  }

  lemma JoinOfSibling()
    ensures Join("/w", "../w2/f") == "/w/../w2/f"
  {
    assert "/w" + "/" + "../w2/f" == "/w/../w2/f";
  }

  /**
   * The prefix test also refuses a target that is inside by components: from
   * the working directory `//w`, whose two leading slashes `abspath` keeps,
   * the absolute argument `/w/x` normalises to `/w/x`, which does not start
   * with `//w`.
   */
  lemma DoubleSlashRootRefusesInside(cwd: AbsPath)
    ensures Target(cwd, "//w", "/w/x") == "/w/x"
    ensures InSubtree(cwd, "//w", "/w/x")
    ensures !Contained(cwd, "//w", "/w/x")
  {
    assert Join("//w", "/w/x") == "/w/x";
    AbspathOfWX(cwd);
    AbspathOfDoubleSlashW(cwd);
    assert ["w"] <= ["w", "x"];
    assert "/w/x"[1] != "//w"[1];
  }

  lemma AbspathOfWX(cwd: AbsPath)
    ensures Abspath(cwd, "/w/x") == "/w/x"
    ensures Components("/w/x") == ["w", "x"]
  {
    assert JoinWith("/", ["w", "x"]) == "w/x";
    assert AllPlain(["w", "x"]);
    NormalPathParts(cwd, "/w/x", "/", ["w", "x"]);
  }

  /** `abspath("//w")` keeps both slashes. */
  lemma AbspathOfDoubleSlashW(cwd: AbsPath)
    ensures Abspath(cwd, "//w") == "//w"
    ensures Components("//w") == ["w"]
  {
    assert AllPlain(["w"]);
    NormalPathParts(cwd, "//w", "//", ["w"]);
  }

  /** An absolute path argument is checked on its own: the working directory is not joined to it. */
  lemma AbsoluteArgumentCheckedAlone(cwd: AbsPath, wd: string, p: string)
    requires IsAbs(p)
    ensures Target(cwd, wd, p) == Normpath(p)
    ensures Contained(cwd, wd, p) <==> StartsWith(Normpath(p), Abspath(cwd, wd))
  {
  }

  /** The pieces of a target path: its root, its plain names, and its `dirname`. */
  lemma TargetShape(cwd: AbsPath, wd: string, fp: string)
    ensures var abs := Target(cwd, wd, fp);
      var pre := InitialSlashes(abs);
      var f := Components(abs);
      Rooted(pre) && AllPlain(f)
      && abs == pre + JoinWith("/", f)
      && Dirname(abs) == pre + JoinWith("/", DropLast(f))
  {
    var p := Join(wd, fp);
    AbspathShape(cwd, p);
    AbspathIsNormal(cwd, p);
    var pre := InitialSlashes(Absolute(cwd, p));
    var q := Lexical(Absolute(cwd, p));
    InitialSlashesRooted(pre, q);
    DirnameOfNormal(pre, q);
  }

  lemma TargetPlain(cwd: AbsPath, wd: string, fp: string)
    ensures AllPlain(Components(Target(cwd, wd, fp)))
  {
    TargetShape(cwd, wd, fp);
  }
}
