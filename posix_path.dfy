/**
 * The parts of Python's `posixpath` module that the tools call: `isabs`,
 * `join` (two arguments), `normpath`, `abspath`, `basename` and `dirname`.
 * All of them are lexical: they look at the characters of the path only.
 * `abspath` consults the process working directory, which is an explicit
 * parameter `cwd` here.
 */
module PosixPath {
  import opened Text

  /** `posixpath.isabs` */
  predicate IsAbs(p: string) {
    |p| > 0 && p[0] == '/'
  }

  /** What `os.getcwd()` returns: always an absolute path. */
  type AbsPath = p: string | IsAbs(p) witness "/"

  /** `posixpath.join(a, b)`: an absolute `b` discards `a`. */
  function Join(a: string, b: string): (r: string)
    ensures IsAbs(b) ==> r == b
    ensures IsAbs(a) ==> IsAbs(r)
  {
    if IsAbs(b) then b
    else if a == "" || a[|a| - 1] == '/' then a + b
    else a + "/" + b
  }

  /** Index of the first `c` in `s`, or `|s|` when there is none. */
  function IndexOf(s: string, c: char): (i: nat)
    ensures i <= |s|
    ensures i < |s| ==> s[i] == c
    ensures forall j :: 0 <= j < i ==> s[j] != c
  {
    if s == [] then 0
    else if s[0] == c then 0
    else 1 + IndexOf(s[1..], c)
  }

  /** `s.split("/")`: the pieces between slashes; joining them back gives `s`. */
  function Split(s: string): (parts: seq<string>)
    ensures parts != []
    ensures forall i :: 0 <= i < |parts| ==> '/' !in parts[i]
    ensures JoinWith("/", parts) == s
    decreases |s|
  {
    var i := IndexOf(s, '/');
    if i == |s| then
      [s]
    else
      var rest := Split(s[i + 1..]);
      assert ([s[..i]] + rest)[1..] == rest;
      assert s == s[..i] + "/" + s[i + 1..];
      [s[..i]] + rest
  }

  /** Splitting undoes joining, when no piece contains a slash. */
  lemma {:induction false} SplitJoinWith(parts: seq<string>)
    requires parts != []
    requires forall i :: 0 <= i < |parts| ==> '/' !in parts[i]
    ensures Split(JoinWith("/", parts)) == parts
  {
    var s := JoinWith("/", parts);
    if |parts| == 1 {
      assert IndexOf(s, '/') == |s|;
    } else {
      var rest := JoinWith("/", parts[1..]);
      assert s == parts[0] + "/" + rest;
      var i := IndexOf(s, '/');
      assert s[|parts[0]|] == '/';
      assert i == |parts[0]|;
      assert s[..i] == parts[0];
      assert s[i + 1..] == rest;
      SplitJoinWith(parts[1..]);
    }
  }

  lemma SplitLeadingSlash(s: string)
    ensures Split("/" + s) == [""] + Split(s)
  {
    assert IndexOf("/" + s, '/') == 0;
    assert ("/" + s)[1..] == s;
  }

  /** A path component that survives normalisation and names an entry. */
  predicate Plain(c: string) {
    c != "" && c != "." && c != ".." && '/' !in c
  }

  predicate AllPlain(cs: seq<string>) {
    forall i :: 0 <= i < |cs| ==> Plain(cs[i])
  }

  /** One step of `normpath`'s loop over the components. */
  function NormStep(stack: seq<string>, c: string, rooted: bool): seq<string> {
    if c == "" || c == "." then stack
    else if c != ".." || (!rooted && stack == []) || (stack != [] && stack[|stack| - 1] == "..") then stack + [c]
    else if stack != [] then stack[..|stack| - 1]
    else stack
  }

  function NormFold(stack: seq<string>, comps: seq<string>, rooted: bool): seq<string>
    decreases |comps|
  {
    if comps == [] then stack
    else NormFold(NormStep(stack, comps[0], rooted), comps[1..], rooted)
  }

  /** POSIX keeps exactly two leading slashes; one, or three and more, become one. */
  function InitialSlashes(p: string): string {
    if StartsWith(p, "//") && !StartsWith(p, "///") then "//"
    else if StartsWith(p, "/") then "/"
    else ""
  }

  /** `posixpath.normpath` */
  function Normpath(p: string): (r: string)
    ensures r != ""
  {
    if p == "" then "."
    else
      var initial := InitialSlashes(p);
      var path := initial + JoinWith("/", NormFold([], Split(p), initial != ""));
      if path == "" then "." else path
  }

  /** The path `abspath` normalises: `p` joined onto the process directory when relative. */
  function Absolute(cwd: AbsPath, p: string): AbsPath {
    if IsAbs(p) then p else Join(cwd, p)
  }

  /** `os.path.abspath` */
  function Abspath(cwd: AbsPath, p: string): string {
    Normpath(Absolute(cwd, p))
  }

  /** The components an absolute path leads to: its pieces with "", "." and ".." resolved. */
  function Lexical(p: AbsPath): seq<string> {
    NormFold([], Split(p), true)
  }

  // ---------------------------------------------------------------------
  // basename and dirname

  /** Index just after the last slash of `p`, or 0. */
  function AfterLastSlash(p: string): (i: nat)
    ensures i <= |p|
    ensures i > 0 ==> p[i - 1] == '/'
    ensures forall j :: i <= j < |p| ==> p[j] != '/'
  {
    if p == [] then 0
    else if p[|p| - 1] == '/' then |p|
    else AfterLastSlash(p[..|p| - 1])
  }

  predicate AllSlashes(s: string) {
    forall i :: 0 <= i < |s| ==> s[i] == '/'
  }

  function RStripSlashes(s: string): (r: string)
    ensures r <= s
    ensures r == [] || r[|r| - 1] != '/'
  {
    if s != [] && s[|s| - 1] == '/' then RStripSlashes(s[..|s| - 1]) else s
  }

  /** `posixpath.basename` */
  function Basename(p: string): string {
    p[AfterLastSlash(p)..]
  }

  /** `posixpath.dirname` */
  function Dirname(p: string): string {
    var head := p[..AfterLastSlash(p)];
    if head != "" && !AllSlashes(head) then RStripSlashes(head) else head
  }

  // ---------------------------------------------------------------------
  // The shape of a normalised absolute path

  function DropLast(cs: seq<string>): seq<string> {
    if cs == [] then [] else cs[..|cs| - 1]
  }

  /** The pieces of a string that are not empty. */
  function NonEmpty(parts: seq<string>): (r: seq<string>)
    ensures forall i :: 0 <= i < |r| ==> r[i] != ""
  {
    if parts == [] then []
    else (if parts[0] == "" then [] else [parts[0]]) + NonEmpty(parts[1..])
  }

  /** The names a path goes through, ignoring every run of slashes. */
  function Components(p: string): seq<string> {
    NonEmpty(Split(p))
  }

  lemma {:induction false} NonEmptyAppend(a: seq<string>, b: seq<string>)
    ensures NonEmpty(a + b) == NonEmpty(a) + NonEmpty(b)
  {
    if a != [] {
      assert (a + b)[0] == a[0];
      assert (a + b)[1..] == a[1..] + b;
      NonEmptyAppend(a[1..], b);
      var h := if a[0] == "" then [] else [a[0]];
      assert NonEmpty(a + b) == h + (NonEmpty(a[1..]) + NonEmpty(b));
      assert NonEmpty(a) == h + NonEmpty(a[1..]);
    } else {
      assert a + b == b;
    }
  }

  lemma {:induction false} NonEmptyOfAllPlain(cs: seq<string>)
    requires AllPlain(cs)
    ensures NonEmpty(cs) == cs
  {
    if cs != [] {
      assert AllPlain(cs[1..]) by {
        forall i | 0 <= i < |cs[1..]| ensures Plain(cs[1..][i]) {
          assert cs[1..][i] == cs[i + 1];
        }
      }
      NonEmptyOfAllPlain(cs[1..]);
      assert cs == [cs[0]] + cs[1..];
    }
  }

  /** A normalised absolute path is its root slashes followed by plain names. */
  predicate Rooted(pre: string) {
    pre == "/" || pre == "//"
  }

  function Slashes(pre: string): seq<string>
    requires Rooted(pre)
  {
    if pre == "/" then [""] else ["", ""]
  }

  lemma SplitRooted(pre: string, q: seq<string>)
    requires Rooted(pre) && AllPlain(q)
    ensures Split(pre + JoinWith("/", q)) == Slashes(pre) + (if q == [] then [""] else q)
  {
    var j := JoinWith("/", q);
    if q != [] {
      SplitJoinWith(q);
    }
    assert Split(j) == (if q == [] then [""] else q);
    if pre == "/" {
      SplitLeadingSlash(j);
    } else {
      assert pre + j == "/" + ("/" + j);
      SplitLeadingSlash("/" + j);
      SplitLeadingSlash(j);
    }
  }

  /** The components of a normalised path are exactly its plain names. */
  lemma ComponentsRooted(pre: string, q: seq<string>)
    requires Rooted(pre) && AllPlain(q)
    ensures Components(pre + JoinWith("/", q)) == q
  {
    SplitRooted(pre, q);
    var tail := if q == [] then [""] else q;
    NonEmptyAppend(Slashes(pre), tail);
    NonEmptyOfAllPlain(q);
    assert NonEmpty(Slashes(pre)) == [];
  }

  lemma {:induction false} NormFoldAppend(stack: seq<string>, a: seq<string>, b: seq<string>, rooted: bool)
    ensures NormFold(stack, a + b, rooted) == NormFold(NormFold(stack, a, rooted), b, rooted)
    decreases a
  {
    if a != [] {
      assert (a + b)[0] == a[0];
      assert (a + b)[1..] == a[1..] + b;
      NormFoldAppend(NormStep(stack, a[0], rooted), a[1..], b, rooted);
    } else {
      assert a + b == b;
    }
  }

  /** Folding in names that need no normalising just stacks them. */
  lemma {:induction false} NormFoldPlain(stack: seq<string>, q: seq<string>)
    requires AllPlain(q)
    ensures NormFold(stack, q, true) == stack + q
    decreases q
  {
    if q != [] {
      assert AllPlain(q[1..]) by {
        forall i | 0 <= i < |q[1..]| ensures Plain(q[1..][i]) {
          assert q[1..][i] == q[i + 1];
        }
      }
      NormFoldPlain(stack + [q[0]], q[1..]);
      assert stack + [q[0]] + q[1..] == stack + q;
    }
  }

  /** A rooted fold keeps a stack of plain names plain. */
  lemma {:induction false} NormFoldKeepsPlain(stack: seq<string>, comps: seq<string>)
    requires AllPlain(stack)
    requires forall i :: 0 <= i < |comps| ==> '/' !in comps[i]
    ensures AllPlain(NormFold(stack, comps, true))
    decreases comps
  {
    if comps != [] {
      NormFoldKeepsPlain(NormStep(stack, comps[0], true), comps[1..]);
    }
  }

  lemma InitialSlashesRooted(pre: string, q: seq<string>)
    requires Rooted(pre) && AllPlain(q)
    ensures InitialSlashes(pre + JoinWith("/", q)) == pre
  {
    var j := JoinWith("/", q);
    if q != [] {
      JoinWithStartsWithFirst("/", q);
      assert j[0] == q[0][0];
      assert j[0] != '/';
    }
    var n := pre + j;
    if pre == "/" {
      assert q != [] ==> n[1] == j[0];
      assert !StartsWith(n, "//");
    } else {
      assert n[..2] == "//";
      assert StartsWith(n, "//");
      assert q != [] ==> n[2] == j[0];
      assert !StartsWith(n, "///");
    }
  }

  /** `abspath` gives root slashes followed by the plain names of the lexical resolution. */
  lemma AbspathShape(cwd: AbsPath, p: string)
    ensures var q := Lexical(Absolute(cwd, p));
      AllPlain(q)
      && Rooted(InitialSlashes(Absolute(cwd, p)))
      && Abspath(cwd, p) == InitialSlashes(Absolute(cwd, p)) + JoinWith("/", q)
  {
    var a := Absolute(cwd, p);
    NormFoldKeepsPlain([], Split(a));
  }

  /** `abspath` yields an absolute, normalised path whose components are its lexical resolution. */
  lemma AbspathIsNormal(cwd: AbsPath, p: string)
    ensures IsAbs(Abspath(cwd, p))
    ensures Normpath(Abspath(cwd, p)) == Abspath(cwd, p)
    ensures Components(Abspath(cwd, p)) == Lexical(Absolute(cwd, p))
  {
    AbspathShape(cwd, p);
    var pre := InitialSlashes(Absolute(cwd, p));
    var q := Lexical(Absolute(cwd, p));
    ComponentsRooted(pre, q);
    AbspathOfNormal(cwd, pre, q);
  }

  /** Joining a plain name onto a normalised path spells the path one name longer. */
  lemma JoinRootedName(pre: string, loc: seq<string>, name: string)
    requires Rooted(pre) && AllPlain(loc) && Plain(name)
    ensures Join(pre + JoinWith("/", loc), name) == pre + JoinWith("/", loc + [name])
  {
    assert !IsAbs(name);
    if loc == [] {
      assert [] + [name] == [name];
    } else {
      JoinNestedName(pre, loc, name);
    }
  }

  lemma JoinNestedName(pre: string, loc: seq<string>, name: string)
    requires Rooted(pre) && AllPlain(loc) && loc != [] && !IsAbs(name)
    ensures Join(pre + JoinWith("/", loc), name) == pre + JoinWith("/", loc + [name])
  {
    var d := pre + JoinWith("/", loc);
    PlainPathNotAllSlashes(pre, loc);
    JoinWithSnoc("/", loc, name);
    assert d + "/" + name == pre + (JoinWith("/", loc) + "/" + name);
  }

  /** A root followed by plain names is already its own `abspath`. */
  lemma AbspathOfNormal(cwd: AbsPath, pre: string, q: seq<string>)
    requires Rooted(pre) && AllPlain(q)
    ensures Abspath(cwd, pre + JoinWith("/", q)) == pre + JoinWith("/", q)
  {
    var n := pre + JoinWith("/", q);
    assert Absolute(cwd, n) == n;
    InitialSlashesRooted(pre, q);
    SplitRooted(pre, q);
    var tail := if q == [] then [""] else q;
    NormFoldAppend([], Slashes(pre), tail, true);
    assert NormFold([], [""], true) == [];
    assert NormFold([], ["", ""], true) == NormFold([], [""], true);
    if q != [] {
      NormFoldPlain([], q);
    }
    assert NormFold([], Split(n), true) == q;
  }

  lemma {:induction false} AfterLastSlashOfLast(a: string, b: string)
    requires '/' !in b
    ensures AfterLastSlash(a + "/" + b) == |a| + 1
    decreases |b|
  {
    var s := a + "/" + b;
    if b != [] {
      assert s[|s| - 1] == b[|b| - 1];
      assert s[..|s| - 1] == a + "/" + b[..|b| - 1];
      AfterLastSlashOfLast(a, b[..|b| - 1]);
    }
  }

  /** `dirname` and `basename` split a path at a single slash before its last name. */
  lemma SplitAtLastSlash(a: string, last: string)
    requires '/' !in last && last != ""
    requires a != [] && a[|a| - 1] != '/' && !AllSlashes(a + "/")
    ensures Dirname(a + "/" + last) == a
    ensures Basename(a + "/" + last) == last
    ensures Join(a, last) == a + "/" + last
  {
    var n := a + "/" + last;
    AfterLastSlashOfLast(a, last);
    assert n[..|a| + 1] == a + "/";
    assert (a + "/")[..|a|] == a;
    assert RStripSlashes(a + "/") == RStripSlashes(a);
    assert n[|a| + 1..] == last;
  }

  /**
   * In a normalised path, `dirname` drops exactly the last component and
   * `basename` is that component; joining the two gives the path back.
   */
  lemma DirnameOfNormal(pre: string, q: seq<string>)
    requires Rooted(pre) && AllPlain(q)
    ensures var n := pre + JoinWith("/", q);
      Dirname(n) == pre + JoinWith("/", DropLast(q))
      && Components(Dirname(n)) == DropLast(q)
      && (q != [] ==> Basename(n) == q[|q| - 1] && Join(Dirname(n), Basename(n)) == n)
  {
    if q == [] {
      DirnameOfRoot(pre);
    } else if |q| == 1 {
      DirnameOfTopLevel(pre, q[0]);
    } else {
      DirnameOfNested(pre, q);
    }
  }

  lemma DirnameOfRoot(pre: string)
    requires Rooted(pre)
    ensures Dirname(pre + JoinWith("/", [])) == pre + JoinWith("/", DropLast([]))
    ensures Components(Dirname(pre + JoinWith("/", []))) == []
  {
    assert pre + JoinWith("/", []) == pre;
    assert AfterLastSlash(pre) == |pre|;
    assert pre[..|pre|] == pre;
    assert Dirname(pre) == pre;
    ComponentsRooted(pre, []);
  }

  lemma DirnameOfTopLevel(pre: string, name: string)
    requires Rooted(pre) && Plain(name)
    ensures var n := pre + JoinWith("/", [name]);
      Dirname(n) == pre + JoinWith("/", DropLast([name]))
      && Components(Dirname(n)) == [] && Basename(n) == name && Join(Dirname(n), Basename(n)) == n
  {
    assert JoinWith("/", [name]) == name;
    assert DropLast([name]) == [];
    TopLevelSplit(pre, name);
    DirnameOfRoot(pre);
  }

  lemma TopLevelSplit(pre: string, name: string)
    requires Rooted(pre) && Plain(name)
    ensures Dirname(pre + name) == pre && Basename(pre + name) == name
    ensures Join(pre, name) == pre + name
  {
    var n := pre + name;
    var a := pre[..|pre| - 1];
    assert a + "/" + name == n;
    AfterLastSlashOfLast(a, name);
    assert n[..|pre|] == pre;
    assert AllSlashes(pre);
    assert n[|pre|..] == name;
  }

  lemma DirnameOfNested(pre: string, q: seq<string>)
    requires Rooted(pre) && AllPlain(q) && |q| > 1
    ensures var n := pre + JoinWith("/", q);
      Dirname(n) == pre + JoinWith("/", DropLast(q))
      && Components(Dirname(n)) == DropLast(q)
      && Basename(n) == q[|q| - 1] && Join(Dirname(n), Basename(n)) == n
  {
    var init := q[..|q| - 1];
    var last := q[|q| - 1];
    assert AllPlain(init) by {
      forall i | 0 <= i < |init| ensures Plain(init[i]) {
        assert init[i] == q[i];
      }
    }
    RootedSnoc(pre, q);
    var a := pre + JoinWith("/", init);
    PlainPathNotAllSlashes(pre, init);
    SplitAtLastSlash(a, last);
    ComponentsRooted(pre, init);
  }

  lemma RootedSnoc(pre: string, q: seq<string>)
    requires |q| > 1
    ensures pre + JoinWith("/", q) == (pre + JoinWith("/", q[..|q| - 1])) + "/" + q[|q| - 1]
  {
    JoinWithLast("/", q);
    var j := JoinWith("/", q[..|q| - 1]);
    assert pre + (j + "/" + q[|q| - 1]) == (pre + j) + "/" + q[|q| - 1];
  }

  /** A normalised path with at least one name neither ends in nor consists of slashes. */
  lemma PlainPathNotAllSlashes(pre: string, cs: seq<string>)
    requires Rooted(pre) && AllPlain(cs) && cs != []
    ensures var a := pre + JoinWith("/", cs);
      a[|a| - 1] != '/' && !AllSlashes(a + "/")
  {
    var a := pre + JoinWith("/", cs);
    JoinWithStartsWithFirst("/", cs);
    assert a[|pre|] == cs[0][0];
    JoinWithEndsWithLast(cs);
    assert (a + "/")[|pre|] == a[|pre|];
  }

  lemma {:induction false} JoinWithEndsWithLast(cs: seq<string>)
    requires cs != [] && AllPlain(cs)
    ensures var j := JoinWith("/", cs); j != [] && j[|j| - 1] == cs[|cs| - 1][|cs[|cs| - 1]| - 1]
  {
    if |cs| > 1 {
      assert AllPlain(cs[1..]) by {
        forall i | 0 <= i < |cs[1..]| ensures Plain(cs[1..][i]) {
          assert cs[1..][i] == cs[i + 1];
        }
      }
      JoinWithEndsWithLast(cs[1..]);
    }
  }
}
