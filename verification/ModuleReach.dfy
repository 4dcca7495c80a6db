/** Which source files a crate root reaches: a worklist over module declarations, and
    the files it leaves over. */
module ModuleReach {

  /** A path: its directory, its name without the suffix, and the suffix. */
  datatype File = File(dir: seq<string>, stem: string, suffix: string)

  const RS: string := ".rs"

  /** A declared file, relative to some directory; fromPath when a path attribute gave it. */
  datatype Decl = Decl(dirs: seq<string>, stem: string, suffix: string, fromPath: bool)

  /** The existing files, each with its declarations. */
  type Crate = map<File, seq<Decl>>

  /** A crate root or a mod file looks for its modules beside it, any other file in the
      directory named after it. */
  function ModuleDir(f: File): seq<string> {
    if f.stem == "lib" || f.stem == "main" || f.stem == "mod" then f.dir else f.dir + [f.stem]
  }

  /** The files a declaration may mean: the file it names, or the mod file under it. */
  function Candidates(f: File, d: Decl): seq<File> {
    var base := (if d.fromPath then f.dir else ModuleDir(f)) + d.dirs;
    [File(base, d.stem, d.suffix)] + if d.suffix == RS then [File(base + [d.stem], "mod", RS)] else []
  }

  function AllCandidates(f: File, ds: seq<Decl>): seq<File> {
    if ds == [] then [] else AllCandidates(f, ds[..|ds| - 1]) + Candidates(f, ds[|ds| - 1])
  }

  /** One existing file declares another. */
  predicate Declares(g: Crate, f: File, n: File) {
    f in g && n in g && exists d :: d in g[f] && n in Candidates(f, d)
  }

  /** A chain of existing files, each declared by the one before it. */
  ghost predicate IsChain(g: Crate, p: seq<File>) {
    && p != [] && p[0] in g
    && (forall i :: 0 < i < |p| ==> Declares(g, p[i - 1], p[i]))
  }

  /** The reflexive-transitive closure of the declarations, on existing files. */
  ghost predicate Reaches(g: Crate, root: File, file: File) {
    exists p :: IsChain(g, p) && p[0] == root && p[|p| - 1] == file
  }

  lemma ReachesSelf(g: Crate, root: File)
    requires root in g
    ensures Reaches(g, root, root)
  {
    assert IsChain(g, [root]);
  }

  lemma ReachesStep(g: Crate, root: File, file: File, next: File)
    requires Reaches(g, root, file) && Declares(g, file, next)
    ensures Reaches(g, root, next)
  {
    var p :| IsChain(g, p) && p[0] == root && p[|p| - 1] == file;
    var q := p + [next];
    assert IsChain(g, q) && q[0] == root && q[|q| - 1] == next;
  }

  /** A set that holds every existing file its members declare. */
  ghost predicate IsClosed(g: Crate, files: set<File>) {
    forall f, n :: f in files && Declares(g, f, n) ==> n in files
  }

  lemma {:induction false} ClosedHoldsChain(g: Crate, files: set<File>, p: seq<File>)
    requires IsChain(g, p) && IsClosed(g, files) && p[0] in files
    ensures p[|p| - 1] in files
    decreases |p|
  {
    if |p| > 1 {
      var front := p[..|p| - 1];
      assert IsChain(g, front);
      ClosedHoldsChain(g, files, front);
      assert Declares(g, p[|p| - 2], p[|p| - 1]);
    }
  }

  lemma {:induction false} CandidatesAre(f: File, ds: seq<Decl>, n: File)
    ensures n in AllCandidates(f, ds) <==> exists d :: d in ds && n in Candidates(f, d)
  {
    if ds != [] {
      var front, last := ds[..|ds| - 1], ds[|ds| - 1];
      assert ds == front + [last];
      CandidatesAre(f, front, n);
    }
  }

  /** What the worklist knows: everything in it is reached, everything declared by what
      was seen is seen or waiting. */
  ghost predicate Working(g: Crate, root: File, seen: set<File>, stack: seq<File>) {
    && seen <= g.Keys
    && (forall f :: f in seen || (f in stack && f in g) ==> Reaches(g, root, f))
    && (root in g ==> root in seen || root in stack)
    && (forall f, n :: f in seen && Declares(g, f, n) ==> n in seen || n in stack)
  }

  /** Terminates on cyclic declarations; computes exactly the files the root reaches. */
  method Reachable(g: Crate, root: File) returns (seen: set<File>)
    ensures forall f :: f in seen <==> Reaches(g, root, f)
  {
    seen := {};
    var stack := [root];
    WorkingStarts(g, root);
    while stack != []
      invariant Working(g, root, seen, stack)
      decreases |g.Keys - seen|, |stack|
    {
      var rest, current := stack[..|stack| - 1], stack[|stack| - 1];
      assert stack == rest + [current];
      if current in seen || current !in g {
        WorkingSkips(g, root, seen, rest, current);
        stack := rest;
        continue;
      }
      var pushed := Push(g, current, seen + {current}, rest);
      WorkingStep(g, root, seen, rest, current, pushed);
      seen := seen + {current};
      stack := pushed;
    }
    ReachesAreSeen(g, root, seen);
  }

  /** Push the candidates of every declaration that exist and were not seen. */
  method Push(g: Crate, current: File, seen: set<File>, rest: seq<File>) returns (stack: seq<File>)
    requires current in g
    ensures forall f :: f in stack <==> f in rest || (Declares(g, current, f) && f !in seen)
  {
    stack := rest;
    var all := AllCandidates(current, g[current]);
    for i := 0 to |all|
      invariant forall f :: f in stack <==> f in rest || (f in all[..i] && f in g && f !in seen)
    {
      assert all[..i + 1] == all[..i] + [all[i]];
      if all[i] in g && all[i] !in seen { stack := stack + [all[i]]; }
    }
    assert all[..|all|] == all;
    forall f ensures f in all <==> exists d :: d in g[current] && f in Candidates(current, d) {
      CandidatesAre(current, g[current], f);
    }
  }

  lemma WorkingStarts(g: Crate, root: File)
    ensures Working(g, root, {}, [root])
  {
    if root in g { ReachesSelf(g, root); }
  }

  lemma WorkingSkips(g: Crate, root: File, seen: set<File>, rest: seq<File>, current: File)
    requires Working(g, root, seen, rest + [current]) && (current in seen || current !in g)
    ensures Working(g, root, seen, rest)
  {
    assert forall f :: f in rest + [current] <==> f in rest || f == current;
  }

  lemma WorkingStep(g: Crate, root: File, seen: set<File>, rest: seq<File>, current: File, pushed: seq<File>)
    requires Working(g, root, seen, rest + [current]) && current in g && current !in seen
    requires forall f :: f in pushed <==> f in rest || (Declares(g, current, f) && f !in seen + {current})
    ensures Working(g, root, seen + {current}, pushed)
    ensures |g.Keys - (seen + {current})| < |g.Keys - seen|
  {
    var stack := rest + [current];
    assert current in stack && forall f :: f in rest ==> f in stack;
    assert Reaches(g, root, current);
    forall f | f in seen + {current} || (f in pushed && f in g) ensures Reaches(g, root, f) {
      if f !in seen && f != current && f !in rest { ReachesStep(g, root, current, f); }
    }
    assert g.Keys - seen == (g.Keys - (seen + {current})) + {current};
  }

  lemma ReachesAreSeen(g: Crate, root: File, seen: set<File>)
    requires Working(g, root, seen, [])
    ensures forall f :: Reaches(g, root, f) ==> f in seen
  {
    forall f | Reaches(g, root, f) ensures f in seen {
      var p :| IsChain(g, p) && p[0] == root && p[|p| - 1] == f;
      ClosedHoldsChain(g, seen, p);
    }
  }

  /** The source files no root reaches, outside bin; none at all when no root exists. */
  method Orphans(g: Crate, sources: seq<File>, bin: set<File>, candidates: seq<File>) returns (found: seq<File>)
    ensures forall f :: f in found <==>
      && f in sources && f !in bin
      && (exists r :: r in candidates && r in g)
      && (forall r :: r in candidates && r in g ==> !Reaches(g, r, f))
  {
    var reached: set<File> := {};
    var anyRoot := false;
    for i := 0 to |candidates|
      invariant anyRoot <==> exists r :: r in candidates[..i] && r in g
      invariant forall f :: f in reached <==> exists r :: r in candidates[..i] && r in g && Reaches(g, r, f)
    {
      assert candidates[..i + 1] == candidates[..i] + [candidates[i]];
      if candidates[i] in g {
        var from := Reachable(g, candidates[i]);
        reached := reached + from;
        anyRoot := true;
      }
    }
    assert candidates[..|candidates|] == candidates;
    found := [];
    if !anyRoot { return; }
    for i := 0 to |sources|
      invariant forall f :: f in found <==> f in sources[..i] && f !in reached && f !in bin
    {
      assert sources[..i + 1] == sources[..i] + [sources[i]];
      if sources[i] !in reached && sources[i] !in bin { found := found + [sources[i]]; }
    }
    assert sources[..|sources|] == sources;
  }

  // ----- module paths -----

  predicate IsRootName(name: string) { name == "lib" || name == "main" || name == "mod" }

  /** A crate whose every declaration is a bare module name that names no root. */
  ghost predicate IsPlain(g: Crate) {
    forall f, d :: f in g && d in g[f] ==> d.dirs == [] && d.suffix == ".rs" && !d.fromPath && !IsRootName(d.stem)
  }

  /** The two places a module may live: beside its siblings, or in a directory of its own. */
  predicate IsPlaceOf(src: seq<string>, path: seq<string>, f: File)
    requires path != []
  {
    var front, last := path[..|path| - 1], path[|path| - 1];
    f == File(src + front, last, ".rs") || f == File(src + path, "mod", ".rs")
  }

  /** The file holds the module at this path: the root the empty one, and any other a
      module its parent declares by name. */
  ghost predicate Holds(g: Crate, root: File, path: seq<string>, f: File)
    decreases |path|
  {
    && f in g
    && if path == [] then f == root
       else
         && IsPlaceOf(root.dir, path, f)
         && exists parent: File :: Holds(g, root, path[..|path| - 1], parent)
              && Decl([], path[|path| - 1], ".rs", false) in g[parent]
  }

  lemma HoldsDir(g: Crate, root: File, path: seq<string>, f: File)
    requires IsPlain(g) && IsRootName(root.stem) && Holds(g, root, path, f)
    ensures ModuleDir(f) == root.dir + path
  {
    if path == [] {
      assert root.dir + [] == root.dir;
    } else {
      var front, last := path[..|path| - 1], path[|path| - 1];
      var parent: File :| Holds(g, root, front, parent) && Decl([], last, ".rs", false) in g[parent];
      assert !IsRootName(last);
      assert root.dir + front + [last] == root.dir + path by { assert path == front + [last]; }
    }
  }

  lemma HoldsNext(g: Crate, root: File, path: seq<string>, f: File, n: File) returns (longer: seq<string>)
    requires IsPlain(g) && IsRootName(root.stem) && Holds(g, root, path, f) && Declares(g, f, n)
    ensures Holds(g, root, longer, n)
  {
    var d :| d in g[f] && n in Candidates(f, d);
    HoldsDir(g, root, path, f);
    longer := path + [d.stem];
    assert longer[..|longer| - 1] == path && longer[|longer| - 1] == d.stem;
    assert d == Decl([], d.stem, ".rs", false);
    assert root.dir + path + [] == root.dir + path && root.dir + path + [d.stem] == root.dir + longer;
  }

  lemma {:induction false} ChainHolds(g: Crate, root: File, p: seq<File>) returns (path: seq<string>)
    requires IsPlain(g) && IsRootName(root.stem) && IsChain(g, p) && p[0] == root
    ensures Holds(g, root, path, p[|p| - 1])
    decreases |p|
  {
    path := [];
    if |p| > 1 {
      var front := p[..|p| - 1];
      assert IsChain(g, front);
      path := ChainHolds(g, root, front);
      assert Declares(g, p[|p| - 2], p[|p| - 1]);
      path := HoldsNext(g, root, path, p[|p| - 2], p[|p| - 1]);
    }
  }

  lemma {:induction false} HoldsReached(g: Crate, root: File, path: seq<string>, f: File)
    requires IsPlain(g) && IsRootName(root.stem) && Holds(g, root, path, f)
    ensures Reaches(g, root, f)
    decreases |path|
  {
    if path == [] {
      ReachesSelf(g, root);
    } else {
      var front, last := path[..|path| - 1], path[|path| - 1];
      var d := Decl([], last, ".rs", false);
      var parent: File :| Holds(g, root, front, parent) && d in g[parent];
      HoldsReached(g, root, front, parent);
      HoldsDir(g, root, front, parent);
      assert path == front + [last];
      PlaceDeclared(g, root.dir, front, last, parent, f);
      ReachesStep(g, root, parent, f);
    }
  }

  lemma PlaceDeclared(g: Crate, src: seq<string>, front: seq<string>, last: string, parent: File, f: File)
    requires parent in g && f in g && Decl([], last, ".rs", false) in g[parent]
    requires ModuleDir(parent) == src + front && IsPlaceOf(src, front + [last], f)
    ensures Declares(g, parent, f)
  {
    var d := Decl([], last, ".rs", false);
    assert (front + [last])[..|front|] == front;
    assert src + front + [] == src + front && src + front + [last] == src + (front + [last]);
    assert f in Candidates(parent, d);
  }

  ghost predicate IsModule(g: Crate, root: File, f: File) {
    exists path :: Holds(g, root, path, f)
  }

  /** In a crate that declares modules by name, a root reaches exactly the files that hold
      a module of its tree: name.rs or name/mod.rs in the directory of the path to it. */
  lemma ReachedAreModules(g: Crate, root: File, f: File)
    requires IsPlain(g) && IsRootName(root.stem)
    ensures Reaches(g, root, f) <==> IsModule(g, root, f)
  {
    if Reaches(g, root, f) {
      var p :| IsChain(g, p) && p[0] == root && p[|p| - 1] == f;
      var path := ChainHolds(g, root, p);
      assert Holds(g, root, path, f);
    }
    if IsModule(g, root, f) {
      var path :| Holds(g, root, path, f);
      HoldsReached(g, root, path, f);
    }
  }

  /** A path attribute is relative to the directory of the file that has it, whatever the
      file is called; a module it names may also be a mod file. */
  lemma PathDeclares(g: Crate, f: File, n: File, dirs: seq<string>, stem: string)
    requires f in g && n in g && g[f] == [Decl(dirs, stem, ".rs", true)]
    ensures Declares(g, f, n) <==>
      n == File(f.dir + dirs, stem, ".rs") || n == File(f.dir + dirs + [stem], "mod", ".rs")
  {
    var d := Decl(dirs, stem, ".rs", true);
    assert d in g[f];
  }
}
