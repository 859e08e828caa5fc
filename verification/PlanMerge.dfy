/** Laying an old root over a new one: the debugfs commands, what running them
    means, and the tree they are to leave (scripts/bootstick.py, plan_merge). */
module PlanMerge {
  import opened Bytes

  /** A relative path, by its components. */
  type Path = seq<string>

  datatype Kind = Dir | File(src: string) | Link(target: string)

  datatype Entry = Entry(kind: Kind, mode: int, uid: int, gid: int)

  type Tree = map<Path, Entry>

  /** A tree lists every entry's directory: what reading one always gives. */
  ghost predicate Closed(t: Tree) {
    forall p :: p in t ==> p != [] && HasParent(t, p)
  }

  predicate HasParent(t: Tree, p: Path) {
    |p| <= 1 || (p[..|p| - 1] in t && t[p[..|p| - 1]].kind.Dir?)
  }

  datatype Cmd =
    | Mkdir(path: Path) | Write(path: Path, src: string) | Symlink(path: Path, target: string)
    | SetMode(path: Path, mode: int) | SetUid(path: Path, uid: int) | SetGid(path: Path, gid: int)
    | Rm(path: Path) | Rmdir(path: Path)

  // What debugfs gives a new inode before `sif` says otherwise.
  const DIR_MODE := 0x41ED
  const FILE_MODE := 0x81A4
  const LINK_MODE := 0xA1FF

  /** One command on a tree, or None where debugfs complains. */
  function Exec(t: Tree, c: Cmd): Option<Tree> {
    match c
    case Mkdir(p) => Create(t, p, Entry(Dir, DIR_MODE, 0, 0))
    case Write(p, src) => Create(t, p, Entry(File(src), FILE_MODE, 0, 0))
    case Symlink(p, target) => Create(t, p, Entry(Link(target), LINK_MODE, 0, 0))
    case SetMode(p, m) => if p in t then Some(t[p := t[p].(mode := m)]) else None
    case SetUid(p, u) => if p in t then Some(t[p := t[p].(uid := u)]) else None
    case SetGid(p, g) => if p in t then Some(t[p := t[p].(gid := g)]) else None
    case Rm(p) => if p in t && !t[p].kind.Dir? then Some(t - {p}) else None
    case Rmdir(p) => if p in t && t[p].kind.Dir? && !(exists q :: q in t && p < q) then Some(t - {p}) else None
  }

  function Create(t: Tree, p: Path, e: Entry): Option<Tree> {
    if p != [] && p !in t && HasParent(t, p) then Some(t[p := e]) else None
  }

  function Run(t: Tree, cmds: seq<Cmd>): Option<Tree> {
    if cmds == [] then Some(t) else
      match Run(t, cmds[..|cmds| - 1])
      case None => None
      case Some(u) => Exec(u, cmds[|cmds| - 1])
  }

  /** debugfs takes no escapes: a quote or a newline cannot be said. */
  predicate Sayable(s: string) {
    '\"' !in s && '\n' !in s
  }

  predicate SayablePath(p: Path) {
    forall i :: 0 <= i < |p| ==> Sayable(p[i])
  }

  predicate SayableEntry(p: Path, e: Entry) {
    SayablePath(p) && match e.kind case Dir => true case File(src) => Sayable(src) case Link(target) => Sayable(target)
  }

  /** The stick's entry at q leaves nothing of the image below it. */
  predicate Clears(stick: Tree, whole: set<Path>, q: Path)
    requires q in stick
  {
    !stick[q].kind.Dir? || q in whole
  }

  /** Some entry of `done` clears what is at p. */
  ghost predicate Cleared(stick: Tree, whole: set<Path>, done: set<Path>, p: Path)
    requires done <= stick.Keys
  {
    exists q :: q in done && q < p && Clears(stick, whole, q)
  }

  /** An entry as it is carried: a link keeps the mode debugfs gives it. */
  function Carried(e: Entry): Entry {
    if e.kind.Link? then e.(mode := LINK_MODE) else e
  }

  /** The entries `done` of the stick laid over the image: the stick wins, and what only the image
      has stays unless a non-directory of the stick or a whole path is above it. */
  ghost function Overlay(stick: Tree, image: Tree, whole: set<Path>, done: set<Path>): Tree
    requires done <= stick.Keys
  {
    map p | p in done + image.Keys && (p in done || !Cleared(stick, whole, done, p)) ::
      if p in done then Carried(stick[p]) else image[p]
  }

  // Runs of commands.

  lemma {:induction false} RunAppend(t: Tree, a: seq<Cmd>, b: seq<Cmd>)
    requires Run(t, a).Some?
    ensures Run(t, a + b) == Run(Run(t, a).value, b)
    decreases |b|
  {
    if b == [] {
      assert a + b == a;
    } else {
      assert (a + b)[..|a + b| - 1] == a + b[..|b| - 1];
      RunAppend(t, a, b[..|b| - 1]);
    }
  }

  lemma RunOne(t: Tree, a: seq<Cmd>, c: Cmd)
    requires Run(t, a).Some?
    ensures Run(t, a + [c]) == Exec(Run(t, a).value, c)
  {
    assert (a + [c])[..|a + [c]| - 1] == a;
  }

  // Clearing a path of the image.

  /** rel and everything below it. */
  function Subtree(t: Tree, rel: Path): set<Path> {
    set p | p in t && rel <= p
  }

  /** At and below rel the tree is still the image's. */
  ghost predicate Untouched(image: Tree, tree: Tree, rel: Path) {
    forall p {:trigger p in tree} {:trigger p in image} :: rel <= p ==>
      (p in tree <==> p in image) && (p in tree ==> tree[p] == image[p])
  }

  function Removal(image: Tree, p: Path): Cmd
    requires p in image
  {
    if image[p].kind.Dir? then Rmdir(p) else Rm(p)
  }

  /** Removing the deepest path left is legal. */
  lemma RemoveDeepest(image: Tree, tree: Tree, rel: Path, left: set<Path>, p: Path)
    requires rel in image && Untouched(image, tree, rel) && left <= Subtree(image, rel) && p in left
    requires forall q :: q in left ==> |q| <= |p|
    ensures Exec(tree - (Subtree(image, rel) - left), Removal(image, p)) ==
            Some(tree - (Subtree(image, rel) - (left - {p})))
  {
    var gone := Subtree(image, rel) - left;
    var t := tree - gone;
    assert p in tree && t[p] == image[p];
    forall q | q in t ensures !(p < q) {
      if rel <= q { assert q in left; }
    }
    assert t - {p} == tree - (Subtree(image, rel) - (left - {p}));
  }

  /** The longest path of a set: what sorting by depth puts first. */
  method Deepest(left: set<Path>) returns (p: Path)
    requires left != {}
    ensures p in left && forall q :: q in left ==> |q| <= |p|
  {
    p :| p in left;
    var rest := left - {p};
    while rest != {}
      invariant rest <= left && p in left && forall q :: q in left - rest ==> |q| <= |p|
      decreases rest
    {
      var q :| q in rest;
      if |q| > |p| { p := q; }
      rest := rest - {q};
    }
  }

  /** Children first, deepest first, then the entry itself; refused at a path that cannot be said. */
  method Remove(image: Tree, rel: Path, ghost tree: Tree) returns (cmds: seq<Cmd>, ok: bool)
    requires rel in image && Untouched(image, tree, rel)
    ensures ok ==> Run(tree, cmds) == Some(tree - Subtree(image, rel))
    ensures ok <==> forall p :: p in Subtree(image, rel) ==> SayablePath(p)
  {
    cmds := [];
    var all := Subtree(image, rel);
    var left := all;
    assert tree - (all - left) == tree;
    while left != {}
      invariant left <= all
      invariant Run(tree, cmds) == Some(tree - (all - left))
      invariant forall p :: p in all - left ==> SayablePath(p)
      decreases left
    {
      var p := Deepest(left);
      if !SayablePath(p) { return cmds, false; }
      RemoveDeepest(image, tree, rel, left, p);
      RunOne(tree, cmds, Removal(image, p));
      cmds := cmds + [Removal(image, p)];
      left := left - {p};
    }
    assert all - left == all;
    ok := true;
  }

  // One entry of the stick.

  /** A closed tree lists every prefix of a path, as a directory. */
  lemma {:induction false} PrefixListed(t: Tree, p: Path, q: Path)
    requires Closed(t) && p in t && q < p && q != []
    ensures q in t && t[q].kind.Dir?
    decreases |p|
  {
    var up := p[..|p| - 1];
    assert HasParent(t, p) && q <= up;
    if q != up { PrefixListed(t, up, q); }
  }

  /** rel is next in depth order: everything shallower is done, nothing done is deeper. */
  ghost predicate Next(stick: Tree, done: set<Path>, rel: Path) {
    && done <= stick.Keys && rel in stick && rel !in done
    && (forall d :: d in done ==> |d| <= |rel|)
    && (forall r :: r in stick && r !in done ==> |rel| <= |r|)
  }

  lemma ParentDone(stick: Tree, image: Tree, whole: set<Path>, done: set<Path>, rel: Path)
    requires Closed(stick) && Next(stick, done, rel)
    ensures rel != [] && HasParent(Overlay(stick, image, whole, done), rel)
  {
    assert HasParent(stick, rel);
    if |rel| > 1 {
      var up := rel[..|rel| - 1];
      assert up in stick && up in done;
    }
  }

  /** What clears a path at or below rel, by now, clears rel. */
  lemma ClearedAbove(stick: Tree, whole: set<Path>, done: set<Path>, rel: Path, p: Path)
    requires Next(stick, done, rel) && rel <= p
    ensures p !in done && (Cleared(stick, whole, done, p) ==> Cleared(stick, whole, done, rel))
  {
    if p in done { SameLength(rel, p); }
    if Cleared(stick, whole, done, p) {
      var q :| q in done && q < p && Clears(stick, whole, q);
      Comparable(q, rel, p);
      Proper(q, rel);
    }
  }

  lemma SameLength(q: Path, p: Path)
    requires q <= p && |p| <= |q|
    ensures q == p
  {}

  lemma Comparable(q: Path, r: Path, p: Path)
    requires q <= p && r <= p && |q| <= |r|
    ensures q <= r
  {}

  lemma Proper(q: Path, p: Path)
    requires q <= p && q != p
    ensures q < p
  {}

  /** Where the image's entry is still there, so is all of it below. */
  lemma StillUntouched(stick: Tree, image: Tree, whole: set<Path>, done: set<Path>, rel: Path)
    requires Next(stick, done, rel) && rel in Overlay(stick, image, whole, done)
    ensures rel in image && Untouched(image, Overlay(stick, image, whole, done), rel)
  {
    var tree := Overlay(stick, image, whole, done);
    forall p | rel <= p ensures (p in tree <==> p in image) && (p in tree ==> tree[p] == image[p]) {
      ClearedAbove(stick, whole, done, rel, p);
    }
  }

  /** Where it is not, nothing is below either. */
  lemma NothingBelow(stick: Tree, image: Tree, whole: set<Path>, done: set<Path>, rel: Path, p: Path)
    requires Closed(stick) && Closed(image) && Next(stick, done, rel) && rel < p
    requires rel !in Overlay(stick, image, whole, done)
    ensures p !in Overlay(stick, image, whole, done)
  {
    assert rel != [];
    if p in image && p !in done {
      PrefixListed(image, p, rel);
      var q :| q in done && q < rel && Clears(stick, whole, q);
      assert q < p && Cleared(stick, whole, done, p);
    }
  }

  /** The image's entry at rel goes: a non-directory is on one side, or the stick's replaces it whole. */
  predicate Replaces(stick: Tree, image: Tree, whole: set<Path>, rel: Path)
    requires rel in stick && rel in image
  {
    Clears(stick, whole, rel) || !image[rel].kind.Dir?
  }

  /** The overlay, one entry further. */
  lemma OverlayStep(stick: Tree, image: Tree, whole: set<Path>, done: set<Path>, rel: Path)
    requires Closed(stick) && Closed(image) && Next(stick, done, rel)
    ensures var tree := Overlay(stick, image, whole, done);
            var cleared :=
              if rel in tree && Replaces(stick, image, whole, rel) then tree - Subtree(image, rel) else tree;
            cleared[rel := Carried(stick[rel])] == Overlay(stick, image, whole, done + {rel})
  {
    var tree := Overlay(stick, image, whole, done);
    var cleared := if rel in tree && Replaces(stick, image, whole, rel) then tree - Subtree(image, rel) else tree;
    var result := cleared[rel := Carried(stick[rel])];
    var next := Overlay(stick, image, whole, done + {rel});
    assert rel in next && next[rel] == Carried(stick[rel]);
    hide Overlay, Closed, Next, Carried, Replaces;
    forall p ensures (p in result <==> p in next) && (p in next ==> result[p] == next[p]) {
      if p != rel {
        StepAt(stick, image, whole, done, rel, p);
        Below(rel, p);
      }
    }
    hide *;
    SameTree(result, next);
  }

  lemma SameTree(a: Tree, b: Tree)
    requires forall p :: (p in a <==> p in b) && (p in b ==> a[p] == b[p])
    ensures a == b
  {
    assert a.Keys == b.Keys;
  }

  lemma Below(rel: Path, p: Path)
    requires p != rel
    ensures rel <= p <==> rel < p
  {}

  lemma StepAt(stick: Tree, image: Tree, whole: set<Path>, done: set<Path>, rel: Path, p: Path)
    requires Closed(stick) && Closed(image) && Next(stick, done, rel) && p != rel
    ensures var tree := Overlay(stick, image, whole, done);
            var next := Overlay(stick, image, whole, done + {rel});
            && (p in next <==>
                p in tree && !(rel in tree && Replaces(stick, image, whole, rel) && rel < p && p in image))
            && (p in next ==> next[p] == tree[p])
  {
    var tree := Overlay(stick, image, whole, done);
    var more := done + {rel};
    if p in done {
      assert !(rel < p);
    } else {
      assert Cleared(stick, whole, more, p) <==>
             Cleared(stick, whole, done, p) || (rel < p && Clears(stick, whole, rel)) by {
        ClearedMore(stick, whole, done, rel, p);
      }
      if rel < p && p in image {
        assert HasParent(stick, rel) && rel != [];
        PrefixListed(image, p, rel);
        if rel !in tree { NothingBelow(stick, image, whole, done, rel, p); }
      }
    }
  }

  lemma ClearedMore(stick: Tree, whole: set<Path>, done: set<Path>, rel: Path, p: Path)
    requires done <= stick.Keys && rel in stick
    ensures Cleared(stick, whole, done + {rel}, p) <==>
            (Cleared(stick, whole, done, p) || (rel < p && Clears(stick, whole, rel)))
  {
    if Cleared(stick, whole, done, p) {
      var q :| q in done && q < p && Clears(stick, whole, q);
      assert q in done + {rel};
    }
    if rel < p && Clears(stick, whole, rel) { assert rel in done + {rel}; }
  }

  // What has gone from the image, and what cannot be said.

  /** The image's paths removed by the entries `done`. */
  ghost function Gone(stick: Tree, image: Tree, whole: set<Path>, done: set<Path>): set<Path>
    requires done <= stick.Keys
  {
    set p | p in image && exists q :: q in done && q <= p && q in image && Replaces(stick, image, whole, q)
  }

  /** The test on `gone` asks whether the image's entry is still in the tree. */
  lemma StillThere(stick: Tree, image: Tree, whole: set<Path>, done: set<Path>, rel: Path)
    requires Closed(stick) && Closed(image) && Next(stick, done, rel)
    ensures var gone := Gone(stick, image, whole, done);
            rel in Overlay(stick, image, whole, done) <==>
              rel in image && rel !in gone && !(exists g :: g in gone && g < rel)
  {
    var gone := Gone(stick, image, whole, done);
    if rel in image {
      if Cleared(stick, whole, done, rel) {
        var q :| q in done && q < rel && Clears(stick, whole, q);
        assert q != [] by { assert HasParent(stick, q); }
        PrefixListed(image, rel, q);
        assert rel in gone;
      }
      if g :| g in gone && g <= rel {
        var q :| q in done && q <= g && q in image && Replaces(stick, image, whole, q);
        assert q < rel by { Proper(q, rel); }
        assert q != [] by { assert HasParent(stick, q); }
        PrefixListed(image, rel, q);
        assert Cleared(stick, whole, done, rel);
      }
    }
  }

  lemma GoneStep(stick: Tree, image: Tree, whole: set<Path>, done: set<Path>, rel: Path)
    requires Closed(stick) && Closed(image) && Next(stick, done, rel)
    ensures Gone(stick, image, whole, done + {rel}) == Gone(stick, image, whole, done) +
            if rel in Overlay(stick, image, whole, done) && Replaces(stick, image, whole, rel)
            then Subtree(image, rel) else {}
  {
    var tree := Overlay(stick, image, whole, done);
    var gone, more := Gone(stick, image, whole, done), Gone(stick, image, whole, done + {rel});
    forall p | p in gone ensures p in more {
      var q :| q in done && q <= p && q in image && Replaces(stick, image, whole, q);
      assert q in done + {rel};
    }
    if rel in tree && Replaces(stick, image, whole, rel) {
      assert rel in done + {rel};
    } else if rel in image && rel !in tree {
      var q :| q in done && q < rel && Clears(stick, whole, q);
      assert q != [] by { assert HasParent(stick, q); }
      PrefixListed(image, rel, q);
      assert forall p :: p in image && rel <= p ==> q <= p && p in gone;
    }
  }

  // The commands of one entry.

  function Making(rel: Path, e: Entry): Cmd {
    match e.kind
    case Dir => Mkdir(rel)
    case File(src) => Write(rel, src)
    case Link(target) => Symlink(rel, target)
  }

  function Owning(rel: Path, e: Entry): seq<Cmd> {
    (if e.kind.Link? then [] else [SetMode(rel, e.mode)]) + [SetUid(rel, e.uid), SetGid(rel, e.gid)]
  }

  /** Mode and owner set on an entry of the right kind. */
  lemma OwningRuns(t: Tree, rel: Path, e: Entry)
    requires rel in t && t[rel].kind == e.kind && (e.kind.Link? ==> t[rel].mode == LINK_MODE)
    ensures Run(t, Owning(rel, e)) == Some(t[rel := Carried(e)])
  {
    var u := if e.kind.Link? then t else t[rel := t[rel].(mode := e.mode)];
    var front := if e.kind.Link? then [] else [SetMode(rel, e.mode)];
    if !e.kind.Link? {
      RunOne(t, [], SetMode(rel, e.mode));
      assert [] + front == front;
    }
    assert Run(t, front) == Some(u);
    assert u[rel].(uid := e.uid, gid := e.gid) == Carried(e) && u[rel := Carried(e)] == t[rel := Carried(e)];
    hide Run, Carried;
    assert Owning(rel, e) == front + [SetUid(rel, e.uid), SetGid(rel, e.gid)];
    RunAppend(t, front, [SetUid(rel, e.uid), SetGid(rel, e.gid)]);
    OwnerRuns(u, rel, e.uid, e.gid);
  }

  lemma OwnerRuns(t: Tree, rel: Path, uid: int, gid: int)
    requires rel in t
    ensures Run(t, [SetUid(rel, uid), SetGid(rel, gid)]) == Some(t[rel := t[rel].(uid := uid, gid := gid)])
  {
    RunOne(t, [], SetUid(rel, uid));
    RunOne(t, [SetUid(rel, uid)], SetGid(rel, gid));
    assert [] + [SetUid(rel, uid)] == [SetUid(rel, uid)];
    assert [SetUid(rel, uid)] + [SetGid(rel, gid)] == [SetUid(rel, uid), SetGid(rel, gid)];
    var u := t[rel := t[rel].(uid := uid)];
    assert u[rel := u[rel].(gid := gid)] == t[rel := t[rel].(uid := uid, gid := gid)];
  }

  lemma MakingRuns(t: Tree, rel: Path, e: Entry)
    requires rel != [] && rel !in t && HasParent(t, rel)
    ensures Run(t, [Making(rel, e)] + Owning(rel, e)) == Some(t[rel := Carried(e)])
  {
    RunOne(t, [], Making(rel, e));
    assert [] + [Making(rel, e)] == [Making(rel, e)];
    var u := Exec(t, Making(rel, e)).value;
    RunAppend(t, [Making(rel, e)], Owning(rel, e));
    OwningRuns(u, rel, e);
    assert u[rel := Carried(e)] == t[rel := Carried(e)];
  }

  /** One turn of the loop: what is there is cleared when it must go, then the entry is made and owned. */
  method LayEntry(stick: Tree, image: Tree, whole: set<Path>, rel: Path, there: bool, ghost done: set<Path>)
      returns (cmds: seq<Cmd>, ok: bool)
    requires Closed(stick) && Closed(image) && Next(stick, done, rel)
    requires there <==> rel in Overlay(stick, image, whole, done)
    ensures ok ==> Run(Overlay(stick, image, whole, done), cmds) == Some(Overlay(stick, image, whole, done + {rel}))
    ensures ok <==> SayableEntry(rel, stick[rel]) &&
                    (there && rel in image && Replaces(stick, image, whole, rel) ==>
                       forall p :: p in Subtree(image, rel) ==> SayablePath(p))
  {
    ghost var tree := Overlay(stick, image, whole, done);
    var e := stick[rel];
    if there { StillUntouched(stick, image, whole, done, rel); }
    if !SayablePath(rel) { return [], false; }
    cmds := [];
    var n := there;
    ghost var cleared := tree;
    if n && Replaces(stick, image, whole, rel) {
      cmds, ok := Remove(image, rel, tree);
      if !ok { return; }
      n := false;
      cleared := tree - Subtree(image, rel);
    }
    if !SayableEntry(rel, e) { return cmds, false; }
    ParentDone(stick, image, whole, done, rel);
    OverlayStep(stick, image, whole, done, rel);
    hide Overlay, Run;
    var tail := if n then Owning(rel, e) else [Making(rel, e)] + Owning(rel, e);
    if n {
      OwningRuns(cleared, rel, e);
    } else {
      assert HasParent(cleared, rel);
      MakingRuns(cleared, rel, e);
    }
    RunAppend(tree, cmds, tail);
    cmds := cmds + tail;
    ok := true;
  }

  method Shallowest(left: set<Path>) returns (p: Path)
    requires left != {}
    ensures p in left && forall q :: q in left ==> |p| <= |q|
  {
    p :| p in left;
    var rest := left - {p};
    while rest != {}
      invariant rest <= left && p in left && forall q :: q in left - rest ==> |p| <= |q|
      decreases rest
    {
      var q :| q in rest;
      if |q| < |p| { p := q; }
      rest := rest - {q};
    }
  }

  /** Everything the plan has to name can be named. */
  ghost predicate AllSayable(stick: Tree, image: Tree, whole: set<Path>, done: set<Path>)
    requires done <= stick.Keys
  {
    && (forall p :: p in done ==> SayableEntry(p, stick[p]))
    && (forall p :: p in Gone(stick, image, whole, done) ==> SayablePath(p))
  }

  /** The plan: its commands, run on the image, are all legal and leave exactly the
      overlay; and it is refused exactly when a path or source it must name cannot be said. */
  method Plan(stick: Tree, image: Tree, whole: set<Path>) returns (r: Option<seq<Cmd>>)
    requires Closed(stick) && Closed(image)
    ensures r.Some? ==> Run(image, r.value) == Some(Overlay(stick, image, whole, stick.Keys))
    ensures r.Some? ==> LaidOver(stick, image, whole, Run(image, r.value).value)
    ensures r.Some? <==> CanSay(stick, image, whole)
  {
    var cmds: seq<Cmd> := [];
    var gone: set<Path> := {};
    var left := stick.Keys;
    ghost var done: set<Path> := {};
    PlanStart(stick, image, whole);
    hide Overlay, Run, Gone, AllSayable, Closed, Replaces, Subtree, LaidOver, CanSay;
    OverlayIsLaid(stick, image, whole);
    AllSayableIs(stick, image, whole);
    while left != {}
      invariant left <= stick.Keys && done == stick.Keys - left
      invariant forall d, l :: d in done && l in left ==> |d| <= |l|
      invariant gone == Gone(stick, image, whole, done)
      invariant Run(image, cmds) == Some(Overlay(stick, image, whole, done))
      invariant AllSayable(stick, image, whole, done)
      decreases left
    {
      var rel := Shallowest(left);
      assert Next(stick, done, rel);
      var there := rel in image && rel !in gone && !(exists g :: g in gone && g < rel);
      StillThere(stick, image, whole, done, rel);
      GoneStep(stick, image, whole, done, rel);
      SayableStep(stick, image, whole, done, rel);
      var more, ok := LayEntry(stick, image, whole, rel, there, done);
      if !ok { return None; }
      RunAppend(image, cmds, more);
      cmds := cmds + more;
      if there && Replaces(stick, image, whole, rel) { gone := gone + Subtree(image, rel); }
      left := left - {rel};
      done := done + {rel};
    }
    assert done == stick.Keys;
    r := Some(cmds);
  }

  lemma PlanStart(stick: Tree, image: Tree, whole: set<Path>)
    ensures Overlay(stick, image, whole, {}) == image && Run(image, []) == Some(image)
    ensures Gone(stick, image, whole, {}) == {} && AllSayable(stick, image, whole, {})
  {}

  /** What must be sayable grows by rel and by what it removes, and never shrinks. */
  lemma SayableStep(stick: Tree, image: Tree, whole: set<Path>, done: set<Path>, rel: Path)
    requires Closed(stick) && Closed(image) && Next(stick, done, rel)
    ensures AllSayable(stick, image, whole, done + {rel}) <==>
            (AllSayable(stick, image, whole, done) && SayableEntry(rel, stick[rel]) &&
             (rel in Overlay(stick, image, whole, done) && Replaces(stick, image, whole, rel) ==>
                forall p :: p in Subtree(image, rel) ==> SayablePath(p)))
    ensures AllSayable(stick, image, whole, stick.Keys) ==> AllSayable(stick, image, whole, done + {rel})
  {
    GoneStep(stick, image, whole, done, rel);
    GoneGrows(stick, image, whole, done + {rel}, stick.Keys);
    hide Gone, Closed, Overlay, Replaces, SayablePath, Subtree;
  }

  lemma GoneGrows(stick: Tree, image: Tree, whole: set<Path>, done: set<Path>, more: set<Path>)
    requires done <= more <= stick.Keys
    ensures Gone(stick, image, whole, done) <= Gone(stick, image, whole, more)
  {
    hide Replaces;
  }

  // The same, with neither the overlay nor the plan's own tests.

  /** The stick's entry at q takes all the image has below it: it is no directory, or is replaced whole. */
  ghost predicate Takes(stick: Tree, whole: set<Path>, q: Path) {
    q in stick && (stick[q].kind == Dir ==> q in whole)
  }

  /** `t` is the stick laid over the image: the stick's entries as they are, a link's mode the one any link has; and of
      the image exactly what the stick has not and nothing of the stick's takes. */
  ghost predicate LaidOver(stick: Tree, image: Tree, whole: set<Path>, t: Tree) {
    && (forall p :: p in stick ==>
          && p in t && t[p].kind == stick[p].kind && t[p].uid == stick[p].uid && t[p].gid == stick[p].gid
          && t[p].mode == if stick[p].kind.Link? then 0xA1FF else stick[p].mode)
    && forall p :: p !in stick ==>
         && (p in t <==> p in image && forall q :: q < p ==> !Takes(stick, whole, q))
         && (p in t ==> t[p] == image[p])
  }

  lemma OverlayIsLaid(stick: Tree, image: Tree, whole: set<Path>)
    ensures LaidOver(stick, image, whole, Overlay(stick, image, whole, stick.Keys))
  {
    forall p | p !in stick
      ensures Cleared(stick, whole, stick.Keys, p) <==> exists q :: q < p && Takes(stick, whole, q)
    {
      if q :| q < p && Takes(stick, whole, q) { assert q in stick.Keys && Clears(stick, whole, q); }
      if q :| q in stick.Keys && q < p && Clears(stick, whole, q) { assert Takes(stick, whole, q); }
    }
  }

  /** Neither a double quote nor a newline in it. */
  ghost predicate Plain(s: string) { forall i :: 0 <= i < |s| ==> s[i] != '\"' && s[i] != '\n' }

  ghost predicate PlainPath(p: Path) { forall i :: 0 <= i < |p| ==> Plain(p[i]) }

  /** An image path that goes: at or below one both trees have, where the stick's takes all or the
      image's is no directory. */
  ghost predicate Goes(stick: Tree, image: Tree, whole: set<Path>, p: Path) {
    p in image && exists q :: q <= p && q in stick && q in image && (Takes(stick, whole, q) || image[q].kind != Dir)
  }

  ghost predicate CanSay(stick: Tree, image: Tree, whole: set<Path>) {
    && (forall p :: p in stick ==> PlainPath(p))
    && (forall p :: p in stick && stick[p].kind.File? ==> Plain(stick[p].kind.src))
    && (forall p :: p in stick && stick[p].kind.Link? ==> Plain(stick[p].kind.target))
    && forall p :: Goes(stick, image, whole, p) ==> PlainPath(p)
  }

  lemma SayableIsPlain(s: string)
    ensures Sayable(s) <==> Plain(s)
  {}

  lemma SayablePathIsPlain(p: Path)
    ensures SayablePath(p) <==> PlainPath(p)
  {
    hide Sayable, Plain;
    forall i | 0 <= i < |p| ensures Sayable(p[i]) <==> Plain(p[i]) { SayableIsPlain(p[i]); }
  }

  lemma GoesIsGone(stick: Tree, image: Tree, whole: set<Path>, p: Path)
    ensures Goes(stick, image, whole, p) <==> p in Gone(stick, image, whole, stick.Keys)
  {
    if Goes(stick, image, whole, p) {
      var q :| q <= p && q in stick && q in image && (Takes(stick, whole, q) || image[q].kind != Dir);
      assert q in stick.Keys && Replaces(stick, image, whole, q);
    }
    if p in Gone(stick, image, whole, stick.Keys) {
      var q :| q in stick.Keys && q <= p && q in image && Replaces(stick, image, whole, q);
      assert Takes(stick, whole, q) || image[q].kind != Dir;
    }
  }

  lemma SayableEntryIsPlain(p: Path, e: Entry)
    ensures SayableEntry(p, e) <==>
            PlainPath(p) && (e.kind.File? ==> Plain(e.kind.src)) && (e.kind.Link? ==> Plain(e.kind.target))
  {
    SayablePathIsPlain(p);
    if e.kind.File? { SayableIsPlain(e.kind.src); }
    if e.kind.Link? { SayableIsPlain(e.kind.target); }
    hide Sayable, Plain, SayablePath, PlainPath;
  }

  lemma AllSayableIs(stick: Tree, image: Tree, whole: set<Path>)
    ensures AllSayable(stick, image, whole, stick.Keys) <==> CanSay(stick, image, whole)
  {
    forall p | p in stick
      ensures SayableEntry(p, stick[p]) <==>
              PlainPath(p) && (stick[p].kind.File? ==> Plain(stick[p].kind.src))
              && (stick[p].kind.Link? ==> Plain(stick[p].kind.target))
    {
      SayableEntryIsPlain(p, stick[p]);
    }
    forall p ensures p in Gone(stick, image, whole, stick.Keys) <==> Goes(stick, image, whole, p) {
      GoesIsGone(stick, image, whole, p);
    }
    forall p: Path ensures SayablePath(p) <==> PlainPath(p) { SayablePathIsPlain(p); }
    hide Gone, Goes, SayableEntry, SayablePath, PlainPath, Plain;
  }
}
