/// Replacing the links of an extracted archive by the files they point at.
module Archive {
  import opened Prelude
  import opened Filesystem
  import Confinement

  function LinkTarget(full: Path, t: Target): Path {
    Normalize(LinkBase(Parent(full), t), t.comps)
  }

  /** One link found by the scan: where it is, where it leads, and whether it is kept. */
  datatype LinkJob = LinkJob(full: Path, target: Option<Path>, isFile: bool)

  /** What `realpathSync` finds for a link of the archive. */
  ghost function Leads(fs: Tree, full: Path, fuel: nat): Answer
    requires full in fs && fs[full].Link?
  {
    RealpathSync(fs, LinkTarget(full, fs[full].target), fuel)
  }

  function PathOf(answer: Answer): Option<Path> {
    if answer.At? then Some(answer.path) else None
  }

  ghost function JobFor(fs: Tree, root: Path, full: Path, fuel: nat): LinkJob
    requires full in fs && fs[full].Link?
  {
    var target := PathOf(Leads(fs, full, fuel));
    LinkJob(full, target, target.Some? && root <= target.value && target.value in fs && fs[target.value].File?)
  }

  ghost predicate IsLinkBelow(fs: Tree, root: Path, p: Path) {
    root < p && p in fs && fs[p].Link?
  }

  function Below(fs: Tree, dir: Path): set<Path> {
    set p | p in fs && dir < p
  }

  /** What stands at an existing path in the end; nothing, for a link that is dropped. */
  ghost function Final(fs: Tree, root: Path, p: Path, fuel: nat): Option<Node>
    requires p in fs
  {
    if !IsLinkBelow(fs, root, p) then Some(fs[p])
    else if JobFor(fs, root, p, fuel).isFile then Some(fs[JobFor(fs, root, p, fuel).target.value])
    else None
  }

  /** The links in `done` have been replaced or dropped, the others not yet. */
  ghost function Replaced(fs: Tree, root: Path, done: set<Path>, fuel: nat): Tree {
    map p | p in fs && (p in done ==> Final(fs, root, p, fuel).Some?) ::
      if p in done then Final(fs, root, p, fuel).value else fs[p]
  }

  /** Every link below the root replaced by the regular file inside it leads to, or dropped. */
  ghost function Materialized(fs: Tree, root: Path, fuel: nat): Tree {
    Replaced(fs, root, Below(fs, root), fuel)
  }

  class Staging {
    var tree: Tree

    constructor (tree: Tree)
      ensures this.tree == tree
    {
      this.tree := tree;
    }

    /** `rmSync(p, { force: true, recursive: true })`. */
    method RemovePath(p: Path)
      modifies this
      ensures tree == Removed(old(tree), p)
    {
      tree := map q | q in tree && !(p <= q) :: tree[q];
    }

    /** `copyFileSync(src, dst)` for a real path `src`. */
    method CopyFile(src: Path, dst: Path)
      requires src in tree && tree[src].File?
      modifies this
      ensures tree == old(tree)[dst := old(tree)[src]]
    {
      tree := tree[dst := tree[src]];
    }

    /**
     * The first pass: `readdir` may list the entries of a directory in any order. It
     * does not finish if `realpathSync` does not return for some link.
     */
    method Scan(root: Path, dir: Path, fuel: nat) returns (finished: bool, jobs: seq<LinkJob>)
      requires WellFormed(tree) && PlainPath(root) && root != []
      requires root <= dir && dir in tree && tree[dir].Dir?
      ensures finished <==> Finishes(tree, dir, fuel)
      ensures finished ==> Fulls(jobs) == Links(tree, dir) && AreJobs(tree, root, jobs, fuel)
      decreases Below(tree, dir)
    {
      jobs := [];
      var todo := set p | p in tree && dir < p && |p| == |dir| + 1;
      FirstStepExists(tree, dir);
      while todo != {}
        invariant todo <= Entries(tree, dir)
        invariant AreJobs(tree, root, jobs, fuel)
        invariant Fulls(jobs) <= Links(tree, dir)
        invariant forall p | p in Links(tree, dir) :: p[..|dir| + 1] in todo || p in Fulls(jobs)
        decreases todo
      {
        var full :| full in todo;
        todo := todo - {full};
        LinksUnder(tree, dir, full);
        var found: seq<LinkJob> := [];
        match tree[full] {
          case Link(t) =>
            var answer := RealpathSync(tree, LinkTarget(full, t), fuel);
            if answer.Endless? {
              return false, [];
            }
            TargetIsPlain(tree, full, root, fuel);
            var inside := answer.At? && IsInside(root, answer.path);
            found := [LinkJob(full, PathOf(answer), inside && answer.path in tree && tree[answer.path].File?)];
          case Dir =>
            var ended: bool;
            ended, found := Scan(root, full, fuel);
            if !ended {
              return false, [];
            }
          case File(_) =>
        }
        FullsConcat(jobs, found);
        jobs := jobs + found;
      }
      JobsFinish(tree, root, dir, jobs, fuel);
      finished := true;
    }

    /**
     * Both passes. The order in which the first pass lists the links has no influence
     * on the tree the second pass leaves, and a scan that does not finish leaves the
     * tree as it is.
     */
    method MaterializeLinks(root: Path, fuel: nat) returns (finished: bool)
      requires WellFormed(tree) && PlainPath(root) && root != [] && root in tree && tree[root].Dir?
      modifies this
      ensures finished <==> Finishes(old(tree), root, fuel)
      ensures tree == if finished then Materialized(old(tree), root, fuel) else old(tree)
    {
      var jobs;
      finished, jobs := Scan(root, root, fuel);
      if finished {
        ReplaceAll(root, jobs, fuel);
      }
    }

    /** The second pass. */
    method ReplaceAll(root: Path, jobs: seq<LinkJob>, fuel: nat)
      requires WellFormed(tree)
      requires Fulls(jobs) == Links(tree, root) && AreJobs(tree, root, jobs, fuel)
      modifies this
      ensures tree == Materialized(old(tree), root, fuel)
    {
      ghost var fs := tree;
      ghost var done: set<Path> := {};
      var i := 0;
      while i < |jobs|
        invariant 0 <= i <= |jobs|
        invariant done == Fulls(jobs[..i]) <= Links(fs, root)
        invariant tree == Replaced(fs, root, done, fuel)
      {
        var j := jobs[i];
        assert j in jobs && j.full in Fulls(jobs);
        assert jobs[..i + 1] == jobs[..i] + [j];
        FullsConcat(jobs[..i], [j]);
        ReplaceOne(fs, root, done, j.full, fuel);
        RemovePath(j.full);
        if j.isFile {
          CopyFile(j.target.value, j.full);
        }
        done := done + {j.full};
        i := i + 1;
      }
      assert jobs[..i] == jobs;
      assert forall p | IsLinkBelow(fs, root, p) :: p in done <==> p in Below(fs, root);
    }
  }

  /** `realpathSync` returns, with a path or an exception, for every link below the directory. */
  ghost predicate Finishes(fs: Tree, dir: Path, fuel: nat) {
    forall p | IsLinkBelow(fs, dir, p) :: !Leads(fs, p, fuel).Endless?
  }

  lemma JobsFinish(fs: Tree, root: Path, dir: Path, jobs: seq<LinkJob>, fuel: nat)
    requires AreJobs(fs, root, jobs, fuel) && Links(fs, dir) <= Fulls(jobs)
    ensures Finishes(fs, dir, fuel)
  {
    forall p | IsLinkBelow(fs, dir, p) ensures !Leads(fs, p, fuel).Endless? {
      assert p in Links(fs, dir);
      var j :| j in jobs && j.full == p;
    }
  }

  ghost function Entries(fs: Tree, dir: Path): set<Path> {
    set p | p in fs && dir < p && |p| == |dir| + 1
  }

  ghost function Links(fs: Tree, dir: Path): set<Path> {
    set p | p in fs && IsLinkBelow(fs, dir, p)
  }

  ghost function Fulls(jobs: seq<LinkJob>): set<Path> {
    set j | j in jobs :: j.full
  }

  ghost predicate AreJobs(fs: Tree, root: Path, jobs: seq<LinkJob>, fuel: nat) {
    forall j | j in jobs :: IsJob(fs, root, j, fuel)
  }

  ghost predicate IsJob(fs: Tree, root: Path, j: LinkJob, fuel: nat) {
    && j.full in fs && fs[j.full].Link?
    && j == JobFor(fs, root, j.full, fuel) && !Leads(fs, j.full, fuel).Endless?
  }

  lemma FullsConcat(a: seq<LinkJob>, b: seq<LinkJob>)
    ensures Fulls(a + b) == Fulls(a) + Fulls(b)
    ensures forall j | j in a + b :: j in a || j in b
  {
    assert forall j :: j in a + b <==> j in a || j in b;
  }

  /** `real === realRoot || real.startsWith(realRoot + sep)`. */
  predicate IsInside(root: Path, target: Path) {
    Confinement.Render(target) == Confinement.Render(root)
    || Confinement.Render(root) + "/" <= Confinement.Render(target)
  }

  lemma InsideIsPrefix(root: Path, target: Path)
    requires PlainPath(root) && PlainPath(target) && root != []
    ensures IsInside(root, target) <==> root <= target
  {
    Confinement.InsideIsPrefix(root, target);
    Confinement.BodyHasNoTrailingSep(root);
  }

  lemma TargetIsPlain(fs: Tree, full: Path, root: Path, fuel: nat)
    requires WellFormed(fs) && full in fs && fs[full].Link? && PlainPath(root) && root != []
    ensures var answer := Leads(fs, full, fuel);
            answer.At? ==> (IsInside(root, answer.path) <==> root <= answer.path)
  {
    FoundIsReal(fs, LinkTarget(full, fs[full].target), fuel);
    var answer := Leads(fs, full, fuel);
    if answer.At? {
      InsideIsPrefix(root, answer.path);
    }
  }

  lemma {:induction false} NothingBelow(fs: Tree, p: Path, q: Path)
    requires WellFormed(fs) && p in fs && !fs[p].Dir? && q in fs
    ensures !(p < q)
    decreases |q|
  {
    assert p < q ==> q[..|p|] == p;
    if p < q {
      PrefixesExist(fs, q, |p|);
    }
  }

  lemma FirstStepExists(fs: Tree, dir: Path)
    requires WellFormed(fs)
    ensures forall p | p in Links(fs, dir) :: p[..|dir| + 1] in Entries(fs, dir)
  {
    forall p | p in Links(fs, dir) ensures p[..|dir| + 1] in Entries(fs, dir) {
      PrefixesExist(fs, p, |dir| + 1);
      assert p[..|dir|] == dir;
      assert p[..|dir| + 1][..|dir|] == dir;
    }
  }

  /** The links whose path goes through one entry of a directory. */
  lemma LinksUnder(fs: Tree, dir: Path, full: Path)
    requires WellFormed(fs) && full in Entries(fs, dir)
    ensures forall p | p in Links(fs, dir) && p[..|dir| + 1] == full ::
              p in (if fs[full].Link? then {full} else if fs[full].Dir? then Links(fs, full) else {})
    ensures fs[full].Link? ==> full in Links(fs, dir)
    ensures Links(fs, full) <= Links(fs, dir)
    ensures Below(fs, full) < Below(fs, dir)
  {
    assert full[..|dir| + 1] == full;
    forall p | p in Links(fs, dir) && p[..|dir| + 1] == full
      ensures p in (if fs[full].Link? then {full} else if fs[full].Dir? then Links(fs, full) else {})
    {
      assert full <= p;
      if |p| == |full| {
        assert p[..|full|] == p;
      } else {
        assert full < p;
        if !fs[full].Dir? {
          NothingBelow(fs, full, p);
        }
      }
    }
    assert full in Below(fs, dir) && full !in Below(fs, full);
  }

  /** `rmSync(p, { force: true, recursive: true })`. */
  ghost function Removed(fs: Tree, p: Path): Tree {
    map q | q in fs && !(p <= q) :: fs[q]
  }

  lemma RemoveLink(fs: Tree, root: Path, done: set<Path>, full: Path, fuel: nat)
    requires WellFormed(fs) && IsLinkBelow(fs, root, full)
    ensures Removed(Replaced(fs, root, done, fuel), full) == Replaced(fs, root, done, fuel) - {full}
  {
    var now := Replaced(fs, root, done, fuel);
    forall q | q in now && full <= q ensures q == full {
      NothingBelow(fs, full, q);
    }
  }

  /** A file a job copies is no link below the root, so no turn touches it. */
  lemma SourceStays(fs: Tree, root: Path, done: set<Path>, full: Path, fuel: nat)
    requires WellFormed(fs) && IsLinkBelow(fs, root, full) && done <= Links(fs, root)
    requires JobFor(fs, root, full, fuel).isFile
    ensures var source, now := JobFor(fs, root, full, fuel).target.value, Replaced(fs, root, done, fuel);
            source != full && source in now && now[source] == fs[source]
  {
    assert JobFor(fs, root, full, fuel).target.value !in done;
  }

  /** One more link done changes only what stands at that link. */
  lemma ReplacedElsewhere(fs: Tree, root: Path, done: set<Path>, full: Path, q: Path, fuel: nat)
    requires q != full && full in fs
    ensures q in Replaced(fs, root, done + {full}, fuel) <==> q in Replaced(fs, root, done, fuel)
    ensures q in Replaced(fs, root, done, fuel) ==>
              Replaced(fs, root, done + {full}, fuel)[q] == Replaced(fs, root, done, fuel)[q]
  {
  }

  lemma ReplacedHere(fs: Tree, root: Path, done: set<Path>, full: Path, fuel: nat)
    requires IsLinkBelow(fs, root, full)
    ensures var after, job := Replaced(fs, root, done + {full}, fuel), JobFor(fs, root, full, fuel);
            && (full in after <==> job.isFile)
            && (job.isFile ==> after[full] == fs[job.target.value])
  {
  }

  /** One turn of the second pass. */
  lemma ReplaceOne(fs: Tree, root: Path, done: set<Path>, full: Path, fuel: nat)
    requires WellFormed(fs) && IsLinkBelow(fs, root, full) && done <= Links(fs, root)
    ensures var removed, job := Removed(Replaced(fs, root, done, fuel), full), JobFor(fs, root, full, fuel);
            && (job.isFile ==> job.target.value in removed && removed[job.target.value] == fs[job.target.value])
            && Replaced(fs, root, done + {full}, fuel) ==
               if job.isFile then removed[full := fs[job.target.value]] else removed
  {
    RemoveLink(fs, root, done, full, fuel);
    ReplacedHere(fs, root, done, full, fuel);
    var now, after := Replaced(fs, root, done, fuel), Replaced(fs, root, done + {full}, fuel);
    var job := JobFor(fs, root, full, fuel);
    forall q | q != full
      ensures q in after <==> q in now
      ensures q in now ==> after[q] == now[q]
    {
      ReplacedElsewhere(fs, root, done, full, q, fuel);
    }
    if job.isFile {
      SourceStays(fs, root, done, full, fuel);
      assert after == (now - {full})[full := fs[job.target.value]];
    } else {
      assert after == now - {full};
    }
  }

  // ----- what the result looks like -----

  /** No link is left below the root, and everything that was not a link there is untouched. */
  lemma MaterializedHasNoLinks(fs: Tree, root: Path, fuel: nat)
    requires WellFormed(fs)
    ensures forall p | p in Materialized(fs, root, fuel) && root < p :: !Materialized(fs, root, fuel)[p].Link?
    ensures forall p | p in fs && !IsLinkBelow(fs, root, p) ::
              p in Materialized(fs, root, fuel) && Materialized(fs, root, fuel)[p] == fs[p]
    ensures forall p | p in Materialized(fs, root, fuel) :: p in fs
  {
  }

  /**
   * A link survives exactly when `realpathSync` leads from it to a regular file inside
   * the root, and then holds that file's original content.
   */
  lemma LinkBecomesFileIff(fs: Tree, root: Path, p: Path, fuel: nat)
    requires WellFormed(fs) && IsLinkBelow(fs, root, p)
    ensures var answer := Leads(fs, p, fuel);
            && (p in Materialized(fs, root, fuel) <==>
                  answer.At? && root <= answer.path && answer.path in fs && fs[answer.path].File?)
            && (p in Materialized(fs, root, fuel) ==> Materialized(fs, root, fuel)[p] == fs[answer.path])
  {
  }

  lemma MaterializedIsWellFormed(fs: Tree, root: Path, fuel: nat)
    requires WellFormed(fs)
    ensures WellFormed(Materialized(fs, root, fuel))
  {
    var m := Materialized(fs, root, fuel);
    forall p | p in m && p != [] ensures Init(p) in m && m[Init(p)].Dir? {
      assert Init(p) in fs && fs[Init(p)].Dir?;
    }
  }

  /** Once the scan finishes, the result does not depend on the fuel. */
  lemma MaterializedMoreFuel(fs: Tree, root: Path, fuel: nat, more: nat)
    requires WellFormed(fs) && Finishes(fs, root, fuel)
    ensures Finishes(fs, root, fuel + more) && Materialized(fs, root, fuel + more) == Materialized(fs, root, fuel)
  {
    forall p | IsLinkBelow(fs, root, p) ensures Leads(fs, p, fuel + more) == Leads(fs, p, fuel) {
      assert !Leads(fs, p, fuel).Endless?;
      NodeWalkMoreFuel(fs, [], Normalize([], LinkTarget(p, fs[p].target)), fuel, more);
    }
    assert forall p | p in fs :: Final(fs, root, p, fuel + more) == Final(fs, root, p, fuel);
  }

  // ----- what the link names and what is copied -----

  lemma NodesStandInDirs(fs: Tree, p: Path)
    requires WellFormed(fs) && p in fs && p != []
    ensures Real(fs, Init(p)) && fs[Init(p)].Dir?
  {
    forall k | 0 <= k <= |Init(p)| ensures Init(p)[..k] in fs ==> !fs[Init(p)[..k]].Link? {
      assert Init(p)[..k] == p[..k];
      PrefixesExist(fs, p, k);
    }
  }

  /** The kernel's path for a link is that of its target, from the directory of the link. */
  lemma {:induction false} KernelAtLink(fs: Tree, dir: Path, c: Name, t: Target)
    requires WellFormed(fs) && Real(fs, dir) && PlainName(c) && dir + [c] in fs && fs[dir + [c]] == Link(t)
    requires KernelPath(fs, dir + [c]).Some? && Straight(fs, dir, [c], LINK_LIMIT)
    ensures var r := Resolve(fs, LinkBase(dir, t), t.comps, LINK_LIMIT - 1);
            r.Some? && KernelPath(fs, dir + [c]) == Some(r.value.path)
    ensures LeadingParents(t.comps) && Straight(fs, LinkBase(dir, t), t.comps, LINK_LIMIT - 1)
  {
    Confinement.RealIsGrounded(fs, dir);
    Confinement.OnePart(fs, dir, c);
    assert [c] + [] == [c] && t.comps + [] == t.comps;
    KernelFollows(fs, dir, c, [], LINK_LIMIT, t);
  }

  /**
   * If no link followed on the way has a `..` behind a name, the file copied is the one
   * the kernel opens through the link.
   */
  lemma {:induction false} LinkNamesWhatIsCopied(fs: Tree, root: Path, p: Path, fuel: nat)
    requires WellFormed(fs) && IsLinkBelow(fs, root, p) && LINK_LIMIT <= fuel
    requires KernelPath(fs, p).Some? && Straight(fs, Init(p), [Last(p)], LINK_LIMIT)
    ensures var kernel := KernelPath(fs, p).value;
            && Leads(fs, p, fuel) == At(kernel) && kernel in fs
            && (p in Materialized(fs, root, fuel) <==> root <= kernel && fs[kernel].File?)
            && (p in Materialized(fs, root, fuel) ==> Materialized(fs, root, fuel)[p] == fs[kernel])
  {
    var dir, c, t := Init(p), Last(p), fs[p].target;
    assert p == dir + [c];
    NodesStandInDirs(fs, p);
    KernelAtLink(fs, dir, c, t);
    RootIsReal(fs);
    StraightAgrees(fs, LinkBase(dir, t), t.comps, LINK_LIMIT - 1, fuel);
    NormalizeTwice(LinkBase(dir, t), t.comps);
    FoundIsReal(fs, LinkTarget(p, t), fuel);
    LinkBecomesFileIff(fs, root, p, fuel);
  }
}
