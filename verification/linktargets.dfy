/// For which link targets confinement and extraction reach what the kernel reaches:
/// exactly those with no name in front of a `..`. For every other target there is a
/// tree, with only such links besides, in which they do not.
module LinkTargets {
  import opened Prelude
  import opened Filesystem
  import opened Confinement
  import opened Archive

  /** A tree with a link that has this target and leads somewhere, and otherwise no link with `..` behind a name. */
  ghost predicate Meets(fs: Tree, p: Path, comps: seq<Name>) {
    && WellFormed(fs) && p in fs && fs[p].Link? && fs[p].target.comps == comps && KernelPath(fs, p).Some?
    && forall q | q in fs && q != p && fs[q].Link? :: LeadingParents(fs[q].target.comps)
  }

  /** The confinement of the link's path ends where the kernel does; with the root directory, nothing escapes. */
  ghost predicate WalkedAsOpened(fs: Tree, p: Path, fuel: nat) {
    KernelPath(fs, p).Some? && Walk(fs, [], [], p, fuel) == Confined(KernelPath(fs, p).value)
  }

  /** Extraction takes the link to where the kernel takes it. */
  ghost predicate CopiedAsOpened(fs: Tree, p: Path, fuel: nat) {
    p in fs && fs[p].Link? && KernelPath(fs, p).Some? && Leads(fs, p, fuel) == At(KernelPath(fs, p).value)
  }

  ghost predicate AlwaysWalkedAsOpened(comps: seq<Name>) {
    forall fs: Tree, p: Path, fuel: nat | Meets(fs, p, comps) && LINK_LIMIT <= fuel :: WalkedAsOpened(fs, p, fuel)
  }

  ghost predicate AlwaysCopiedAsOpened(comps: seq<Name>) {
    forall fs: Tree, p: Path, fuel: nat | Meets(fs, p, comps) && LINK_LIMIT <= fuel :: CopiedAsOpened(fs, p, fuel)
  }

  // ----- lexical walks -----

  lemma {:induction false} NormalizeLast(base: Path, comps: seq<Name>)
    requires comps != []
    ensures Normalize(base, comps) == Move(Normalize(base, Init(comps)), Last(comps))
  {
    assert comps == Init(comps) + [Last(comps)];
    NormalizeAppend(base, Init(comps), [Last(comps)]);
  }

  /** A path longer than the walk keeps its first component. */
  lemma {:induction false} NormalizeKeepsFirst(base: Path, comps: seq<Name>)
    requires |base| > |comps|
    ensures Normalize(base, comps) != [] && Normalize(base, comps)[0] == base[0]
    decreases |comps|
  {
    if comps != [] {
      NormalizeKeepsFirst(Move(base, comps[0]), comps[1..]);
    }
  }

  lemma {:induction false} NormalizeSkips(base: Path, skips: seq<Name>)
    requires forall i | 0 <= i < |skips| :: IsSkip(skips[i])
    ensures Normalize(base, skips) == base
    decreases |skips|
  {
    if skips != [] {
      NormalizeSkips(base, skips[1..]);
    }
  }

  /** The directories a lexical walk from the root touches. */
  function Visited(comps: seq<Name>): set<Path> {
    (if comps == [] then {} else Visited(Init(comps))) + {Normalize([], comps)}
  }

  lemma {:induction false} VisitedIsClosed(comps: seq<Name>)
    ensures [] in Visited(comps)
    ensures forall p | p in Visited(comps) && p != [] :: Init(p) in Visited(comps)
  {
    if comps != [] {
      VisitedIsClosed(Init(comps));
      NormalizeLast([], comps);
    }
  }

  lemma {:induction false} VisitedUses(comps: seq<Name>, p: Path, c: Name)
    requires p in Visited(comps) && c in p
    ensures c in comps && IsName(c)
  {
    if p == Normalize([], comps) {
      NormalizeUses([], comps, c);
    } else {
      VisitedUses(Init(comps), p, c);
    }
  }

  lemma {:induction false} VisitedPrefix(a: seq<Name>, b: seq<Name>)
    ensures Visited(a) <= Visited(a + b)
    decreases |b|
  {
    if b == [] {
      assert a + b == a;
    } else {
      InitOfConcat(a, b);
      VisitedPrefix(a, Init(b));
    }
  }

  /** Where all of them are directories, resolution is the lexical walk. */
  lemma {:induction false} DirsResolve(fs: Tree, comps: seq<Name>, fuel: nat)
    requires forall p | p in Visited(comps) :: p in fs && fs[p].Dir?
    ensures Resolve(fs, [], comps, fuel) == Some(Found(Normalize([], comps), fuel))
  {
    if comps != [] {
      DirsResolve(fs, Init(comps), fuel);
      NormalizeLast([], comps);
      VisitedPrefix(Init(comps), [Last(comps)]);
      var d, c := Normalize([], Init(comps)), Last(comps);
      assert comps == Init(comps) + [c];
      ResolveAppend(fs, [], Init(comps), [c], fuel);
      assert d in Visited(Init(comps)) && [c][1..] == [];
      assert Resolve(fs, d, [c], fuel) == Some(Found(Move(d, c), fuel));
    }
  }

  // ----- a tree for a `..` behind a name -----

  /**
   * A target `before`, then a name, then components that stay, then `..`, then `rest`;
   * and four names that do not occur in it.
   */
  datatype Case = Case(
    before: seq<Name>, name: Name, skips: seq<Name>, rest: seq<Name>, w: Name, q: Name, e: Name, m: Name)

  function Tail(c: Case): seq<Name> {
    c.skips + ([".."] + c.rest)
  }

  function Comps(c: Case): seq<Name> {
    c.before + ([c.name] + Tail(c))
  }

  predicate IsNew(n: Name, comps: seq<Name>) {
    PlainName(n) && n !in comps
  }

  ghost predicate Ok(c: Case) {
    && (forall n | n in Comps(c) :: '/' !in n)
    && LeadingParents(c.before) && IsName(c.name)
    && (forall i | 0 <= i < |c.skips| :: IsSkip(c.skips[i]))
    && IsNew(c.w, Comps(c)) && IsNew(c.q, Comps(c)) && IsNew(c.e, Comps(c))
    && IsNew(c.m, Comps(c)) && c.w != c.q && c.w != c.e && c.q != c.e && c.m != c.w && c.m != c.q && c.m != c.e
  }

  function Repeat(n: Name, count: nat): (p: Path)
    ensures |p| == count && forall i | 0 <= i < count :: p[i] == n
  {
    if count == 0 then [] else [n] + Repeat(n, count - 1)
  }

  /** The directory the target is resolved from. */
  function Base(c: Case): Path {
    Repeat(c.w, |Comps(c)| + 1)
  }

  /** Where `..` leads physically, and the directory the link leads to. */
  function Behind(c: Case): Path {
    Repeat(c.q, |Comps(c)| + 1)
  }

  function Inner(c: Case): Path {
    Behind(c) + [c.e]
  }

  function LinkAt(c: Case): Path {
    Normalize([], Base(c) + c.before) + [c.name]
  }

  function Dirs(c: Case): set<Path> {
    Visited(Base(c) + c.before) + Visited(Inner(c) + Tail(c))
  }

  /** The link with the target. */
  function Entry(c: Case): Path {
    Base(c) + [c.m]
  }

  function CaseTree(c: Case): Tree {
    (map p | p in Dirs(c) :: Dir)[LinkAt(c) := Link(Target(true, Inner(c)))][Entry(c) := Link(Target(false, Comps(c)))]
  }

  lemma CompsContain(c: Case, n: Name)
    ensures n in c.before || n == c.name || n in c.skips || n in c.rest ==> n in Comps(c)
  {
    var tail, more := Tail(c), [c.name] + Tail(c);
    assert Comps(c) == c.before + more && tail == c.skips + ([".."] + c.rest);
    assert n in c.rest ==> n in [".."] + c.rest;
    assert n in [".."] + c.rest ==> n in tail;
    assert n in tail ==> n in more;
    assert c.name in more;
  }

  /** What stands on the walk to the link, and on the walk behind it. */
  lemma OuterUses(c: Case, p: Path, n: Name)
    requires p in Visited(Base(c) + c.before) && n in p
    ensures IsName(n) && (n == c.w || n in Comps(c))
  {
    VisitedUses(Base(c) + c.before, p, n);
    CompsContain(c, n);
  }

  lemma InnerUses(c: Case, p: Path, n: Name)
    requires p in Visited(Inner(c) + Tail(c)) && n in p
    ensures IsName(n) && (n == c.q || n == c.e || n in Comps(c))
  {
    VisitedUses(Inner(c) + Tail(c), p, n);
    CompsContain(c, n);
  }

  /** The name `e` stands only in the directory the link leads to. */
  lemma {:induction false} NewNameStandsAlone(c: Case, k: nat, p: Path)
    requires Ok(c) && k <= |Tail(c)| && p in Visited(Inner(c) + Tail(c)[..k])
    ensures p <= Inner(c) || c.e !in p
    decreases k
  {
    var walk := Inner(c) + Tail(c)[..k];
    if k == 0 {
      assert walk == Inner(c);
      VisitedOfPlain(c, Inner(c), p);
    } else {
      InitOfConcat(Inner(c), Tail(c)[..k]);
      assert Init(Tail(c)[..k]) == Tail(c)[..k - 1];
      if p in Visited(Init(walk)) {
        NewNameStandsAlone(c, k - 1, p);
      } else {
        EndOfInnerWalk(c, k);
      }
    }
  }

  /** A walk over names touches the prefixes of its end. */
  lemma {:induction false} VisitedOfPlain(c: Case, names: Path, p: Path)
    requires names <= Inner(c) && Ok(c) && p in Visited(names)
    ensures p <= names && Normalize([], names) == names
  {
    NormalizePlain([], names);
    assert [] + names == names;
    if names != [] && p in Visited(Init(names)) {
      VisitedOfPlain(c, Init(names), p);
    }
  }

  lemma InnerIsPlain(c: Case)
    requires Ok(c)
    ensures Normalize([], Inner(c)) == Inner(c) && Parent(Inner(c)) == Behind(c)
  {
    NormalizePlain([], Inner(c));
    assert [] + Inner(c) == Inner(c);
  }

  lemma EndOfInnerWalk(c: Case, k: nat)
    requires Ok(c) && k <= |Tail(c)|
    ensures var end := Normalize([], Inner(c) + Tail(c)[..k]); end == Inner(c) || c.e !in end
  {
    var s := |c.skips|;
    InnerIsPlain(c);
    NormalizeAppend([], Inner(c), Tail(c)[..k]);
    if k <= s {
      assert Tail(c)[..k] == c.skips[..k];
      NormalizeSkips(Inner(c), c.skips[..k]);
    } else {
      var rest := c.rest[..k - s - 1];
      assert Tail(c)[..k] == c.skips + ([".."] + rest);
      EndBehind(c, rest);
      CompsContain(c, c.e);
      if c.e in Normalize(Behind(c), rest) {
        NormalizeUses(Behind(c), rest, c.e);
      }
    }
  }

  /** The walk leaves the link's directory by its physical parent. */
  lemma {:induction false} EndBehind(c: Case, rest: seq<Name>)
    requires Ok(c)
    ensures Normalize(Inner(c), c.skips + ([".."] + rest)) == Normalize(Behind(c), rest)
  {
    NormalizeAppend(Inner(c), c.skips, [".."] + rest);
    NormalizeSkips(Inner(c), c.skips);
    InnerIsPlain(c);
    assert ([".."] + rest)[1..] == rest;
  }

  // ----- the link is no directory of the walk -----

  predicate NoNames(comps: seq<Name>) {
    forall i | 0 <= i < |comps| :: !IsName(comps[i])
  }

  lemma {:induction false} UpwardOnly(c: Case, comps: seq<Name>, p: Path)
    requires NoNames(comps) && p in Visited(Base(c) + comps)
    ensures forall n | n in p :: n == c.w
  {
    forall n | n in p ensures n == c.w {
      VisitedUses(Base(c) + comps, p, n);
    }
  }

  /** Before the name, the walk goes up and then down: it touches parents of the base and prefixes of its end. */
  lemma {:induction false} UpThenDown(c: Case, comps: seq<Name>, p: Path)
    requires LeadingParents(comps) && p in Visited(Base(c) + comps)
    ensures (forall n | n in p :: n == c.w) || p <= Normalize([], Base(c) + comps)
    decreases |comps|
  {
    if NoNames(comps) {
      UpwardOnly(c, comps, p);
    } else {
      InitOfConcat(Base(c), comps);
      NormalizeLast([], Base(c) + comps);
      if p in Visited(Base(c) + Init(comps)) {
        UpThenDown(c, Init(comps), p);
        var i :| 0 <= i < |comps| && IsName(comps[i]);
        assert Last(comps) != "..";
      }
    }
  }

  lemma LinkIsNoDir(c: Case)
    requires Ok(c)
    ensures LinkAt(c) !in Dirs(c)
  {
    var at := LinkAt(c);
    CompsContain(c, c.name);
    assert c.name in at && c.name != c.w;
    if at in Visited(Base(c) + c.before) {
      UpThenDown(c, c.before, at);
    }
    LinkStandsInBase(c);
    if at in Visited(Inner(c) + Tail(c)) {
      InnerUses(c, at, c.w);
    }
  }

  lemma LinkStandsInBase(c: Case)
    requires Ok(c)
    ensures c.w in LinkAt(c) && |Base(c)| > |c.before|
  {
    NormalizePlain([], Base(c));
    assert [] + Base(c) == Base(c);
    NormalizeAppend([], Base(c), c.before);
    NormalizeKeepsFirst(Base(c), c.before);
    assert LinkAt(c)[0] == c.w;
  }

  lemma EntryIsNoDir(c: Case)
    requires Ok(c)
    ensures Entry(c) !in Dirs(c) && Entry(c) != LinkAt(c)
  {
    var d := Normalize([], Base(c) + c.before);
    CompsContain(c, c.name);
    assert c.m in Entry(c) && d in Visited(Base(c) + c.before);
    if Entry(c) in Visited(Base(c) + c.before) {
      OuterUses(c, Entry(c), c.m);
    }
    if Entry(c) in Visited(Inner(c) + Tail(c)) {
      InnerUses(c, Entry(c), c.m);
    }
    if c.m in d {
      OuterUses(c, d, c.m);
    }
  }

  // ----- the two resolutions differ in this tree -----

  /** What stands where. */
  lemma CaseNodes(c: Case)
    requires Ok(c)
    ensures forall p | p in Dirs(c) :: p in CaseTree(c) && CaseTree(c)[p].Dir?
    ensures forall p | p in CaseTree(c) :: p in Dirs(c) || p == LinkAt(c) || p == Entry(c)
    ensures LinkAt(c) in CaseTree(c) && CaseTree(c)[LinkAt(c)] == Link(Target(true, Inner(c)))
    ensures Entry(c) in CaseTree(c) && CaseTree(c)[Entry(c)] == Link(Target(false, Comps(c)))
  {
    LinkIsNoDir(c);
    EntryIsNoDir(c);
  }

  lemma DirsArePlain(c: Case, p: Path)
    requires Ok(c) && p in Dirs(c)
    ensures PlainPath(p)
  {
    forall i | 0 <= i < |p| ensures PlainName(p[i]) {
      if p in Visited(Base(c) + c.before) {
        OuterUses(c, p, p[i]);
      } else {
        InnerUses(c, p, p[i]);
      }
    }
  }

  lemma BaseIsDir(c: Case)
    requires Ok(c)
    ensures Base(c) in Dirs(c) && Normalize([], Base(c)) == Base(c)
  {
    NormalizePlain([], Base(c));
    assert [] + Base(c) == Base(c);
    VisitedPrefix(Base(c), c.before);
    assert Base(c) in Visited(Base(c));
  }

  lemma CaseTreeIsWellFormed(c: Case)
    requires Ok(c)
    ensures WellFormed(CaseTree(c))
  {
    var fs, at := CaseTree(c), LinkAt(c);
    CaseNodes(c);
    VisitedIsClosed(Base(c) + c.before);
    VisitedIsClosed(Inner(c) + Tail(c));
    CompsContain(c, c.name);
    BaseIsDir(c);
    assert Init(at) in Visited(Base(c) + c.before) && Init(Entry(c)) == Base(c);
    forall p | p in fs ensures PlainPath(p) && (p != [] ==> Init(p) in Dirs(c)) {
      if p == at {
        DirsArePlain(c, Init(at));
        assert at == Init(at) + [c.name];
      } else if p == Entry(c) {
        DirsArePlain(c, Base(c));
      } else {
        DirsArePlain(c, p);
      }
    }
  }

  lemma DirsAreReal(c: Case, p: Path)
    requires Ok(c) && p in Dirs(c)
    ensures WellFormed(CaseTree(c)) && p in CaseTree(c) && CaseTree(c)[p].Dir? && Real(CaseTree(c), p)
  {
    CaseTreeIsWellFormed(c);
    CaseNodes(c);
    forall k | 0 <= k <= |p| ensures p[..k] in CaseTree(c) ==> !CaseTree(c)[p[..k]].Link? {
      PrefixesExist(CaseTree(c), p, k);
      assert k == |p| ==> p[..k] == p;
    }
  }

  /** Following the walk physically ends behind the link. */
  lemma PhysicalEnd(c: Case)
    requires Ok(c)
    ensures var r := Resolve(CaseTree(c), Base(c), Comps(c), LINK_LIMIT - 1);
            r.Some? && r.value.path == Normalize([], Inner(c) + Tail(c))
  {
    var fs, at, fuel := CaseTree(c), LinkAt(c), LINK_LIMIT - 1;
    var d, tail := Normalize([], Base(c) + c.before), Tail(c);
    CaseNodes(c);
    BaseIsDir(c);
    VisitedPrefix(Base(c), c.before);
    DirsResolve(fs, Base(c), fuel);
    ResolveAppend(fs, [], Base(c), Comps(c), fuel);
    ConcatAssociates(Base(c), c.before, [c.name] + tail);
    DirsResolve(fs, Base(c) + c.before, fuel);
    ResolveAppend(fs, [], Base(c) + c.before, [c.name] + tail, fuel);
    assert d == Init(LinkAt(c));
    FollowsLink(c, tail, fuel);
    DirsResolve(fs, Inner(c) + tail, fuel - 1);
  }

  lemma {:induction false} FollowsLink(c: Case, rest: seq<Name>, fuel: nat)
    requires Ok(c) && fuel > 0
    ensures Resolve(CaseTree(c), Init(LinkAt(c)), [c.name] + rest, fuel)
        == Resolve(CaseTree(c), [], Inner(c) + rest, fuel - 1)
  {
    var d := Init(LinkAt(c));
    CaseNodes(c);
    assert d in Visited(Base(c) + c.before);
    assert ([c.name] + rest)[1..] == rest && d + [c.name] == LinkAt(c);
  }

  lemma {:induction false} KernelThrough(fs: Tree, base: Path, name: Name, comps: seq<Name>)
    requires WellFormed(fs) && Real(fs, base) && PlainName(name) && fs[base].Dir?
    requires base + [name] in fs && fs[base + [name]] == Link(Target(false, comps))
    requires Resolve(fs, base, comps, LINK_LIMIT - 1).Some?
    ensures KernelPath(fs, base + [name]) == Some(Resolve(fs, base, comps, LINK_LIMIT - 1).value.path)
  {
    RealIsGrounded(fs, base);
    OnePart(fs, base, name);
    assert [name][1..] == [] && comps + [] == comps;
  }

  /** So that is what the kernel opens. */
  lemma EntryOpens(c: Case)
    requires Ok(c)
    ensures KernelPath(CaseTree(c), Entry(c)) == Some(Normalize([], Inner(c) + Tail(c)))
  {
    EntryStandsInBase(c);
    PhysicalEnd(c);
    KernelThrough(CaseTree(c), Base(c), c.m, Comps(c));
  }

  lemma PhysicalUses(c: Case)
    requires Ok(c)
    ensures c.w !in Normalize([], Inner(c) + Tail(c)) && c.e !in Normalize([], Inner(c) + Tail(c))
  {
    var end := Normalize([], Inner(c) + Tail(c));
    assert end in Visited(Inner(c) + Tail(c));
    if c.w in end {
      InnerUses(c, end, c.w);
    }
    InnerIsPlain(c);
    NormalizeAppend([], Inner(c), Tail(c));
    EndBehind(c, c.rest);
    CompsContain(c, c.e);
    if c.e in Normalize(Behind(c), c.rest) {
      NormalizeUses(Behind(c), c.rest, c.e);
    }
  }

  /** Below the directory the link leads to, there is nothing. */
  lemma NothingInside(c: Case, n: Name)
    requires Ok(c)
    ensures Inner(c) + [n] !in CaseTree(c)
  {
    var p := Inner(c) + [n];
    CaseNodes(c);
    CompsContain(c, c.name);
    assert c.e in p;
    assert Tail(c)[..|Tail(c)|] == Tail(c);
    if p in Visited(Inner(c) + Tail(c)) {
      NewNameStandsAlone(c, |Tail(c)|, p);
    }
    if p in Visited(Base(c) + c.before) {
      OuterUses(c, p, c.e);
    }
    if p == LinkAt(c) {
      LinkHasNoNewName(c);
    }
  }

  lemma LinkHasNoNewName(c: Case)
    requires Ok(c)
    ensures c.e !in LinkAt(c)
  {
    var d := Normalize([], Base(c) + c.before);
    CompsContain(c, c.name);
    assert d in Visited(Base(c) + c.before);
    if c.e in d {
      OuterUses(c, d, c.e);
    }
  }

  /** From the link's directory nothing but itself can be reached downwards. */
  lemma {:induction false} NodeInInner(c: Case, u: Path, fuel: nat)
    requires Ok(c)
    ensures NodeWalk(CaseTree(c), [], Inner(c) + u, fuel) == if u == [] then At(Inner(c)) else Missing
  {
    InnerIsPlain(c);
    VisitedPrefix(Inner(c), Tail(c));
    assert Inner(c) in Visited(Inner(c));
    DirsAreReal(c, Inner(c));
    NodeWalkFrom(CaseTree(c), Inner(c), u, fuel);
    if u != [] {
      NothingInside(c, u[0]);
    }
  }

  lemma LinkStandsInDir(c: Case)
    requires Ok(c)
    ensures WellFormed(CaseTree(c)) && Real(CaseTree(c), Init(LinkAt(c)))
    ensures LinkAt(c) == Init(LinkAt(c)) + [c.name]
    ensures LinkAt(c) in CaseTree(c) && CaseTree(c)[LinkAt(c)] == Link(Target(true, Inner(c)))
  {
    assert Init(LinkAt(c)) in Visited(Base(c) + c.before);
    DirsAreReal(c, Init(LinkAt(c)));
    CaseNodes(c);
  }

  predicate EndsAtMostIn(answer: Answer, p: Path) {
    answer.At? ==> answer.path == p
  }

  lemma {:induction false} NodeThrough(fs: Tree, dir: Path, name: Name, inner: Path, u: Path, fuel: nat)
    requires WellFormed(fs) && Real(fs, dir) && Normalize([], inner) == inner
    requires dir + [name] in fs && fs[dir + [name]] == Link(Target(true, inner))
    requires fuel > 0 ==> EndsAtMostIn(NodeWalk(fs, [], inner + u, fuel - 1), inner)
    ensures EndsAtMostIn(NodeWalk(fs, [], dir + [name] + u, fuel), inner)
  {
    NodeAtLink(fs, dir, name, u, fuel, Target(true, inner));
    assert dir + [name] + u == dir + ([name] + u);
  }

  /** A path through the link ends in the link's directory or nowhere. */
  lemma {:induction false} NodeThroughLink(c: Case, u: Path, fuel: nat)
    requires Ok(c)
    ensures EndsAtMostIn(NodeWalk(CaseTree(c), [], LinkAt(c) + u, fuel), Inner(c))
  {
    LinkStandsInDir(c);
    InnerIsPlain(c);
    if fuel > 0 {
      NodeInInner(c, u, fuel - 1);
    }
    NodeThrough(CaseTree(c), Init(LinkAt(c)), c.name, Inner(c), u, fuel);
  }

  /** The lexical target, if it exists at all, is another path. */
  lemma {:induction false} LexicalEnd(c: Case, fuel: nat)
    requires Ok(c)
    ensures NodeWalk(CaseTree(c), [], Normalize(Base(c), Comps(c)), fuel) != At(Normalize([], Inner(c) + Tail(c)))
  {
    var fs, y := CaseTree(c), Normalize(Base(c), Comps(c));
    CaseTreeIsWellFormed(c);
    PhysicalUses(c);
    NormalizeKeepsFirst(Base(c), Comps(c));
    assert c.w in y;
    if exists k | 0 <= k <= |y| :: y[..k] == LinkAt(c) {
      var k :| 0 <= k <= |y| && y[..k] == LinkAt(c);
      NodeThroughLink(c, y[k..], fuel);
      assert y == LinkAt(c) + y[k..] && c.e in Inner(c);
    } else {
      LexicalIsGrounded(c);
      assert y[..0] == [] && y[0..] == y;
      NodeWalkGrounded(fs, y, 0, fuel);
    }
  }

  lemma OtherPathsAreNoLinks(c: Case, p: Path)
    requires Ok(c) && p != LinkAt(c) && c.m !in p
    ensures p in CaseTree(c) ==> !CaseTree(c)[p].Link?
  {
    CaseNodes(c);
    assert c.m in Entry(c);
  }

  lemma LexicalIsGrounded(c: Case)
    requires Ok(c)
    requires var y := Normalize(Base(c), Comps(c)); forall k | 0 <= k <= |y| :: y[..k] != LinkAt(c)
    ensures Grounded(CaseTree(c), Normalize(Base(c), Comps(c)))
  {
    var fs, y := CaseTree(c), Normalize(Base(c), Comps(c));
    forall i | 0 <= i < |y| ensures PlainName(y[i]) && y[i] != c.m {
      NormalizeUses(Base(c), Comps(c), y[i]);
    }
    forall k | 0 <= k <= |y| ensures y[..k] in fs ==> !fs[y[..k]].Link? {
      assert c.m !in y[..k];
      OtherPathsAreNoLinks(c, y[..k]);
    }
  }

  /** The tree's other link is safe. */
  lemma OtherLinkIsStraight(c: Case)
    requires Ok(c)
    ensures forall q | q in CaseTree(c) && q != Entry(c) && CaseTree(c)[q].Link? ::
              LeadingParents(CaseTree(c)[q].target.comps)
  {
    CaseNodes(c);
    assert LeadingParents(Inner(c));
  }

  lemma EntryIsCase(c: Case)
    requires Ok(c)
    ensures Meets(CaseTree(c), Entry(c), Comps(c))
  {
    EntryStandsInBase(c);
    OtherLinkIsStraight(c);
    EntryOpens(c);
  }

  lemma EntryStandsInBase(c: Case)
    requires Ok(c)
    ensures WellFormed(CaseTree(c)) && Real(CaseTree(c), Base(c)) && CaseTree(c)[Base(c)].Dir?
    ensures Init(Entry(c)) == Base(c)
    ensures Entry(c) in CaseTree(c) && CaseTree(c)[Entry(c)] == Link(Target(false, Comps(c)))
    ensures PlainPath(Base(c)) && Normalize([], Entry(c)) == Base(c) + [c.m]
  {
    BaseIsDir(c);
    DirsAreReal(c, Base(c));
    CaseNodes(c);
    PlainIsNormal(Entry(c));
  }

  lemma CopyDiffers(c: Case, fuel: nat)
    requires Ok(c)
    ensures !CopiedAsOpened(CaseTree(c), Entry(c), fuel)
  {
    EntryStandsInBase(c);
    EntryOpens(c);
    NormalizeTwice(Base(c), Comps(c));
    LexicalEnd(c, fuel);
  }

  /** `realpathSync` goes from a link to its lexical target. */
  lemma {:induction false} NodeEndsElsewhere(fs: Tree, base: Path, name: Name, comps: seq<Name>, fuel: nat, end: Path)
    requires WellFormed(fs) && Real(fs, base) && Normalize([], base + [name]) == base + [name]
    requires base + [name] in fs && fs[base + [name]] == Link(Target(false, comps))
    requires fuel > 0 ==> NodeWalk(fs, [], Normalize(base, comps), fuel - 1) != At(end)
    ensures RealpathSync(fs, base + [name], fuel) != At(end)
  {
    NodeAtLink(fs, base, name, [], fuel, Target(false, comps));
    assert [name] + [] == [name] && Normalize(base, comps) + [] == Normalize(base, comps);
  }

  lemma RealpathDiffers(c: Case, fuel: nat)
    requires Ok(c)
    ensures RealpathSync(CaseTree(c), Entry(c), fuel) != At(Normalize([], Inner(c) + Tail(c)))
  {
    EntryStandsInBase(c);
    if fuel > 0 {
      LexicalEnd(c, fuel - 1);
    }
    NodeEndsElsewhere(CaseTree(c), Base(c), c.m, Comps(c), fuel, Normalize([], Inner(c) + Tail(c)));
  }

  lemma WalkDiffers(c: Case, fuel: nat)
    requires Ok(c)
    ensures !WalkedAsOpened(CaseTree(c), Entry(c), fuel)
  {
    EntryStandsInBase(c);
    EntryOpens(c);
    RealpathDiffers(c, fuel);
    WalkAtEnd(CaseTree(c), Entry(c), fuel);
  }

  // ----- the confinement of a path that ends in a link -----

  lemma {:induction false} WalkPassesOne(fs: Tree, dir: Path, c: Name, rest: Path, fuel: nat)
    requires WellFormed(fs) && Real(fs, dir) && dir + [c] in fs && !fs[dir + [c]].Link?
    ensures Walk(fs, [], dir, [c] + rest, fuel) == Walk(fs, [], dir + [c], rest, fuel)
  {
    RealIsGrounded(fs, dir);
    GroundedLStat(fs, dir, c);
    assert ([c] + rest)[1..] == rest;
  }

  /** The walk passes a path without links unhindered. */
  lemma {:induction false} WalkPasses(fs: Tree, p: Path, k: nat, rest: Path, fuel: nat)
    requires WellFormed(fs) && Real(fs, p) && k <= |p|
    ensures Walk(fs, [], p[..k], p[k..] + rest, fuel) == Walk(fs, [], p, rest, fuel)
    decreases |p| - k
  {
    if k == |p| {
      assert p[..k] == p && p[k..] + rest == rest;
    } else {
      PrefixesExist(fs, p, k + 1);
      PrefixIsReal(fs, p, k);
      assert p[..k] + [p[k]] == p[..k + 1];
      assert p[k..] + rest == [p[k]] + (p[k + 1..] + rest);
      WalkPassesOne(fs, p[..k], p[k], p[k + 1..] + rest, fuel);
      WalkPasses(fs, p, k + 1, rest, fuel);
    }
  }

  lemma PrefixIsReal(fs: Tree, p: Path, k: nat)
    requires WellFormed(fs) && Real(fs, p) && k <= |p|
    ensures Real(fs, p[..k])
  {
    PrefixesExist(fs, p, k);
    forall j | 0 <= j <= k ensures p[..k][..j] in fs ==> !fs[p[..k][..j]].Link? {
      assert p[..k][..j] == p[..j];
    }
  }

  lemma {:induction false} WalkAtEnd(fs: Tree, p: Path, fuel: nat)
    requires WellFormed(fs) && p in fs && fs[p].Link?
    ensures Walk(fs, [], [], p, fuel) ==
            match RealpathSync(fs, p, fuel)
            case At(target) => Confined(target)
            case Missing => Refused(BrokenLink(Last(p)))
            case Endless => NeverReturns
  {
    var dir := Init(p);
    assert p == dir + [Last(p)] && dir[..0] == [] && dir[0..] == dir;
    NodesStandInDirs(fs, p);
    WalkPasses(fs, dir, 0, [Last(p)], fuel);
    RealIsGrounded(fs, dir);
    GroundedLStat(fs, dir, Last(p));
    assert [Last(p)][1..] == [];
  }

  // ----- every target with a `..` behind a name is such a case -----

  function LongestName(comps: seq<Name>): (n: nat)
    ensures forall c | c in comps :: |c| <= n
  {
    if comps == [] then 0
    else
      var n := LongestName(comps[1..]);
      if |comps[0]| > n then |comps[0]| else n
  }

  function Letters(count: nat): (s: string)
    ensures |s| == count && forall i | 0 <= i < count :: s[i] == 'a'
  {
    if count == 0 then "" else "a" + Letters(count - 1)
  }

  lemma NewName(comps: seq<Name>, k: nat)
    ensures IsNew(Letters(LongestName(comps) + 1 + k), comps)
  {
    var n := Letters(LongestName(comps) + 1 + k);
    assert n[0] == 'a' && forall i | 0 <= i < |n| :: n[i] != '/';
  }

  predicate IsPair(comps: seq<Name>, i: nat, j: nat) {
    i < j < |comps| && IsName(comps[i]) && comps[j] == ".."
  }

  lemma SomePair(comps: seq<Name>) returns (i: nat, j: nat)
    requires !LeadingParents(comps)
    ensures IsPair(comps, i, j)
  {
    var a, b :| 0 <= a < b < |comps| && comps[b] == ".." && IsName(comps[a]);
    i, j := a, b;
  }

  /** The first `..` behind a name, and the last name before it. */
  lemma FirstPair(comps: seq<Name>) returns (i: nat, j: nat)
    requires !LeadingParents(comps)
    ensures IsPair(comps, i, j) && LeadingParents(comps[..i])
    ensures forall k | i < k < j :: IsSkip(comps[k])
  {
    i, j := SomePair(comps);
    while (exists a: nat, b: nat :: IsPair(comps, a, b) && b < j) || (exists a: nat :: IsPair(comps, a, j) && i < a)
      invariant IsPair(comps, i, j)
      decreases j, j - i
    {
      if exists a: nat, b: nat :: IsPair(comps, a, b) && b < j {
        var a: nat, b: nat :| IsPair(comps, a, b) && b < j;
        i, j := a, b;
      } else {
        var a: nat :| IsPair(comps, a, j) && i < a;
        i := a;
      }
    }
    forall k | i < k < j ensures IsSkip(comps[k]) {
      assert !IsPair(comps, k, j) && !IsPair(comps, i, k);
    }
    forall a, b | 0 <= a < b < i && comps[b] == ".." ensures !IsName(comps[a]) {
      assert !IsPair(comps, a, b);
    }
  }

  /** Four names that do not occur. */
  lemma FourNames(comps: seq<Name>) returns (w: Name, q: Name, e: Name, m: Name)
    ensures IsNew(w, comps) && IsNew(q, comps) && IsNew(e, comps) && IsNew(m, comps)
    ensures w != q && w != e && q != e && m != w && m != q && m != e
  {
    NewName(comps, 0);
    NewName(comps, 1);
    NewName(comps, 2);
    NewName(comps, 3);
    var longest := LongestName(comps);
    w, q, e, m := Letters(longest + 1), Letters(longest + 2), Letters(longest + 3), Letters(longest + 4);
    assert |w| < |q| < |e| < |m|;
  }

  lemma Cut(comps: seq<Name>, i: nat, j: nat)
    requires i < j < |comps|
    ensures comps == comps[..i] + ([comps[i]] + (comps[i + 1..j] + ([comps[j]] + comps[j + 1..])))
  {
  }

  lemma PairIsCase(comps: seq<Name>, i: nat, j: nat) returns (c: Case)
    requires forall n | n in comps :: '/' !in n
    requires IsPair(comps, i, j) && LeadingParents(comps[..i]) && forall k | i < k < j :: IsSkip(comps[k])
    ensures Ok(c) && Comps(c) == comps
  {
    var w, q, e, m := FourNames(comps);
    Cut(comps, i, j);
    c := Case(comps[..i], comps[i], comps[i + 1..j], comps[j + 1..], w, q, e, m);
  }

  // ----- the condition -----

  /** With no link of the other kind, the kernel never follows one. */
  lemma {:induction false} AllStraight(fs: Tree, base: Path, comps: seq<Name>, fuel: nat)
    requires forall q | q in fs && fs[q].Link? :: LeadingParents(fs[q].target.comps)
    ensures Straight(fs, base, comps, fuel)
    decreases fuel, |comps|
  {
    if comps != [] && base in fs && fs[base].Dir? {
      if !IsName(comps[0]) {
        AllStraight(fs, Move(base, comps[0]), comps[1..], fuel);
      } else {
        var next := base + [comps[0]];
        if next in fs {
          match fs[next] {
            case Link(t) =>
              if fuel > 0 {
                AllStraight(fs, LinkBase(base, t), t.comps + comps[1..], fuel - 1);
              }
            case _ => AllStraight(fs, next, comps[1..], fuel);
          }
        }
      }
    }
  }

  lemma LeadingIsSafe(fs: Tree, p: Path, comps: seq<Name>, fuel: nat)
    requires LeadingParents(comps) && Meets(fs, p, comps) && LINK_LIMIT <= fuel
    ensures WalkedAsOpened(fs, p, fuel) && CopiedAsOpened(fs, p, fuel)
  {
    AllStraight(fs, Init(p), [Last(p)], LINK_LIMIT);
    LinkNamesWhatIsCopied(fs, [], p, fuel);
    AllStraight(fs, [], p, LINK_LIMIT);
    RootIsReal(fs);
    StraightAgrees(fs, [], p, LINK_LIMIT, fuel);
    WalkAtEnd(fs, p, fuel);
  }

  /**
   * A link's target is safe, that is, wherever such a link leads somewhere and all
   * other links are safe, the confined path and the copied file are what the kernel
   * opens, if and only if no name stands in front of a `..` in it.
   */
  lemma TargetIsSafeIff(comps: seq<Name>)
    requires forall n | n in comps :: '/' !in n
    ensures AlwaysWalkedAsOpened(comps) <==> LeadingParents(comps)
    ensures AlwaysCopiedAsOpened(comps) <==> LeadingParents(comps)
  {
    if LeadingParents(comps) {
      forall fs: Tree, p: Path, fuel: nat | Meets(fs, p, comps) && LINK_LIMIT <= fuel
        ensures WalkedAsOpened(fs, p, fuel) && CopiedAsOpened(fs, p, fuel)
      {
        LeadingIsSafe(fs, p, comps, fuel);
      }
    } else {
      var i, j := FirstPair(comps);
      var c := PairIsCase(comps, i, j);
      EntryIsCase(c);
      WalkDiffers(c, LINK_LIMIT);
      CopyDiffers(c, LINK_LIMIT);
    }
  }
}
