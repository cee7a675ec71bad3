/// A finite directory tree with symbolic links, and POSIX path resolution over it.
module Filesystem {
  import opened Prelude

  type Name = string

  /** An absolute path by its components; the root directory is the empty sequence. */
  type Path = seq<Name>

  type Content = seq<int>

  /** What `readlink` returns, split at its separators; components may be `.`, `..` or empty. */
  datatype Target = Target(absolute: bool, comps: seq<Name>)

  datatype Node = File(content: Content) | Dir | Link(target: Target)

  type Tree = map<Path, Node>

  /** A name a directory entry can have. */
  predicate PlainName(n: Name) {
    n != "" && n != "." && n != ".." && '/' !in n
  }

  predicate PlainPath(p: Path) {
    forall i | 0 <= i < |p| :: PlainName(p[i])
  }

  ghost predicate WellFormed(fs: Tree) {
    && [] in fs && fs[[]].Dir?
    && (forall p | p in fs :: PlainPath(p))
    && (forall p | p in fs && p != [] :: Init(p) in fs && fs[Init(p)].Dir?)
  }

  /** How many links one resolution may follow before it fails with ELOOP. */
  const LINK_LIMIT: nat := 40

  function Parent(p: Path): Path {
    if p == [] then [] else Init(p)
  }

  /** A resolved path, and how many more links the walk could have followed. */
  datatype Found = Found(path: Path, fuel: nat)

  /** A component that stays where it is: `.`, or nothing between two separators. */
  predicate IsSkip(n: Name) {
    n == "" || n == "."
  }

  /** The directory a target is resolved from. */
  function LinkBase(base: Path, t: Target): Path {
    if t.absolute then [] else base
  }

  /**
   * Walks `comps` from directory `base`, following every link, `..` going to the
   * parent of the directory reached so far. A trailing separator leaves an empty
   * component, which asks for a directory.
   */
  function Resolve(fs: Tree, base: Path, comps: seq<Name>, fuel: nat): (r: Option<Found>)
    ensures r.Some? ==> r.value.fuel <= fuel
    decreases fuel, |comps|
  {
    if comps == [] then Some(Found(base, fuel))
    else if base !in fs || !fs[base].Dir? then None
    else if IsSkip(comps[0]) then Resolve(fs, base, comps[1..], fuel)
    else if comps[0] == ".." then Resolve(fs, Parent(base), comps[1..], fuel)
    else
      var next := base + [comps[0]];
      if next !in fs then None
      else match fs[next]
        case Link(t) =>
          if fuel == 0 then None
          else Resolve(fs, LinkBase(base, t), t.comps + comps[1..], fuel - 1)
        case _ => Resolve(fs, next, comps[1..], fuel)
  }

  function KernelPath(fs: Tree, p: seq<Name>): Option<Path> {
    match Resolve(fs, [], p, LINK_LIMIT)
    case Some(f) => Some(f.path)
    case None => None
  }

  // ----- lexical paths -----

  predicate IsName(c: Name) {
    !IsSkip(c) && c != ".."
  }

  /** One component, lexically. */
  function Move(base: Path, c: Name): Path {
    if IsSkip(c) then base else if c == ".." then Parent(base) else base + [c]
  }

  /** `resolve(base, target)`: purely lexical, so `..` cancels the component in front of it. */
  function Normalize(base: Path, comps: seq<Name>): Path
    decreases |comps|
  {
    if comps == [] then base else Normalize(Move(base, comps[0]), comps[1..])
  }

  /** All `..` components come before all names. */
  predicate LeadingParents(comps: seq<Name>) {
    forall i, j | 0 <= i < j < |comps| && comps[j] == ".." :: !IsName(comps[i])
  }

  // ----- `realpathSync` -----

  /** The path found, an exception, or a call that does not return. */
  datatype Answer = At(path: Path) | Missing | Endless

  /**
   * The walk of `realpathSync`, in JavaScript and not the kernel's: at a link that the
   * kernel can follow it starts again from the root, with the target resolved
   * lexically against the directory reached. It counts no links, so it may run for
   * ever; `fuel` is how often it may start again before that is what we call it.
   */
  function NodeWalk(fs: Tree, current: Path, rest: Path, fuel: nat): Answer
    decreases fuel, |rest|
  {
    if rest == [] then At(current)
    else
      var next := current + [rest[0]];
      if next !in fs then Missing
      else match fs[next]
        case Link(t) =>
          if KernelPath(fs, next).None? then Missing
          else if fuel == 0 then Endless
          else NodeWalk(fs, [], Normalize(LinkBase(current, t), t.comps) + rest[1..], fuel - 1)
        case _ => NodeWalk(fs, next, rest[1..], fuel)
  }

  function RealpathSync(fs: Tree, p: seq<Name>, fuel: nat): Answer {
    NodeWalk(fs, [], Normalize([], p), fuel)
  }

  /** The node at a path whose last component is not followed. */
  function LStat(fs: Tree, p: Path): Option<Node> {
    if p == [] then (if p in fs then Some(fs[p]) else None)
    else match KernelPath(fs, Init(p))
      case None => None
      case Some(d) => if d in fs && fs[d].Dir? && d + [Last(p)] in fs then Some(fs[d + [Last(p)]]) else None
  }

  /** An existing path none of whose components is a link. */
  ghost predicate Real(fs: Tree, p: Path) {
    p in fs && forall k | 0 <= k <= |p| :: p[..k] in fs ==> !fs[p[..k]].Link?
  }

  /** A path none of whose existing components is a link. */
  ghost predicate Grounded(fs: Tree, p: Path) {
    PlainPath(p) && forall k | 0 <= k <= |p| :: p[..k] in fs ==> !fs[p[..k]].Link?
  }

  // ----- properties of trees -----

  lemma {:induction false} PrefixesExist(fs: Tree, p: Path, k: nat)
    requires WellFormed(fs) && p in fs && k <= |p|
    ensures p[..k] in fs && (k < |p| ==> fs[p[..k]].Dir?)
    decreases |p|
  {
    if k < |p| {
      assert Init(p)[..k] == p[..k];
      PrefixesExist(fs, Init(p), k);
      if k == |p| - 1 {
        assert p[..k] == Init(p);
      }
    } else {
      assert p[..k] == p;
    }
  }

  lemma GroundedSnoc(fs: Tree, p: Path, n: Name)
    requires Grounded(fs, p) && PlainName(n)
    requires p + [n] in fs ==> !fs[p + [n]].Link?
    ensures Grounded(fs, p + [n])
  {
    var q := p + [n];
    forall k | 0 <= k <= |q| ensures q[..k] in fs ==> !fs[q[..k]].Link? {
      if k <= |p| {
        assert q[..k] == p[..k];
      } else {
        assert q[..k] == q;
      }
    }
  }

  /** On a link-free path, resolution is the identity if the path exists, and fails otherwise. */
  lemma {:induction false} GroundedResolves(fs: Tree, p: Path, k: nat, fuel: nat)
    requires WellFormed(fs) && Grounded(fs, p) && k <= |p| && p[..k] in fs
    ensures Resolve(fs, p[..k], p[k..], fuel) == if p in fs then Some(Found(p, fuel)) else None
    decreases |p| - k
  {
    if k == |p| {
      assert p[..k] == p && p[k..] == [];
    } else {
      var next := p[..k] + [p[k]];
      assert next == p[..k + 1] && p[k..][1..] == p[k + 1..];
      if p in fs {
        PrefixesExist(fs, p, k);
        PrefixesExist(fs, p, k + 1);
      }
      if next in fs {
        assert Init(next) == p[..k];
        GroundedResolves(fs, p, k + 1, fuel);
      }
    }
  }

  lemma GroundedKernelPath(fs: Tree, p: Path)
    requires WellFormed(fs) && Grounded(fs, p)
    ensures KernelPath(fs, p) == if p in fs then Some(p) else None
  {
    assert p[..0] == [] && p[0..] == p;
    GroundedResolves(fs, p, 0, LINK_LIMIT);
  }

  lemma GroundedLStat(fs: Tree, p: Path, n: Name)
    requires WellFormed(fs) && Grounded(fs, p)
    ensures LStat(fs, p + [n]) == if p + [n] in fs then Some(fs[p + [n]]) else None
  {
    var q := p + [n];
    assert Init(q) == p && Last(q) == n;
    GroundedKernelPath(fs, p);
  }

  // ----- properties of resolution -----

  /** Resolution only ever arrives at paths without links. */
  lemma {:induction false} ResolveIsReal(fs: Tree, base: Path, comps: seq<Name>, fuel: nat)
    requires WellFormed(fs) && Real(fs, base)
    ensures var r := Resolve(fs, base, comps, fuel); r.Some? ==> Real(fs, r.value.path)
    decreases fuel, |comps|
  {
    if comps != [] && fs[base].Dir? {
      if IsSkip(comps[0]) {
        ResolveIsReal(fs, base, comps[1..], fuel);
      } else if comps[0] == ".." {
        ParentIsReal(fs, base);
        ResolveIsReal(fs, Parent(base), comps[1..], fuel);
      } else {
        var next := base + [comps[0]];
        if next in fs {
          match fs[next] {
            case Link(t) =>
              if fuel > 0 {
                RootIsReal(fs);
                ResolveIsReal(fs, LinkBase(base, t), t.comps + comps[1..], fuel - 1);
              }
            case _ =>
              RealSnoc(fs, base, comps[0]);
              ResolveIsReal(fs, next, comps[1..], fuel);
          }
        }
      }
    }
  }

  lemma RootIsReal(fs: Tree)
    requires WellFormed(fs)
    ensures Real(fs, [])
  {
  }

  lemma ParentIsReal(fs: Tree, p: Path)
    requires WellFormed(fs) && Real(fs, p)
    ensures Real(fs, Parent(p))
  {
    if p != [] {
      forall k | 0 <= k <= |Init(p)| ensures Init(p)[..k] in fs ==> !fs[Init(p)[..k]].Link? {
        assert Init(p)[..k] == p[..k];
      }
    }
  }

  lemma RealSnoc(fs: Tree, p: Path, n: Name)
    requires Real(fs, p) && p + [n] in fs && !fs[p + [n]].Link?
    ensures Real(fs, p + [n])
  {
    var q := p + [n];
    forall k | 0 <= k <= |q| ensures q[..k] in fs ==> !fs[q[..k]].Link? {
      if k <= |p| {
        assert q[..k] == p[..k];
      } else {
        assert q[..k] == q;
      }
    }
  }

  /** Resolving in two stages: the second starts where, and with the fuel with which, the first ends. */
  lemma {:induction false} ResolveAppend(fs: Tree, base: Path, a: seq<Name>, b: seq<Name>, fuel: nat)
    requires b != []
    ensures Resolve(fs, base, a + b, fuel) ==
            match Resolve(fs, base, a, fuel) { case None => None case Some(f) => Resolve(fs, f.path, b, f.fuel) }
    decreases fuel, |a|
  {
    if a == [] {
      assert a + b == b;
    } else if base in fs && fs[base].Dir? {
      assert (a + b)[1..] == a[1..] + b;
      if IsSkip(a[0]) {
        ResolveAppend(fs, base, a[1..], b, fuel);
      } else if a[0] == ".." {
        ResolveAppend(fs, Parent(base), a[1..], b, fuel);
      } else {
        var next := base + [a[0]];
        if next in fs {
          match fs[next] {
            case Link(t) =>
              if fuel > 0 {
                ConcatAssociates(t.comps, a[1..], b);
                ResolveAppend(fs, LinkBase(base, t), t.comps + a[1..], b, fuel - 1);
              }
            case _ => ResolveAppend(fs, next, a[1..], b, fuel);
          }
        }
      }
    }
  }

  /** The components that move. */
  function Moves(comps: seq<Name>): (moves: seq<Name>)
    ensures forall i | 0 <= i < |moves| :: !IsSkip(moves[i]) && moves[i] in comps
  {
    if comps == [] then []
    else if IsSkip(comps[0]) then Moves(comps[1..])
    else [comps[0]] + Moves(comps[1..])
  }

  lemma {:induction false} EmptySecondStage(fs: Tree, base: Path, a: seq<Name>, b: seq<Name>, fuel: nat)
    requires b == []
    ensures Resolve(fs, base, a + b, fuel) == Resolve(fs, base, a, fuel)
  {
    assert a + b == a;
  }

  /** What resolves at all resolves to the same path without the components that stay. */
  lemma {:induction false} ResolveMoves(fs: Tree, base: Path, comps: seq<Name>, fuel: nat)
    requires Resolve(fs, base, comps, fuel).Some?
    ensures Resolve(fs, base, Moves(comps), fuel) == Resolve(fs, base, comps, fuel)
    decreases fuel, |comps|
  {
    if comps != [] {
      var rest := comps[1..];
      if IsSkip(comps[0]) {
        ResolveMoves(fs, base, rest, fuel);
      } else {
        assert Moves(comps)[1..] == Moves(rest);
        if comps[0] == ".." {
          ResolveMoves(fs, Parent(base), rest, fuel);
        } else {
          var next := base + [comps[0]];
          match fs[next] {
            case Link(t) => LinkMoves(fs, LinkBase(base, t), t.comps, rest, fuel - 1);
            case _ => ResolveMoves(fs, next, rest, fuel);
          }
        }
      }
    }
  }

  lemma {:induction false} LinkMoves(fs: Tree, base: Path, target: seq<Name>, rest: seq<Name>, fuel: nat)
    requires Resolve(fs, base, target + rest, fuel).Some?
    ensures Resolve(fs, base, target + Moves(rest), fuel) == Resolve(fs, base, target + rest, fuel)
    decreases fuel, |target| + |rest| + 1
  {
    if rest == [] {
      assert Moves(rest) == rest;
    } else {
      ResolveAppend(fs, base, target, rest, fuel);
      var f := Resolve(fs, base, target, fuel).value;
      ResolveMoves(fs, f.path, rest, f.fuel);
      if Moves(rest) == [] {
        EmptySecondStage(fs, base, target, Moves(rest), fuel);
      } else {
        ResolveAppend(fs, base, target, Moves(rest), fuel);
      }
    }
  }

  lemma {:induction false} ResolveMoreFuel(fs: Tree, base: Path, comps: seq<Name>, fuel: nat, more: nat)
    requires Resolve(fs, base, comps, fuel).Some?
    ensures var f := Resolve(fs, base, comps, fuel).value;
            Resolve(fs, base, comps, fuel + more) == Some(Found(f.path, f.fuel + more))
    decreases fuel, |comps|
  {
    if comps != [] {
      if IsSkip(comps[0]) {
        ResolveMoreFuel(fs, base, comps[1..], fuel, more);
      } else if comps[0] == ".." {
        ResolveMoreFuel(fs, Parent(base), comps[1..], fuel, more);
      } else {
        var next := base + [comps[0]];
        match fs[next] {
          case Link(t) =>
            ResolveMoreFuel(fs, LinkBase(base, t), t.comps + comps[1..], fuel - 1, more);
          case _ => ResolveMoreFuel(fs, next, comps[1..], fuel, more);
        }
      }
    }
  }

  /** Two successful walks, one after the other, are one walk with the fuel of both. */
  lemma ResolveChain(fs: Tree, base: Path, a: seq<Name>, b: seq<Name>, fuelA: nat, fuelB: nat, middle: Found,
        last: Found)
    requires Resolve(fs, base, a, fuelA) == Some(middle)
    requires Resolve(fs, middle.path, b, fuelB) == Some(last)
    ensures Resolve(fs, base, a + b, fuelA + fuelB) == Some(Found(last.path, last.fuel + middle.fuel))
  {
    ResolveMoreFuel(fs, base, a, fuelA, fuelB);
    if b == [] {
      assert a + b == a;
    } else {
      ResolveMoreFuel(fs, middle.path, b, fuelB, middle.fuel);
      ResolveAppend(fs, base, a, b, fuelA + fuelB);
    }
  }

  // ----- properties of lexical paths -----

  lemma {:induction false} NormalizeNames(base: Path, comps: seq<Name>)
    requires forall i | 0 <= i < |comps| :: comps[i] != ".."
    ensures Normalize(base, comps) == base + Moves(comps)
    decreases |comps|
  {
    if comps == [] {
      assert base + [] == base;
    } else {
      NormalizeNames(Move(base, comps[0]), comps[1..]);
      if !IsSkip(comps[0]) {
        ConcatAssociates(base, [comps[0]], Moves(comps[1..]));
      }
    }
  }

  lemma {:induction false} NormalizeAppend(base: Path, a: seq<Name>, b: seq<Name>)
    ensures Normalize(base, a + b) == Normalize(Normalize(base, a), b)
    decreases |a|
  {
    if a == [] {
      assert a + b == b;
    } else {
      assert (a + b)[1..] == a[1..] + b;
      NormalizeAppend(Move(base, a[0]), a[1..], b);
    }
  }

  lemma {:induction false} NormalizePlain(base: Path, names: seq<Name>)
    requires forall i | 0 <= i < |names| :: IsName(names[i])
    ensures Normalize(base, names) == base + names
    decreases |names|
  {
    if names == [] {
      assert base + names == base;
    } else {
      NormalizePlain(base + [names[0]], names[1..]);
      assert base + [names[0]] + names[1..] == base + names;
    }
  }

  lemma {:induction false} PlainIsNormal(p: Path)
    requires PlainPath(p)
    ensures Normalize([], p) == p
  {
    NormalizePlain([], p);
    assert [] + p == p;
  }

  /** Every component of the result is a name that was there before. */
  lemma {:induction false} NormalizeUses(base: Path, comps: seq<Name>, c: Name)
    requires c in Normalize(base, comps)
    ensures c in base || (c in comps && IsName(c))
    decreases |comps|
  {
    if comps != [] {
      NormalizeUses(Move(base, comps[0]), comps[1..], c);
    }
  }

  lemma {:induction false} NormalizeTwice(base: Path, comps: seq<Name>)
    requires PlainPath(base)
    ensures Normalize([], Normalize(base, comps)) == Normalize(base, comps)
  {
    var p := Normalize(base, comps);
    forall i | 0 <= i < |p| ensures IsName(p[i]) {
      NormalizeUses(base, comps, p[i]);
    }
    NormalizePlain([], p);
    assert [] + p == p;
  }

  /** `.` and empty components do not matter. */
  lemma {:induction false} NormalizeMoves(base: Path, comps: seq<Name>)
    ensures Normalize(base, Moves(comps)) == Normalize(base, comps)
    decreases |comps|
  {
    if comps != [] {
      NormalizeMoves(Move(base, comps[0]), comps[1..]);
      if !IsSkip(comps[0]) {
        assert Moves(comps)[1..] == Moves(comps[1..]);
      }
    }
  }

  // ----- properties of `realpathSync` -----

  /** Whatever it finds is an existing path without links. */
  lemma {:induction false} NodeWalkIsReal(fs: Tree, current: Path, rest: Path, fuel: nat)
    requires WellFormed(fs) && Real(fs, current)
    ensures var r := NodeWalk(fs, current, rest, fuel); r.At? ==> Real(fs, r.path)
    decreases fuel, |rest|
  {
    if rest != [] {
      var next := current + [rest[0]];
      if next in fs {
        match fs[next] {
          case Link(t) =>
            if fuel > 0 {
              RootIsReal(fs);
              NodeWalkIsReal(fs, [], Normalize(LinkBase(current, t), t.comps) + rest[1..], fuel - 1);
            }
          case _ =>
            RealSnoc(fs, current, rest[0]);
            NodeWalkIsReal(fs, next, rest[1..], fuel);
        }
      }
    }
  }

  lemma FoundIsReal(fs: Tree, p: seq<Name>, fuel: nat)
    requires WellFormed(fs)
    ensures RealpathSync(fs, p, fuel).At? ==> Real(fs, RealpathSync(fs, p, fuel).path)
  {
    RootIsReal(fs);
    NodeWalkIsReal(fs, [], Normalize([], p), fuel);
  }

  /** An answer once given does not depend on the fuel. */
  lemma {:induction false} NodeWalkMoreFuel(fs: Tree, current: Path, rest: Path, fuel: nat, more: nat)
    requires !NodeWalk(fs, current, rest, fuel).Endless?
    ensures NodeWalk(fs, current, rest, fuel + more) == NodeWalk(fs, current, rest, fuel)
    decreases fuel, |rest|
  {
    if rest != [] {
      var next := current + [rest[0]];
      if next in fs {
        match fs[next] {
          case Link(t) =>
            if fuel > 0 && KernelPath(fs, next).Some? {
              var again := Normalize(LinkBase(current, t), t.comps) + rest[1..];
              NodeWalkMoreFuel(fs, [], again, fuel - 1, more);
            }
          case _ => NodeWalkMoreFuel(fs, next, rest[1..], fuel, more);
        }
      }
    }
  }

  lemma {:induction false} NodeStep(fs: Tree, current: Path, c: Name, rest: Path, fuel: nat)
    requires current + [c] in fs && !fs[current + [c]].Link?
    ensures NodeWalk(fs, current, [c] + rest, fuel) == NodeWalk(fs, current + [c], rest, fuel)
  {
    assert ([c] + rest)[1..] == rest;
  }

  /** The walk passes a path without links unhindered. */
  lemma {:induction false} NodeWalkPasses(fs: Tree, p: Path, k: nat, rest: Path, fuel: nat)
    requires WellFormed(fs) && Real(fs, p) && k <= |p|
    ensures NodeWalk(fs, p[..k], p[k..] + rest, fuel) == NodeWalk(fs, p, rest, fuel)
    decreases |p| - k
  {
    if k == |p| {
      assert p[..k] == p && p[k..] + rest == rest;
    } else {
      PrefixesExist(fs, p, k + 1);
      assert p[..k] + [p[k]] == p[..k + 1];
      assert p[k..] + rest == [p[k]] + (p[k + 1..] + rest);
      NodeStep(fs, p[..k], p[k], p[k + 1..] + rest, fuel);
      NodeWalkPasses(fs, p, k + 1, rest, fuel);
    }
  }

  lemma {:induction false} NodeWalkFrom(fs: Tree, p: Path, rest: Path, fuel: nat)
    requires WellFormed(fs) && Real(fs, p)
    ensures NodeWalk(fs, [], p + rest, fuel) == NodeWalk(fs, p, rest, fuel)
  {
    assert p[..0] == [] && p[0..] == p;
    NodeWalkPasses(fs, p, 0, rest, fuel);
  }

  /** On a path without links it is the identity, or fails if the path does not exist. */
  lemma {:induction false} NodeWalkGrounded(fs: Tree, p: Path, k: nat, fuel: nat)
    requires WellFormed(fs) && Grounded(fs, p) && k <= |p|
    ensures NodeWalk(fs, p[..k], p[k..], fuel) == if p in fs || k == |p| then At(p) else Missing
    decreases |p| - k
  {
    if k == |p| {
      assert p[..k] == p && p[k..] == [];
    } else {
      assert p[..k] + [p[k]] == p[..k + 1] && p[k..][1..] == p[k + 1..];
      if p in fs {
        PrefixesExist(fs, p, k + 1);
      }
      NodeWalkGrounded(fs, p, k + 1, fuel);
      assert k + 1 == |p| ==> p[..k + 1] == p;
    }
  }

  lemma GroundedRealpath(fs: Tree, p: Path, fuel: nat)
    requires WellFormed(fs) && Grounded(fs, p)
    ensures RealpathSync(fs, p, fuel) == if p in fs then At(p) else Missing
  {
    PlainIsNormal(p);
    assert p[..0] == [] && p[0..] == p;
    NodeWalkGrounded(fs, p, 0, fuel);
  }

  // ----- when it agrees with the kernel -----

  /** The kernel's walk follows only links in whose target no name stands before a `..`. */
  predicate Straight(fs: Tree, base: Path, comps: seq<Name>, fuel: nat)
    decreases fuel, |comps|
  {
    if comps == [] || base !in fs || !fs[base].Dir? then true
    else if IsSkip(comps[0]) then Straight(fs, base, comps[1..], fuel)
    else if comps[0] == ".." then Straight(fs, Parent(base), comps[1..], fuel)
    else
      var next := base + [comps[0]];
      if next !in fs then true
      else match fs[next]
        case Link(t) =>
          LeadingParents(t.comps)
          && (fuel > 0 ==> Straight(fs, LinkBase(base, t), t.comps + comps[1..], fuel - 1))
        case _ => Straight(fs, next, comps[1..], fuel)
  }

  lemma LeadingThenNames(a: seq<Name>, b: seq<Name>)
    requires LeadingParents(a) && forall i | 0 <= i < |b| :: b[i] != ".."
    ensures LeadingParents(a + b)
  {
  }

  lemma NamesOnly(comps: seq<Name>)
    requires LeadingParents(comps) && comps != [] && IsName(comps[0])
    ensures forall i | 0 <= i < |comps| :: comps[i] != ".."
    ensures forall i | 0 <= i < |comps[1..]| :: comps[1..][i] != ".."
  {
    assert forall i | 0 <= i < |comps[1..]| :: comps[1..][i] == comps[i + 1];
  }

  /** One component that the kernel can follow on the way, it can follow alone. */
  lemma {:induction false} FirstResolves(fs: Tree, base: Path, c: Name, rest: seq<Name>, fuel: nat)
    requires WellFormed(fs) && Real(fs, base) && fuel <= LINK_LIMIT && Resolve(fs, base, [c] + rest, fuel).Some?
    ensures KernelPath(fs, base + [c]).Some?
  {
    if rest == [] {
      assert [c] + rest == [c];
    } else {
      ResolveAppend(fs, base, [c], rest, fuel);
    }
    ResolveMoreFuel(fs, base, [c], fuel, LINK_LIMIT - fuel);
    assert Grounded(fs, base);
    assert base[..0] == [] && base[0..] == base;
    GroundedResolves(fs, base, 0, LINK_LIMIT);
    ResolveAppend(fs, [], base, [c], LINK_LIMIT);
  }

  /**
   * What the kernel finds by following such links only, `realpathSync` finds too: its
   * lexical steps end where the kernel's do.
   */
  lemma {:induction false} StraightAgrees(fs: Tree, base: Path, comps: seq<Name>, kernel: nat, fuel: nat)
    requires WellFormed(fs) && Real(fs, base) && LeadingParents(comps)
    requires kernel <= LINK_LIMIT && kernel <= fuel
    requires Resolve(fs, base, comps, kernel).Some? && Straight(fs, base, comps, kernel)
    ensures NodeWalk(fs, [], Normalize(base, comps), fuel) == At(Resolve(fs, base, comps, kernel).value.path)
    decreases kernel, |comps|
  {
    if comps == [] {
      NodeWalkFrom(fs, base, [], fuel);
      assert base + [] == base;
    } else {
      var c, rest := comps[0], comps[1..];
      if !IsName(c) {
        ParentIsReal(fs, base);
        StraightAgrees(fs, Move(base, c), rest, kernel, fuel);
      } else {
        var next := base + [c];
        match fs[next] {
          case Link(t) =>
            assert comps == [c] + rest;
            NamesOnly(comps);
            StraightLink(fs, base, c, rest, kernel, fuel, t);
          case _ =>
            RealSnoc(fs, base, c);
            StraightAgrees(fs, next, rest, kernel, fuel);
        }
      }
    }
  }

  lemma {:induction false} NormalizeTail(base: Path, a: seq<Name>, b: seq<Name>)
    requires forall i | 0 <= i < |b| :: b[i] != ".."
    ensures Normalize(base, a + b) == Normalize(base, a) + Moves(b)
  {
    NormalizeAppend(base, a, b);
    NormalizeNames(Normalize(base, a), b);
  }

  lemma {:induction false} NodeFollows(fs: Tree, base: Path, c: Name, rest: Path, fuel: nat, t: Target)
    requires WellFormed(fs) && Real(fs, base) && fuel > 0
    requires base + [c] in fs && fs[base + [c]] == Link(t) && KernelPath(fs, base + [c]).Some?
    ensures NodeWalk(fs, [], base + ([c] + rest), fuel)
         == NodeWalk(fs, [], Normalize(LinkBase(base, t), t.comps) + rest, fuel - 1)
  {
    NodeWalkFrom(fs, base, [c] + rest, fuel);
    assert ([c] + rest)[1..] == rest;
  }

  /** At a link it fails or starts again. */
  lemma {:induction false} NodeAtLink(fs: Tree, base: Path, c: Name, rest: Path, fuel: nat, t: Target)
    requires WellFormed(fs) && Real(fs, base) && base + [c] in fs && fs[base + [c]] == Link(t)
    ensures var r := NodeWalk(fs, [], base + ([c] + rest), fuel);
            r.At? ==> fuel > 0 && r == NodeWalk(fs, [], Normalize(LinkBase(base, t), t.comps) + rest, fuel - 1)
  {
    NodeWalkFrom(fs, base, [c] + rest, fuel);
    assert ([c] + rest)[1..] == rest;
  }

  /** The kernel at a link. */
  lemma {:induction false} KernelFollows(fs: Tree, base: Path, c: Name, rest: seq<Name>, kernel: nat, t: Target)
    requires IsName(c) && base + [c] in fs && fs[base + [c]] == Link(t)
    requires Resolve(fs, base, [c] + rest, kernel).Some? && Straight(fs, base, [c] + rest, kernel)
    ensures kernel > 0 && LeadingParents(t.comps)
    ensures var from := LinkBase(base, t);
            && Resolve(fs, base, [c] + rest, kernel) == Resolve(fs, from, t.comps + rest, kernel - 1)
            && Straight(fs, from, t.comps + rest, kernel - 1)
  {
    assert ([c] + rest)[1..] == rest;
  }

  lemma {:induction false} NormalizeFirst(base: Path, c: Name, rest: seq<Name>)
    requires IsName(c) && forall i | 0 <= i < |rest| :: rest[i] != ".."
    ensures Normalize(base, [c] + rest) == base + ([c] + Moves(rest))
  {
    assert ([c] + rest)[1..] == rest;
    NormalizeNames(base + [c], rest);
  }

  /** `realpathSync` at a link, with a target and a rest that name no parent behind a name. */
  lemma {:induction false} LexicalLink(fs: Tree, base: Path, c: Name, rest: seq<Name>, fuel: nat, t: Target)
    requires WellFormed(fs) && Real(fs, base) && IsName(c) && forall i | 0 <= i < |rest| :: rest[i] != ".."
    requires base + [c] in fs && fs[base + [c]] == Link(t) && KernelPath(fs, base + [c]).Some? && fuel > 0
    ensures NodeWalk(fs, [], Normalize(base, [c] + rest), fuel)
         == NodeWalk(fs, [], Normalize(LinkBase(base, t), t.comps + rest), fuel - 1)
  {
    NormalizeTail(LinkBase(base, t), t.comps, rest);
    NormalizeFirst(base, c, rest);
    NodeFollows(fs, base, c, Moves(rest), fuel, t);
  }

  lemma {:induction false} StraightFromLink(
      fs: Tree, base: Path, c: Name, rest: seq<Name>, kernel: nat, t: Target, from: Path)
    requires WellFormed(fs) && Real(fs, base) && IsName(c) && forall i | 0 <= i < |rest| :: rest[i] != ".."
    requires Resolve(fs, base, [c] + rest, kernel).Some? && Straight(fs, base, [c] + rest, kernel)
    requires base + [c] in fs && fs[base + [c]] == Link(t) && from == LinkBase(base, t)
    ensures kernel > 0 && Real(fs, from) && LeadingParents(t.comps + rest)
    ensures Resolve(fs, base, [c] + rest, kernel) == Resolve(fs, from, t.comps + rest, kernel - 1)
    ensures Straight(fs, from, t.comps + rest, kernel - 1)
  {
    KernelFollows(fs, base, c, rest, kernel, t);
    LeadingThenNames(t.comps, rest);
    RootIsReal(fs);
  }

  lemma {:induction false} StraightLink(
      fs: Tree, base: Path, c: Name, rest: seq<Name>, kernel: nat, fuel: nat, t: Target)
    requires WellFormed(fs) && Real(fs, base) && IsName(c) && forall i | 0 <= i < |rest| :: rest[i] != ".."
    requires kernel <= LINK_LIMIT && kernel <= fuel
    requires Resolve(fs, base, [c] + rest, kernel).Some? && Straight(fs, base, [c] + rest, kernel)
    requires base + [c] in fs && fs[base + [c]] == Link(t)
    ensures NodeWalk(fs, [], Normalize(base, [c] + rest), fuel)
         == At(Resolve(fs, base, [c] + rest, kernel).value.path)
    decreases kernel, |rest| + 1, 0
  {
    var from := LinkBase(base, t);
    StraightFromLink(fs, base, c, rest, kernel, t, from);
    FirstResolves(fs, base, c, rest, kernel);
    StraightAgrees(fs, from, t.comps + rest, kernel - 1, fuel - 1);
    LexicalLink(fs, base, c, rest, fuel, t);
  }

  /** A walk in two stages follows such links in both. */
  lemma {:induction false} StraightAppend(fs: Tree, base: Path, a: seq<Name>, b: seq<Name>, fuel: nat)
    requires Straight(fs, base, a + b, fuel) && Resolve(fs, base, a, fuel).Some?
    ensures Straight(fs, base, a, fuel)
    ensures var f := Resolve(fs, base, a, fuel).value; Straight(fs, f.path, b, f.fuel)
    decreases fuel, |a|
  {
    if a == [] {
      assert a + b == b;
    } else {
      assert (a + b)[1..] == a[1..] + b;
      if IsSkip(a[0]) {
        StraightAppend(fs, base, a[1..], b, fuel);
      } else if a[0] == ".." {
        StraightAppend(fs, Parent(base), a[1..], b, fuel);
      } else {
        var next := base + [a[0]];
        match fs[next] {
          case Link(t) =>
            ConcatAssociates(t.comps, a[1..], b);
            StraightAppend(fs, LinkBase(base, t), t.comps + a[1..], b, fuel - 1);
          case _ => StraightAppend(fs, next, a[1..], b, fuel);
        }
      }
    }
  }

  lemma {:induction false} StraightLess(fs: Tree, base: Path, comps: seq<Name>, fuel: nat, less: nat)
    requires Straight(fs, base, comps, fuel) && less <= fuel
    ensures Straight(fs, base, comps, less)
    decreases fuel, |comps|
  {
    if comps != [] && base in fs && fs[base].Dir? {
      if IsSkip(comps[0]) {
        StraightLess(fs, base, comps[1..], fuel, less);
      } else if comps[0] == ".." {
        StraightLess(fs, Parent(base), comps[1..], fuel, less);
      } else {
        var next := base + [comps[0]];
        if next in fs {
          match fs[next] {
            case Link(t) =>
              if less > 0 {
                StraightLess(fs, LinkBase(base, t), t.comps + comps[1..], fuel - 1, less - 1);
              }
            case _ => StraightLess(fs, next, comps[1..], fuel, less);
          }
        }
      }
    }
  }
}
